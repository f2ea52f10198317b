// What canonical text looks like: keys in rising order at every depth, nothing but printable ASCII
// in the ASCII form, and no two spellings of a value.

module CanonicalOrder {
  import opened Wrappers
  import opened Sorting
  import opened Json
  import opened JsonProofs

  // ------------------------------------------------------------------ the order of keys

  // In every object, at any depth, each key is a proper prefix of the keys after it, or has the
  // smaller code point where it first differs from them.
  ghost predicate KeysAscend(v: Json) {
    match v
    case Arr(items) => forall i | 0 <= i < |items| :: KeysAscend(items[i])
    case Obj(fields) =>
      && (forall i | 0 <= i < |fields| :: KeysAscend(fields[i].value))
      && forall i, j | 0 <= i < j < |fields| ::
           var a, b := fields[i].key, fields[j].key;
           a < b || exists k :: 0 <= k < |a| && k < |b| && a[..k] == b[..k] && a[k] < b[k]
    case _ => true
  }

  lemma {:induction false} CanonAscends(v: Json)
    requires WellKeyed(v)
    ensures KeysAscend(Canon(v))
    decreases v
  {
    match v
    case Arr(items) =>
      forall i | 0 <= i < |items| ensures KeysAscend(CanonItems(items)[i]) {
        CanonAscends(items[i]);
      }
    case Obj(fields) =>
      var plain := CanonFields(fields);
      forall i | 0 <= i < |fields| ensures KeysAscend(plain[i].value) {
        CanonAscends(fields[i].value);
      }
      hide WellKeyed;
      FieldsAscend(plain);
    case _ =>
  }

  lemma FieldsAscend(fields: seq<Field>)
    requires DistinctKeys(fields) && forall i | 0 <= i < |fields| :: KeysAscend(fields[i].value)
    ensures KeysAscend(Obj(Sorted(KeyLeq, fields)))
  {
    var r := Sorted(KeyLeq, fields);
    hide Sorted, DistinctKeys, KeysAscend, Precedes;
    forall i | 0 <= i < |r| ensures KeysAscend(r[i].value) {
      assert r[i] in multiset(r);
      assert r[i] in fields;
    }
    forall i, j | 0 <= i < j < |r| ensures Precedes(r[i].key, r[j].key) {
      InOrder(fields, i, j);
    }
    AscendsWhen(r);
  }

  lemma AscendsWhen(fields: seq<Field>)
    requires forall i | 0 <= i < |fields| :: KeysAscend(fields[i].value)
    requires forall i, j | 0 <= i < j < |fields| :: Precedes(fields[i].key, fields[j].key)
    ensures KeysAscend(Obj(fields))
  {
    forall i, j | 0 <= i < j < |fields|
      ensures var a, b := fields[i].key, fields[j].key;
              a < b || exists k :: 0 <= k < |a| && k < |b| && a[..k] == b[..k] && a[k] < b[k]
    {
      assert Precedes(fields[i].key, fields[j].key);
    }
  }

  lemma InOrder(fields: seq<Field>, i: nat, j: nat)
    requires DistinctKeys(fields) && i < j < |fields|
    ensures Precedes(Sorted(KeyLeq, fields)[i].key, Sorted(KeyLeq, fields)[j].key)
  {
    var r := Sorted(KeyLeq, fields);
    hide Sorted, Precedes, WellKeyed, TextLeq;
    KeyOrder();
    SortedAscends(KeyLeq, fields);
    assert KeyLeq(r[i], r[j]);
    PermutedApart(fields, r);
    TextLeqExactly(r[i].key, r[j].key);
  }

  // Reading canonical text, in either form, gives objects whose keys ascend at every depth.
  lemma KeysInOrder(v: Json)
    requires WellKeyed(v)
    ensures Decode(Encode(v)).Some? && KeysAscend(Decode(Encode(v)).value)
    ensures Decode(EncodeAscii(v)).Some? && KeysAscend(Decode(EncodeAscii(v)).value)
  {
    CanonicalDecodes(v);
    CanonAscends(v);
  }

  // ------------------------------------------------------------------ the characters

  predicate Printable(s: string, ascii: bool) {
    forall c | c in s :: ' ' <= c && (ascii ==> c <= '~')
  }

  lemma UnitPrintable(n: nat)
    requires n < 0x10000
    ensures Printable(Unit(n), true)
  {
  }

  lemma EscapePrintable(c: char, ascii: bool)
    ensures Printable(Escape(c, ascii), ascii)
  {
    hide Unit;
    if c < ' ' || (ascii && '~' < c) {
      var n := c as int;
      if n < 0x10000 {
        UnitPrintable(n);
      } else {
        UnitPrintable(0xD800 + (n - 0x10000) / 0x400);
        UnitPrintable(0xDC00 + (n - 0x10000) % 0x400);
      }
    }
  }

  lemma {:induction false} QuotePrintable(s: string, ascii: bool)
    ensures Printable(EscapeAll(s, ascii), ascii) && Printable(Quote(s, ascii), ascii)
  {
    hide Escape;
    if s != [] {
      EscapePrintable(s[0], ascii);
      QuotePrintable(s[1..], ascii);
    }
  }

  lemma SignedPrintable(n: int)
    ensures Printable(Signed(n), true)
  {
  }

  lemma {:induction false} RenderPrintable(v: Json, ascii: bool)
    ensures Printable(Render(v, ascii), ascii)
    decreases v, 0
  {
    hide Quote, Signed;
    match v
    case Null =>
    case Bool(flag) =>
    case Int(number) => SignedPrintable(number);
    case Str(text) => QuotePrintable(text, ascii);
    case Arr(items) =>
      if items != [] {
        ItemsPrintable(items, ascii);
      }
    case Obj(fields) =>
      if fields != [] {
        FieldsPrintable(fields, ascii);
      }
  }

  lemma {:induction false} ItemsPrintable(items: seq<Json>, ascii: bool)
    requires items != []
    ensures Printable(RenderItems(items, ascii), ascii)
    decreases items, 1
  {
    RenderPrintable(items[0], ascii);
    if |items| > 1 {
      ItemsPrintable(items[1..], ascii);
    }
  }

  lemma {:induction false} FieldsPrintable(fields: seq<Field>, ascii: bool)
    requires fields != []
    ensures Printable(RenderFields(fields, ascii), ascii)
    decreases fields, 1
  {
    hide Quote, Render;
    QuotePrintable(fields[0].key, ascii);
    RenderPrintable(fields[0].value, ascii);
    if |fields| > 1 {
      FieldsPrintable(fields[1..], ascii);
    }
  }

  // Canonical text is one line without control characters, and the other form printable ASCII.
  lemma OneLine(v: Json)
    ensures forall c | c in Encode(v) :: c as int >= 0x20
    ensures forall c | c in EncodeAscii(v) :: 0x20 <= c as int <= 0x7E
  {
    RenderPrintable(Canon(v), false);
    RenderPrintable(Canon(v), true);
  }

  // Canonical text keeps every character that needs no escape as it is.
  lemma {:induction false} TextKept(t: string)
    requires forall c | c in t :: c as int >= 0x20 && c as int != 0x22 && c as int != 0x5C
    ensures Encode(Str(t)) == "\"" + t + "\""
  {
    KeptAll(t);
  }

  lemma {:induction false} KeptAll(t: string)
    requires forall c | c in t :: c as int >= 0x20 && c as int != 0x22 && c as int != 0x5C
    ensures EscapeAll(t, false) == t
  {
    hide Escape;
    if t != [] {
      assert t == [t[0]] + t[1..];
      assert forall c | c in t[1..] :: c in t;
      KeptAll(t[1..]);
      assert t[0] in t;
      KeptOne(t[0]);
    }
  }

  lemma KeptOne(c: char)
    requires c as int >= 0x20 && c as int != 0x22 && c as int != 0x5C
    ensures Escape(c, false) == [c]
  {
  }

  // What takes the place of a character that needs an escape.
  lemma PairEscapes(c: char, ascii: bool)
    ensures c as int == 0x22 ==> Escape(c, ascii) == ['\\', '\"']
    ensures c as int == 0x5C ==> Escape(c, ascii) == ['\\', '\\']
    ensures c as int == 8 ==> Escape(c, ascii) == ['\\', 'b']
    ensures c as int == 9 ==> Escape(c, ascii) == ['\\', 't']
    ensures c as int == 10 ==> Escape(c, ascii) == ['\\', 'n']
    ensures c as int == 12 ==> Escape(c, ascii) == ['\\', 'f']
    ensures c as int == 13 ==> Escape(c, ascii) == ['\\', 'r']
  {
  }

  function DigitOf(c: char): int {
    if c <= '9' then c as int - '0' as int else c as int - 'a' as int + 10
  }

  // A \u escape spells the number in four digits of lower-case hexadecimal.
  lemma UnitSpells(n: nat)
    requires n < 0x10000
    ensures var u := Unit(n);
            && |u| == 6 && u[0] == '\\' && u[1] == 'u'
            && (forall i | 2 <= i < 6 :: '0' <= u[i] <= '9' || 'a' <= u[i] <= 'f')
            && n == 0x1000 * DigitOf(u[2]) + 0x100 * DigitOf(u[3]) + 0x10 * DigitOf(u[4]) + DigitOf(u[5])
  {
    HexSpells(n / 0x1000);
    HexSpells(n / 0x100 % 0x10);
    HexSpells(n / 0x10 % 0x10);
    HexSpells(n % 0x10);
    HexDigits(n);
    hide DigitOf;
  }

  lemma HexSpells(n: nat)
    requires n < 16
    ensures DigitOf(HEX[n]) == n && ('0' <= HEX[n] <= '9' || 'a' <= HEX[n] <= 'f')
  {
  }

  // Other control characters, and in the ASCII form all that is not ASCII, are written so, in two
  // surrogates from U+10000 on.
  lemma UnitEscapes(c: char, ascii: bool)
    requires c as int < 0x20 || (ascii && c as int > 0x7E)
    requires c as int !in {8, 9, 10, 12, 13}
    ensures var n := c as int;
            Escape(c, ascii)
            == if n < 0x10000 then Unit(n) else Unit(0xD800 + (n - 0x10000) / 1024) + Unit(0xDC00 + (n - 0x10000) % 1024)
  {
    hide Unit;
  }

  // ------------------------------------------------------------------ the spelling of values

  lemma ScalarTexts(flag: bool)
    ensures Encode(Null) == "null" && Encode(Bool(true)) == "true" && Encode(Bool(false)) == "false"
    ensures Encode(Arr([])) == "[]" && Encode(Obj([])) == "{}"
  {
  }

  // Numbers are decimal, the last digit last, and a minus sign for those below zero.
  lemma NumberTexts(n: nat, d: nat)
    requires d < 10
    ensures Encode(Int(d)) == ['0' + d as char]
    ensures n > 0 ==> Encode(Int(10 * n + d)) == Encode(Int(n)) + ['0' + d as char]
    ensures n > 0 ==> Encode(Int(-(n as int))) == ['-'] + Encode(Int(n))
  {
    assert Digit(d) == '0' + d as char;
    assert (10 * n + d) / 10 == n && (10 * n + d) % 10 == d;
  }

  lemma {:induction false} ItemsMore(items: seq<Json>, v: Json)
    requires items != []
    ensures RenderItems(items + [v], false) == RenderItems(items, false) + [','] + Render(v, false)
  {
    hide Render;
    var all := items + [v];
    if |items| == 1 {
      assert all[1..] == [v];
    } else {
      assert all[1..] == items[1..] + [v];
      ItemsMore(items[1..], v);
      Glue(Render(items[0], false) + [','], RenderItems(items[1..], false), [','] + Render(v, false));
    }
  }

  // A list is its items' texts with commas between them, in brackets: one more item goes before
  // the closing bracket.
  lemma ItemAdded(items: seq<Json>, v: Json)
    ensures Encode(Arr([v])) == ['['] + Encode(v) + [']']
    ensures items != [] ==>
              && Encode(Arr(items)) != []
              && Encode(Arr(items + [v])) == Encode(Arr(items))[..|Encode(Arr(items))| - 1] + [','] + Encode(v) + [']']
  {
    CanonItemsMore(items, v);
    hide Render, RenderItems, Canon, CanonItems;
    ListText([Canon(v)]);
    OneItem(v);
    if items != [] {
      var before := CanonItems(items);
      ListText(before);
      ListText(before + [Canon(v)]);
      ItemsMore(before, Canon(v));
      var body := RenderItems(before, false);
      assert (['['] + body + [']'])[..|['['] + body + [']']| - 1] == ['['] + body;
      Glue(['['], body, [','] + Render(Canon(v), false));
    }
  }

  lemma ListText(items: seq<Json>)
    requires items != []
    ensures Render(Arr(items), false) == ['['] + RenderItems(items, false) + [']']
  {
    hide RenderItems;
  }

  lemma OneItem(v: Json)
    ensures RenderItems([Canon(v)], false) == Render(Canon(v), false)
  {
    hide Render, Canon;
  }

  lemma CanonItemsMore(items: seq<Json>, v: Json)
    ensures CanonItems(items + [v]) == CanonItems(items) + [Canon(v)]
    ensures Canon(Arr(items)) == Arr(CanonItems(items)) && Canon(Arr([v])) == Arr([Canon(v)])
    ensures Canon(Arr(items + [v])) == Arr(CanonItems(items) + [Canon(v)])
    ensures items != [] ==> CanonItems(items) != []
  {
    hide Canon;
    assert CanonItems(items + [v]) == CanonItems(items) + [Canon(v)];
    assert CanonItems([v]) == [Canon(v)];
    CanonList(items);
    CanonList([v]);
    CanonList(items + [v]);
  }

  lemma CanonList(items: seq<Json>)
    ensures Canon(Arr(items)) == Arr(CanonItems(items))
  {
    hide CanonItems;
  }

  // An object is its fields' texts, key, colon and value, with commas between them, in braces. A
  // field whose key comes after all others stands last.
  lemma FieldAdded(fields: seq<Field>, f: Field)
    requires forall g | g in fields :: Precedes(g.key, f.key)
    ensures Encode(Obj([f])) == ['{'] + Encode(Str(f.key)) + [':'] + Encode(f.value) + ['}']
    ensures fields != [] ==>
              && Encode(Obj(fields)) != []
              && Encode(Obj(fields + [f]))
                 == Encode(Obj(fields))[..|Encode(Obj(fields))| - 1]
                    + [','] + Encode(Str(f.key)) + [':'] + Encode(f.value) + ['}']
  {
    CanonFieldsMore(fields, f);
    var last := Field(f.key, Canon(f.value));
    hide Render, RenderFields, RenderField, Canon, CanonFields, Precedes, Sorted;
    ObjectText([last]);
    FieldText(f);
    var key, value := Render(Str(f.key), false), Render(Canon(f.value), false);
    Opened(key, value);
    if fields != [] {
      var before := Sorted(KeyLeq, CanonFields(fields));
      ObjectText(before);
      ObjectText(before + [last]);
      FieldsMore(before, last);
      Spliced(RenderFields(before, false), key, value);
    }
  }

  lemma Opened(key: string, value: string)
    ensures ['{'] + (key + [':'] + value) + ['}'] == ['{'] + key + [':'] + value + ['}']
  {
  }

  // Before the closing brace
  lemma Spliced(body: string, key: string, value: string)
    ensures var all := ['{'] + body + ['}'];
            all[..|all| - 1] + [','] + key + [':'] + value + ['}'] == ['{'] + (body + [','] + (key + [':'] + value)) + ['}']
  {
    var all := ['{'] + body + ['}'];
    assert all[..|all| - 1] == ['{'] + body;
  }

  lemma ObjectText(fields: seq<Field>)
    requires fields != []
    ensures Render(Obj(fields), false) == ['{'] + RenderFields(fields, false) + ['}']
    ensures |fields| == 1 ==> RenderFields(fields, false) == RenderField(fields[0], false)
  {
    hide RenderField;
  }

  lemma FieldText(f: Field)
    ensures RenderField(Field(f.key, Canon(f.value)), false)
         == Render(Str(f.key), false) + [':'] + Render(Canon(f.value), false)
    ensures Canon(Str(f.key)) == Str(f.key)
  {
    hide Quote;
  }

  lemma {:induction false} FieldsMore(fields: seq<Field>, f: Field)
    requires fields != []
    ensures RenderFields(fields + [f], false) == RenderFields(fields, false) + [','] + RenderField(f, false)
  {
    hide RenderField;
    var all := fields + [f];
    if |fields| == 1 {
      assert all[1..] == [f];
    } else {
      assert all[1..] == fields[1..] + [f];
      FieldsMore(fields[1..], f);
      Glue(RenderField(fields[0], false) + [','], RenderFields(fields[1..], false), [','] + RenderField(f, false));
    }
  }

  lemma CanonFieldsMore(fields: seq<Field>, f: Field)
    requires forall g | g in fields :: Precedes(g.key, f.key)
    ensures var last := Field(f.key, Canon(f.value));
            && Canon(Obj([f])) == Obj([last])
            && Canon(Obj(fields)) == Obj(Sorted(KeyLeq, CanonFields(fields)))
            && Canon(Obj(fields + [f])) == Obj(Sorted(KeyLeq, CanonFields(fields)) + [last])
            && (fields != [] ==> Sorted(KeyLeq, CanonFields(fields)) != [])
  {
    var last, plain := Field(f.key, Canon(f.value)), CanonFields(fields);
    hide Canon, CanonFields, Precedes, Sorted, TextLeq;
    CanonObject(fields);
    CanonObject([f]);
    CanonObject(fields + [f]);
    PlainMore(fields, f);
    AfterAll(fields, f);
    SortedLast(plain, last);
    SortedOne(last);
  }

  lemma PlainMore(fields: seq<Field>, f: Field)
    ensures CanonFields(fields + [f]) == CanonFields(fields) + [Field(f.key, Canon(f.value))]
    ensures CanonFields([f]) == [Field(f.key, Canon(f.value))]
  {
    hide Canon;
  }

  lemma SortedOne(f: Field)
    ensures Sorted(KeyLeq, [f]) == [f]
  {
    assert [f][1..] == [] && Sorted(KeyLeq, []) == [];
  }

  lemma AfterAll(fields: seq<Field>, f: Field)
    requires forall g | g in fields :: Precedes(g.key, f.key)
    ensures forall g | g in CanonFields(fields) :: TextLeq(g.key, f.key) && !TextLeq(f.key, g.key)
  {
    hide Canon, Precedes, TextLeq;
    forall g | g in CanonFields(fields) ensures TextLeq(g.key, f.key) && !TextLeq(f.key, g.key) {
      var i :| 0 <= i < |fields| && CanonFields(fields)[i] == g;
      assert fields[i] in fields;
      NotBack(g.key, f.key);
    }
  }

  lemma CanonObject(fields: seq<Field>)
    ensures Canon(Obj(fields)) == Obj(Sorted(KeyLeq, CanonFields(fields)))
  {
    hide CanonFields, Sorted;
  }

  lemma NotBack(a: string, b: string)
    requires Precedes(a, b)
    ensures TextLeq(a, b) && !TextLeq(b, a)
  {
    hide TextLeq;
    TextLeqExactly(a, b);
    TextLeqTotal(a, b);
  }

  // What comes after everything is put last.
  lemma {:induction false} SortedLast(fields: seq<Field>, last: Field)
    requires forall g | g in fields :: KeyLeq(g, last) && !KeyLeq(last, g)
    ensures Sorted(KeyLeq, fields + [last]) == Sorted(KeyLeq, fields) + [last]
  {
    hide KeyLeq;
    if fields == [] {
      assert [last][1..] == [] && fields + [last] == [last];
    } else {
      assert (fields + [last])[1..] == fields[1..] + [last];
      assert fields == [fields[0]] + fields[1..];
      SortedLast(fields[1..], last);
      InsertBefore(fields[0], Sorted(KeyLeq, fields[1..]), last);
    }
  }

  lemma {:induction false} InsertBefore(x: Field, s: seq<Field>, last: Field)
    requires KeyLeq(x, last)
    ensures Insert(KeyLeq, x, s + [last]) == Insert(KeyLeq, x, s) + [last]
  {
    hide KeyLeq;
    if s != [] && !KeyLeq(x, s[0]) {
      assert (s + [last])[1..] == s[1..] + [last];
      InsertBefore(x, s[1..], last);
    }
  }
}
