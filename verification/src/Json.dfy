// Canonical JSON: sorted keys, compact separators, and a reader for the compact form.

module Json {
  import opened Wrappers
  import opened Sorting

  // The signed subset: no floating point. An object's fields are in insertion order.
  datatype Json =
    | Null
    | Bool(flag: bool)
    | Int(number: int)
    | Str(text: string)
    | Arr(items: seq<Json>)
    | Obj(fields: seq<Field>)

  datatype Field = Field(key: string, value: Json)

  function Text(text: string): Json {
    Str(text)
  }

  // A list of strings as JSON values.
  function Strings(texts: seq<string>): (r: seq<Json>)
    ensures |r| == |texts| && forall i | 0 <= i < |r| :: r[i] == Str(texts[i])
  {
    Map(Text, texts)
  }

  // ------------------------------------------------------------------ text

  const HEX := "0123456789abcdef"

  function Hex4(n: nat): string
    requires n < 0x10000
  {
    [HEX[n / 0x1000], HEX[n / 0x100 % 0x10], HEX[n / 0x10 % 0x10], HEX[n % 0x10]]
  }

  function Unit(n: nat): string
    requires n < 0x10000
  {
    "\\u" + Hex4(n)
  }

  // One character inside a string literal. With ascii set, everything outside the printable
  // ASCII range is written as one or two \u escapes.
  function Escape(c: char, ascii: bool): (r: string)
    ensures r != [] && r[0] != '\"'
  {
    if c == '\"' then "\\\""
    else if c == '\\' then "\\\\"
    else if c as int == 8 then "\\b"
    else if c as int == 9 then "\\t"
    else if c as int == 10 then "\\n"
    else if c as int == 12 then "\\f"
    else if c as int == 13 then "\\r"
    else if c < ' ' || (ascii && '~' < c) then
      var n := c as int;
      if n < 0x10000 then Unit(n)
      else Unit(0xD800 + (n - 0x10000) / 0x400) + Unit(0xDC00 + (n - 0x10000) % 0x400)
    else [c]
  }

  function EscapeAll(s: string, ascii: bool): string {
    if s == [] then [] else Escape(s[0], ascii) + EscapeAll(s[1..], ascii)
  }

  function Quote(s: string, ascii: bool): string {
    "\"" + EscapeAll(s, ascii) + "\""
  }

  // ------------------------------------------------------------------ numbers

  function Digit(n: nat): char
    requires n < 10
  {
    "0123456789"[n]
  }

  function Numeral(n: nat): (r: string)
    ensures r != [] && forall i :: 0 <= i < |r| ==> '0' <= r[i] <= '9'
  {
    if n < 10 then [Digit(n)] else Numeral(n / 10) + [Digit(n % 10)]
  }

  function Signed(n: int): string {
    if n < 0 then "-" + Numeral(-n) else Numeral(n)
  }

  // ------------------------------------------------------------------ values

  // The text of a value whose fields are written in the order they are stored.
  function Render(v: Json, ascii: bool): string {
    match v
    case Null => "null"
    case Bool(flag) => if flag then "true" else "false"
    case Int(number) => Signed(number)
    case Str(text) => Quote(text, ascii)
    case Arr(items) => if items == [] then "[]" else "[" + RenderItems(items, ascii) + "]"
    case Obj(fields) => if fields == [] then "{}" else "{" + RenderFields(fields, ascii) + "}"
  }

  function RenderItems(items: seq<Json>, ascii: bool): string
    requires items != []
  {
    if |items| == 1 then Render(items[0], ascii)
    else Render(items[0], ascii) + "," + RenderItems(items[1..], ascii)
  }

  function RenderField(field: Field, ascii: bool): string {
    Quote(field.key, ascii) + ":" + Render(field.value, ascii)
  }

  function RenderFields(fields: seq<Field>, ascii: bool): string
    requires fields != []
  {
    if |fields| == 1 then RenderField(fields[0], ascii)
    else RenderField(fields[0], ascii) + "," + RenderFields(fields[1..], ascii)
  }

  predicate KeyLeq(a: Field, b: Field) {
    TextLeq(a.key, b.key)
  }

  // Every object's fields, at every depth, in key order.
  function Canon(v: Json): Json {
    match v
    case Arr(items) => Arr(CanonItems(items))
    case Obj(fields) => Obj(Sorted(KeyLeq, CanonFields(fields)))
    case _ => v
  }

  function CanonItems(items: seq<Json>): (r: seq<Json>)
    ensures |r| == |items| && forall i :: 0 <= i < |r| ==> r[i] == Canon(items[i])
  {
    if items == [] then [] else [Canon(items[0])] + CanonItems(items[1..])
  }

  function CanonFields(fields: seq<Field>): (r: seq<Field>)
    ensures |r| == |fields|
    ensures forall i :: 0 <= i < |r| ==> r[i] == Field(fields[i].key, Canon(fields[i].value))
  {
    if fields == [] then []
    else [Field(fields[0].key, Canon(fields[0].value))] + CanonFields(fields[1..])
  }

  // canonical_json
  function Encode(v: Json): string {
    Render(Canon(v), false)
  }

  // json.dumps with its default ASCII output.
  function EncodeAscii(v: Json): string {
    Render(Canon(v), true)
  }

  // ------------------------------------------------------------------ reading back

  function HexValue(c: char): Option<nat> {
    if '0' <= c <= '9' then Some(c as int - 48)
    else if 'a' <= c <= 'f' then Some(c as int - 87)
    else None
  }

  // A \u escape at the front of s.
  function ReadUnit(s: string): Option<nat> {
    if |s| < 6 || s[0] != '\\' || s[1] != 'u' then None
    else match (HexValue(s[2]), HexValue(s[3]), HexValue(s[4]), HexValue(s[5]))
      case (Some(a), Some(b), Some(c), Some(d)) => Some(a * 0x1000 + b * 0x100 + c * 0x10 + d)
      case _ => None
  }

  // One character of a string literal, and how many characters of text it took.
  function ReadChar(s: string): (r: Option<(char, nat)>)
    requires s != []
    ensures r.Some? ==> 0 < r.value.1 <= |s|
  {
    if s[0] == '\"' then None
    else if s[0] != '\\' then Some((s[0], 1))
    else if |s| < 2 then None
    else if s[1] == '\"' || s[1] == '\\' then Some((s[1], 2))
    else if s[1] == 'b' then Some((8 as char, 2))
    else if s[1] == 't' then Some((9 as char, 2))
    else if s[1] == 'n' then Some((10 as char, 2))
    else if s[1] == 'f' then Some((12 as char, 2))
    else if s[1] == 'r' then Some((13 as char, 2))
    else match ReadUnit(s)
      case None => None
      case Some(n) =>
        if 0xD800 <= n < 0xDC00 then
          match ReadUnit(s[6..])
          case Some(low) =>
            if 0xDC00 <= low < 0xE000 then
              Some(((0x10000 + (n - 0xD800) * 0x400 + (low - 0xDC00)) as char, 12))
            else None
          case None => None
        else if n < 0xD800 || 0xE000 <= n < 0x10000 then Some((n as char, 6))
        else None
  }

  // The rest of a string literal after its opening quote.
  function ReadText(s: string): (r: Option<(string, string)>)
    decreases |s|
    ensures r.Some? ==> |r.value.1| < |s|
  {
    if s == [] then None
    else if s[0] == '\"' then Some(([], s[1..]))
    else match ReadChar(s)
      case None => None
      case Some((c, n)) =>
        match ReadText(s[n..])
        case None => None
        case Some((text, rest)) => Some(([c] + text, rest))
  }

  predicate IsDigit(c: char) {
    '0' <= c <= '9'
  }

  function ReadDigits(s: string, acc: nat): (r: (nat, string))
    ensures |r.1| <= |s|
    ensures s != [] && IsDigit(s[0]) ==> |r.1| < |s|
  {
    if s == [] || !IsDigit(s[0]) then (acc, s)
    else ReadDigits(s[1..], 10 * acc + (s[0] as int - 48))
  }

  function ReadValue(s: string): (r: Option<(Json, string)>)
    decreases |s|, 0
    ensures r.Some? ==> |r.value.1| < |s|
  {
    if s == [] then None
    else if "null" <= s then Some((Null, s[4..]))
    else if "true" <= s then Some((Bool(true), s[4..]))
    else if "false" <= s then Some((Bool(false), s[5..]))
    else if s[0] == '\"' then
      match ReadText(s[1..])
      case None => None
      case Some((text, rest)) => Some((Str(text), rest))
    else if "[]" <= s then Some((Arr([]), s[2..]))
    else if "{}" <= s then Some((Obj([]), s[2..]))
    else if s[0] == '[' then
      match ReadItems(s[1..])
      case None => None
      case Some((items, rest)) => Some((Arr(items), rest))
    else if s[0] == '{' then
      match ReadFields(s[1..])
      case None => None
      case Some((fields, rest)) => Some((Obj(fields), rest))
    else if IsDigit(s[0]) then
      var (n, rest) := ReadDigits(s, 0);
      Some((Int(n), rest))
    else if s[0] == '-' && |s| > 1 && IsDigit(s[1]) then
      var (n, rest) := ReadDigits(s[1..], 0);
      Some((Int(-(n as int)), rest))
    else None
  }

  // Comma-separated values up to the closing bracket.
  function ReadItems(s: string): (r: Option<(seq<Json>, string)>)
    decreases |s|, 1
    ensures r.Some? ==> |r.value.1| < |s|
  {
    match ReadValue(s)
    case None => None
    case Some((v, rest)) =>
      if rest == [] then None
      else if rest[0] == ']' then Some(([v], rest[1..]))
      else if rest[0] != ',' then None
      else match ReadItems(rest[1..])
        case None => None
        case Some((more, last)) => Some(([v] + more, last))
  }

  function ReadField(s: string): (r: Option<(Field, string)>)
    decreases |s|, 1
    ensures r.Some? ==> |r.value.1| < |s|
  {
    if s == [] || s[0] != '\"' then None
    else match ReadText(s[1..])
      case None => None
      case Some((key, rest)) =>
        if rest == [] || rest[0] != ':' then None
        else match ReadValue(rest[1..])
          case None => None
          case Some((v, last)) => Some((Field(key, v), last))
  }

  function ReadFields(s: string): (r: Option<(seq<Field>, string)>)
    decreases |s|, 2
    ensures r.Some? ==> |r.value.1| < |s|
  {
    match ReadField(s)
    case None => None
    case Some((field, rest)) =>
      if rest == [] then None
      else if rest[0] == '}' then Some(([field], rest[1..]))
      else if rest[0] != ',' then None
      else match ReadFields(rest[1..])
        case None => None
        case Some((more, last)) => Some(([field] + more, last))
  }

  // A complete document.
  function Decode(s: string): Option<Json> {
    match ReadValue(s)
    case Some((v, rest)) => if rest == [] then Some(v) else None
    case None => None
  }
}
