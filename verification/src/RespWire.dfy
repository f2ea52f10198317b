// The wire formats byte by byte: which first bytes the readers know, and what they take for each.

module RespWire {
  import opened Wrappers
  import opened PyBytes
  import opened RespGrammar
  import opened RespProofs

  // ------------------------------------------------------------------ numerals

  // Decimal numerals, the last digit last.
  lemma NumeralBytes(n: nat, d: nat)
    requires d < 10
    ensures Decimal(d) == [48 + d]
    ensures n > 0 ==> Decimal(10 * n + d) == Decimal(n) + [48 + d]
  {
    assert (10 * n + d) / 10 == n && (10 * n + d) % 10 == d;
  }

  // Blanks around a number, its sign and leading zeros do not change what it says.
  lemma IntegerBytes(before: bytes, sign: bytes, zeros: bytes, n: nat, after: bytes)
    requires forall b | b in before + after :: b in {9, 10, 11, 12, 13, 32}
    requires sign == [] || sign == [43] || sign == [45]
    requires forall b | b in zeros :: b == 48
    ensures ParseInt(before + sign + zeros + Decimal(n) + after) == Some(if sign == [45] then -(n as int) else n)
  {
    var digits := zeros + Decimal(n);
    var core := sign + digits;
    ZerosDigits(zeros, n);
    hide Decimal, Digits, StripLeft, StripRight;
    assert digits[0] in digits && digits[|digits| - 1] in digits;
    assert core[0] == if sign == [] then digits[0] else sign[0];
    assert core[|core| - 1] == digits[|digits| - 1];
    assert forall b | b in before :: b in before + after;
    assert forall b | b in after :: b in before + after;
    assert before + sign + zeros + Decimal(n) + after == before + (core + after);
    StripsLeft(before, core + after);
    StripsRight(core, after);
    CoreParsed(before + (core + after), sign, digits, n);
  }

  lemma CoreParsed(s: bytes, sign: bytes, digits: bytes, n: nat)
    requires sign == [] || sign == [43] || sign == [45]
    requires digits != [] && (forall b | b in digits :: 48 <= b <= 57) && Digits(digits, 0) == Some(n)
    requires StripRight(StripLeft(s)) == sign + digits
    ensures ParseInt(s) == Some(if sign == [45] then -(n as int) else n)
  {
    hide StripLeft, StripRight, Digits;
    var core := sign + digits;
    assert digits[0] in digits;
    if sign == [] {
      assert core == digits;
    } else {
      assert core[0] == sign[0] && core[1..] == digits;
    }
  }

  lemma {:induction false} StripsLeft(blanks: bytes, s: bytes)
    requires forall b | b in blanks :: b in {9, 10, 11, 12, 13, 32}
    requires s != [] && s[0] !in {9, 10, 11, 12, 13, 32}
    ensures StripLeft(blanks + s) == s
  {
    if blanks == [] {
      assert blanks + s == s;
    } else {
      assert blanks[0] in blanks && (blanks + s)[1..] == blanks[1..] + s;
      assert forall b | b in blanks[1..] :: b in blanks;
      StripsLeft(blanks[1..], s);
    }
  }

  lemma {:induction false} StripsRight(s: bytes, blanks: bytes)
    requires forall b | b in blanks :: b in {9, 10, 11, 12, 13, 32}
    requires s != [] && s[|s| - 1] !in {9, 10, 11, 12, 13, 32}
    ensures StripRight(s + blanks) == s
  {
    if blanks == [] {
      assert s + blanks == s;
    } else {
      var n := |blanks| - 1;
      assert blanks[n] in blanks && (s + blanks)[..|s + blanks| - 1] == s + blanks[..n];
      assert forall b | b in blanks[..n] :: b in blanks;
      StripsRight(s, blanks[..n]);
    }
  }

  lemma {:induction false} ZerosDigits(zeros: bytes, n: nat)
    requires forall b | b in zeros :: b == 48
    ensures var digits := zeros + Decimal(n);
            && digits != [] && (forall b | b in digits :: 48 <= b <= 57) && Digits(digits, 0) == Some(n)
  {
    var digits := zeros + Decimal(n);
    assert forall b | b in Decimal(n) :: IsDigit(b);
    if zeros == [] {
      assert digits == Decimal(n);
      DigitsDecimal(n);
    } else {
      assert zeros[0] in zeros && digits[1..] == zeros[1..] + Decimal(n);
      assert forall b | b in zeros[1..] :: b in zeros;
      ZerosDigits(zeros[1..], n);
    }
  }

  // A single underscore between two digits is passed over.
  lemma UnderscoreBytes(a: bytes, b: bytes)
    requires a != [] && b != [] && (forall x | x in a :: 48 <= x <= 57) && forall x | x in b :: 48 <= x <= 57
    ensures ParseInt(a + [95] + b) == ParseInt(a + b)
  {
    var s, t := a + [95] + b, a + b;
    assert s[0] == a[0] && t[0] == a[0] && a[0] in a;
    assert s[|s| - 1] == b[|b| - 1] && t[|t| - 1] == b[|b| - 1] && b[|b| - 1] in b;
    assert StripLeft(s) == s && StripRight(s) == s && StripLeft(t) == t && StripRight(t) == t;
    UnderscorePassed(a, b, 0);
  }

  lemma {:induction false} UnderscorePassed(a: bytes, b: bytes, acc: nat)
    requires b != [] && (forall x | x in a :: 48 <= x <= 57) && forall x | x in b :: 48 <= x <= 57
    ensures Digits(a + [95] + b, acc) == Digits(a + b, acc)
  {
    if a == [] {
      assert a + [95] + b == [95] + b && a + b == b && ([95] + b)[1..] == b && b[0] in b;
    } else {
      assert a[0] in a && (a + [95] + b)[1..] == a[1..] + [95] + b && (a + b)[1..] == a[1..] + b;
      assert forall x | x in a[1..] :: x in a;
      UnderscorePassed(a[1..], b, 10 * acc + (a[0] - 48));
    }
  }

  // Nothing else is a number: no blank text, and no text with any other byte in it.
  lemma OtherBytes(s: bytes)
    requires exists b :: b in s && !(48 <= b <= 57) && b !in {9, 10, 11, 12, 13, 32, 43, 45, 95}
    ensures ParseInt(s) == None && ParseInt([]) == None
  {
    var b :| b in s && !(48 <= b <= 57) && b !in {9, 10, 11, 12, 13, 32, 43, 45, 95};
    KeptLeft(s, b);
    KeptRight(StripLeft(s), b);
    var t := StripRight(StripLeft(s));
    if t[0] == 43 || t[0] == 45 {
      assert t == [t[0]] + t[1..];
      NoDigits(t[1..], 0, b);
    } else {
      NoDigits(t, 0, b);
    }
  }

  lemma {:induction false} KeptLeft(s: bytes, b: byte)
    requires b in s && !IsSpace(b)
    ensures b in StripLeft(s)
  {
    if IsSpace(s[0]) {
      assert s == [s[0]] + s[1..];
      KeptLeft(s[1..], b);
    }
  }

  lemma {:induction false} KeptRight(s: bytes, b: byte)
    requires b in s && !IsSpace(b)
    ensures b in StripRight(s)
  {
    if IsSpace(s[|s| - 1]) {
      assert s == s[..|s| - 1] + [s[|s| - 1]];
      KeptRight(s[..|s| - 1], b);
    }
  }

  lemma {:induction false} NoDigits(s: bytes, acc: nat, b: byte)
    requires b in s && !IsDigit(b) && b != 95
    ensures Digits(s, acc) == None
  {
    if s[0] != b {
      assert s == [s[0]] + s[1..];
      if IsDigit(s[0]) {
        NoDigits(s[1..], 10 * acc + (s[0] - 48), b);
      } else if s[0] == 95 && |s| > 1 && IsDigit(s[1]) {
        NoDigits(s[1..], acc, b);
      }
    }
  }

  // ------------------------------------------------------------------ replies

  // The reader takes the whole of s, and no more, whatever follows.
  ghost predicate OneReply(s: bytes) {
    forall tail: bytes :: ParseReply(s + tail) == Parsed(s, tail)
  }

  lemma Exactly(s: bytes, tail: bytes)
    requires ParseReply(s + tail).Parsed? && ParseReply(s + tail).rest == tail
    ensures ParseReply(s + tail) == Parsed(s, tail)
  {
    var p := ParseReply(s + tail);
    assert p.value + p.rest == s + tail;
    assert |p.value| == |s|;
    assert p.value == (s + tail)[..|s|] == s;
  }

  // One line, for each of the seven first bytes + - : , ( # _
  lemma LineReplies(first: byte, text: bytes)
    requires first in {43, 45, 58, 44, 40, 35, 95} && 10 !in text
    ensures OneReply([first] + text + [10])
  {
    var s := [first] + text + [10];
    forall tail: bytes ensures ParseReply(s + tail) == Parsed(s, tail) {
      assert (s + tail)[1..] == text + [LF] + tail;
      LineOf(text, tail);
      assert Line(text + [LF] + tail) == text + [10];
      assert (s + tail)[1 + |text + [10]|..] == tail;
      Exactly(s, tail);
    }
  }

  // A size, that many bytes and two more, for each of $ ! =
  lemma BulkReplies(first: byte, body: bytes, x: byte, y: byte)
    requires first in {36, 33, 61}
    ensures OneReply([first] + Decimal(|body|) + [13, 10] + body + [x, y])
  {
    var s := [first] + Decimal(|body|) + [13, 10] + body + [x, y];
    hide ParseReply, Decimal;
    forall tail: bytes ensures ParseReply(s + tail) == Parsed(s, tail) {
      BulkRead(first, body, x, y, tail);
      Exactly(s, tail);
    }
  }

  lemma BulkRead(first: byte, body: bytes, x: byte, y: byte, tail: bytes)
    requires first in {36, 33, 61}
    ensures var p := ParseReply([first] + Decimal(|body|) + [13, 10] + body + [x, y] + tail); p.Parsed? && p.rest == tail
  {
    var head, later := [first] + Decimal(|body|) + [13, 10], body + [x, y] + tail;
    hide Decimal, ParseInt, Line;
    assert [first] + Decimal(|body|) + [13, 10] + body + [x, y] + tail == head + later;
    HeadRead(first, |body|, later);
    assert later[|body| + 2..] == tail;
  }

  // A first byte, a line, and what follows it
  lemma LineRead(first: byte, line: bytes, later: bytes)
    requires 10 !in line
    ensures var s := [first] + line + [13, 10] + later;
            && s != [] && s[0] == first && Line(s[1..]) == line + [13, 10] && Body(Line(s[1..]), 0) == line
            && s[1 + |Line(s[1..])|..] == later
  {
    hide Line;
    var s := [first] + line + [13, 10] + later;
    assert s[1..] == line + CRLF + later;
    HeaderLine(line, later);
    assert s[1 + |line + CRLF|..] == later;
  }

  lemma HeadRead(first: byte, n: nat, later: bytes)
    ensures var s := [first] + Decimal(n) + [13, 10] + later;
            && s != [] && s[0] == first && Line(s[1..]) == Decimal(n) + [13, 10]
            && ParseInt(Body(Line(s[1..]), 0)) == Some(n) && s[1 + |Line(s[1..])|..] == later
  {
    hide Decimal, ParseInt, Line;
    LineRead(first, Decimal(n), later);
    ParseDecimal(n);
  }

  // A negative size or count is a whole reply, for each of $ ! = * ~ > % |
  lemma NegativeReplies(first: byte, n: nat)
    requires first in {36, 33, 61, 42, 126, 62, 37, 124} && n > 0
    ensures OneReply([first, 45] + Decimal(n) + [13, 10])
  {
    var s := [first, 45] + Decimal(n) + [13, 10];
    hide ParseReply, Decimal;
    forall tail: bytes ensures ParseReply(s + tail) == Parsed(s, tail) {
      NegativeRead(first, n, tail);
      Exactly(s, tail);
    }
  }

  lemma NegativeRead(first: byte, n: nat, tail: bytes)
    requires first in {36, 33, 61, 42, 126, 62, 37, 124} && n > 0
    ensures var p := ParseReply([first, 45] + Decimal(n) + [13, 10] + tail); p.Parsed? && p.rest == tail
  {
    hide Decimal, ParseInt, Line;
    assert [first, 45] + Decimal(n) + [13, 10] + tail == [first] + ([45] + Decimal(n)) + [13, 10] + tail;
    LineRead(first, [45] + Decimal(n), tail);
    ParseNegative(n);
  }

  // A count and that many replies for each of * ~ >, and twice as many for % and |.
  lemma CountedReplies(first: byte, parts: seq<bytes>, n: nat)
    requires first in {42, 126, 62, 37, 124}
    requires |parts| == if first == 37 || first == 124 then 2 * n else n
    requires forall p | p in parts :: OneReply(p)
    ensures OneReply([first] + Decimal(n) + [13, 10] + Join(parts))
  {
    var s := [first] + Decimal(n) + [13, 10] + Join(parts);
    hide ParseReply, OneReply, Decimal, Join;
    forall tail: bytes ensures ParseReply(s + tail) == Parsed(s, tail) {
      CountedRead(first, parts, n, tail);
    }
    IsOne(s);
  }

  lemma CountedRead(first: byte, parts: seq<bytes>, n: nat, tail: bytes)
    requires first in {42, 126, 62, 37, 124}
    requires |parts| == if first == 37 || first == 124 then 2 * n else n
    requires forall p | p in parts :: OneReply(p)
    ensures var s := [first] + Decimal(n) + [13, 10] + Join(parts); ParseReply(s + tail) == Parsed(s, tail)
  {
    hide ParseReply, ParseReplies, OneReply, Decimal, Join;
    PartsRead(parts, tail);
    CountedHeader(first, n, Join(parts) + tail);
    Glue([first] + Decimal(n) + [13, 10], Join(parts), tail);
    Exactly([first] + Decimal(n) + [13, 10] + Join(parts), tail);
  }

  lemma IsOne(s: bytes)
    requires forall tail: bytes :: ParseReply(s + tail) == Parsed(s, tail)
    ensures OneReply(s)
  {
  }

  lemma {:induction false} PartsRead(parts: seq<bytes>, tail: bytes)
    requires forall p | p in parts :: OneReply(p)
    ensures ParseReplies(|parts|, Join(parts) + tail) == Parsed(Join(parts), tail)
  {
    hide ParseReply, ParseReplies, OneReply;
    if parts == [] {
      assert Join(parts) + tail == tail;
      NoneRead(tail);
    } else {
      hide Join;
      assert parts[0] in parts && forall p | p in parts[1..] :: p in parts;
      PartsRead(parts[1..], tail);
      JoinFirst(parts, tail);
      PartRead(parts[0], Join(parts[1..]) + tail, |parts|, Join(parts[1..]), tail);
    }
  }

  lemma JoinFirst(parts: seq<bytes>, tail: bytes)
    requires parts != []
    ensures Join(parts) == parts[0] + Join(parts[1..])
    ensures Join(parts) + tail == parts[0] + (Join(parts[1..]) + tail)
  {
    Glue(parts[0], Join(parts[1..]), tail);
  }

  lemma NoneRead(tail: bytes)
    ensures ParseReplies(0, tail) == Parsed([], tail)
  {
  }

  lemma PartRead(part: bytes, later: bytes, count: nat, more: bytes, tail: bytes)
    requires OneReply(part) && count > 0 && ParseReplies(count - 1, later) == Parsed(more, tail)
    ensures ParseReplies(count, part + later) == Parsed(part + more, tail)
  {
    hide ParseReply;
    assert ParseReply(part + later) == Parsed(part, later);
  }

  // Any other first byte is refused, and so is a size or count that is no number.
  lemma OtherReplies(first: byte, line: bytes, s: bytes)
    requires first !in {43, 45, 58, 44, 40, 35, 95, 36, 33, 61, 42, 126, 62, 37, 124}
             || (first in {36, 33, 61, 42, 126, 62, 37, 124} && 10 !in line && ParseInt(line) == None)
    ensures ParseReply([first] + line + [13, 10] + s) == Failed(ValueError)
  {
    var all := [first] + line + [13, 10] + s;
    hide ParseInt, Line;
    assert all[0] == first;
    if 10 !in line {
      LineRead(first, line, s);
    }
  }

  // A body shorter than its size is a lost connection.
  lemma ShortReplies(first: byte, n: nat, s: bytes)
    requires first in {36, 33, 61} && |s| < n + 2
    ensures ParseReply([first] + Decimal(n) + [13, 10] + s) == Failed(ConnectionError)
    ensures ParseReply([]) == Failed(ConnectionError)
  {
    hide Decimal, ParseInt, Line;
    HeadRead(first, n, s);
  }

  // ------------------------------------------------------------------ commands

  // An argument on the wire
  function ArgumentBytes(arg: bytes): bytes {
    [36] + Decimal(|arg|) + [13, 10] + arg + [13, 10]
  }

  lemma {:induction false} ArgumentsJoined(args: seq<bytes>)
    ensures EncodeArguments(args) == Join(seq(|args|, i requires 0 <= i < |args| => ArgumentBytes(args[i])))
  {
    var parts := seq(|args|, i requires 0 <= i < |args| => ArgumentBytes(args[i]));
    if args != [] {
      ArgumentsJoined(args[1..]);
      assert parts[1..] == seq(|args[1..]|, i requires 0 <= i < |args[1..]| => ArgumentBytes(args[1..][i]));
      assert parts[0] == EncodeArgument(args[0]);
    }
  }

  // A command is * and its number of arguments, and each argument $, its size and its bytes; each
  // part ends in CR LF. It is read as its arguments and its own bytes.
  lemma CommandBytes(args: seq<bytes>, tail: bytes)
    ensures var parts := seq(|args|, i requires 0 <= i < |args| => ArgumentBytes(args[i]));
            var s := [42] + Decimal(|args|) + [13, 10] + Join(parts);
            ParseCommand(s + tail) == Parsed(Command(args, s), tail)
  {
    ArgumentsJoined(args);
    CommandRoundTrip(args, tail);
  }

  // Nothing else begins a command or an argument.
  lemma OtherCommands(s: bytes)
    requires s != []
    ensures s[0] != 42 ==> ParseCommand(s) == Failed(ValueError)
    ensures s[0] != 36 ==> ParseArgument(s) == Failed(ValueError)
    ensures ParseCommand([]) == Parsed(Command([], []), []) && ParseArgument([]) == Failed(ValueError)
  {
    assert Line(s)[0] == s[0];
  }

  // An argument whose bytes are not followed by CR LF is a lost connection.
  lemma UnendedArgument(arg: bytes, x: byte, y: byte, s: bytes)
    requires [x, y] != [13, 10]
    ensures ParseArgument([36] + Decimal(|arg|) + [13, 10] + arg + [x, y] + s) == Failed(ConnectionError)
  {
    hide Decimal, ParseInt, Line, ParseArgument, Body;
    var head, later := [36] + Decimal(|arg|) + [13, 10], arg + [x, y] + s;
    CountLine(36, |arg|, later);
    Parts(head, arg, [x, y], s);
    Unended(head + later, head, |arg|, later);
  }

  lemma Parts(head: bytes, a: bytes, b: bytes, c: bytes)
    requires |b| == 2
    ensures head + a + b + c == head + (a + b + c) && (head + (a + b + c))[|head|..] == a + b + c
    ensures (a + b + c)[|a|..|a| + 2] == b
  {
  }

  lemma Unended(s: bytes, head: bytes, size: nat, later: bytes)
    requires Line(s) == head && head != [] && head[0] == 36 && |head| <= |s| && s[|head|..] == later
    requires ParseInt(Body(head, 1)) == Some(size) && |later| >= size + 2 && later[size..size + 2] != [13, 10]
    ensures ParseArgument(s) == Failed(ConnectionError)
  {
    hide ParseInt, Line;
  }
}
