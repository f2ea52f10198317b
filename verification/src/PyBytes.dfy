// The parts of Python's byte strings the relay proxies rely on: line reading, bounded
// reading, slicing off a terminator, and int() applied to a byte string.

module PyBytes {
  import opened Wrappers

  type byte = b: int | 0 <= b < 256
  type bytes = seq<byte>

  const LF: byte := 10
  const CRLF: bytes := [13, 10]

  // The bytes of an ASCII text.
  function Ascii(text: string): (r: bytes)
    ensures |r| == |text|
    ensures forall i :: 0 <= i < |r| ==> r[i] == text[i] as int % 128
  {
    seq(|text|, i requires 0 <= i < |text| => text[i] as int % 128)
  }

  // How many bytes readline() consumes: up to and including the first line feed, or all of them.
  function LineLength(s: bytes): (n: nat)
    ensures n <= |s|
    ensures forall i :: 0 <= i < n - 1 ==> s[i] != LF
    ensures n < |s| ==> 0 < n && s[n - 1] == LF
    ensures s != [] ==> 0 < n
  {
    if s == [] then 0 else if s[0] == LF then 1 else 1 + LineLength(s[1..])
  }

  function Line(s: bytes): bytes {
    s[..LineLength(s)]
  }

  lemma {:induction false} LineOf(text: bytes, rest: bytes)
    requires LF !in text
    ensures LineLength(text + [LF] + rest) == |text| + 1
  {
    var s := text + [LF] + rest;
    if text == [] {
      assert s[0] == LF;
    } else {
      assert s[0] == text[0] && s[1..] == text[1..] + [LF] + rest;
      LineOf(text[1..], rest);
    }
  }

  // line[start:-2] for a line of any length.
  function Body(line: bytes, start: nat): bytes {
    if |line| >= start + 2 then line[start..|line| - 2] else []
  }

  predicate IsSpace(b: byte) {
    9 <= b <= 13 || b == 32
  }

  predicate IsDigit(b: byte) {
    48 <= b <= 57
  }

  function StripLeft(s: bytes): bytes {
    if s != [] && IsSpace(s[0]) then StripLeft(s[1..]) else s
  }

  function StripRight(s: bytes): bytes {
    if s != [] && IsSpace(s[|s| - 1]) then StripRight(s[..|s| - 1]) else s
  }

  // Digits with single underscores between them.
  function Digits(s: bytes, acc: nat): Option<nat> {
    if s == [] then Some(acc)
    else if IsDigit(s[0]) then Digits(s[1..], 10 * acc + (s[0] - 48))
    else if s[0] == 95 && |s| > 1 && IsDigit(s[1]) then Digits(s[1..], acc)
    else None
  }

  // int(s) for a byte string; None where Python raises ValueError.
  function ParseInt(s: bytes): Option<int> {
    var t := StripRight(StripLeft(s));
    var signed := t != [] && (t[0] == 43 || t[0] == 45);
    var digits := if signed then t[1..] else t;
    if digits == [] || !IsDigit(digits[0]) then None
    else match Digits(digits, 0)
      case None => None
      case Some(n) =>
        var magnitude: int := n;
        Some(if signed && t[0] == 45 then -magnitude else magnitude)
  }

  // The canonical decimal numeral of n.
  function Decimal(n: nat): (r: bytes)
    ensures r != [] && forall i :: 0 <= i < |r| ==> IsDigit(r[i])
  {
    if n < 10 then [48 + n] else Decimal(n / 10) + [48 + n % 10]
  }

  lemma {:induction false} DigitsAppend(a: bytes, d: byte, acc: nat)
    requires forall i :: 0 <= i < |a| ==> IsDigit(a[i])
    requires IsDigit(d)
    ensures Digits(a, acc).Some?
    ensures Digits(a + [d], acc) == Some(10 * Digits(a, acc).value + (d - 48))
  {
    if a == [] {
      assert (a + [d])[1..] == [];
    } else {
      assert (a + [d])[0] == a[0] && (a + [d])[1..] == a[1..] + [d];
      DigitsAppend(a[1..], d, 10 * acc + (a[0] - 48));
    }
  }

  lemma {:induction false} DigitsDecimal(n: nat)
    ensures Digits(Decimal(n), 0) == Some(n)
  {
    if n >= 10 {
      DigitsDecimal(n / 10);
      DigitsAppend(Decimal(n / 10), 48 + n % 10, 0);
    } else {
      assert Decimal(n)[1..] == [];
    }
  }

  // int() undoes the decimal numeral.
  lemma ParseDecimal(n: nat)
    ensures ParseInt(Decimal(n)) == Some(n)
  {
    var d := Decimal(n);
    assert StripLeft(d) == d;
    assert IsDigit(d[|d| - 1]);
    assert StripRight(d) == d;
    DigitsDecimal(n);
  }
}
