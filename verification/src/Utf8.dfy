// Python's UTF-8 decoder on arbitrary bytes, with errors="strict" and errors="ignore". Text is
// a sequence of code points.

module Utf8 {
  import opened Wrappers
  import opened PyBytes

  type text = seq<int>

  predicate Continuation(b: byte) {
    0x80 <= b < 0xC0
  }

  // Whether second may follow the lead byte: this is where overlong forms, surrogates and
  // values above U+10FFFF are cut off.
  predicate SecondByte(lead: byte, second: byte) {
    && Continuation(second)
    && (lead == 0xE0 ==> 0xA0 <= second)
    && (lead == 0xED ==> second < 0xA0)
    && (lead == 0xF0 ==> 0x90 <= second)
    && (lead == 0xF4 ==> second < 0x90)
  }

  // How many bytes after a lead byte its sequence needs; 0 for ASCII, None for no lead byte.
  function Following(lead: byte): Option<nat> {
    if lead < 0x80 then Some(0)
    else if 0xC2 <= lead < 0xE0 then Some(1)
    else if 0xE0 <= lead < 0xF0 then Some(2)
    else if 0xF0 <= lead < 0xF5 then Some(3)
    else None
  }

  // The length of the longest prefix of s that could still grow into one encoded character.
  function Plausible(s: bytes, need: nat): (n: nat)
    requires s != []
    ensures 1 <= n <= |s|
  {
    if need == 0 || |s| < 2 || !SecondByte(s[0], s[1]) then 1
    else if need == 1 || |s| < 3 || !Continuation(s[2]) then 2
    else if need == 2 || |s| < 4 || !Continuation(s[3]) then 3
    else 4
  }

  // The low bits of a byte.
  function Low(b: byte, modulus: nat): nat
    requires modulus > 0
  {
    b % modulus
  }

  // The next character, or None for a malformed sequence, and how many bytes it spans.
  function Next(s: bytes): (r: (Option<int>, nat))
    requires s != []
    ensures 1 <= r.1 <= |s|
    ensures s[0] < 0x80 ==> r == (Some(s[0]), 1)
    ensures s[0] >= 0x80 && r.0.Some? ==> r.0.value >= 0x80
  {
    match Following(s[0])
    case None => (None, 1)
    case Some(need) =>
      var n := Plausible(s, need);
      if n <= need then (None, n)
      else if need == 0 then (Some(s[0]), 1)
      else if need == 1 then (Some(Low(s[0], 0x20) * 0x40 + Low(s[1], 0x40)), 2)
      else if need == 2 then (Some(Low(s[0], 0x10) * 0x1000 + Low(s[1], 0x40) * 0x40 + Low(s[2], 0x40)), 3)
      else (Some(Low(s[0], 8) * 0x40000 + Low(s[1], 0x40) * 0x1000 + Low(s[2], 0x40) * 0x40 + Low(s[3], 0x40)), 4)
  }

  function DecodeIgnore(s: bytes): text {
    if s == [] then []
    else
      var (c, n) := Next(s);
      (if c.Some? then [c.value] else []) + DecodeIgnore(s[n..])
  }

  function DecodeStrict(s: bytes): Option<text> {
    if s == [] then Some([])
    else
      var (c, n) := Next(s);
      match c
      case None => None
      case Some(code) =>
        match DecodeStrict(s[n..])
        case None => None
        case Some(more) => Some([code] + more)
  }

  predicate IsAscii(t: seq<int>) {
    forall i :: 0 <= i < |t| ==> 0 <= t[i] < 0x80
  }

  // Where strict decoding succeeds, lenient decoding gives the same text.
  lemma {:induction false} StrictIsLenient(s: bytes)
    ensures DecodeStrict(s).Some? ==> DecodeIgnore(s) == DecodeStrict(s).value
  {
    if s != [] {
      StrictIsLenient(s[Next(s).1..]);
    }
  }

  // Bytes decode strictly to an ASCII text exactly when they are that text.
  lemma {:induction false} StrictAscii(s: bytes, t: text)
    requires IsAscii(t)
    ensures DecodeStrict(s) == Some(t) <==> s == t
  {
    if s == [] {
    } else if s[0] >= 0x80 {
      if DecodeStrict(s).Some? {
        assert DecodeStrict(s).value[0] >= 0x80;
      }
    } else {
      var later := DecodeStrict(s[1..]);
      assert DecodeStrict(s) == if later.Some? then Some([s[0]] + later.value) else None;
      assert s == [s[0]] + s[1..];
      if t != [] {
        StrictAscii(s[1..], t[1..]);
        assert t == [t[0]] + t[1..];
        if later.Some? {
          assert ([s[0]] + later.value)[1..] == later.value;
        }
      }
    }
  }
}
