// The decoders against the encoding itself (RFC 3629 section 3): strict decoding is the inverse of
// encoding, and lenient decoding keeps the encoded characters and drops every other byte.

module Utf8Proofs {
  import opened Wrappers
  import opened PyBytes
  import opened Utf8

  // What can be encoded: code points, surrogates aside.
  predicate Scalar(c: int) {
    0 <= c < 0xD800 || 0xE000 <= c < 0x110000
  }

  function EncodeChar(c: int): (r: bytes)
    requires Scalar(c)
    ensures r != []
  {
    if c < 0x80 then [c]
    else if c < 0x800 then [0xC0 + c / 0x40, 0x80 + c % 0x40]
    else if c < 0x10000 then [0xE0 + c / 0x1000, 0x80 + c / 0x40 % 0x40, 0x80 + c % 0x40]
    else [0xF0 + c / 0x40000, 0x80 + c / 0x1000 % 0x40, 0x80 + c / 0x40 % 0x40, 0x80 + c % 0x40]
  }

  predicate Scalars(t: text) {
    forall i | 0 <= i < |t| :: Scalar(t[i])
  }

  function EncodeText(t: text): bytes
    requires Scalars(t)
  {
    if t == [] then [] else EncodeChar(t[0]) + EncodeText(t[1..])
  }

  // ------------------------------------------------------------------ one character

  lemma LowBits(s: byte)
    ensures 0x80 <= s < 0xC0 ==> Low(s, 0x40) == s - 0x80
    ensures 0xE0 <= s < 0xF0 ==> Low(s, 0x10) == s - 0xE0
    ensures 0xF0 <= s < 0xF8 ==> Low(s, 8) == s - 0xF0
  {
  }

  lemma TwoBytes(c: int, rest: bytes)
    requires 0x80 <= c < 0x800
    ensures Next(EncodeChar(c) + rest) == (Some(c), 2)
  {
    var s := EncodeChar(c) + rest;
    assert s[0] == 0xC0 + c / 0x40 && s[1] == 0x80 + c % 0x40;
    assert s[0] % 0x20 == c / 0x40 && s[1] % 0x40 == c % 0x40;
  }

  lemma ThreeBytes(c: int, rest: bytes)
    requires 0x800 <= c < 0x10000 && Scalar(c)
    ensures Next(EncodeChar(c) + rest) == (Some(c), 3)
  {
    var s := EncodeChar(c) + rest;
    var a, b, d := c / 0x1000, c / 0x40 % 0x40, c % 0x40;
    assert s[0] == 0xE0 + a && s[1] == 0x80 + b && s[2] == 0x80 + d;
    assert c == 0x1000 * a + 0x40 * b + d;
    LowBits(s[0]);
    LowBits(s[1]);
    LowBits(s[2]);
    hide Low;
  }

  lemma FourBytes(c: int, rest: bytes)
    requires 0x10000 <= c < 0x110000
    ensures Next(EncodeChar(c) + rest) == (Some(c), 4)
  {
    var s := EncodeChar(c) + rest;
    var a, b, d, e := c / 0x40000, c / 0x1000 % 0x40, c / 0x40 % 0x40, c % 0x40;
    assert s[0] == 0xF0 + a && s[1] == 0x80 + b && s[2] == 0x80 + d && s[3] == 0x80 + e;
    FourParts(c);
    LowBits(s[0]);
    LowBits(s[1]);
    LowBits(s[2]);
    LowBits(s[3]);
    hide Low;
  }

  lemma FourParts(c: nat)
    ensures c == 0x40000 * (c / 0x40000) + 0x1000 * (c / 0x1000 % 0x40) + 0x40 * (c / 0x40 % 0x40) + c % 0x40
  {
    assert c / 0x1000 == 0x40 * (c / 0x40000) + c / 0x1000 % 0x40;
    assert c / 0x40 == 0x40 * (c / 0x1000) + c / 0x40 % 0x40;
  }

  // An encoded character is recognized, whatever follows.
  lemma NextEncoded(c: int, rest: bytes)
    requires Scalar(c)
    ensures Next(EncodeChar(c) + rest) == (Some(c), |EncodeChar(c)|)
  {
    if 0x80 <= c < 0x800 {
      TwoBytes(c, rest);
    } else if 0x800 <= c < 0x10000 {
      ThreeBytes(c, rest);
    } else if 0x10000 <= c {
      FourBytes(c, rest);
    }
  }

  // And nothing else is taken for a character.
  lemma NextDecoded(s: bytes)
    requires s != [] && Next(s).0.Some?
    ensures Scalar(Next(s).0.value) && s[..Next(s).1] == EncodeChar(Next(s).0.value)
  {
    var need := Following(s[0]).value;
    if need == 0 {
      assert s[..1] == [s[0]];
    } else if need == 1 {
      TwoDecoded(s);
    } else if need == 2 {
      ThreeDecoded(s);
    } else {
      FourDecoded(s);
    }
  }

  lemma TwoDecoded(s: bytes)
    requires s != [] && Next(s).0.Some? && Following(s[0]) == Some(1)
    ensures Scalar(Next(s).0.value) && s[..Next(s).1] == EncodeChar(Next(s).0.value)
  {
    var c := Next(s).0.value;
    var a: int, b: int := s[0] - 0xC0, s[1] - 0x80;
    assert s[0] % 0x20 == a && s[1] % 0x40 == b && c == 0x40 * a + b;
    assert c / 0x40 == a && c % 0x40 == b;
    assert s[..2] == [s[0], s[1]];
  }

  // The parts of a number, from the parts
  lemma PartsBack(a: nat, b: nat, d: nat, e: nat)
    requires b < 0x40 && d < 0x40 && e < 0x40
    ensures (0x40 * d + e) / 0x40 == d && (0x40 * d + e) % 0x40 == e
    ensures var c := 0x1000 * b + 0x40 * d + e; c / 0x1000 == b && c / 0x40 == 0x40 * b + d && c % 0x40 == e
    ensures var c := 0x40000 * a + 0x1000 * b + 0x40 * d + e;
            && c / 0x40000 == a && c / 0x1000 == 0x40 * a + b && c / 0x40 == 0x1000 * a + 0x40 * b + d && c % 0x40 == e
  {
  }

  lemma ThreeDecoded(s: bytes)
    requires s != [] && Next(s).0.Some? && Following(s[0]) == Some(2)
    ensures Scalar(Next(s).0.value) && s[..Next(s).1] == EncodeChar(Next(s).0.value)
  {
    LowBits(s[0]);
    LowBits(s[1]);
    LowBits(s[2]);
    hide Low;
    PartsBack(0, s[0] - 0xE0, s[1] - 0x80, s[2] - 0x80);
    ThirdByte(s[0] - 0xE0, s[1] - 0x80, s[2] - 0x80);
    assert s[..3] == [s[0], s[1], s[2]];
  }

  lemma ThirdByte(a: nat, b: nat, d: nat)
    requires a < 0x10 && b < 0x40 && d < 0x40 && (a == 0 ==> 0x20 <= b) && (a == 13 ==> b < 0x20)
    ensures var c := 0x1000 * a + 0x40 * b + d;
            Scalar(c) && 0x800 <= c < 0x10000 && c / 0x1000 == a && c / 0x40 % 0x40 == b && c % 0x40 == d
  {
    PartsBack(0, a, b, d);
    PartsBack(0, 0, a, b);
  }

  lemma FourDecoded(s: bytes)
    requires s != [] && Next(s).0.Some? && Following(s[0]) == Some(3)
    ensures Scalar(Next(s).0.value) && s[..Next(s).1] == EncodeChar(Next(s).0.value)
  {
    LowBits(s[0]);
    LowBits(s[1]);
    LowBits(s[2]);
    LowBits(s[3]);
    hide Low;
    FourthByte(s[0] - 0xF0, s[1] - 0x80, s[2] - 0x80, s[3] - 0x80);
    assert s[..4] == [s[0], s[1], s[2], s[3]];
  }

  lemma FourthByte(a: nat, b: nat, d: nat, e: nat)
    requires a < 5 && b < 0x40 && d < 0x40 && e < 0x40 && (a == 0 ==> 0x10 <= b) && (a == 4 ==> b < 0x10)
    ensures var c := 0x40000 * a + 0x1000 * b + 0x40 * d + e;
            && Scalar(c) && 0x10000 <= c && c / 0x40000 == a && c / 0x1000 % 0x40 == b && c / 0x40 % 0x40 == d
            && c % 0x40 == e
  {
    PartsBack(a, b, d, e);
    PartsBack(0, 0, a, b);
    PartsBack(0, a, b, d);
  }

  // ------------------------------------------------------------------ whole texts

  // Bytes decode strictly to a text exactly when they are its encoding.
  lemma {:induction false} StrictExactly(s: bytes, t: text)
    ensures DecodeStrict(s) == Some(t) <==> Scalars(t) && s == EncodeText(t)
  {
    hide Next, EncodeChar, Scalar;
    if t != [] && Scalars(t) && s == EncodeText(t) {
      assert Scalars(t[1..]);
      NextEncoded(t[0], EncodeText(t[1..]));
      assert s[|EncodeChar(t[0])|..] == EncodeText(t[1..]);
      StrictExactly(EncodeText(t[1..]), t[1..]);
      assert t == [t[0]] + t[1..];
    }
    if s != [] && DecodeStrict(s) == Some(t) {
      var n := Next(s).1;
      NextDecoded(s);
      assert t[0] == Next(s).0.value && t[1..] == DecodeStrict(s[n..]).value;
      StrictExactly(s[n..], t[1..]);
      assert s == s[..n] + s[n..];
      assert forall i | 1 <= i < |t| :: t[i] == t[1..][i - 1];
    }
  }

  // Lenient decoding takes an encoded character where one stands, and otherwise drops one byte.
  lemma IgnoreExactly(s: bytes)
    requires s != []
    ensures forall c, rest: bytes | Scalar(c) && s == EncodeChar(c) + rest :: DecodeIgnore(s) == [c] + DecodeIgnore(rest)
    ensures (forall c | Scalar(c) :: !(EncodeChar(c) <= s)) ==> DecodeIgnore(s) == DecodeIgnore(s[1..])
  {
    hide Next, EncodeChar, Scalar;
    forall c, rest: bytes | Scalar(c) && s == EncodeChar(c) + rest
      ensures DecodeIgnore(s) == [c] + DecodeIgnore(rest)
    {
      NextEncoded(c, rest);
      assert s[|EncodeChar(c)|..] == rest;
    }
    if forall c | Scalar(c) :: !(EncodeChar(c) <= s) {
      if Next(s).0.Some? {
        NextDecoded(s);
        assert false;
      }
      Dropped(s);
    }
  }

  // The bytes of a malformed sequence after the first are none that begin a character.
  lemma Dropped(s: bytes)
    requires s != [] && Next(s).0.None?
    ensures DecodeIgnore(s) == DecodeIgnore(s[1..])
  {
    var n := Next(s).1;
    assert DecodeIgnore(s) == DecodeIgnore(s[n..]);
    if n >= 2 {
      Stray(s[1..]);
      assert s[1..][1..] == s[2..];
    }
    if n >= 3 {
      Stray(s[2..]);
      assert s[2..][1..] == s[3..];
    }
  }

  lemma Stray(s: bytes)
    requires s != [] && Continuation(s[0])
    ensures DecodeIgnore(s) == DecodeIgnore(s[1..])
  {
    assert Following(s[0]) == None;
  }
}
