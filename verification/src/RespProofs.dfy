// Round trips, unique decodability and exact consumption of the two RESP readers.

module RespProofs {
  import opened Wrappers
  import opened PyBytes
  import opened RespGrammar

  // ------------------------------------------------------------------ header lines

  lemma HeaderLine(text: bytes, tail: bytes)
    requires LF !in text
    ensures Line(text + CRLF + tail) == text + CRLF
  {
    assert text + CRLF + tail == (text + [13]) + [LF] + tail;
    LineOf(text + [13], tail);
  }

  lemma CountLine(tag: byte, n: nat, tail: bytes)
    requires tag != LF
    ensures Line([tag] + Decimal(n) + CRLF + tail) == [tag] + Decimal(n) + CRLF
    ensures ParseInt(Body([tag] + Decimal(n) + CRLF, 1)) == Some(n)
  {
    HeaderLine([tag] + Decimal(n), tail);
    assert Body([tag] + Decimal(n) + CRLF, 1) == Decimal(n);
    ParseDecimal(n);
  }

  // The header of a counted reply, read as first byte and remaining line.
  lemma CountHead(tag: byte, n: nat, tail: bytes)
    ensures Line((([tag] + Decimal(n) + CRLF) + tail)[1..]) == Decimal(n) + CRLF
    ensures ParseInt(Body(Decimal(n) + CRLF, 0)) == Some(n)
  {
    assert (([tag] + Decimal(n) + CRLF) + tail)[1..] == Decimal(n) + CRLF + tail;
    HeaderLine(Decimal(n), tail);
    assert Body(Decimal(n) + CRLF, 0) == Decimal(n);
    ParseDecimal(n);
  }

  lemma ParseNegative(n: nat)
    requires n > 0
    ensures ParseInt([45] + Decimal(n)) == Some(0 - n)
  {
    var d := [45] + Decimal(n);
    assert StripLeft(d) == d;
    assert IsDigit(d[|d| - 1]);
    assert StripRight(d) == d;
    assert d[1..] == Decimal(n);
    DigitsDecimal(n);
  }

  // ------------------------------------------------------------------ commands

  lemma ArgumentRoundTrip(arg: bytes, tail: bytes)
    ensures ParseArgument(EncodeArgument(arg) + tail) == Parsed(Argument(arg, EncodeArgument(arg)), tail)
  {
    var header := [DOLLAR] + Decimal(|arg|) + CRLF;
    var s := EncodeArgument(arg) + tail;
    assert s == header + (arg + CRLF + tail);
    CountLine(DOLLAR, |arg|, arg + CRLF + tail);
    var rest := s[|header|..];
    assert rest == arg + CRLF + tail;
    assert rest[|arg|..|arg| + 2] == CRLF;
    assert header + rest[..|arg| + 2] == EncodeArgument(arg);
    assert rest[..|arg|] == arg && rest[|arg| + 2..] == tail;
  }

  lemma {:induction false} ArgumentsRoundTrip(args: seq<bytes>, tail: bytes)
    ensures ParseArguments(|args|, EncodeArguments(args) + tail) == Parsed(Command(args, EncodeArguments(args)), tail)
  {
    hide ParseArgument, EncodeArgument;
    if args != [] {
      Glue(EncodeArgument(args[0]), EncodeArguments(args[1..]), tail);
      ArgumentRoundTrip(args[0], EncodeArguments(args[1..]) + tail);
      ArgumentsRoundTrip(args[1..], tail);
      assert [args[0]] + args[1..] == args;
    }
  }

  // Reading back an encoded command gives its arguments and exactly its own bytes, whatever
  // follows on the stream.
  lemma CommandRoundTrip(args: seq<bytes>, tail: bytes)
    ensures ParseCommand(EncodeCommand(args) + tail) == Parsed(Command(args, EncodeCommand(args)), tail)
  {
    var header := [STAR] + Decimal(|args|) + CRLF;
    Glue(header, EncodeArguments(args), tail);
    CountLine(STAR, |args|, EncodeArguments(args) + tail);
    var s := EncodeCommand(args) + tail;
    assert s[|header|..] == EncodeArguments(args) + tail;
    ArgumentsRoundTrip(args, tail);
  }

  // Every command on a stream, in order; None when a read fails.
  function DecodeCommands(s: bytes): Option<seq<seq<bytes>>>
    decreases |s|
  {
    if s == [] then Some([])
    else match ParseCommand(s)
      case Failed(_) => None
      case Parsed(command, rest) =>
        match DecodeCommands(rest)
        case None => None
        case Some(more) => Some([command.args] + more)
  }

  lemma {:induction false} PipelineRoundTrip(commands: seq<seq<bytes>>)
    ensures DecodeCommands(EncodeCommands(commands)) == Some(commands)
  {
    hide EncodeCommand, ParseCommand;
    if commands != [] {
      CommandRoundTrip(commands[0], EncodeCommands(commands[1..]));
      PipelineRoundTrip(commands[1..]);
      assert [commands[0]] + commands[1..] == commands;
    }
  }

  lemma PipelineInjective(a: seq<seq<bytes>>, b: seq<seq<bytes>>)
    ensures EncodeCommands(a) == EncodeCommands(b) <==> a == b
  {
    PipelineRoundTrip(a);
    PipelineRoundTrip(b);
  }

  // No encoded command is a prefix of another.
  lemma CommandsPrefixFree(a: seq<bytes>, b: seq<bytes>)
    ensures EncodeCommand(a) <= EncodeCommand(b) <==> a == b
  {
    if EncodeCommand(a) <= EncodeCommand(b) {
      var tail := EncodeCommand(b)[|EncodeCommand(a)|..];
      assert EncodeCommand(b) == EncodeCommand(a) + tail;
      assert EncodeCommand(b) == EncodeCommand(b) + [];
      CommandRoundTrip(a, tail);
      CommandRoundTrip(b, []);
    }
  }

  // ------------------------------------------------------------------ replies

  function Size(v: Reply): nat {
    match v
    case Simple(_, _) => 1
    case Null(_, _) => 1
    case Bulk(_, _) => 1
    case List(_, items) => 1 + Sizes(items)
    case Map(entries) => 1 + Sizes(entries)
    case Attributed(pairs, value) => 1 + Sizes(pairs) + Size(value)
  }

  function Sizes(vs: seq<Reply>): nat {
    if vs == [] then 0 else Size(vs[0]) + Sizes(vs[1..])
  }

  lemma {:induction false} SizesAppend(a: seq<Reply>, b: seq<Reply>)
    ensures Sizes(a + b) == Sizes(a) + Sizes(b)
  {
    if a == [] {
      assert a + b == b;
    } else {
      assert (a + b)[0] == a[0] && (a + b)[1..] == a[1..] + b;
      SizesAppend(a[1..], b);
    }
  }

  lemma {:induction false} EncodeAppend(a: seq<Reply>, b: seq<Reply>)
    ensures EncodeReplies(a + b) == EncodeReplies(a) + EncodeReplies(b)
  {
    if a == [] {
      assert a + b == b;
    } else {
      assert (a + b)[0] == a[0] && (a + b)[1..] == a[1..] + b;
      EncodeAppend(a[1..], b);
      Glue(EncodeReply(a[0]), EncodeReplies(a[1..]), EncodeReplies(b));
    }
  }

  // The values of v the reader leaves on the stream: an attribute's pairs are taken for a whole
  // reply, so each attribute leaves one value over, which then stands in for its successor.
  function Unread(v: Reply): (r: seq<Reply>)
    decreases Size(v), 0
    ensures Sizes(r) < Size(v)
  {
    match v
    case Simple(_, _) => []
    case Null(_, _) => []
    case Bulk(_, _) => []
    case List(_, items) => UnreadOf(|items|, items)
    case Map(entries) => UnreadOf(|entries|, entries)
    case Attributed(pairs, value) =>
      SizesAppend(UnreadOf(|pairs|, pairs), [value]);
      UnreadOf(|pairs|, pairs) + [value]
  }

  function UnreadOf(count: nat, vs: seq<Reply>): (r: seq<Reply>)
    decreases Sizes(vs), 1
    ensures Sizes(r) <= Sizes(vs)
    ensures |r| + count >= |vs|
  {
    if count == 0 || vs == [] then vs
    else
      SizesAppend(Unread(vs[0]), vs[1..]);
      UnreadOf(count - 1, Unread(vs[0]) + vs[1..])
  }

  predicate AllWellFormed(vs: seq<Reply>) {
    forall v | v in vs :: WellFormed(v)
  }

  lemma {:induction false} UnreadWellFormed(v: Reply)
    requires WellFormed(v)
    ensures AllWellFormed(Unread(v))
    decreases Size(v), 0
  {
    match v
    case Simple(_, _) =>
    case Null(_, _) =>
    case Bulk(_, _) =>
    case List(_, items) => UnreadOfWellFormed(|items|, items);
    case Map(entries) => UnreadOfWellFormed(|entries|, entries);
    case Attributed(pairs, value) => UnreadOfWellFormed(|pairs|, pairs);
  }

  lemma {:induction false} UnreadOfWellFormed(count: nat, vs: seq<Reply>)
    requires AllWellFormed(vs)
    ensures AllWellFormed(UnreadOf(count, vs))
    decreases Sizes(vs), 1
  {
    if count > 0 && vs != [] {
      UnreadWellFormed(vs[0]);
      SizesAppend(Unread(vs[0]), vs[1..]);
      UnreadOfWellFormed(count - 1, Unread(vs[0]) + vs[1..]);
    }
  }

  lemma EncodeOne(v: Reply)
    ensures EncodeReplies([v]) == EncodeReply(v)
  {
    assert EncodeReplies([v]) == EncodeReply(v) + EncodeReplies([]);
  }

  lemma RepliesStep(count: nat, s: bytes, rest: bytes, last: bytes)
    requires count > 0
    requires ParseReply(s).Parsed? && ParseReply(s).rest == rest
    requires ParseReplies(count - 1, rest).Parsed? && ParseReplies(count - 1, rest).rest == last
    ensures ParseReplies(count, s).Parsed? && ParseReplies(count, s).rest == last
  {
  }

  lemma SimpleConsumed(tag: byte, text: bytes, tail: bytes)
    requires IsLineTag(tag) && LF !in text
    ensures ParseReply([tag] + text + CRLF + tail).Parsed?
    ensures ParseReply([tag] + text + CRLF + tail).rest == tail
  {
    var s := [tag] + text + CRLF + tail;
    assert s[1..] == text + CRLF + tail;
    HeaderLine(text, tail);
    assert s[1 + |text + CRLF|..] == tail;
  }

  lemma NullConsumed(tag: byte, n: nat, tail: bytes)
    requires (IsBulkTag(tag) || IsListTag(tag)) && n > 0
    ensures ParseReply([tag] + [45] + Decimal(n) + CRLF + tail).Parsed?
    ensures ParseReply([tag] + [45] + Decimal(n) + CRLF + tail).rest == tail
  {
    var s := [tag] + [45] + Decimal(n) + CRLF + tail;
    assert s[1..] == [45] + Decimal(n) + CRLF + tail;
    HeaderLine([45] + Decimal(n), tail);
    var line := [45] + Decimal(n) + CRLF;
    assert Body(line, 0) == [45] + Decimal(n);
    ParseNegative(n);
    assert s[1 + |line|..] == tail;
  }

  lemma BulkConsumed(tag: byte, body: bytes, tail: bytes)
    requires IsBulkTag(tag)
    ensures ParseReply([tag] + Decimal(|body|) + CRLF + body + CRLF + tail).Parsed?
    ensures ParseReply([tag] + Decimal(|body|) + CRLF + body + CRLF + tail).rest == tail
  {
    var head := [tag] + Decimal(|body|) + CRLF;
    var s := [tag] + Decimal(|body|) + CRLF + body + CRLF + tail;
    assert s == head + (body + CRLF + tail);
    CountHead(tag, |body|, body + CRLF + tail);
    assert s[|head|..] == body + CRLF + tail;
    assert (body + CRLF + tail)[|body| + 2..] == tail;
  }

  // Reading succeeded and left the encodings of vs in front of tail.
  predicate Leaves(p: Parse<bytes>, vs: seq<Reply>, tail: bytes) {
    p.Parsed? && p.rest == EncodeReplies(vs) + tail
  }

  lemma Regroup(a: seq<Reply>, b: seq<Reply>, tail: bytes)
    ensures EncodeReplies(a) + (EncodeReplies(b) + tail) == EncodeReplies(a + b) + tail
  {
    EncodeAppend(a, b);
    Glue(EncodeReplies(a), EncodeReplies(b), tail);
  }

  lemma FirstEncoded(vs: seq<Reply>, tail: bytes)
    requires vs != []
    ensures EncodeReplies(vs) + tail == EncodeReply(vs[0]) + (EncodeReplies(vs[1..]) + tail)
  {
    hide EncodeReply;
    Glue(EncodeReply(vs[0]), EncodeReplies(vs[1..]), tail);
  }

  lemma UnreadStep(count: nat, vs: seq<Reply>)
    requires 0 < count <= |vs| && AllWellFormed(vs)
    ensures var left := Unread(vs[0]) + vs[1..];
            && UnreadOf(count, vs) == UnreadOf(count - 1, left) && AllWellFormed(left)
            && Sizes(left) < Sizes(vs) && count - 1 <= |left|
  {
    hide Unread, WellFormed, Size;
    assert vs[0] in vs;
    UnreadWellFormed(vs[0]);
    SizesAppend(Unread(vs[0]), vs[1..]);
  }

  lemma RepliesNone(vs: seq<Reply>, tail: bytes)
    ensures Leaves(ParseReplies(0, EncodeReplies(vs) + tail), UnreadOf(0, vs), tail)
  {
  }

  // What reading `count` replies from encoded values leaves behind.
  lemma {:induction false} RepliesConsumed(count: nat, vs: seq<Reply>, tail: bytes, s: bytes)
    requires AllWellFormed(vs) && count <= |vs|
    requires s == EncodeReplies(vs) + tail
    ensures Leaves(ParseReplies(count, s), UnreadOf(count, vs), tail)
    decreases Sizes(vs), 1
  {
    hide ParseReply, ParseReplies, EncodeReply, EncodeReplies, Unread, UnreadOf, WellFormed, Size, Sizes;
    if count == 0 {
      RepliesNone(vs, tail);
    } else {
      var v, others := vs[0], vs[1..];
      assert v in vs;
      SmallerFirst(vs);
      FirstEncoded(vs, tail);
      ReplyConsumed(v, EncodeReplies(others) + tail);
      UnreadStep(count, vs);
      var left := Unread(v) + others;
      var next := EncodeReplies(left) + tail;
      Regroup(Unread(v), others, tail);
      RepliesConsumed(count - 1, left, tail, next);
      RepliesStep(count, s, next, ParseReplies(count - 1, next).rest);
    }
  }

  lemma SmallerFirst(vs: seq<Reply>)
    requires vs != []
    ensures Size(vs[0]) <= Sizes(vs)
  {
  }

  lemma {:induction false} ReplyConsumed(v: Reply, tail: bytes)
    requires WellFormed(v)
    ensures ParseReply(EncodeReply(v) + tail).Parsed?
    ensures ParseReply(EncodeReply(v) + tail).rest == EncodeReplies(Unread(v)) + tail
    decreases Size(v), 0
  {
    match v
    case Simple(tag, text) =>
      SimpleConsumed(tag, text, tail);
      assert [] + tail == tail;
    case Null(tag, n) =>
      NullConsumed(tag, n, tail);
      assert [] + tail == tail;
    case Bulk(tag, body) =>
      BulkConsumed(tag, body, tail);
      assert [] + tail == tail;
    case List(tag, items) =>
      CountedConsumed(tag, |items|, items, EncodeReplies(items) + tail, tail);
      Glue([tag] + Decimal(|items|) + CRLF, EncodeReplies(items), tail);
    case Map(entries) =>
      CountedConsumed(MAP, |entries| / 2, entries, EncodeReplies(entries) + tail, tail);
      Glue([MAP] + Decimal(|entries| / 2) + CRLF, EncodeReplies(entries), tail);
    case Attributed(pairs, value) => AttributeConsumed(pairs, value, tail);
  }

  lemma AttributeSplit(pairs: seq<Reply>, value: Reply, tail: bytes)
    ensures EncodeReply(Attributed(pairs, value)) + tail
            == [ATTRIBUTE] + Decimal(|pairs| / 2) + CRLF + (EncodeReplies(pairs) + (EncodeReply(value) + tail))
  {
    var head := [ATTRIBUTE] + Decimal(|pairs| / 2) + CRLF;
    Glue(head + EncodeReplies(pairs), EncodeReply(value), tail);
    Glue(head, EncodeReplies(pairs), EncodeReply(value) + tail);
  }

  lemma {:induction false} AttributeConsumed(pairs: seq<Reply>, value: Reply, tail: bytes)
    requires |pairs| % 2 == 0 && AllWellFormed(pairs)
    ensures Leaves(ParseReply(EncodeReply(Attributed(pairs, value)) + tail), UnreadOf(|pairs|, pairs) + [value], tail)
    decreases Sizes(pairs), 3
  {
    var more := EncodeReply(value) + tail;
    var s := [ATTRIBUTE] + Decimal(|pairs| / 2) + CRLF + (EncodeReplies(pairs) + more);
    CountedConsumed(ATTRIBUTE, |pairs| / 2, pairs, EncodeReplies(pairs) + more, more);
    assert Leaves(ParseReply(s), UnreadOf(|pairs|, pairs) + [value], tail) by {
      EncodeOne(value);
      Regroup(UnreadOf(|pairs|, pairs), [value], tail);
    }
    AttributeSplit(pairs, value, tail);
  }

  // A counted header followed by its elements.
  lemma {:induction false} CountedConsumed(tag: byte, n: nat, vs: seq<Reply>, elements: bytes, tail: bytes)
    requires IsListTag(tag) || tag == MAP || tag == ATTRIBUTE
    requires AllWellFormed(vs) && n * Width(tag) == |vs|
    requires elements == EncodeReplies(vs) + tail
    ensures ParseReply([tag] + Decimal(n) + CRLF + elements).Parsed?
    ensures ParseReply([tag] + Decimal(n) + CRLF + elements).rest == EncodeReplies(UnreadOf(|vs|, vs)) + tail
    decreases Sizes(vs), 2
  {
    hide ParseReply, ParseReplies, EncodeReplies, UnreadOf, WellFormed, Sizes, Decimal;
    RepliesConsumed(|vs|, vs, tail, elements);
    CountedHeader(tag, n, elements);
  }

  // After a counted header the elements are read, whatever they are.
  lemma CountedHeader(tag: byte, n: nat, elements: bytes)
    requires (IsListTag(tag) || tag == MAP || tag == ATTRIBUTE) && n * Width(tag) >= 0
    requires ParseReplies(n * Width(tag), elements).Parsed?
    ensures ParseReply([tag] + Decimal(n) + CRLF + elements).Parsed?
    ensures ParseReply([tag] + Decimal(n) + CRLF + elements).rest == ParseReplies(n * Width(tag), elements).rest
  {
    hide ParseReplies;
    var head := [tag] + Decimal(n) + CRLF;
    CountHead(tag, n, elements);
    assert (head + elements)[|head|..] == elements;
  }

  // Attributes are exactly what makes the reader stop early.
  lemma {:induction false} UnreadEmpty(v: Reply)
    ensures Unread(v) == [] <==> AttributeFree(v)
    decreases Size(v), 0
  {
    match v
    case Simple(_, _) =>
    case Null(_, _) =>
    case Bulk(_, _) =>
    case List(_, items) => UnreadOfShort(|items|, items);
    case Map(entries) => UnreadOfShort(|entries|, entries);
    case Attributed(pairs, value) =>
  }

  lemma {:induction false} UnreadOfShort(count: nat, vs: seq<Reply>)
    requires count <= |vs|
    ensures |UnreadOf(count, vs)| + count == |vs| <==> forall i | 0 <= i < count :: AttributeFree(vs[i])
    decreases Sizes(vs), 1
  {
    if count > 0 {
      UnreadEmpty(vs[0]);
      SizesAppend(Unread(vs[0]), vs[1..]);
      if AttributeFree(vs[0]) {
        assert Unread(vs[0]) + vs[1..] == vs[1..];
        UnreadOfShort(count - 1, vs[1..]);
        assert forall i | 1 <= i < count :: vs[i] == vs[1..][i - 1];
      }
    }
  }

  // The reader takes exactly one whole reply off the stream if and only if that reply carries
  // no attribute at any depth; otherwise it stops early, and the unread values are known.
  lemma ReplyReadExactly(v: Reply, tail: bytes)
    requires WellFormed(v)
    ensures ParseReply(EncodeReply(v) + tail) == Parsed(EncodeReply(v), tail) <==> AttributeFree(v)
    ensures ParseReply(EncodeReply(v) + tail).Parsed?
    ensures ParseReply(EncodeReply(v) + tail).rest == EncodeReplies(Unread(v)) + tail
  {
    ReplyConsumed(v, tail);
    UnreadEmpty(v);
    var p := ParseReply(EncodeReply(v) + tail);
    assert p.value + p.rest == EncodeReply(v) + tail;
    if AttributeFree(v) {
      assert p.rest == tail;
      assert |p.value| == |EncodeReply(v)|;
      assert p.value == (p.value + p.rest)[..|p.value|] == EncodeReply(v);
    } else {
      EncodedNonEmpty(Unread(v)[0]);
      assert |EncodeReplies(Unread(v))| > 0;
      assert |p.rest| > |tail|;
    }
  }

  lemma EncodedNonEmpty(v: Reply)
    ensures EncodeReply(v) != []
  {
  }
}
