// The two readers as the proxies run them: methods that move along a byte stream.

module RespReaders {
  import opened Wrappers
  import opened PyBytes
  import opened RespGrammar

  datatype Outcome<+T> = Got(value: T) | Raised(error: Failure)

  // A buffered connection, read to its end.
  class ByteStream {
    const data: bytes
    var position: nat

    ghost predicate Valid()
      reads this
    {
      position <= |data|
    }

    function Rest(): bytes
      requires Valid()
      reads this
    {
      data[position..]
    }

    constructor (data: bytes)
      ensures Valid() && Rest() == data
    {
      this.data := data;
      position := 0;
    }

    method ReadLine() returns (line: bytes)
      requires Valid()
      modifies this
      ensures Valid()
      ensures line == Line(old(Rest()))
      ensures line + Rest() == old(Rest()) && Rest() == old(Rest())[|line|..]
    {
      line := Line(data[position..]);
      position := position + |line|;
    }

    // A negative count other than -1 is refused; -1 reads everything.
    method Read(count: int) returns (chunk: Outcome<bytes>)
      requires Valid()
      modifies this
      ensures Valid()
      ensures chunk.Raised? <==> count < -1
      ensures chunk.Raised? ==> chunk.error == ValueError && Rest() == old(Rest())
      ensures chunk.Got? ==> chunk.value + Rest() == old(Rest())
      ensures chunk.Got? ==> |chunk.value| == if 0 <= count <= |old(Rest())| then count else |old(Rest())|
    {
      if count < -1 {
        return Raised(ValueError);
      }
      var n := if 0 <= count <= |data| - position then count else |data| - position;
      chunk := Got(data[position..position + n]);
      position := position + n;
    }
  }

  // The outcome and the unread bytes are those of a parse.
  ghost predicate Agrees<T>(r: Outcome<T>, unread: bytes, p: Parse<T>) {
    match p
    case Failed(e) => r == Raised(e)
    case Parsed(value, rest) => r == Got(value) && unread == rest
  }

  // One bulk argument: its value and the bytes it occupied.
  method ReadArgument(stream: ByteStream) returns (r: Outcome<Argument>)
    requires stream.Valid()
    modifies stream
    ensures stream.Valid()
    ensures Agrees(r, stream.Rest(), ParseArgument(old(stream.Rest())))
  {
    hide ParseInt, Body;
    ghost var s := stream.Rest();
    var header := stream.ReadLine();
    if header == [] || header[0] != DOLLAR {
      return Raised(ValueError);
    }
    var size := ParseInt(Body(header, 1));
    if size.None? {
      return Raised(ValueError);
    }
    var content := stream.Read(size.value + 2);
    if content.Raised? {
      return Raised(ValueError);
    }
    var chunk := content.value;
    ghost var rest := s[|header|..];
    assert rest[..|chunk|] == chunk && rest[|chunk|..] == stream.Rest();
    if |chunk| != size.value + 2 || |chunk| < 2 || chunk[|chunk| - 2..] != CRLF {
      if |chunk| == size.value + 2 && |chunk| >= 2 {
        assert rest[size.value..size.value + 2] == chunk[size.value..];
      }
      return Raised(ConnectionError);
    }
    assert rest[size.value..size.value + 2] == chunk[size.value..];
    assert rest[..size.value] == chunk[..size.value];
    r := Got(Argument(chunk[..|chunk| - 2], header + chunk));
  }

  method ReadArguments(stream: ByteStream, count: int) returns (r: Outcome<Command>)
    requires stream.Valid()
    modifies stream
    ensures stream.Valid()
    ensures Agrees(r, stream.Rest(), ParseArguments(count, old(stream.Rest())))
  {
    hide ParseArgument;
    var args: seq<bytes>, raw: bytes := [], [];
    var left := count;
    ghost var whole := ParseArguments(left, stream.Rest());
    ghost var todo := whole;
    ContinueNothing(whole);
    while left > 0
      invariant stream.Valid()
      invariant todo == ParseArguments(left, stream.Rest())
      invariant whole == Continue(args, raw, todo)
    {
      ghost var here := stream.Rest();
      var item := ReadArgument(stream);
      if item.Raised? {
        return Raised(item.error);
      }
      ContinueStep(whole, args, raw, left, here, item.value, stream.Rest());
      todo := ParseArguments(left - 1, stream.Rest());
      args, raw, left := args + [item.value.value], raw + item.value.raw, left - 1;
    }
    ContinueDone(args, raw, stream.Rest());
    r := Got(Command(args, raw));
  }

  method ReadCommand(stream: ByteStream) returns (r: Outcome<Command>)
    requires stream.Valid()
    modifies stream
    ensures stream.Valid()
    ensures Agrees(r, stream.Rest(), ParseCommand(old(stream.Rest())))
  {
    hide ParseInt, Body, ParseArguments;
    var first := stream.ReadLine();
    if first == [] {
      return Got(Command([], []));
    }
    if first[0] != STAR {
      return Raised(ValueError);
    }
    var count := ParseInt(Body(first, 1));
    if count.None? {
      return Raised(ValueError);
    }
    var items := ReadArguments(stream, count.value);
    if items.Raised? {
      return Raised(items.error);
    }
    r := Got(Command(items.value.args, first + items.value.raw));
  }

  // What has been read so far, put in front of what is still to be read.
  function Continue(args: seq<bytes>, raw: bytes, p: Parse<Command>): Parse<Command> {
    match p
    case Failed(e) => Failed(e)
    case Parsed(more, rest) => Parsed(Command(args + more.args, raw + more.raw), rest)
  }

  lemma ContinueNothing(p: Parse<Command>)
    ensures Continue([], [], p) == p
  {
    if p.Parsed? {
      assert [] + p.value.args == p.value.args && [] + p.value.raw == p.value.raw;
    }
  }

  lemma ContinueDone(args: seq<bytes>, raw: bytes, rest: bytes)
    ensures Continue(args, raw, Parsed(Command([], []), rest)) == Parsed(Command(args, raw), rest)
  {
    assert args + [] == args && raw + [] == raw;
  }

  lemma ContinueStep(whole: Parse<Command>, args: seq<bytes>, raw: bytes, count: int, s: bytes, arg: Argument, rest: bytes)
    requires count > 0 && ParseArgument(s) == Parsed(arg, rest)
    requires whole == Continue(args, raw, ParseArguments(count, s))
    ensures whole == Continue(args + [arg.value], raw + arg.raw, ParseArguments(count - 1, rest))
  {
    match ParseArguments(count - 1, rest)
    case Failed(_) =>
    case Parsed(more, _) =>
      Glue(args, [arg.value], more.args);
      Glue(raw, arg.raw, more.raw);
  }

  method ReadReply(stream: ByteStream) returns (r: Outcome<bytes>)
    requires stream.Valid()
    modifies stream
    ensures stream.Valid()
    ensures Agrees(r, stream.Rest(), ParseReply(old(stream.Rest())))
    decreases |stream.Rest()|, 0
  {
    hide ParseInt, Body, ParseReplies, Line, LineLength;
    ghost var s := stream.Rest();
    var head := stream.Read(1);
    if head.value == [] {
      return Raised(ConnectionError);
    }
    var first := head.value[0];
    assert s[0] == first && stream.Rest() == s[1..];
    var line := stream.ReadLine();
    var raw := [first] + line;
    assert stream.Rest() == s[1 + |line|..];
    if IsLineTag(first) {
      return Got(raw);
    }
    if IsBulkTag(first) {
      var size := ParseInt(Body(line, 0));
      if size.None? {
        return Raised(ValueError);
      }
      if size.value < 0 {
        return Got(raw);
      }
      ghost var rest := stream.Rest();
      var body := stream.Read(size.value + 2);
      if |body.value| != size.value + 2 {
        return Raised(ConnectionError);
      }
      assert rest[..size.value + 2] == body.value && rest[size.value + 2..] == stream.Rest();
      return Got(raw + body.value);
    }
    if IsListTag(first) || first == MAP || first == ATTRIBUTE {
      var count := ParseInt(Body(line, 0));
      if count.None? {
        return Raised(ValueError);
      }
      if count.value < 0 {
        return Got(raw);
      }
      var items := ReadReplies(stream, count.value * Width(first));
      if items.Raised? {
        return Raised(items.error);
      }
      return Got(raw + items.value);
    }
    return Raised(ValueError);
  }

  // The elements of a counted reply, concatenated.
  method ReadReplies(stream: ByteStream, count: nat) returns (r: Outcome<bytes>)
    requires stream.Valid()
    modifies stream
    ensures stream.Valid()
    ensures Agrees(r, stream.Rest(), ParseReplies(count, old(stream.Rest())))
    decreases |stream.Rest()|, 1
  {
    hide ParseReply;
    var raw: bytes := [];
    var left := count;
    ghost var start := stream.Rest();
    ghost var whole := ParseReplies(left, start);
    NothingRead(whole);
    while left > 0
      invariant stream.Valid()
      invariant |stream.Rest()| <= |start|
      invariant whole == ContinueReplies(raw, ParseReplies(left, stream.Rest()))
    {
      ghost var here := stream.Rest();
      var item := ReadReply(stream);
      ContinueRepliesStep(raw, left, here);
      if item.Raised? {
        return Raised(item.error);
      }
      raw, left := raw + item.value, left - 1;
    }
    assert raw + [] == raw;
    r := Got(raw);
  }

  function ContinueReplies(raw: bytes, p: Parse<bytes>): Parse<bytes> {
    match p
    case Failed(e) => Failed(e)
    case Parsed(more, rest) => Parsed(raw + more, rest)
  }

  lemma NothingRead(p: Parse<bytes>)
    ensures ContinueReplies([], p) == p
  {
    if p.Parsed? {
      assert [] + p.value == p.value;
    }
  }

  lemma ContinueRepliesStep(raw: bytes, count: nat, s: bytes)
    requires count > 0
    ensures match ParseReply(s)
            case Failed(e) => ContinueReplies(raw, ParseReplies(count, s)) == Failed(e)
            case Parsed(own, rest) =>
              ContinueReplies(raw, ParseReplies(count, s)) == ContinueReplies(raw + own, ParseReplies(count - 1, rest))
  {
    match ParseReply(s)
    case Failed(_) =>
    case Parsed(own, rest) =>
      match ParseReplies(count - 1, rest)
      case Failed(_) =>
      case Parsed(more, _) => Glue(raw, own, more);
  }
}
