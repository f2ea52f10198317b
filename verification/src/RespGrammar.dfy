// What one RESP command and one RESP reply look like on the wire, and the values they carry.

module RespGrammar {
  import opened Wrappers
  import opened PyBytes

  datatype Failure = ConnectionError | ValueError

  // The result of reading one item from the front of a byte string.
  datatype Parse<+T> = Parsed(value: T, rest: bytes) | Failed(error: Failure)

  // What a read returned: the value, and the bytes it occupied.
  datatype Argument = Argument(value: bytes, raw: bytes)
  datatype Command = Command(args: seq<bytes>, raw: bytes)

  const STAR: byte := 42
  const DOLLAR: byte := 36

  predicate IsLineTag(b: byte) {
    b == 43 || b == 45 || b == 58 || b == 44 || b == 40 || b == 35 || b == 95
  }

  predicate IsBulkTag(b: byte) {
    b == 36 || b == 33 || b == 61
  }

  predicate IsListTag(b: byte) {
    b == 42 || b == 126 || b == 62
  }

  const MAP: byte := 37
  const ATTRIBUTE: byte := 124

  // ------------------------------------------------------------------ commands

  function ParseArgument(s: bytes): (r: Parse<Argument>)
    ensures r.Parsed? ==> r.value.raw + r.rest == s && |r.rest| < |s|
  {
    var header := Line(s);
    if header == [] || header[0] != DOLLAR then Failed(ValueError)
    else match ParseInt(Body(header, 1))
      case None => Failed(ValueError)
      case Some(size) =>
        var rest := s[|header|..];
        if size + 2 < -1 then Failed(ValueError)
        else if size < 0 || |rest| < size + 2 || rest[size..size + 2] != CRLF then Failed(ConnectionError)
        else Parsed(Argument(rest[..size], header + rest[..size + 2]), rest[size + 2..])
  }

  function ParseArguments(count: int, s: bytes): (r: Parse<Command>)
    decreases |s|
    ensures r.Parsed? ==> r.value.raw + r.rest == s
  {
    if count <= 0 then Parsed(Command([], []), s)
    else match ParseArgument(s)
      case Failed(e) => Failed(e)
      case Parsed(arg, rest) =>
        match ParseArguments(count - 1, rest)
        case Failed(e) => Failed(e)
        case Parsed(more, last) =>
          Glue(arg.raw, more.raw, last);
          Parsed(Command([arg.value] + more.args, arg.raw + more.raw), last)
  }

  // One command. At the end of the stream its arguments and its bytes are both empty.
  function ParseCommand(s: bytes): (r: Parse<Command>)
    ensures r.Parsed? ==> r.value.raw + r.rest == s
    ensures r.Parsed? ==> |r.rest| <= |s| && (s != [] ==> |r.rest| < |s|)
  {
    var first := Line(s);
    assert first + s[|first|..] == s;
    if first == [] then Parsed(Command([], []), s)
    else if first[0] != STAR then Failed(ValueError)
    else match ParseInt(Body(first, 1))
      case None => Failed(ValueError)
      case Some(count) =>
        match ParseArguments(count, s[|first|..])
        case Failed(e) => Failed(e)
        case Parsed(items, rest) =>
          Glue(first, items.raw, rest);
          Parsed(Command(items.args, first + items.raw), rest)
  }

  function EncodeArgument(arg: bytes): bytes {
    [DOLLAR] + Decimal(|arg|) + CRLF + arg + CRLF
  }

  function EncodeArguments(args: seq<bytes>): bytes {
    if args == [] then [] else EncodeArgument(args[0]) + EncodeArguments(args[1..])
  }

  function EncodeCommand(args: seq<bytes>): (r: bytes)
    ensures r != []
  {
    [STAR] + Decimal(|args|) + CRLF + EncodeArguments(args)
  }

  function EncodeCommands(commands: seq<seq<bytes>>): bytes {
    if commands == [] then [] else EncodeCommand(commands[0]) + EncodeCommands(commands[1..])
  }

  // ------------------------------------------------------------------ replies

  // What is read after a head, with the head in front of it.
  function Behind(head: bytes, p: Parse<bytes>): (r: Parse<bytes>)
    ensures r.Parsed? <==> p.Parsed?
    ensures p.Parsed? ==> r.rest == p.rest && r.value + r.rest == head + (p.value + p.rest)
  {
    match p
    case Failed(e) => Failed(e)
    case Parsed(body, last) =>
      Glue(head, body, last);
      Parsed(head + body, last)
  }

  // The bytes of a bulk body and its line end
  function ParseBody(size: nat, s: bytes): (r: Parse<bytes>)
    ensures r.Parsed? ==> r.value + r.rest == s
  {
    if |s| < size + 2 then Failed(ConnectionError) else Parsed(s[..size + 2], s[size + 2..])
  }

  // One reply, returned as its own bytes.
  function ParseReply(s: bytes): (r: Parse<bytes>)
    decreases |s|, 0
    ensures r.Parsed? ==> r.value + r.rest == s && |r.rest| < |s|
  {
    if s == [] then Failed(ConnectionError)
    else
      var first, line := s[0], Line(s[1..]);
      var head, rest := [first] + line, s[1 + |line|..];
      assert head + rest == s;
      if IsLineTag(first) then Parsed(head, rest)
      else if IsBulkTag(first) then
        match ParseInt(Body(line, 0))
        case None => Failed(ValueError)
        case Some(size) =>
          if size < 0 then Parsed(head, rest)
          else Behind(head, ParseBody(size, rest))
      else if IsListTag(first) || first == MAP || first == ATTRIBUTE then
        match ParseInt(Body(line, 0))
        case None => Failed(ValueError)
        case Some(count) =>
          if count < 0 then Parsed(head, rest)
          else Behind(head, ParseReplies(count * Width(first), rest))
      else Failed(ValueError)
  }

  // How many replies make up one counted element.
  function Width(tag: byte): nat {
    if tag == MAP || tag == ATTRIBUTE then 2 else 1
  }

  function ParseReplies(count: nat, s: bytes): (r: Parse<bytes>)
    decreases |s|, 1
    ensures r.Parsed? ==> r.value + r.rest == s
  {
    if count == 0 then Parsed([], s)
    else match ParseReply(s)
      case Failed(e) => Failed(e)
      case Parsed(raw, rest) =>
        match ParseReplies(count - 1, rest)
        case Failed(e) => Failed(e)
        case Parsed(more, last) =>
          Glue(raw, more, last);
          Parsed(raw + more, last)
  }

  // A reply as the protocol defines it. An attribute decorates the value that follows it, so
  // that value is part of the same reply.
  datatype Reply =
    | Simple(tag: byte, text: bytes)
    | Null(tag: byte, negative: nat)
    | Bulk(tag: byte, body: bytes)
    | List(tag: byte, items: seq<Reply>)
    | Map(entries: seq<Reply>)
    | Attributed(pairs: seq<Reply>, value: Reply)

  predicate WellFormed(v: Reply) {
    match v
    case Simple(tag, text) => IsLineTag(tag) && LF !in text
    case Null(tag, n) => (IsBulkTag(tag) || IsListTag(tag)) && n > 0
    case Bulk(tag, _) => IsBulkTag(tag)
    case List(tag, items) => IsListTag(tag) && forall i | 0 <= i < |items| :: WellFormed(items[i])
    case Map(entries) => |entries| % 2 == 0 && forall i | 0 <= i < |entries| :: WellFormed(entries[i])
    case Attributed(pairs, value) =>
      && |pairs| % 2 == 0
      && WellFormed(value)
      && forall i | 0 <= i < |pairs| :: WellFormed(pairs[i])
  }

  predicate AttributeFree(v: Reply) {
    match v
    case Simple(_, _) => true
    case Null(_, _) => true
    case Bulk(_, _) => true
    case List(_, items) => forall i | 0 <= i < |items| :: AttributeFree(items[i])
    case Map(entries) => forall i | 0 <= i < |entries| :: AttributeFree(entries[i])
    case Attributed(_, _) => false
  }

  function EncodeReply(v: Reply): bytes {
    match v
    case Simple(tag, text) => [tag] + text + CRLF
    case Null(tag, n) => [tag] + [45] + Decimal(n) + CRLF
    case Bulk(tag, body) => [tag] + Decimal(|body|) + CRLF + body + CRLF
    case List(tag, items) => [tag] + Decimal(|items|) + CRLF + EncodeReplies(items)
    case Map(entries) => [MAP] + Decimal(|entries| / 2) + CRLF + EncodeReplies(entries)
    case Attributed(pairs, value) =>
      [ATTRIBUTE] + Decimal(|pairs| / 2) + CRLF + EncodeReplies(pairs) + EncodeReply(value)
  }

  function EncodeReplies(vs: seq<Reply>): bytes {
    if vs == [] then [] else EncodeReply(vs[0]) + EncodeReplies(vs[1..])
  }
}
