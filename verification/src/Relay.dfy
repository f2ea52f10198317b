// The fault-injecting relay: one connection is a loop that reads a command, refuses it when it
// appends one of the targeted events, and otherwise forwards it and returns one reply.

module Relay {
  import opened Wrappers
  import opened PyBytes
  import opened Utf8
  import opened RespGrammar
  import opened RespReaders

  // What a proxy does with one command. Abandon: the handler's own decoding raises, and it hangs up.
  datatype Judgement = Forward | Refuse(recordType: text) | Abandon

  datatype Config = Config(judge: seq<bytes> -> Judgement, refusal: bytes, unavailable: bytes, continues: bool)

  // Everything one connection wrote: to Redis, to the client, and to the fault list.
  datatype Traffic = Traffic(upstream: bytes, client: bytes, faults: seq<text>)

  const SILENCE := Traffic([], [], [])

  function Then(a: Traffic, b: Traffic): Traffic {
    Traffic(a.upstream + b.upstream, a.client + b.client, a.faults + b.faults)
  }

  // ------------------------------------------------------------------ the two proxies

  function Upper(s: bytes): bytes {
    seq(|s|, i requires 0 <= i < |s| => if 97 <= s[i] <= 122 then s[i] - 32 else s[i])
  }

  predicate Contains(s: bytes, part: bytes) {
    exists i :: 0 <= i <= |s| - |part| && part <= s[i..]
  }

  predicate AppendsEvent(args: seq<bytes>) {
    |args| >= 8 && Upper(args[0]) == Ascii("EVAL") && Contains(args[1], Ascii("XADD"))
  }

  const ASSIGNMENT_CHANGED := Ascii("claim.assignment.changed")
  const PRIORITY_CHANGED := Ascii("task.priority.changed")
  const ATTACHMENT_LINKED := Ascii("task.attachment.linked")

  predicate IsFaultType(t: text) {
    t == ASSIGNMENT_CHANGED || t == PRIORITY_CHANGED
  }

  // The assignment and priority proxy compares leniently and records strictly.
  function JudgePending(args: seq<bytes>): Judgement {
    if AppendsEvent(args) && IsFaultType(DecodeIgnore(args[7])) then
      match DecodeStrict(args[7])
      case None => Abandon
      case Some(recordType) => Refuse(recordType)
    else Forward
  }

  function JudgeAttachment(args: seq<bytes>): Judgement {
    if AppendsEvent(args) && args[7] == ATTACHMENT_LINKED then Refuse(ATTACHMENT_LINKED) else Forward
  }

  const PENDING_RELAY := Config(
    JudgePending,
    Ascii("-ERR isolated postcommit relay fault") + CRLF,
    Ascii("-ERR isolated relay upstream unavailable") + CRLF,
    false)
  const ATTACHMENT_RELAY := Config(
    JudgeAttachment,
    Ascii("-ERR isolated task attachment relay fault") + CRLF,
    Ascii("-ERR attachment relay proxy upstream unavailable") + CRLF,
    true)

  // ------------------------------------------------------------------ one connection

  function Relayed(config: Config, incoming: bytes, outgoing: bytes): Traffic
    decreases |incoming|
  {
    match ParseCommand(incoming)
    case Failed(_) => SILENCE
    case Parsed(command, rest) =>
      if command.raw == [] then SILENCE
      else match config.judge(command.args)
        case Abandon => SILENCE
        case Refuse(recordType) =>
          Then(Traffic([], config.refusal, [recordType]),
               if config.continues then Relayed(config, rest, outgoing) else SILENCE)
        case Forward =>
          match ParseReply(outgoing)
          case Failed(_) => Traffic(command.raw, [], [])
          case Parsed(reply, later) => Then(Traffic(command.raw, reply, []), Relayed(config, rest, later))
  }

  class Connection {
    const incoming: ByteStream
    const outgoing: ByteStream
    var upstream: bytes
    var client: bytes

    constructor (fromClient: bytes, fromUpstream: bytes)
      ensures fresh(incoming) && fresh(outgoing) && incoming != outgoing
      ensures incoming.Valid() && incoming.Rest() == fromClient
      ensures outgoing.Valid() && outgoing.Rest() == fromUpstream
      ensures upstream == [] && client == []
    {
      incoming := new ByteStream(fromClient);
      outgoing := new ByteStream(fromUpstream);
      upstream, client := [], [];
    }
  }

  lemma SilenceLast(a: Traffic)
    ensures Then(a, SILENCE) == a && Then(SILENCE, a) == a
  {
    assert a.upstream + [] == a.upstream && a.client + [] == a.client && a.faults + [] == a.faults;
    assert [] + a.upstream == a.upstream && [] + a.client == a.client && [] + a.faults == a.faults;
  }

  lemma ThenGroups(a: Traffic, b: Traffic, c: Traffic)
    ensures Then(Then(a, b), c) == Then(a, Then(b, c))
  {
    Glue(a.upstream, b.upstream, c.upstream);
    Glue(a.client, b.client, c.client);
    Glue(a.faults, b.faults, c.faults);
  }

  // What one command adds to the conversation
  function Step(config: Config, command: Command, outgoing: bytes): Traffic {
    match config.judge(command.args)
    case Abandon => SILENCE
    case Refuse(recordType) => Traffic([], config.refusal, [recordType])
    case Forward =>
      match ParseReply(outgoing)
      case Failed(_) => Traffic(command.raw, [], [])
      case Parsed(reply, _) => Traffic(command.raw, reply, [])
  }

  lemma RelayedEnds(config: Config, incoming: bytes, outgoing: bytes)
    requires var c := ParseCommand(incoming); c.Failed? || c.value.raw == [] || config.judge(c.value.args).Abandon?
    ensures Relayed(config, incoming, outgoing) == SILENCE
  {
  }

  lemma RelayedRefuses(config: Config, incoming: bytes, outgoing: bytes)
    requires var c := ParseCommand(incoming); c.Parsed? && c.value.raw != [] && config.judge(c.value.args).Refuse?
    ensures var c := ParseCommand(incoming);
            Relayed(config, incoming, outgoing)
            == Then(Step(config, c.value, outgoing), if config.continues then Relayed(config, c.rest, outgoing) else SILENCE)
  {
    hide ParseCommand, ParseReply;
  }

  lemma RelayedForwards(config: Config, incoming: bytes, outgoing: bytes)
    requires var c := ParseCommand(incoming); c.Parsed? && c.value.raw != [] && config.judge(c.value.args).Forward?
    ensures var c, r := ParseCommand(incoming), ParseReply(outgoing);
            Relayed(config, incoming, outgoing)
            == Then(Step(config, c.value, outgoing), if r.Parsed? then Relayed(config, c.rest, r.rest) else SILENCE)
  {
    hide ParseCommand, ParseReply;
    SilenceLast(Step(config, ParseCommand(incoming).value, outgoing));
  }

  lemma Told(t: Traffic, refusal: bytes, recordType: text)
    ensures Then(t, Traffic([], refusal, [recordType])) == Traffic(t.upstream, t.client + refusal, t.faults + [recordType])
  {
    assert t.upstream + [] == t.upstream;
  }

  lemma Passed(t: Traffic, raw: bytes, reply: bytes)
    ensures Then(t, Traffic(raw, reply, [])) == Traffic(t.upstream + raw, t.client + reply, t.faults)
    ensures Then(t, Traffic(raw, [], [])) == Traffic(t.upstream + raw, t.client, t.faults)
  {
    assert t.client + [] == t.client && t.faults + [] == t.faults;
  }

  class RelayServer {
    const config: Config
    var faults: seq<text>

    constructor (config: Config)
      ensures this.config == config && faults == []
    {
      this.config := config;
      faults := [];
    }

    // One turn of the handler's loop: whether it goes on.
    method Turn(connection: Connection) returns (goes: bool)
      requires connection.incoming != connection.outgoing
      requires connection.incoming.Valid() && connection.outgoing.Valid()
      modifies this, connection, connection.incoming, connection.outgoing
      ensures connection.incoming.Valid() && connection.outgoing.Valid()
      ensures goes ==> |connection.incoming.Rest()| < |old(connection.incoming.Rest())|
      ensures Then(Traffic(old(connection.upstream), old(connection.client), old(faults)),
                   Relayed(config, old(connection.incoming.Rest()), old(connection.outgoing.Rest())))
           == Then(Traffic(connection.upstream, connection.client, faults),
                   if goes then Relayed(config, connection.incoming.Rest(), connection.outgoing.Rest()) else SILENCE)
    {
      ghost var incoming, outgoing := connection.incoming.Rest(), connection.outgoing.Rest();
      ghost var before := Traffic(connection.upstream, connection.client, faults);
      hide Relayed, ParseCommand, ParseReply, Then;
      var command := ReadCommand(connection.incoming);
      if command.Raised? || command.value.raw == [] {
        RelayedEnds(config, incoming, outgoing);
        return false;
      }
      ghost var step := Step(config, command.value, outgoing);
      match config.judge(command.value.args)
      case Abandon =>
        RelayedEnds(config, incoming, outgoing);
        return false;
      case Refuse(recordType) =>
        faults := faults + [recordType];
        connection.client := connection.client + config.refusal;
        Told(before, config.refusal, recordType);
        RelayedRefuses(config, incoming, outgoing);
        ThenGroups(before, step, if config.continues then Relayed(config, connection.incoming.Rest(), outgoing) else SILENCE);
        return config.continues;
      case Forward =>
        connection.upstream := connection.upstream + command.value.raw;
        RelayedForwards(config, incoming, outgoing);
        var reply := ReadReply(connection.outgoing);
        Passed(before, command.value.raw, if reply.Raised? then [] else reply.value);
        if reply.Raised? {
          ThenGroups(before, step, SILENCE);
          return false;
        }
        ThenGroups(before, step, Relayed(config, connection.incoming.Rest(), connection.outgoing.Rest()));
        connection.client := connection.client + reply.value;
        return true;
    }

    // The handler of one connection
    method Handle(connection: Connection, reachable: bool)
      requires connection.incoming != connection.outgoing
      requires connection.incoming.Valid() && connection.outgoing.Valid()
      modifies this, connection, connection.incoming, connection.outgoing
      ensures !reachable ==>
        && connection.client == old(connection.client) + config.unavailable
        && connection.upstream == old(connection.upstream) && faults == old(faults)
      ensures reachable ==>
        Traffic(connection.upstream, connection.client, faults)
        == Then(Traffic(old(connection.upstream), old(connection.client), old(faults)),
                Relayed(config, old(connection.incoming.Rest()), old(connection.outgoing.Rest())))
    {
      if !reachable {
        connection.client := connection.client + config.unavailable;
        return;
      }
      ghost var before := Traffic(connection.upstream, connection.client, faults);
      ghost var total := Then(before, Relayed(config, connection.incoming.Rest(), connection.outgoing.Rest()));
      hide Relayed, Then;
      var goes := true;
      while goes
        invariant connection.incoming.Valid() && connection.outgoing.Valid()
        invariant total == Then(Traffic(connection.upstream, connection.client, faults),
                                if goes then Relayed(config, connection.incoming.Rest(), connection.outgoing.Rest()) else SILENCE)
        decreases if goes then |connection.incoming.Rest()| + 1 else 0
      {
        goes := Turn(connection);
      }
      SilenceLast(Traffic(connection.upstream, connection.client, faults));
    }
  }
}
