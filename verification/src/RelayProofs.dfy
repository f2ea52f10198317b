// What a whole relayed conversation looks like, and how the two proxies differ.

module RelayProofs {
  import opened Wrappers
  import opened PyBytes
  import opened Utf8
  import opened RespGrammar
  import opened RespProofs
  import opened Relay

  type command = seq<bytes>

  // ------------------------------------------------------------------ which commands are refused

  // A command is refused exactly when its event argument is, byte for byte, a targeted type. A
  // damaged spelling of a targeted type makes the handler hang up instead.
  lemma PendingVerdict(args: command)
    requires AppendsEvent(args)
    ensures JudgePending(args).Refuse? <==> args[7] == ASSIGNMENT_CHANGED || args[7] == PRIORITY_CHANGED
    ensures JudgePending(args).Refuse? ==> JudgePending(args).recordType == args[7]
    ensures JudgePending(args).Abandon? <==>
            IsFaultType(DecodeIgnore(args[7])) && args[7] != ASSIGNMENT_CHANGED && args[7] != PRIORITY_CHANGED
  {
    assert |args| >= 8;
    hide DecodeIgnore, DecodeStrict, AppendsEvent, IsFaultType;
    TypeVerdict(args[7]);
  }

  // A type is decodable and targeted exactly when it is one of the targeted byte strings.
  lemma TypeVerdict(t: bytes)
    ensures DecodeStrict(t).Some? && IsFaultType(DecodeIgnore(t)) <==> t == ASSIGNMENT_CHANGED || t == PRIORITY_CHANGED
    ensures t == ASSIGNMENT_CHANGED || t == PRIORITY_CHANGED ==> DecodeStrict(t) == Some(t)
  {
    hide DecodeIgnore, DecodeStrict;
    StrictIsLenient(t);
    StrictAscii(t, ASSIGNMENT_CHANGED);
    StrictAscii(t, PRIORITY_CHANGED);
  }

  lemma {:induction false} TrailingGarbageIgnored(s: bytes, garbage: byte)
    requires IsAscii(s) && garbage >= 0x80
    ensures DecodeIgnore(s + [garbage]) == s
  {
    var whole := s + [garbage];
    if s == [] {
      assert DecodeIgnore(whole[1..]) == [];
    } else {
      assert whole[0] == s[0] && whole[1..] == s[1..] + [garbage];
      TrailingGarbageIgnored(s[1..], garbage);
      assert [s[0]] + s[1..] == s;
    }
  }

  // One stray byte after a targeted type: neither refused, nor forwarded, nor recorded.
  lemma StrayByteAbandons(args: command, garbage: byte)
    requires AppendsEvent(args) && garbage >= 0x80
    requires args[7] == ASSIGNMENT_CHANGED + [garbage]
    ensures JudgePending(args) == Abandon
  {
    TrailingGarbageIgnored(ASSIGNMENT_CHANGED, garbage);
    PendingVerdict(args);
  }

  // ------------------------------------------------------------------ pipelined commands

  // The handler hangs up at this command: before answering it, or right after.
  predicate Last(config: Config, c: command) {
    config.judge(c).Abandon? || (config.judge(c).Refuse? && !config.continues)
  }

  // How many commands of the pipeline are answered.
  function Answered(config: Config, commands: seq<command>): (n: nat)
    ensures n <= |commands|
    ensures forall i :: 0 <= i < n ==> !config.judge(commands[i]).Abandon?
    ensures forall i :: 0 <= i < n - 1 ==> !Last(config, commands[i])
    ensures n < |commands| ==> config.judge(commands[n]).Abandon? || (n > 0 && Last(config, commands[n - 1]))
  {
    if commands == [] || config.judge(commands[0]).Abandon? then 0
    else if Last(config, commands[0]) then 1
    else 1 + Answered(config, commands[1..])
  }

  function Forwarded(config: Config, commands: seq<command>): seq<command> {
    if commands == [] then []
    else (if config.judge(commands[0]).Forward? then [commands[0]] else []) + Forwarded(config, commands[1..])
  }

  function Refused(config: Config, commands: seq<command>): seq<text> {
    if commands == [] then []
    else (match config.judge(commands[0])
          case Refuse(recordType) => [recordType]
          case _ => []) + Refused(config, commands[1..])
  }

  // One answer a command: the fixed refusal, or the next reply of the upstream.
  function Answers(config: Config, commands: seq<command>, replies: seq<Reply>): (r: seq<bytes>)
    requires |Forwarded(config, commands)| <= |replies|
    ensures |r| == |commands|
  {
    if commands == [] then []
    else if config.judge(commands[0]).Forward? then
      [EncodeReply(replies[0])] + Answers(config, commands[1..], replies[1..])
    else [config.refusal] + Answers(config, commands[1..], replies)
  }

  lemma {:induction false} ForwardedAppend(config: Config, a: seq<command>, b: seq<command>)
    ensures Forwarded(config, a + b) == Forwarded(config, a) + Forwarded(config, b)
  {
    if a == [] {
      assert a + b == b;
    } else {
      assert (a + b)[0] == a[0] && (a + b)[1..] == a[1..] + b;
      ForwardedAppend(config, a[1..], b);
    }
  }

  // The i-th answer belongs to the i-th command: replies are matched by counting forwarded
  // commands only.
  lemma {:induction false} AnswerAt(config: Config, commands: seq<command>, replies: seq<Reply>, i: nat)
    requires |Forwarded(config, commands)| <= |replies|
    requires i < |commands| && !config.judge(commands[i]).Abandon?
    ensures var turn := |Forwarded(config, commands[..i])|;
            Answers(config, commands, replies)[i] ==
            if config.judge(commands[i]).Refuse? then config.refusal
            else if turn < |replies| then EncodeReply(replies[turn]) else []
  {
    ForwardedAppend(config, commands[..i], commands[i..]);
    assert commands[..i] + commands[i..] == commands;
    if i > 0 {
      assert commands[..i][1..] == commands[1..][..i - 1];
      AnswerAt(config, commands[1..], if config.judge(commands[0]).Forward? then replies[1..] else replies, i - 1);
    }
  }

  predicate Plain(v: Reply) {
    WellFormed(v) && AttributeFree(v)
  }

  lemma StepAbandon(config: Config, c: command, behind: bytes, outgoing: bytes)
    requires config.judge(c).Abandon?
    ensures Relayed(config, EncodeCommand(c) + behind, outgoing) == SILENCE
  {
    CommandRoundTrip(c, behind);
  }

  lemma StepRefuse(config: Config, c: command, behind: bytes, outgoing: bytes)
    requires config.judge(c).Refuse?
    ensures Relayed(config, EncodeCommand(c) + behind, outgoing)
            == Then(Traffic([], config.refusal, [config.judge(c).recordType]),
                    if config.continues then Relayed(config, behind, outgoing) else SILENCE)
  {
    CommandRoundTrip(c, behind);
  }

  lemma StepForward(config: Config, c: command, behind: bytes, v: Reply, later: bytes)
    requires config.judge(c).Forward? && Plain(v)
    ensures Relayed(config, EncodeCommand(c) + behind, EncodeReply(v) + later)
            == Then(Traffic(EncodeCommand(c), EncodeReply(v), []), Relayed(config, behind, later))
  {
    hide ParseReply, EncodeReply, EncodeCommand;
    CommandRoundTrip(c, behind);
    ReplyReadExactly(v, later);
  }

  // What a conversation over `commands` should amount to.
  function Expected(config: Config, commands: seq<command>, replies: seq<Reply>): Traffic
    requires |Forwarded(config, commands)| <= |replies|
  {
    Traffic(EncodeCommands(Forwarded(config, commands)),
            Join(Answers(config, commands, replies)),
            Refused(config, commands))
  }

  lemma ExpectedForward(config: Config, c: command, later: seq<command>, replies: seq<Reply>)
    requires config.judge(c).Forward?
    requires |Forwarded(config, [c] + later)| <= |replies|
    ensures Expected(config, [c] + later, replies)
            == Then(Traffic(EncodeCommand(c), EncodeReply(replies[0]), []), Expected(config, later, replies[1..]))
  {
    hide EncodeReply, EncodeCommand;
    var all := [c] + later;
    assert all[1..] == later;
    assert ([c] + Forwarded(config, later))[1..] == Forwarded(config, later);
    var answers := Answers(config, later, replies[1..]);
    assert ([EncodeReply(replies[0])] + answers)[1..] == answers;
    SilenceLast(Expected(config, all, replies));
  }

  lemma ExpectedRefuse(config: Config, c: command, later: seq<command>, replies: seq<Reply>)
    requires config.judge(c).Refuse?
    requires |Forwarded(config, [c] + later)| <= |replies|
    ensures |Forwarded(config, later)| <= |replies|
    ensures Expected(config, [c] + later, replies)
            == Then(Traffic([], config.refusal, [config.judge(c).recordType]), Expected(config, later, replies))
  {
    hide EncodeReply, EncodeCommand;
    var all := [c] + later;
    assert all[1..] == later;
    assert [] + Forwarded(config, later) == Forwarded(config, later);
    assert [] + EncodeCommands(Forwarded(config, later)) == EncodeCommands(Forwarded(config, later));
    var answers := Answers(config, later, replies);
    assert ([config.refusal] + answers)[1..] == answers;
  }

  // For every pipeline and every upstream that gives one plain reply per forwarded command:
  // Redis receives exactly the encodings of the forwarded commands, the client receives exactly
  // one answer per answered command in order, and the fault list names the refused ones.
  lemma {:induction false} Conversation(config: Config, commands: seq<command>, replies: seq<Reply>, tail: bytes)
    requires forall v | v in replies :: Plain(v)
    requires |Forwarded(config, commands[..Answered(config, commands)])| <= |replies|
    ensures Relayed(config, EncodeCommands(commands), EncodeReplies(replies) + tail)
            == Expected(config, commands[..Answered(config, commands)], replies)
  {
    hide EncodeReply, EncodeCommand, Relayed;
    var handled := commands[..Answered(config, commands)];
    if commands == [] {
      EndOfPipeline(config, EncodeReplies(replies) + tail);
    } else {
      var c, others := commands[0], commands[1..];
      var behind, outgoing := EncodeCommands(others), EncodeReplies(replies) + tail;
      if config.judge(c).Abandon? {
        StepAbandon(config, c, behind, outgoing);
      } else {
        var later := handled[1..];
        assert handled == [c] + later;
        if config.judge(c).Refuse? {
          StepRefuse(config, c, behind, outgoing);
          ExpectedRefuse(config, c, later, replies);
          if config.continues {
            assert later == others[..Answered(config, others)];
            Conversation(config, others, replies, tail);
          } else {
            assert later == [];
          }
        } else {
          assert later == others[..Answered(config, others)];
          assert Forwarded(config, handled) == [c] + Forwarded(config, later);
          Glue(EncodeReply(replies[0]), EncodeReplies(replies[1..]), tail);
          StepForward(config, c, behind, replies[0], EncodeReplies(replies[1..]) + tail);
          ExpectedForward(config, c, later, replies);
          Conversation(config, others, replies[1..], tail);
        }
      }
    }
  }

  lemma EndOfPipeline(config: Config, outgoing: bytes)
    ensures Relayed(config, [], outgoing) == SILENCE
  {
  }

  // The attachment proxy answers every command of a pipeline, refuses exactly the ones whose event
  // argument is the link type, and forwards all the others.
  lemma {:induction false} AttachmentAnswersAll(commands: seq<command>)
    ensures Answered(ATTACHMENT_RELAY, commands) == |commands|
    ensures |Forwarded(ATTACHMENT_RELAY, commands)| + |Refused(ATTACHMENT_RELAY, commands)| == |commands|
    ensures forall t | t in Refused(ATTACHMENT_RELAY, commands) :: t == ATTACHMENT_LINKED
    ensures forall c :: c in Forwarded(ATTACHMENT_RELAY, commands)
                        <==> c in commands && !(AppendsEvent(c) && c[7] == ATTACHMENT_LINKED)
  {
    hide AppendsEvent;
    if commands != [] {
      AttachmentAnswersAll(commands[1..]);
      AttachmentVerdict(commands[0]);
      assert commands == [commands[0]] + commands[1..];
    }
  }

  lemma AttachmentVerdict(c: command)
    ensures AppendsEvent(c) ==> |c| >= 8
    ensures ATTACHMENT_RELAY.judge(c) == if AppendsEvent(c) && c[7] == ATTACHMENT_LINKED then Refuse(ATTACHMENT_LINKED) else Forward
    ensures ATTACHMENT_RELAY.continues
  {
  }

  // ------------------------------------------------------------------ stopping against carrying on

  predicate PrefixOf(a: Traffic, b: Traffic) {
    a.upstream <= b.upstream && a.client <= b.client && a.faults <= b.faults
  }

  lemma PrefixThen(step: Traffic, a: Traffic, b: Traffic)
    requires PrefixOf(a, b)
    ensures PrefixOf(Then(step, a), Then(step, b))
  {
  }

  // On any two byte streams whatsoever, the proxy that stops after a refusal writes a prefix of
  // what the one that carries on writes; they differ only after the first refusal.
  lemma {:induction false} StopIsPrefix(stop: Config, go: Config, incoming: bytes, outgoing: bytes)
    requires !stop.continues && go == stop.(continues := true)
    ensures PrefixOf(Relayed(stop, incoming, outgoing), Relayed(go, incoming, outgoing))
    ensures |Relayed(stop, incoming, outgoing).faults| <= 1
    ensures Relayed(stop, incoming, outgoing).faults == [] ==> Relayed(stop, incoming, outgoing) == Relayed(go, incoming, outgoing)
    ensures |Relayed(go, incoming, outgoing).faults| > 0 ==>
            |Relayed(stop, incoming, outgoing).faults| == 1 && EndsWith(Relayed(stop, incoming, outgoing).client, stop.refusal)
    decreases |incoming|
  {
    hide ParseReply, ParseCommand;
    var command := ParseCommand(incoming);
    if command.Parsed? && command.value.raw != [] {
      match stop.judge(command.value.args)
      case Abandon =>
      case Refuse(recordType) =>
        var step := Traffic([], stop.refusal, [recordType]);
        SilenceLast(step);
        PrefixThen(step, SILENCE, Relayed(go, command.rest, outgoing));
      case Forward =>
        var reply := ParseReply(outgoing);
        if reply.Parsed? {
          StopIsPrefix(stop, go, command.rest, reply.rest);
          var step := Traffic(command.value.raw, reply.value, []);
          PrefixThen(step, Relayed(stop, command.rest, reply.rest), Relayed(go, command.rest, reply.rest));
          EndsAfter(reply.value, Relayed(stop, command.rest, reply.rest).client, stop.refusal);
        }
    }
  }

  // Whatever the two sides send, the assignment and priority proxy records at most one fault in a
  // connection, of a targeted type, and that refusal is the last thing the client hears.
  lemma {:induction false} PendingFaults(incoming: bytes, outgoing: bytes)
    ensures var t := Relayed(PENDING_RELAY, incoming, outgoing);
            && |t.faults| <= 1
            && (forall f | f in t.faults :: f == ASSIGNMENT_CHANGED || f == PRIORITY_CHANGED)
            && (t.faults != [] ==> EndsWith(t.client, PENDING_RELAY.refusal))
    decreases |incoming|
  {
    hide ParseReply, ParseCommand, JudgePending;
    var command := ParseCommand(incoming);
    if command.Parsed? && command.value.raw != [] {
      PendingRefuses(command.value.args);
      if PENDING_RELAY.judge(command.value.args).Forward? && ParseReply(outgoing).Parsed? {
        var reply := ParseReply(outgoing);
        PendingFaults(command.rest, reply.rest);
        EndsAfter(reply.value, Relayed(PENDING_RELAY, command.rest, reply.rest).client, PENDING_RELAY.refusal);
      }
    }
  }

  lemma PendingRefuses(args: command)
    ensures PENDING_RELAY.judge(args) == JudgePending(args) && !PENDING_RELAY.continues
    ensures JudgePending(args).Refuse? ==>
              JudgePending(args).recordType == ASSIGNMENT_CHANGED || JudgePending(args).recordType == PRIORITY_CHANGED
  {
    hide DecodeIgnore, DecodeStrict, IsFaultType;
    if AppendsEvent(args) {
      PendingVerdict(args);
    }
  }

  predicate EndsWith(s: bytes, end: bytes) {
    |end| <= |s| && s[|s| - |end|..] == end
  }

  lemma EndsAfter(a: bytes, s: bytes, end: bytes)
    ensures EndsWith(s, end) ==> EndsWith(a + s, end)
  {
    if EndsWith(s, end) {
      assert (a + s)[|a + s| - |end|..] == s[|s| - |end|..];
    }
  }
}
