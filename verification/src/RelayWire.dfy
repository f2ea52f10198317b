// Which commands the two proxies refuse, and what they write, in the bytes of the wire.

module RelayWire {
  import opened PyBytes
  import opened Utf8
  import opened Relay
  import opened RelayProofs

  // The codes of an ASCII text
  predicate Spells(s: seq<int>, text: string) {
    |s| == |text| && forall i | 0 <= i < |s| :: s[i] == text[i] as int
  }

  lemma SpellsAscii(s: seq<int>, text: string)
    requires forall i | 0 <= i < |text| :: text[i] as int < 128
    ensures Spells(s, text) <==> s == Ascii(text)
  {
  }

  // EVAL in upper or lower case, and XADD somewhere in its script.
  predicate Appending(args: command) {
    && |args| >= 8
    && |args[0]| == 4 && args[0][0] in {69, 101} && args[0][1] in {86, 118} && args[0][2] in {65, 97} && args[0][3] in {76, 108}
    && exists i :: 0 <= i <= |args[1]| - 4 && args[1][i] == 88 && args[1][i + 1] == 65 && args[1][i + 2] == 68
                   && args[1][i + 3] == 68
  }

  lemma AppendsExactly(args: command)
    ensures AppendsEvent(args) <==> Appending(args)
  {
    if |args| >= 8 {
      UpperEval(args[0]);
      XaddInside(args[1]);
      hide Upper, Contains;
    }
  }

  lemma XaddInside(s: bytes)
    ensures Contains(s, Ascii("XADD"))
       <==> exists i :: 0 <= i <= |s| - 4 && s[i] == 88 && s[i + 1] == 65 && s[i + 2] == 68 && s[i + 3] == 68
  {
    var part := Ascii("XADD");
    assert part == [88, 65, 68, 68];
    if Contains(s, part) {
      var i :| 0 <= i <= |s| - |part| && part <= s[i..];
      assert s[i..][0] == s[i] && s[i..][1] == s[i + 1] && s[i..][2] == s[i + 2] && s[i..][3] == s[i + 3];
    }
    if i :| 0 <= i <= |s| - 4 && s[i] == 88 && s[i + 1] == 65 && s[i + 2] == 68 && s[i + 3] == 68 {
      assert part <= s[i..];
    }
  }

  lemma UpperEval(s: bytes)
    ensures Upper(s) == Ascii("EVAL")
       <==> |s| == 4 && s[0] in {69, 101} && s[1] in {86, 118} && s[2] in {65, 97} && s[3] in {76, 108}
  {
    var u := Upper(s);
    if |s| == 4 {
      assert u == [u[0], u[1], u[2], u[3]] && Ascii("EVAL") == [69, 86, 65, 76];
    }
  }

  lemma TypesSpelled(s: bytes)
    ensures Spells(s, "claim.assignment.changed") <==> s == ASSIGNMENT_CHANGED
    ensures Spells(s, "task.priority.changed") <==> s == PRIORITY_CHANGED
    ensures Spells(s, "task.attachment.linked") <==> s == ATTACHMENT_LINKED
  {
    SpellsAscii(s, "claim.assignment.changed");
    SpellsAscii(s, "task.priority.changed");
    SpellsAscii(s, "task.attachment.linked");
  }

  // The assignment and priority proxy refuses an append of either type, hangs up on one whose type
  // is damaged but reads as either when malformed bytes are dropped, and forwards everything else.
  lemma PendingJudged(args: command)
    ensures JudgePending(args).Refuse?
       <==> Appending(args) && (Spells(args[7], "claim.assignment.changed") || Spells(args[7], "task.priority.changed"))
    ensures JudgePending(args).Refuse? ==> JudgePending(args).recordType == args[7]
    ensures JudgePending(args).Abandon?
       <==> && Appending(args)
            && (Spells(DecodeIgnore(args[7]), "claim.assignment.changed")
                || Spells(DecodeIgnore(args[7]), "task.priority.changed"))
            && !Spells(args[7], "claim.assignment.changed") && !Spells(args[7], "task.priority.changed")
  {
    AppendsExactly(args);
    hide Appending, AppendsEvent, DecodeIgnore, DecodeStrict, Spells;
    if AppendsEvent(args) {
      assert |args| >= 8 by { EnoughArguments(args); }
      PendingVerdict(args);
      TypesSpelled(args[7]);
      LenientSpelled(DecodeIgnore(args[7]));
    } else {
      Unappending(args);
    }
  }

  lemma EnoughArguments(args: command)
    requires AppendsEvent(args)
    ensures |args| >= 8
  {
  }

  lemma Unappending(args: command)
    requires !AppendsEvent(args)
    ensures JudgePending(args) == Forward && JudgeAttachment(args) == Forward
  {
  }

  lemma LenientSpelled(t: text)
    ensures IsFaultType(t) <==> Spells(t, "claim.assignment.changed") || Spells(t, "task.priority.changed")
  {
    SpellsAscii(t, "claim.assignment.changed");
    SpellsAscii(t, "task.priority.changed");
  }

  // The attachment proxy refuses an append of its type and forwards everything else.
  lemma AttachmentJudged(args: command)
    ensures JudgeAttachment(args)
         == if Appending(args) && Spells(args[7], "task.attachment.linked") then Refuse(args[7]) else Forward
  {
    AppendsExactly(args);
    hide Appending, AppendsEvent, Spells;
    if AppendsEvent(args) {
      assert |args| >= 8 by { EnoughArguments(args); }
      TypesSpelled(args[7]);
    } else {
      Unappending(args);
    }
  }

  // What either tells its client, and whether it goes on after a refusal.
  lemma RefusalsSpelled()
    ensures Spells(PENDING_RELAY.refusal, "-ERR isolated postcommit relay fault" + "\r\n")
    ensures Spells(PENDING_RELAY.unavailable, "-ERR isolated relay upstream unavailable" + "\r\n")
    ensures Spells(ATTACHMENT_RELAY.refusal, "-ERR isolated task attachment relay fault" + "\r\n")
    ensures Spells(ATTACHMENT_RELAY.unavailable, "-ERR attachment relay proxy upstream unavailable" + "\r\n")
    ensures !PENDING_RELAY.continues && ATTACHMENT_RELAY.continues
    ensures PENDING_RELAY.judge == JudgePending && ATTACHMENT_RELAY.judge == JudgeAttachment
  {
    hide Spells;
    FaultSpelled();
    UpstreamSpelled();
    LinkFaultSpelled();
    LinkUpstreamSpelled();
  }

  lemma FaultSpelled()
    ensures Spells(PENDING_RELAY.refusal, "-ERR isolated postcommit relay fault" + "\r\n")
  {
    LineSpelled("-ERR isolated postcommit relay fault");
  }

  lemma UpstreamSpelled()
    ensures Spells(PENDING_RELAY.unavailable, "-ERR isolated relay upstream unavailable" + "\r\n")
  {
    LineSpelled("-ERR isolated relay upstream unavailable");
  }

  lemma LinkFaultSpelled()
    ensures Spells(ATTACHMENT_RELAY.refusal, "-ERR isolated task attachment relay fault" + "\r\n")
  {
    LineSpelled("-ERR isolated task attachment relay fault");
  }

  lemma LinkUpstreamSpelled()
    ensures Spells(ATTACHMENT_RELAY.unavailable, "-ERR attachment relay proxy upstream unavailable" + "\r\n")
  {
    FirstHalf();
    SecondHalf();
    Halves();
    LineSpelled("-ERR attachment relay " + "proxy upstream unavailable");
  }

  lemma FirstHalf()
    ensures forall i | 0 <= i < |"-ERR attachment relay "| :: "-ERR attachment relay "[i] as int < 128
  {
  }

  lemma SecondHalf()
    ensures forall i | 0 <= i < |"proxy upstream unavailable"| :: "proxy upstream unavailable"[i] as int < 128
  {
  }

  lemma Halves()
    ensures "-ERR attachment relay " + "proxy upstream unavailable" == "-ERR attachment relay proxy upstream unavailable"
  {
  }

  lemma LineSpelled(text: string)
    requires forall i | 0 <= i < |text| :: text[i] as int < 128
    ensures Spells(Ascii(text) + CRLF, text + "\r\n")
  {
  }
}
