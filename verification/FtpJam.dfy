/**
 When the client gets on. Each end of data takes one off `busy` and closes the data
 connection, so if more data operations are running than ends can come, `busy` never
 comes down to zero again; and if not, the server can always let the client get on.
 */
module FtpJam {
  import opened Ctype
  import opened Decimal
  import opened FtpInvariant
  import opened FtpOverlap
  import opened FtpQueue
  import opened FtpReply
  import opened FtpSteps

  // ---- once jammed, always jammed ----

  predicate Stuck(s: Client) {
    Inv(s, 0) && !s.past.inLine && !s.past.waiting && Jammed(s)
  }

  /** No operation was started. */
  predicate StillStuck(s: Client, t: Client) {
    Stuck(t) && t.past.started == s.past.started
  }

  lemma LineLeavesStuck(s: Client, line: Line)
    requires Stuck(s)
    ensures StillStuck(s, TakeLine(s, line))
  {
    var buf := SkipSpaces(line.text);
    var code := RespCode(buf);
    hide RespCode, SkipSpaces;
    if code > 0 && Legal(s, code) {
      ProcKeeps(s, code, buf, line);
      ReplyLeavesJam(s, code, buf, line);
      hide Inv, ProcControl, Jammed;
    }
  }

  /** What a response line leaves as it is while a transfer is running. */
  predicate SameTransfers(s: Client, t: Client) {
    && t.data == s.data && t.carried == s.carried && t.past.begun == s.past.begun && t.past.ends == s.past.ends
    && t.past.started == s.past.started && t.past.waiting == s.past.waiting && t.cproc == s.cproc
  }

  /** While a data operation is running, its handler or that of another one hears all replies. */
  lemma ReplyLeavesJam(s: Client, code: int, buf: string, line: Line)
    requires Inv(s, 0) && !s.past.inLine && Pend(s) > 0 && Legal(s, code)
    ensures SameTransfers(s, ProcControl(s, code, buf, line))
  {
    var s1 := s.(past := s.past.(inLine := true));
    TakeKeeps(s, code);
    var t := TakeReply(s1, code);
    assert SameTransfers(s, t) && ForTransfer(t.cproc) && t.busy > 0;
    CallLeavesJam(t, code, buf, line, Taken(s, code));
    hide Inv, TakeReply, CallCproc, Legal, Login;
    var u := CallCproc(t, code, buf, line);
    assert Dispatch(t, code, buf, line) == u || Dispatch(t, code, buf, line) == u.(busy := u.busy - 1);
    hide Dispatch;
  }

  lemma CallLeavesJam(s: Client, code: int, buf: string, line: Line, ans: nat)
    requires Inv(s, ans) && s.busy > 0 && ForTransfer(s.cproc)
    ensures SameTransfers(s, CallCproc(s, code, buf, line))
  {
    if s.cproc.CXfer? && code >= 400 {
      DoneKeeps(s, s.cproc.xfer, line.submits, line.meets, ans);
      hide Inv, Done;
    } else {
      hide Inv;
      assert CallCproc(s, code, buf, line) == s;
    }
  }

  lemma {:induction false} LinesLeaveStuck(s: Client, lines: seq<Line>)
    requires Stuck(s)
    ensures StillStuck(s, TakeLines(s, lines))
    decreases |lines|
  {
    if lines != [] {
      hide Stuck;
      LinesLeaveStuck(s, lines[..|lines| - 1]);
      LineLeavesStuck(TakeLines(s, lines[..|lines| - 1]), lines[|lines| - 1]);
    }
  }

  lemma {:induction false} DataLeavesStuck(s: Client, packets: seq<Packet>, n: nat)
    requires Stuck(s)
    ensures StillStuck(s, HandleData(s, packets, n))
    decreases n
  {
    if s.data && packets != [] && n > 0 {
      if packets[0].Eof? && s.carried != [] {
        DataEndKeeps(s, packets[0].submits, packets[0].meets);
        hide Inv, DataEnd;
      } else {
        DataLeavesStuck(s, packets[1..], n - 1);
      }
    }
  }

  lemma EventLeavesStuck(s: Client, event: Event)
    requires Stuck(s)
    ensures StillStuck(s, TakeEvent(s, event))
  {
    match event
    case Control(lines) =>
      LinesLeaveStuck(s, lines);
      ControlIsLines(s, lines);
      hide Stuck, TakeLines, TakeEvent;
    case DataReady(packets) =>
      DataLeavesStuck(s, packets, 4);
      hide Stuck, HandleData;
    case Incoming(accepted) =>
  }

  lemma StuckIsBusy(s: Client)
    requires Stuck(s)
    ensures s.busy > 0
  {
  }

  lemma StepLeavesStuck(s: Client, input: Input)
    requires Stuck(s)
    ensures StillStuck(s, Step(s, input))
  {
    match input
    case Submit(op, env) =>
      StuckIsBusy(s);
      LinedStuck(s, op, env);
      hide Stuck, Queue;
    case Happens(event, env) =>
      EventLeavesStuck(s, event);
      StuckIsBusy(TakeEvent(s, event));
      HandleIs(s, event, env);
      hide Stuck, TakeEvent, Handle;
  }

  lemma LinedStuck(s: Client, op: Op, env: Env)
    requires Stuck(s)
    ensures StillStuck(s, Queue(s, op, env))
  {
    StuckIsBusy(s);
    QueueKeeps(s, op, env, 0);
    hide Inv, Queue;
  }

  lemma {:induction false} StuckForGood(s: Client, inputs: seq<Input>)
    requires Stuck(s)
    ensures StillStuck(s, Run(s, inputs))
    decreases |inputs|
  {
    if inputs != [] {
      hide Stuck;
      StuckForGood(s, inputs[..|inputs| - 1]);
      StepLeavesStuck(Run(s, inputs[..|inputs| - 1]), inputs[|inputs| - 1]);
    }
  }

  // ---- if not jammed, it can get on ----

  /** The client has become idle or has started something. */
  predicate GotOn(s: Client, t: Client) {
    t.busy == 0 || |s.past.started| < |t.past.started|
  }

  predicate Going(s: Client) {
    Settled(s) && s.greeted && !Jammed(s)
  }

  /** A final reply that no handler acts upon */
  const FINE: Line := Line("200 ", true, false, [], QUIET)

  const ANSWERED: Input := Happens(Control([FINE]), QUIET)

  const ENDED: Input := Happens(DataReady([Eof([], QUIET)]), QUIET)

  lemma FineIs200()
    ensures SkipSpaces(FINE.text) == FINE.text && RespCode(FINE.text) == 200
  {
    assert "200 "[..3] == "200" && "200"[..2] == "20" && "20"[..1] == "2" && "2"[..0] == "";
    assert Value("200") == 200;
  }

  /** One answer more, or the client gets on. */
  lemma AnswerHelps(s: Client)
    requires Going(s) && s.out != []
    ensures var t := Step(s, ANSWERED);
            GotOn(s, t) || (Going(t) && |t.out| < |s.out| && t.past.started == s.past.started)
  {
    FineIs200();
    assert Inv(s, 0) && !s.past.inLine;
    ProcKeeps(s, 200, FINE.text, FINE);
    FineAnswered(s);
    var p := ProcControl(s, 200, FINE.text, FINE);
    assert p.busy >= 0;
    HandlesLine(s, FINE, 200, FINE.text, QUIET);
    StepKeeps(s, ANSWERED);
    if p.busy == 0 {
      StartsOrIdles(s, p);
    }
  }

  lemma StartsOrIdles(s: Client, p: Client)
    requires Inv(p, 0) && !p.past.inLine && Onward(s, p) && p.busy == 0
    ensures GotOn(s, ExecQueued(p, QUIET))
  {
    ExecQueuedKeeps(p, QUIET);
    NothingQueued(p, QUIET);
    hide Inv, ExecQueued;
  }

  lemma FineAnswered(s: Client)
    requires Going(s) && s.out != []
    ensures Legal(s, 200)
    ensures var p := ProcControl(s, 200, FINE.text, FINE);
            p.busy == 0 || (|p.out| < |s.out| && p.past.started == s.past.started && !Jammed(p))
  {
    if s.cproc == CNull {
      TakeKeeps(s, 200);
      hide Inv, Jammed;
    } else {
      FinalReply(s, 200, FINE.text, FINE);
      FineHandled(Heard(s, 200));
      hide ProcControl, CallCproc;
    }
  }

  lemma FineHandled(s: Client)
    ensures CallCproc(s, 200, FINE.text, FINE)
         == if s.cproc == CPasv then s.(passive := false, lis := false, data := false) else s
  {
    if s.cproc == CPasv {
      assert CallCproc(s, 200, FINE.text, FINE) == PasvReply(s, 200, FINE.text, FINE);
    }
  }

  /** With no command out the end of data makes the client idle. */
  lemma EndHelps(s: Client)
    requires Going(s) && s.out == [] && s.busy > 0
    ensures GotOn(s, Step(s, ENDED))
  {
    assert Inv(s, 0) && Serving(s) && Pend(s) == 1;
    DataEndKeeps(s, [], QUIET);
    var p := DataEnd(s, [], QUIET);
    hide DataEnd, Inv;
    assert TakeEvent(s, ENDED.event) == HandleData(s, ENDED.event.packets, 4) == p;
    hide TakeEvent, HandleData, Handle;
    HandleIs(s, ENDED.event, QUIET);
    StartsOrIdles(s, p);
  }

  lemma RunOn(s: Client, input: Input, more: seq<Input>)
    ensures Run(s, [input] + more) == Run(Step(s, input), more)
  {
    hide Step, Run;
    RunOne(s, input);
    RunTwice(s, [input], more);
  }

  /** The inputs that let the client get on. */
  lemma {:induction false} CanGetOn(s: Client) returns (inputs: seq<Input>)
    requires Going(s)
    ensures GotOn(s, Run(s, inputs))
    decreases |s.out|
  {
    if s.busy == 0 {
      inputs := [];
    } else if s.out == [] {
      EndHelps(s);
      inputs := [ENDED];
      RunOn(s, ENDED, []);
    } else {
      AnswerHelps(s);
      hide Going, Step;
      var t := Step(s, ANSWERED);
      var more := [];
      if !GotOn(s, t) {
        more := CanGetOn(t);
      }
      inputs := [ANSWERED] + more;
      RunOn(s, ANSWERED, more);
    }
  }

  /**
   In every run, once the greeting is handled: the client never gets on again, whatever
   happens, if and only if more data operations are running than can end; and that takes an
   operation that was started inside a wait.
   */
  lemma JammedForGood(inputs: seq<Input>)
    requires Run(UNUSED, inputs).greeted
    ensures var s := Run(UNUSED, inputs);
            && (Jammed(s) <==> forall more :: !GotOn(s, Run(s, more)))
            && (Jammed(s) ==> s.past.overlapped)
  {
    var s := Run(UNUSED, inputs);
    RunSettles(inputs);
    hide Run;
    assert Settled(s) && s.greeted;
    if Jammed(s) {
      forall more ensures !GotOn(s, Run(s, more)) {
        StuckForGood(s, more);
        StuckIsBusy(Run(s, more));
        hide Stuck;
      }
    } else {
      var more := CanGetOn(s);
    }
  }
}
