/**
 Whole runs of the engine: what holds in all of them, when an operation starts inside
 another one's wait, and what goes wrong then.
 */
module FtpOverlap {
  import opened Ctype
  import opened Decimal
  import opened FtpAddress
  import opened FtpInvariant
  import opened FtpQueue
  import opened FtpReply
  import opened FtpSteps
  import opened Options
  import opened Seqs

  // ---- every run ----

  lemma {:induction false} RunSettles(inputs: seq<Input>)
    ensures Settled(Run(UNUSED, inputs))
    decreases |inputs|
  {
    if inputs != [] {
      RunSettles(inputs[..|inputs| - 1]);
      StepKeeps(Run(UNUSED, inputs[..|inputs| - 1]), inputs[|inputs| - 1]);
    }
  }

  /**
   In every run `busy` is the number of unanswered commands and running data operations,
   `ftp_handle` never finds it negative, `handle_control` is never entered during a
   response line, operations start in the order they were submitted, and handlers that
   cannot tell replies apart have one command to hear about. If moreover no operation was
   started inside a wait, one command is out at most, a data operation is running exactly if
   its command was sent on the open data connection, every final reply (to TYPE aside) has
   met the handler of its own command, and every end of data that of its own transfer.
   */
  lemma EveryRun(inputs: seq<Input>)
    ensures var s := Run(UNUSED, inputs);
            && s.past.issued == s.past.answered + |s.out|
            && (s.greeted ==> 0 <= s.busy == s.past.issued - s.past.answered + s.past.begun - s.past.ends)
            && !s.past.negative && !s.past.reentered
            && s.past.submitted == s.past.started + s.queue
            && (s.cproc in {CPwd, CCwd, CPasv, CActive} ==> |s.out| <= 1)
            && (!s.past.overlapped ==>
                  |s.out| <= 1 && Pend(s) == (if Serving(s) then 1 else 0) && s.past.misheard == s.past.misled == 0)
  {
    RunSettles(inputs);
  }

  lemma {:induction false} RunTwice(s: Client, a: seq<Input>, b: seq<Input>)
    ensures Run(s, a + b) == Run(Run(s, a), b)
    decreases |b|
  {
    hide Step;
    if b == [] {
      AppendNil(a);
    } else {
      var init, last := b[..|b| - 1], b[|b| - 1];
      assert b == init + [last];
      Assoc(a, init, [last]);
      DropLast(a + init, last);
      RunTwice(s, a, init);
    }
  }

  lemma RunOne(s: Client, input: Input)
    ensures Run(s, [input]) == Step(s, input)
  {
    hide Step;
    assert [input][..0] == [];
    assert Run(s, []) == s;
  }

  // ---- completed transfers ----

  /** The transfer that the command belongs to, if any. */
  function OwnTransfer(c: Command): seq<nat> {
    if c.CmdRetr? then [c.xfer] else []
  }

  /** Without an overlap the end of data completes the transfer whose command was sent on the connection. */
  lemma EndCompletes(s: Client, submits: seq<Op>, env: Env)
    requires Inv(s, 0) && !s.past.inLine && !s.past.waiting && !s.past.overlapped && Serving(s)
    ensures DataEnd(s, submits, env).past.completed == s.past.completed + OwnTransfer(s.carried[0])
  {
    assert IsTransfer(s.carried[0]) && s.dproc == OwnReceiver(s.carried[0]) && s.busy > 0;
    AppendNil(s.past.completed);
    if s.dproc.DXfer? {
      DoneKeeps(s, s.dproc.xfer, submits, env, 0);
    }
    hide Inv, Done;
  }

  /**
   Without an overlap an error reply completes the transfer whose command it answers, unless
   the command is TYPE: its reply is heard by the handler that was left, and if that is one of
   a transfer, the transfer is completed once more.
   */
  lemma ErrorCompletes(s: Client, code: int, buf: string, line: Line)
    requires Inv(s, 0) && !s.past.inLine && !s.past.waiting && !s.past.overlapped
    requires s.out != [] && code >= 400 && Legal(s, code)
    ensures ProcControl(s, code, buf, line).past.completed == s.past.completed + OwnTransfer(s.out[0])
            <==> !(s.out[0] == CmdType && s.cproc.CXfer?)
  {
    AppendNil(s.past.completed);
    if s.cproc != CNull {
      assert s.out[0] != CmdType ==> s.cproc == OwnHandler(s.out[0]);
      FinalReply(s, code, buf, line);
      HeardCompletes(s, code, buf, line);
      hide Inv, ProcControl, CallCproc, Legal;
    } else {
      TakeKeeps(s, code);
      LoginReply(s, code, buf, line);
      hide Inv, ProcControl;
    }
  }

  lemma HeardCompletes(s: Client, code: int, buf: string, line: Line)
    requires Inv(s, 0) && !s.past.inLine && s.out != [] && code >= 400 && Legal(s, code)
    ensures CallCproc(Heard(s, code), code, buf, line).past.completed
         == s.past.completed + if s.cproc.CXfer? then [s.cproc.xfer] else []
  {
    AppendNil(s.past.completed);
    TakeKeeps(s, code);
    var h := Heard(s, code);
    assert h.cproc == s.cproc && h.past.completed == s.past.completed && h.busy > 0;
    hide TakeReply, Legal, Done, Heard;
    if s.cproc.CXfer? {
      DoneKeeps(h, s.cproc.xfer, line.submits, line.meets, 1);
      hide Inv;
    } else {
      NotCompleted(h, code, buf, line);
      hide Inv, CallCproc;
    }
  }

  lemma NotCompleted(h: Client, code: int, buf: string, line: Line)
    requires !h.cproc.CXfer? && code >= 400
    ensures CallCproc(h, code, buf, line).past.completed == h.past.completed
  {
    hide PasvEndpoint, Done, Submitted, QuotedText;
    if h.cproc == CPasv {
      assert CallCproc(h, code, buf, line) == PasvReply(h, code, buf, line);
    } else {
      assert CallCproc(h, code, buf, line) == h;
    }
  }

  // ---- inside a wait ----

  /** The client waits for the reply to PASV, or for that to the PORT that came after it. */
  predicate InWait(s: Client) {
    Inv(s, 0) && !s.past.inLine && s.past.waiting && (s.cproc == CPasv || s.cproc == CActive)
  }

  /** Nothing was submitted or started. */
  predicate SameOps(s: Client, t: Client) {
    && t.queue == s.queue && t.past.started == s.past.started && t.past.submitted == s.past.submitted
    && t.past.overlapped == s.past.overlapped
  }

  lemma LineInWait(s: Client, line: Line)
    requires InWait(s)
    ensures InWait(TakeLine(s, line)) && SameOps(s, TakeLine(s, line))
  {
    var buf := SkipSpaces(line.text);
    var code := RespCode(buf);
    hide RespCode, SkipSpaces, PasvEndpoint;
    if code > 0 && Legal(s, code) {
      ProcKeeps(s, code, buf, line);
      ReplyInWait(s, code, buf, line);
      hide Inv, ProcControl;
    }
  }

  /** Only the handlers of PASV and PORT hear replies during a wait. */
  lemma ReplyInWait(s: Client, code: int, buf: string, line: Line)
    requires InWait(s) && Legal(s, code)
    ensures var t := ProcControl(s, code, buf, line);
            && SameOps(s, t) && (t.cproc == CPasv || t.cproc == CActive)
            && t.past.waiting && !t.past.inLine
  {
    assert s.greeted && code >= 200;
    FinalReply(s, code, buf, line);
    hide ProcControl, Inv, Legal;
    var t := Heard(s, code);
    if t.cproc == CPasv {
      assert CallCproc(t, code, buf, line) == PasvReply(t, code, buf, line);
      PasvInWait(t, code, buf, line);
      hide CallCproc, PasvReply;
    } else {
      assert CallCproc(t, code, buf, line) == t;
      hide CallCproc;
    }
  }

  lemma PasvInWait(s: Client, code: int, buf: string, line: Line)
    requires s.cproc == CPasv
    ensures var t := PasvReply(s, code, buf, line);
            && SameOps(s, t) && (t.cproc == CPasv || t.cproc == CActive) && t.past.waiting == s.past.waiting
  {
    hide PasvEndpoint;
  }

  /** The client while the final reply to its oldest command is handled. */
  function Heard(s: Client, code: int): Client
    requires s.greeted && s.out != [] && code >= 200 && Legal(s, code)
  {
    TakeReply(s.(past := s.past.(inLine := true)), code)
  }

  /** A final reply goes to the installed handler and is taken off `busy`. */
  lemma FinalReply(s: Client, code: int, buf: string, line: Line)
    requires s.greeted && s.out != [] && code >= 200 && Legal(s, code) && s.cproc != CNull
    ensures var d := CallCproc(Heard(s, code), code, buf, line);
            && Heard(s, code).cproc == s.cproc
            && ProcControl(s, code, buf, line) == d.(busy := d.busy - 1, past := d.past.(inLine := s.past.inLine))
  {
    var r := Heard(s, code);
    assert r.cproc == s.cproc;
    hide CallCproc, TakeReply, Login, Legal;
    assert Dispatch(r, code, buf, line) == (var d := CallCproc(r, code, buf, line); d.(busy := d.busy - 1));
    hide Dispatch;
  }

  /** Before a handler is installed a reply goes to the login dialogue. */
  lemma LoginReply(s: Client, code: int, buf: string, line: Line)
    requires s.greeted && s.out != [] && code >= 200 && Legal(s, code) && s.cproc == CNull
    ensures var t := Login(Heard(s, code), code, line.meets);
            ProcControl(s, code, buf, line) == t.(past := t.past.(inLine := s.past.inLine))
  {
    var h := Heard(s, code);
    assert h.cproc == s.cproc;
    hide TakeReply, Login, Legal;
    assert Answered(h, code, buf, line) == Login(h, code, line.meets);
    hide Answered;
  }

  lemma {:induction false} LinesInWait(s: Client, lines: seq<Line>)
    requires InWait(s)
    ensures InWait(TakeLines(s, lines)) && SameOps(s, TakeLines(s, lines))
    decreases |lines|
  {
    if lines != [] {
      hide InWait;
      LinesInWait(s, lines[..|lines| - 1]);
      LineInWait(TakeLines(s, lines[..|lines| - 1]), lines[|lines| - 1]);
    }
  }

  /** A client that has sent PASV and is about to wait. */
  predicate AboutToWait(s: Client) {
    && Inv(s, 0) && !s.past.inLine && !s.past.waiting && s.cproc == CPasv && s.out == [CmdPasv]
    && !s.data && s.busy == 1
  }

  /** The client after the lines that wake it. */
  function Woken(s: Client, env: Env): Client
    requires env.Wakes?
  {
    TakeLines(s.(past := s.past.(waiting := true)), env.lines)
  }

  /** The lines that wake the client leave it idle. */
  predicate WokenIdle(s: Client, env: Env) {
    env.Wakes? && Woken(s, env).busy == 0
  }

  /**
   An operation starts inside the wait if and only if one is in line and the lines that
   wake the client leave it idle; and that is when operations overlap.
   */
  lemma WaitOverlaps(s: Client, env: Env)
    requires AboutToWait(s)
    ensures var t := WaitResp(s, env);
            && (t.past.started != s.past.started <==> s.queue != [] && WokenIdle(s, env))
            && (t.past.overlapped <==> s.past.overlapped || t.past.started != s.past.started)
            && (s.queue == [] ==> t.past.started == s.past.started)
            && (s.queue != [] && t.past.started == s.past.started ==> t.busy > 0)
  {
    if env.Wakes? {
      var w := s.(past := s.past.(waiting := true));
      LinesInWait(w, env.lines);
      HandleSteady(w, env.lines, env.inner);
      var t := TakeLines(w, env.lines);
      if t.busy == 0 {
        QueuedInWait(t, env.inner);
      }
    }
  }

  /** Between lines, handling an event of the control connection is taking its lines and then looking at the queue. */
  lemma HandleSteady(s: Client, lines: seq<Line>, env: Env)
    requires !s.past.inLine && TakeLines(s, lines).busy >= 0
    ensures var t := TakeLines(s, lines);
            Handle(s, Control(lines), env) == if t.busy == 0 then ExecQueued(t, env) else t
  {
    ControlIsLines(s, lines);
    hide TakeLines, ExecQueued, Handle, TakeEvent;
    HandleIs(s, Control(lines), env);
  }

  lemma QueuedInWait(s: Client, env: Env)
    requires InWait(s) && s.busy == 0
    ensures var t := ExecQueued(s, env);
            && (t.past.started != s.past.started <==> s.queue != [])
            && (t.past.overlapped <==> s.past.overlapped || s.queue != [])
  {
    ExecQueuedKeeps(s, env);
    if s.queue != [] {
      StartInWait(s.(queue := s.queue[1..]), s.queue[0], env);
    }
  }

  lemma StartInWait(s: Client, op: Op, env: Env)
    requires MayStart(s, op) && s.past.waiting
    ensures ExecOp(s, op, env).past.overlapped
  {
    var t := Begin(s, op);
    BeginKeeps(s, op);
    if op.OpList? {
      DataKeeps(t, CmdList, env);
    } else if op.OpXfer? && op.retr {
      DataKeeps(t, CmdRetr(op.xfer), env);
    } else if op.OpXfer? {
      PrepareKeeps(t, env);
    } else {
      CommandKeeps(t, op);
    }
  }

  // ---- when operations can overlap ----

  predicate NeedsData(op: Op) {
    op.OpList? || op.OpXfer?
  }

  /** The reply opens the data connection. */
  predicate Usable(line: Line) {
    var buf := SkipSpaces(line.text);
    RespCode(buf) == 227 && PasvEndpoint(buf).Some? && line.connects
  }

  lemma UsableWakes(s: Client, line: Line)
    requires AboutToWait(s) && Usable(line)
    ensures var env := Wakes(false, [line], Quiet(false)); WokenIdle(s, env) && Woken(s, env).data
  {
    UsableTaken(s.(past := s.past.(waiting := true)), line);
    hide TakeLines, Usable;
  }

  lemma UsableTaken(w: Client, line: Line)
    requires w.greeted && w.cproc == CPasv && w.out != [] && w.out[0] == CmdPasv && Usable(line)
    ensures TakeLines(w, [line]) == DataOpen(w)
  {
    var buf := SkipSpaces(line.text);
    PasvOpens(w, buf, line);
    JustOne(w, line);
    hide PasvEndpoint, RespCode, SkipSpaces, ProcControl, TakeLines, DataOpen;
    assert Legal(w, 227);
  }

  /** The client after a usable reply to PASV. */
  function DataOpen(w: Client): Client
    requires w.out != []
  {
    w.(data := true, carried := [], out := w.out[1..], busy := w.busy - 1,
       past := w.past.(answered := w.past.answered + 1))
  }

  lemma PasvOpens(w: Client, buf: string, line: Line)
    requires w.greeted && w.cproc == CPasv && w.out != [] && w.out[0] == CmdPasv
    requires PasvEndpoint(buf).Some? && line.connects
    ensures ProcControl(w, 227, buf, line) == DataOpen(w)
  {
    FinalReply(w, 227, buf, line);
    hide ProcControl;
    var r := Heard(w, 227);
    assert CallCproc(r, 227, buf, line) == PasvReply(r, 227, buf, line);
    hide CallCproc, PasvEndpoint, FtpActive;
  }

  lemma OverlapDecided(s: Client, op: Op, env: Env)
    requires MayStart(s, op) && !s.past.waiting && !s.past.overlapped
    ensures var p := FtpPassive(Begin(s, op));
            ExecOp(s, op, env).past.overlapped <==>
              NeedsData(op) && !s.data && s.passive && s.queue != [] && WokenIdle(p, env)
  {
    BeginKeeps(s, op);
    var t := Begin(s, op);
    if NeedsData(op) {
      assert ExecOp(s, op, env).past.overlapped == PrepareData(t, env).past.overlapped;
      if !t.data && t.passive {
        PassiveWaits(t);
        WaitOverlaps(FtpPassive(t), env);
      }
    } else {
      assert ExecOp(s, op, env) == CommandOp(t, op);
    }
  }

  lemma PassiveWaits(s: Client)
    requires Inv(s, 0) && s.busy == 0 && !s.past.inLine && !s.past.waiting && !s.data && s.passive
    ensures AboutToWait(FtpPassive(s)) && FtpPassive(s).queue == s.queue
  {
    assert s.out == [];
  }

  /**
   When an operation starts, another one can start inside it if and only if it needs a data
   connection, none is open, the client is passive, and something is queued behind it.
   */
  lemma OverlapExact(s: Client, op: Op)
    requires MayStart(s, op) && !s.past.waiting && !s.past.overlapped
    ensures (exists env :: ExecOp(s, op, env).past.overlapped) <==>
              NeedsData(op) && !s.data && s.passive && s.queue != []
  {
    forall env ensures ExecOp(s, op, env).past.overlapped ==> NeedsData(op) && !s.data && s.passive && s.queue != [] {
      OverlapDecided(s, op, env);
    }
    if NeedsData(op) && !s.data && s.passive && s.queue != [] {
      BeginKeeps(s, op);
      PassiveWaits(Begin(s, op));
      PasvIsUsable();
      UsableWakes(FtpPassive(Begin(s, op)), PASV_LINE);
      OverlapDecided(s, op, PASV_WAKES);
    }
  }

  // ---- when a reply can be misheard ----

  /** The command that the operation sends under a handler of its own, once it has the data connection it may need. */
  function Sends(op: Op): Option<Command> {
    match op
    case OpPwd => Some(CmdPwd)
    case OpChdir(_) => Some(CmdCwd)
    case OpCdup => Some(CmdCwd)
    case OpList => Some(CmdList)
    case OpXfer(xfer, retr) => if retr then Some(CmdRetr(xfer)) else None
    case _ => None
  }

  /** LIST or a download */
  predicate Downloads(op: Op) {
    op.OpList? || (op.OpXfer? && op.retr)
  }

  /** The reply to the one is not for the handler of the other. */
  predicate OtherHandler(op: Op, next: Op) {
    && Sends(op).Some? && Sends(next).Some?
    && OwnHandler(Sends(next).value) != OwnHandler(Sends(op).value)
  }

  /** What an operation leaves that started where its data connection was settled without a wait. */
  predicate LeftBy(s: Client, op: Op, t: Client) {
    && t.data == s.data && OwnHeard(t)
    && (t.data && Sends(op).Some? ==> t.out == [Sends(op).value])
    && (t.data && Sends(op).None? ==> t.out == [] || t.out == [CmdType])
    && Pend(t) == (if t.data && Downloads(op) then 1 else 0)
    && (Serving(t) <==> t.data && Downloads(op))
  }

  lemma StartsSettled(s: Client, op: Op, env: Env)
    requires MayStart(s, op) && (s.data || !s.passive)
    ensures LeftBy(s, op, ExecOp(s, op, env))
  {
    var t := Begin(s, op);
    assert s.out == [] && Pend(s) == 0 && !Serving(s);
    hide Inv, MayStart, Begin, LeftBy, CommandOp, StartTransfer, FtpActive;
    if !NeedsData(op) {
      assert ExecOp(s, op, env) == CommandOp(t, op);
      CommandLeaves(s, op);
    } else if !s.data {
      assert PrepareData(t, env) == FtpActive(t, env.listens);
      PortLeaves(s, op, env.listens);
    } else {
      assert PrepareData(t, env) == t;
      TransferLeaves(s, op);
    }
  }

  lemma CommandLeaves(s: Client, op: Op)
    requires s.out == [] && Pend(s) == 0 && !Serving(s) && !NeedsData(op)
    ensures LeftBy(s, op, CommandOp(Begin(s, op), op))
  {
    var t := Begin(s, op);
    assert SendCmd(t, CmdType).(cproc := s.cproc) == SendCmd(t, CmdType);
    hide LeftBy, Begin, SendCmd;
    match op
    case OpType(_) =>
      NothingLeaves(s, op);
      SentLeaves(s, op, CmdType, s.cproc);
    case OpStub =>
      NothingLeaves(s, op);
    case OpPwd =>
      SentLeaves(s, op, CmdPwd, CPwd);
    case OpChdir(_) =>
      SentLeaves(s, op, CmdCwd, CCwd);
    case OpCdup =>
      SentLeaves(s, op, CmdCwd, CCwd);
  }

  lemma NothingLeaves(s: Client, op: Op)
    requires s.out == [] && Pend(s) == 0 && !Serving(s) && Sends(op).None? && !NeedsData(op)
    ensures LeftBy(s, op, Begin(s, op))
  {
  }

  lemma SentLeaves(s: Client, op: Op, c: Command, cp: CProc)
    requires s.out == [] && Pend(s) == 0 && !Serving(s) && !NeedsData(op)
    requires if c == CmdType then Sends(op).None? else Sends(op) == Some(c) && cp == OwnHandler(c)
    ensures LeftBy(s, op, SendCmd(Begin(s, op), c).(cproc := cp))
  {
    NilAppend([c]);
  }

  lemma PortLeaves(s: Client, op: Op, listens: bool)
    requires s.out == [] && Pend(s) == 0 && !s.data && NeedsData(op)
    ensures FtpActive(Begin(s, op), listens).data == false && LeftBy(s, op, FtpActive(Begin(s, op), listens))
  {
    NilAppend([CmdPort]);
  }

  lemma TransferLeaves(s: Client, op: Op)
    requires s.out == [] && Pend(s) == 0 && !Serving(s) && s.data && NeedsData(op)
    ensures Begin(s, op).data
    ensures LeftBy(s, op, if Sends(op).Some? then StartTransfer(Begin(s, op), Sends(op).value) else Begin(s, op))
  {
    if Sends(op).Some? {
      NilAppend([Sends(op).value]);
    }
  }

  /** The next operation finds the client idle inside the wait and the data connection open. */
  predicate Intrudes(s: Client, op: Op, env: Env) {
    var p := FtpPassive(Begin(s, op));
    Downloads(op) && !s.data && s.passive && s.queue != [] && WokenIdle(p, env) && Woken(p, env).data
  }

  /**
   More data operations are running than can end: each end of data takes one off `busy` and
   closes the data connection.
   */
  predicate Jammed(s: Client) {
    Pend(s) > if Serving(s) then 1 else 0
  }

  /**
   For each course of the wait, whether a reply will be misheard, whether two data operations
   share a connection, and what the server then has to answer.
   */
  lemma MishapDecided(s: Client, op: Op, env: Env)
    requires MayStart(s, op) && !s.past.waiting && !s.past.overlapped
    ensures var t := ExecOp(s, op, env);
            && (!OwnHeard(t) <==> Intrudes(s, op, env) && OtherHandler(op, s.queue[0]))
            && (Jammed(t) <==> Intrudes(s, op, env) && Downloads(s.queue[0]))
            && (Intrudes(s, op, env) && Sends(s.queue[0]).Some? ==> SentBoth(t, s.queue[0], op))
  {
    OverlapDecided(s, op, env);
    ExecKeeps(s, op, env);
    var t := ExecOp(s, op, env);
    if t.past.overlapped {
      IntruderStarts(s, op, env);
    } else {
      assert OwnHeard(t) && !Jammed(t);
    }
  }

  lemma IntruderStarts(s: Client, op: Op, env: Env)
    requires MayStart(s, op) && !s.past.waiting && NeedsData(op) && !s.data && s.passive && s.queue != []
    requires WokenIdle(FtpPassive(Begin(s, op)), env)
    ensures var t := ExecOp(s, op, env);
            && (!OwnHeard(t) <==> Intrudes(s, op, env) && OtherHandler(op, s.queue[0]))
            && (Jammed(t) <==> Intrudes(s, op, env) && Downloads(s.queue[0]))
            && (Intrudes(s, op, env) && Sends(s.queue[0]).Some? ==> SentBoth(t, s.queue[0], op))
  {
    var p := FtpPassive(Begin(s, op));
    BeginKeeps(s, op);
    PassiveWaits(Begin(s, op));
    IntruderLeaves(p, env);
    var w := Woken(p, env);
    var r := WaitResp(p, env);
    assert PrepareData(Begin(s, op), env) == r;
    hide MayStart, Inv, WaitResp, Woken, LeftBy, StartTransfer, OwnHeard, Jammed, SentBoth;
    if Downloads(op) && r.data {
      BothSent(s.queue[0], w, r, op);
    } else {
      OneSent(s.queue[0], w, r);
    }
  }

  /** The second command is out behind the first, and its handler is installed. */
  predicate SentBoth(t: Client, first: Op, second: Op) {
    && Sends(first).Some? && Sends(second).Some?
    && t.out == [Sends(first).value, Sends(second).value] && t.cproc == OwnHandler(Sends(second).value)
  }

  /** The operation that starts inside the wait. */
  lemma IntruderLeaves(p: Client, env: Env)
    requires AboutToWait(p) && p.queue != [] && WokenIdle(p, env)
    ensures LeftBy(Woken(p, env), p.queue[0], WaitResp(p, env))
  {
    var v := p.(past := p.past.(waiting := true));
    LinesInWait(v, env.lines);
    HandleSteady(v, env.lines, env.inner);
    var w := Woken(p, env);
    var next := w.(queue := w.queue[1..]);
    IdleInWait(w);
    StartsSettled(next, w.queue[0], env.inner);
    hide MayStart, Inv, InWait, Handle, TakeLines, ExecOp, AboutToWait;
    var r := ExecOp(next, w.queue[0], env.inner);
    assert Handle(v, Control(env.lines), env.inner) == r;
    assert WaitResp(p, env) == r.(past := r.past.(waiting := p.past.waiting));
  }

  /** A client that is idle inside a wait has settled the data socket. */
  lemma IdleInWait(w: Client)
    requires InWait(w) && w.busy == 0 && w.queue != []
    ensures MayStart(w.(queue := w.queue[1..]), w.queue[0]) && (w.data || !w.passive)
  {
    HeadMayStart(w);
  }

  lemma BothSent(next: Op, w: Client, r: Client, op: Op)
    requires LeftBy(w, next, r) && r.data && Downloads(op)
    ensures var t := StartTransfer(r, Sends(op).value);
            && (!OwnHeard(t) <==> OtherHandler(op, next))
            && (Jammed(t) <==> Downloads(next))
            && (Sends(next).Some? ==> SentBoth(t, next, op))
  {
  }

  lemma OneSent(next: Op, w: Client, r: Client)
    requires LeftBy(w, next, r)
    ensures OwnHeard(r) && !Jammed(r)
  {
  }

  /**
   When an operation starts, a reply can come to meet another command's handler if and only if
   the operation is LIST or a download, it has to open a data connection by PASV, and the next
   in line sends a command with another handler.
   */
  lemma MishearExact(s: Client, op: Op)
    requires MayStart(s, op) && !s.past.waiting && !s.past.overlapped
    ensures (exists env :: !OwnHeard(ExecOp(s, op, env))) <==>
              Downloads(op) && !s.data && s.passive && s.queue != [] && OtherHandler(op, s.queue[0])
  {
    forall env ensures !OwnHeard(ExecOp(s, op, env)) ==> Intrudes(s, op, env) && OtherHandler(op, s.queue[0]) {
      MishapDecided(s, op, env);
    }
    if Downloads(op) && !s.data && s.passive && s.queue != [] {
      CanIntrude(s, op);
      MishapDecided(s, op, PASV_WAKES);
    }
  }

  /** In the same place two data operations can come to share a connection if and only if the next in line is one. */
  lemma JamExact(s: Client, op: Op)
    requires MayStart(s, op) && !s.past.waiting && !s.past.overlapped
    ensures (exists env :: Jammed(ExecOp(s, op, env))) <==>
              Downloads(op) && !s.data && s.passive && s.queue != [] && Downloads(s.queue[0])
  {
    forall env ensures Jammed(ExecOp(s, op, env)) ==> Intrudes(s, op, env) && Downloads(s.queue[0]) {
      MishapDecided(s, op, env);
    }
    if Downloads(op) && !s.data && s.passive && s.queue != [] {
      CanIntrude(s, op);
      MishapDecided(s, op, PASV_WAKES);
    }
  }

  lemma CanIntrude(s: Client, op: Op)
    requires MayStart(s, op) && !s.past.waiting && Downloads(op) && !s.data && s.passive && s.queue != []
    ensures Intrudes(s, op, PASV_WAKES)
  {
    BeginKeeps(s, op);
    PassiveWaits(Begin(s, op));
    PasvIsUsable();
    UsableWakes(FtpPassive(Begin(s, op)), PASV_LINE);
  }

  // ---- a usable reply ----

  const LOCAL: Endpoint := Endpoint(0x7f00_0001, 1025)

  /** A usable reply to PASV. */
  const PASV_TEXT: string := "227 (" + (Render(Encode(LOCAL)) + ")")

  const PASV_LINE: Line := Line(PASV_TEXT, true, false, [], Quiet(false))

  /** During the wait for PASV its reply arrives. */
  const PASV_WAKES: Env := Wakes(false, [PASV_LINE], Quiet(false))

  lemma PasvIsUsable()
    ensures SkipSpaces(PASV_TEXT) == PASV_TEXT && RespCode(PASV_TEXT) == 227 && PasvEndpoint(PASV_TEXT) == Some(LOCAL)
    ensures Usable(PASV_LINE)
  {
    EndpointShown();
    hide SkipSpaces, RespCode, PasvEndpoint, Render, Encode;
    var tail := Render(Encode(LOCAL)) + ")";
    assert "227 " + "(" == "227 (";
    Assoc("227 ", "(", tail);
    CodeIs227("(" + tail);
  }

  lemma EndpointShown()
    ensures PasvEndpoint("227 (" + (Render(Encode(LOCAL)) + ")")) == Some(LOCAL)
  {
    assert Preamble("227 (") && NoDigitFirst(")");
    hide Render, Encode, PasvEndpoint, Preamble, NoDigitFirst;
    EndpointRoundTrip(LOCAL, "", "227 (", ")");
    NilAppend("227 (" + (Render(Encode(LOCAL)) + ")"));
  }

  lemma CodeIs227(more: string)
    ensures SkipSpaces("227 " + more) == "227 " + more && RespCode("227 " + more) == 227
  {
    var t := "227 " + more;
    assert t[..3] == "227" && t[3] == ' ' && t[0] == '2';
    assert "227"[..2] == "22" && "22"[..1] == "2" && "2"[..0] == "";
    assert Value("227") == 227;
  }

  // ---- one line at a time ----

  /** A reply without anything to say but its code; the sockets work. */
  function Reply(code: nat): Line {
    Line(PadDigits(code, 3) + " ", true, true, [], QUIET)
  }

  function Hears(line: Line, env: Env): Input {
    Happens(Control([line]), env)
  }

  const QUIET: Env := Quiet(true)

  lemma HandlesLine(s: Client, line: Line, code: nat, buf: string, env: Env)
    requires !s.past.inLine && SkipSpaces(line.text) == buf && RespCode(buf) == code > 0 && Legal(s, code)
    requires ProcControl(s, code, buf, line).busy >= 0
    ensures var t := ProcControl(s, code, buf, line);
            Handle(s, Control([line]), env) == if t.busy == 0 then ExecQueued(t, env) else t
  {
    hide RespCode, SkipSpaces, Handle, ProcControl, Legal, ExecQueued;
    JustOne(s, line);
    HandleSteady(s, [line], env);
  }

  lemma OneLine(s: Client, line: Line, code: nat, buf: string, env: Env)
    requires !s.past.inLine && SkipSpaces(line.text) == buf && RespCode(buf) == code > 0 && Legal(s, code)
    requires ProcControl(s, code, buf, line).busy >= 0
    ensures var t := ProcControl(s, code, buf, line);
            Step(s, Hears(line, env)) == if t.busy == 0 then ExecQueued(t, env) else t
  {
    hide RespCode, SkipSpaces, Handle, ProcControl, Legal, ExecQueued;
    HandlesLine(s, line, code, buf, env);
  }

  lemma JustOne(s: Client, line: Line)
    ensures TakeLines(s, [line]) == TakeLine(s, line)
  {
    hide TakeLine;
    assert [line][..0] == [];
    assert TakeLines(s, []) == s;
  }

  lemma ReplyIs(code: nat)
    requires 1 <= code <= 999
    ensures SkipSpaces(Reply(code).text) == Reply(code).text && RespCode(Reply(code).text) == code
  {
    var t := Reply(code).text;
    CodeOfLine(code, "");
    AppendNil(t);
    assert t[0] == PadDigits(code, 3)[0];
  }

  lemma IdleLine(s: Client, line: Line, code: nat, buf: string, env: Env, t: Client)
    requires !s.past.inLine && SkipSpaces(line.text) == buf && RespCode(buf) == code > 0 && Legal(s, code)
    requires ProcControl(s, code, buf, line) == t && t.busy == 0
    ensures Step(s, Hears(line, env)) == ExecQueued(t, env)
  {
    hide RespCode, SkipSpaces, ProcControl, ExecQueued, Legal, Step, Hears;
    OneLine(s, line, code, buf, env);
  }
}
