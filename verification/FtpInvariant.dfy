/** What every run of the engine keeps. */
module FtpInvariant {
  import opened Ctype
  import opened FtpAddress
  import opened FtpQueue
  import opened FtpReply
  import opened FtpSteps
  import opened Options
  import opened Seqs

  // ---- invariants ----

  /** Data operations whose end-of-data callback has not run. */
  function Pend(s: Client): int {
    s.past.begun - s.past.ends
  }

  /**
   `busy` counts unanswered commands and running data operations, and `ans` final
   replies that are being handled and not yet taken off it.
   */
  predicate Accounted(s: Client, ans: nat) {
    && s.past.issued == s.past.answered + |s.out| && s.past.ends <= s.past.begun
    && s.busy == |s.out| + Pend(s) + ans
  }

  /** Handlers that cannot tell replies apart have at most one command to hear about. */
  predicate OneAtATime(s: Client, ans: nat) {
    !ForTransfer(s.cproc) ==>
      |s.out| + ans <= 1 && (s.out != [] ==> !IsTransfer(s.out[0])) && Pend(s) == 0
  }

  /** The handlers that expect preliminary replies. */
  predicate ForTransfer(cp: CProc) {
    cp.CList? || cp.CXfer?
  }

  predicate DataOk(s: Client) {
    Serving(s) ==> Pend(s) > 0 && s.dproc != DNull
  }

  /** A transfer command was sent for the open data connection. */
  predicate Serving(s: Client) {
    s.data && s.carried != []
  }

  /** During a wait, either the PASV reply is still to come or its handler has settled the data socket. */
  predicate WaitOk(s: Client, ans: nat) {
    && (s.past.waiting ==> s.cproc != CNull)
    && (s.past.waiting && !s.data && s.passive ==> s.cproc == CPasv && |s.out| + ans > 0)
  }

  predicate Fifo(s: Client) {
    s.past.submitted == s.past.started + s.queue
  }

  /** A command other than TYPE is heard by its own handler. */
  predicate OwnHeard(s: Client) {
    s.out != [] && s.out[0] != CmdType ==> s.cproc == OwnHandler(s.out[0])
  }

  /** One transfer command was sent on the data connection, and its own handler takes the data. */
  predicate OwnServed(s: Client) {
    Serving(s) ==> |s.carried| == 1 && IsTransfer(s.carried[0]) && s.dproc == OwnReceiver(s.carried[0])
  }

  /**
   Without an operation started inside a wait, one command and one data operation are under
   way at most, each with its own handlers; and nothing is once a wait has its data connection.
   */
  predicate Separate(s: Client, ans: nat) {
    !s.past.overlapped ==>
      && |s.out| + ans <= 1 && OwnHeard(s) && s.past.misheard == 0
      && Pend(s) == (if Serving(s) then 1 else 0) && OwnServed(s) && s.past.misled == 0
      && (s.past.waiting ==> Pend(s) == 0 && (s.data ==> |s.out| + ans == 0))
  }

  /** The code's own assertion has held and the receive buffer was never scanned twice. */
  predicate Faultless(s: Client) {
    !s.past.reentered && !s.past.negative
  }

  predicate Core(s: Client, ans: nat) {
    && s.greeted && Faultless(s)
    && Accounted(s, ans) && OneAtATime(s, ans) && DataOk(s) && WaitOk(s, ans) && Separate(s, ans)
  }

  predicate Inv(s: Client, ans: nat) {
    Core(s, ans) && Fifo(s)
  }

  /** Before the greeting nothing has happened. */
  predicate Waking(s: Client) {
    && !s.greeted && Faultless(s)
    && s.busy == 0 && s.out == [] && s.cproc == CNull && s.dproc == DNull && !s.data && !s.lis && s.queue == []
    && s.past.issued == s.past.begun == s.past.answered == s.past.ends == s.past.misheard == s.past.misled == 0
    && s.past.submitted == s.past.started == [] && !s.past.waiting && !s.past.overlapped
  }

  /** Between response lines. */
  predicate Steady(s: Client) {
    (Inv(s, 0) || Waking(s)) && !s.past.inLine
  }

  /** Context stays, and histories only grow. */
  predicate Onward(s: Client, t: Client) {
    Grown(s, t) && t.past.inLine == s.past.inLine
  }

  predicate Grown(s: Client, t: Client) {
    && t.past.waiting == s.past.waiting
    && s.past.started <= t.past.started && s.past.submitted <= t.past.submitted
    && s.past.issued <= t.past.issued && s.past.answered <= t.past.answered
    && (s.past.overlapped ==> t.past.overlapped)
  }

  // ---- operations ----

  /** The operation may start: nothing is under way, and inside a response line it is TYPE. */
  predicate MayStart(s: Client, op: Op) {
    && Core(s, 0) && s.busy == 0
    && s.past.submitted == s.past.started + [op] + s.queue
    && (s.past.inLine ==> op.OpType?)
  }

  lemma BeginKeeps(s: Client, op: Op)
    requires MayStart(s, op)
    ensures var t := Begin(s, op);
            && Inv(t, 0) && t.busy == 0 && (t.past.waiting ==> t.past.overlapped) && Onward(s, t)
            && t.past.started == s.past.started + [op]
  {
  }

  lemma CommandKeeps(s: Client, op: Op)
    requires Inv(s, 0) && s.busy == 0 && (s.past.waiting ==> s.past.overlapped) && !op.OpList? && !op.OpXfer?
    ensures var t := CommandOp(s, op);
            && Inv(t, 0) && Onward(s, t) && t.past.started == s.past.started && t.queue == s.queue
            && t.past.submitted == s.past.submitted && (op == OpType("I") ==> t.busy > 0)
  {
    assert SendCmd(s, CmdType).(cproc := s.cproc) == SendCmd(s, CmdType);
    assert IsTypeArg("I");
    hide Inv, Onward, SendCmd;
    SelfOnward(s);
    SendKeeps(s, CmdType, s.cproc);
    SendKeeps(s, CmdPwd, CPwd);
    SendKeeps(s, CmdCwd, CCwd);
  }

  /** An idle client sends a command and installs its handler. */
  lemma SendKeeps(s: Client, c: Command, cp: CProc)
    requires Inv(s, 0) && s.busy == 0 && (s.past.waiting ==> s.past.overlapped) && c in {CmdType, CmdPwd, CmdCwd}
    requires cp == if c == CmdType then s.cproc else OwnHandler(c)
    ensures var t := SendCmd(s, c).(cproc := cp);
            && Inv(t, 0) && Onward(s, t) && t.past.started == s.past.started && t.queue == s.queue
            && t.past.submitted == s.past.submitted && t.busy > 0
  {
    assert s.out == [];
  }

  lemma {:induction false} ExecKeeps(s: Client, op: Op, env: Env)
    requires MayStart(s, op)
    ensures var t := ExecOp(s, op, env);
            && Inv(t, 0) && Onward(s, t) && s.past.started + [op] <= t.past.started
            && (op.OpType? ==> t.queue == s.queue && t.past.submitted == s.past.submitted)
            && (op == OpType("I") ==> t.busy > 0)
    decreases Load(env), 4, 0
  {
    BeginKeeps(s, op);
    var t := Begin(s, op);
    assert t.queue == s.queue && t.past.submitted == s.past.submitted && (op.OpType? || !t.past.inLine);
    hide Inv, Begin, CommandOp, DataOp, PrepareData, Onward, MayStart;
    match op {
      case OpList =>
        DataKeeps(t, CmdList, env);
      case OpXfer(xfer, retr) =>
        if retr {
          DataKeeps(t, CmdRetr(xfer), env);
        } else {
          PrepareKeeps(t, env);
        }
      case _ =>
        CommandKeeps(t, op);
    }
    StartedFirst(s, op, t, ExecOp(s, op, env));
  }

  lemma StartedFirst(s: Client, op: Op, t: Client, r: Client)
    requires Onward(s, t) && Onward(t, r) && t.past.started == s.past.started + [op]
    ensures Onward(s, r) && s.past.started + [op] <= r.past.started
  {
  }

  lemma {:induction false} DataKeeps(s: Client, c: Command, env: Env)
    requires Inv(s, 0) && s.busy == 0 && !s.past.inLine && (s.past.waiting ==> s.past.overlapped)
    requires IsTransfer(c)
    ensures var t := DataOp(s, c, env); Inv(t, 0) && Onward(s, t)
    decreases Load(env), 3, 0
  {
    PrepareKeeps(s, env);
    var t := PrepareData(s, env);
    if t.data {
      TransferKeeps(t, c);
    }
  }

  lemma TransferKeeps(s: Client, c: Command)
    requires Inv(s, 0) && s.data && (!s.past.overlapped ==> s.busy == 0 && !s.past.waiting)
    requires IsTransfer(c)
    ensures var t := StartTransfer(s, c); Inv(t, 0) && Onward(s, t)
  {
  }

  /** Without an overlap an opened data connection is ready for its command: nothing else is under way. */
  lemma {:induction false} PrepareKeeps(s: Client, env: Env)
    requires Inv(s, 0) && s.busy == 0 && !s.past.inLine && (s.past.waiting ==> s.past.overlapped)
    ensures var t := PrepareData(s, env);
            && Inv(t, 0) && Onward(s, t)
            && (!t.past.overlapped && t.data ==> t.busy == 0)
    decreases Load(env), 2, 0
  {
    if s.data {
      SelfOnward(s);
      hide Inv, Onward;
    } else if s.passive {
      PassiveKeeps(s);
      WaitKeeps(FtpPassive(s), env);
      OnwardTrans(s, FtpPassive(s), WaitResp(FtpPassive(s), env));
      hide Inv, Onward, WaitResp, FtpPassive;
    } else {
      ActiveKeeps(s, env.listens);
      hide Inv, Onward, FtpActive;
    }
  }

  lemma PassiveKeeps(s: Client)
    requires Inv(s, 0) && s.busy == 0 && !s.past.inLine && !s.data && s.passive
    ensures var t := FtpPassive(s);
            && Inv(t, 0) && Onward(s, t) && !t.past.inLine && !t.past.waiting
            && t.cproc == CPasv && t.out == [CmdPasv] && !t.data && t.busy == 1
  {
    assert s.out == [];
  }

  lemma ActiveKeeps(s: Client, listens: bool)
    requires Inv(s, 0) && s.busy == 0 && !s.data && !s.passive && (s.past.waiting ==> s.past.overlapped)
    ensures var t := FtpActive(s, listens); Inv(t, 0) && Onward(s, t) && !t.data
  {
    assert s.out == [];
  }

  lemma {:induction false} WaitKeeps(s: Client, env: Env)
    requires Inv(s, 0) && !s.past.inLine && !s.past.waiting && s.cproc == CPasv && s.out == [CmdPasv]
    requires !s.data && s.busy == 1
    ensures var t := WaitResp(s, env);
            && Inv(t, 0) && Onward(s, t)
            && (!t.past.overlapped && t.data ==> t.busy == 0)
    decreases Load(env), 1, 0
  {
    match env
    case Quiet(_) =>
    case Wakes(_, lines, inner) =>
      HandleKeeps(s.(past := s.past.(waiting := true)), Control(lines), inner);
  }

  // ---- the queue ----

  lemma {:induction false} ExecQueuedKeeps(s: Client, env: Env)
    requires Inv(s, 0) && s.busy == 0 && !s.past.inLine
    ensures var t := ExecQueued(s, env);
            && Inv(t, 0) && Onward(s, t)
            && (s.queue != [] ==> s.past.started + [s.queue[0]] <= t.past.started)
    decreases Load(env), 5, 0
  {
    if s.queue != [] {
      HeadMayStart(s);
      ExecKeeps(s.(queue := s.queue[1..]), s.queue[0], env);
    }
  }

  lemma HeadMayStart(s: Client)
    requires Inv(s, 0) && s.busy == 0 && !s.past.inLine && s.queue != []
    ensures MayStart(s.(queue := s.queue[1..]), s.queue[0])
  {
    assert s.queue == [s.queue[0]] + s.queue[1..];
    Assoc(s.past.started, [s.queue[0]], s.queue[1..]);
  }

  /** The client after an operation was only put in line. */
  function Lined(s: Client, ops: seq<Op>): Client {
    s.(queue := s.queue + ops, past := s.past.(submitted := s.past.submitted + ops))
  }

  lemma {:induction false} QueueKeeps(s: Client, op: Op, env: Env, ans: nat)
    requires Inv(s, ans) && (s.past.inLine ==> s.busy > 0 || s.queue != [] || op.OpType?)
    ensures var t := Queue(s, op, env);
            && Inv(t, ans) && Onward(s, t) && s.past.submitted + [op] <= t.past.submitted
            && (op.OpType? ==> t.past.submitted == s.past.submitted + [op])
            && (op == OpType("I") ==> t.busy > 0 || t.queue != [])
            && (s.busy > 0 || s.queue != [] ==> t == Lined(s, [op]))
    decreases Load(env), 5, 0
  {
    hide Inv, MayStart, Onward, ExecOp;
    if s.busy == 0 && s.queue == [] {
      ReadyToStart(s, op, ans);
      ExecKeeps(s.(past := s.past.(submitted := s.past.submitted + [op])), op, env);
      hide Queue;
      StartedAtOnce(s, op, env);
    } else {
      LinedKeeps(s, op, ans);
    }
  }

  lemma ReadyToStart(s: Client, op: Op, ans: nat)
    requires Inv(s, ans) && s.busy == 0 && s.queue == [] && (s.past.inLine ==> op.OpType?)
    ensures ans == 0 && MayStart(s.(past := s.past.(submitted := s.past.submitted + [op])), op)
    ensures forall t :: Onward(s.(past := s.past.(submitted := s.past.submitted + [op])), t) ==>
              Onward(s, t) && s.past.submitted + [op] <= t.past.submitted
  {
    AppendNil(s.past.started);
    AppendNil(s.past.started + [op]);
  }

  lemma StartedAtOnce(s: Client, op: Op, env: Env)
    requires s.busy == 0 && s.queue == []
    ensures Queue(s, op, env) == ExecOp(s.(past := s.past.(submitted := s.past.submitted + [op])), op, env)
  {
  }

  lemma LinedKeeps(s: Client, op: Op, ans: nat)
    requires Inv(s, ans)
    ensures Inv(Lined(s, [op]), ans) && Onward(s, Lined(s, [op]))
  {
    Assoc(s.past.started, s.queue, [op]);
  }

  /** While `busy` is above zero, all that a callback submits is put in line. */
  lemma {:induction false} SubmittedKeeps(s: Client, ops: seq<Op>, env: Env, ans: nat)
    requires Inv(s, ans) && (s.busy > 0 || s.queue != [])
    ensures Submitted(s, ops, env) == Lined(s, ops) && Inv(Lined(s, ops), ans) && Onward(s, Lined(s, ops))
    decreases Load(env), 6, |ops|
  {
    LinedOnward(s, ops);
    if ops == [] {
      LinedNone(s);
    } else {
      var init, op := ops[..|ops| - 1], ops[|ops| - 1];
      SubmittedKeeps(s, init, env, ans);
      var t := Lined(s, init);
      assert t.past.inLine == s.past.inLine && (t.busy > 0 || t.queue != []);
      hide Inv, Queue, Onward, Lined;
      QueueKeeps(t, op, env, ans);
      assert ops == init + [op];
      LinedTwice(s, init, [op]);
    }
  }

  /** The client after a transfer was completed and what the callback submits was put in line. */
  function Completed(s: Client, xfer: nat, ops: seq<Op>): Client {
    Lined(s.(past := s.past.(completed := s.past.completed + [xfer])), ops)
  }

  lemma DoneKeeps(s: Client, xfer: nat, ops: seq<Op>, env: Env, ans: nat)
    requires Inv(s, ans) && (s.busy > 0 || s.queue != [])
    ensures var t := Completed(s, xfer, ops); Done(s, xfer, ops, env) == t && Inv(t, ans) && Onward(s, t)
    decreases Load(env), 7, 0
  {
    var t := s.(past := s.past.(completed := s.past.completed + [xfer]));
    assert Inv(t, ans) && Onward(s, t);
    hide Inv, Lined, Onward;
    SubmittedKeeps(t, ops, env, ans);
    OnwardTrans(s, t, Lined(t, ops));
  }

  lemma LinedNone(s: Client)
    ensures Lined(s, []) == s
  {
    AppendNil(s.queue);
    AppendNil(s.past.submitted);
  }

  lemma LinedTwice(s: Client, a: seq<Op>, b: seq<Op>)
    ensures Lined(Lined(s, a), b) == Lined(s, a + b)
  {
    Assoc(s.queue, a, b);
    Assoc(s.past.submitted, a, b);
  }

  lemma OnwardTrans(a: Client, b: Client, c: Client)
    requires Onward(a, b) && Onward(b, c)
    ensures Onward(a, c)
  {
  }

  lemma LinedOnward(s: Client, ops: seq<Op>)
    ensures Onward(s, Lined(s, ops))
  {
  }

  // ---- replies ----

  lemma NewConnKeeps(s: Client, env: Env)
    requires Inv(s, 0) && s.busy == 0 && s.past.inLine
    ensures var t := NewConn(s, env);
            Inv(t, 0) && Onward(s, t) && t.past.submitted == s.past.submitted + [OpType("I"), OpPwd, OpList]
    decreases Load(env), 7, 0
  {
    hide Inv, Queue, Onward;
    var t := Queue(s, OpType("I"), env);
    QueueKeeps(s, OpType("I"), env, 0);
    BehindType(t, env);
    LinedOnward(t, [OpPwd, OpList]);
    OnwardTrans(s, t, Lined(t, [OpPwd, OpList]));
    Assoc(s.past.submitted, [OpType("I")], [OpPwd, OpList]);
    assert [OpType("I")] + [OpPwd, OpList] == [OpType("I"), OpPwd, OpList];
  }

  lemma BehindType(t: Client, env: Env)
    requires Inv(t, 0) && (t.busy > 0 || t.queue != [])
    ensures Queue(Queue(t, OpPwd, env), OpList, env) == Lined(t, [OpPwd, OpList])
    ensures Inv(Lined(t, [OpPwd, OpList]), 0)
    decreases Load(env), 6, 0
  {
    var u := Lined(t, [OpPwd]);
    assert u.busy > 0 || u.queue != [];
    QueueKeeps(t, OpPwd, env, 0);
    hide Inv, Queue, Onward, Lined;
    QueueKeeps(u, OpList, env, 0);
    LinedTwice(t, [OpPwd], [OpList]);
    assert [OpPwd] + [OpList] == [OpPwd, OpList];
  }

  lemma PasvKeeps(s: Client, code: int, buf: string, line: Line)
    requires s.past.inLine && Inv(s, 1) && s.cproc == CPasv
    ensures var t := PasvReply(s, code, buf, line);
            Inv(t.(busy := t.busy - 1), 0) && Onward(s, t.(busy := t.busy - 1))
  {
    OpenKeeps(s);
    PortKeeps(s, line.listens);
    hide PasvEndpoint, Inv, Onward, FtpActive;
  }

  /** The data connection is open. */
  lemma OpenKeeps(s: Client)
    requires Inv(s, 1) && s.cproc == CPasv
    ensures var t := s.(data := true, carried := []);
            Inv(t.(busy := t.busy - 1), 0) && Onward(s, t.(busy := t.busy - 1))
  {
    assert s.out == [];
  }

  /** PORT instead of PASV. */
  lemma PortKeeps(s: Client, listens: bool)
    requires Inv(s, 1) && s.cproc == CPasv
    ensures var t := FtpActive(s.(passive := false), listens);
            Inv(t.(busy := t.busy - 1), 0) && Onward(s, t.(busy := t.busy - 1))
  {
    assert s.out == [];
  }

  /** A settled reply is taken off `busy`. */
  lemma PayOff(s: Client)
    requires Inv(s, 1) && s.cproc != CPasv
    ensures Inv(s.(busy := s.busy - 1), 0) && Onward(s, s.(busy := s.busy - 1))
  {
  }

  lemma DirKeeps(s: Client, dir: Option<string>, ans: nat)
    requires Inv(s, ans)
    ensures Inv(s.(curdir := dir), ans) && Onward(s, s.(curdir := dir))
  {
  }

  lemma CallKeeps(s: Client, code: int, buf: string, line: Line, ans: nat)
    requires s.past.inLine && Inv(s, ans) && s.cproc != CNull && s.cproc != CPasv
    requires code >= 200 ==> s.busy > 0
    requires code < 200 ==> ForTransfer(s.cproc)
    ensures var t := CallCproc(s, code, buf, line); Inv(t, ans) && Onward(s, t) && t.cproc == s.cproc
    decreases Load(line.meets), 8, 0
  {
    hide Inv, Onward;
    SelfOnward(s);
    match s.cproc
    case CPwd =>
      DirKeeps(s, QuotedText(buf), ans);
    case CCwd =>
      if code == 250 {
        SubmittedKeeps(s, [OpPwd, OpList], line.meets, ans);
      }
    case CXfer(xfer) =>
      if code >= 400 {
        DoneKeeps(s, xfer, line.submits, line.meets, ans);
      }
    case _ =>
  }

  lemma SelfOnward(s: Client)
    ensures Onward(s, s)
  {
  }

  lemma DispatchKeeps(s: Client, code: int, buf: string, line: Line, ans: nat)
    requires s.past.inLine && Inv(s, ans) && s.cproc != CNull
    requires if code < 200 then ans == 0 && ForTransfer(s.cproc) else ans == 1
    ensures var t := Dispatch(s, code, buf, line); Inv(t, 0) && Onward(s, t)
    decreases Load(line.meets), 9, 1
  {
    if s.cproc == CPasv {
      DispatchPasv(s, code, buf, line);
    } else {
      DispatchOther(s, code, buf, line, ans);
    }
  }

  lemma DispatchPasv(s: Client, code: int, buf: string, line: Line)
    requires s.past.inLine && Inv(s, 1) && s.cproc == CPasv
    ensures var t := Dispatch(s, code, buf, line); Inv(t, 0) && Onward(s, t)
  {
    hide Inv, Onward, PasvReply, Done, Submitted, QuotedText;
    PasvKeeps(s, code, buf, line);
    assert CallCproc(s, code, buf, line) == PasvReply(s, code, buf, line);
    hide CallCproc;
  }

  lemma DispatchOther(s: Client, code: int, buf: string, line: Line, ans: nat)
    requires s.past.inLine && Inv(s, ans) && s.cproc != CNull && s.cproc != CPasv
    requires if code < 200 then ans == 0 && ForTransfer(s.cproc) else ans == 1
    ensures var t := Dispatch(s, code, buf, line); Inv(t, 0) && Onward(s, t)
    decreases Load(line.meets), 9, 0
  {
    assert ans > 0 ==> s.busy > 0;
    CallKeeps(s, code, buf, line, ans);
    hide Inv, Onward, CallCproc;
    if ans == 1 {
      var t := CallCproc(s, code, buf, line);
      PayOff(t);
      OnwardTrans(s, t, t.(busy := t.busy - 1));
    }
  }

  lemma LoginKeeps(s: Client, code: int, env: Env, ans: nat)
    requires Inv(s, ans) && s.past.inLine && s.cproc == CNull && s.out == []
    ensures var t := Login(s, code, env); Inv(t, 0) && Onward(s, t)
    decreases Load(env), 9, 0
  {
    hide Inv, NewConn, SendCmd, Onward;
    var t := s.(busy := 0);
    IdleKeeps(s, ans);
    SelfOnward(t);
    GreetKeeps(t, CmdUser);
    GreetKeeps(t, CmdPass);
    NewConnKeeps(t, env);
  }

  lemma IdleKeeps(s: Client, ans: nat)
    requires Inv(s, ans) && s.cproc == CNull && s.out == []
    ensures Inv(s.(busy := 0), 0)
    ensures forall t :: Onward(s.(busy := 0), t) ==> Onward(s, t)
  {
  }

  lemma GreetKeeps(s: Client, c: Command)
    requires Inv(s, 0) && s.busy == 0 && s.cproc == CNull && s.out == [] && (c == CmdUser || c == CmdPass)
    ensures Inv(SendCmd(s, c), 0) && Onward(s, SendCmd(s, c))
  {
  }

  /** Final replies that were taken from the server and not yet from `busy`. */
  function Taken(s: Client, code: int): nat {
    if s.greeted && code >= 200 then 1 else 0
  }

  /** The greeting makes an unused client one that works. */
  lemma GreetingKeeps(s: Client)
    requires Waking(s)
    ensures Inv(s.(greeted := true), 0)
  {
  }

  /** Without overlaps a final reply meets its own handler, and nothing is left to answer. */
  lemma FinalKeeps(s: Client, code: int)
    requires Inv(s, 0) && s.out != [] && code >= 200 && Legal(s, code)
    ensures var t := TakeReply(s, code);
            Inv(t, 1) && Onward(s, t) && t.cproc == s.cproc && (t.cproc == CNull ==> t.out == [])
  {
    var t := TakeReply(s, code);
    assert t.past.misheard == s.past.misheard || (s.out[0] != CmdType && s.cproc != OwnHandler(s.out[0]));
    hide TakeReply, Legal, OwnHandler;
    assert |t.out| == |s.out| - 1;
  }

  /** Where a reply is going to be handled. */
  lemma TakeKeeps(s: Client, code: int)
    requires Steady(s) && Legal(s, code)
    ensures var t := TakeReply(s.(past := s.past.(inLine := true)), code);
            && Inv(t, Taken(s, code)) && Grown(s, t) && t.past.inLine && t.cproc == s.cproc
            && (t.cproc == CNull ==> t.out == [])
            && (code < 200 ==> ForTransfer(t.cproc))
  {
    var s1 := s.(past := s.past.(inLine := true));
    if !s.greeted {
      GreetingKeeps(s1);
    } else if code < 200 {
      assert Inv(s1, 0);
    } else {
      assert Inv(s1, 0);
      FinalKeeps(s1, code);
    }
  }

  lemma ProcKeeps(s: Client, code: int, buf: string, line: Line)
    requires Steady(s) && Legal(s, code)
    ensures var t := ProcControl(s, code, buf, line); Inv(t, 0) && Onward(s, t)
    decreases Load(line.meets), 10, 0
  {
    var s1 := s.(past := s.past.(inLine := true));
    TakeKeeps(s, code);
    var t := TakeReply(s1, code);
    var ans := Taken(s, code);
    assert !s.past.inLine;
    hide Inv, Steady, TakeReply, Dispatch, Login, Onward, Grown, Legal;
    if t.cproc != CNull {
      DispatchKeeps(t, code, buf, line, ans);
      OutOfLine(s, t, Dispatch(t, code, buf, line));
    } else {
      LoginKeeps(t, code, line.meets, ans);
      OutOfLine(s, t, Login(t, code, line.meets));
    }
  }

  lemma OutOfLine(s: Client, t: Client, u: Client)
    requires Inv(u, 0) && Grown(s, t) && Onward(t, u) && !s.past.inLine
    ensures Inv(u.(past := u.past.(inLine := false)), 0) && Onward(s, u.(past := u.past.(inLine := false)))
  {
  }

  lemma {:induction false} LinesKeep(s: Client, lines: seq<Line>)
    requires Steady(s)
    ensures var t := TakeLines(s, lines);
            Steady(t) && Onward(s, t) && (Inv(s, 0) ==> Inv(t, 0))
    decreases LinesLoad(lines), 12, |lines|
  {
    if lines != [] {
      var init, line := lines[..|lines| - 1], lines[|lines| - 1];
      LinesKeep(s, init);
      var t, buf := TakeLines(s, init), SkipSpaces(line.text);
      var code := RespCode(buf);
      if code > 0 && Legal(t, code) {
        ProcKeeps(t, code, buf, line);
      }
    }
  }

  // ---- data ----

  lemma DataEndKeeps(s: Client, submits: seq<Op>, env: Env)
    requires Inv(s, 0) && !s.past.inLine && !s.past.waiting && Serving(s)
    ensures var t := DataEnd(s, submits, env);
            && Inv(t, 0) && Onward(s, t) && !t.data
            && t.busy == s.busy - 1 && t.past.ends == s.past.ends + 1 && t.out == s.out
            && t.past.started == s.past.started
    decreases Load(env), 8, 0
  {
    if s.dproc.DXfer? {
      DoneKeeps(s, s.dproc.xfer, submits, env, 0);
    }
  }

  lemma {:induction false} HandleDataKeeps(s: Client, packets: seq<Packet>, n: nat)
    requires Inv(s, 0) && !s.past.inLine && !s.past.waiting
    ensures var t := HandleData(s, packets, n); Inv(t, 0) && Onward(s, t)
    decreases PacketsLoad(packets), 9, n
  {
    if s.data && packets != [] && n > 0 {
      if packets[0].Eof? && s.carried != [] {
        DataEndKeeps(s, packets[0].submits, packets[0].meets);
      } else {
        HandleDataKeeps(s, packets[1..], n - 1);
      }
    }
  }

  // ---- events ----

  lemma EventKeeps(s: Client, event: Event)
    requires Steady(s) && (s.past.waiting ==> event.Control?)
    ensures var t := TakeEvent(s, event);
            Steady(t) && Onward(s, t) && (Inv(s, 0) ==> Inv(t, 0)) && t.busy >= 0
    decreases EventLoad(event), 14, 0
  {
    match event
    case Control(lines) =>
      ControlIsLines(s, lines);
      LinesKeep(s, lines);
      NotNegative(TakeLines(s, lines));
      hide TakeLines, TakeEvent, Steady, Inv;
    case DataReady(packets) =>
      DataReadyKeeps(s, packets);
      NotNegative(HandleData(s, packets, 4));
      hide HandleData, Steady, Inv;
    case Incoming(accepted) =>
      IncomingKeeps(s, accepted);
  }

  lemma NotNegative(s: Client)
    requires Steady(s)
    ensures s.busy >= 0
  {
  }

  lemma DataReadyKeeps(s: Client, packets: seq<Packet>)
    requires Steady(s) && !s.past.waiting
    ensures var t := HandleData(s, packets, 4);
            Steady(t) && Onward(s, t) && (Inv(s, 0) ==> Inv(t, 0))
    decreases PacketsLoad(packets), 10, 0
  {
    if Inv(s, 0) {
      HandleDataKeeps(s, packets, 4);
      hide HandleData, Inv;
    } else {
      assert !s.data;
      hide Inv;
    }
  }

  lemma IncomingKeeps(s: Client, accepted: bool)
    requires Steady(s) && !s.past.waiting
    ensures var t := TakeEvent(s, Incoming(accepted));
            Steady(t) && Onward(s, t) && (Inv(s, 0) ==> Inv(t, 0)) && t.busy >= 0
  {
  }

  /** Between lines, handling the control connection is taking its lines. */
  lemma ControlIsLines(s: Client, lines: seq<Line>)
    requires !s.past.inLine
    ensures TakeEvent(s, Control(lines)) == TakeLines(s, lines)
  {
    hide TakeLines;
    NotReentered(s);
    assert TakeEvent(s, Control(lines)) == HandleControl(s, lines);
  }

  lemma NotReentered(s: Client)
    requires !s.past.inLine
    ensures s.(past := s.past.(reentered := s.past.reentered || s.past.inLine)) == s
  {
  }

  /** Where `busy` is not negative, an event is handled by what depends on its socket and a look at the queue. */
  lemma HandleIs(s: Client, event: Event, env: Env)
    requires TakeEvent(s, event).busy >= 0
    ensures var t := TakeEvent(s, event);
            Handle(s, event, env) == if t.busy == 0 then ExecQueued(t, env) else t
  {
    hide TakeEvent, ExecQueued, Load, ExecOp, WaitResp;
    SameIdle(TakeEvent(s, event));
  }

  lemma SameIdle(t: Client)
    ensures t.busy == 0 ==> t.(busy := 0, past := t.past.(negative := t.past.negative || t.busy < 0)) == t
  {
  }

  /** Every event keeps the invariants, and an idle client with operations in line starts the first of them. */
  lemma {:induction false} HandleKeeps(s: Client, event: Event, env: Env)
    requires Steady(s) && (s.past.waiting ==> event.Control?)
    ensures var t := Handle(s, event, env);
            && Steady(t) && Onward(s, t) && (Inv(s, 0) ==> Inv(t, 0))
            && (t.busy == 0 && t.queue != [] ==> |s.past.started| < |t.past.started|)
    decreases EventLoad(event) + Load(env), 15, 0
  {
    EventKeeps(s, event);
    HandleIs(s, event, env);
    var t := TakeEvent(s, event);
    if t.busy == 0 {
      IdleKeepsOn(t, env);
      OnwardTrans(s, t, ExecQueued(t, env));
      hide Onward, Steady, Inv, TakeEvent, ExecQueued, Handle;
    } else {
      hide Onward, Steady, Inv, TakeEvent, Handle;
    }
  }

  /** An idle client looks at its queue. */
  lemma IdleKeepsOn(t: Client, env: Env)
    requires Steady(t) && t.busy == 0
    ensures var r := ExecQueued(t, env);
            && Steady(r) && Onward(t, r) && (Inv(t, 0) ==> Inv(r, 0))
            && (r.busy == 0 && r.queue != [] ==> |t.past.started| < |r.past.started|)
    decreases Load(env), 6, 0
  {
    NothingQueued(t, env);
    SelfOnward(t);
    if Inv(t, 0) {
      ExecQueuedKeeps(t, env);
      hide Inv, ExecQueued;
    } else {
      assert t.queue == [];
      hide Inv, Waking, ExecQueued, Onward;
    }
  }

  lemma NothingQueued(t: Client, env: Env)
    ensures t.queue == [] ==> ExecQueued(t, env) == t
  {
  }

  /** Between inputs. */
  predicate Settled(s: Client) {
    Steady(s) && !s.past.waiting
  }

  lemma StepKeeps(s: Client, input: Input)
    requires Settled(s)
    ensures Settled(Step(s, input)) && Onward(s, Step(s, input))
  {
    match input
    case Submit(op, env) =>
      if s.greeted {
        QueueKeeps(s, op, env, 0);
      }
    case Happens(event, env) =>
      HandleKeeps(s, event, env);
  }
}
