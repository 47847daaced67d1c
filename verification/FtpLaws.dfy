/** What each step of the engine does, as seen by the server and the user. */
module FtpLaws {
  import opened Decimal
  import opened FtpAddress
  import opened FtpInvariant
  import opened FtpOverlap
  import opened FtpQueue
  import opened FtpReply
  import opened FtpSteps
  import opened Options
  import opened Seqs

  // ---- operations that need no data connection ----

  /** The command goes out that the user asked for; TYPE knows image and ASCII in either case. */
  function Asks(op: Op): Option<Command> {
    match op
    case OpType(arg) => if arg != "" && arg[0] in {'i', 'I', 'a', 'A'} then Some(CmdType) else None
    case _ => Sends(op)
  }

  /** All but the handler, the commands out and the history is as before. */
  predicate SameSockets(s: Client, t: Client) {
    && t.passive == s.passive && t.data == s.data && t.lis == s.lis && t.dproc == s.dproc && t.carried == s.carried
    && t.curdir == s.curdir && t.queue == s.queue && t.greeted == s.greeted
  }

  /** Exactly the command asked for is out, under its own handler, and nothing else happens. */
  lemma CommandGoesOut(s: Client, op: Op, env: Env)
    requires MayStart(s, op) && !NeedsData(op)
    ensures var t := ExecOp(s, op, env);
            && SameSockets(s, t)
            && (match Asks(op)
                case None => t.out == [] && t.busy == 0 && t.cproc == s.cproc
                case Some(c) =>
                  t.out == [c] && t.busy == 1 && t.cproc == if c == CmdType then s.cproc else OwnHandler(c))
  {
    assert s.out == [];
    var t := Begin(s, op);
    assert ExecOp(s, op, env) == CommandOp(t, op);
    hide Inv, ExecOp;
    if Asks(op).Some? {
      NilAppend([Asks(op).value]);
    }
  }

  /** What the user submits starts at once on an idle client with nothing in line, and is put in line otherwise. */
  lemma SubmitStarts(s: Client, op: Op, env: Env)
    requires Settled(s) && s.greeted
    ensures var t := Step(s, Submit(op, env));
            && s.past.submitted + [op] <= t.past.submitted
            && (if s.busy == 0 && s.queue == [] then s.past.started + [op] <= t.past.started
                else t == Lined(s, [op]))
  {
    QueueKeeps(s, op, env, 0);
    if s.busy == 0 && s.queue == [] {
      ReadyToStart(s, op, 0);
      ExecKeeps(s.(past := s.past.(submitted := s.past.submitted + [op])), op, env);
      StartedAtOnce(s, op, env);
      hide Queue, ExecOp, Inv, Settled;
    }
  }

  // ---- operations that do ----

  /** The data connection is open, or the lines that wake the client open it. */
  predicate Opened(s: Client, op: Op, env: Env) {
    s.data || (s.passive && env.Wakes? && Woken(FtpPassive(Begin(s, op)), env).data)
  }

  /** The transfer command is the last one out, and control connection and data are in its own handlers' hands. */
  predicate TransferOut(t: Client, op: Op) {
    && Downloads(op) && Sends(op).Some?
    && var c := Sends(op).value;
    && t.out != [] && t.out[|t.out| - 1] == c && t.cproc == OwnHandler(c)
    && t.data && t.carried != [] && t.carried[|t.carried| - 1] == c && t.dproc == OwnReceiver(c)
  }

  /** The operation behind this one can start inside its wait. */
  predicate LetsIn(s: Client) {
    !s.data && s.queue != [] && Downloads(s.queue[0])
  }

  /**
   LIST or RETR goes out exactly if its data connection is open or gets opened; then one more
   data operation is running, besides one that came in between; and if not, none is.
   */
  lemma TransferGoesOut(s: Client, op: Op, env: Env)
    requires MayStart(s, op) && Downloads(op) && !s.past.waiting && !s.past.overlapped
    ensures var t := ExecOp(s, op, env);
            if Opened(s, op, env) then TransferOut(t, op) && Pend(t) == 1 + (if LetsIn(s) then 1 else 0)
            else !Serving(t) && Pend(t) == 0
  {
    BeginKeeps(s, op);
    var b := Begin(s, op);
    Prepared(s, op, env);
    var t := PrepareData(b, env);
    assert Downloads(op) ==> ExecOp(s, op, env) == DataOp(b, Sends(op).value, env);
    hide Inv, MayStart, PrepareData, ExecOp, Opened, LetsIn;
    if t.data {
      TransferOutOf(t, op);
    }
  }

  lemma TransferOutOf(t: Client, op: Op)
    requires Downloads(op) && t.data
    ensures var r := StartTransfer(t, Sends(op).value); TransferOut(r, op) && Pend(r) == Pend(t) + 1
  {
  }

  /** The data connection that an operation finds when it has been prepared. */
  lemma Prepared(s: Client, op: Op, env: Env)
    requires MayStart(s, op) && NeedsData(op) && !s.past.waiting && !s.past.overlapped
    ensures var t := PrepareData(Begin(s, op), env);
            && (t.data <==> Opened(s, op, env))
            && Pend(t) == (if Opened(s, op, env) && LetsIn(s) then 1 else 0)
            && (!t.data ==> !Serving(t))
  {
    BeginKeeps(s, op);
    var b := Begin(s, op);
    assert Pend(s) == 0;
    if !s.data && s.passive {
      PassiveWaits(b);
      WaitPrepares(FtpPassive(b), env);
      hide Inv, WaitResp;
    } else {
      hide Inv;
    }
  }

  lemma WaitPrepares(p: Client, env: Env)
    requires AboutToWait(p) && !p.past.overlapped
    ensures var t := WaitResp(p, env);
            && (t.data <==> env.Wakes? && Woken(p, env).data)
            && Pend(t) == (if t.data && p.queue != [] && Downloads(p.queue[0]) then 1 else 0)
  {
    if env.Wakes? {
      WokenFacts(p, env);
      if WokenIdle(p, env) && p.queue != [] {
        IntruderLeaves(p, env);
        hide AboutToWait, Inv, WaitResp, Woken;
      } else {
        WokenStays(p, env);
        hide AboutToWait, Inv, WaitResp, Woken;
      }
    }
  }

  /** What the lines of a wait leave: an open data connection finds the client idle. */
  lemma WokenFacts(p: Client, env: Env)
    requires AboutToWait(p) && !p.past.overlapped && env.Wakes?
    ensures var w := Woken(p, env);
            && InWait(w) && w.queue == p.queue && Pend(w) == 0 && w.busy >= 0 && (w.data ==> w.busy == 0)
  {
    LinesInWait(p.(past := p.past.(waiting := true)), env.lines);
  }

  /** Without an operation to start the wait ends as the lines leave it. */
  lemma WokenStays(p: Client, env: Env)
    requires AboutToWait(p) && !p.past.overlapped && env.Wakes? && (!WokenIdle(p, env) || p.queue == [])
    ensures var w := Woken(p, env); WaitResp(p, env) == w.(past := w.past.(waiting := false))
  {
    var v := p.(past := p.past.(waiting := true));
    WokenFacts(p, env);
    HandleSteady(v, env.lines, env.inner);
    var w := Woken(p, env);
    NothingQueued(w, env.inner);
    hide InWait, ExecQueued, TakeLines, Handle;
    assert Handle(v, Control(env.lines), env.inner) == w;
  }

  /** An upload opens the data connection as a download does, and sends nothing over it. */
  lemma UploadPrepares(s: Client, op: Op, env: Env)
    requires MayStart(s, op) && op.OpXfer? && !op.retr && !s.past.waiting && !s.past.overlapped
    ensures var t := ExecOp(s, op, env); t.data <==> Opened(s, op, env)
    ensures s.data ==> ExecOp(s, op, env) == Begin(s, op)
  {
    Prepared(s, op, env);
    assert ExecOp(s, op, env) == PrepareData(Begin(s, op), env);
  }

  /** Without a data connection PASV goes out, or PORT if the client is not passive and can listen. */
  lemma DataAskedFor(s: Client, op: Op, listens: bool)
    requires MayStart(s, op) && NeedsData(op) && !s.data
    ensures var t := ExecOp(s, op, Quiet(listens));
            && !t.data && t.passive == s.passive && t.queue == s.queue && t.curdir == s.curdir && t.dproc == s.dproc
            && (if s.passive then t.out == [CmdPasv] && t.cproc == CPasv && !t.lis && t.busy == 1
                else if listens then t.out == [CmdPort] && t.cproc == CActive && t.lis && t.busy == 1
                else t.out == [] && t.cproc == s.cproc && !t.lis && t.busy == 0)
  {
    assert s.out == [];
    NilAppend([CmdPasv]);
    NilAppend([CmdPort]);
    var b := Begin(s, op);
    assert PrepareData(b, Quiet(listens)) == if s.passive then FtpPassive(b) else FtpActive(b, listens);
    hide Inv;
  }

  // ---- replies ----

  /** What the final reply to the oldest command leaves as it is. */
  predicate OneAnswered(s: Client, t: Client)
    requires s.out != []
  {
    t.out == s.out[1..] && t.busy == s.busy - 1 && t.cproc == s.cproc && t.queue == s.queue
  }

  /** A usable reply opens the data connection. */
  lemma PasvAccepted(s: Client, buf: string, line: Line)
    requires s.greeted && s.cproc == CPasv && s.out != [] && s.out[0] == CmdPasv
    requires PasvEndpoint(buf).Some? && line.connects
    ensures var t := ProcControl(s, 227, buf, line);
            OneAnswered(s, t) && t.data && t.carried == [] && t.passive == s.passive && t.lis == s.lis
  {
    PasvOpens(s, buf, line);
    hide ProcControl;
  }

  /** Any other ends the passive mode for good, and PORT goes out if the client can listen. */
  lemma PasvRefused(s: Client, code: int, buf: string, line: Line)
    requires s.greeted && s.cproc == CPasv && s.out == [CmdPasv] && code >= 200 && Legal(s, code)
    requires code != 227 || PasvEndpoint(buf) == None || !line.connects
    ensures var t := ProcControl(s, code, buf, line);
            && !t.passive && !t.data && t.queue == s.queue && t.lis == line.listens
            && (if line.listens then t.out == [CmdPort] && t.cproc == CActive && t.busy == s.busy
                else t.out == [] && t.cproc == CPasv && t.busy == s.busy - 1)
  {
    FinalReply(s, code, buf, line);
    hide ProcControl;
    var h := Heard(s, code);
    assert CallCproc(h, code, buf, line) == PasvReply(h, code, buf, line)
        == FtpActive(h.(passive := false), line.listens);
    NilAppend([CmdPort]);
    assert [CmdPasv][1..] == [];
    hide CallCproc, PasvEndpoint;
  }

  /** PWD: the text between the quotes of a 257 reply becomes the directory, and nothing else does. */
  lemma PwdHeard(s: Client, code: int, buf: string, line: Line)
    requires s.greeted && s.cproc == CPwd && s.out != [] && code >= 200 && Legal(s, code)
    ensures var t := ProcControl(s, code, buf, line);
            && OneAnswered(s, t) && t.data == s.data && t.lis == s.lis && t.passive == s.passive
            && t.curdir == if code == 257 && Quotes(buf) >= 2 then QuotedText(buf) else s.curdir
  {
    QuotedExact(buf);
    FinalReply(s, code, buf, line);
    hide ProcControl, QuotedText, Quotes;
  }

  /** In the usual form of the reply the directory is what stands in quotes. */
  lemma PwdSays(s: Client, pre: string, dir: string, post: string, line: Line)
    requires s.greeted && s.cproc == CPwd && s.out != [] && Legal(s, 257) && '"' !in pre && '"' !in dir
    ensures ProcControl(s, 257, pre + (['"'] + (dir + (['"'] + post))), line).curdir == Some(dir)
  {
    QuotedIsFound(pre, dir, post);
    var buf := pre + (['"'] + (dir + (['"'] + post)));
    QuotedExact(buf);
    PwdHeard(s, 257, buf, line);
    hide QuotedText, Quotes, ProcControl;
  }

  /** CWD and CDUP: after a 250 reply, and no other, PWD and LIST are put in line. */
  lemma CwdHeard(s: Client, code: int, buf: string, line: Line)
    requires Inv(s, 0) && !s.past.inLine && s.cproc == CCwd && s.out != [] && code >= 200 && Legal(s, code)
    ensures var t := ProcControl(s, code, buf, line);
            && t.out == s.out[1..] && t.busy == s.busy - 1 && t.cproc == CCwd && t.curdir == s.curdir
            && t.data == s.data && t.lis == s.lis && t.passive == s.passive
            && (if code == 250
                then t.queue == s.queue + [OpPwd, OpList] && t.past.submitted == s.past.submitted + [OpPwd, OpList]
                else t.queue == s.queue && t.past.submitted == s.past.submitted)
  {
    TakeKeeps(s, code);
    var h := Heard(s, code);
    assert h.busy > 0 && h.cproc == CCwd;
    FinalReply(s, code, buf, line);
    hide ProcControl, Legal;
    CwdCalled(h, code, buf, line);
    hide Inv, CallCproc;
  }

  lemma CwdCalled(h: Client, code: int, buf: string, line: Line)
    requires Inv(h, 1) && h.busy > 0 && h.cproc == CCwd
    ensures CallCproc(h, code, buf, line) == if code == 250 then Lined(h, [OpPwd, OpList]) else h
  {
    hide Inv, Submitted;
    if code == 250 {
      SubmittedKeeps(h, [OpPwd, OpList], line.meets, 1);
    }
  }

  /** LIST, RETR below 400 and PORT: the final reply is counted and nothing else happens. */
  lemma PlainHeard(s: Client, code: int, buf: string, line: Line)
    requires s.greeted && s.out != [] && code >= 200 && Legal(s, code)
    requires s.cproc == CList || s.cproc == CActive || (s.cproc.CXfer? && code < 400)
    ensures var t := ProcControl(s, code, buf, line);
            && OneAnswered(s, t) && SameSockets(s, t) && t.past.started == s.past.started
            && t.past.submitted == s.past.submitted && t.past.completed == s.past.completed
            && t.past.overlapped == s.past.overlapped
  {
    FinalReply(s, code, buf, line);
    hide ProcControl;
    var h := Heard(s, code);
    assert CallCproc(h, code, buf, line) == h;
    hide CallCproc;
  }

  /** A preliminary reply to LIST or RETR changes nothing. */
  lemma PreliminaryHeard(s: Client, code: int, buf: string, line: Line)
    requires ForTransfer(s.cproc) && code < 200 && Legal(s, code) && !s.past.inLine
    ensures ProcControl(s, code, buf, line) == s
  {
    var h := s.(past := s.past.(inLine := true));
    assert TakeReply(h, code) == h;
    assert CallCproc(h, code, buf, line) == h;
    assert Dispatch(h, code, buf, line) == h;
    assert Answered(h, code, buf, line) == h;
    hide Answered, TakeReply;
    assert h.(past := h.past.(inLine := s.past.inLine)) == s;
  }

  /** The login dialogue: 331 asks for the password, a repeated 220 for the name, and other codes for nothing. */
  lemma LoginHeard(s: Client, code: int, buf: string, line: Line)
    requires s.greeted && s.cproc == CNull && s.out != [] && code >= 200 && code != 230 && Legal(s, code)
    ensures var t := ProcControl(s, code, buf, line);
            && SameSockets(s, t) && t.cproc == CNull
            && (if code == 220 then t.out == s.out[1..] + [CmdUser] && t.busy == 1
                else if code == 331 then t.out == s.out[1..] + [CmdPass] && t.busy == 1
                else t.out == s.out[1..] && t.busy == 0)
  {
    LoginReply(s, code, buf, line);
    hide ProcControl;
  }

  /** The greeting is answered with the name. */
  lemma GreetingHeard(s: Client, code: int, buf: string, line: Line)
    requires Waking(s) && Legal(s, code) && code != 230 && code != 331
    ensures var t := ProcControl(s, code, buf, line);
            && t.greeted && t.cproc == CNull && t.queue == [] && !t.data && !t.lis
            && (if code == 220 then t.out == [CmdUser] && t.busy == 1 else t.out == [] && t.busy == 0)
  {
    var h := TakeReply(s.(past := s.past.(inLine := true)), code);
    NilAppend([CmdUser]);
    assert Answered(h, code, buf, line) == Login(h, code, line.meets);
  }

  /**
   The end of the login: TYPE goes out, with PWD and LIST in line behind it; behind what the
   user has put in line already, all three wait.
   */
  lemma LoginDone(s: Client, buf: string, line: Line)
    requires Inv(s, 0) && !s.past.inLine && s.cproc == CNull && s.out != [] && Legal(s, 230)
    ensures var t := ProcControl(s, 230, buf, line);
            && t.data == s.data && t.lis == s.lis && t.passive == s.passive && t.cproc == CNull
            && (if s.queue == [] then t.out == [CmdType] && t.busy == 1 && t.queue == [OpPwd, OpList]
                else t.out == [] && t.busy == 0 && t.queue == s.queue + [OpType("I"), OpPwd, OpList])
  {
    LoginReply(s, 230, buf, line);
    TakeKeeps(s, 230);
    var h := Heard(s, 230);
    IdleKeeps(h, 1);
    hide ProcControl, Legal, TakeReply, Heard;
    ThreeQueued(h.(busy := 0), line.meets);
    hide Inv, NewConn;
  }

  lemma ThreeQueued(s: Client, env: Env)
    requires Inv(s, 0) && s.busy == 0 && s.past.inLine && s.out == [] && s.cproc == CNull
    ensures var t := NewConn(s, env);
            && t.data == s.data && t.lis == s.lis && t.passive == s.passive && t.cproc == CNull
            && (if s.queue == [] then t.out == [CmdType] && t.busy == 1 && t.queue == [OpPwd, OpList]
                else t.out == [] && t.busy == 0 && t.queue == s.queue + [OpType("I"), OpPwd, OpList])
  {
    var t := Queue(s, OpType("I"), env);
    QueueKeeps(s, OpType("I"), env, 0);
    if s.queue == [] {
      TypeQueued(s, env);
    }
    BehindType(t, env);
    hide Inv, Queue;
    if s.queue == [] {
      NilAppend([OpPwd, OpList]);
    } else {
      Assoc(s.queue, [OpType("I")], [OpPwd, OpList]);
      assert [OpType("I")] + [OpPwd, OpList] == [OpType("I"), OpPwd, OpList];
    }
  }

  lemma TypeQueued(s: Client, env: Env)
    requires s.busy == 0 && s.queue == [] && s.out == []
    ensures var t := Queue(s, OpType("I"), env);
            && SameSockets(s, t) && t.out == [CmdType] && t.busy == 1 && t.cproc == s.cproc
  {
    var u := s.(past := s.past.(submitted := s.past.submitted + [OpType("I")]));
    NilAppend([CmdType]);
    assert IsTypeArg("I");
    assert ExecOp(u, OpType("I"), env) == FtpType(Begin(u, OpType("I")), "I");
    hide ExecOp;
    StartedAtOnce(s, OpType("I"), env);
  }

  // ---- lines ----

  /** A line without a code, and one that others follow, changes nothing. */
  lemma UncodedIgnored(s: Client, line: Line)
    requires LineCode(line.text) <= 0
    ensures TakeLine(s, line) == s
  {
  }

  /** Such as a line with a dash behind its three digits. */
  lemma ContinuationIgnored(s: Client, line: Line, n: nat, more: string)
    requires 1 <= n <= 999 && line.text == PadDigits(n, 3) + ("-" + more)
    ensures TakeLine(s, line) == s
  {
    var t := line.text;
    assert t[..3] == PadDigits(n, 3) && t[3] == '-' && t[0] == PadDigits(n, 3)[0];
    RespCodeExact(t, n);
    hide RespCode, PadDigits;
    UncodedIgnored(s, line);
  }

  /** Lines are taken one after the other. */
  lemma {:induction false} LinesInOrder(s: Client, a: seq<Line>, b: seq<Line>)
    ensures TakeLines(s, a + b) == TakeLines(TakeLines(s, a), b)
    decreases |b|
  {
    hide TakeLine;
    if b == [] {
      AppendNil(a);
    } else {
      var init, last := b[..|b| - 1], b[|b| - 1];
      assert b == init + [last];
      Assoc(a, init, [last]);
      DropLast(a + init, last);
      LinesInOrder(s, a, init);
    }
  }

  // ---- data ----

  /** Of four reads the first that finds the end of data is the one that counts. */
  lemma {:induction false} FirstEndCounts(s: Client, packets: seq<Packet>, i: nat, n: nat)
    requires s.data && s.carried != [] && i < |packets| && i < n && packets[i].Eof?
    requires forall j | 0 <= j < i :: packets[j].Bytes?
    ensures HandleData(s, packets, n) == DataEnd(s, packets[i].submits, packets[i].meets)
    decreases i
  {
    if i > 0 {
      assert packets[0].Bytes?;
      FirstEndCounts(s, packets[1..], i - 1, n - 1);
    }
  }

  lemma FirstOfFour(s: Client, packets: seq<Packet>, i: nat)
    requires s.data && s.carried != [] && i < |packets| && i < 4 && packets[i].Eof?
    requires forall j | 0 <= j < i :: packets[j].Bytes?
    ensures TakeEvent(s, DataReady(packets)) == DataEnd(s, packets[i].submits, packets[i].meets)
  {
    FirstEndCounts(s, packets, i, 4);
    hide HandleData, DataEnd;
    assert TakeEvent(s, DataReady(packets)) == HandleData(s, packets, 4);
  }

  /** Four reads without an end of data, or before a transfer command was sent, change nothing. */
  lemma {:induction false} NoEndYet(s: Client, packets: seq<Packet>, n: nat)
    requires !Serving(s) || forall j | 0 <= j < |packets| && j < n :: packets[j].Bytes?
    ensures HandleData(s, packets, n) == s
    decreases n
  {
    if s.data && packets != [] && n > 0 {
      assert Serving(s) ==> packets[0].Bytes?;
      NoEndYet(s, packets[1..], n - 1);
    }
  }

  lemma FourReads(s: Client, packets: seq<Packet>)
    requires !Serving(s) || forall j | 0 <= j < |packets| && j < 4 :: packets[j].Bytes?
    ensures TakeEvent(s, DataReady(packets)) == s
  {
    NoEndYet(s, packets, 4);
    hide HandleData;
    assert TakeEvent(s, DataReady(packets)) == HandleData(s, packets, 4);
  }

  /** The end of data closes the connection; the handler of LIST is taken out, that of a transfer stays. */
  lemma EndCloses(s: Client, submits: seq<Op>, env: Env)
    requires Inv(s, 0) && !s.past.inLine && !s.past.waiting && Serving(s)
    ensures var t := DataEnd(s, submits, env);
            && !t.data && t.carried == [] && t.out == s.out && t.cproc == s.cproc && t.busy == s.busy - 1
            && t.past.started == s.past.started && t.past.overlapped == s.past.overlapped && t.curdir == s.curdir
            && (s.dproc == DList ==> t.dproc == DNull && t.queue == s.queue && t.past.completed == s.past.completed)
            && (s.dproc.DXfer? ==> t.dproc == s.dproc && t.queue == s.queue + submits
                                   && t.past.completed == s.past.completed + [s.dproc.xfer])
  {
    assert s.busy > 0 && s.dproc != DNull;
    if s.dproc.DXfer? {
      DoneKeeps(s, s.dproc.xfer, submits, env, 0);
    }
    hide Inv, Done;
  }

  /** In active mode the connection that the server opens is what the next transfer goes over. */
  lemma AcceptedServes(s: Client, op: Op, env: Env)
    requires MayStart(s, op) && Downloads(op) && !s.past.waiting && !s.past.overlapped && s.lis && !s.data
    ensures var t := TakeEvent(s, Incoming(true));
            && t == s.(data := true, carried := []) && MayStart(t, op)
            && TransferOut(ExecOp(t, op, env), op) && ExecOp(t, op, env).out == [Sends(op).value]
  {
    var t := TakeEvent(s, Incoming(true));
    assert s.out == [];
    TransferGoesOut(t, op, env);
    var b := Begin(t, op);
    assert PrepareData(b, env) == b;
    assert ExecOp(t, op, env) == DataOp(b, Sends(op).value, env) == StartTransfer(b, Sends(op).value);
    NilAppend([Sends(op).value]);
  }

  /** A second connection, or one while the client does not listen, is not taken. */
  lemma IncomingRefused(s: Client, accepted: bool)
    requires s.data || !s.lis
    ensures TakeEvent(s, Incoming(accepted)) == s
  {
  }

  /** An accept that fails opens nothing. */
  lemma AcceptFails(s: Client)
    requires !s.data && s.carried == []
    ensures TakeEvent(s, Incoming(false)) == s
  {
  }
}
