/**
 The FTP client engine itself: the fields that its methods update, and methods that follow
 the code. Each does to the state exactly what the function of its name says.
 */
module FtpEngine {
  import opened Ctype
  import opened FtpAddress
  import opened FtpQueue
  import opened FtpReply
  import opened Options
  import S = FtpSteps
  import opened FtpSteps
  import FtpInvariant
  import FtpOverlap

  class Ftp {
    // The client.
    var busy: int
    var passive: bool
    var cproc: CProc
    var dproc: DProc
    /** The data and listening sockets are open. */
    var data: bool
    var lis: bool
    var curdir: Option<string>
    const queue: OpQueue

    // The server.
    var greeted: bool
    var out: seq<Command>
    /** Transfer commands sent while the present data connection was open. */
    var carried: seq<Command>
    ghost var past: Past

    ghost predicate Valid()
      reads this, queue, queue.Repr
    {
      this !in queue.Repr && queue.Valid()
    }

    ghost function Now(): Client
      reads this, queue, queue.Repr
      requires Valid()
    {
      Client(busy, passive, cproc, dproc, data, lis, curdir, queue.Contents(), greeted, out, carried, past)
    }

    constructor ()
      ensures Valid() && fresh(queue) && fresh(queue.Repr) && Now() == UNUSED
    {
      busy, passive := 0, true;
      cproc, dproc := CNull, DNull;
      data, lis, curdir := false, false, None;
      queue := new OpQueue();
      greeted, out, carried := false, [], [];
      past := UNUSED.past;
    }

    // ---- commands ----

    /** `sendcmd` on an open control connection */
    method SendCmd(c: Command)
      requires Valid()
      modifies `busy, `out, `past
      ensures Valid() && Now() == S.SendCmd(old(Now()), c)
    {
      hide OpQueue.Valid, OpQueue.Contents;
      busy := busy + 1;
      PutOut(c);
    }

    /** The server's side of a command. */
    method PutOut(c: Command)
      requires Valid()
      modifies `out, `past
      ensures Valid()
      ensures var s := old(Now());
              Now() == s.(out := s.out + [c],
                          past := s.past.(issued := s.past.issued + 1,
                                          begun := s.past.begun + if IsTransfer(c) then 1 else 0))
    {
      hide OpQueue.Valid, OpQueue.Contents;
      out := out + [c];
      past := past.(issued := past.issued + 1, begun := past.begun + if IsTransfer(c) then 1 else 0);
    }

    /** `ftp_type` */
    method FtpType(arg: string)
      requires Valid()
      modifies `busy, `out, `past
      ensures Valid() && Now() == S.FtpType(old(Now()), arg)
    {
      if arg == "" || arg[0] !in "iIaA" {
        return;
      }
      SendCmd(CmdType);
    }

    /** `ftp_pwd` */
    method FtpPwd()
      requires Valid()
      modifies `busy, `out, `past, `cproc
      ensures Valid() && Now() == S.FtpPwd(old(Now()))
    {
      SendCmd(CmdPwd);
      cproc := CPwd;
    }

    /** `ftp_chdir` */
    method FtpChdir()
      requires Valid()
      modifies `busy, `out, `past, `cproc
      ensures Valid() && Now() == S.FtpChdir(old(Now()))
    {
      SendCmd(CmdCwd);
      cproc := CCwd;
    }

    /** Closes the data and listening sockets. */
    method CloseSockets()
      requires Valid()
      modifies `data, `lis
      ensures Valid() && Now() == old(Now()).(lis := false, data := false)
    {
      hide OpQueue.Valid, OpQueue.Contents;
      lis, data := false, false;
    }

    /** `ftp_active`; whether the listening socket can be had is up to the system. */
    method FtpActive(listens: bool) returns (ok: bool)
      requires Valid()
      modifies `busy, `out, `past, `cproc, `data, `lis
      ensures Valid() && Now() == S.FtpActive(old(Now()), listens) && ok == listens
    {
      hide S.SendCmd;
      CloseSockets();
      if !listens {
        return false;
      }
      lis := true;
      SendCmd(CmdPort);
      cproc := CActive;
      ok := true;
    }

    /** `ftp_passive` */
    method FtpPassive()
      requires Valid()
      modifies `busy, `out, `past, `cproc, `data, `lis
      ensures Valid() && Now() == S.FtpPassive(old(Now()))
    {
      hide S.SendCmd;
      CloseSockets();
      SendCmd(CmdPasv);
      cproc := CPasv;
    }

    // ---- operations ----

    /** The operation counts as started. */
    ghost method Begin(op: Op)
      requires Valid()
      modifies `past
      ensures Valid() && Now() == S.Begin(old(Now()), op)
    {
      past := past.(started := past.started + [op], overlapped := past.overlapped || past.waiting);
    }

    /** `exec_op` */
    method ExecOp(op: Op, env: Env)
      requires Valid()
      modifies this, queue, queue.Repr
      ensures Valid() && Now() == S.ExecOp(old(Now()), op, env)
      ensures fresh(queue.Repr - old(queue.Repr))
      decreases Load(env), 4, 0
    {
      Begin(op);
      match op {
        case OpType(arg) =>
          FtpType(arg);
        case OpPwd =>
          FtpPwd();
        case OpChdir(_) =>
          FtpChdir();
        case OpCdup =>
          FtpChdir();
        case OpStub =>
        case OpList =>
          FtpList(env);
        case OpXfer(xfer, retr) =>
          FtpTransfer(xfer, retr, env);
      }
    }

    /** `ftp_list` */
    method FtpList(env: Env)
      requires Valid()
      modifies this, queue, queue.Repr
      ensures Valid() && Now() == S.DataOp(old(Now()), CmdList, env)
      ensures fresh(queue.Repr - old(queue.Repr))
      decreases Load(env), 3, 0
    {
      var ready := PrepareData(env);
      if !ready {
        return;
      }
      StartTransfer(CmdList);
    }

    /** `ftp_transfer`; an upload only prepares the data connection. */
    method FtpTransfer(xfer: nat, retr: bool, env: Env)
      requires Valid()
      modifies this, queue, queue.Repr
      ensures Valid()
      ensures Now() == if retr then S.DataOp(old(Now()), CmdRetr(xfer), env) else S.PrepareData(old(Now()), env)
      ensures fresh(queue.Repr - old(queue.Repr))
      decreases Load(env), 3, 0
    {
      var ready := PrepareData(env);
      if ready && retr {
        StartTransfer(CmdRetr(xfer));
      }
    }

    /** The transfer command goes out and its handlers go in. */
    method StartTransfer(c: Command)
      requires Valid() && IsTransfer(c)
      modifies `busy, `out, `past, `cproc, `dproc, `carried
      ensures Valid() && Now() == S.StartTransfer(old(Now()), c)
    {
      hide OpQueue.Valid, OpQueue.Contents;
      SendCmd(c);
      carried := carried + [c];
      cproc, dproc := OwnHandler(c), OwnReceiver(c);
      busy := busy + 1;
    }

    /** `prepare_data` */
    method PrepareData(env: Env) returns (ready: bool)
      requires Valid()
      modifies this, queue, queue.Repr
      ensures Valid() && Now() == S.PrepareData(old(Now()), env) && ready == data
      ensures fresh(queue.Repr - old(queue.Repr))
      decreases Load(env), 2, 0
    {
      if data {
        return true;
      }
      if passive {
        FtpPassive();
        WaitResp(env);
      } else {
        var ok := FtpActive(env.listens);
        if !ok {
          return false;
        }
      }
      return data;
    }

    /** `ftp_waitresp`: at most one readable event of the control connection is handled. */
    method WaitResp(env: Env)
      requires Valid()
      modifies this, queue, queue.Repr
      ensures Valid() && Now() == S.WaitResp(old(Now()), env)
      ensures fresh(queue.Repr - old(queue.Repr))
      decreases Load(env), 1, 0
    {
      hide S.Handle;
      match env {
        case Quiet(_) =>
        case Wakes(_, lines, inner) =>
          SetWaiting(true);
          Handle(Control(lines), inner);
          SetWaiting(old(past).waiting);
      }
    }

    ghost method SetWaiting(b: bool)
      requires Valid()
      modifies `past
      ensures Valid() && Now() == old(Now()).(past := old(Now()).past.(waiting := b))
    {
      hide OpQueue.Valid, OpQueue.Contents;
      past := past.(waiting := b);
    }

    // ---- the queue ----

    /** `exec_queued` */
    method ExecQueued(env: Env)
      requires Valid()
      modifies this, queue, queue.Repr
      ensures Valid() && Now() == S.ExecQueued(old(Now()), env)
      ensures fresh(queue.Repr - old(queue.Repr))
      decreases Load(env), 5, 0
    {
      var empty := queue.Empty();
      if empty {
        return;
      }
      ghost var ops := queue.Contents();
      var op := queue.TakeHead();
      assert op == ops[0] && queue.Contents() == ops[1..];
      ExecOp(op, env);
    }

    /** `ftp_queue` and `ftp_queue_transfer` */
    method Queue(op: Op, env: Env)
      requires Valid()
      modifies this, queue, queue.Repr
      ensures Valid() && Now() == S.Queue(old(Now()), op, env)
      ensures fresh(queue.Repr - old(queue.Repr))
      decreases Load(env), 5, 0
    {
      hide S.ExecOp;
      past := past.(submitted := past.submitted + [op]);
      var empty := queue.Empty();
      if busy == 0 && empty {
        ExecOp(op, env);
        return;
      }
      queue.Append(op);
    }

    /** The completion callback of a transfer is called. */
    method Done(xfer: nat, ops: seq<Op>, env: Env)
      requires Valid()
      modifies this, queue, queue.Repr
      ensures Valid() && Now() == S.Done(old(Now()), xfer, ops, env)
      ensures fresh(queue.Repr - old(queue.Repr))
      decreases Load(env), 7, 0
    {
      past := past.(completed := past.completed + [xfer]);
      Submitted(ops, env);
    }

    /** Operations that a callback submits, one after the other */
    method Submitted(ops: seq<Op>, env: Env)
      requires Valid()
      modifies this, queue, queue.Repr
      ensures Valid() && Now() == S.Submitted(old(Now()), ops, env)
      ensures fresh(queue.Repr - old(queue.Repr))
      decreases Load(env), 6, |ops|
    {
      for i := 0 to |ops|
        invariant Valid() && Now() == S.Submitted(old(Now()), ops[..i], env)
        invariant fresh(queue.Repr - old(queue.Repr))
      {
        assert ops[..i + 1][..i] == ops[..i];
        Queue(ops[i], env);
      }
      assert ops[..|ops|] == ops;
    }

    // ---- replies ----

    /** `newconn` */
    method NewConn(env: Env)
      requires Valid()
      modifies this, queue, queue.Repr
      ensures Valid() && Now() == S.NewConn(old(Now()), env)
      ensures fresh(queue.Repr - old(queue.Repr))
      decreases Load(env), 7, 0
    {
      Queue(OpType("I"), env);
      Queue(OpPwd, env);
      Queue(OpList, env);
    }

    /** `cproc_pasv` */
    method CProcPasv(code: int, buf: string, line: Line)
      requires Valid()
      modifies `busy, `out, `past, `cproc, `data, `lis, `passive, `carried
      ensures Valid() && Now() == S.PasvReply(old(Now()), code, buf, line)
    {
      hide PasvEndpoint, S.FtpActive;
      if code == 227 {
        var addr := ParsePasv(buf);
        if addr.Some? && line.connects {
          data, carried := true, [];
          return;
        }
      }
      passive := false;
      var ok := FtpActive(line.listens);
    }

    /** `cproc_cwd` */
    method CProcCwd(code: int, env: Env) returns (res: int)
      requires Valid()
      modifies this, queue, queue.Repr
      ensures Valid() && res <= 0
      ensures Now() == if code == 250 then S.Submitted(old(Now()), [OpPwd, OpList], env) else old(Now())
      ensures fresh(queue.Repr - old(queue.Repr))
      decreases Load(env), 7, 0
    {
      if code != 250 {
        return -1;
      }
      Submitted([OpPwd, OpList], env);
      res := 0;
    }

    /** The installed handler's verdict on a reply; not positive means the command is done. */
    method CallCproc(code: int, buf: string, line: Line) returns (res: int)
      requires Valid() && cproc != CNull
      modifies this, queue, queue.Repr
      ensures Valid() && Now() == S.CallCproc(old(Now()), code, buf, line)
      ensures res <= 0 <==> Settles(old(cproc), code)
      ensures fresh(queue.Repr - old(queue.Repr))
      decreases Load(line.meets), 8, 0
    {
      match cproc {
        case CActive =>
          res := 0;
        case CPasv =>
          CProcPasv(code, buf, line);
          res := 0;
        case CPwd =>
          if code != 257 {
            return -1;
          }
          var dir := QuotedText(buf);
          if dir == None {
            return -1;
          }
          curdir := dir;
          res := 0;
        case CCwd =>
          res := CProcCwd(code, line.meets);
        case CList =>
          res := if code < 200 then 1 else 0;
        case CXfer(xfer) =>
          if code < 200 {
            return 1;
          }
          if code >= 400 {
            Done(xfer, line.submits, line.meets);
          }
          res := 0;
      }
    }

    /** Whether a well-behaved server may send such a line now. */
    method MaySend(code: int) returns (may: bool)
      requires Valid()
      ensures may == Legal(Now(), code)
    {
      if code < 200 {
        may := 100 <= code && greeted && out != [] && IsTransfer(out[0]);
      } else {
        may := code < 1000 && (greeted ==> out != []) && (cproc == CActive ==> code == 200);
      }
    }

    /** The server's side of a response line. */
    method TakeReply(code: int)
      requires Valid() && Legal(Now(), code)
      modifies `greeted, `out, `past
      ensures Valid() && Now() == S.TakeReply(old(Now()), code)
    {
      hide OpQueue.Valid, OpQueue.Contents, OwnHandler, IsTransfer;
      if !greeted {
        greeted := true;
      } else if code >= 200 {
        var own := out[0] == CmdType || cproc == OwnHandler(out[0]);
        out := out[1..];
        past := past.(answered := past.answered + 1, misheard := past.misheard + if own then 0 else 1);
      }
    }

    /** `proc_control` on a line with a code */
    method ProcControl(code: int, buf: string, line: Line)
      requires Valid() && Legal(Now(), code)
      modifies this, queue, queue.Repr
      ensures Valid() && Now() == S.ProcControl(old(Now()), code, buf, line)
      ensures fresh(queue.Repr - old(queue.Repr))
      decreases Load(line.meets), 10, 0
    {
      hide S.TakeReply, S.Answered, OwnHandler, Legal;
      SetInLine(true);
      assert Legal(Now(), code) by {
        SameLegal(old(Now()), Now(), code);
      }
      TakeReply(code);
      Answer(code, buf, line);
      SetInLine(old(past).inLine);
    }

    method Answer(code: int, buf: string, line: Line)
      requires Valid()
      modifies this, queue, queue.Repr
      ensures Valid() && Now() == S.Answered(old(Now()), code, buf, line)
      ensures fresh(queue.Repr - old(queue.Repr))
      decreases Load(line.meets), 9, 1
    {
      hide S.Dispatch, S.Login;
      if cproc != CNull {
        Dispatch(code, buf, line);
      } else {
        Login(code, line.meets);
      }
    }

    lemma SameLegal(s: Client, t: Client, code: int)
      requires Legal(s, code) && t == s.(past := t.past)
      ensures Legal(t, code)
    {
    }

    ghost method SetInLine(b: bool)
      requires Valid()
      modifies `past
      ensures Valid() && Now() == old(Now()).(past := old(Now()).past.(inLine := b))
    {
      hide OpQueue.Valid, OpQueue.Contents;
      past := past.(inLine := b);
    }

    /** The part of `proc_control` for an installed handler. */
    method Dispatch(code: int, buf: string, line: Line)
      requires Valid() && cproc != CNull
      modifies this, queue, queue.Repr
      ensures Valid() && Now() == S.Dispatch(old(Now()), code, buf, line)
      ensures fresh(queue.Repr - old(queue.Repr))
      decreases Load(line.meets), 9, 0
    {
      var res := CallCproc(code, buf, line);
      if res <= 0 {
        busy := busy - 1;
      }
    }

    /** The part of `proc_control` for the time before a handler is installed. */
    method Login(code: int, env: Env)
      requires Valid()
      modifies this, queue, queue.Repr
      ensures Valid() && Now() == S.Login(old(Now()), code, env)
      ensures fresh(queue.Repr - old(queue.Repr))
      decreases Load(env), 9, 0
    {
      busy := 0;
      if code == 220 {
        SendCmd(CmdUser);
      } else if code == 331 {
        SendCmd(CmdPass);
      } else if code == 230 {
        NewConn(env);
      }
    }

    /** `handle_control`, on the lines that `FtpFraming` cuts from the received bytes */
    method HandleControl(lines: seq<Line>)
      requires Valid()
      modifies this, queue, queue.Repr
      ensures Valid() && Now() == S.HandleControl(old(Now()), lines)
      ensures fresh(queue.Repr - old(queue.Repr))
      decreases LinesLoad(lines), 13, 0
    {
      past := past.(reentered := past.reentered || past.inLine);
      ghost var start := Now();
      for i := 0 to |lines|
        invariant Valid() && Now() == S.TakeLines(start, lines[..i])
        invariant fresh(queue.Repr - old(queue.Repr))
      {
        assert lines[..i + 1][..i] == lines[..i];
        assert Load(lines[i].meets) <= LinesLoad(lines);
        TakeLine(lines[i]);
      }
      assert lines[..|lines|] == lines;
    }

    /** The beginning of `proc_control`: blanks are skipped, and lines without a code ignored. */
    method TakeLine(line: Line)
      requires Valid()
      modifies this, queue, queue.Repr
      ensures Valid() && Now() == S.TakeLine(old(Now()), line)
      ensures fresh(queue.Repr - old(queue.Repr))
      decreases Load(line.meets), 11, 0
    {
      var buf := SkipSpaces(line.text);
      var code := RespCode(buf);
      if code <= 0 {
        return;
      }
      var may := MaySend(code);
      if may {
        ProcControl(code, buf, line);
      }
    }

    // ---- data ----

    /** The end-of-data call of the installed data handler, and the close that follows it. */
    method DataEnd(submits: seq<Op>, env: Env)
      requires Valid() && carried != []
      modifies this, queue, queue.Repr
      ensures Valid() && Now() == S.DataEnd(old(Now()), submits, env)
      ensures fresh(queue.Repr - old(queue.Repr))
      decreases Load(env), 8, 0
    {
      hide S.Done, S.CloseData, OwnReceiver;
      ghost var own := IsTransfer(carried[0]) && dproc == OwnReceiver(carried[0]);
      match dproc {
        case DNull =>
          CloseData(0, own);
        case DList =>
          dproc := DNull;
          CloseData(1, own);
        case DXfer(xfer) =>
          Done(xfer, submits, env);
          CloseData(1, own);
      }
    }

    /** Lowers `busy` if a handler was there, and closes the data connection. */
    method CloseData(n: nat, ghost own: bool)
      requires Valid()
      modifies `busy, `data, `carried, `past
      ensures Valid() && Now() == S.CloseData(old(Now()), n, own)
    {
      hide OpQueue.Valid, OpQueue.Contents;
      CountEnd(n, own);
      data, carried := false, [];
    }

    method CountEnd(n: nat, ghost own: bool)
      requires Valid()
      modifies `busy, `past
      ensures Valid() && Now() == S.CountEnd(old(Now()), n, own)
    {
      hide OpQueue.Valid, OpQueue.Contents;
      busy := busy - n;
      past := past.(ends := past.ends + n, misled := past.misled + if own then 0 else 1);
    }

    /** `handle_data`: at most four reads */
    method HandleData(packets: seq<Packet>)
      requires Valid()
      modifies this, queue, queue.Repr
      ensures Valid() && Now() == S.HandleData(old(Now()), packets, 4)
      ensures fresh(queue.Repr - old(queue.Repr))
      decreases PacketsLoad(packets), 9, 4
    {
      if !data {
        return;
      }
      var i := 0;
      assert packets[0..] == packets;
      while i < 4 && i < |packets|
        invariant 0 <= i <= 4 && i <= |packets| && Valid() && data
        invariant Now() == old(Now()) && fresh(queue.Repr - old(queue.Repr))
        invariant S.HandleData(old(Now()), packets, 4) == S.HandleData(old(Now()), packets[i..], 4 - i)
      {
        assert packets[i..][1..] == packets[i + 1..];
        if packets[i].Eof? && carried != [] {
          assert Load(packets[i].meets) <= PacketsLoad(packets);
          DataEnd(packets[i].submits, packets[i].meets);
          return;
        }
        i := i + 1;
      }
    }

    // ---- events ----

    /** `ftp_handle` */
    method Handle(event: Event, env: Env)
      requires Valid()
      modifies this, queue, queue.Repr
      ensures Valid() && Now() == S.Handle(old(Now()), event, env)
      ensures fresh(queue.Repr - old(queue.Repr))
      decreases EventLoad(event) + Load(env), 15, 0
    {
      hide S.TakeEvent, S.ExecQueued;
      TakeEvent(event);
      if busy <= 0 {
        ClampBusy();
        ExecQueued(env);
      }
    }

    /** The assertion that `busy` is not negative, and the reset behind it. */
    method ClampBusy()
      requires Valid()
      modifies `busy, `past
      ensures Valid()
      ensures var s := old(Now()); Now() == s.(busy := 0, past := s.past.(negative := s.past.negative || s.busy < 0))
    {
      hide OpQueue.Valid, OpQueue.Contents;
      past := past.(negative := past.negative || busy < 0);
      busy := 0;
    }

    /** The part of `ftp_handle` that depends on the socket. */
    method TakeEvent(event: Event)
      requires Valid()
      modifies this, queue, queue.Repr
      ensures Valid() && Now() == S.TakeEvent(old(Now()), event)
      ensures fresh(queue.Repr - old(queue.Repr))
      decreases EventLoad(event), 14, 0
    {
      hide S.HandleControl, S.HandleData;
      match event {
        case Control(lines) =>
          HandleControl(lines);
        case DataReady(packets) =>
          HandleData(packets);
        case Incoming(accepted) =>
          if lis && !data {
            data, carried := accepted, [];
          }
      }
    }

    /** One thing that happens to the client. */
    method Take(input: Input)
      requires Valid()
      modifies this, queue, queue.Repr
      ensures Valid() && Now() == S.Step(old(Now()), input)
      ensures old(FtpInvariant.Settled(Now())) ==> FtpInvariant.Settled(Now())
      ensures fresh(queue.Repr - old(queue.Repr))
    {
      hide FtpInvariant.Settled, S.Queue, S.Handle;
      ghost var was := Now();
      if FtpInvariant.Settled(was) {
        FtpInvariant.StepKeeps(was, input);
      }
      match input {
        case Submit(op, env) =>
          if greeted {
            Queue(op, env);
          }
        case Happens(event, env) =>
          Handle(event, env);
      }
    }

    /** Any run of a new client. */
    method Session(inputs: seq<Input>)
      requires Valid() && Now() == UNUSED
      modifies this, queue, queue.Repr
      ensures Valid() && Now() == S.Run(UNUSED, inputs)
      ensures !past.negative && !past.reentered
      ensures greeted ==> 0 <= busy == |out| + past.begun - past.ends
      ensures past.submitted == past.started + queue.Contents()
      ensures !past.overlapped ==> |out| <= 1 && past.misheard == past.misled == 0
      ensures fresh(queue.Repr - old(queue.Repr))
    {
      for i := 0 to |inputs|
        invariant Valid() && Now() == S.Run(UNUSED, inputs[..i])
        invariant fresh(queue.Repr - old(queue.Repr))
      {
        assert inputs[..i + 1][..i] == inputs[..i];
        Take(inputs[i]);
      }
      assert inputs[..|inputs|] == inputs;
      FtpOverlap.EveryRun(inputs);
    }
  }
}
