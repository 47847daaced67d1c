/**
 What the FTP client engine does, as functions on its state. Everything that the server,
 the sockets and the user decide is an argument; the methods of the client compute
 exactly these functions.
 */
module FtpSteps {
  import opened Ctype
  import opened Options
  import opened FtpQueue
  import opened FtpReply
  import opened FtpAddress

  datatype Command = CmdUser | CmdPass | CmdType | CmdPwd | CmdCwd | CmdPasv | CmdPort | CmdList | CmdRetr(xfer: nat)

  /** Installed handler of control replies; that of a transfer knows which one. */
  datatype CProc = CNull | CActive | CPasv | CPwd | CCwd | CList | CXfer(xfer: nat)

  /** Installed handler of data. */
  datatype DProc = DNull | DList | DXfer(xfer: nat)

  predicate IsTransfer(c: Command) {
    c.CmdList? || c.CmdRetr?
  }

  /** The handler that the sender of a command installs; TYPE installs none. */
  function OwnHandler(c: Command): CProc
    requires c != CmdType
  {
    match c
    case CmdUser => CNull
    case CmdPass => CNull
    case CmdPwd => CPwd
    case CmdCwd => CCwd
    case CmdPasv => CPasv
    case CmdPort => CActive
    case CmdList => CList
    case CmdRetr(xfer) => CXfer(xfer)
  }

  /** The handler for the data that a transfer command asks for. */
  function OwnReceiver(c: Command): DProc
    requires IsTransfer(c)
  {
    if c.CmdList? then DList else DXfer(c.xfer)
  }

  /**
   A received response line, whether `connect` and the listening socket work for it, what a
   callback submits, and what an operation would meet that was started because of it.
   */
  datatype Line = Line(text: string, connects: bool, listens: bool, submits: seq<Op>, meets: Env)

  /** One read of the data connection, and what an operation would meet that was started because of it. */
  datatype Packet = Bytes | Eof(submits: seq<Op>, meets: Env)

  datatype Event = Control(lines: seq<Line>) | DataReady(packets: seq<Packet>) | Incoming(accepted: bool)

  /**
   What an operation that starts now meets: whether a listening socket can be had, and if
   it waits for a reply, the lines that wake it and what the operation started then meets.
   */
  datatype Env = Quiet(listens: bool) | Wakes(listens: bool, lines: seq<Line>, inner: Env)

  /** How much can still happen in the waits of an operation. */
  function Load(env: Env): nat {
    match env
    case Quiet(_) => 0
    case Wakes(_, lines, inner) => 1 + LinesLoad(lines) + Load(inner)
  }

  function LinesLoad(lines: seq<Line>): (n: nat)
    ensures forall i | 0 <= i < |lines| :: Load(lines[i].meets) <= n
  {
    if lines == [] then 0 else LinesLoad(lines[..|lines| - 1]) + Load(lines[|lines| - 1].meets)
  }

  function PacketsLoad(packets: seq<Packet>): (n: nat)
    ensures forall i | 0 <= i < |packets| && packets[i].Eof? :: Load(packets[i].meets) <= n
  {
    if packets == [] then 0
    else (if packets[0].Eof? then Load(packets[0].meets) else 0) + PacketsLoad(packets[1..])
  }

  function EventLoad(event: Event): nat {
    match event
    case Control(lines) => LinesLoad(lines)
    case DataReady(packets) => PacketsLoad(packets)
    case Incoming(_) => 0
  }

  /** Something happens to the client, between other things that happen. */
  datatype Input = Submit(op: Op, env: Env) | Happens(event: Event, env: Env)

  datatype Client = Client(
    // The client.
    busy: int,
    passive: bool,
    cproc: CProc,
    dproc: DProc,
    /** The data and listening sockets are open. */
    data: bool,
    lis: bool,
    curdir: Option<string>,
    queue: seq<Op>,
    // The server.
    /** The greeting has been handled. */
    greeted: bool,
    /** Commands without a final reply, oldest first. */
    out: seq<Command>,
    /** Transfer commands sent while the present data connection was open, oldest first. */
    carried: seq<Command>,
    past: Past)

  /** History and context. */
  datatype Past = Past(
    /** Commands ever sent, transfer commands among them, final replies received, and data ends handled. */
    issued: nat,
    begun: nat,
    answered: nat,
    ends: nat,
    submitted: seq<Op>,
    started: seq<Op>,
    /** A response line is being handled. */
    inLine: bool,
    /** A data operation is waiting for its PASV reply. */
    waiting: bool,
    /** Some operation was started inside such a wait. */
    overlapped: bool,
    /** Final replies (to TYPE aside) that met another handler than their command's own. */
    misheard: nat,
    /** Ends of data that met another handler than that of the command they belong to. */
    misled: nat,
    /** Transfers whose completion callback was called, in order. */
    completed: seq<nat>,
    /** `handle_control` was entered during a response line. */
    reentered: bool,
    /** `busy` was below zero where `ftp_handle` asserts that it is not. */
    negative: bool)

  const UNUSED := Client(0, true, CNull, DNull, false, false, None, [], false, [], [],
                         Past(0, 0, 0, 0, [], [], false, false, false, 0, 0, [], false, false))

  // ---- commands ----

  /** `sendcmd` on an open control connection */
  function SendCmd(s: Client, c: Command): Client {
    s.(busy := s.busy + 1,
       out := s.out + [c],
       past := s.past.(issued := s.past.issued + 1,
                       begun := s.past.begun + if IsTransfer(c) then 1 else 0))
  }

  predicate IsTypeArg(arg: string) {
    arg != "" && arg[0] in "iIaA"
  }

  /** `ftp_type` */
  function FtpType(s: Client, arg: string): Client {
    if IsTypeArg(arg) then SendCmd(s, CmdType) else s
  }

  /** `ftp_pwd` */
  function FtpPwd(s: Client): Client {
    SendCmd(s, CmdPwd).(cproc := CPwd)
  }

  /** `ftp_chdir` */
  function FtpChdir(s: Client): Client {
    SendCmd(s, CmdCwd).(cproc := CCwd)
  }

  /** `ftp_active` */
  function FtpActive(s: Client, listens: bool): Client {
    var t := s.(lis := false, data := false);
    if listens then SendCmd(t.(lis := true), CmdPort).(cproc := CActive) else t
  }

  /** `ftp_passive` */
  function FtpPassive(s: Client): Client {
    SendCmd(s.(lis := false, data := false), CmdPasv).(cproc := CPasv)
  }

  // ---- operations ----

  /** The operation counts as started. */
  function Begin(s: Client, op: Op): Client {
    s.(past := s.past.(started := s.past.started + [op], overlapped := s.past.overlapped || s.past.waiting))
  }

  /** The operations that send at most one command and install its handler. */
  function CommandOp(s: Client, op: Op): Client
    requires !op.OpList? && !op.OpXfer?
  {
    match op
    case OpType(arg) => FtpType(s, arg)
    case OpPwd => FtpPwd(s)
    case OpChdir(_) => FtpChdir(s)
    case OpCdup => FtpChdir(s)
    case OpStub => s
  }

  /** The transfer command goes out and its handlers go in. */
  function StartTransfer(s: Client, c: Command): Client
    requires IsTransfer(c)
  {
    var t := SendCmd(s, c);
    t.(carried := t.carried + [c], cproc := OwnHandler(c), dproc := OwnReceiver(c), busy := t.busy + 1)
  }

  /** `exec_op` */
  function ExecOp(s: Client, op: Op, env: Env): Client
    decreases Load(env), 4, 0
  {
    var t := Begin(s, op);
    match op
    case OpList => DataOp(t, CmdList, env)
    case OpXfer(xfer, retr) => if retr then DataOp(t, CmdRetr(xfer), env) else PrepareData(t, env)
    case _ => CommandOp(t, op)
  }

  /** `ftp_list`, and `ftp_transfer` for a download */
  function DataOp(s: Client, c: Command, env: Env): Client
    requires IsTransfer(c)
    decreases Load(env), 3, 0
  {
    var t := PrepareData(s, env);
    if t.data then StartTransfer(t, c) else t
  }

  /** `prepare_data`; it succeeds if the data connection is open then. */
  function PrepareData(s: Client, env: Env): Client
    decreases Load(env), 2, 0
  {
    if s.data then s
    else if s.passive then WaitResp(FtpPassive(s), env)
    else FtpActive(s, env.listens)
  }

  /** `ftp_waitresp`: at most one readable event of the control connection is handled. */
  function WaitResp(s: Client, env: Env): Client
    decreases Load(env), 1, 0
  {
    match env
    case Quiet(_) => s
    case Wakes(_, lines, inner) =>
      var t := Handle(s.(past := s.past.(waiting := true)), Control(lines), inner);
      t.(past := t.past.(waiting := s.past.waiting))
  }

  // ---- the queue ----

  /** `exec_queued` */
  function ExecQueued(s: Client, env: Env): Client
    decreases Load(env), 5, 0
  {
    if s.queue == [] then s else ExecOp(s.(queue := s.queue[1..]), s.queue[0], env)
  }

  /** `ftp_queue` and `ftp_queue_transfer`: run at once if idle, or else wait in line. */
  function Queue(s: Client, op: Op, env: Env): Client
    decreases Load(env), 5, 0
  {
    var t := s.(past := s.past.(submitted := s.past.submitted + [op]));
    if s.busy == 0 && s.queue == [] then ExecOp(t, op, env) else t.(queue := t.queue + [op])
  }

  /** What a callback of the user submits. */
  function Submitted(s: Client, ops: seq<Op>, env: Env): Client
    decreases Load(env), 6, |ops|
  {
    if ops == [] then s else Queue(Submitted(s, ops[..|ops| - 1], env), ops[|ops| - 1], env)
  }

  /** The completion callback of a transfer is called. */
  function Done(s: Client, xfer: nat, ops: seq<Op>, env: Env): Client
    decreases Load(env), 7, 0
  {
    Submitted(s.(past := s.past.(completed := s.past.completed + [xfer])), ops, env)
  }

  // ---- replies ----

  /** `newconn` */
  function NewConn(s: Client, env: Env): Client
    decreases Load(env), 7, 0
  {
    Queue(Queue(Queue(s, OpType("I"), env), OpPwd, env), OpList, env)
  }

  /** `cproc_pasv`: an unusable reply, or a failing connection, turns to PORT. */
  function PasvReply(s: Client, code: int, buf: string, line: Line): Client {
    if code == 227 && PasvEndpoint(buf).Some? && line.connects then s.(data := true, carried := [])
    else FtpActive(s.(passive := false), line.listens)
  }

  /** What the installed handler does with a reply, `busy` aside. */
  function CallCproc(s: Client, code: int, buf: string, line: Line): Client
    decreases Load(line.meets), 8, 0
  {
    match s.cproc
    case CPasv => PasvReply(s, code, buf, line)
    case CPwd => if code == 257 && QuotedText(buf).Some? then s.(curdir := QuotedText(buf)) else s
    case CCwd => if code == 250 then Submitted(s, [OpPwd, OpList], line.meets) else s
    case CXfer(xfer) => if code >= 400 then Done(s, xfer, line.submits, line.meets) else s
    case _ => s
  }

  /** The handler does not expect more replies to the command. */
  predicate Settles(cp: CProc, code: int) {
    !(code < 200 && (cp.CList? || cp.CXfer?))
  }

  /**
   The lines a well-behaved server may send now; a final reply other than 200 that the handler
   of PORT hears would close the connection.
   */
  predicate Legal(s: Client, code: int) {
    if code < 200 then 100 <= code && s.greeted && s.out != [] && IsTransfer(s.out[0])
    else code < 1000 && (s.greeted ==> s.out != []) && (s.cproc == CActive ==> code == 200)
  }

  /** A response line arrives: the greeting, a preliminary reply, or the final reply to the oldest command. */
  function TakeReply(s: Client, code: int): Client
    requires Legal(s, code)
  {
    if !s.greeted then s.(greeted := true)
    else if code < 200 then s
    else
      var own := s.out[0] == CmdType || s.cproc == OwnHandler(s.out[0]);
      s.(out := s.out[1..],
         past := s.past.(answered := s.past.answered + 1, misheard := s.past.misheard + if own then 0 else 1))
  }

  /** The part of `proc_control` for an installed handler: its verdict settles `busy`. */
  function Dispatch(s: Client, code: int, buf: string, line: Line): Client
    decreases Load(line.meets), 9, 0
  {
    var t := CallCproc(s, code, buf, line);
    if Settles(s.cproc, code) then t.(busy := t.busy - 1) else t
  }

  /** The part of `proc_control` for the time before a handler is installed. */
  function Login(s: Client, code: int, env: Env): Client
    decreases Load(env), 9, 0
  {
    var t := s.(busy := 0);
    if code == 220 then SendCmd(t, CmdUser)
    else if code == 331 then SendCmd(t, CmdPass)
    else if code == 230 then NewConn(t, env)
    else t
  }

  /** `proc_control` on a line with a code */
  function ProcControl(s: Client, code: int, buf: string, line: Line): Client
    requires Legal(s, code)
    decreases Load(line.meets), 10, 0
  {
    var t := Answered(TakeReply(s.(past := s.past.(inLine := true)), code), code, buf, line);
    t.(past := t.past.(inLine := s.past.inLine))
  }

  function Answered(s: Client, code: int, buf: string, line: Line): Client
    decreases Load(line.meets), 9, 1
  {
    if s.cproc != CNull then Dispatch(s, code, buf, line) else Login(s, code, line.meets)
  }

  /** A line without a code, a continuation, or one that no well-behaved server sends, changes nothing. */
  function TakeLine(s: Client, line: Line): Client
    decreases Load(line.meets), 11, 0
  {
    var buf := SkipSpaces(line.text);
    var code := RespCode(buf);
    if code > 0 && Legal(s, code) then ProcControl(s, code, buf, line) else s
  }

  function TakeLines(s: Client, lines: seq<Line>): Client
    decreases LinesLoad(lines), 12, |lines|
  {
    if lines == [] then s else TakeLine(TakeLines(s, lines[..|lines| - 1]), lines[|lines| - 1])
  }

  /** `handle_control` */
  function HandleControl(s: Client, lines: seq<Line>): Client
    decreases LinesLoad(lines), 13, 0
  {
    TakeLines(s.(past := s.past.(reentered := s.past.reentered || s.past.inLine)), lines)
  }

  // ---- data ----

  /** The end-of-data call of the installed data handler, and the close that follows it. */
  function DataEnd(s: Client, submits: seq<Op>, env: Env): Client
    requires s.carried != []
    decreases Load(env), 8, 0
  {
    var t := match s.dproc
      case DNull => s
      case DList => s.(dproc := DNull)
      case DXfer(xfer) => Done(s, xfer, submits, env);
    var own := IsTransfer(s.carried[0]) && s.dproc == OwnReceiver(s.carried[0]);
    CloseData(t, if s.dproc == DNull then 0 else 1, own)
  }

  /** The data connection is closed after its end was counted, or not if no handler was there. */
  function CloseData(s: Client, n: nat, own: bool): Client {
    CountEnd(s, n, own).(data := false, carried := [])
  }

  function CountEnd(s: Client, n: nat, own: bool): Client {
    s.(busy := s.busy - n,
       past := s.past.(ends := s.past.ends + n, misled := s.past.misled + if own then 0 else 1))
  }

  /** `handle_data`: at most `n` reads; the server ends a connection only after a transfer command for it. */
  function HandleData(s: Client, packets: seq<Packet>, n: nat): Client
    decreases PacketsLoad(packets), 9, n
  {
    if !s.data || packets == [] || n == 0 then s
    else if packets[0].Eof? && s.carried != [] then DataEnd(s, packets[0].submits, packets[0].meets)
    else HandleData(s, packets[1..], n - 1)
  }

  // ---- events ----

  /** The part of `ftp_handle` that depends on the socket. */
  function TakeEvent(s: Client, event: Event): Client
    decreases EventLoad(event), 14, 0
  {
    match event
    case Control(lines) => HandleControl(s, lines)
    case DataReady(packets) => HandleData(s, packets, 4)
    case Incoming(accepted) => if s.lis && !s.data then s.(data := accepted, carried := []) else s
  }

  /** `ftp_handle` */
  function Handle(s: Client, event: Event, env: Env): Client
    decreases EventLoad(event) + Load(env), 15, 0
  {
    var t := TakeEvent(s, event);
    if t.busy <= 0 then
      ExecQueued(t.(busy := 0, past := t.past.(negative := t.past.negative || t.busy < 0)), env)
    else t
  }

  /** Nothing is submitted before the greeting is handled. */
  function Step(s: Client, input: Input): Client {
    match input
    case Submit(op, env) => if s.greeted then Queue(s, op, env) else s
    case Happens(event, env) => Handle(s, event, env)
  }

  /** A whole run of the client. */
  function Run(s: Client, inputs: seq<Input>): Client
    decreases |inputs|
  {
    if inputs == [] then s else Step(Run(s, inputs[..|inputs| - 1]), inputs[|inputs| - 1])
  }
}
