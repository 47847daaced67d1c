/**
 The course of a session, input by input: the login, whatever the user submits meanwhile, the
 first directory, and the first listing.
 */
module FtpLogin {
  import opened Ctype
  import opened FtpAddress
  import opened FtpInvariant
  import opened FtpLaws
  import opened FtpOverlap
  import opened FtpQueue
  import opened FtpReply
  import opened FtpSteps
  import opened Seqs

  // ---- up to the first operation ----

  const LOGIN: seq<Input> := [Hears(Reply(220), QUIET), Hears(Reply(331), QUIET), Hears(Reply(230), QUIET)]

  const TYPE_I: Op := OpType("I")

  const GREETED: Client := UNUSED.(greeted := true, busy := 1, out := [CmdUser], past := UNUSED.past.(issued := 1))

  const NAMED: Client := GREETED.(out := [CmdPass], past := GREETED.past.(issued := 2, answered := 1))

  /** The client while the reply that ends the login is handled. */
  const AT_LOGIN: Client := NAMED.(busy := 0, out := [], past := NAMED.past.(answered := 2, inLine := true))

  const LOGGED_IN: Client :=
    NAMED.(out := [CmdType], queue := [OpPwd, OpList],
           past := NAMED.past.(issued := 3, answered := 2, submitted := [TYPE_I, OpPwd, OpList], started := [TYPE_I]))

  lemma Step0()
    ensures Step(UNUSED, Hears(Reply(220), QUIET)) == GREETED
  {
    ReplyIs(220);
    hide RespCode, SkipSpaces, Reply;
    assert ProcControl(UNUSED, 220, Reply(220).text, Reply(220)) == GREETED;
    OneLine(UNUSED, Reply(220), 220, Reply(220).text, QUIET);
  }

  lemma PassSent(buf: string, line: Line)
    ensures ProcControl(GREETED, 331, buf, line) == NAMED
  {
    LoginReply(GREETED, 331, buf, line);
    hide ProcControl;
    assert GREETED.out[1..] == [];
  }

  lemma Step1()
    ensures Step(GREETED, Hears(Reply(331), QUIET)) == NAMED
  {
    ReplyIs(331);
    PassSent(Reply(331).text, Reply(331));
    assert Legal(GREETED, 331);
    hide RespCode, SkipSpaces, Reply, ProcControl, Step, Legal;
    OneLine(GREETED, Reply(331), 331, Reply(331).text, QUIET);
  }

  lemma Step2()
    ensures Step(NAMED, Hears(Reply(230), QUIET)) == LOGGED_IN
  {
    ReplyIs(230);
    hide RespCode, SkipSpaces, Reply, ProcControl;
    LoginEnds(Reply(230).text, Reply(230));
    OneLine(NAMED, Reply(230), 230, Reply(230).text, QUIET);
  }

  lemma LoginEnds(buf: string, line: Line)
    ensures ProcControl(NAMED, 230, buf, line) == LOGGED_IN
  {
    LoginReply(NAMED, 230, buf, line);
    hide NewConn, ProcControl;
    TypeStarts(line.meets);
    assert [CmdPass][1..] == [];
    var h := Heard(NAMED, 230);
    assert h.(busy := 0) == AT_LOGIN;
    hide Heard;
    assert Login(h, 230, line.meets) == NewConn(AT_LOGIN, line.meets);
  }

  /** Of what login submits TYPE starts, and the others wait in line. */
  lemma TypeStarts(env: Env)
    ensures NewConn(AT_LOGIN, env) == LOGGED_IN.(past := LOGGED_IN.past.(inLine := true))
  {
    var s := AT_LOGIN.(past := AT_LOGIN.past.(submitted := [TYPE_I]));
    var t := Begin(s, TYPE_I);
    assert [] + [TYPE_I] == [TYPE_I] && [] + [CmdType] == [CmdType];
    assert IsTypeArg("I");
    var u := s.(busy := 1, out := [CmdType], past := s.past.(started := [TYPE_I], issued := 3));
    assert Queue(AT_LOGIN, TYPE_I, env) == ExecOp(s, TYPE_I, env) == FtpType(t, "I") == u;
    hide ExecOp;
    assert [TYPE_I] + [OpPwd] == [TYPE_I, OpPwd] && [] + [OpPwd] == [OpPwd];
    var v := u.(queue := [OpPwd], past := u.past.(submitted := [TYPE_I, OpPwd]));
    assert Queue(u, OpPwd, env) == v;
    assert [TYPE_I, OpPwd] + [OpList] == [TYPE_I, OpPwd, OpList] && [OpPwd] + [OpList] == [OpPwd, OpList];
    assert Queue(v, OpList, env) == LOGGED_IN.(past := LOGGED_IN.past.(inLine := true));
  }

  lemma LoggedIn()
    ensures Run(UNUSED, LOGIN) == LOGGED_IN
  {
    Step0(); Step1(); Step2();
    var inputs := LOGIN;
    hide Step, Reply, Hears;
    assert inputs[..2] == [inputs[0], inputs[1]] && inputs[..2][..1] == [inputs[0]] && inputs[..1][..0] == [];
    assert Run(UNUSED, inputs[..1][..0]) == UNUSED;
    assert Run(UNUSED, inputs[..1]) == GREETED by {
      assert inputs[..1] == [inputs[0]];
    }
    assert Run(UNUSED, inputs[..2]) == NAMED by {
      assert inputs[..2][..1] == inputs[..1];
    }
  }

  // ---- what the user submits meanwhile ----

  function Submits(ops: seq<Op>): (inputs: seq<Input>)
    ensures |inputs| == |ops|
  {
    seq(|ops|, i requires 0 <= i < |ops| => Submit(ops[i], QUIET))
  }

  /** All of it is put in line. */
  lemma {:induction false} AllLined(ops: seq<Op>)
    ensures Run(LOGGED_IN, Submits(ops)) == Lined(LOGGED_IN, ops)
    decreases |ops|
  {
    if ops == [] {
      LinedNone(LOGGED_IN);
    } else {
      var init, op := ops[..|ops| - 1], ops[|ops| - 1];
      AllLined(init);
      assert Submits(ops)[..|ops| - 1] == Submits(init);
      var s := Lined(LOGGED_IN, init);
      assert s.busy == 1 && s.greeted;
      assert Step(s, Submit(op, QUIET)) == Lined(s, [op]);
      LinedTwice(LOGGED_IN, init, [op]);
      assert ops == init + [op];
    }
  }

  // ---- the first directory ----

  /** TYPE is answered, and PWD is out. */
  function PwdOut(ops: seq<Op>): Client {
    var s := Lined(LOGGED_IN, ops);
    s.(cproc := CPwd, out := [CmdPwd], queue := [OpList] + ops,
       past := s.past.(issued := 4, answered := 3, started := [TYPE_I, OpPwd]))
  }

  lemma TypeAnswered(s: Client)
    requires s.greeted && s.out == [CmdType] && s.cproc == CNull && !s.past.inLine && Legal(s, 200)
    ensures Step(s, Hears(Reply(200), QUIET))
         == ExecQueued(TypeDone(s), QUIET)
  {
    var line := Reply(200);
    var t := TypeDone(s);
    ReplyIs(200);
    LoginReply(s, 200, line.text, line);
    assert s.out[1..] == [];
    assert ProcControl(s, 200, line.text, line) == t;
    hide RespCode, SkipSpaces, Reply, ProcControl, ExecQueued, Legal, Step, Hears;
    IdleLine(s, line, 200, line.text, QUIET, t);
  }

  /** TYPE is answered, and nothing has been started since. */
  function TypeDone(s: Client): Client {
    s.(busy := 0, out := [], past := s.past.(answered := s.past.answered + 1))
  }

  lemma PwdNext(ops: seq<Op>)
    ensures Step(Lined(LOGGED_IN, ops), Hears(Reply(200), QUIET)) == PwdOut(ops)
  {
    hide *;
    AskedFacts(ops);
    var s := Lined(LOGGED_IN, ops);
    TypeAnswered(s);
    PwdTaken(TypeDone(s), [OpList] + ops);
    PwdOutIs(ops);
  }

  lemma AskedFacts(ops: seq<Op>)
    ensures var s := Lined(LOGGED_IN, ops);
            && s.greeted && s.out == [CmdType] && s.cproc == CNull && !s.past.inLine && Legal(s, 200)
            && TypeDone(s).queue == [OpPwd] + ([OpList] + ops) && TypeDone(s).out == [] && TypeDone(s).busy == 0
            && !TypeDone(s).past.waiting
  {
    Assoc([OpPwd], [OpList], ops);
    assert [OpPwd] + [OpList] == [OpPwd, OpList];
  }

  lemma PwdOutIs(ops: seq<Op>)
    ensures var t := TypeDone(Lined(LOGGED_IN, ops));
            PwdOut(ops) == PwdSent(t, [OpList] + ops)
  {
    assert [TYPE_I] + [OpPwd] == [TYPE_I, OpPwd];
  }

  /** PWD is taken from the queue and sent. */
  function PwdSent(t: Client, more: seq<Op>): Client {
    t.(busy := 1, cproc := CPwd, out := [CmdPwd], queue := more,
       past := t.past.(issued := t.past.issued + 1, started := t.past.started + [OpPwd]))
  }

  /** PWD is first in line. */
  lemma PwdTaken(t: Client, more: seq<Op>)
    requires t.queue == [OpPwd] + more && t.out == [] && t.busy == 0 && !t.past.waiting
    ensures ExecQueued(t, QUIET) == PwdSent(t, more)
  {
    var b := Begin(t.(queue := more), OpPwd);
    assert t.queue[1..] == more;
    NilAppend([CmdPwd]);
    assert ExecQueued(t, QUIET) == ExecOp(t.(queue := more), OpPwd, QUIET) == FtpPwd(b);
    hide ExecQueued, ExecOp;
  }

  /** The run until PWD is out. */
  function UntilPwd(ops: seq<Op>): seq<Input> {
    LOGIN + Submits(ops) + [Hears(Reply(200), QUIET)]
  }

  lemma PwdIsOut(ops: seq<Op>)
    ensures Run(UNUSED, UntilPwd(ops)) == PwdOut(ops)
  {
    LoggedIn();
    AllLined(ops);
    PwdNext(ops);
    hide *;
    RunTwice(UNUSED, LOGIN, Submits(ops));
    RunOne(Lined(LOGGED_IN, ops), Hears(Reply(200), QUIET));
    RunTwice(UNUSED, LOGIN + Submits(ops), [Hears(Reply(200), QUIET)]);
    UntilPwdIs(ops);
  }

  lemma UntilPwdIs(ops: seq<Op>)
    ensures UntilPwd(ops) == LOGIN + Submits(ops) + [Hears(Reply(200), QUIET)]
  {
  }

  // ---- the first listing ----

  /** The line is a reply to PWD. */
  predicate Names(line: Line) {
    RespCode(SkipSpaces(line.text)) == 257
  }

  /** The client when LIST is taken from the queue; the reply to PWD has named the directory. */
  function AtList(ops: seq<Op>, line: Line): Client {
    PwdOut(ops).(busy := 0, out := [], queue := ops, curdir := QuotedText(SkipSpaces(line.text)),
                 past := PwdOut(ops).past.(answered := 4))
  }

  lemma PwdAnswered(ops: seq<Op>, line: Line)
    ensures var s := AtList(ops, line);
            ProcControl(PwdOut(ops), 257, SkipSpaces(line.text), line) == s.(queue := [OpList] + ops)
  {
    hide QuotedText, SkipSpaces;
    FinalReply(PwdOut(ops), 257, SkipSpaces(line.text), line);
    hide ProcControl;
    assert PwdOut(ops).out[1..] == [];
  }

  /** The reply to PWD comes, and LIST is what the client starts next. */
  lemma ListStarts(ops: seq<Op>, line: Line, env: Env)
    requires Names(line)
    ensures Step(PwdOut(ops), Hears(line, env)) == ExecOp(AtList(ops, line), OpList, env)
    ensures MayStart(AtList(ops, line), OpList)
  {
    var s, buf := PwdOut(ops), SkipSpaces(line.text);
    var t := AtList(ops, line).(queue := [OpList] + ops);
    PwdAnswered(ops, line);
    PwdOutSettled(ops);
    ListTaken(t, AtList(ops, line), ops, env);
    assert Legal(s, 257) && !s.past.inLine && t.busy == 0 && !t.past.inLine;
    assert t.queue[0] == OpList && t.queue[1..] == ops;
    hide RespCode, SkipSpaces, ProcControl, ExecQueued, ExecOp, Step, Hears, PwdOut, Legal, Inv, Steady, MayStart;
    ProcKeeps(s, 257, buf, line);
    HeadMayStart(t);
    IdleLine(s, line, 257, buf, env, t);
  }

  lemma ListTaken(t: Client, s: Client, ops: seq<Op>, env: Env)
    requires t == s.(queue := [OpList] + ops) && s.queue == ops
    ensures ExecQueued(t, env) == ExecOp(s, OpList, env)
  {
    assert t.queue[1..] == ops;
    hide ExecOp;
  }

  lemma PwdOutSettled(ops: seq<Op>)
    ensures Steady(PwdOut(ops))
  {
    hide *;
    RunSettles(UntilPwd(ops));
    PwdIsOut(ops);
    SettledIsSteady(PwdOut(ops));
  }

  lemma SettledIsSteady(s: Client)
    requires Settled(s)
    ensures Steady(s)
  {
  }

  /** The run until LIST has been started, in whatever way its wait goes. */
  lemma ListIsStarted(ops: seq<Op>, line: Line, env: Env)
    requires Names(line)
    ensures Run(UNUSED, UntilPwd(ops) + [Hears(line, env)]) == ExecOp(AtList(ops, line), OpList, env)
    ensures MayStart(AtList(ops, line), OpList)
  {
    hide *;
    PwdIsOut(ops);
    ListStarts(ops, line, env);
    RunOne(PwdOut(ops), Hears(line, env));
    RunTwice(UNUSED, UntilPwd(ops), [Hears(line, env)]);
  }

  lemma AtListFacts(ops: seq<Op>, line: Line)
    ensures var s := AtList(ops, line);
            && !s.past.waiting && !s.past.overlapped && !s.data && s.passive && !s.lis && s.queue == ops
            && s.carried == [] && s.out == [] && s.busy == 0 && s.dproc == DNull && s.greeted && !s.past.inLine
            && s.curdir == QuotedText(SkipSpaces(line.text)) && s.past.started == [TYPE_I, OpPwd]
            && s.past.completed == [] && s.past.misheard == 0
  {
  }

  // ---- a session in which nothing overlaps ----

  /** LIST is out over the data connection that the reply to PASV opened. */
  lemma ListIsOut(s: Client)
    requires MayStart(s, OpList) && !s.past.waiting && !s.past.overlapped && !s.past.inLine
    requires !s.data && s.passive && s.queue == []
    ensures var t := ExecOp(s, OpList, PASV_WAKES);
            && TransferOut(t, OpList) && t.out == [CmdList] && t.busy == 2 && t.queue == []
            && t.past.started == s.past.started + [OpList] && t.curdir == s.curdir && !t.past.overlapped
            && t.past.completed == s.past.completed
  {
    BeginKeeps(s, OpList);
    var b := Begin(s, OpList);
    PassiveWaits(b);
    WaitOpens(FtpPassive(b));
    var r := WaitResp(FtpPassive(b), PASV_WAKES);
    assert PrepareData(b, PASV_WAKES) == r;
    hide WaitResp;
    assert ExecOp(s, OpList, PASV_WAKES) == DataOp(b, CmdList, PASV_WAKES) == StartTransfer(r, CmdList);
    hide ExecOp, DataOp, PrepareData, Inv, MayStart;
    NilAppend([CmdList]);
  }

  /** The wait with nothing in line, when a usable reply arrives. */
  lemma WaitOpens(p: Client)
    requires AboutToWait(p) && !p.past.overlapped && p.queue == []
    ensures var r := WaitResp(p, PASV_WAKES);
            && r.data && r.out == [] && r.busy == 0 && r.carried == [] && r.queue == [] && r.curdir == p.curdir
            && r.past.started == p.past.started && !r.past.overlapped && r.past.completed == p.past.completed
  {
    PasvIsUsable();
    UsableTaken(p.(past := p.past.(waiting := true)), PASV_LINE);
    WokenStays(p, PASV_WAKES);
    var w := Woken(p, PASV_WAKES);
    OpenedByReply(p, w);
    hide WaitResp, Woken, AboutToWait, DataOpen, Usable;
  }

  lemma OpenedByReply(p: Client, w: Client)
    requires AboutToWait(p) && w == DataOpen(p.(past := p.past.(waiting := true)))
    ensures w.out == [] && w.busy == 0 && w.data && w.carried == [] && w.queue == p.queue && w.curdir == p.curdir
    ensures w.past.started == p.past.started && w.past.overlapped == p.past.overlapped
    ensures w.past.completed == p.past.completed
  {
    assert [CmdPasv][1..] == [];
  }

  /** The listing is announced with 150 and confirmed with 226, and its data comes to an end. */
  const LISTED: seq<Input> :=
    [Hears(Reply(150), QUIET), Hears(Reply(226), QUIET), Happens(DataReady([Bytes, Bytes, Eof([], QUIET)]), QUIET)]

  /** LIST is the one command out, and its data is coming. */
  predicate Listing(s: Client) {
    && Inv(s, 0) && !s.past.inLine && !s.past.waiting && !s.past.overlapped
    && s.cproc == CList && s.dproc == DList && Serving(s) && s.queue == []
  }

  lemma Announced(s: Client)
    requires Listing(s) && s.out == [CmdList]
    ensures Step(s, Hears(Reply(150), QUIET)) == s
  {
    var line := Reply(150);
    ReplyIs(150);
    assert s.busy == 2;
    PreliminaryHeard(s, 150, line.text, line);
    assert Legal(s, 150);
    hide RespCode, SkipSpaces, Reply, ProcControl, Legal, Step, Hears, Inv;
    OneLine(s, line, 150, line.text, QUIET);
  }

  /** Only the count of commands and answers changes. */
  predicate SameDirs(s: Client, t: Client) {
    && t.curdir == s.curdir && t.past.started == s.past.started && t.past.completed == s.past.completed
    && t.queue == s.queue
  }

  lemma Confirmed(s: Client)
    requires Listing(s) && s.out == [CmdList]
    ensures var t := Step(s, Hears(Reply(226), QUIET)); Listing(t) && t.out == [] && t.busy == 1 && SameDirs(s, t)
  {
    var line := Reply(226);
    ReplyIs(226);
    assert s.busy == 2 && [CmdList][1..] == [];
    PlainHeard(s, 226, line.text, line);
    ProcKeeps(s, 226, line.text, line);
    assert Legal(s, 226);
    hide RespCode, SkipSpaces, Reply, ProcControl, Legal, Step, Hears, Inv;
    OneLine(s, line, 226, line.text, QUIET);
  }

  lemma DataEnded(s: Client)
    requires Listing(s) && s.out == [] && s.busy == 1
    ensures var t := Step(s, LISTED[2]);
            && t.busy == 0 && t.out == [] && !t.data && t.dproc == DNull && SameDirs(s, t) && !t.past.overlapped
  {
    var packets := [Bytes, Bytes, Eof([], QUIET)];
    EndCloses(s, [], QUIET);
    FirstOfFour(s, packets, 2);
    var t := DataEnd(s, [], QUIET);
    hide Inv, DataEnd, TakeEvent;
    HandleIs(s, DataReady(packets), QUIET);
    NothingQueued(t, QUIET);
    hide Handle, ExecQueued;
  }

  /** How the run goes on from a client that LIST can start on. */
  lemma ListingEnds(s: Client)
    requires MayStart(s, OpList) && !s.past.waiting && !s.past.overlapped && !s.past.inLine
    requires !s.data && s.passive && s.queue == []
    ensures var t := Run(ExecOp(s, OpList, PASV_WAKES), LISTED);
            && t.busy == 0 && t.out == [] && !t.data && t.dproc == DNull && t.queue == [] && !t.past.overlapped
            && t.curdir == s.curdir && t.past.started == s.past.started + [OpList]
            && t.past.completed == s.past.completed
  {
    var u := ExecOp(s, OpList, PASV_WAKES);
    ListingStarts(s);
    ListIsOut(s);
    hide Listing, ExecOp, MayStart, Run, Step, Reply, Hears, TransferOut;
    Announced(u);
    Confirmed(u);
    DataEnded(Step(u, LISTED[1]));
    ThreeSteps(u, LISTED);
  }

  lemma ListingStarts(s: Client)
    requires MayStart(s, OpList) && !s.past.waiting && !s.past.overlapped && !s.past.inLine
    requires !s.data && s.passive && s.queue == []
    ensures Listing(ExecOp(s, OpList, PASV_WAKES))
  {
    hide ExecOp, Inv, MayStart;
    ExecKeeps(s, OpList, PASV_WAKES);
    ListIsOut(s);
  }

  lemma ThreeSteps(s: Client, inputs: seq<Input>)
    requires |inputs| == 3
    ensures Run(s, inputs) == Step(Step(Step(s, inputs[0]), inputs[1]), inputs[2])
  {
    hide Step;
    assert inputs == [inputs[0]] + ([inputs[1]] + [inputs[2]]);
    RunTwice(s, [inputs[0]], [inputs[1]] + [inputs[2]]);
    RunOne(s, inputs[0]);
    RunTwice(Step(s, inputs[0]), [inputs[1]], [inputs[2]]);
    RunOne(Step(s, inputs[0]), inputs[1]);
    RunOne(Step(Step(s, inputs[0]), inputs[1]), inputs[2]);
  }

  /**
   The session as it is meant: after the login, with the directory that the reply to PWD names,
   the listing has been received, everything that was started is finished, and nothing was
   taken for something else.
   */
  lemma FirstListing(line: Line)
    requires Names(line)
    ensures var s := Run(UNUSED, UntilPwd([]) + [Hears(line, PASV_WAKES)] + LISTED);
            && s.past.started == s.past.submitted == [TYPE_I, OpPwd, OpList]
            && s.curdir == QuotedText(SkipSpaces(line.text))
            && s.busy == 0 && s.out == [] && s.queue == [] && !s.data && s.dproc == DNull
            && s.past.misheard == s.past.misled == 0 && s.past.completed == []
  {
    hide *;
    var inputs := UntilPwd([]) + [Hears(line, PASV_WAKES)];
    ListIsStarted([], line, PASV_WAKES);
    AtListFacts([], line);
    ListingEnds(AtList([], line));
    RunTwice(UNUSED, inputs, LISTED);
    EveryRun(inputs + LISTED);
    AppendNil(Run(UNUSED, inputs + LISTED).past.started);
    assert [TYPE_I, OpPwd] + [OpList] == [TYPE_I, OpPwd, OpList];
  }
}
