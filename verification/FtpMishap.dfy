/** Runs of the engine in which operations overlap and a reply is misheard. */
module FtpMishap {
  import opened FtpInvariant
  import opened FtpLogin
  import opened FtpOverlap
  import opened FtpQueue
  import opened FtpSteps

  /** Login; the operations that the user submits meanwhile; and the reply to PASV while LIST waits for it. */
  function OverlapRun(ops: seq<Op>, line: Line): seq<Input> {
    UntilPwd(ops) + [Hears(line, PASV_WAKES)]
  }

  /**
   A run of a well-behaved server and a user in which the first operation that the user submits
   starts inside the wait of LIST, whatever it is. Its reply is going to be taken for one to
   LIST if it has a handler of its own, and the client is jammed if it is LIST or a download.
   */
  lemma RunThatOverlaps(ops: seq<Op>, line: Line)
    requires ops != [] && Names(line)
    ensures var s := Run(UNUSED, OverlapRun(ops, line));
            && s.past.overlapped
            && (!OwnHeard(s) <==> OtherHandler(OpList, ops[0]))
            && (Jammed(s) <==> Downloads(ops[0]))
            && (Sends(ops[0]).Some? ==> SentBoth(s, ops[0], OpList))
  {
    ListIsStarted(ops, line, PASV_WAKES);
    AtListFacts(ops, line);
    hide AtList, MayStart, ExecOp, OwnHeard, Jammed, OtherHandler, SentBoth, Run, UntilPwd, Names;
    ListOverlaps(AtList(ops, line));
  }

  /** LIST starts with operations in line, and the reply to PASV arrives. */
  lemma ListOverlaps(s: Client)
    requires MayStart(s, OpList) && !s.past.waiting && !s.past.overlapped && !s.data && s.passive && s.queue != []
    ensures var t := ExecOp(s, OpList, PASV_WAKES);
            && t.past.overlapped
            && (!OwnHeard(t) <==> OtherHandler(OpList, s.queue[0]))
            && (Jammed(t) <==> Downloads(s.queue[0]))
            && (Sends(s.queue[0]).Some? ==> SentBoth(t, s.queue[0], OpList))
  {
    CanIntrude(s, OpList);
    assert NeedsData(OpList) && WokenIdle(FtpPassive(Begin(s, OpList)), PASV_WAKES);
    hide Intrudes, MayStart, ExecOp, OwnHeard, Jammed, OtherHandler, SentBoth, WokenIdle;
    OverlapDecided(s, OpList, PASV_WAKES);
    MishapDecided(s, OpList, PASV_WAKES);
  }

  /** Where the handler of LIST is installed, the next final reply is misheard if it is not for LIST. */
  lemma NextReply(s: Client, code: int, buf: string, line: Line)
    requires s.greeted && s.out != [] && code >= 200 && Legal(s, code) && s.cproc == CList
    ensures ProcControl(s, code, buf, line).past.misheard == s.past.misheard + if OwnHeard(s) then 0 else 1
  {
    FinalReply(s, code, buf, line);
    hide ProcControl;
    var h := Heard(s, code);
    assert CallCproc(h, code, buf, line) == h;
    hide CallCproc;
  }
}
