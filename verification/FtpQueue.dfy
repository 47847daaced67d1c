/** The linked queue of pending operations. */
module FtpQueue {
  /** What a user can ask for; the stubs of the client do nothing, and a transfer is known by its number. */
  datatype Op =
    OpType(arg: string) | OpPwd | OpChdir(arg: string) | OpCdup | OpStub | OpList | OpXfer(xfer: nat, retr: bool)

  /** `struct ftp_op` */
  class FtpOp {
    var op: Op
    var next: FtpOp?

    constructor (op: Op)
      ensures this.op == op && next == null
    {
      this.op := op;
      next := null;
    }
  }

  /** The head and tail pointers of the client's queue. */
  class OpQueue {
    var qhead: FtpOp?
    var qtail: FtpOp?
    ghost var nodes: seq<FtpOp>
    ghost var Repr: set<object>

    ghost predicate Valid()
      reads this, Repr
      ensures Valid() ==> this in Repr
    {
      && this in Repr
      && (forall i | 0 <= i < |nodes| :: nodes[i] in Repr)
      && (forall i, j | 0 <= i < j < |nodes| :: nodes[i] != nodes[j])
      && (if nodes == [] then qhead == null
          else qhead == nodes[0] && qtail == nodes[|nodes| - 1] && nodes[|nodes| - 1].next == null)
      && (forall i | 0 <= i < |nodes| - 1 :: nodes[i].next == nodes[i + 1])
    }

    /** The queued operations, first to go first. */
    ghost function Contents(): (ops: seq<Op>)
      reads this, Repr
      requires Valid()
      ensures |ops| == |nodes|
    {
      seq(|nodes|, i requires 0 <= i < |nodes| reads this, Repr requires Valid() => nodes[i].op)
    }

    constructor ()
      ensures Valid() && fresh(Repr) && Contents() == []
    {
      qhead, qtail := null, null;
      nodes := [];
      Repr := {this};
    }

    method Empty() returns (r: bool)
      requires Valid()
      ensures r <==> Contents() == []
    {
      r := qhead == null;
    }

    /** Linking a new operation in at the tail */
    method Append(op: Op)
      requires Valid()
      modifies Repr
      ensures Valid() && fresh(Repr - old(Repr))
      ensures Contents() == old(Contents()) + [op]
    {
      var fop := new FtpOp(op);
      if qhead != null {
        qtail.next := fop;
        qtail := fop;
      } else {
        qhead := fop;
        qtail := fop;
      }
      nodes := nodes + [fop];
      Repr := Repr + {fop};
    }

    /** Unlinking the head, as `exec_queued` does */
    method TakeHead() returns (op: Op)
      requires Valid() && Contents() != []
      modifies this
      ensures Valid() && Repr == old(Repr)
      ensures [op] + Contents() == old(Contents())
    {
      var fop := qhead;
      if qtail == fop {
        qhead, qtail := null, null;
      } else {
        qhead := qhead.next;
      }
      op := fop.op;
      nodes := nodes[1..];
    }
  }
}
