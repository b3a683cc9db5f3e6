/** How a sender learns what became of a batch: the kernel's answers, read until one of them decides. */
module Acks {
  import opened Netlink
  import opened Kernel

  /** Objects of a batch that go in before the first that is refused. */
  function Processed(msgs: seq<Msg>, k: Kernel): nat {
    if msgs == [] then 0 else
    match Process(msgs[0], k)
    case None => 0
    case Some(k') => 1 + Processed(msgs[1..], k')
  }

  lemma {:induction false} ProcessedAll(msgs: seq<Msg>, k: Kernel)
    ensures Processed(msgs, k) <= |msgs|
    ensures Commit(msgs, k).1 <==> Processed(msgs, k) == |msgs|
  {
    hide Process;
    if msgs == [] {
    } else {
      match Process(msgs[0], k)
      case None =>
      case Some(k') => ProcessedAll(msgs[1..], k');
    }
  }

  /** An acknowledgement of one object: an error message (type 2) under its number, which starts with
      four zero bytes unless the object was refused. */
  predicate IsAck(m: Message, seqNo: nat, refused: bool) {
    && Sized(m) && m.kind == 2 && m.seqNo == seqNo && |m.payload| >= 4
    && (refused <==> exists i | 0 <= i < 4 :: m.payload[i] != 0)
  }

  /** The kernel acknowledges the objects of a batch in order, numbered from 1, up to the first that it
      refuses; what it says after that is not constrained. */
  predicate Answers(acks: seq<Message>, msgs: seq<Msg>, k: Kernel) {
    var n := Processed(msgs, k);
    && AllWellFormed(acks)
    && n <= |acks| && (forall i | 0 <= i < n :: IsAck(acks[i], i + 1, false))
    && (n < |msgs| ==> n < |acks| && IsAck(acks[n], n + 1, true))
  }

  /** Read whole, the answers acknowledge the batch exactly when the kernel has committed it. */
  lemma AnswersDecide(acks: seq<Message>, msgs: seq<Msg>, k: Kernel)
    requires msgs != [] && Answers(acks, msgs, k)
    ensures Acknowledged(acks, |msgs|) <==> Commit(msgs, k).1
  {
    hide Processed, Commit;
    var n := Processed(msgs, k);
    ProcessedAll(msgs, k);
    if n == |msgs| {
      assert IsAck(acks[n - 1], n, false);
      assert Stops(acks[n - 1], |msgs|);
      forall j | 0 <= j <= n - 1 ensures Clean(acks[j]) { assert IsAck(acks[j], j + 1, false); }
    } else {
      assert IsAck(acks[n], n + 1, true);
      forall i | 0 <= i < n ensures !Stops(acks[i], |msgs|) { assert IsAck(acks[i], i + 1, false); }
    }
  }

  // ----- over a socket -----

  /** The send failed, or it went out and these receives came back. */
  datatype Link = Down | Up(receives: seq<Receive>)

  /** The kernel afterwards, and whether the drain reports success; the terminal number is that of the last object. */
  function SentOver(msgs: seq<Msg>, k: Kernel, link: Link): (Kernel, bool) {
    match link
    case Down => (k, false)
    case Up(receives) => (Commit(msgs, k).0, Drained(receives, |msgs|) == Success)
  }

  /** `receives` delivers the answers some whole messages at a time, all of them or up to a receive that fails. */
  predicate Delivers(receives: seq<Receive>, groups: seq<seq<Message>>, n: int) {
    && ValidGroups(groups) && 0 <= n <= |groups|
    && receives == Receives(groups)[..n] + (if n < |groups| then [ReceiveError] else [])
  }

  /** What comes back are the kernel's answers to the batch. */
  ghost predicate Faithful(link: Link, msgs: seq<Msg>, k: Kernel) {
    link.Up? ==> exists groups, n :: Delivers(link.receives, groups, n) && Answers(Concat(groups), msgs, k)
  }

  /** Whether the drain came to a decision. */
  function DeliveryOf(link: Link, msgs: seq<Msg>): Delivery {
    match link
    case Down => NotSent
    case Up(receives) =>
      var r := Drained(receives, |msgs|);
      if r == ReceiveFailed || r == Waiting then AcksLost else AcksRead
  }

  /** A failing receive either comes after the decision or prevents it. */
  lemma {:induction false} CutShort(receives: seq<Receive>, n: nat, terminal: nat)
    requires n <= |receives|
    ensures var r := Drained(receives[..n] + [ReceiveError], terminal);
            r == ReceiveFailed || r == Drained(receives, terminal)
  {
    hide ScanBytes;
    var cut := receives[..n] + [ReceiveError];
    if n == 0 {
      assert cut == [ReceiveError];
    } else {
      assert cut[0] == receives[0] && cut[1..] == receives[1..][..n - 1] + [ReceiveError];
      CutShort(receives[1..], n - 1, terminal);
    }
  }

  /** However the kernel's answers are split into receives, and wherever reading them breaks off, the
      sender reports success exactly when the batch is committed and the drain came to a decision;
      reading all of them always decides. */
  lemma SendReportsCommit(link: Link, msgs: seq<Msg>, k: Kernel)
    requires msgs != [] && Faithful(link, msgs, k)
    ensures SentOver(msgs, k, link) == Sent(msgs, k, DeliveryOf(link, msgs))
  {
    hide Commit, Drained, Concat, Receives, Answers, Acknowledged;
    if link.Up? {
      var groups, n :| Delivers(link.receives, groups, n) && Answers(Concat(groups), msgs, k);
      AnswersDecide(Concat(groups), msgs, k);
      DrainSucceedsExactly(groups, |msgs|);
      var all := Receives(groups);
      if n < |groups| {
        CutShort(all, n, |msgs|);
      } else {
        assert all[..n] + [] == all;
      }
    }
  }

  /** Answers read to the end always decide. */
  lemma WholeAnswersDecide(msgs: seq<Msg>, k: Kernel, groups: seq<seq<Message>>)
    requires msgs != [] && ValidGroups(groups) && Answers(Concat(groups), msgs, k)
    ensures Drained(Receives(groups), |msgs|) == Success <==> Commit(msgs, k).1
    ensures DeliveryOf(Up(Receives(groups)), msgs) == AcksRead
  {
    hide Commit, Drained, Concat, Receives;
    AnswersDecide(Concat(groups), msgs, k);
    DrainSucceedsExactly(groups, |msgs|);
    DrainIsOneScan(groups, |msgs|);
    AnswersFinish(Concat(groups), msgs, k, 0);
    assert Concat(groups)[0..] == Concat(groups);
  }

  lemma {:induction false} AnswersFinish(acks: seq<Message>, msgs: seq<Msg>, k: Kernel, i: nat)
    requires msgs != [] && Answers(acks, msgs, k)
    requires if Processed(msgs, k) == |msgs| then i < |msgs| else i <= Processed(msgs, k)
    ensures ScanMessages(acks[i..], |msgs|) != More
    decreases |msgs| - i
  {
    hide Processed, Errno;
    var n := Processed(msgs, k);
    ProcessedAll(msgs, k);
    CleanExactly(acks[i]);
    assert acks[i..][0] == acks[i] && acks[i..][1..] == acks[i + 1..];
    if i < n {
      assert IsAck(acks[i], i + 1, false);
      if i + 1 < |msgs| { AnswersFinish(acks, msgs, k, i + 1); }
    } else {
      assert IsAck(acks[n], n + 1, true);
    }
  }
}
