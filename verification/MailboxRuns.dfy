/**
 Whole runs of the mailbox: writes, resets, and any number of read transactions handed
 out and committed late, twice or never.
 */
module MailboxRuns {
  import opened Bytes
  import opened MailboxHeader
  import opened Mailbox

  datatype Op = Write(data: bytes) | Begin(length: int) | Commit(index: nat) | Reset

  /** A transaction handed out, with the session and the position it was read at. */
  datatype Issued = Issued(tx: ReadTransaction, epoch: nat, at: nat)

  /**
   `taken` lists the transactions the current session committed, in order; `spent` those
   committed in any session; `offered` counts the bytes written to the current session.
   */
  datatype State = State(box: Box, issued: seq<Issued>, taken: seq<nat>, spent: seq<nat>, offered: nat)

  function Start(size: nat, build: nat): State
    requires size in SUPPORTED_BUFFER_SIZES && build < U32_RANGE
  {
    State(PowerUp(size, build), [], [], [], 0)
  }

  function Step(s: State, op: Op): (r: State)
    requires s.box.Valid()
    ensures r.box.Valid()
  {
    match op
    case Write(data) => s.(box := Offer(s.box, data), offered := s.offered + |data|)
    case Begin(length) =>
      (match BeginRead(s.box, length)
       case Ok(tx) => s.(issued := s.issued + [Issued(tx, s.box.resets, s.box.committed)])
       case Err(_) => s)
    case Commit(index) =>
      if index >= |s.issued| then s
      else
        (match Mailbox.Commit(s.box, s.issued[index].tx)
         case Ok(box) => s.(box := box, taken := s.taken + [index], spent := s.spent + [index])
         case Err(_) => s)
    case Reset => s.(box := Mailbox.Reset(s.box), taken := [], offered := 0)
  }

  function Run(s: State, ops: seq<Op>): (r: State)
    requires s.box.Valid()
    ensures r.box.Valid()
    decreases |ops|
  {
    if ops == [] then s else Run(Step(s, ops[0]), ops[1..])
  }

  /** Neither the session id nor the read counter has gone once around since the read began. */
  predicate InWindow(s: State, index: nat)
    requires index < |s.issued|
  {
    var i := s.issued[index];
    && s.box.resets - i.epoch < SESSION_PERIOD
    && (i.epoch == s.box.resets ==> s.box.committed - i.at < U32_RANGE)
  }

  predicate Timely(s: State, ops: seq<Op>)
    requires s.box.Valid()
    decreases |ops|
  {
    ops == [] ||
    (&& (ops[0].Commit? && ops[0].index < |s.issued| ==> InWindow(s, ops[0].index))
     && Timely(Step(s, ops[0]), ops[1..]))
  }

  function Data(issued: seq<Issued>, indices: seq<nat>): (r: seq<bytes>)
    requires forall i :: i in indices ==> i < |issued|
    ensures |r| == |indices|
  {
    seq(|indices|, k requires 0 <= k < |indices| => (assert indices[k] in indices; issued[indices[k]].tx.data))
  }

  ghost predicate Honest(i: Issued, box: Box)
    requires box.Valid()
  {
    && i.tx.sessionId == SessionOf(i.epoch) && i.tx.startCount == U32(i.at)
    && 0 < |i.tx.data| && i.epoch <= box.resets
    && (i.epoch == box.resets ==>
          && i.at <= box.committed && i.at + |i.tx.data| <= |box.log|
          && i.tx.data == box.log[i.at..i.at + |i.tx.data|])
  }

  /** Every transaction handed out carries the bytes it was read from. */
  ghost predicate IssuedInv(s: State) {
    && s.box.Valid()
    && forall k :: 0 <= k < |s.issued| ==> Honest(s.issued[k], s.box)
  }

  /** The session's committed transactions are the committed prefix of its log, cut in pieces. */
  ghost predicate TakenInv(s: State)
    requires s.box.Valid()
  {
    && (forall i :: i in s.taken ==> i < |s.issued|)
    && Concat(Data(s.issued, s.taken)) == s.box.log[..s.box.committed]
  }

  /** No transaction was committed twice. */
  ghost predicate SpentInv(s: State) {
    && (forall i :: i in s.spent ==> i < |s.issued|)
    && (forall i :: i in s.spent && s.issued[i].epoch == s.box.resets
          ==> s.issued[i].at + |s.issued[i].tx.data| <= s.box.committed)
    && (forall j, k :: 0 <= j < k < |s.spent| ==> s.spent[j] != s.spent[k])
  }

  /** The exact acceptance condition of a commit, wrapped counters included. */
  lemma CommitAccepted(s: State, index: nat)
    requires IssuedInv(s) && index < |s.issued|
    ensures var i := s.issued[index];
            Mailbox.Commit(s.box, i.tx).Ok? <==>
              && (s.box.resets - i.epoch) % SESSION_PERIOD == 0
              && (s.box.committed - i.at) % U32_RANGE == 0
              && |i.tx.data| <= s.box.Available()
  {
    assert Honest(s.issued[index], s.box);
  }

  /** Within the window, a commit is accepted exactly when nothing was reset or committed in between. */
  lemma CommitAcceptedInWindow(s: State, index: nat)
    requires IssuedInv(s) && index < |s.issued| && InWindow(s, index)
    ensures var i := s.issued[index];
            Mailbox.Commit(s.box, i.tx).Ok? <==> i.epoch == s.box.resets && i.at == s.box.committed
  {
    CommitAccepted(s, index);
    var i := s.issued[index];
    assert Honest(i, s.box);
    if i.epoch == s.box.resets {
      assert 0 <= s.box.committed - i.at < U32_RANGE;
    } else {
      assert 0 < s.box.resets - i.epoch < SESSION_PERIOD;
    }
  }

  lemma StepKeepsIssued(s: State, op: Op)
    requires IssuedInv(s)
    ensures IssuedInv(Step(s, op))
  {
    var r := Step(s, op);
    forall k | 0 <= k < |r.issued| ensures Honest(r.issued[k], r.box) {
      if k < |s.issued| {
        assert Honest(s.issued[k], s.box);
      }
    }
  }

  lemma DataGrows(issued: seq<Issued>, more: seq<Issued>, indices: seq<nat>)
    requires forall i :: i in indices ==> i < |issued|
    ensures Data(issued + more, indices) == Data(issued, indices)
  {
    forall k | 0 <= k < |indices| ensures Data(issued + more, indices)[k] == Data(issued, indices)[k] {
      assert indices[k] in indices;
    }
  }

  lemma StepKeepsTaken(s: State, op: Op)
    requires IssuedInv(s) && TakenInv(s)
    requires op.Commit? && op.index < |s.issued| ==> InWindow(s, op.index)
    ensures TakenInv(Step(s, op))
  {
    var r := Step(s, op);
    match op
    case Write(data) =>
      assert r.box.log[..r.box.committed] == s.box.log[..s.box.committed];
    case Begin(_) =>
      DataGrows(s.issued, r.issued[|s.issued|..], s.taken);
    case Commit(index) =>
      if r != s {
        CommitAcceptedInWindow(s, index);
        var i := s.issued[index];
        assert Honest(i, s.box);
        assert Data(s.issued, r.taken) == Data(s.issued, s.taken) + [i.tx.data];
        ConcatSnoc(Data(s.issued, s.taken), i.tx.data);
        assert s.box.log[..i.at] + i.tx.data == s.box.log[..r.box.committed];
      }
    case Reset =>
      assert Concat(Data(r.issued, r.taken)) == [];
  }

  lemma StepKeepsSpent(s: State, op: Op)
    requires IssuedInv(s) && SpentInv(s)
    requires op.Commit? && op.index < |s.issued| ==> InWindow(s, op.index)
    ensures SpentInv(Step(s, op))
  {
    if op.Commit? && op.index < |s.issued| {
      CommitAcceptedInWindow(s, op.index);
      assert Honest(s.issued[op.index], s.box);
    } else if op.Reset? {
      forall i | i in s.spent ensures s.issued[i].epoch <= s.box.resets {
        assert Honest(s.issued[i], s.box);
      }
    }
  }

  lemma {:induction false} RunKeeps(s: State, ops: seq<Op>)
    requires IssuedInv(s) && TakenInv(s) && SpentInv(s) && Timely(s, ops)
    ensures IssuedInv(Run(s, ops)) && TakenInv(Run(s, ops)) && SpentInv(Run(s, ops))
    decreases |ops|
  {
    if ops == [] {
    } else {
      StepKeepsIssued(s, ops[0]);
      StepKeepsTaken(s, ops[0]);
      StepKeepsSpent(s, ops[0]);
      RunKeeps(Step(s, ops[0]), ops[1..]);
    }
  }

  /**
   However transactions are interleaved with writes and resets, those the session committed
   concatenate to exactly the committed prefix of its log, and none was committed twice.
   */
  lemma Transactions(size: nat, build: nat, ops: seq<Op>)
    requires size in SUPPORTED_BUFFER_SIZES && build < U32_RANGE
    requires Timely(Start(size, build), ops)
    ensures var s := Run(Start(size, build), ops);
            && (forall i :: i in s.taken ==> i < |s.issued|)
            && Concat(Data(s.issued, s.taken)) == s.box.log[..s.box.committed]
            && (forall j, k :: 0 <= j < k < |s.spent| ==> s.spent[j] != s.spent[k])
  {
    RunKeeps(Start(size, build), ops);
  }

  lemma {:induction false} RunCounts(s: State, ops: seq<Op>)
    requires s.box.Valid() && s.offered == |s.box.log| + s.box.dropped
    ensures Run(s, ops).offered == |Run(s, ops).box.log| + Run(s, ops).box.dropped
    decreases |ops|
  {
    if ops == [] {
    } else {
      RunCounts(Step(s, ops[0]), ops[1..]);
    }
  }

  /** The header's counters account for every byte offered to the session, modulo 2^32. */
  lemma OfferedAccounted(size: nat, build: nat, ops: seq<Op>)
    requires size in SUPPORTED_BUFFER_SIZES && build < U32_RANGE
    ensures var s := Run(Start(size, build), ops);
            var h := HeaderOf(s.box);
            && U32(h.writeCount + h.droppedBytes) == U32(s.offered)
            && h.availableBytes == |s.box.Unread()| <= size
  {
    RunCounts(Start(size, build), ops);
    RunKeepsSize(Start(size, build), ops);
    var box := Run(Start(size, build), ops).box;
    U32Sum(|box.log|, U32(box.dropped));
    U32Sum(box.dropped, |box.log|);
  }

  lemma {:induction false} RunSnoc(s: State, ops: seq<Op>, op: Op)
    requires s.box.Valid()
    ensures Run(s, ops + [op]) == Step(Run(s, ops), op)
    decreases |ops|
  {
    if ops == [] {
      assert [op][1..] == [] && [] + [op] == [op];
    } else {
      assert (ops + [op])[1..] == ops[1..] + [op];
      RunSnoc(Step(s, ops[0]), ops[1..], op);
    }
  }

  /**
   Drop-newest, over runs: each write puts the front of its data behind the log, loses and counts
   exactly the rest, and loses something only if the ring is full when it ends.
   */
  lemma DroppedOnlyWhenFull(size: nat, build: nat, ops: seq<Op>, i: nat)
    requires size in SUPPORTED_BUFFER_SIZES && build < U32_RANGE
    requires i < |ops| && ops[i].Write?
    ensures var before, after := Run(Start(size, build), ops[..i]).box, Run(Start(size, build), ops[..i + 1]).box;
            var data, kept := ops[i].data, |after.log| - |before.log|;
            && 0 <= kept <= |data| && after.log == before.log + data[..kept]
            && after.dropped == before.dropped + (|data| - kept)
            && after.overflows == before.overflows + (if kept < |data| then 1 else 0)
            && (kept < |data| ==> |after.log| - after.committed == size)
            && after.committed == before.committed && after.resets == before.resets
  {
    var start := Start(size, build);
    assert ops[..i + 1] == ops[..i] + [ops[i]];
    RunSnoc(start, ops[..i], ops[i]);
    RunKeepsSize(start, ops[..i]);
  }

  lemma {:induction false} RunKeepsSize(s: State, ops: seq<Op>)
    requires s.box.Valid()
    ensures Run(s, ops).box.size == s.box.size
    decreases |ops|
  {
    if ops == [] {
    } else {
      RunKeepsSize(Step(s, ops[0]), ops[1..]);
    }
  }

  function Resets(n: nat): seq<Op> {
    seq(n, _ => Reset)
  }

  lemma {:induction false} RunOfResets(s: State, n: nat)
    requires s.box.Valid()
    ensures var r := Run(s, Resets(n));
            && r.box.resets == s.box.resets + n && r.issued == s.issued && r.box.size == s.box.size
            && (n > 0 ==> r.box.log == [] && r.box.committed == 0 && r.taken == [])
    decreases n
  {
    if n == 0 {
    } else {
      assert Resets(n)[1..] == Resets(n - 1);
      RunOfResets(Step(s, Reset), n - 1);
    }
  }

  /**
   The window is needed: after a full turn of the session ids, a transaction of the first
   session is accepted in a later one, for a byte that session never logged.
   */
  lemma StaleCommitAfterFullTurn()
    ensures var read := Run(Start(4096, 0), [Write([7]), Begin(1)]);
            var late := Step(Run(read, Resets(SESSION_PERIOD)), Write([9]));
            && late.box.log == [9]
            && |late.issued| == 1 && late.issued[0].tx.data == [7]
            && Step(late, Commit(0)).taken == [0]
  {
    var read := FirstRead();
    RunOfResets(read, SESSION_PERIOD);
    var turned := Run(read, Resets(SESSION_PERIOD));
    var late := Step(turned, Write([9]));
    assert late.box.resets == SESSION_PERIOD;
    assert SessionOf(late.box.resets) == 1;
    assert Mailbox.Commit(late.box, late.issued[0].tx).Ok?;
  }

  lemma FirstRead() returns (read: State)
    ensures read == Run(Start(4096, 0), [Write([7]), Begin(1)])
    ensures read.box.resets == 0 && read.box.size == 4096
    ensures read.issued == [Issued(ReadTransaction(1, 0, [7]), 0, 0)]
  {
    var ops := [Write([7]), Begin(1)];
    assert ops[1..] == [Begin(1)] && ops[1..][1..] == [];
    var one := Step(Start(4096, 0), Write([7]));
    assert one.box.log == [7];
    read := Step(one, Begin(1));
    assert Run(one, [Begin(1)]) == Run(read, [Begin(1)][1..]);
  }
}
