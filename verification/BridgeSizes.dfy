/** How much each transaction takes: all that is there, or a whole block. */
module BridgeSizes {
  import opened Wrappers
  import opened Mailbox
  import opened Backend
  import opened Bridge
  import opened BridgeSystem
  import opened BridgeOrigins
  import opened BridgeDelivery

  /** The block under way answers its header and is as long as it can be. */
  predicate Answering(s: System) {
    match s.phase
    case HaveBlock(h, block, _) => Answers(h, block, s.blockSize)
    case Ready(h, result, _) => result.Some? ==> Answers(h, result.value, s.blockSize)
    case _ => true
  }

  lemma NextAnswers(s: System, a: Action)
    requires s.box.Valid() && Answering(s)
    ensures Answering(Next(s, a)) && Next(s, a).blockSize == s.blockSize
  {
    match a
    case ScanBlock(fault) =>
      if s.phase.HaveHeader? {
        ScanAnswers(s, fault);
      }
    case CommitRead(fault) =>
      if s.phase.HaveBlock? {
        CommitMovesOn(s, fault);
        hide CommitBlock;
      }
    case _ =>
  }

  lemma ScanAnswers(s: System, fault: Fault)
    requires s.box.Valid() && s.phase.HaveHeader?
    ensures Answering(Next(s, ScanBlock(fault)))
  {
    hide ReadBlock, Answers, Matches;
    var r := Next(s, ScanBlock(fault));
    if r.phase.HaveBlock? {
      MatchesMeans(s.phase.header, r.phase.block, s.blockSize);
    }
  }

  lemma {:induction false} RunAnswers(s: System, actions: seq<Action>)
    requires s.box.Valid() && Answering(s)
    ensures Answering(Run(s, actions)) && Run(s, actions).blockSize == s.blockSize
    decreases |actions|
  {
    if actions == [] {
    } else {
      NextAnswers(s, actions[0]);
      RunAnswers(Next(s, actions[0]), actions[1..]);
    }
  }

  lemma RunLast(s: System, actions: seq<Action>, i: nat)
    requires s.box.Valid() && i < |actions|
    ensures Run(s, actions[..i + 1]) == Next(Run(s, actions[..i]), actions[i])
  {
    assert actions[..i + 1] == actions[..i] + [actions[i]];
    RunAppend(s, actions[..i], [actions[i]]);
    RunCons(Run(s, actions[..i]), actions[i], []);
    assert [actions[i]] + [] == [actions[i]];
  }

  /** Only publishing a result with a block adds to what was published. */
  lemma PublishedBy(s: System, a: Action)
    requires s.box.Valid()
    ensures var r := Next(s, a);
            if a.PublishResult? && s.phase.Ready? && s.phase.result.Some?
            then var b := s.phase.result.value;
                 r.published == s.published + [Published(b.sessionId, b.startCount, b.data, s.phase.from)]
            else r.published == s.published
  {
  }

  /** The step of a run that published block `k`. */
  lemma {:induction false} PublishedAtStep(s: System, actions: seq<Action>, n: nat, k: nat) returns (i: nat)
    requires s.box.Valid() && s.published == [] && n <= |actions| && k < |Run(s, actions[..n]).published|
    ensures i < n && actions[i].PublishResult?
    ensures var before := Run(s, actions[..i]);
            && before.phase.Ready? && before.phase.result.Some? && |before.published| == k
            && var b := before.phase.result.value;
               Run(s, actions[..n]).published[k] == Published(b.sessionId, b.startCount, b.data, before.phase.from)
    decreases n
  {
    assert n > 0 by {
      assert actions[..0] == [] && Run(s, []) == s;
    }
    hide Run, Next;
    var before, after := Run(s, actions[..n - 1]), Run(s, actions[..n]);
    RunLast(s, actions, n - 1);
    PublishedBy(before, actions[n - 1]);
    assert actions[..n - 1 + 1] == actions[..n];
    if k < |before.published| {
      assert after.published[k] == before.published[k];
      i := PublishedAtStep(s, actions, n - 1, k);
    } else {
      i := n - 1;
    }
  }

  /**
   Every block published in a run answered the header it was read behind: it carries that header's
   session and read count, and it is all the bytes the header showed, or a block of the full size.
   */
  lemma PublishedFull(blockSize: nat, depth: nat, size: nat, build: nat, ftdi: bool, actions: seq<Action>, k: nat)
      returns (i: nat)
    requires Configured(blockSize, depth, size, build)
    requires k < |Run(Started(blockSize, depth, size, build, ftdi), actions).published|
    ensures i < |actions| && actions[i].PublishResult?
    ensures var start := Started(blockSize, depth, size, build, ftdi);
            var p, before := Run(start, actions).published[k], Run(start, actions[..i]);
            && before.phase.Ready? && before.phase.result.Some? && |before.published| == k
            && var h := before.phase.header;
               && p.session == h.sessionId && p.start == h.readCount && p.from == before.phase.from
               && |p.data| <= blockSize && |p.data| <= h.availableBytes
               && (|p.data| == blockSize || |p.data| == h.availableBytes)
  {
    var start := Started(blockSize, depth, size, build, ftdi);
    assert actions[..|actions|] == actions;
    i := PublishedAtStep(start, actions, |actions|, k);
    RunAnswers(start, actions[..i]);
  }
}
