/**
 The direct backend's delayed commit check, in every run: the next header must show the count
 that the labels of the last block promise. What the check finds follows from that alone.
 */
module BridgeCommits {
  import opened Bytes
  import opened Wrappers
  import opened Mailbox
  import opened Backend
  import opened BridgeSystem
  import opened BridgeOrigins

  /** The last published block, if the device has taken no other since. */
  ghost predicate LeftBehind(s: System, expected: nat) {
    && s.published != []
    && var p := s.published[|s.published| - 1];
       && expected == U32(p.start + |p.data|)
       && s.box.committed == if p.from.epoch == s.box.resets then p.End() else 0
  }

  /** The block whose commit is still to be checked is the one at hand, or the last one published. */
  ghost predicate Awaits(s: System, expected: nat) {
    match s.phase
    case Ready(_, result, _) => result.Some? && expected == U32(result.value.startCount + |result.value.data|)
    case Idle => LeftBehind(s, expected)
    case Failed => LeftBehind(s, expected)
    case _ => false
  }

  /** What the direct backend remembers, against what the device has done. */
  ghost predicate Remembered(s: System) {
    s.backend.Ftdi? ==>
      && s.backend.build == s.identity == s.box.build
      && (s.backend.last.Some? <==> s.phase.HaveBlock?)
      && (s.phase.HaveBlock? ==> s.backend.scanning && s.backend.last == Some(s.phase.block))
      && (s.phase.HaveBlock? && s.phase.from.epoch < s.box.resets ==> s.box.committed == 0)
      && (s.phase.Ready? && s.phase.result.Some? && s.phase.from.epoch < s.box.resets ==> s.box.committed == 0)
      && (s.backend.expected.Some? ==> s.backend.scanning && Awaits(s, s.backend.expected.value))
  }

  lemma ResetRemembered(s: System)
    requires OriginInv(s) && Remembered(s)
    ensures Remembered(Next(s, Reset))
  {
    if s.published != [] {
      LastWithin(s);
    }
    hide OriginInv;
    ForgottenRemembered(s, Next(s, Reset));
  }

  lemma ForgottenRemembered(s: System, r: System)
    requires Remembered(s) && r == s.(box := r.box, past := r.past)
    requires r.box.committed == 0 && r.box.build == s.box.build && r.box.resets == s.box.resets + 1
    requires s.published == [] || s.published[|s.published| - 1].from.epoch <= s.box.resets
    ensures Remembered(r)
  {
  }

  lemma LastWithin(s: System)
    requires OriginInv(s) && s.published != []
    ensures s.published[|s.published| - 1].from.epoch <= s.box.resets
  {
    var p := s.published[|s.published| - 1];
    assert Traced(s, p.session, p.start, p.data, p.from);
  }

  lemma ScanRemembered(s: System, fault: Fault)
    requires s.box.Valid() && PhaseTraced(s) && Remembered(s)
    ensures Remembered(Next(s, ScanBlock(fault)))
  {
  }

  lemma CommitRemembered(s: System, fault: Fault)
    requires s.box.Valid() && Remembered(s)
    ensures Remembered(Next(s, CommitRead(fault)))
  {
  }

  lemma PublishRemembered(s: System)
    requires s.box.Valid() && PhaseTraced(s) && Remembered(s)
    ensures Remembered(Next(s, PublishResult))
  {
  }

  lemma QuietRemembered(s: System, a: Action)
    requires s.box.Valid() && PhaseTraced(s) && Remembered(s)
    requires !a.Reset? && !a.ScanBlock? && !a.CommitRead? && !a.PublishResult?
    ensures Remembered(Next(s, a))
  {
  }

  lemma NextRemembered(s: System, a: Action)
    requires OriginInv(s) && Remembered(s)
    ensures Remembered(Next(s, a))
  {
    hide Remembered;
    match a
    case Reset => ResetRemembered(s);
    case ScanBlock(fault) => ScanRemembered(s, fault);
    case CommitRead(fault) => CommitRemembered(s, fault);
    case PublishResult => PublishRemembered(s);
    case _ => QuietRemembered(s, a);
  }

  lemma {:induction false} RunRemembered(s: System, actions: seq<Action>)
    requires OriginInv(s) && Remembered(s)
    ensures OriginInv(Run(s, actions)) && Remembered(Run(s, actions))
    decreases |actions|
  {
    if actions == [] {
      assert Run(s, actions) == s;
    } else {
      NextTraced(s, actions[0]);
      NextRemembered(s, actions[0]);
      RunRemembered(Next(s, actions[0]), actions[1..]);
    }
  }

  lemma StartedRemembered(blockSize: nat, depth: nat, size: nat, build: nat, ftdi: bool)
    requires Configured(blockSize, depth, size, build)
    ensures var s := Started(blockSize, depth, size, build, ftdi); OriginInv(s) && Remembered(s)
  {
  }

  /**
   The delayed check, exactly. At every header scan of every run: it fails if and only if a
   commit is still unchecked and the last published block, read in the session that still runs,
   was labelled with a wrong start; or, read in an earlier one, promises a count other than the
   zero that a reset left.
   */
  lemma {:induction false} CommitCheckExactly(blockSize: nat, depth: nat, size: nat, build: nat, actions: seq<Action>)
    requires Configured(blockSize, depth, size, build)
    requires Run(Started(blockSize, depth, size, build, true), actions).phase.Idle?
    ensures var s := Run(Started(blockSize, depth, size, build, true), actions);
            && s.backend.Ftdi? && (s.backend.expected.Some? ==> s.published != [])
            && (ReadHeader(s.backend, s.box, Clean).0 == Err(CommitMismatch) <==>
                  && s.backend.expected.Some?
                  && var p := s.published[|s.published| - 1];
                     if p.from.epoch == s.box.resets then p.start != U32(p.from.at)
                     else U32(p.start + |p.data|) != 0)
  {
    var start := Started(blockSize, depth, size, build, true);
    StartedRemembered(blockSize, depth, size, build, true);
    RunRemembered(start, actions);
    RunTraced(start, actions);
    hide Started, Run;
    CheckedAgainst(Run(start, actions));
  }

  lemma CheckedAgainst(s: System)
    requires OriginInv(s) && Remembered(s) && s.backend.Ftdi? && s.phase.Idle?
    ensures s.backend.expected.Some? ==> s.published != []
    ensures ReadHeader(s.backend, s.box, Clean).0 == Err(CommitMismatch) <==>
              && s.backend.expected.Some?
              && var p := s.published[|s.published| - 1];
                 if p.from.epoch == s.box.resets then p.start != U32(p.from.at) else U32(p.start + |p.data|) != 0
  {
    if s.backend.expected.Some? {
      var p := s.published[|s.published| - 1];
      assert Traced(s, p.session, p.start, p.data, p.from);
      hide OriginInv, NamesPlace, Sliced;
      LabelBounded(s, p.session, p.start, |p.data|, p.from);
      SameEnd(p.start, p.from.at, |p.data|);
    }
  }

  lemma SameEnd(start: nat, at: nat, length: nat)
    requires start < U32_RANGE
    ensures U32(start + length) == U32(at + length) <==> start == U32(at)
  {
  }
}
