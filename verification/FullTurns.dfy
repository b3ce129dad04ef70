/**
 Session ids come round after 2^32 - 1 resets. Short of that every change of session shows on
 the clients' streams; at that number it can go unnoticed.
 */
module FullTurns {
  import opened Bytes
  import opened Wrappers
  import opened Mailbox
  import opened Backend
  import Clients
  import opened Bridge
  import opened BridgeSystem
  import opened BridgeOrigins
  import opened BridgeSafety
  import opened BridgeDelivery
  import opened EndToEnd
  import opened SessionTurns

  /** Neighbouring blocks are less than a turn of the ids apart. */
  predicate Near(published: seq<Published>) {
    forall i :: 0 < i < |published| ==>
      published[i - 1].from.epoch <= published[i].from.epoch < published[i - 1].from.epoch + SESSION_PERIOD
  }

  predicate AllRight(published: seq<Published>) {
    forall i :: 0 <= i < |published| ==> published[i].session == SessionOf(published[i].from.epoch)
  }

  /** While a DATA record would follow another directly, the id in force is that of the other's session. */
  lemma {:induction false} OpenInForce(log: seq<Item>, published: seq<Published>)
    requires DataItems(log) == PublishedItems(published) && AllRight(published)
    requires Clients.Announced(log, 0) && forall k :: 0 <= k < |log| ==> !log[k].Hello?
    requires OpenEpoch(log, EpochsOf(published)).Some?
    ensures published != []
    ensures OpenEpoch(log, EpochsOf(published)).value == published[|published| - 1].from.epoch
    ensures Clients.InForce(log, |log|, 0) == SessionOf(published[|published| - 1].from.epoch)
    decreases |log|
  {
    var n := |log| - 1;
    AnnouncedFront(log);
    if log[n].Data? {
      assert DataItems(log)[|DataItems(log)| - 1] == (log[n].payload, log[n].session);
      assert PublishedItems(published)[|published| - 1].1 == published[|published| - 1].session;
    } else {
      OpenInForce(log[..n], published);
    }
  }

  lemma {:induction false} NearUnmixed(log: seq<Item>, published: seq<Published>)
    requires DataItems(log) == PublishedItems(published) && AllRight(published) && Near(published)
    requires Clients.Announced(log, 0) && forall k :: 0 <= k < |log| ==> !log[k].Hello?
    ensures Unmixed(log, EpochsOf(published))
    decreases |log|
  {
    if log == [] {
    } else {
      var n := |log| - 1;
      AnnouncedFront(log);
      if log[n].Data? {
        var m := |published| - 1;
        LastData(log, published);
        NearUnmixed(log[..n], published[..m]);
        if OpenEpoch(log[..n], EpochsOf(published[..m])).Some? {
          OpenInForce(log[..n], published[..m]);
          SameSession(published[m - 1].from.epoch, published[m].from.epoch);
        }
      } else {
        NearUnmixed(log[..n], published);
      }
    }
  }

  lemma LastData(log: seq<Item>, published: seq<Published>)
    requires DataItems(log) == PublishedItems(published) && AllRight(published) && Near(published)
    requires log != [] && log[|log| - 1].Data?
    ensures published != []
    ensures var n, m := |log| - 1, |published| - 1;
            && DataItems(log[..n]) == PublishedItems(published[..m]) && AllRight(published[..m]) && Near(published[..m])
            && EpochsOf(published)[..m] == EpochsOf(published[..m])
            && log[n].session == published[m].session == SessionOf(published[m].from.epoch)
  {
    var n, m := |log| - 1, |published| - 1;
    assert DataItems(log) == DataItems(log[..n]) + [(log[n].payload, log[n].session)];
    assert PublishedItems(published)[m] == (published[m].data, published[m].session);
    assert PublishedItems(published)[..m] == PublishedItems(published[..m]);
  }

  /**
   If no two neighbouring blocks are a turn of the session ids apart, every change of session
   is noticed: for the mock always, for the direct backend if it is reset at no bad moment.
   */
  lemma {:induction false} NoticedInWindow(blockSize: nat, depth: nat, size: nat, build: nat, ftdi: bool,
                                           actions: seq<Action>)
    requires Configured(blockSize, depth, size, build)
    requires !ftdi || Calm(Started(blockSize, depth, size, build, ftdi), actions)
    requires var published := Run(Started(blockSize, depth, size, build, ftdi), actions).published;
             forall i :: 0 < i < |published| ==>
               published[i].from.epoch < published[i - 1].from.epoch + SESSION_PERIOD
    ensures AllNoticed(Started(blockSize, depth, size, build, ftdi), actions)
  {
    var start := Started(blockSize, depth, size, build, ftdi);
    StartedStreams(blockSize, depth, size, build, ftdi);
    RunStreams(start, actions);
    RunUnmixed(start, actions);
    PublishedExactly(blockSize, depth, size, build, ftdi, actions);
    if ftdi {
      LabelsKept(blockSize, depth, size, build, ftdi, actions);
    }
    var s := Run(start, actions);
    forall i | 0 <= i < |s.published| ensures s.published[i].session == SessionOf(s.published[i].from.epoch) {
      assert ftdi || Right(s.published[i].session, s.published[i].start, s.published[i].from);
    }
    NearUnmixed(s.hub.log, s.published);
  }

  // ----- a full turn -----

  function Resets(n: nat): seq<Action> {
    seq(n, _ => Reset)
  }

  lemma {:induction false} TurnsPass(s: System, n: nat)
    requires s.box.Valid() && s.phase.Idle? && n > 0
    ensures var r := Run(s, Resets(n));
            && r.phase == s.phase && r.backend == s.backend && r.hub == s.hub && r.published == s.published
            && r.identity == s.identity && r.blockSize == s.blockSize
            && r.box == Box(s.box.size, s.box.build, s.box.resets + n, [], 0, 0, 0)
    decreases n
  {
    assert Resets(n)[1..] == Resets(n - 1);
    if n > 1 {
      TurnsPass(Next(s, Reset), n - 1);
    } else {
      assert Resets(0) == [];
    }
  }

  /** A direct backend between two transactions, with nothing unread on its device. */
  predicate Resting(s: System, expected: Option<nat>) {
    && s.box.Valid() && s.phase.Idle? && s.blockSize >= 1 && s.identity == s.box.build
    && s.backend.Ftdi? && s.backend.scanning && s.backend.build == s.box.build && s.backend.last.None?
    && s.backend.expected == expected && s.box.log == s.box.log[..s.box.committed]
  }

  function FirstPump(data: bytes): seq<Action> {
    [Write(data), ScanHeader(Clean), ScanBlock(Clean), CommitRead(Clean), PublishResult]
  }

  /** The first byte of a session, written, read and published. */
  lemma FirstPumped(s: System, data: bytes)
    requires Resting(s, None) && s.box.log == [] && |data| == 1
    ensures var r, session := Run(s, FirstPump(data)), SessionOf(s.box.resets);
            && Resting(r, Some(1)) && r.box.log == data && r.box.resets == s.box.resets
            && r.published == s.published + [Published(session, 0, data, Origin(s.box.resets, 0))]
            && r.hub == Clients.Publish(s.hub, session, Some(data))
  {
    var written := Next(s, Write(data));
    assert written.box.log == data;
    FirstScanned(written, data);
    var block := Block(SessionOf(s.box.resets), 0, data, s.backend.minted);
    var scanned := Next(Next(written, ScanHeader(Clean)), ScanBlock(Clean));
    var committed := Next(scanned, CommitRead(Clean));
    assert committed.phase == Ready(scanned.phase.header, Some(block), Origin(s.box.resets, 0));
    RunFive(s, Write(data), ScanHeader(Clean), ScanBlock(Clean), CommitRead(Clean), PublishResult);
  }

  lemma FirstScanned(s: System, data: bytes)
    requires |data| == 1 && Resting(s.(box := s.box.(log := [])), None)
    requires s.box.Valid() && s.box.log == data && s.box.committed == 0
    ensures var seen := Next(s, ScanHeader(Clean));
            var r, h := Next(seen, ScanBlock(Clean)), HeaderOf(s.box);
            var block := Block(SessionOf(s.box.resets), 0, data, s.backend.minted);
            && r.phase == HaveBlock(h, block, Here(s.box)) && r.box == s.box.(committed := 1)
            && r.backend == Ftdi(s.backend.build, true, Some(h), Some(block), None, s.backend.minted + 1)
            && r.hub == s.hub && r.published == s.published && r.blockSize == s.blockSize && r.identity == s.identity
  {
    var seen := Next(s, ScanHeader(Clean));
    assert seen.phase == HaveHeader(HeaderOf(s.box), Here(s.box));
    assert s.box.log[0..1] == data;
    assert BeginRead(s.box, 1) == Ok(ReadTransaction(SessionOf(s.box.resets), 0, data));
  }

  /** What publishing a block leaves in the log. */
  function Logged(h: Clients.Hub, session: nat, data: bytes): seq<Item> {
    h.log + (if session != h.session then [Clients.Item.Session(h.session, session)] else [])
    + [Clients.Data(data, session)]
  }

  /** `data` has been published from the current session of the device. */
  predicate Pumped(s: System, r: System, data: bytes) {
    && r.box.resets == s.box.resets && r.hub.session == SessionOf(s.box.resets)
    && r.hub.log == Logged(s.hub, SessionOf(s.box.resets), data)
    && EpochsOf(r.published) == EpochsOf(s.published) + [s.box.resets]
  }

  lemma PumpFirst(s: System, data: bytes) returns (r: System)
    requires Resting(s, None) && s.box.log == [] && |data| == 1
    ensures s.box.Valid() && r == Run(s, FirstPump(data))
    ensures Resting(r, Some(1)) && r.box.committed == 1 && Pumped(s, r, data)
  {
    FirstPumped(s, data);
    r := Run(s, FirstPump(data));
    assert |r.box.log[..r.box.committed]| == 1;
    hide Run, Next, Resting;
    assert EpochsOf(r.published) == EpochsOf(s.published) + [s.box.resets];
  }

  /** A pump that finds nothing clears the deferred check and announces nothing new. */
  lemma PumpNothing(s: System) returns (r: System)
    requires Resting(s, Some(U32(s.box.committed))) && s.hub.session == SessionOf(s.box.resets)
    ensures s.box.Valid() && r == Run(s, [ScanHeader(Clean), PublishResult]) && Resting(r, None)
    ensures r.box == s.box && r.published == s.published && r.hub == s.hub
  {
    var seen := Next(s, ScanHeader(Clean));
    assert s.box.Available() == 0;
    assert seen.phase == Ready(HeaderOf(s.box), None, Here(s.box));
    RunCons(s, ScanHeader(Clean), [PublishResult]);
    RunCons(seen, PublishResult, []);
    r := Run(s, [ScanHeader(Clean), PublishResult]);
  }

  lemma Turn(s: System, n: nat) returns (r: System)
    requires Resting(s, None) && n > 0
    ensures s.box.Valid() && r == Run(s, Resets(n)) && Resting(r, None) && r.box.log == []
    ensures r.box.resets == s.box.resets + n && r.hub == s.hub && r.published == s.published
  {
    TurnsPass(s, n);
    r := Run(s, Resets(n));
  }

  /** A pump that publishes, one that finds nothing, `n` resets, and a pump that publishes again. */
  function TwiceAround(x: bytes, n: nat, y: bytes): seq<Action> {
    FirstPump(x) + [ScanHeader(Clean), PublishResult] + Resets(n) + FirstPump(y)
  }

  lemma PumpedAround(s: System, x: bytes, n: nat, y: bytes) returns (once: System, turned: System, r: System)
    requires Resting(s, None) && s.box.log == [] && |x| == |y| == 1 && n > 0
    ensures s.box.Valid() && r == Run(s, TwiceAround(x, n, y))
    ensures Pumped(s, once, x) && Pumped(turned, r, y)
    ensures turned.box.resets == s.box.resets + n && turned.hub == once.hub && turned.published == once.published
  {
    assert s.box.Valid();
    once := PumpFirst(s, x);
    assert once.hub.session == SessionOf(once.box.resets);
    hide Run, Next, Resting, Pumped, FirstPump, Resets;
    var quiet := PumpNothing(once);
    turned := Turn(quiet, n);
    r := PumpFirst(turned, y);
    AroundRuns(s, x, n, y);
  }

  lemma AroundRuns(s: System, x: bytes, n: nat, y: bytes)
    requires s.box.Valid()
    ensures Run(s, TwiceAround(x, n, y))
         == Run(Run(Run(Run(s, FirstPump(x)), [ScanHeader(Clean), PublishResult]), Resets(n)), FirstPump(y))
  {
    var a, b, c := FirstPump(x), [ScanHeader(Clean), PublishResult], Resets(n);
    hide FirstPump, Resets, Run, Next;
    RunAppend(s, a + b + c, FirstPump(y));
    RunAppend(s, a + b, c);
    RunAppend(s, a, b);
  }

  /**
   The window is needed: after a full turn of the ids between two pumps no SESSION record is
   sent, and a byte of another session follows directly on every client's stream.
   */
  lemma FullTurnMixes()
    ensures var start := Started(1024, 64, 4096, 0, true);
            var s := Run(start, TwiceAround([7], SESSION_PERIOD, [9]));
            && s.hub.log == [Clients.Item.Session(0, 1), Clients.Data([7], 1), Clients.Data([9], 1)]
            && EpochsOf(s.published) == [0, SESSION_PERIOD]
            && !AllNoticed(start, TwiceAround([7], SESSION_PERIOD, [9]))
  {
    var start := Started(1024, 64, 4096, 0, true);
    assert SessionOf(0) == 1 && SessionOf(SESSION_PERIOD) == 1;
    var once, turned, s := PumpedAround(start, [7], SESSION_PERIOD, [9]);
    RunUnmixed(start, TwiceAround([7], SESSION_PERIOD, [9]));
    hide Run, Next, TwiceAround, AllNoticed;
    MixedLog(s);
  }

  lemma MixedLog(s: System)
    requires s.hub.log == [Clients.Item.Session(0, 1), Clients.Data([7], 1), Clients.Data([9], 1)]
    requires EpochsOf(s.published) == [0, SESSION_PERIOD]
    ensures !StreamUnmixed(s)
  {
    var log := s.hub.log;
    assert log[..2] == [Clients.Item.Session(0, 1), Clients.Data([7], 1)];
    assert [0, SESSION_PERIOD][..1] == [0];
    assert OpenEpoch(log[..2], [0]) == Some(0);
  }
}
