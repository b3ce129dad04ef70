/** Fan-out to clients behind bounded queues: what each client has been sent, in every run. */
module Clients {
  import opened Bytes
  import opened Sequences
  import opened Wrappers

  /**
   A bridge record before encoding. `session` on DATA is the session the payload was read
   under; it is not transmitted.
   */
  datatype Item =
    | Hello(session: nat)
    | Session(previous: nat, next: nat)
    | Data(payload: bytes, session: nat)
    | Status

  /**
   One connection. `None` in the queue tells its writer to stop. `since` is the length of
   the broadcast log when the client joined, `greeting` the session its HELLO named.
   */
  datatype Client = Client(listed: bool, queue: seq<Option<Item>>, sent: seq<Item>, closed: bool,
                           since: nat, greeting: nat)

  datatype Hub = Hub(depth: nat, session: nat, clients: map<nat, Client>, log: seq<Item>)

  function CutOff(c: Client): Client {
    c.(listed := false, queue := [None])
  }

  function Deliver(c: Client, item: Item, depth: nat): Client {
    if !c.listed then c
    else if |c.queue| < depth then c.(queue := c.queue + [Some(item)])
    else CutOff(c)
  }

  function Broadcast(h: Hub, item: Item): Hub {
    h.(clients := map id | id in h.clients :: Deliver(h.clients[id], item, h.depth), log := h.log + [item])
  }

  /** The atomic tail of `pump_once`: announce a changed session, then send the payload. */
  function Publish(h: Hub, session: nat, payload: Option<bytes>): Hub {
    var announced := if session != h.session then Broadcast(h, Session(h.session, session)).(session := session) else h;
    match payload
    case None => announced
    case Some(data) => Broadcast(announced, Data(data, session))
  }

  function Join(h: Hub, id: nat): Hub {
    if id in h.clients then h
    else h.(clients := h.clients[id := Client(true, [], [Hello(h.session)], false, |h.log|, h.session)])
  }

  /** The writer takes one queue entry and writes it, or stops. */
  function PopOne(c: Client): Client {
    if c.closed || c.queue == [] then c
    else
      match c.queue[0]
      case None => c.(closed := true, listed := false, queue := c.queue[1..])
      case Some(item) => c.(sent := c.sent + [item], queue := c.queue[1..])
  }

  function Pop(h: Hub, id: nat): Hub {
    if id in h.clients then h.(clients := h.clients[id := PopOne(h.clients[id])]) else h
  }

  /** The connection broke. */
  function Leave(h: Hub, id: nat): Hub {
    if id in h.clients then h.(clients := h.clients[id := h.clients[id].(listed := false, closed := true)]) else h
  }

  function Shutdown(h: Hub): Hub {
    h.(clients := map id | id in h.clients ::
         if h.clients[id].listed then CutOff(h.clients[id]) else h.clients[id])
  }

  datatype Op =
    | OpPublish(session: nat, payload: Option<bytes>)
    | OpStatus
    | OpJoin(id: nat)
    | OpPop(id: nat)
    | OpLeave(id: nat)
    | OpShutdown

  function Step(h: Hub, op: Op): Hub {
    match op
    case OpPublish(session, payload) => Publish(h, session, payload)
    case OpStatus => Broadcast(h, Status)
    case OpJoin(id) => Join(h, id)
    case OpPop(id) => Pop(h, id)
    case OpLeave(id) => Leave(h, id)
    case OpShutdown => Shutdown(h)
  }

  function Run(h: Hub, ops: seq<Op>): Hub
    decreases |ops|
  {
    if ops == [] then h else Run(Step(h, ops[0]), ops[1..])
  }

  function Items(queue: seq<Option<Item>>): seq<Item> {
    if queue == [] then []
    else (if queue[0].Some? then [queue[0].value] else []) + Items(queue[1..])
  }

  /** HELLO and everything broadcast since the client joined. */
  function Owed(c: Client, log: seq<Item>): seq<Item>
    requires c.since <= |log|
  {
    [Hello(c.greeting)] + log[c.since..]
  }

  /** One client of a bridge that has broadcast `log`. */
  ghost predicate Served(c: Client, log: seq<Item>, depth: nat) {
    && c.since <= |log| && |c.queue| <= depth
    && |c.sent| >= 1 && c.sent <= Owed(c, log)
    && (c.listed ==> !c.closed && None !in c.queue && c.sent + Items(c.queue) == Owed(c, log))
    && (!c.listed && !c.closed ==> c.queue == [None])
  }

  /** The session in force after the first `k` records of a stream. */
  function InForce(stream: seq<Item>, k: nat, start: nat): nat
    requires k <= |stream|
  {
    if k == 0 then start
    else
      match stream[k - 1]
      case Hello(s) => s
      case Session(_, s) => s
      case _ => InForce(stream, k - 1, start)
  }

  /** Every DATA record carries the payload of the session announced last before it. */
  ghost predicate Announced(stream: seq<Item>, start: nat) {
    forall k :: 0 <= k < |stream| && stream[k].Data? ==> stream[k].session == InForce(stream, k, start)
  }

  ghost predicate HubInv(h: Hub) {
    && h.depth >= 1
    && (forall id :: id in h.clients ==> Served(h.clients[id], h.log, h.depth))
    && Announced(h.log, 0) && h.session == InForce(h.log, |h.log|, 0)
    && (forall id :: id in h.clients && h.clients[id].since <= |h.log| ==>
          h.clients[id].greeting == InForce(h.log, h.clients[id].since, 0))
    && (forall k :: 0 <= k < |h.log| ==> !h.log[k].Hello?)
  }

  lemma {:induction false} ItemsAppend(a: seq<Option<Item>>, b: seq<Option<Item>>)
    ensures Items(a + b) == Items(a) + Items(b)
    decreases |a|
  {
    if a == [] {
      assert a + b == b;
    } else {
      assert (a + b)[1..] == a[1..] + b;
      ItemsAppend(a[1..], b);
      AppendAssociates(if a[0].Some? then [a[0].value] else [], Items(a[1..]), Items(b));
    }
  }

  lemma DeliverServes(c: Client, log: seq<Item>, item: Item, depth: nat)
    requires depth >= 1 && Served(c, log, depth)
    ensures Served(Deliver(c, item, depth), log + [item], depth)
  {
    assert (log + [item])[c.since..] == log[c.since..] + [item];
    assert Owed(c, log + [item]) == Owed(c, log) + [item];
    if c.listed && |c.queue| < depth {
      ItemsAppend(c.queue, [Some(item)]);
      assert Items([Some(item)]) == [item] + Items([]);
    }
  }

  lemma PopServes(c: Client, log: seq<Item>, depth: nat)
    requires Served(c, log, depth)
    ensures Served(PopOne(c), log, depth)
  {
    if !c.closed && c.queue != [] {
      match c.queue[0]
      case None =>
      case Some(item) =>
        assert c.listed;
        assert Items(c.queue) == [item] + Items(c.queue[1..]);
        assert c.sent + [item] + Items(c.queue[1..]) == c.sent + Items(c.queue);
    }
  }

  lemma {:induction false} InForceAppend(a: seq<Item>, b: seq<Item>, k: nat, start: nat)
    requires k <= |a|
    ensures InForce(a + b, k, start) == InForce(a, k, start)
    decreases k
  {
    if k == 0 {
    } else {
      InForceAppend(a, b, k - 1, start);
    }
  }

  lemma BroadcastKeeps(h: Hub, item: Item)
    requires HubInv(h) && !item.Hello?
    requires item.Data? ==> item.session == h.session
    ensures var r := Broadcast(h, item);
            HubInv(if item.Session? then r.(session := item.next) else r)
  {
    var r := Broadcast(h, item);
    forall id | id in r.clients ensures Served(r.clients[id], r.log, r.depth) {
      DeliverServes(h.clients[id], h.log, item, h.depth);
    }
    LogGrows(h.log, item);
    forall id | id in r.clients && r.clients[id].since <= |r.log|
      ensures r.clients[id].greeting == InForce(r.log, r.clients[id].since, 0)
    {
      assert Served(h.clients[id], h.log, h.depth);
      InForceAppend(h.log, [item], h.clients[id].since, 0);
    }
  }

  lemma LogGrows(log: seq<Item>, item: Item)
    requires Announced(log, 0) && !item.Hello?
    requires item.Data? ==> item.session == InForce(log, |log|, 0)
    ensures Announced(log + [item], 0)
    ensures InForce(log + [item], |log| + 1, 0) == if item.Session? then item.next else InForce(log, |log|, 0)
  {
    InForceAppend(log, [item], |log|, 0);
    forall k | 0 <= k < |log + [item]| && (log + [item])[k].Data?
      ensures (log + [item])[k].session == InForce(log + [item], k, 0)
    {
      InForceAppend(log, [item], k, 0);
    }
  }

  lemma PublishKeeps(h: Hub, session: nat, payload: Option<bytes>)
    requires HubInv(h)
    ensures HubInv(Publish(h, session, payload))
  {
    var announced := h;
    if session != h.session {
      BroadcastKeeps(h, Session(h.session, session));
      announced := Broadcast(h, Session(h.session, session)).(session := session);
    }
    if payload.Some? {
      BroadcastKeeps(announced, Data(payload.value, session));
    }
  }

  lemma JoinKeeps(h: Hub, id: nat)
    requires HubInv(h)
    ensures HubInv(Join(h, id))
  {
    if id !in h.clients {
      var c := Client(true, [], [Hello(h.session)], false, |h.log|, h.session);
      assert h.log[|h.log|..] == [];
      assert Owed(c, h.log) == [Hello(h.session)];
      assert c.sent + Items(c.queue) == Owed(c, h.log);
      assert Served(c, h.log, h.depth);
    }
  }

  lemma StepKeeps(h: Hub, op: Op)
    requires HubInv(h)
    ensures HubInv(Step(h, op))
  {
    hide HubInv;
    match op
    case OpPublish(session, payload) => PublishKeeps(h, session, payload);
    case OpStatus => BroadcastKeeps(h, Status);
    case OpJoin(id) => JoinKeeps(h, id);
    case OpPop(id) => PopKeeps(h, id);
    case OpLeave(id) => LeaveKeeps(h, id);
    case OpShutdown => ShutdownKeeps(h);
  }

  lemma PopKeeps(h: Hub, id: nat)
    requires HubInv(h)
    ensures HubInv(Pop(h, id))
  {
    if id in h.clients {
      PopServes(h.clients[id], h.log, h.depth);
    }
  }

  lemma LeaveKeeps(h: Hub, id: nat)
    requires HubInv(h)
    ensures HubInv(Leave(h, id))
  {
    if id in h.clients {
      assert Served(h.clients[id], h.log, h.depth);
    }
  }

  lemma ShutdownKeeps(h: Hub)
    requires HubInv(h)
    ensures HubInv(Shutdown(h))
  {
    forall i | i in h.clients ensures Served(Shutdown(h).clients[i], h.log, h.depth) {
      assert Served(h.clients[i], h.log, h.depth);
    }
  }

  /** A bridge that shuts down stops every writer and serves nobody from then on. */
  lemma ShutdownSilences(h: Hub, ops: seq<Op>, id: nat)
    requires HubInv(h) && id in h.clients
    ensures var r := Shutdown(h);
            && !r.clients[id].listed && (h.clients[id].closed || r.clients[id].queue == [None])
            && id in Run(r, ops).clients && Run(r, ops).clients[id].sent == h.clients[id].sent
  {
    assert Served(h.clients[id], h.log, h.depth);
    ShutdownKeeps(h);
    NothingAfterCutOff(Shutdown(h), ops, id);
  }

  lemma {:induction false} RunKeeps(h: Hub, ops: seq<Op>)
    requires HubInv(h)
    ensures HubInv(Run(h, ops))
    decreases |ops|
  {
    if ops == [] {
    } else {
      StepKeeps(h, ops[0]);
      RunKeeps(Step(h, ops[0]), ops[1..]);
    }
  }

  function Opened(depth: nat): Hub {
    Hub(depth, 0, map[], [])
  }

  /** A client's stream announces the session of every DATA record in it. */
  lemma StreamAnnounced(c: Client, log: seq<Item>, depth: nat)
    requires Served(c, log, depth) && Announced(log, 0)
    requires c.greeting == InForce(log, c.since, 0)
    requires forall k :: 0 <= k < |log| ==> !log[k].Hello?
    ensures Announced(c.sent, 0)
  {
    forall k | 0 <= k < |c.sent| && c.sent[k].Data? ensures c.sent[k].session == InForce(c.sent, k, 0) {
      assert c.sent[k] == Owed(c, log)[k] == log[c.since + k - 1];
      InForceShift(c, log, depth, k);
    }
  }

  lemma {:induction false} InForceShift(c: Client, log: seq<Item>, depth: nat, k: nat)
    requires Served(c, log, depth) && 1 <= k <= |c.sent|
    requires c.greeting == InForce(log, c.since, 0)
    requires forall i :: 0 <= i < |log| ==> !log[i].Hello?
    ensures InForce(c.sent, k, 0) == InForce(log, c.since + k - 1, 0)
    decreases k
  {
    if k > 1 {
      InForceShift(c, log, depth, k - 1);
      assert c.sent[k - 1] == Owed(c, log)[k - 1] == log[c.since + k - 2];
    } else {
      assert c.sent[0] == Owed(c, log)[0];
    }
  }

  /**
   In every run, every client has been sent HELLO and then a gap-free beginning of what was
   broadcast since it joined, its queue is bounded, and each DATA record belongs to the
   session announced last on that same stream.
   */
  lemma ClientStreams(depth: nat, ops: seq<Op>, id: nat)
    requires depth >= 1 && id in Run(Opened(depth), ops).clients
    ensures var h := Run(Opened(depth), ops);
            var c := h.clients[id];
            && c.since <= |h.log| && |c.queue| <= depth
            && |c.sent| >= 1 && c.sent <= [Hello(c.greeting)] + h.log[c.since..]
            && (c.listed ==> c.sent + Items(c.queue) == [Hello(c.greeting)] + h.log[c.since..])
            && Announced(c.sent, 0)
  {
    RunKeeps(Opened(depth), ops);
    var h := Run(Opened(depth), ops);
    assert Served(h.clients[id], h.log, h.depth);
    RunKeepsDepth(Opened(depth), ops);
    StreamAnnounced(h.clients[id], h.log, h.depth);
  }

  lemma {:induction false} RunKeepsDepth(h: Hub, ops: seq<Op>)
    ensures Run(h, ops).depth == h.depth
    decreases |ops|
  {
    if ops == [] {
    } else {
      RunKeepsDepth(Step(h, ops[0]), ops[1..]);
    }
  }

  lemma UnlistedFrozen(h: Hub, op: Op, id: nat)
    requires HubInv(h) && id in h.clients && !h.clients[id].listed
    ensures id in Step(h, op).clients && !Step(h, op).clients[id].listed
    ensures Step(h, op).clients[id].sent == h.clients[id].sent
  {
    assert Served(h.clients[id], h.log, h.depth);
    match op
    case OpPublish(session, _) =>
      if session != h.session {
        assert Broadcast(h, Session(h.session, session)).clients[id] == h.clients[id];
      }
    case OpPop(other) =>
      assert PopOne(h.clients[id]).sent == h.clients[id].sent;
    case _ =>
  }

  /** A client that was cut off or has left is never sent anything again. */
  lemma {:induction false} NothingAfterCutOff(h: Hub, ops: seq<Op>, id: nat)
    requires HubInv(h) && id in h.clients && !h.clients[id].listed
    ensures id in Run(h, ops).clients && !Run(h, ops).clients[id].listed
    ensures Run(h, ops).clients[id].sent == h.clients[id].sent
    decreases |ops|
  {
    if ops == [] {
    } else {
      UnlistedFrozen(h, ops[0], id);
      StepKeeps(h, ops[0]);
      NothingAfterCutOff(Step(h, ops[0]), ops[1..], id);
    }
  }
}
