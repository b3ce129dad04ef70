/**
 The lifecycle of provider requests: a new run replaces the one before it, and answers,
 timers and cancellations of several runs may arrive in any order.
 */
module AnalysisRequests {
  datatype Reason = TimedOut | Rejected | ProviderError

  datatype Status = Idle | Queued | Running | Completed(text: nat) | Failed(reason: Reason) | Cancelled

  /** What one provider call ends with; `Invalid` is a result that validation refuses. */
  datatype Answer = Valid(text: nat) | Invalid | Aborted | Error(retryable: bool)

  datatype State = State(status: Status, generation: nat)

  datatype Attempts = Attempts(used: nat, retries: nat)

  /** `aborted` are the runs whose signal was raised, `armed` those whose timer may still fire. */
  datatype Requests = Requests(generation: nat, state: State, aborted: set<nat>, pending: map<nat, Attempts>,
                               armed: set<nat>)

  const QUIET: Requests := Requests(0, State(Idle, 0), {}, map[], {})

  /** `built` says whether the context for the provider could be built. */
  datatype Event = Start(retries: nat, built: bool) | Cancel | Timer(run: nat) | Settle(run: nat, answer: Answer)

  /** Raises the signal that is current now, whoever asks for it. */
  function AbortCurrent(r: Requests): Requests {
    if r.generation == 0 then r else r.(aborted := r.aborted + {r.generation})
  }

  function Cancelling(r: Requests): Requests {
    AbortCurrent(r).(state := if r.state.status.Queued? || r.state.status.Running?
                              then r.state.(status := Status.Cancelled) else r.state)
  }

  predicate Retries(tries: Attempts, a: Answer) {
    a.Error? && a.retryable && tries.used < tries.retries
  }

  /** A finished run: only the latest one touches the state that is shown. */
  function Finished(r: Requests, run: nat, a: Answer): Requests {
    var rest := r.(pending := r.pending - {run}, armed := r.armed - {run});
    if run != r.generation then rest
    else
      var raised := run in r.aborted;
      rest.(state := State(
              match a
              case Valid(text) => Completed(text)
              case Invalid => Failed(if raised then TimedOut else Rejected)
              case _ => if raised && r.state.status.Cancelled? then Status.Cancelled
                        else Failed(if raised then TimedOut else ProviderError), run))
  }

  function Step(r: Requests, e: Event): Requests {
    match e
    case Cancel => Cancelling(r)
    case Start(retries, built) =>
      var run := r.generation + 1;
      var queued := Cancelling(r).(generation := run, state := State(Queued, run));
      if !built then queued
      else
        queued.(state := State(Running, run), pending := queued.pending[run := Attempts(0, retries)],
                armed := queued.armed + {run})
    case Timer(run) => if run in r.armed then AbortCurrent(r).(armed := r.armed - {run}) else r
    case Settle(run, a) =>
      if run !in r.pending then r
      else if Retries(r.pending[run], a) then
        r.(pending := r.pending[run := r.pending[run].(used := r.pending[run].used + 1)])
      else Finished(r, run, a)
  }

  function Run(r: Requests, events: seq<Event>): Requests
    decreases |events|
  {
    if events == [] then r else Run(Step(r, events[0]), events[1..])
  }

  ghost predicate RequestsInv(r: Requests) {
    && r.state.generation == r.generation
    && (forall run :: run in r.pending ==> 1 <= run <= r.generation && r.pending[run].used <= r.pending[run].retries)
    && (forall run :: run in r.armed ==> run in r.pending)
    && (forall run :: run in r.pending && run < r.generation ==> run in r.aborted)
    && (forall run :: run in r.aborted ==> run <= r.generation)
    && (r.state.status.Running? ==> r.generation in r.pending)
    && (r.generation in r.pending ==> r.state.status.Running? || r.state.status.Cancelled?)
    && (r.state.status.Cancelled? ==> r.generation in r.aborted)
    && (r.state.status.Idle? <==> r.generation == 0)
  }

  lemma StepKeeps(r: Requests, e: Event)
    requires RequestsInv(r)
    ensures RequestsInv(Step(r, e))
  {
  }

  /** In every run of events the state shown is the latest request's, and no call is retried too often. */
  lemma {:induction false} LatestShown(r: Requests, events: seq<Event>)
    requires RequestsInv(r)
    ensures RequestsInv(Run(r, events))
    decreases |events|
  {
    if events == [] {
    } else {
      StepKeeps(r, events[0]);
      LatestShown(Step(r, events[0]), events[1..]);
    }
  }

  lemma {:induction false} RunSnoc(r: Requests, events: seq<Event>, e: Event)
    ensures Run(r, events + [e]) == Step(Run(r, events), e)
    decreases |events|
  {
    if events == [] {
      assert [] + [e] == [e];
      assert Run(r, [e]) == Run(Step(r, e), [e][1..]);
    } else {
      assert (events + [e])[1..] == events[1..] + [e];
      RunSnoc(Step(r, events[0]), events[1..], e);
    }
  }

  /** The state after each event of a history. */
  function After(events: seq<Event>, n: nat): Requests
    requires n <= |events|
  {
    Run(QUIET, events[..n])
  }

  lemma AfterNext(events: seq<Event>, n: nat)
    requires n < |events|
    ensures After(events, n + 1) == Step(After(events, n), events[n])
  {
    assert events[..n + 1] == events[..n] + [events[n]];
    RunSnoc(QUIET, events[..n], events[n]);
  }

  /**
   A result is shown only because the latest request was answered with it: that answer settled
   the request, and nothing since has settled or replaced it.
   */
  lemma {:induction false} CompletedByLatest(events: seq<Event>, n: nat) returns (i: nat)
    requires n <= |events| && After(events, n).state.status.Completed?
    ensures i < n && events[i] == Settle(After(events, n).generation, Valid(After(events, n).state.status.text))
    ensures After(events, i).generation == After(events, n).generation
    ensures After(events, n).generation in After(events, i).pending
    ensures forall j :: i < j <= n ==> After(events, j).state == After(events, n).state
    ensures forall j :: i < j < n ==> !events[j].Start?
    decreases n
  {
    assert n > 0;
    var before, r := After(events, n - 1), After(events, n);
    LatestShown(QUIET, events[..n - 1]);
    AfterNext(events, n - 1);
    if before.state == r.state && !Answered(before, events[n - 1]) {
      i := CompletedByLatest(events, n - 1);
    } else {
      i := n - 1;
    }
  }

  predicate Answered(r: Requests, e: Event) {
    e.Settle? && e.run == r.generation && e.run in r.pending && e.answer.Valid?
  }

  /**
   The timer of an old request changes what becomes of the newest one exactly when that one is
   still waiting for its provider and has not been told to stop.
   */
  lemma TimerHitsNewest(r: Requests, run: nat)
    requires RequestsInv(r) && run in r.armed && run != r.generation
    ensures (exists a: Answer ::
               Step(Step(r, Timer(run)), Settle(r.generation, a)).state != Step(r, Settle(r.generation, a)).state)
       <==> r.generation in r.pending && r.generation !in r.aborted
  {
    if r.generation in r.pending && r.generation !in r.aborted {
      var a := Aborted;
      assert Step(Step(r, Timer(run)), Settle(r.generation, a)).state != Step(r, Settle(r.generation, a)).state;
    }
  }

  /** So a slow old request can time out a new one: its own timer never fired. */
  lemma OldTimerFailsNewRun()
    ensures var r := Run(QUIET, [Start(0, true), Start(0, true), Timer(1), Settle(2, Aborted)]);
            r.state == State(Failed(TimedOut), 2)
  {
    var two := Step(Step(QUIET, Start(0, true)), Start(0, true));
    var fired := Step(two, Timer(1));
    assert 1 in two.armed && 2 in fired.aborted && 2 in fired.pending;
    assert Run(QUIET, [Start(0, true), Start(0, true), Timer(1), Settle(2, Aborted)])
        == Run(Step(QUIET, Start(0, true)), [Start(0, true), Timer(1), Settle(2, Aborted)]);
    assert Run(Step(QUIET, Start(0, true)), [Start(0, true), Timer(1), Settle(2, Aborted)])
        == Run(two, [Timer(1), Settle(2, Aborted)]);
    assert Run(two, [Timer(1), Settle(2, Aborted)]) == Run(fired, [Settle(2, Aborted)]);
    assert Run(fired, [Settle(2, Aborted)]) == Run(Step(fired, Settle(2, Aborted)), []);
  }

  /** The latest run's provider returns a value, though it may have been told to stop. */
  predicate Returns(r: Requests, e: Event) {
    e.Settle? && e.run == r.generation && e.run in r.pending && (e.answer.Valid? || e.answer.Invalid?)
  }

  predicate EverReturns(r: Requests, events: seq<Event>)
    decreases |events|
  {
    events != [] && (Returns(r, events[0]) || EverReturns(Step(r, events[0]), events[1..]))
  }

  predicate NoStart(events: seq<Event>) {
    forall i :: 0 <= i < |events| ==> !events[i].Start?
  }

  /** A cancelled request is shown as completed after all if its provider answers late. */
  lemma LateAnswerShown(text: nat)
    ensures Run(QUIET, [Start(0, true), Cancel]).state.status == Status.Cancelled
    ensures Run(QUIET, [Start(0, true), Cancel, Settle(1, Valid(text))]).state == State(Completed(text), 1)
  {
    var begun := Step(QUIET, Start(0, true));
    var cancelled := Step(begun, Cancel);
    RunSnoc(QUIET, [], Start(0, true));
    RunSnoc(QUIET, [Start(0, true)], Cancel);
    RunSnoc(QUIET, [Start(0, true), Cancel], Settle(1, Valid(text)));
    assert [Start(0, true), Cancel] + [Settle(1, Valid(text))] == [Start(0, true), Cancel, Settle(1, Valid(text))];
    assert [Start(0, true)] + [Cancel] == [Start(0, true), Cancel];
    assert [] + [Start(0, true)] == [Start(0, true)];
  }

  /** Cancelling lasts until the next run exactly when the provider heeds the signal. */
  lemma {:induction false} CancelledStays(r: Requests, events: seq<Event>)
    requires RequestsInv(r) && r.state.status.Cancelled? && NoStart(events)
    ensures Run(r, events).state.status.Cancelled? <==> !EverReturns(r, events)
    decreases |events|
  {
    if events == [] {
    } else {
      var next := Step(r, events[0]);
      StepKeeps(r, events[0]);
      if Returns(r, events[0]) {
        Settled(next, events[1..]);
      } else {
        CancelledStays(next, events[1..]);
      }
    }
  }

  /** Once a run has ended its state stays until the next run. */
  lemma {:induction false} Settled(r: Requests, events: seq<Event>)
    requires RequestsInv(r) && r.generation !in r.pending && !r.state.status.Queued? && NoStart(events)
    ensures Run(r, events).state == r.state
    decreases |events|
  {
    if events == [] {
    } else {
      StepKeeps(r, events[0]);
      Settled(Step(r, events[0]), events[1..]);
    }
  }

  // ----- the answers, one by one -----

  /** A call goes on after an answer exactly if that is an error worth a retry and one is left. */
  lemma CallGoesOn(r: Requests, run: nat, a: Answer)
    requires run in r.pending
    ensures var next := Step(r, Settle(run, a));
            && (run in next.pending <==> a == Error(true) && r.pending[run].used < r.pending[run].retries)
            && (run in next.pending ==>
                  next == r.(pending := r.pending[run := Attempts(r.pending[run].used + 1, r.pending[run].retries)]))
            && (run !in next.pending ==> run !in next.armed)
            && (forall other :: other != run ==> (other in next.pending <==> other in r.pending))
  {
  }

  /** What the latest run shows when its call has ended; the signal decides what an ill end is called. */
  lemma EndShown(r: Requests, a: Answer)
    requires r.generation in r.pending && r.generation !in Step(r, Settle(r.generation, a)).pending
    ensures var status, told := Step(r, Settle(r.generation, a)).state.status, r.generation in r.aborted;
            match a
            case Valid(text) => status == Completed(text)
            case Invalid => status == Failed(if told then TimedOut else Rejected)
            case _ => status == (if told && r.state.status == Status.Cancelled then Status.Cancelled
                                 else if told then Failed(TimedOut) else Failed(ProviderError))
    ensures Step(r, Settle(r.generation, a)).state.generation == r.generation
  {
  }

  /** An older run's end shows nothing, a cancellation stops what runs, a new run replaces it. */
  lemma OthersShown(r: Requests, run: nat, a: Answer, retries: nat, built: bool)
    ensures run != r.generation ==> Step(r, Settle(run, a)).state == r.state
    ensures Step(r, Cancel).state.status == (if r.state.status == Running || r.state.status == Queued then Status.Cancelled
                                             else r.state.status)
    ensures r.generation > 0 ==> r.generation in Step(r, Cancel).aborted
    ensures var next := Step(r, Start(retries, built));
            && next.generation == r.generation + 1
            && next.state == State(if built then Running else Queued, r.generation + 1)
            && (built ==> next.pending == r.pending[r.generation + 1 := Attempts(0, retries)]
                          && next.armed == r.armed + {r.generation + 1})
            && (!built ==> next.pending == r.pending && next.armed == r.armed)
            && (r.generation > 0 ==> r.generation in next.aborted)
  {
  }

  /** Any timer still set stops what runs now: unless its provider returns, it ends as timed out. */
  lemma TimerStops(r: Requests, run: nat, a: Answer)
    requires r.generation in r.pending && r.generation > 0 && r.state.status == Running
    requires a.Invalid? || a == Aborted || a == Error(false)
    ensures var fired := Step(r, Timer(run));
            if run in r.armed
            then fired.armed == r.armed - {run} && fired.pending == r.pending && fired.state == r.state
                 && Step(fired, Settle(r.generation, a)).state.status == Failed(TimedOut)
            else fired == r
  {
  }

  function Failing(run: nat, n: nat): seq<Event> {
    seq(n, _ => Settle(run, Error(true)))
  }

  /** A call that keeps failing is made once and then as often as it may be retried, and no more. */
  lemma {:induction false} TriedOften(r: Requests, n: nat)
    requires RequestsInv(r) && r.generation in r.pending
    ensures var left := r.pending[r.generation].retries - r.pending[r.generation].used;
            r.generation in Run(r, Failing(r.generation, n)).pending <==> n <= left
    decreases n
  {
    var run := r.generation;
    if n == 0 {
    } else {
      var next := Step(r, Settle(run, Error(true)));
      assert Failing(run, n)[0] == Settle(run, Error(true)) && Failing(run, n)[1..] == Failing(run, n - 1);
      StepKeeps(r, Settle(run, Error(true)));
      if run in next.pending {
        TriedOften(next, n - 1);
      } else {
        StaysEnded(next, run, n - 1);
      }
    }
  }

  lemma {:induction false} StaysEnded(r: Requests, run: nat, n: nat)
    requires run !in r.pending
    ensures run !in Run(r, Failing(run, n)).pending
    decreases n
  {
    if n == 0 {
    } else {
      assert Failing(run, n)[0] == Settle(run, Error(true)) && Failing(run, n)[1..] == Failing(run, n - 1);
      StaysEnded(Step(r, Settle(run, Error(true))), run, n - 1);
    }
  }

  class AnalysisController {
    var generation: nat
    var state: State
    var aborted: set<nat>
    var pending: map<nat, Attempts>
    var armed: set<nat>

    constructor ()
      ensures Value() == QUIET && RequestsInv(Value())
    {
      generation, state := 0, State(Idle, 0);
      aborted, pending, armed := {}, map[], {};
    }

    function Value(): Requests
      reads this
    {
      Requests(generation, state, aborted, pending, armed)
    }

    method Abort()
      modifies this`aborted
      ensures Value() == AbortCurrent(old(Value()))
    {
      if generation > 0 {
        aborted := aborted + {generation};
      }
    }

    method Cancel()
      modifies this
      ensures Value() == Step(old(Value()), Event.Cancel)
    {
      Abort();
      if state.status.Queued? || state.status.Running? {
        state := state.(status := Status.Cancelled);
      }
    }

    /** A run up to its first wait; if its context cannot be built it ends there, still queued. */
    method Begin(retries: nat, built: bool)
      modifies this
      ensures Value() == Step(old(Value()), Start(retries, built)) && generation == old(generation) + 1
    {
      Cancel();
      generation := generation + 1;
      state := State(Queued, generation);
      if !built {
        return;
      }
      state := state.(status := Running);
      armed := armed + {generation};
      pending := pending[generation := Attempts(0, retries)];
    }

    method TimerFires(run: nat)
      requires run in armed
      modifies this
      ensures Value() == Step(old(Value()), Timer(run))
    {
      Abort();
      armed := armed - {run};
    }

    /** The rest of a run, once its provider call has ended. */
    method Resume(run: nat, answer: Answer) returns (stale: bool)
      requires run in pending
      modifies this
      ensures Value() == Step(old(Value()), Settle(run, answer))
      ensures stale ==> run != generation && state == old(state)
      ensures stale <==> run != generation && run !in pending
    {
      var tries := pending[run];
      if answer.Error? && answer.retryable && tries.used < tries.retries {
        pending := pending[run := tries.(used := tries.used + 1)];
        return false;
      }
      pending, armed := pending - {run}, armed - {run};
      if run != generation {
        return true;
      }
      var raised := run in aborted;
      match answer {
        case Valid(text) => state := State(Completed(text), run);
        case Invalid => state := State(Failed(if raised then TimedOut else Rejected), run);
        case _ =>
          if raised && state.status.Cancelled? {
            state := State(Status.Cancelled, run);
          } else {
            state := State(Failed(if raised then TimedOut else ProviderError), run);
          }
      }
      stale := false;
    }
  }
}
