/** Unfolding wrapped timestamps. */
module Timestamps {
  import opened Arithmetic
  import opened Wrappers

  /** `raw` and `tick` are absent for records without a timestamp. */
  datatype Stamp = Stamp(raw: Option<nat>, tick: Option<nat>, wraps: nat)

  predicate WrapSeen(previous: Option<nat>, raw: nat, modulus: nat) {
    previous.Some? && raw < previous.value && 2 * (previous.value - raw) > modulus
  }

  /** The last timestamp before position `n`, and the wraps counted up to it. */
  function Previous(raws: seq<Option<nat>>, n: nat): Option<nat>
    requires n <= |raws|
  {
    if n == 0 then None else if raws[n - 1].Some? then raws[n - 1] else Previous(raws, n - 1)
  }

  function Wraps(raws: seq<Option<nat>>, n: nat, modulus: nat): nat
    requires n <= |raws|
  {
    if n == 0 then 0
    else
      Wraps(raws, n - 1, modulus)
      + (if raws[n - 1].Some? && WrapSeen(Previous(raws, n - 1), raws[n - 1].value, modulus) then 1 else 0)
  }

  function StampAt(raws: seq<Option<nat>>, i: nat, modulus: nat): Stamp
    requires i < |raws|
  {
    var wraps := Wraps(raws, i + 1, modulus);
    if raws[i].None? then Stamp(None, None, wraps)
    else Stamp(raws[i], Some(raws[i].value + wraps * modulus), wraps)
  }

  method UnwrapTimestamps(raws: seq<Option<nat>>, modulus: nat) returns (stamps: seq<Stamp>)
    ensures |stamps| == |raws|
    ensures forall i :: 0 <= i < |raws| ==> stamps[i] == StampAt(raws, i, modulus)
    ensures forall i :: 0 <= i < |raws| ==> Stamped(raws, i, modulus, stamps[i])
  {
    var previous: Option<nat> := None;
    var wraps := 0;
    stamps := [];
    for i := 0 to |raws|
      invariant previous == Previous(raws, i) && wraps == Wraps(raws, i, modulus)
      invariant |stamps| == i && forall k :: 0 <= k < i ==> stamps[k] == StampAt(raws, k, modulus)
    {
      if raws[i].None? {
        stamps := stamps + [Stamp(None, None, wraps)];
      } else {
        var raw := raws[i].value;
        if previous.Some? && raw < previous.value && 2 * (previous.value - raw) > modulus {
          wraps := wraps + 1;
        }
        previous := Some(raw);
        stamps := stamps + [Stamp(Some(raw), Some(raw + wraps * modulus), wraps)];
      }
    }
    forall i | 0 <= i < |raws| ensures Stamped(raws, i, modulus, stamps[i]) {
      StampMeans(raws, i, modulus);
    }
  }

  /** The timestamp at `k` lies more than half a turn behind the one at `j`, the last before it. */
  predicate BackFrom(raws: seq<Option<nat>>, j: nat, k: nat, modulus: nat)
    requires k < |raws|
  {
    && j < k && raws[j].Some? && raws[k].Some? && (forall x :: j < x < k ==> raws[x].None?)
    && 2 * (raws[j].value - raws[k].value) > modulus
  }

  predicate Back(raws: seq<Option<nat>>, k: nat, modulus: nat)
    requires k < |raws|
  {
    exists j: nat :: j < k && BackFrom(raws, j, k, modulus)
  }

  /** The positions up to `n` where the counter came round. */
  function Turns(raws: seq<Option<nat>>, n: nat, modulus: nat): set<nat>
    requires n <= |raws|
  {
    set k: nat | k < n && Back(raws, k, modulus)
  }

  /** A record keeps its timestamp, counts the turns up to it, and its tick is both together. */
  ghost predicate Stamped(raws: seq<Option<nat>>, i: nat, modulus: nat, s: Stamp)
    requires i < |raws|
  {
    && s.raw == raws[i] && s.wraps == |Turns(raws, i + 1, modulus)|
    && (s.tick.Some? <==> raws[i].Some?)
    && (s.tick.Some? ==> s.tick.value == raws[i].value + s.wraps * modulus)
  }

  lemma StampMeans(raws: seq<Option<nat>>, i: nat, modulus: nat)
    requires i < |raws|
    ensures Stamped(raws, i, modulus, StampAt(raws, i, modulus))
  {
    WrapsCounted(raws, i + 1, modulus);
    hide Turns, Wraps;
  }

  lemma {:induction false} WrapsCounted(raws: seq<Option<nat>>, n: nat, modulus: nat)
    requires n <= |raws|
    ensures Wraps(raws, n, modulus) == |Turns(raws, n, modulus)|
    decreases n
  {
    if n == 0 {
      assert Turns(raws, 0, modulus) == {};
    } else {
      WrapsCounted(raws, n - 1, modulus);
      SeenIsBack(raws, n - 1, modulus);
      hide Back, WrapSeen, Previous, Turns;
      TurnsNext(raws, n - 1, modulus);
    }
  }

  lemma TurnsNext(raws: seq<Option<nat>>, n: nat, modulus: nat)
    requires n < |raws|
    ensures |Turns(raws, n + 1, modulus)| == |Turns(raws, n, modulus)| + if Back(raws, n, modulus) then 1 else 0
  {
    hide Back;
    var before, after := Turns(raws, n, modulus), Turns(raws, n + 1, modulus);
    if Back(raws, n, modulus) {
      assert after == before + {n};
    } else {
      assert after == before;
    }
  }

  lemma SeenIsBack(raws: seq<Option<nat>>, k: nat, modulus: nat)
    requires k < |raws|
    ensures Back(raws, k, modulus) <==> raws[k].Some? && WrapSeen(Previous(raws, k), raws[k].value, modulus)
  {
    PreviousIs(raws, k);
    var previous := Previous(raws, k);
    hide Previous;
    if previous.Some? {
      var j: nat :| j < k && raws[j] == previous && forall x :: j < x < k ==> raws[x].None?;
      assert forall i: nat :: i < k && BackFrom(raws, i, k, modulus) ==> i == j;
      assert Back(raws, k, modulus) == BackFrom(raws, j, k, modulus);
    } else {
      assert forall i: nat :: i < k ==> !BackFrom(raws, i, k, modulus);
    }
  }

  lemma {:induction false} PreviousIs(raws: seq<Option<nat>>, n: nat)
    requires n <= |raws|
    ensures if Previous(raws, n).None? then forall x :: 0 <= x < n ==> raws[x].None?
            else exists j: nat :: j < n && raws[j] == Previous(raws, n) && forall x :: j < x < n ==> raws[x].None?
    decreases n
  {
    if n > 0 && raws[n - 1].None? {
      PreviousIs(raws, n - 1);
    }
  }

  function Wrapped(ticks: seq<Option<nat>>, modulus: nat): (r: seq<Option<nat>>)
    requires modulus > 0
    ensures |r| == |ticks|
  {
    seq(|ticks|, i requires 0 <= i < |ticks| => if ticks[i].None? then None else Some(ticks[i].value % modulus))
  }

  /** Time never runs backwards. */
  predicate Forward(ticks: seq<Option<nat>>) {
    forall i :: 0 <= i < |ticks| && ticks[i].Some? && Previous(ticks, i).Some? ==>
      Previous(ticks, i).value <= ticks[i].value
  }

  /** The step that ends at `i` is a whole turn, or crosses one and is half a turn or longer. */
  predicate TooLong(ticks: seq<Option<nat>>, i: nat, modulus: nat)
    requires modulus > 0 && i < |ticks|
  {
    ticks[i].Some? && Previous(ticks, i).Some? && LongStep(Previous(ticks, i).value, ticks[i].value, modulus)
  }

  predicate LongStep(last: nat, t: nat, modulus: nat)
    requires modulus > 0
  {
    || t - last >= modulus
    || (last / modulus < t / modulus && 2 * (t - last) >= modulus)
  }

  /** The first timestamp, which fixes the turn the unfolding starts from. */
  function First(ticks: seq<Option<nat>>): nat {
    if ticks == [] then 0 else if ticks[0].Some? then ticks[0].value else First(ticks[1..])
  }

  /** A step shorter than a turn crosses at most one, and the test sees exactly the short crossings. */
  lemma StepSeen(last: nat, t: nat, modulus: nat)
    requires modulus > 0 && last <= t < last + modulus
    ensures t / modulus == last / modulus || t / modulus == last / modulus + 1
    ensures WrapSeen(Some(last % modulus), t % modulus, modulus)
       <==> t / modulus == last / modulus + 1 && 2 * (t - last) < modulus
  {
    var q, r := last / modulus, last % modulus;
    assert last == modulus * q + r;
    if t < modulus * q + modulus {
      RemainderUnique(t, modulus, q, t - modulus * q);
      QuotientUnique(t, modulus, q, t - modulus * q);
    } else {
      assert modulus * (q + 1) == modulus * q + modulus;
      RemainderUnique(t, modulus, q + 1, t - modulus * (q + 1));
      QuotientUnique(t, modulus, q + 1, t - modulus * (q + 1));
    }
  }

  /** The turns a step makes that the test does not count. */
  function Uncounted(last: nat, t: nat, modulus: nat): int
    requires modulus > 0
  {
    t / modulus - last / modulus - (if WrapSeen(Some(last % modulus), t % modulus, modulus) then 1 else 0)
  }

  lemma StepCounted(last: nat, t: nat, modulus: nat)
    requires modulus > 0 && last <= t
    ensures Uncounted(last, t, modulus) >= 0
    ensures Uncounted(last, t, modulus) == 0 <==> !LongStep(last, t, modulus)
  {
    if t < last + modulus {
      StepSeen(last, t, modulus);
    } else {
      var turns: int := t / modulus - last / modulus;
      var r, r' := last % modulus, t % modulus;
      assert modulus * turns + (r' - r) >= modulus by {
        assert last == modulus * (last / modulus) + r && t == modulus * (t / modulus) + r';
        assert modulus * turns == modulus * (t / modulus) - modulus * (last / modulus);
      }
      ManyTurns(turns, modulus, r' - r);
    }
  }

  lemma ManyTurns(turns: int, modulus: int, gap: int)
    requires modulus > 0 && -modulus < gap < modulus && modulus * turns + gap >= modulus
    ensures turns >= 1 && (gap < 0 ==> turns >= 2)
  {
    if turns <= 0 {
      NoTurnsBack(turns, modulus);
      assert false;
    } else if turns == 1 {
      assert modulus * turns == modulus;
    }
  }

  lemma NoTurnsBack(turns: int, modulus: int)
    requires turns <= 0 < modulus
    ensures modulus * turns <= 0
  {
  }

  lemma {:induction false} PreviousWrapped(ticks: seq<Option<nat>>, n: nat, modulus: nat)
    requires modulus > 0 && n <= |ticks|
    ensures Previous(Wrapped(ticks, modulus), n)
         == (match Previous(ticks, n) case None => None case Some(t) => Some(t % modulus))
    decreases n
  {
    if n == 0 {
    } else {
      PreviousWrapped(ticks, n - 1, modulus);
    }
  }

  /** Missed turns are the only difference between the counted and the true ones. */
  function Missed(ticks: seq<Option<nat>>, n: nat, modulus: nat): int
    requires n <= |ticks| && modulus > 0
  {
    if n == 0 then 0
    else
      Missed(ticks, n - 1, modulus)
      + (if ticks[n - 1].Some? && Previous(ticks, n - 1).Some?
         then Uncounted(Previous(ticks, n - 1).value, ticks[n - 1].value, modulus) else 0)
  }

  lemma {:induction false} TurnsCounted(ticks: seq<Option<nat>>, n: nat, modulus: nat)
    requires modulus > 0 && n <= |ticks| && Forward(ticks)
    ensures var last := Previous(ticks, n);
            if last.None? then Wraps(Wrapped(ticks, modulus), n, modulus) == 0 && Missed(ticks, n, modulus) == 0
            else Wraps(Wrapped(ticks, modulus), n, modulus) + Missed(ticks, n, modulus)
                   == last.value / modulus - First(ticks) / modulus
    decreases n
  {
    if n == 0 {
    } else {
      TurnsCounted(ticks, n - 1, modulus);
      PreviousWrapped(ticks, n - 1, modulus);
      var last := Previous(ticks, n - 1);
      if ticks[n - 1].Some? {
        if last.Some? {
          StepCounted(last.value, ticks[n - 1].value, modulus);
        } else {
          FirstFound(ticks, n - 1);
        }
      }
    }
  }

  lemma {:induction false} FirstFound(ticks: seq<Option<nat>>, n: nat)
    requires n < |ticks| && Previous(ticks, n).None? && ticks[n].Some?
    ensures First(ticks) == ticks[n].value
    decreases n
  {
    if n == 0 {
    } else {
      NothingBefore(ticks, n, 0);
      NoneShift(ticks, n);
      FirstFound(ticks[1..], n - 1);
    }
  }

  lemma {:induction false} NothingBefore(ticks: seq<Option<nat>>, n: nat, i: nat)
    requires i < n <= |ticks| && Previous(ticks, n).None?
    ensures ticks[i].None?
    decreases n
  {
    if i == n - 1 {
    } else {
      NothingBefore(ticks, n - 1, i);
    }
  }

  lemma {:induction false} NoneShift(ticks: seq<Option<nat>>, n: nat)
    requires 0 < n <= |ticks| && Previous(ticks, n).None?
    ensures Previous(ticks[1..], n - 1).None?
    decreases n
  {
    if n == 1 {
    } else {
      NoneShift(ticks, n - 1);
    }
  }

  /** What was missed by a position pushes its tick back by that many turns. */
  lemma TickRecovered(ticks: seq<Option<nat>>, i: nat, modulus: nat)
    requires modulus > 0 && i < |ticks| && Forward(ticks) && ticks[i].Some?
    ensures StampAt(Wrapped(ticks, modulus), i, modulus).tick
         == Some(ticks[i].value - First(ticks) / modulus * modulus - Missed(ticks, i + 1, modulus) * modulus)
  {
    hide *;
    var wraps := TickStamped(ticks, i, modulus);
    SumOfTurns(ticks[i].value, modulus, wraps, First(ticks) / modulus, Missed(ticks, i + 1, modulus));
  }

  lemma TickStamped(ticks: seq<Option<nat>>, i: nat, modulus: nat) returns (wraps: nat)
    requires modulus > 0 && i < |ticks| && Forward(ticks) && ticks[i].Some?
    ensures StampAt(Wrapped(ticks, modulus), i, modulus).tick == Some(ticks[i].value % modulus + wraps * modulus)
    ensures wraps + Missed(ticks, i + 1, modulus) == ticks[i].value / modulus - First(ticks) / modulus
  {
    TurnsCounted(ticks, i + 1, modulus);
    hide Wraps, Missed, First, Forward;
    assert Previous(ticks, i + 1) == ticks[i];
    wraps := Wraps(Wrapped(ticks, modulus), i + 1, modulus);
  }

  lemma SumOfTurns(t: nat, modulus: nat, wraps: nat, base: nat, missed: int)
    requires modulus > 0 && wraps + missed == t / modulus - base
    ensures t % modulus + wraps * modulus == t - base * modulus - missed * modulus
  {
    var q := t / modulus;
    assert t == modulus * q + t % modulus;
    assert wraps * modulus == q * modulus - base * modulus - missed * modulus by {
      assert wraps == q - base - missed;
    }
  }

  lemma {:induction false} NoneMissed(ticks: seq<Option<nat>>, n: nat, modulus: nat)
    requires modulus > 0 && n <= |ticks| && Forward(ticks)
    ensures Missed(ticks, n, modulus) >= 0
    ensures Missed(ticks, n, modulus) == 0 <==> forall i :: 0 <= i < n ==> !TooLong(ticks, i, modulus)
    decreases n
  {
    if n == 0 {
    } else {
      NoneMissed(ticks, n - 1, modulus);
      if ticks[n - 1].Some? && Previous(ticks, n - 1).Some? {
        var last, t := Previous(ticks, n - 1).value, ticks[n - 1].value;
        StepCounted(last, t, modulus);
        assert Missed(ticks, n, modulus) == Missed(ticks, n - 1, modulus) + Uncounted(last, t, modulus);
        assert TooLong(ticks, n - 1, modulus) == LongStep(last, t, modulus);
      }
    }
  }

  /** The tick at `i` is the true one, up to the turn of the first. */
  predicate Recovered(ticks: seq<Option<nat>>, i: nat, modulus: nat)
    requires modulus > 0 && i < |ticks| && ticks[i].Some?
  {
    StampAt(Wrapped(ticks, modulus), i, modulus).tick == Some(ticks[i].value - First(ticks) / modulus * modulus)
  }

  lemma RecoveredIfNoneMissed(ticks: seq<Option<nat>>, i: nat, modulus: nat)
    requires modulus > 0 && i < |ticks| && Forward(ticks) && ticks[i].Some?
    ensures Recovered(ticks, i, modulus) <==> forall k :: 0 <= k <= i ==> !TooLong(ticks, k, modulus)
  {
    TickRecovered(ticks, i, modulus);
    NoneMissed(ticks, i + 1, modulus);
    NoTurns(Missed(ticks, i + 1, modulus), modulus);
  }

  lemma NoTurns(turns: int, modulus: nat)
    requires modulus > 0
    ensures turns * modulus == 0 <==> turns == 0
  {
    SmallMultiple(modulus, turns);
  }

  /** Half a turn is already too long: 7 then 11 on a counter of 8 is read as 7 then 3. */
  lemma HalfTurnMissed()
    ensures var ticks := [Some(7), Some(11)];
            Forward(ticks) && StampAt(Wrapped(ticks, 8), 1, 8).tick == Some(3)
  {
    var ticks: seq<Option<nat>> := [Some(7), Some(11)];
    var raws := Wrapped(ticks, 8);
    assert Previous(ticks, 1) == Some(7) && Previous(raws, 1) == Some(7) && Previous(raws, 0) == None;
    assert Wraps(raws, 1, 8) == 0;
  }

  /**
   For ticks that never run backwards, with empty records anywhere: every tick is recovered,
   up to the turn of the first one, exactly when every step is shorter than a turn and no step
   across a turn is half a turn or longer.
   */
  lemma AllTicksRecovered(ticks: seq<Option<nat>>, modulus: nat)
    requires modulus > 0 && Forward(ticks)
    ensures (forall i :: 0 <= i < |ticks| && ticks[i].Some? ==> Recovered(ticks, i, modulus))
       <==> (forall i :: 0 <= i < |ticks| ==> !TooLong(ticks, i, modulus))
  {
    forall i | 0 <= i < |ticks| && ticks[i].Some?
      ensures Recovered(ticks, i, modulus) <==> forall k :: 0 <= k <= i ==> !TooLong(ticks, k, modulus)
    {
      RecoveredIfNoneMissed(ticks, i, modulus);
    }
  }
}
