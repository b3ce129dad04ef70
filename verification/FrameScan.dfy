/**
 Resynchronising parsing of a byte stream, for any rule that decides about the front of it:
 skip a byte, give up a candidate, take a frame, or wait for more.
 */
module FrameScan {
  import opened Bytes

  /** What a parser does with the front of its buffer. */
  datatype Verdict =
    | Wait
    | Skip
    | Reject(raw: bytes, width: nat)
    | Accept(raw: bytes)
  {
    function Width(): nat {
      match this
      case Wait => 0
      case Skip => 1
      case Reject(_, width) => width
      case Accept(raw) => |raw|
    }
  }

  type Judge = bytes -> Verdict

  /** A rule consumes something whenever it decides, and more input never changes a decision. */
  ghost predicate Sound(j: Judge) {
    && (forall s: bytes :: !j(s).Wait? ==> 0 < j(s).Width() <= |s|)
    && (forall s: bytes, more: bytes :: !j(s).Wait? ==> j(s + more) == j(s))
  }

  datatype Event = Event(at: nat, verdict: Verdict)

  /** Everything a parser decides on the bytes of `s` from position `i` on, and where it stops. */
  datatype Parse = Parse(events: seq<Event>, end: nat)

  ghost function Scan(j: Judge, s: bytes, i: nat): (r: Parse)
    requires Sound(j) && i <= |s|
    ensures i <= r.end <= |s|
    decreases |s| - i
  {
    var v := j(s[i..]);
    if v.Wait? then Parse([], i)
    else
      var rest := Scan(j, s, i + v.Width());
      Parse([Event(i, v)] + rest.events, rest.end)
  }

  /** Parsing a longer stream continues where parsing its beginning stopped. */
  lemma {:induction false} ScanExtends(j: Judge, s: bytes, more: bytes, i: nat)
    requires Sound(j) && i <= |s|
    ensures var first := Scan(j, s, i);
            var rest := Scan(j, s + more, first.end);
            Scan(j, s + more, i) == Parse(first.events + rest.events, rest.end)
    decreases |s| - i
  {
    if j(s[i..]).Wait? {
      var rest := Scan(j, s + more, i);
      assert [] + rest.events == rest.events;
    } else {
      var next := i + j(s[i..]).Width();
      JudgeLonger(j, s, more, i);
      ScanExtends(j, s, more, next);
      JoinParses(Event(i, j(s[i..])), Scan(j, s, next), Scan(j, s + more, Scan(j, s, next).end));
    }
  }

  lemma JudgeLonger(j: Judge, s: bytes, more: bytes, i: nat)
    requires Sound(j) && i <= |s| && !j(s[i..]).Wait?
    ensures j((s + more)[i..]) == j(s[i..])
  {
    assert (s + more)[i..] == s[i..] + more;
  }

  lemma JoinParses(e: Event, first: Parse, rest: Parse)
    ensures [e] + first.events + rest.events == [e] + (first.events + rest.events)
  {
  }

  /** The stream from `i` to `end` is cut, without gap or overlap, into what each event consumed. */
  ghost predicate Tiles(j: Judge, s: bytes, events: seq<Event>, i: nat, end: nat)
    decreases |events|
  {
    if events == [] then i == end
    else
      var e := events[0];
      && e.at == i <= |s| && e.verdict == j(s[i..]) && !e.verdict.Wait?
      && Tiles(j, s, events[1..], i + e.verdict.Width(), end)
  }

  lemma {:induction false} ScanTiles(j: Judge, s: bytes, i: nat)
    requires Sound(j) && i <= |s|
    ensures Tiles(j, s, Scan(j, s, i).events, i, Scan(j, s, i).end)
    ensures j(s[Scan(j, s, i).end..]).Wait?
    decreases |s| - i
  {
    var v := j(s[i..]);
    if v.Wait? {
    } else {
      ScanTiles(j, s, i + v.Width());
      TilesCons(j, s, i, v, Scan(j, s, i + v.Width()));
    }
  }

  lemma TilesCons(j: Judge, s: bytes, i: nat, v: Verdict, rest: Parse)
    requires Sound(j) && i <= |s| && v == j(s[i..]) && !v.Wait?
    requires Tiles(j, s, rest.events, i + v.Width(), rest.end)
    ensures Tiles(j, s, [Event(i, v)] + rest.events, i, rest.end)
  {
    assert ([Event(i, v)] + rest.events)[1..] == rest.events;
  }

  /** The event that consumed position `q`. */
  lemma {:induction false} EventAt(j: Judge, s: bytes, events: seq<Event>, i: nat, end: nat, q: nat)
      returns (k: nat)
    requires Sound(j) && Tiles(j, s, events, i, end) && i <= q < end
    ensures k < |events| && events[k].at <= q < events[k].at + events[k].verdict.Width()
    ensures events[k].at <= |s| && events[k].verdict == j(s[events[k].at..])
    decreases |events|
  {
    var e := events[0];
    if q < i + e.verdict.Width() {
      k := 0;
    } else {
      var later := EventAt(j, s, events[1..], i + e.verdict.Width(), end, q);
      k := later + 1;
    }
  }

  lemma {:induction false} EventsOrdered(j: Judge, s: bytes, events: seq<Event>, i: nat, end: nat, m: nat, k: nat)
    requires Sound(j) && Tiles(j, s, events, i, end) && m < k < |events|
    ensures i <= events[m].at && events[m].at + events[m].verdict.Width() <= events[k].at
    ensures events[k].at + events[k].verdict.Width() <= end
    decreases |events|
  {
    var rest, next := events[1..], i + events[0].verdict.Width();
    if m > 0 {
      EventsOrdered(j, s, rest, next, end, m - 1, k - 1);
    } else {
      EventWithin(j, s, rest, next, end, k - 1);
    }
  }

  lemma {:induction false} EventWithin(j: Judge, s: bytes, events: seq<Event>, i: nat, end: nat, k: nat)
    requires Sound(j) && Tiles(j, s, events, i, end) && k < |events|
    ensures i <= events[k].at && events[k].at + events[k].verdict.Width() <= end
    ensures events[k].at <= |s| && events[k].verdict == j(s[events[k].at..])
    ensures !events[k].verdict.Wait?
    decreases |events|
  {
    var next := i + events[0].verdict.Width();
    if k > 0 {
      EventWithin(j, s, events[1..], next, end, k - 1);
    } else {
      TilesForward(j, s, events[1..], next, end);
    }
  }

  lemma {:induction false} TilesForward(j: Judge, s: bytes, events: seq<Event>, i: nat, end: nat)
    requires Sound(j) && Tiles(j, s, events, i, end)
    ensures i <= end
    decreases |events|
  {
    if events == [] {
    } else {
      TilesForward(j, s, events[1..], i + events[0].verdict.Width(), end);
    }
  }

  function Verdicts(events: seq<Event>): seq<Verdict> {
    seq(|events|, k requires 0 <= k < |events| => events[k].verdict)
  }

  /** Decisions depend only on what is left of the stream, not on what was consumed before. */
  lemma ScanShift(j: Judge, s: bytes, cut: nat, i: nat)
    requires Sound(j) && cut + i <= |s|
    ensures var whole, part := Scan(j, s, cut + i), Scan(j, s[cut..], i);
            Verdicts(whole.events) == Verdicts(part.events) && whole.end == cut + part.end
  {
    hide Sound, Scan, Verdicts;
    assert s[cut + i..] == s[cut..][i..];
    ScanMoved(j, s, s[cut..], cut + i, i);
  }

  lemma {:induction false} ScanMoved(j: Judge, s: bytes, tail: bytes, at: nat, i: nat)
    requires Sound(j) && i <= at <= |s| && i <= |tail| && s[at..] == tail[i..]
    ensures Verdicts(Scan(j, s, at).events) == Verdicts(Scan(j, tail, i).events)
    ensures Scan(j, s, at).end == at - i + Scan(j, tail, i).end
    decreases |s| - at
  {
    hide Sound, Scan, Verdicts;
    if j(s[at..]).Wait? {
      NothingScanned(j, s, at);
      NothingScanned(j, tail, i);
    } else {
      var w := NextPlace(j, s, tail, at, i);
      ScanMoved(j, s, tail, at + w, i + w);
      ShiftStep(j, s, tail, at, i);
    }
  }

  lemma NextPlace(j: Judge, s: bytes, tail: bytes, at: nat, i: nat) returns (w: nat)
    requires Sound(j) && at <= |s| && i <= |tail| && s[at..] == tail[i..] && !j(s[at..]).Wait?
    ensures w == j(s[at..]).Width() && 0 < w <= |s| - at && w <= |tail| - i && s[at + w..] == tail[i + w..]
  {
    w := j(s[at..]).Width();
    assert s[at + w..] == s[at..][w..] && tail[i + w..] == tail[i..][w..];
  }

  lemma NothingScanned(j: Judge, s: bytes, i: nat)
    requires Sound(j) && i <= |s| && j(s[i..]).Wait?
    ensures Scan(j, s, i) == Parse([], i)
  {
  }

  lemma ShiftStep(j: Judge, s: bytes, tail: bytes, at: nat, i: nat)
    requires Sound(j) && i <= at <= |s| && i <= |tail| && s[at..] == tail[i..] && !j(s[at..]).Wait?
    requires var w := j(s[at..]).Width();
             && Verdicts(Scan(j, s, at + w).events) == Verdicts(Scan(j, tail, i + w).events)
             && Scan(j, s, at + w).end == at - i + Scan(j, tail, i + w).end
    ensures Verdicts(Scan(j, s, at).events) == Verdicts(Scan(j, tail, i).events)
    ensures Scan(j, s, at).end == at - i + Scan(j, tail, i).end
  {
    ScanStep(j, s, at);
    ScanStep(j, tail, i);
  }

  lemma ScanStep(j: Judge, s: bytes, i: nat)
    requires Sound(j) && i <= |s| && !j(s[i..]).Wait?
    ensures var v := j(s[i..]);
            var rest := Scan(j, s, i + v.Width());
            && Verdicts(Scan(j, s, i).events) == [v] + Verdicts(rest.events)
            && Scan(j, s, i).end == rest.end
  {
    var v := j(s[i..]);
    VerdictsCons(Event(i, v), Scan(j, s, i + v.Width()).events);
  }

  /** The first decision, and the parse of what it leaves. */
  lemma ScanFront(j: Judge, s: bytes)
    requires Sound(j) && !j(s).Wait?
    ensures var v := j(s);
            var rest := Scan(j, s[v.Width()..], 0);
            && Verdicts(Scan(j, s, 0).events) == [v] + Verdicts(rest.events)
            && Scan(j, s, 0).end == v.Width() + rest.end
  {
    assert s[0..] == s;
    ScanStep(j, s, 0);
    ScanShift(j, s, j(s).Width(), 0);
  }

  /** A stream cut in two: the second parse starts from what the first left over. */
  lemma ScanCut(j: Judge, s: bytes, more: bytes)
    requires Sound(j)
    ensures var first := Scan(j, s, 0);
            var rest := Scan(j, s[first.end..] + more, 0);
            && Verdicts(Scan(j, s + more, 0).events) == Verdicts(first.events) + Verdicts(rest.events)
            && Scan(j, s + more, 0).end == first.end + rest.end
  {
    var first := Scan(j, s, 0);
    ScanExtends(j, s, more, 0);
    ScanRest(j, s, more, first.end);
    VerdictsAppend(first.events, Scan(j, s + more, first.end).events);
  }

  lemma ScanRest(j: Judge, s: bytes, more: bytes, end: nat)
    requires Sound(j) && end <= |s|
    ensures var whole, rest := Scan(j, s + more, end), Scan(j, s[end..] + more, 0);
            Verdicts(whole.events) == Verdicts(rest.events) && whole.end == end + rest.end
  {
    assert (s + more)[end..] == s[end..] + more;
    ScanShift(j, s + more, end, 0);
  }

  lemma VerdictsCons(e: Event, events: seq<Event>)
    ensures Verdicts([e] + events) == [e.verdict] + Verdicts(events)
  {
  }

  lemma VerdictsAppend(a: seq<Event>, b: seq<Event>)
    ensures Verdicts(a + b) == Verdicts(a) + Verdicts(b)
  {
  }
}
