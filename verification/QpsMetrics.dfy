/** The hit deque behind the request-rate figures. */
module QpsMetrics {
  /** Timestamps in milliseconds, oldest first. */
  function DropBefore(hits: seq<int>, cutoff: int): seq<int> {
    if hits != [] && hits[0] < cutoff then DropBefore(hits[1..], cutoff) else hits
  }

  /** The hits at or after a moment, from any listing. */
  function Since(hits: seq<int>, cutoff: int): seq<int> {
    if hits == [] then []
    else if hits[0] >= cutoff then [hits[0]] + Since(hits[1..], cutoff)
    else Since(hits[1..], cutoff)
  }

  predicate Nondecreasing(hits: seq<int>) {
    forall i, j | 0 <= i < j < |hits| :: hits[i] <= hits[j]
  }

  const KEEP_MS := 10000

  /** `getQps` on what is left after the purge. */
  function Rate(left: seq<int>, now: int): real {
    if left == [] then 0.0
    else
      var window := (now - left[0]) as real / 1000.0;
      if window <= 0.0 then 0.0 else |left| as real / window
  }

  /** A rate times the seconds since the oldest counted hit is the count; hits of this very
      millisecond alone give zero. */
  lemma RateTimesWindow(left: seq<int>, now: int)
    requires left != []
    ensures left[0] < now ==> Rate(left, now) * ((now - left[0]) as real / 1000.0) == |left| as real
    ensures left[0] >= now ==> Rate(left, now) == 0.0
  {
    if left[0] < now {
      QuotientTimes(|left| as real, (now - left[0]) as real / 1000.0);
    }
  }

  lemma QuotientTimes(a: real, b: real)
    requires b != 0.0
    ensures a / b * b == a
  {
  }

  function Max(a: int, b: int): int {
    if a > b then a else b
  }

  /** A hit, or a query over a window of some seconds. */
  datatype Event = Hit(now: int) | Query(seconds: nat, now: int)

  function CutoffOf(e: Event): int {
    match e
    case Hit(now) => now - KEEP_MS
    case Query(seconds, now) => now - seconds * 1000
  }

  /** The deque, the full history of hits and the largest cutoff applied so far. */
  datatype State = State(hits: seq<int>, history: seq<int>, cutoff: int)

  function Happen(s: State, e: Event): State {
    var added := if e.Hit? then [e.now] else [];
    State(DropBefore(s.hits + added, CutoffOf(e)), s.history + added, Max(s.cutoff, CutoffOf(e)))
  }

  lemma QueryStep(s: State, seconds: nat, now: int)
    ensures var start := now - seconds * 1000;
            Happen(s, Query(seconds, now)) == State(DropBefore(s.hits, start), s.history, Max(s.cutoff, start))
  {
    assert s.hits + [] == s.hits && s.history + [] == s.history;
  }

  /** The deque and the counter; ghost fields keep the full history and the largest cutoff. */
  class Metrics {
    var total: nat
    var hits: seq<int>
    ghost var history: seq<int>
    ghost var cutoff: int

    constructor ()
      ensures total == 0 && View() == State([], [], 0)
    {
      total, hits := 0, [];
      history, cutoff := [], 0;
    }

    ghost function View(): State
      reads this
    {
      State(hits, history, cutoff)
    }

    method PurgeOld(before: int)
      modifies this`hits, this`cutoff
      ensures hits == DropBefore(old(hits), before) && cutoff == Max(old(cutoff), before)
    {
      cutoff := Max(cutoff, before);
      while hits != [] && hits[0] < before
        invariant DropBefore(hits, before) == DropBefore(old(hits), before)
        invariant cutoff == Max(old(cutoff), before)
        decreases |hits|
      {
        hits := hits[1..];
      }
    }

    method Before(now: int)
      modifies this
      ensures total == old(total) + 1
      ensures View() == Happen(old(View()), Hit(now))
    {
      total := total + 1;
      hits := hits + [now];
      history := history + [now];
      PurgeOld(now - 10000);
    }

    method GetQps(windowSeconds: nat, now: int) returns (qps: real)
      modifies this`hits, this`history, this`cutoff
      ensures View() == Happen(old(View()), Query(windowSeconds, now))
      ensures qps == Rate(hits, now)
    {
      QueryStep(View(), windowSeconds, now);
      PurgeOld(now - windowSeconds * 1000);
      if hits == [] {
        return 0.0;
      }
      var actualWindow := (now - hits[0]) as real / 1000.0;
      if actualWindow <= 0.0 {
        return 0.0;
      }
      qps := |hits| as real / actualWindow;
    }

    /** The three figures of one metrics call, each with its own clock reading. */
    method GetMetrics(now1: int, now5: int, now60: int) returns (qps1: real, qps5: real, qps60: real)
      modifies this`hits, this`history, this`cutoff
      ensures var a := Happen(old(View()), Query(1, now1));
              var b := Happen(a, Query(5, now5));
              && View() == Happen(b, Query(60, now60))
              && qps1 == Rate(a.hits, now1) && qps5 == Rate(b.hits, now5) && qps60 == Rate(hits, now60)
    {
      qps1 := GetQps(1, now1);
      qps5 := GetQps(5, now5);
      qps60 := GetQps(60, now60);
    }
  }

  // ----- the deque against the full history -----

  /** On a nondecreasing list dropping from the front is filtering. */
  lemma {:induction false} DropIsSince(hits: seq<int>, cutoff: int)
    requires Nondecreasing(hits)
    ensures DropBefore(hits, cutoff) == Since(hits, cutoff)
  {
    if hits == [] || hits[0] >= cutoff {
      SinceAll(hits, cutoff);
    } else {
      TailNondecreasing(hits);
      DropIsSince(hits[1..], cutoff);
    }
  }

  lemma TailNondecreasing(hits: seq<int>)
    requires Nondecreasing(hits) && hits != []
    ensures Nondecreasing(hits[1..])
  {
    var rest := hits[1..];
    assert forall i | 0 <= i < |rest| :: rest[i] == hits[i + 1];
  }

  lemma {:induction false} SinceAll(hits: seq<int>, cutoff: int)
    requires forall i | 0 <= i < |hits| :: hits[i] >= cutoff
    ensures Since(hits, cutoff) == hits
  {
    if hits != [] {
      SinceAll(hits[1..], cutoff);
    }
  }

  lemma {:induction false} SinceConcat(a: seq<int>, b: seq<int>, cutoff: int)
    ensures Since(a + b, cutoff) == Since(a, cutoff) + Since(b, cutoff)
  {
    if a == [] {
      assert a + b == b;
    } else {
      assert (a + b)[1..] == a[1..] + b;
      SinceConcat(a[1..], b, cutoff);
    }
  }

  lemma {:induction false} SinceTwice(hits: seq<int>, first: int, second: int)
    ensures Since(Since(hits, first), second) == Since(hits, Max(first, second))
  {
    if hits != [] {
      SinceTwice(hits[1..], first, second);
      if hits[0] >= first {
        assert ([hits[0]] + Since(hits[1..], first))[1..] == Since(hits[1..], first);
      }
    }
  }

  lemma {:induction false} SinceSorted(hits: seq<int>, cutoff: int)
    requires Nondecreasing(hits)
    ensures Nondecreasing(Since(hits, cutoff))
  {
    if hits != [] {
      var rest := hits[1..];
      assert forall i | 0 <= i < |rest| :: rest[i] == hits[i + 1];
      SinceSorted(rest, cutoff);
      if hits[0] >= cutoff {
        SinceAll(rest, cutoff);
      }
    }
  }

  /** Clock readings never go back. */
  predicate InTime(s: State, e: Event) {
    (forall i | 0 <= i < |s.history| :: s.history[i] <= e.now) && s.cutoff <= e.now
  }

  ghost predicate Refines(s: State) {
    Nondecreasing(s.history) && s.hits == Since(s.history, s.cutoff)
  }

  lemma HappenRefines(s: State, e: Event)
    requires Refines(s) && InTime(s, e)
    ensures Refines(Happen(s, e))
  {
    var added := if e.Hit? then [e.now] else [];
    SinceSorted(s.history, s.cutoff);
    SinceConcat(s.history, added, s.cutoff);
    assert added != [] ==> Since(added, s.cutoff) == added by {
      SinceAll(added, s.cutoff);
    }
    assert s.hits + added == Since(s.history + added, s.cutoff) by {
      assert added == [] ==> s.hits + added == s.hits;
    }
    SinceSorted(s.history + added, s.cutoff);
    DropIsSince(s.hits + added, CutoffOf(e));
    SinceTwice(s.history + added, s.cutoff, CutoffOf(e));
  }

  predicate InTimeRun(s: State, events: seq<Event>)
    decreases |events|
  {
    events == [] || (InTime(s, events[0]) && InTimeRun(Happen(s, events[0]), events[1..]))
  }

  function HappenAll(s: State, events: seq<Event>): State
    decreases |events|
  {
    if events == [] then s else HappenAll(Happen(s, events[0]), events[1..])
  }

  /** Sliding window refinement: after any mix of hits and queries the deque is the full history
      from the largest cutoff applied so far. */
  lemma {:induction false} WindowRefinement(s: State, events: seq<Event>)
    requires Refines(s) && InTimeRun(s, events)
    ensures Refines(HappenAll(s, events))
    decreases |events|
  {
    if events != [] {
      HappenRefines(s, events[0]);
      WindowRefinement(Happen(s, events[0]), events[1..]);
    }
  }

  lemma {:induction false} SinceCount(hits: seq<int>, early: int, late: int)
    requires early <= late
    ensures |Since(hits, late)| <= |Since(hits, early)|
    ensures |Since(hits, late)| == |Since(hits, early)| <==> forall i | 0 <= i < |hits| :: !(early <= hits[i] < late)
  {
    if hits != [] {
      SinceCount(hits[1..], early, late);
      assert forall i | 0 <= i < |hits[1..]| :: hits[1..][i] == hits[i + 1];
      if forall i | 0 <= i < |hits[1..]| :: !(early <= hits[1..][i] < late) {
        assert forall i | 1 <= i < |hits| :: hits[i] == hits[1..][i - 1];
      }
    }
  }

  /** A query counts its window exactly iff no hit lies between the window's start and a later
      cutoff applied before. */
  lemma QueryExactly(s: State, seconds: nat, now: int)
    requires Refines(s) && InTime(s, Query(seconds, now))
    ensures var start := now - seconds * 1000;
            |Happen(s, Query(seconds, now)).hits| == |Since(s.history, start)|
            <==> forall i | 0 <= i < |s.history| :: !(start <= s.history[i] < s.cutoff)
  {
    var start := now - seconds * 1000;
    HappenRefines(s, Query(seconds, now));
    QueryStep(s, seconds, now);
    if start <= s.cutoff {
      SinceCount(s.history, start, s.cutoff);
    }
  }

  lemma QueryLeaves(s: State, seconds: nat, now: int)
    requires Refines(s) && InTime(s, Query(seconds, now))
    ensures var r, cutoff := Happen(s, Query(seconds, now)), Max(s.cutoff, now - seconds * 1000);
            Refines(r) && r.history == s.history && r.cutoff == cutoff && r.hits == Since(s.history, cutoff)
  {
    HappenRefines(s, Query(seconds, now));
    QueryStep(s, seconds, now);
  }

  /** After a hit the deque holds the hits of the last ten seconds, less what a later cutoff took. */
  lemma HitKeepsTenSeconds(s: State, now: int)
    requires Refines(s) && InTime(s, Hit(now))
    ensures Happen(s, Hit(now)).hits == Since(s.history + [now], Max(s.cutoff, now - 10000))
  {
    HappenRefines(s, Hit(now));
  }

  /** In one metrics call the five and sixty second figures count only hits that survived the
      one second purge, when its clock readings lie within four seconds. */
  lemma MetricsCountLastSecond(s: State, now1: int, now5: int, now60: int)
    requires Refines(s) && InTime(s, Query(1, now1)) && now1 <= now5 <= now60 <= now1 + 4000
    ensures var a := Happen(s, Query(1, now1));
            var b := Happen(a, Query(5, now5));
            var c := Happen(b, Query(60, now60));
            a.hits == b.hits == c.hits == Since(s.history, Max(s.cutoff, now1 - 1000))
  {
    var a := Happen(s, Query(1, now1));
    QueryLeaves(s, 1, now1);
    QueryLeaves(a, 5, now5);
    QueryLeaves(Happen(a, Query(5, now5)), 60, now60);
  }
}
