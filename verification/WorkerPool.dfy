/** The asynchronous write path as a step system: statements published to a queue, workers that
    consume, execute and acknowledge them one at a time. */
module WorkerPool {
  type Statement = nat   // each published message is its own
  type WorkerId = nat

  /** What a worker's channel holds; with a prefetch of one that is at most one statement. */
  datatype Slot =
    | Free
    | Delivered(m: Statement)   // pushed by the broker, not yet returned to the loop
    | Taken(m: Statement)       // returned to the loop, handler not finished
    | Ran(m: Statement)         // handler returned, not yet acknowledged

  /** A worker that left its loop, by exception or by shutdown, never comes back. */
  datatype Worker = Up(slot: Slot) | Down

  datatype System = System(
    queued: set<Statement>,
    workers: map<WorkerId, Worker>,
    acked: set<Statement>,
    published: set<Statement>,
    executions: map<Statement, nat>,
    failures: map<Statement, nat>,
    stop: bool)

  function Count(counts: map<Statement, nat>, m: Statement): nat {
    if m in counts then counts[m] else 0
  }

  function Bump(counts: map<Statement, nat>, m: Statement): map<Statement, nat> {
    counts[m := Count(counts, m) + 1]
  }

  datatype Step =
    | Publish(m: Statement)
    | Deliver(w: WorkerId, m: Statement)
    | Take(w: WorkerId)
    | Execute(w: WorkerId)
    | ExecuteThrows(w: WorkerId, effect: bool)   // the statement may or may not have taken effect
    | Ack(w: WorkerId)
    | AckThrows(w: WorkerId, arrived: bool)      // the acknowledgement may or may not have arrived
    | PollThrows(w: WorkerId)
    | Stop
    | Exit(w: WorkerId)

  function SlotOf(s: System, w: WorkerId): Slot {
    if w in s.workers && s.workers[w].Up? then s.workers[w].slot else Free
  }

  predicate IsUp(s: System, w: WorkerId) {
    w in s.workers && s.workers[w].Up?
  }

  /** At the head of its loop: nothing returned by the broker is in hand. */
  predicate AtHead(s: System, w: WorkerId) {
    IsUp(s, w) && (SlotOf(s, w).Free? || SlotOf(s, w).Delivered?)
  }

  predicate Enabled(s: System, step: Step) {
    match step
    case Publish(m) => m !in s.published
    case Deliver(w, m) => IsUp(s, w) && SlotOf(s, w).Free? && m in s.queued
    case Take(w) => SlotOf(s, w).Delivered?
    case Execute(w) => SlotOf(s, w).Taken?
    case ExecuteThrows(w, _) => SlotOf(s, w).Taken?
    case Ack(w) => SlotOf(s, w).Ran?
    case AckThrows(w, _) => SlotOf(s, w).Ran?
    case PollThrows(w) => AtHead(s, w)
    case Stop => true
    case Exit(w) => s.stop && AtHead(s, w)
  }

  function Put(s: System, w: WorkerId, slot: Slot): System {
    s.(workers := s.workers[w := Up(slot)])
  }

  /** The worker's channel closes and the broker takes back what was not acknowledged. */
  function Close(s: System, w: WorkerId): System {
    var slot := SlotOf(s, w);
    s.(workers := s.workers[w := Down], queued := if slot.Free? then s.queued else s.queued + {slot.m})
  }

  function Apply(s: System, step: Step): System
    requires Enabled(s, step)
  {
    match step
    case Publish(m) => s.(queued := s.queued + {m}, published := s.published + {m})
    case Deliver(w, m) => Put(s.(queued := s.queued - {m}), w, Delivered(m))
    case Take(w) => Put(s, w, Taken(SlotOf(s, w).m))
    case Execute(w) =>
      var m := SlotOf(s, w).m;
      Put(s.(executions := Bump(s.executions, m)), w, Ran(m))
    case ExecuteThrows(w, effect) =>
      var m := SlotOf(s, w).m;
      Close(s, w).(failures := Bump(s.failures, m),
                   executions := if effect then Bump(s.executions, m) else s.executions)
    case Ack(w) => Put(s.(acked := s.acked + {SlotOf(s, w).m}), w, Free)
    case AckThrows(w, arrived) =>
      var m := SlotOf(s, w).m;
      var t := s.(failures := Bump(s.failures, m));
      if arrived then t.(acked := s.acked + {m}, workers := s.workers[w := Down]) else Close(t, w)
    case PollThrows(w) => Close(s, w)
    case Stop => s.(stop := true)
    case Exit(w) => Close(s, w)
  }

  predicate Initial(s: System) {
    && s.queued == {} && s.acked == {} && s.published == {}
    && s.executions == map[] && s.failures == map[] && !s.stop
    && forall w | w in s.workers :: s.workers[w] == Up(Free)
  }

  predicate Runs(s: System, steps: seq<Step>)
    decreases |steps|
  {
    steps == [] || (Enabled(s, steps[0]) && Runs(Apply(s, steps[0]), steps[1..]))
  }

  function After(s: System, steps: seq<Step>): System
    requires Runs(s, steps)
    decreases |steps|
  {
    if steps == [] then s else After(Apply(s, steps[0]), steps[1..])
  }

  // ----- delivery -----

  predicate Holds(s: System, w: WorkerId, m: Statement) {
    !SlotOf(s, w).Free? && SlotOf(s, w).m == m
  }

  ghost predicate Held(s: System, m: Statement) {
    exists w :: Holds(s, w, m)
  }

  /** A published statement is queued, unacknowledged at one worker, or acknowledged: exactly one. */
  ghost predicate OnePlace(s: System) {
    && (forall w, v, m | Holds(s, w, m) && Holds(s, v, m) :: w == v)
    && (forall m | m in s.queued :: m !in s.acked && !Held(s, m))
    && (forall m | m in s.acked :: !Held(s, m))
    && (forall m :: m in s.published <==> m in s.queued || m in s.acked || Held(s, m))
  }

  /** The statement has been executed by its present holder, or for good. */
  ghost predicate Settled(s: System, m: Statement) {
    m in s.acked || exists w :: SlotOf(s, w) == Ran(m)
  }

  /** Executions: at least one where settled, and never more than the failures account for. */
  ghost predicate Counted(s: System) {
    && (forall m | Settled(s, m) :: Count(s.executions, m) >= 1)
    && (forall m :: Count(s.executions, m) <= Count(s.failures, m) + (if Settled(s, m) then 1 else 0))
  }

  lemma PutHeld(s: System, w: WorkerId, slot: Slot)
    requires IsUp(s, w)
    ensures forall v, m :: Holds(Put(s, w, slot), v, m)
                           == if v == w then !slot.Free? && slot.m == m else Holds(s, v, m)
  {
  }

  lemma {:induction false} StepKeepsOnePlace(s: System, step: Step)
    requires OnePlace(s) && Enabled(s, step)
    ensures OnePlace(Apply(s, step))
  {
    match step
    case Publish(m) => SameHolders(s, Apply(s, step));
    case Stop => SameHolders(s, Apply(s, step));
    case Deliver(w, m) => DeliverKeepsOnePlace(s, w, m);
    case Take(w) => ReplaceKeepsOnePlace(s, Apply(s, step), w);
    case Execute(w) => ReplaceKeepsOnePlace(s, Apply(s, step), w);
    case Ack(w) => AckKeepsOnePlace(s, Apply(s, step), w);
    case AckThrows(w, arrived) =>
      if arrived {
        AckKeepsOnePlace(s, Apply(s, step), w);
      } else {
        CloseKeepsOnePlace(s, Apply(s, step), w);
      }
    case ExecuteThrows(w, _) => CloseKeepsOnePlace(s, Apply(s, step), w);
    case PollThrows(w) => CloseKeepsOnePlace(s, Apply(s, step), w);
    case Exit(w) => CloseKeepsOnePlace(s, Apply(s, step), w);
  }

  lemma SameHolders(s: System, r: System)
    requires s.workers == r.workers
    ensures forall w, m :: Holds(r, w, m) == Holds(s, w, m)
    ensures forall m :: Held(r, m) == Held(s, m)
  {
    assert forall w, m :: Holds(r, w, m) == Holds(s, w, m);
  }

  lemma DeliverKeepsOnePlace(s: System, w: WorkerId, m: Statement)
    requires OnePlace(s) && IsUp(s, w) && SlotOf(s, w).Free? && m in s.queued
    ensures OnePlace(Put(s.(queued := s.queued - {m}), w, Delivered(m)))
  {
    var q := s.(queued := s.queued - {m});
    var r := Put(q, w, Delivered(m));
    SameHolders(s, q);
    PutHeld(q, w, Delivered(m));
    forall k ensures Held(r, k) == (Held(s, k) || k == m) {
      if k == m {
        assert Holds(r, w, m);
      } else if Held(s, k) {
        var v :| Holds(s, v, k);
        assert Holds(r, v, k);
      }
    }
  }

  /** The worker still holds the same statement. */
  lemma ReplaceKeepsOnePlace(s: System, r: System, w: WorkerId)
    requires OnePlace(s) && IsUp(s, w) && !SlotOf(s, w).Free?
    requires r.queued == s.queued && r.acked == s.acked && r.published == s.published
    requires exists slot: Slot :: r.workers == s.workers[w := Up(slot)] && !slot.Free? && slot.m == SlotOf(s, w).m
    ensures OnePlace(r)
  {
    assert forall v, k :: Holds(r, v, k) == Holds(s, v, k);
    forall k ensures Held(r, k) == Held(s, k) {
      if Held(s, k) {
        var v :| Holds(s, v, k);
        assert Holds(r, v, k);
      }
    }
  }

  lemma Released(s: System, r: System, w: WorkerId)
    requires OnePlace(s) && IsUp(s, w)
    requires r.workers == s.workers[w := Down] || r.workers == s.workers[w := Up(Free)]
    ensures forall v, k :: Holds(r, v, k) == (v != w && Holds(s, v, k))
    ensures forall k :: Held(r, k) == (Held(s, k) && !Holds(s, w, k))
  {
    assert forall v, k :: Holds(r, v, k) == (v != w && Holds(s, v, k));
    forall k ensures Held(r, k) == (Held(s, k) && !Holds(s, w, k)) {
      if Held(s, k) && !Holds(s, w, k) {
        var v :| Holds(s, v, k);
        assert Holds(r, v, k);
      }
    }
  }

  lemma AckKeepsOnePlace(s: System, r: System, w: WorkerId)
    requires OnePlace(s) && IsUp(s, w) && !SlotOf(s, w).Free?
    requires r.workers == s.workers[w := Down] || r.workers == s.workers[w := Up(Free)]
    requires r.queued == s.queued && r.published == s.published && r.acked == s.acked + {SlotOf(s, w).m}
    ensures OnePlace(r)
  {
    Released(s, r, w);
    assert Holds(s, w, SlotOf(s, w).m);
  }

  lemma CloseKeepsOnePlace(s: System, r: System, w: WorkerId)
    requires OnePlace(s) && IsUp(s, w)
    requires r.workers == Close(s, w).workers && r.queued == Close(s, w).queued
    requires r.acked == s.acked && r.published == s.published
    ensures OnePlace(r)
  {
    Released(s, r, w);
    assert !SlotOf(s, w).Free? ==> Holds(s, w, SlotOf(s, w).m);
  }

  // ----- executions -----

  lemma StepKeepsCounted(s: System, step: Step)
    requires OnePlace(s) && Counted(s) && Enabled(s, step)
    ensures Counted(Apply(s, step))
  {
    var r := Apply(s, step);
    forall m
      ensures Settled(r, m) ==> Count(r.executions, m) >= 1
      ensures Count(r.executions, m) <= Count(r.failures, m) + (if Settled(r, m) then 1 else 0)
    {
      StepKeepsCount(s, step, m);
    }
  }

  /** How one step changes whether a statement is settled. */
  lemma StepSettles(s: System, step: Step, m: Statement)
    requires OnePlace(s) && Enabled(s, step)
    ensures Settled(Apply(s, step), m)
            == match step
               case Execute(w) => Settled(s, m) || SlotOf(s, w).m == m
               case AckThrows(w, arrived) => Settled(s, m) && (arrived || SlotOf(s, w).m != m)
               case _ => Settled(s, m)
  {
    var r := Apply(s, step);
    forall v | SlotOf(s, v) == Ran(m) ensures Settled(r, m) || (step.AckThrows? && !step.arrived && step.w == v) {
      if SlotOf(r, v) != Ran(m) {
        assert step == Ack(v) || (step.AckThrows? && step.w == v);
      }
    }
    if step.Execute? && SlotOf(s, step.w).m == m {
      assert SlotOf(r, step.w) == Ran(m);
    }
    if step.AckThrows? && !step.arrived && SlotOf(s, step.w).m == m {
      assert Holds(s, step.w, m);
      forall v ensures SlotOf(r, v) != Ran(m) {
        if SlotOf(r, v) == Ran(m) {
          assert Holds(s, v, m);
        }
      }
    }
    forall v | SlotOf(r, v) == Ran(m) ensures Settled(s, m) || (step.Execute? && SlotOf(s, step.w).m == m) {
      if SlotOf(s, v) != Ran(m) {
        assert step == Execute(v);
      }
    }
  }

  lemma StepKeepsCount(s: System, step: Step, m: Statement)
    requires OnePlace(s) && Counted(s) && Enabled(s, step)
    ensures var r := Apply(s, step);
            (Settled(r, m) ==> Count(r.executions, m) >= 1)
            && Count(r.executions, m) <= Count(r.failures, m) + (if Settled(r, m) then 1 else 0)
  {
    StepSettles(s, step, m);
    if step.Execute? && SlotOf(s, step.w).m == m {
      assert Holds(s, step.w, m);
      assert !Settled(s, m) by {
        if v :| SlotOf(s, v) == Ran(m) {
          assert Holds(s, v, m);
        }
      }
    }
  }

  // ----- over all runs -----

  lemma InitialHolds(s: System)
    requires Initial(s)
    ensures OnePlace(s) && Counted(s)
  {
    assert forall w, m :: !Holds(s, w, m);
  }

  lemma {:induction false} RunKeeps(s: System, steps: seq<Step>)
    requires OnePlace(s) && Counted(s) && Runs(s, steps)
    ensures OnePlace(After(s, steps)) && Counted(After(s, steps))
    decreases |steps|
  {
    if steps != [] {
      StepKeepsOnePlace(s, steps[0]);
      StepKeepsCounted(s, steps[0]);
      RunKeeps(Apply(s, steps[0]), steps[1..]);
    }
  }

  /** Delivery over all interleavings: one place for every statement, acknowledged implies
      executed, and a statement no exception ever hit was executed exactly once if it is settled
      and not at all otherwise. */
  lemma DeliverySafety(s: System, steps: seq<Step>)
    requires Initial(s) && Runs(s, steps)
    ensures var r := After(s, steps);
            && OnePlace(r)
            && (forall m | m in r.acked :: Count(r.executions, m) >= 1)
            && (forall m | Count(r.failures, m) == 0 ::
                  Count(r.executions, m) == if Settled(r, m) then 1 else 0)
  {
    InitialHolds(s);
    RunKeeps(s, steps);
    var r := After(s, steps);
    forall m | m in r.acked ensures Count(r.executions, m) >= 1 {
      assert Settled(r, m);
    }
  }

  /** Clean shutdown: once every worker has left, each statement is acknowledged or back in the
      queue, and one that no exception hit was executed iff it was acknowledged. */
  lemma CleanShutdown(s: System, steps: seq<Step>)
    requires Initial(s) && Runs(s, steps)
    requires var r := After(s, steps); forall w | w in r.workers :: r.workers[w] == Down
    ensures var r := After(s, steps);
            forall m | m in r.published ::
              && (m in r.acked <==> m !in r.queued)
              && (Count(r.failures, m) == 0 ==> Count(r.executions, m) == if m in r.acked then 1 else 0)
  {
    DeliverySafety(s, steps);
    var r := After(s, steps);
    assert forall w :: SlotOf(r, w) == Free;
    assert forall m :: !Held(r, m);
    assert forall m :: Settled(r, m) == (m in r.acked);
  }

  // ----- what an exception costs -----

  /** The steps in which the worker meets a statement whose handler throws. */
  function Poisoned(w: WorkerId, m: Statement): seq<Step> {
    [Deliver(w, m), Take(w), ExecuteThrows(w, false)]
  }

  /** An exception never acknowledges: it puts the statement back and ends the worker. */
  lemma PoisonedWorker(s: System, w: WorkerId, m: Statement)
    requires IsUp(s, w) && SlotOf(s, w).Free? && m in s.queued
    ensures Runs(s, Poisoned(w, m))
    ensures var r := After(s, Poisoned(w, m));
            && r.queued == s.queued && r.acked == s.acked && r.executions == s.executions
            && r.workers == s.workers[w := Down]
  {
    var a := Apply(s, Deliver(w, m));
    var b := Apply(a, Take(w));
    var c := Apply(b, ExecuteThrows(w, false));
    assert Poisoned(w, m)[1..] == [Take(w), ExecuteThrows(w, false)];
    assert Poisoned(w, m)[1..][1..] == [ExecuteThrows(w, false)];
    assert Poisoned(w, m)[1..][1..][1..] == [];
    assert Runs(c, []) && After(c, []) == c;
    assert Runs(b, [ExecuteThrows(w, false)]) && After(b, [ExecuteThrows(w, false)]) == c;
    assert Runs(a, [Take(w), ExecuteThrows(w, false)]) && After(a, [Take(w), ExecuteThrows(w, false)]) == c;
    assert c.workers == s.workers[w := Down];
    assert c.queued == s.queued;
  }

  lemma {:induction false} RunsConcat(s: System, a: seq<Step>, b: seq<Step>)
    requires Runs(s, a) && Runs(After(s, a), b)
    ensures Runs(s, a + b) && After(s, a + b) == After(After(s, a), b)
    decreases |a|
  {
    if a == [] {
      assert a + b == b;
    } else {
      assert (a + b)[1..] == a[1..] + b;
      RunsConcat(Apply(s, a[0]), a[1..], b);
    }
  }

  function PoisonedAll(ws: seq<WorkerId>, m: Statement): seq<Step> {
    if ws == [] then [] else Poisoned(ws[0], m) + PoisonedAll(ws[1..], m)
  }

  /** One statement whose handler always throws can take down every worker of an idle pool, and
      is still queued afterwards. */
  lemma {:induction false} PoisonStopsPool(s: System, ws: seq<WorkerId>, m: Statement)
    requires m in s.queued
    requires forall w | w in ws :: IsUp(s, w) && SlotOf(s, w).Free?
    requires forall i, j | 0 <= i < j < |ws| :: ws[i] != ws[j]
    ensures Runs(s, PoisonedAll(ws, m))
    ensures var r := After(s, PoisonedAll(ws, m));
            && r.queued == s.queued && r.acked == s.acked && r.executions == s.executions
            && r.workers.Keys == s.workers.Keys
            && forall w | w in s.workers :: r.workers[w] == if w in ws then Down else s.workers[w]
    decreases |ws|
  {
    if ws != [] {
      PoisonedWorker(s, ws[0], m);
      var r := After(s, Poisoned(ws[0], m));
      assert forall w | w in ws[1..] :: w in ws && w != ws[0] && r.workers[w] == s.workers[w];
      PoisonStopsPool(r, ws[1..], m);
      RunsConcat(s, Poisoned(ws[0], m), PoisonedAll(ws[1..], m));
      assert forall w :: w in ws <==> w == ws[0] || w in ws[1..];
    }
  }

  /** No worker is safe: wherever it stands an exception can end it. */
  lemma AnyWorkerMayFail(s: System, w: WorkerId) returns (step: Step)
    requires IsUp(s, w)
    ensures Enabled(s, step) && !step.Exit? && Apply(s, step).workers == s.workers[w := Down]
    ensures Apply(s, step).executions == s.executions
  {
    step := match SlotOf(s, w)
            case Taken(_) => ExecuteThrows(w, false)
            case Ran(_) => AckThrows(w, false)
            case _ => PollThrows(w);
  }

  /** Once every worker is down nothing is executed or acknowledged ever again. */
  lemma {:induction false} DownForever(s: System, steps: seq<Step>)
    requires Runs(s, steps) && forall w | w in s.workers :: s.workers[w] == Down
    ensures var r := After(s, steps);
            r.workers == s.workers && r.acked == s.acked && r.executions == s.executions && s.queued <= r.queued
    decreases |steps|
  {
    if steps != [] {
      assert forall w :: SlotOf(s, w) == Free && !IsUp(s, w);
      DownForever(Apply(s, steps[0]), steps[1..]);
    }
  }

  // ----- how long the pool runs -----

  /** The steps after which a worker is gone. */
  predicate Ends(step: Step) {
    step.ExecuteThrows? || step.AckThrows? || step.PollThrows? || step.Exit?
  }

  function Endings(steps: seq<Step>): nat {
    if steps == [] then 0 else (if Ends(steps[0]) then 1 else 0) + Endings(steps[1..])
  }

  function Gone(s: System): set<WorkerId> {
    set w | w in s.workers && s.workers[w] == Down
  }

  lemma OneGone(s: System, r: System, w: WorkerId)
    requires IsUp(s, w) && r.workers == s.workers[w := Down]
    ensures r.workers.Keys == s.workers.Keys && |Gone(r)| == |Gone(s)| + 1
  {
    assert Gone(r) == Gone(s) + {w} && w !in Gone(s);
    assert r.workers.Keys == s.workers.Keys + {w};
  }

  lemma NoneGone(s: System, r: System)
    requires r.workers.Keys == s.workers.Keys && forall w :: IsUp(r, w) == IsUp(s, w)
    ensures |Gone(r)| == |Gone(s)|
  {
    forall w ensures w in Gone(r) <==> w in Gone(s) {
      assert w in s.workers ==> (IsUp(s, w) <==> w !in Gone(s));
      assert w in r.workers ==> (IsUp(r, w) <==> w !in Gone(r));
    }
    assert Gone(r) == Gone(s);
  }

  lemma StepEnds(s: System, step: Step)
    requires Enabled(s, step)
    ensures var r := Apply(s, step);
            && r.workers.Keys == s.workers.Keys
            && |Gone(r)| == |Gone(s)| + (if Ends(step) then 1 else 0)
  {
    var r := Apply(s, step);
    if Ends(step) {
      OneGone(s, r, step.w);
    } else {
      assert r.workers.Keys == s.workers.Keys;
      NoneGone(s, r);
    }
  }

  /** Over every run exactly the throwing and exiting steps cost a worker each. */
  lemma {:induction false} WorkersGone(s: System, steps: seq<Step>)
    requires Runs(s, steps)
    ensures var r := After(s, steps);
            r.workers.Keys == s.workers.Keys && |Gone(r)| == |Gone(s)| + Endings(steps)
    decreases |steps|
  {
    if steps != [] {
      StepEnds(s, steps[0]);
      WorkersGone(Apply(s, steps[0]), steps[1..]);
    }
  }

  /** A worker that meets no exception finishes the statement in hand. */
  function Finish(s: System, w: WorkerId): seq<Step> {
    match SlotOf(s, w)
    case Free => []
    case Delivered(_) => [Take(w), Execute(w), Ack(w)]
    case Taken(_) => [Execute(w), Ack(w)]
    case Ran(_) => [Ack(w)]
  }

  function InHand(s: System, w: WorkerId): set<Statement> {
    if SlotOf(s, w).Free? then {} else {SlotOf(s, w).m}
  }

  lemma FinishRuns(s: System, w: WorkerId)
    requires IsUp(s, w)
    ensures Runs(s, Finish(s, w))
    ensures var r := After(s, Finish(s, w));
            && r.workers == s.workers[w := Up(Free)] && r.queued == s.queued && r.published == s.published
            && r.acked == s.acked + InHand(s, w) && r.failures == s.failures && r.stop == s.stop
  {
    match SlotOf(s, w)
    case Free =>
      assert After(s, []) == s && s.workers == s.workers[w := Up(Free)];
    case Delivered(m) => TakeRuns(s, w);
    case Taken(m) => ExecuteRuns(s, w);
    case Ran(m) => AckRuns(s, w);
  }

  lemma AckRuns(s: System, w: WorkerId)
    requires SlotOf(s, w).Ran?
    ensures Runs(s, [Ack(w)]) && After(s, [Ack(w)]) == Apply(s, Ack(w))
  {
    assert [Ack(w)][1..] == [];
    assert Runs(Apply(s, Ack(w)), []) && After(Apply(s, Ack(w)), []) == Apply(s, Ack(w));
  }

  lemma ExecuteRuns(s: System, w: WorkerId)
    requires SlotOf(s, w).Taken?
    ensures Runs(s, [Execute(w), Ack(w)])
    ensures After(s, [Execute(w), Ack(w)]) == Apply(Apply(s, Execute(w)), Ack(w))
  {
    assert [Execute(w), Ack(w)][1..] == [Ack(w)];
    AckRuns(Apply(s, Execute(w)), w);
  }

  lemma TakeRuns(s: System, w: WorkerId)
    requires SlotOf(s, w).Delivered?
    ensures Runs(s, [Take(w), Execute(w), Ack(w)])
    ensures After(s, [Take(w), Execute(w), Ack(w)]) == Apply(Apply(Apply(s, Take(w)), Execute(w)), Ack(w))
  {
    assert [Take(w), Execute(w), Ack(w)][1..] == [Execute(w), Ack(w)];
    ExecuteRuns(Apply(s, Take(w)), w);
  }

  function Serve(w: WorkerId, m: Statement): seq<Step> {
    [Deliver(w, m), Take(w), Execute(w), Ack(w)]
  }

  lemma ServeRuns(s: System, w: WorkerId, m: Statement)
    requires IsUp(s, w) && SlotOf(s, w).Free? && m in s.queued
    ensures Runs(s, Serve(w, m))
    ensures var r := After(s, Serve(w, m));
            && r.workers == s.workers && r.queued == s.queued - {m} && r.published == s.published
            && r.acked == s.acked + {m}
  {
    assert Serve(w, m)[1..] == [Take(w), Execute(w), Ack(w)];
    TakeRuns(Apply(s, Deliver(w, m)), w);
    assert s.workers == s.workers[w := Up(Free)];
  }

  /** Some continuation acknowledges the statement. */
  ghost predicate CanFinish(s: System, m: Statement) {
    exists more :: Runs(s, more) && m in After(s, more).acked
  }

  lemma ServedInTheEnd(s: System, w: WorkerId, m: Statement)
    requires IsUp(s, w) && m in s.queued
    ensures CanFinish(s, m)
  {
    FinishRuns(s, w);
    var t := After(s, Finish(s, w));
    ServeRuns(t, w, m);
    RunsConcat(s, Finish(s, w), Serve(w, m));
    assert Runs(s, Finish(s, w) + Serve(w, m));
  }

  /** When the pool keeps running, exactly: after any run some worker is up, and a queued statement
      can still be executed and acknowledged, iff fewer workers were lost to exceptions and exits
      than there are. */
  lemma PoolRunsExactly(s: System, steps: seq<Step>, m: Statement)
    requires Initial(s) && Runs(s, steps)
    ensures var r := After(s, steps);
            && Endings(steps) <= |s.workers|
            && ((exists w :: IsUp(r, w)) <==> Endings(steps) < |s.workers|)
            && (m in r.queued ==> (CanFinish(r, m) <==> Endings(steps) < |s.workers|))
  {
    var r := After(s, steps);
    InitialHolds(s);
    RunKeeps(s, steps);
    WorkersGone(s, steps);
    assert Gone(s) == {};
    assert |r.workers| == |r.workers.Keys| == |s.workers.Keys| == |s.workers|;
    SomeUp(r);
    if w :| IsUp(r, w) {
      if m in r.queued {
        ServedInTheEnd(r, w, m);
      }
    } else {
      forall v | v in r.workers ensures r.workers[v] == Down {
        assert !IsUp(r, v);
      }
      forall more | Runs(r, more) ensures After(r, more).acked == r.acked {
        DownForever(r, more);
      }
    }
  }

  // ----- shutting down -----

  /** No worker leaves its loop of itself before the pool was told to stop. */
  lemma {:induction false} ExitNeedsStop(s: System, steps: seq<Step>, w: WorkerId)
    requires Runs(s, steps) && Exit(w) in steps && !s.stop
    ensures Stop in steps
    decreases |steps|
  {
    if !steps[0].Stop? {
      assert !Apply(s, steps[0]).stop;
      ExitNeedsStop(Apply(s, steps[0]), steps[1..], w);
    }
  }

  lemma LeaveRuns(s: System, w: WorkerId)
    requires s.stop && IsUp(s, w)
    ensures var leave := Finish(s, w) + [Exit(w)];
            Runs(s, leave) && var r := After(s, leave);
            && r.workers == s.workers[w := Down] && r.queued == s.queued && r.published == s.published
            && r.acked == s.acked + InHand(s, w) && r.failures == s.failures && r.stop
  {
    FinishRuns(s, w);
    var t := After(s, Finish(s, w));
    assert [Exit(w)][1..] == [] && Runs(Apply(t, Exit(w)), []) && After(Apply(t, Exit(w)), []) == Apply(t, Exit(w));
    RunsConcat(s, Finish(s, w), [Exit(w)]);
  }

  lemma LeftHeld(s: System, r: System, w: WorkerId)
    requires IsUp(s, w) && r.workers == s.workers[w := Down]
    ensures forall m :: Held(s, m) <==> m in InHand(s, w) || Held(r, m)
  {
    forall m ensures Held(s, m) <==> m in InHand(s, w) || Held(r, m) {
      if v :| Holds(s, v, m) {
        assert v != w ==> Holds(r, v, m);
      }
      if m in InHand(s, w) {
        assert Holds(s, w, m);
      } else if v :| Holds(r, v, m) {
        assert Holds(s, v, m);
      }
    }
  }

  lemma {:induction false} AllLeave(s: System, up: set<WorkerId>) returns (more: seq<Step>)
    requires s.stop && forall w :: w in up <==> IsUp(s, w)
    ensures Runs(s, more) && var r := After(s, more);
            && (forall w :: !IsUp(r, w)) && r.queued == s.queued && r.published == s.published
            && r.failures == s.failures && forall m :: m in r.acked <==> m in s.acked || Held(s, m)
    decreases |up|
  {
    if up == {} {
      more := [];
      forall w ensures SlotOf(s, w) == Free {
        assert !IsUp(s, w);
      }
    } else {
      var w :| w in up;
      var leave := Finish(s, w) + [Exit(w)];
      LeaveRuns(s, w);
      var t := After(s, leave);
      assert forall v :: v in up - {w} <==> IsUp(t, v);
      var rest := AllLeave(t, up - {w});
      LeftHeld(s, t, w);
      RunsConcat(s, leave, rest);
      more := leave + rest;
    }
  }

  /** A shutdown can complete after any run: told to stop, every worker can finish what it holds and
      leave, with nothing executed twice, nothing lost and the queue as it was. */
  lemma {:induction false} ShutdownCompletes(s: System, steps: seq<Step>) returns (more: seq<Step>)
    requires Initial(s) && Runs(s, steps)
    ensures Runs(After(s, steps), [Stop] + more)
    ensures var r, t := After(s, steps), After(After(s, steps), [Stop] + more);
            && (forall w :: !IsUp(t, w)) && t.queued == r.queued && t.failures == r.failures
            && forall m :: m in t.acked <==> m in r.published && m !in r.queued
  {
    InitialHolds(s);
    RunKeeps(s, steps);
    var r := After(s, steps);
    var u := Apply(r, Stop);
    SameHolders(r, u);
    more := AllLeave(u, set w | w in u.workers && IsUp(u, w));
    assert ([Stop] + more)[1..] == more;
  }

  lemma SubsetSizes(a: set<WorkerId>, b: set<WorkerId>)
    requires a <= b
    ensures |b - a| == |b| - |a|
  {
    assert b * a == a;
  }

  lemma SomeUp(s: System)
    ensures |Gone(s)| <= |s.workers.Keys|
    ensures (exists w :: IsUp(s, w)) <==> |Gone(s)| < |s.workers.Keys|
  {
    var up := s.workers.Keys - Gone(s);
    SubsetSizes(Gone(s), s.workers.Keys);
    if up == {} {
      assert forall w :: !IsUp(s, w);
    } else {
      var w :| w in up;
      assert IsUp(s, w);
    }
  }
}
