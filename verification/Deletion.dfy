/** Deleting a session while its insertions are still under way: one queue, several workers, and
    the table their statements change. */
module Deletion {
  import opened Text
  import opened Sql
  import opened Persistence
  import opened W = WorkerPool

  /** The statement each message carries, what the server makes of ids that are no numbers, the
      session in question, whether workers may meet exceptions, and the messages that may be
      published later. */
  datatype Setting = Setting(sql: nat -> Persistence.Statement, eval: Evaluation, session: Scope,
                             faults: bool, later: set<nat>) {
    ghost predicate Valid() {
      session.OfSession?
    }

    predicate Inserted(m: nat)
      requires session.OfSession?
    {
      MayInsert(sql(m), session)
    }

    /** The table after the message's statement. */
    function Left(table: seq<Row>, m: nat): seq<Row> {
      RunStatement(eval, table, sql(m))
    }

    predicate Deleted(m: nat)
      requires session.OfSession?
    {
      Deletes(sql(m), session)
    }

    predicate Permits(step: Step) {
      && (step.Publish? ==> step.m in later)
      && (step.ExecuteThrows? || step.AckThrows? || step.PollThrows? ==> faults)
    }

    /** The message may be executed in the future or has been in the past. */
    predicate Concerns(s: System, m: nat) {
      m in s.published || m in later
    }
  }

  /** The message whose statement takes effect in this step. */
  function DoneBy(s: System, step: Step): Option<nat> {
    match step
    case Execute(w) => if SlotOf(s, w).Taken? then Some(SlotOf(s, w).m) else None
    case ExecuteThrows(w, effect) => if SlotOf(s, w).Taken? && effect then Some(SlotOf(s, w).m) else None
    case _ => None
  }

  function Effect(k: Setting, done: Option<nat>, table: seq<Row>): seq<Row> {
    if done.Some? then RunStatement(k.eval, table, k.sql(done.value)) else table
  }

  function TableAfter(k: Setting, s: System, steps: seq<Step>, table: seq<Row>): seq<Row>
    requires Runs(s, steps)
    decreases |steps|
  {
    if steps == [] then table
    else TableAfter(k, Apply(s, steps[0]), steps[1..], Effect(k, DoneBy(s, steps[0]), table))
  }

  predicate ExecutedIn(s: System, steps: seq<Step>, m: nat)
    requires Runs(s, steps)
    decreases |steps|
  {
    steps != [] && (DoneBy(s, steps[0]) == Some(m) || ExecutedIn(Apply(s, steps[0]), steps[1..], m))
  }

  predicate AllPermitted(k: Setting, steps: seq<Step>) {
    forall step | step in steps :: k.Permits(step)
  }

  /** In every continuation in which the deletion is executed the session ends up empty. */
  ghost predicate EndsEmpty(k: Setting, s: System, d: nat, table: seq<Row>) {
    forall steps | Runs(s, steps) && AllPermitted(k, steps) && ExecutedIn(s, steps, d) ::
      Filter(TableAfter(k, s, steps, table), k.session) == []
  }

  /** So it does whatever the server makes of ids that are no numbers. */
  ghost predicate StaysDeleted(k: Setting, s: System, d: nat, table: seq<Row>) {
    forall eval: Evaluation | Numeric(eval) :: EndsEmpty(k.(eval := eval), s, d, table)
  }

  // ----- the condition, on the pool as it is when the deletion is published -----

  predicate NoneUp(s: System) {
    forall w | w in s.workers :: s.workers[w] == Down
  }

  /** The message will not be executed again: acknowledged, or, when nothing can throw, run. */
  ghost predicate Spent(k: Setting, s: System, m: nat) {
    m in s.acked || (!k.faults && exists w :: SlotOf(s, w) == Ran(m))
  }

  /** The only worker left holds the message, so it comes before anything queued or not at all. */
  ghost predicate HeldBySole(s: System, m: nat) {
    exists w :: Holds(s, w, m) && forall v | IsUp(s, v) :: v == w
  }

  ghost predicate InsertsOver(k: Setting, s: System)
    requires k.Valid()
  {
    NoneUp(s) || forall m | k.Inserted(m) && k.Concerns(s, m) :: Spent(k, s, m) || HeldBySole(s, m)
  }

  // ----- the condition suffices -----

  ghost predicate OverOrHeld(k: Setting, s: System, m: nat, done: bool) {
    Spent(k, s, m) || (!done && HeldBySole(s, m))
  }

  /** `done` says whether the deletion has been executed. */
  ghost predicate Safe(k: Setting, s: System, table: seq<Row>, done: bool)
    requires k.Valid()
  {
    && (done ==> Filter(table, k.session) == [])
    && (NoneUp(s) || forall m | k.Inserted(m) && k.Concerns(s, m) :: OverOrHeld(k, s, m, done))
  }

  /** The statement a step executes is in some worker's hands and not over. */
  lemma DoneIsHeld(k: Setting, s: System, step: Step)
    requires OnePlace(s) && Enabled(s, step) && DoneBy(s, step).Some?
    ensures var m := DoneBy(s, step).value;
            && IsUp(s, step.w) && Holds(s, step.w, m) && m in s.published && !Spent(k, s, m)
  {
    var m := DoneBy(s, step).value;
    assert Holds(s, step.w, m);
    assert Held(s, m);
    forall w ensures SlotOf(s, w) != Ran(m) {
      assert SlotOf(s, w) == Ran(m) ==> Holds(s, w, m);
    }
  }

  lemma SafeTable(k: Setting, s: System, d: nat, step: Step, table: seq<Row>, done: bool)
    requires k.Valid() && k.Deleted(d) && OnePlace(s) && Enabled(s, step) && Safe(k, s, table, done)
    ensures var ran := DoneBy(s, step);
            done || ran == Some(d) ==> Filter(Effect(k, ran, table), k.session) == []
  {
    var ran := DoneBy(s, step);
    if ran.Some? {
      StatementEffect(k.eval, table, k.sql(ran.value), k.session);
      DoneIsHeld(k, s, step);
      if k.Inserted(ran.value) {
        assert OverOrHeld(k, s, ran.value, done);
      }
    }
  }

  lemma SpentStays(k: Setting, s: System, step: Step, m: nat)
    requires OnePlace(s) && Enabled(s, step) && k.Permits(step) && Spent(k, s, m)
    ensures Spent(k, Apply(s, step), m)
  {
    var r := Apply(s, step);
    if m !in s.acked {
      StepSettles(s, step, m);
      assert Settled(s, m);
      assert Settled(r, m);
    }
  }

  lemma SoleStays(k: Setting, s: System, step: Step, m: nat)
    requires OnePlace(s) && Enabled(s, step) && HeldBySole(s, m)
    ensures NoneUp(Apply(s, step)) || m in Apply(s, step).acked || HeldBySole(Apply(s, step), m)
    ensures DoneBy(s, step).Some? ==> DoneBy(s, step).value == m
  {
    var r := Apply(s, step);
    NoneComesUp(s, step);
    var w :| Holds(s, w, m) && forall v | IsUp(s, v) :: v == w;
    NothingDelivered(s, step, w);
    match step
    case Publish(_) => assert Holds(r, w, m);
    case Stop => assert Holds(r, w, m);
    case Deliver(_, _) =>
    case Take(v) => assert IsUp(s, v) && Holds(r, w, m);
    case Execute(v) => assert IsUp(s, v) && Holds(r, w, m);
    case Ack(v) => assert IsUp(s, v);
    case ExecuteThrows(v, _) =>
      assert IsUp(s, v);
      SoleGone(s, r, w, v);
    case AckThrows(v, _) => SoleGone(s, r, w, v);
    case PollThrows(v) => SoleGone(s, r, w, v);
    case Exit(v) => SoleGone(s, r, w, v);
  }

  lemma NothingDelivered(s: System, step: Step, w: nat)
    requires Enabled(s, step) && !SlotOf(s, w).Free? && forall v | IsUp(s, v) :: v == w
    ensures !step.Deliver?
  {
  }

  lemma NoneComesUp(s: System, step: Step)
    requires Enabled(s, step)
    ensures forall w | IsUp(Apply(s, step), w) :: IsUp(s, w)
  {
  }

  lemma SoleGone(s: System, r: System, w: nat, v: nat)
    requires IsUp(s, v) && (forall x | IsUp(s, x) :: x == w) && r.workers == s.workers[v := Down]
    ensures NoneUp(r)
  {
    assert v == w;
    forall x | x in r.workers ensures r.workers[x] == Down {
      assert x != v ==> !IsUp(s, x);
    }
  }

  lemma SafeStatement(k: Setting, s: System, d: nat, step: Step, done: bool, m: nat)
    requires k.Valid() && k.Deleted(d) && OnePlace(s) && Enabled(s, step) && k.Permits(step)
    requires k.Inserted(m) && OverOrHeld(k, s, m, done)
    ensures NoneUp(Apply(s, step)) || OverOrHeld(k, Apply(s, step), m, done || DoneBy(s, step) == Some(d))
  {
    if Spent(k, s, m) {
      SpentStays(k, s, step, m);
    } else {
      SoleStays(k, s, step, m);
    }
  }

  lemma DownStays(s: System, step: Step)
    requires Enabled(s, step) && NoneUp(s)
    ensures NoneUp(Apply(s, step))
  {
    assert forall w :: SlotOf(s, w) == Free && !IsUp(s, w);
  }

  lemma StepKeepsSafe(k: Setting, s: System, d: nat, step: Step, table: seq<Row>, done: bool)
    requires k.Valid() && k.Deleted(d) && OnePlace(s) && Enabled(s, step) && k.Permits(step)
    requires Safe(k, s, table, done)
    ensures Safe(k, Apply(s, step), Effect(k, DoneBy(s, step), table), done || DoneBy(s, step) == Some(d))
  {
    var r := Apply(s, step);
    SafeTable(k, s, d, step, table, done);
    if NoneUp(s) {
      DownStays(s, step);
    } else if !NoneUp(r) {
      forall m | k.Inserted(m) && k.Concerns(r, m) ensures OverOrHeld(k, r, m, done || DoneBy(s, step) == Some(d)) {
        assert k.Concerns(s, m);
        SafeStatement(k, s, d, step, done, m);
      }
    }
  }

  lemma {:induction false} RunKeepsSafe(k: Setting, s: System, d: nat, steps: seq<Step>, table: seq<Row>, done: bool)
    requires k.Valid() && k.Deleted(d) && OnePlace(s) && Runs(s, steps) && AllPermitted(k, steps)
    requires Safe(k, s, table, done)
    ensures done || ExecutedIn(s, steps, d) ==> Filter(TableAfter(k, s, steps, table), k.session) == []
    decreases |steps|
  {
    if steps != [] {
      var step := steps[0];
      assert step in steps;
      StepKeepsOnePlace(s, step);
      StepKeepsSafe(k, s, d, step, table, done);
      var left := Effect(k, DoneBy(s, step), table);
      RunKeepsSafe(k, Apply(s, step), d, steps[1..], left, done || DoneBy(s, step) == Some(d));
    }
  }

  // ----- the condition is necessary -----

  /** What a run makes of the table, and whether it executes the deletion. */
  ghost predicate Does(k: Setting, s: System, steps: seq<Step>, d: nat, table: seq<Row>,
                       r: System, left: seq<Row>, executed: bool) {
    && Runs(s, steps) && AllPermitted(k, steps)
    && After(s, steps) == r && TableAfter(k, s, steps, table) == left && ExecutedIn(s, steps, d) == executed
  }

  lemma DoesNothing(k: Setting, s: System, d: nat, table: seq<Row>)
    ensures Does(k, s, [], d, table, s, table, false)
  {
  }

  lemma DoesFirst(k: Setting, s: System, step: Step, rest: seq<Step>, d: nat, table: seq<Row>,
                  r: System, left: seq<Row>, executed: bool)
    requires Enabled(s, step) && k.Permits(step)
    requires Does(k, Apply(s, step), rest, d, Effect(k, DoneBy(s, step), table), r, left, executed)
    ensures Does(k, s, [step] + rest, d, table, r, left, DoneBy(s, step) == Some(d) || executed)
  {
    assert ([step] + rest)[1..] == rest;
  }

  lemma {:induction false} DoesBoth(k: Setting, s: System, a: seq<Step>, b: seq<Step>, d: nat, table: seq<Row>,
                                    t: System, between: seq<Row>, first: bool, r: System, left: seq<Row>, second: bool)
    requires Does(k, s, a, d, table, t, between, first) && Does(k, t, b, d, between, r, left, second)
    ensures Does(k, s, a + b, d, table, r, left, first || second)
    decreases |a|
  {
    if a == [] {
      assert a + b == b;
    } else {
      var step, rest := a[0], a[1..];
      var later := Effect(k, DoneBy(s, step), table);
      assert a == [step] + rest && [step] + (rest + b) == a + b;
      var executed := ExecutedIn(Apply(s, step), rest, d);
      assert Does(k, Apply(s, step), rest, d, later, t, between, executed);
      DoesBoth(k, Apply(s, step), rest, b, d, later, t, between, executed, r, left, second);
      DoesFirst(k, s, step, rest + b, d, table, r, left, executed || second);
    }
  }

  lemma AckDoes(k: Setting, s: System, w: nat, d: nat, table: seq<Row>) returns (r: System)
    requires SlotOf(s, w).Ran?
    ensures r == Apply(s, Ack(w)) && Does(k, s, [Ack(w)], d, table, r, table, false)
  {
    r := Apply(s, Ack(w));
    DoesNothing(k, r, d, table);
    DoesFirst(k, s, Ack(w), [], d, table, r, table, false);
    assert [Ack(w)] + [] == [Ack(w)];
  }

  lemma ExecuteDoes(k: Setting, s: System, w: nat, d: nat, table: seq<Row>) returns (r: System)
    requires SlotOf(s, w).Taken?
    ensures var m := SlotOf(s, w).m;
            && r == Apply(Apply(s, Execute(w)), Ack(w))
            && Does(k, s, [Execute(w), Ack(w)], d, table, r, k.Left(table, m), m == d)
  {
    var m := SlotOf(s, w).m;
    r := AckDoes(k, Apply(s, Execute(w)), w, d, k.Left(table, m));
    DoesFirst(k, s, Execute(w), [Ack(w)], d, table, r, k.Left(table, m), false);
    assert [Execute(w)] + [Ack(w)] == [Execute(w), Ack(w)];
  }

  lemma TakeDoes(k: Setting, s: System, w: nat, d: nat, table: seq<Row>) returns (r: System)
    requires SlotOf(s, w).Delivered?
    ensures var m := SlotOf(s, w).m;
            && r == Apply(Apply(Apply(s, Take(w)), Execute(w)), Ack(w))
            && Does(k, s, [Take(w), Execute(w), Ack(w)], d, table, r, k.Left(table, m), m == d)
  {
    var m := SlotOf(s, w).m;
    r := ExecuteDoes(k, Apply(s, Take(w)), w, d, table);
    DoesFirst(k, s, Take(w), [Execute(w), Ack(w)], d, table, r, k.Left(table, m), m == d);
    assert [Take(w)] + [Execute(w), Ack(w)] == [Take(w), Execute(w), Ack(w)];
  }

  lemma ServeDoes(k: Setting, s: System, w: nat, m: nat, d: nat, table: seq<Row>) returns (r: System)
    requires IsUp(s, w) && SlotOf(s, w).Free? && m in s.queued
    ensures r.workers == s.workers && r.queued == s.queued - {m}
    ensures Does(k, s, Serve(w, m), d, table, r, k.Left(table, m), m == d)
  {
    r := TakeDoes(k, Apply(s, Deliver(w, m)), w, d, table);
    DoesFirst(k, s, Deliver(w, m), [Take(w), Execute(w), Ack(w)], d, table, r, k.Left(table, m), m == d);
    assert [Deliver(w, m)] + [Take(w), Execute(w), Ack(w)] == Serve(w, m);
    assert s.workers == s.workers[w := Up(Free)];
  }

  lemma FinishDoes(k: Setting, s: System, w: nat, d: nat, table: seq<Row>)
    returns (r: System, left: seq<Row>, executed: bool)
    requires IsUp(s, w)
    ensures r.workers == s.workers[w := Up(Free)] && r.queued == s.queued
    ensures Does(k, s, Finish(s, w), d, table, r, left, executed)
    ensures SlotOf(s, w).Delivered? || SlotOf(s, w).Taken? ==> left == k.Left(table, SlotOf(s, w).m)
  {
    match SlotOf(s, w)
    case Free =>
      r, left, executed := s, table, false;
      DoesNothing(k, s, d, table);
      assert s.workers == s.workers[w := Up(Free)];
    case Delivered(m) =>
      r := TakeDoes(k, s, w, d, table);
      left, executed := k.Left(table, m), m == d;
    case Taken(m) =>
      r := ExecuteDoes(k, s, w, d, table);
      left, executed := k.Left(table, m), m == d;
    case Ran(_) =>
      r := AckDoes(k, s, w, d, table);
      left, executed := table, false;
  }

  /** One worker finishes what it has and then executes the deletion. */
  lemma DeleteFirst(k: Setting, s: System, v: nat, d: nat, table: seq<Row>)
    returns (steps: seq<Step>, r: System, left: seq<Row>)
    requires IsUp(s, v) && d in s.queued
    ensures r.workers == s.workers[v := Up(Free)] && r.queued == s.queued - {d}
    ensures Does(k, s, steps, d, table, r, left, true)
  {
    var t, between, first := FinishDoes(k, s, v, d, table);
    r := ServeDoes(k, t, v, d, d, between);
    left := k.Left(between, d);
    steps := Finish(s, v) + Serve(v, d);
    DoesBoth(k, s, Finish(s, v), Serve(v, d), d, table, t, between, first, r, left, true);
  }

  ghost predicate Reappears(k: Setting, s: System, steps: seq<Step>, d: nat, table: seq<Row>) {
    && Runs(s, steps) && AllPermitted(k, steps) && ExecutedIn(s, steps, d)
    && Filter(TableAfter(k, s, steps, table), k.session) != []
  }

  lemma InsertedLast(k: Setting, table: seq<Row>, m: nat)
    requires k.Valid() && k.Inserted(m) && k.eval == Joins(k.session)
    ensures Filter(k.Left(table, m), k.session) != []
  {
    StatementEffect(k.eval, table, k.sql(m), k.session);
    FilterOne(k.eval(k.sql(m).row)[0], k.session);
  }

  lemma QueuedReappears(k: Setting, s: System, v: nat, d: nat, m: nat, table: seq<Row>) returns (steps: seq<Step>)
    requires k.Valid() && k.Inserted(m) && k.Deleted(d) && k.eval == Joins(k.session)
    requires IsUp(s, v) && d in s.queued && m in s.queued
    ensures Reappears(k, s, steps, d, table)
  {
    var first, t, between := DeleteFirst(k, s, v, d, table);
    var r := ServeDoes(k, t, v, m, d, between);
    InsertedLast(k, between, m);
    DoesBoth(k, s, first, Serve(v, m), d, table, t, between, true, r, k.Left(between, m), m == d);
    steps := first + Serve(v, m);
  }

  lemma LaterReappears(k: Setting, s: System, v: nat, d: nat, m: nat, table: seq<Row>) returns (steps: seq<Step>)
    requires k.Valid() && k.Inserted(m) && k.Deleted(d) && k.eval == Joins(k.session)
    requires IsUp(s, v) && d in s.queued
    requires m in k.later && m !in s.published
    ensures Reappears(k, s, steps, d, table)
  {
    var t := Apply(s, Publish(m));
    var rest := QueuedReappears(k, t, v, d, m, table);
    DoesFirst(k, s, Publish(m), rest, d, table, After(t, rest), TableAfter(k, t, rest, table), true);
    steps := [Publish(m)] + rest;
  }

  lemma HeldReappears(k: Setting, s: System, v: nat, w: nat, d: nat, m: nat, table: seq<Row>) returns (steps: seq<Step>)
    requires k.Valid() && k.Inserted(m) && k.Deleted(d) && k.eval == Joins(k.session)
    requires IsUp(s, v) && d in s.queued
    requires v != w && Holds(s, w, m) && (SlotOf(s, w).Ran? ==> k.faults)
    ensures Reappears(k, s, steps, d, table)
  {
    var first, t, between := DeleteFirst(k, s, v, d, table);
    InsertedLast(k, between, m);
    if SlotOf(s, w).Ran? {
      var back := AckThrows(w, false);
      var u := Apply(t, back);
      var r := ServeDoes(k, u, v, m, d, between);
      DoesFirst(k, t, back, Serve(v, m), d, between, r, k.Left(between, m), m == d);
      steps := first + ([back] + Serve(v, m));
      DoesBoth(k, s, first, [back] + Serve(v, m), d, table, t, between, true,
               r, k.Left(between, m), m == d);
    } else {
      var r, left, executed := FinishDoes(k, t, w, d, between);
      steps := first + Finish(t, w);
      DoesBoth(k, s, first, Finish(t, w), d, table, t, between, true, r, left, executed);
    }
  }

  lemma InsertReappears(k: Setting, s: System, d: nat, m: nat, table: seq<Row>) returns (steps: seq<Step>)
    requires k.Valid() && k.Inserted(m) && k.Deleted(d) && k.eval == Joins(k.session)
    requires OnePlace(s) && d in s.queued
    requires !NoneUp(s) && k.Concerns(s, m) && !Spent(k, s, m) && !HeldBySole(s, m)
    ensures Reappears(k, s, steps, d, table)
  {
    var v :| v in s.workers && s.workers[v] != Down;
    if m in s.queued {
      steps := QueuedReappears(k, s, v, d, m, table);
    } else if m in s.published {
      assert Held(s, m);
      var w :| Holds(s, w, m);
      var x :| IsUp(s, x) && x != w;
      assert SlotOf(s, w).Ran? ==> SlotOf(s, w) == Ran(m);
      steps := HeldReappears(k, s, x, w, d, m, table);
    } else {
      steps := LaterReappears(k, s, v, d, m, table);
    }
  }

  /** When a deletion is for good, exactly, told when it is published: in every interleaving in which
      it is executed, and whatever the server makes of ids that are no numbers, the session ends up
      empty iff no worker is left, or each of the session's insertions, published or still to be, is
      over or in the hands of the only worker left. An insertion of unknown effect counts as one. */
  lemma {:induction false} DeletedForGood(k: Setting, s: System, d: nat, table: seq<Row>)
    requires k.Valid() && k.Deleted(d) && OnePlace(s) && d in s.queued
    ensures StaysDeleted(k, s, d, table) <==> InsertsOver(k, s)
  {
    if InsertsOver(k, s) {
      forall eval: Evaluation | Numeric(eval) ensures EndsEmpty(k.(eval := eval), s, d, table) {
        OverEndsEmpty(k.(eval := eval), s, d, table);
      }
    } else {
      ColumnTextCanonical(k.sql(d).sid);
      NotOver(k.(eval := Joins(k.session)), s, d, table);
    }
  }

  lemma {:induction false} OverEndsEmpty(k: Setting, s: System, d: nat, table: seq<Row>)
    requires k.Valid() && k.Deleted(d) && OnePlace(s) && d in s.queued && InsertsOver(k, s)
    ensures EndsEmpty(k, s, d, table)
  {
    assert Safe(k, s, table, false);
    forall steps | Runs(s, steps) && AllPermitted(k, steps) && ExecutedIn(s, steps, d)
      ensures Filter(TableAfter(k, s, steps, table), k.session) == []
    {
      RunKeepsSafe(k, s, d, steps, table, false);
    }
  }

  lemma {:induction false} NotOver(k: Setting, s: System, d: nat, table: seq<Row>)
    requires k.Valid() && k.Deleted(d) && OnePlace(s) && d in s.queued && !InsertsOver(k, s)
    requires k.eval == Joins(k.session)
    ensures !EndsEmpty(k, s, d, table)
  {
    var m :| k.Inserted(m) && k.Concerns(s, m) && !(Spent(k, s, m) || HeldBySole(s, m));
    var steps := InsertReappears(k, s, d, m, table);
  }

  /** With two workers running and exceptions possible only an acknowledgement is enough: every
      insertion must have been acknowledged when the deletion was published, and none may follow. */
  lemma AcknowledgedFirst(k: Setting, s: System, d: nat, table: seq<Row>, v: nat, w: nat)
    requires k.Valid() && k.Deleted(d) && OnePlace(s) && d in s.queued && k.faults
    requires IsUp(s, v) && IsUp(s, w) && v != w
    ensures StaysDeleted(k, s, d, table) <==> forall m | k.Inserted(m) && k.Concerns(s, m) :: m in s.acked
  {
    DeletedForGood(k, s, d, table);
    assert forall m :: !HeldBySole(s, m);
  }
}
