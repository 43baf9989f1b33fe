/** From the write workers to the table: a run of the pool that went through stores exactly what was
    published, so what reloading promises about tables holds of it. */
module Delivery {
  import opened Text
  import opened Sql
  import opened Persistence
  import opened Reload
  import opened W = WorkerPool
  import opened Deletion

  /** The messages of a run in the order they were published. */
  function PublishedIn(steps: seq<Step>): seq<nat> {
    if steps == [] then []
    else (if steps[0].Publish? then [steps[0].m] else []) + PublishedIn(steps[1..])
  }

  /** The messages of a run in the order their statements took effect. */
  function EffectsIn(s: System, steps: seq<Step>): seq<nat>
    requires Runs(s, steps)
    decreases |steps|
  {
    if steps == [] then []
    else
      var done := DoneBy(s, steps[0]);
      (if done.Some? then [done.value] else []) + EffectsIn(Apply(s, steps[0]), steps[1..])
  }

  predicate AllInsert(k: Setting, ms: seq<nat>) {
    forall m | m in ms :: k.sql(m).InsertRow?
  }

  function RowsIn(k: Setting, ms: seq<nat>): seq<Row>
    requires AllInsert(k, ms)
  {
    if ms == [] then [] else [k.sql(ms[0]).row] + RowsIn(k, ms[1..])
  }

  // ----- the table is what took effect -----

  lemma {:induction false} TableIsEffects(k: Setting, s: System, steps: seq<Step>, table: seq<Row>)
    requires Runs(s, steps) && AllInsert(k, EffectsIn(s, steps))
    ensures TableAfter(k, s, steps, table) == table + StoredUnder(k.eval, RowsIn(k, EffectsIn(s, steps)))
    decreases |steps|
  {
    if steps == [] {
      assert table + [] == table;
    } else {
      var done, rest := DoneBy(s, steps[0]), EffectsIn(Apply(s, steps[0]), steps[1..]);
      if done.Some? {
        var row := k.sql(done.value).row;
        assert done.value in EffectsIn(s, steps) && ([done.value] + rest)[1..] == rest;
        assert forall m | m in rest :: m in EffectsIn(s, steps);
        TableIsEffects(k, Apply(s, steps[0]), steps[1..], table + RowsOf(k.eval, row));
        assert ([row] + RowsIn(k, rest))[1..] == RowsIn(k, rest);
        Regroup(table, RowsOf(k.eval, row), StoredUnder(k.eval, RowsIn(k, rest)));
      } else {
        assert EffectsIn(s, steps) == rest;
        TableIsEffects(k, Apply(s, steps[0]), steps[1..], table);
      }
    }
  }

  // ----- each message once -----

  lemma {:induction false} StepCounted(s: System, step: Step, m: nat)
    requires Enabled(s, step)
    ensures Count(Apply(s, step).executions, m)
            == Count(s.executions, m) + if DoneBy(s, step) == Some(m) then 1 else 0
  {
  }

  lemma {:induction false} EffectsCounted(s: System, steps: seq<Step>, m: nat)
    requires Runs(s, steps)
    ensures multiset(EffectsIn(s, steps))[m] == Count(After(s, steps).executions, m) - Count(s.executions, m)
    decreases |steps|
  {
    if steps != [] {
      EffectsCounted(Apply(s, steps[0]), steps[1..], m);
      StepCounted(s, steps[0], m);
    }
  }

  lemma {:induction false} PublishedOnce(s: System, steps: seq<Step>, m: nat)
    requires Runs(s, steps)
    ensures s.published <= After(s, steps).published
    ensures multiset(PublishedIn(steps))[m]
            == if m in After(s, steps).published && m !in s.published then 1 else 0
    decreases |steps|
  {
    if steps != [] {
      PublishedOnce(Apply(s, steps[0]), steps[1..], m);
    }
  }

  /** Every published message was acknowledged and no exception hit any. */
  predicate WentThrough(r: System) {
    r.published <= r.acked && forall m | m in r.failures :: r.failures[m] == 0
  }

  /** Then what took effect is what was published, each message once. */
  lemma {:induction false} EffectsArePublished(s: System, steps: seq<Step>)
    requires Initial(s) && Runs(s, steps) && WentThrough(After(s, steps))
    ensures multiset(EffectsIn(s, steps)) == multiset(PublishedIn(steps))
  {
    var r := After(s, steps);
    DeliverySafety(s, steps);
    forall m ensures multiset(EffectsIn(s, steps))[m] == multiset(PublishedIn(steps))[m] {
      EffectsCounted(s, steps, m);
      PublishedOnce(s, steps, m);
      assert Count(r.failures, m) == 0;
      if m in r.published {
        assert Settled(r, m);
      } else {
        UnpublishedUnsettled(r, m);
      }
    }
  }

  lemma {:induction false} UnpublishedUnsettled(r: System, m: nat)
    requires OnePlace(r) && m !in r.published
    ensures !Settled(r, m)
  {
    forall w ensures SlotOf(r, w) != Ran(m) {
      assert SlotOf(r, w) == Ran(m) ==> Holds(r, w, m);
    }
  }

  // ----- order does not matter to the table -----

  lemma {:induction false} StoredConcat(eval: Evaluation, a: seq<Row>, b: seq<Row>)
    ensures StoredUnder(eval, a + b) == StoredUnder(eval, a) + StoredUnder(eval, b)
  {
    if a == [] {
      assert a + b == b;
    } else {
      assert (a + b)[1..] == a[1..] + b;
      StoredConcat(eval, a[1..], b);
      Regroup(RowsOf(eval, a[0]), StoredUnder(eval, a[1..]), StoredUnder(eval, b));
    }
  }

  lemma {:induction false} RowsInConcat(k: Setting, a: seq<nat>, b: seq<nat>)
    requires AllInsert(k, a) && AllInsert(k, b)
    ensures AllInsert(k, a + b) && RowsIn(k, a + b) == RowsIn(k, a) + RowsIn(k, b)
  {
    if a == [] {
      assert a + b == b;
    } else {
      assert (a + b)[1..] == a[1..] + b;
      RowsInConcat(k, a[1..], b);
    }
  }

  function StoredFor(k: Setting, ms: seq<nat>): seq<Row>
    requires AllInsert(k, ms)
  {
    StoredUnder(k.eval, RowsIn(k, ms))
  }

  lemma {:induction false} StoredForConcat(k: Setting, a: seq<nat>, b: seq<nat>)
    requires AllInsert(k, a) && AllInsert(k, b)
    ensures AllInsert(k, a + b) && StoredFor(k, a + b) == StoredFor(k, a) + StoredFor(k, b)
  {
    RowsInConcat(k, a, b);
    StoredConcat(k.eval, RowsIn(k, a), RowsIn(k, b));
  }

  /** Taking one message out takes its rows out. */
  lemma {:induction false} StoredWithout(k: Setting, before: seq<nat>, m: nat, after: seq<nat>)
    requires AllInsert(k, before + [m] + after)
    ensures AllInsert(k, before + after) && AllInsert(k, [m])
    ensures multiset(StoredFor(k, before + [m] + after))
            == multiset(StoredFor(k, before + after)) + multiset(StoredFor(k, [m]))
  {
    var all := before + [m] + after;
    assert forall x | x in before || x == m || x in after :: x in all;
    assert before + [m] + after == before + ([m] + after);
    StoredForConcat(k, before, after);
    StoredForConcat(k, [m], after);
    StoredForConcat(k, before, [m] + after);
  }

  lemma {:induction false} Removed(b: seq<nat>, i: nat, before: seq<nat>, after: seq<nat>)
    requires i < |b| && before == b[..i] && after == b[i + 1..]
    ensures b == before + [b[i]] + after && multiset(before + after) == multiset(b) - multiset{b[i]}
  {
    assert b == before + [b[i]] + after;
  }

  lemma {:induction false} TakeOut(a: seq<nat>, b: seq<nat>)
    returns (m: nat, rest: seq<nat>, before: seq<nat>, after: seq<nat>)
    requires a != [] && multiset(a) == multiset(b)
    ensures a == [] + [m] + rest && b == before + [m] + after && |rest| < |a|
    ensures multiset([] + rest) == multiset(before + after)
  {
    m, rest := a[0], a[1..];
    assert m in multiset(a) && m in multiset(b);
    var i :| 0 <= i < |b| && b[i] == m;
    before, after := b[..i], b[i + 1..];
    Removed(a, 0, [], rest);
    Removed(b, i, before, after);
  }

  lemma {:induction false} StoredPermuted(k: Setting, a: seq<nat>, b: seq<nat>)
    requires multiset(a) == multiset(b) && AllInsert(k, a) && AllInsert(k, b)
    ensures multiset(StoredFor(k, a)) == multiset(StoredFor(k, b))
    decreases |a|
  {
    if a == [] {
      assert |b| == |multiset(b)| == 0;
    } else {
      var m, rest, before, after := TakeOut(a, b);
      StoredWithout(k, [], m, rest);
      StoredWithout(k, before, m, after);
      StoredPermuted(k, [] + rest, before + after);
    }
  }

  // ----- the pool's run and the reload -----

  /** Whatever the interleaving, a run that went through leaves a table with what was published. */
  lemma {:induction false} RunStoresPublished(k: Setting, s: System, steps: seq<Step>)
    requires Initial(s) && Runs(s, steps) && WentThrough(After(s, steps))
    requires AllInsert(k, PublishedIn(steps)) && Numeric(k.eval)
    ensures TableOf(TableAfter(k, s, steps, []), k.eval, RowsIn(k, PublishedIn(steps)))
  {
    var effects, published := EffectsIn(s, steps), PublishedIn(steps);
    EffectsArePublished(s, steps);
    forall m | m in effects ensures k.sql(m).InsertRow? {
      assert m in multiset(effects);
      assert m in multiset(published);
    }
    TableIsEffects(k, s, steps, []);
    assert [] + StoredFor(k, effects) == StoredFor(k, effects);
    StoredPermuted(k, effects, published);
  }

  /** End to end: after any run of the workers that went through, over all interleavings, reloading a
      user rebuilds each session as memory holds it, under the exact conditions of the round trip. */
  lemma {:induction false} RunReloads(k: Setting, s: System, steps: seq<Step>, own: seq<Row>, u: nat, sid: string)
    requires Initial(s) && Runs(s, steps) && WentThrough(After(s, steps))
    requires AllInsert(k, PublishedIn(steps)) && Numeric(k.eval)
    requires ResultSet(own, Filter(TableAfter(k, s, steps, []), OfUser(u)))
    requires var posted, session := RowsIn(k, PublishedIn(steps)), OfSession(u, sid);
             && Understood(posted, session) && SoleSpelling(posted, session)
             && InTime(Remembered(posted, session)) && TiesEqual(Remembered(posted, session))
    ensures ChatOf(Load(NOTHING, own), sid) == Remembered(RowsIn(k, PublishedIn(steps)), OfSession(u, sid))
  {
    var posted, table := RowsIn(k, PublishedIn(steps)), TableAfter(k, s, steps, []);
    RunStoresPublished(k, s, steps);
    PersistenceRoundTrip(posted, u, sid);
    assert TableOf(table, k.eval, posted) && ResultSet(own, Filter(table, OfUser(u)));
  }
}
