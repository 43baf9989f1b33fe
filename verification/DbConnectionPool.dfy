/** The database connection pool as a step system: a queue under a mutex, a condition variable,
    leases that return themselves. Each step is one critical section or one action outside it. */
module DbConnectionPool {
  import opened Text

  type Thread = nat
  type Conn = nat

  /** Where a thread stands inside `getConnection`; `Outside` is anywhere else. */
  datatype Place =
    | Outside
    | Sleeping              // in cv_.wait, lock released
    | Woken                 // wait is over, the lock not yet taken again
    | Checking(conn: Conn)  // popped a connection, pinging it outside the lock

  /** The pool: the idle queue, every thread's place, and who holds which lease. */
  datatype Pool = Pool(idle: seq<Conn>, at: map<Thread, Place>, leases: map<Conn, Thread>)

  // ----- the steps -----

  datatype Step =
    | Enter(t: Thread)                     // call, lock, and look at the queue
    | SpuriousWakeup(t: Thread)
    | Reacquire(t: Thread)                 // a woken thread takes the lock and looks again
    | Hand(t: Thread)                      // ping or reconnect succeeded
    | Fail(t: Thread, wake: set<Thread>)   // reconnect threw: push, notify_one, rethrow
    | Return(c: Conn, wake: set<Thread>)   // the lease's deleter: push, notify_one

  predicate Is(s: Pool, t: Thread, p: Place) {
    t in s.at && s.at[t] == p
  }

  /** The body of the wait loop under the lock: sleep on an empty queue, else take the front. */
  function Look(s: Pool, t: Thread): Pool {
    if s.idle == [] then s.(at := s.at[t := Sleeping])
    else s.(idle := s.idle[1..], at := s.at[t := Checking(s.idle[0])])
  }

  function Sleepers(s: Pool): set<Thread> {
    set t | t in s.at && s.at[t] == Sleeping
  }

  function Wakers(s: Pool): set<Thread> {
    set t | t in s.at && s.at[t] == Woken
  }

  /** `notify_one` wakes one sleeper if there is any; the system chooses which. */
  predicate MayWake(s: Pool, wake: set<Thread>) {
    if Sleepers(s) == {} then wake == {} else exists t :: t in Sleepers(s) && wake == {t}
  }

  function Wake(s: Pool, wake: set<Thread>): Pool {
    s.(at := map t | t in s.at :: if t in wake then Woken else s.at[t])
  }

  function PushAndNotify(s: Pool, c: Conn, wake: set<Thread>): Pool {
    Wake(s.(idle := s.idle + [c]), wake)
  }

  predicate Enabled(s: Pool, step: Step) {
    match step
    case Enter(t) => Is(s, t, Outside)
    case SpuriousWakeup(t) => Is(s, t, Sleeping)
    case Reacquire(t) => Is(s, t, Woken)
    case Hand(t) => t in s.at && s.at[t].Checking?
    case Fail(t, wake) => t in s.at && s.at[t].Checking? && MayWake(s, wake)
    case Return(c, wake) => c in s.leases && MayWake(s, wake)
  }

  function Apply(s: Pool, step: Step): Pool
    requires Enabled(s, step)
  {
    match step
    case Enter(t) => Look(s, t)
    case SpuriousWakeup(t) => s.(at := s.at[t := Woken])
    case Reacquire(t) => Look(s, t)
    case Hand(t) => s.(leases := s.leases[s.at[t].conn := t], at := s.at[t := Outside])
    case Fail(t, wake) => PushAndNotify(s.(at := s.at[t := Outside]), s.at[t].conn, wake)
    case Return(c, wake) => PushAndNotify(s.(leases := s.leases - {c}), c, wake)
  }

  /** `init` done, nobody inside yet: distinct connections queued, any set of threads. */
  predicate Initial(s: Pool, all: set<Conn>) {
    && (forall i, j | 0 <= i < j < |s.idle| :: s.idle[i] != s.idle[j])
    && all == (set c | c in s.idle)
    && s.leases == map[]
    && forall t | t in s.at :: s.at[t] == Outside
  }

  predicate Runs(s: Pool, steps: seq<Step>)
    decreases |steps|
  {
    steps == [] || (Enabled(s, steps[0]) && Runs(Apply(s, steps[0]), steps[1..]))
  }

  function After(s: Pool, steps: seq<Step>): Pool
    requires Runs(s, steps)
    decreases |steps|
  {
    if steps == [] then s else After(Apply(s, steps[0]), steps[1..])
  }

  // ----- every connection is in exactly one place -----

  predicate Checked(s: Pool, c: Conn) {
    exists t :: t in s.at && s.at[t] == Checking(c)
  }

  /** Queue positions, checking threads and leases name disjoint sets of connections, without
      repetition, and together all connections ever created. */
  ghost predicate OnePlace(s: Pool, all: set<Conn>) {
    && (forall i, j | 0 <= i < j < |s.idle| :: s.idle[i] != s.idle[j])
    && (forall t, u | t in s.at && u in s.at && s.at[t].Checking? && s.at[t] == s.at[u] :: t == u)
    && (forall c | c in s.idle :: !Checked(s, c) && c !in s.leases)
    && (forall c | c in s.leases :: !Checked(s, c))
    && (forall c :: c in all <==> c in s.idle || Checked(s, c) || c in s.leases)
  }

  lemma WakeKeepsChecked(s: Pool, wake: set<Thread>)
    requires wake <= Sleepers(s)
    ensures forall c :: Checked(Wake(s, wake), c) == Checked(s, c)
  {
    forall c ensures Checked(Wake(s, wake), c) == Checked(s, c) {
      if Checked(s, c) {
        var t :| t in s.at && s.at[t] == Checking(c);
        assert Wake(s, wake).at[t] == Checking(c);
      }
    }
  }

  lemma LookChecked(s: Pool, t: Thread)
    requires t in s.at && !s.at[t].Checking?
    ensures forall c :: Checked(Look(s, t), c) == (Checked(s, c) || (s.idle != [] && c == s.idle[0]))
  {
    forall c ensures Checked(Look(s, t), c) == (Checked(s, c) || (s.idle != [] && c == s.idle[0])) {
      if Checked(s, c) {
        var u :| u in s.at && s.at[u] == Checking(c);
        assert Look(s, t).at[u] == Checking(c);
      }
      if s.idle != [] && c == s.idle[0] {
        assert Look(s, t).at[t] == Checking(c);
      }
    }
  }

  lemma LookKeepsOnePlace(s: Pool, t: Thread, all: set<Conn>)
    requires OnePlace(s, all) && t in s.at && !s.at[t].Checking?
    ensures OnePlace(Look(s, t), all)
  {
    LookChecked(s, t);
    if s.idle != [] {
      assert s.idle[0] in s.idle;
      assert forall c :: c in s.idle <==> c == s.idle[0] || c in s.idle[1..];
    }
  }

  lemma LeaveChecked(s: Pool, t: Thread, all: set<Conn>)
    requires OnePlace(s, all) && t in s.at && s.at[t].Checking?
    ensures forall c :: Checked(s.(at := s.at[t := Outside]), c) == (Checked(s, c) && c != s.at[t].conn)
  {
    var r := s.(at := s.at[t := Outside]);
    forall c ensures Checked(r, c) == (Checked(s, c) && c != s.at[t].conn) {
      if Checked(s, c) && c != s.at[t].conn {
        var u :| u in s.at && s.at[u] == Checking(c);
        assert r.at[u] == Checking(c);
      }
      if Checked(r, c) {
        var u :| u in r.at && r.at[u] == Checking(c);
        assert s.at[u] == Checking(c) && u != t;
      }
    }
  }

  /** A connection that is out of the queue, not being checked and not leased comes back. */
  lemma PushKeepsOnePlace(s: Pool, c: Conn, wake: set<Thread>, all: set<Conn>)
    requires wake <= Sleepers(s) && c in all
    requires OnePlace(s, all - {c})
    ensures OnePlace(PushAndNotify(s, c, wake), all)
  {
    var pushed := s.(idle := s.idle + [c]);
    assert forall d :: Checked(pushed, d) == Checked(s, d) by {
      SameChecked(s, pushed);
    }
    WakeKeepsChecked(pushed, wake);
    assert forall d :: d in s.idle + [c] <==> d in s.idle || d == c;
  }

  lemma SameChecked(s: Pool, r: Pool)
    requires s.at == r.at
    ensures forall d :: Checked(r, d) == Checked(s, d)
  {
    forall d ensures Checked(r, d) == Checked(s, d) {
      if Checked(s, d) {
        var u :| u in s.at && s.at[u] == Checking(d);
        assert r.at[u] == Checking(d);
      }
    }
  }

  lemma StepKeepsOnePlace(s: Pool, step: Step, all: set<Conn>)
    requires OnePlace(s, all) && Enabled(s, step)
    ensures OnePlace(Apply(s, step), all)
  {
    match step
    case Enter(t) => LookKeepsOnePlace(s, t, all);
    case Reacquire(t) => LookKeepsOnePlace(s, t, all);
    case SpuriousWakeup(t) =>
      WakeKeepsChecked(s, {t});
      assert Wake(s, {t}).at == s.at[t := Woken];
      SameChecked(Wake(s, {t}), Apply(s, step));
    case Hand(t) =>
      assert Checked(s, s.at[t].conn);
      LeaveChecked(s, t, all);
      SameChecked(s.(at := s.at[t := Outside]), Apply(s, step));
    case Fail(t, wake) =>
      var r := s.(at := s.at[t := Outside]);
      assert Checked(s, s.at[t].conn);
      LeaveChecked(s, t, all);
      assert Sleepers(r) == Sleepers(s);
      PushKeepsOnePlace(r, s.at[t].conn, wake, all);
    case Return(c, wake) =>
      var r := s.(leases := s.leases - {c});
      SameChecked(s, r);
      assert Sleepers(r) == Sleepers(s);
      PushKeepsOnePlace(r, c, wake, all);
  }

  // ----- no wakeup is lost -----

  /** While some thread sleeps, every queued connection has a woken thread on its way to it. */
  predicate NoLostWakeup(s: Pool) {
    Sleepers(s) != {} ==> |s.idle| <= |Wakers(s)|
  }

  lemma LookKeepsWakeups(s: Pool, t: Thread)
    requires NoLostWakeup(s) && t in s.at && (s.at[t] == Outside || s.at[t] == Woken)
    ensures NoLostWakeup(Look(s, t))
  {
    var r := Look(s, t);
    if s.idle != [] {
      assert Sleepers(r) == Sleepers(s);
      assert Wakers(r) == Wakers(s) - {t};
    }
  }

  lemma PushKeepsWakeups(s: Pool, c: Conn, wake: set<Thread>)
    requires NoLostWakeup(s) && MayWake(s, wake)
    ensures NoLostWakeup(PushAndNotify(s, c, wake))
  {
    var r := PushAndNotify(s, c, wake);
    assert Sleepers(r) == Sleepers(s) - wake;
    assert Wakers(r) == Wakers(s) + wake;
    if Sleepers(s) != {} {
      var t :| t in Sleepers(s) && wake == {t};
      assert t !in Wakers(s);
    }
  }

  lemma StepKeepsWakeups(s: Pool, step: Step)
    requires NoLostWakeup(s) && Enabled(s, step)
    ensures NoLostWakeup(Apply(s, step))
  {
    var r := Apply(s, step);
    match step
    case Enter(t) => LookKeepsWakeups(s, t);
    case Reacquire(t) => LookKeepsWakeups(s, t);
    case SpuriousWakeup(t) =>
      assert t in Sleepers(s) && t !in Wakers(s);
      assert Wakers(r) == Wakers(s) + {t};
    case Hand(t) => assert Sleepers(r) == Sleepers(s) && Wakers(r) == Wakers(s);
    case Fail(t, wake) =>
      var q := s.(at := s.at[t := Outside]);
      assert Sleepers(q) == Sleepers(s) && Wakers(q) == Wakers(s);
      PushKeepsWakeups(q, s.at[t].conn, wake);
    case Return(c, wake) =>
      var q := s.(leases := s.leases - {c});
      assert Sleepers(q) == Sleepers(s) && Wakers(q) == Wakers(s);
      PushKeepsWakeups(q, c, wake);
  }

  // ----- over all interleavings -----

  lemma InitialHolds(s: Pool, all: set<Conn>)
    requires Initial(s, all)
    ensures OnePlace(s, all) && NoLostWakeup(s)
  {
    assert forall c :: !Checked(s, c);
    assert Sleepers(s) == {};
  }

  lemma {:induction false} RunKeeps(s: Pool, steps: seq<Step>, all: set<Conn>)
    requires OnePlace(s, all) && NoLostWakeup(s) && Runs(s, steps)
    ensures OnePlace(After(s, steps), all) && NoLostWakeup(After(s, steps))
    decreases |steps|
  {
    if steps != [] {
      StepKeepsOnePlace(s, steps[0], all);
      StepKeepsWakeups(s, steps[0]);
      RunKeeps(Apply(s, steps[0]), steps[1..], all);
    }
  }

  /** Pool safety over all interleavings, stealing, spurious wakeups and failed reconnects
      included. */
  lemma PoolSafety(s: Pool, steps: seq<Step>, all: set<Conn>)
    requires Initial(s, all) && Runs(s, steps)
    ensures OnePlace(After(s, steps), all) && NoLostWakeup(After(s, steps))
  {
    InitialHolds(s, all);
    RunKeeps(s, steps, all);
  }

  // ----- every call ends with a lease or with the exception -----

  predicate Inside(s: Pool, t: Thread) {
    t in s.at && s.at[t] != Outside
  }

  /** The calls of `getConnection` a thread made, and those that ended: handed out or thrown. */
  function Entered(steps: seq<Step>, t: Thread): nat {
    if steps == [] then 0 else (if steps[0] == Enter(t) then 1 else 0) + Entered(steps[1..], t)
  }

  function Ended(steps: seq<Step>, t: Thread): nat {
    if steps == [] then 0
    else (if steps[0] == Hand(t) || (steps[0].Fail? && steps[0].t == t) then 1 else 0) + Ended(steps[1..], t)
  }

  lemma StepInside(s: Pool, step: Step, t: Thread)
    requires Enabled(s, step)
    ensures Inside(Apply(s, step), t)
            == if step == Enter(t) then true
               else if step == Hand(t) || (step.Fail? && step.t == t) then false
               else Inside(s, t)
    ensures step == Enter(t) ==> !Inside(s, t)
    ensures step == Hand(t) || (step.Fail? && step.t == t) ==> Inside(s, t)
  {
  }

  /** Over every run each call a thread made has been handed a connection or has thrown, except the
      one it is inside of: no call returns with nothing. */
  lemma {:induction false} CallsEnd(s: Pool, steps: seq<Step>, t: Thread)
    requires Runs(s, steps)
    ensures Entered(steps, t) + (if Inside(s, t) then 1 else 0)
            == Ended(steps, t) + (if Inside(After(s, steps), t) then 1 else 0)
    decreases |steps|
  {
    if steps != [] {
      StepInside(s, steps[0], t);
      CallsEnd(Apply(s, steps[0]), steps[1..], t);
    }
  }

  /** Whoever looks sleeps on an empty queue and otherwise goes to check the front. */
  lemma LookExactly(s: Pool, t: Thread)
    requires Enabled(s, Enter(t)) || Enabled(s, Reacquire(t))
    ensures var r := Apply(s, if Enabled(s, Enter(t)) then Enter(t) else Reacquire(t));
            && (Is(r, t, Sleeping) <==> s.idle == [])
            && (forall c :: Is(r, t, Checking(c)) <==> s.idle != [] && c == s.idle[0])
            && r.leases == s.leases && forall u | u in s.at && u != t :: Is(r, u, s.at[u])
  {
  }

  /** The connection the thread took last. */
  function Taken(s: Pool, steps: seq<Step>, t: Thread, was: Option<Conn>): Option<Conn>
    requires Runs(s, steps)
    decreases |steps|
  {
    if steps == [] then was
    else
      var looks := (steps[0] == Enter(t) || steps[0] == Reacquire(t)) && s.idle != [];
      Taken(Apply(s, steps[0]), steps[1..], t, if looks then Some(s.idle[0]) else was)
  }

  predicate ChecksOnly(s: Pool, t: Thread, taken: Option<Conn>) {
    t in s.at && s.at[t].Checking? ==> taken == Some(s.at[t].conn)
  }

  lemma {:induction false} TakenIsChecked(s: Pool, steps: seq<Step>, t: Thread, was: Option<Conn>)
    requires Runs(s, steps) && ChecksOnly(s, t, was)
    ensures ChecksOnly(After(s, steps), t, Taken(s, steps, t, was))
    decreases |steps|
  {
    if steps != [] {
      var next := Apply(s, steps[0]);
      var looks := (steps[0] == Enter(t) || steps[0] == Reacquire(t)) && s.idle != [];
      TakenIsChecked(next, steps[1..], t, if looks then Some(s.idle[0]) else was);
    }
  }

  /** Over every run a thread is handed the connection it took last, as its own lease. */
  lemma HandedIsTaken(s: Pool, steps: seq<Step>, all: set<Conn>, t: Thread)
    requires Initial(s, all) && Runs(s, steps) && Enabled(After(s, steps), Hand(t))
    ensures var r, taken := After(s, steps), Taken(s, steps, t, None);
            && taken.Some? && taken.value in all && taken.value !in r.leases
            && Apply(r, Hand(t)).leases == r.leases[taken.value := t] && !Inside(Apply(r, Hand(t)), t)
  {
    TakenIsChecked(s, steps, t, None);
    PoolSafety(s, steps, all);
    assert Checked(After(s, steps), After(s, steps).at[t].conn);
  }

  /** A lease stays with its thread until its own return. */
  lemma {:induction false} LeaseLasts(s: Pool, steps: seq<Step>, all: set<Conn>, c: Conn)
    requires OnePlace(s, all) && Runs(s, steps) && c in s.leases
    requires forall step | step in steps :: !(step.Return? && step.c == c)
    ensures c in After(s, steps).leases && After(s, steps).leases[c] == s.leases[c]
    decreases |steps|
  {
    if steps != [] {
      var step := steps[0];
      assert step in steps;
      if step.Hand? {
        assert Checked(s, s.at[step.t].conn);
      }
      StepKeepsOnePlace(s, step, all);
      LeaseLasts(Apply(s, step), steps[1..], all, c);
    }
  }

  // ----- order -----

  /** The connection a step takes from the queue, and the one it puts there. */
  function Popped(s: Pool, step: Step): seq<Conn> {
    if (step.Enter? || step.Reacquire?) && s.idle != [] then [s.idle[0]] else []
  }

  function Pushed(s: Pool, step: Step): seq<Conn>
    requires Enabled(s, step)
  {
    match step
    case Fail(t, _) => [s.at[t].conn]
    case Return(c, _) => [c]
    case _ => []
  }

  function AllPopped(s: Pool, steps: seq<Step>): seq<Conn>
    requires Runs(s, steps)
    decreases |steps|
  {
    if steps == [] then [] else Popped(s, steps[0]) + AllPopped(Apply(s, steps[0]), steps[1..])
  }

  function AllPushed(s: Pool, steps: seq<Step>): seq<Conn>
    requires Runs(s, steps)
    decreases |steps|
  {
    if steps == [] then [] else Pushed(s, steps[0]) + AllPushed(Apply(s, steps[0]), steps[1..])
  }

  lemma StepOrder(s: Pool, step: Step)
    requires Enabled(s, step)
    ensures s.idle + Pushed(s, step) == Popped(s, step) + Apply(s, step).idle
  {
  }

  /** First in, first out over every run: connections are handed out in the order they were queued. */
  lemma {:induction false} QueueOrder(s: Pool, steps: seq<Step>)
    requires Runs(s, steps)
    ensures s.idle + AllPushed(s, steps) == AllPopped(s, steps) + After(s, steps).idle
    decreases |steps|
  {
    if steps == [] {
      assert s.idle + [] == s.idle && [] + s.idle == s.idle;
    } else {
      var next := Apply(s, steps[0]);
      StepOrder(s, steps[0]);
      QueueOrder(next, steps[1..]);
      Regroup(s.idle, Pushed(s, steps[0]), AllPushed(next, steps[1..]));
      Regroup(Popped(s, steps[0]), next.idle, AllPushed(next, steps[1..]));
      Regroup(Popped(s, steps[0]), AllPopped(next, steps[1..]), After(next, steps[1..]).idle);
    }
  }

  /** So nobody is stranded: when every lease is back and nobody is checking, a pool of at least one
      connection with a sleeping thread has a woken thread whose next step obtains a connection. */
  lemma SleeperNotStranded(s: Pool, steps: seq<Step>, all: set<Conn>)
    requires Initial(s, all) && Runs(s, steps) && all != {}
    requires var r := After(s, steps);
             r.leases == map[] && (forall c :: !Checked(r, c)) && Sleepers(r) != {}
    ensures var r := After(s, steps);
            r.idle != [] && exists t :: Enabled(r, Reacquire(t))
                                        && Is(Apply(r, Reacquire(t)), t, Checking(r.idle[0]))
  {
    var r := After(s, steps);
    PoolSafety(s, steps, all);
    var c :| c in all;
    assert c in r.idle;
    assert Wakers(r) != {};
    var t :| t in Wakers(r);
    assert Enabled(r, Reacquire(t));
  }
}
