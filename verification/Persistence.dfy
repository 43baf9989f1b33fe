/** Rows written in any order and read back sorted: when reloading rebuilds a session. */
module Persistence {
  import opened Text
  import opened Sql
  import opened Conversation

  /** The rows of one user, or of one session of a user. */
  datatype Scope = OfUser(u: nat) | OfSession(u: nat, sid: string) {
    predicate Has(r: Row) {
      r.userId == u && (OfSession? ==> r.sessionId == sid)
    }
  }

  function Filter(rows: seq<Row>, scope: Scope): seq<Row> {
    if rows == [] then []
    else if scope.Has(rows[0]) then [rows[0]] + Filter(rows[1..], scope)
    else Filter(rows[1..], scope)
  }

  lemma {:induction false} FilterConcat(a: seq<Row>, b: seq<Row>, scope: Scope)
    ensures Filter(a + b, scope) == Filter(a, scope) + Filter(b, scope)
  {
    if a == [] {
      assert a + b == b;
    } else {
      assert (a + b)[1..] == a[1..] + b;
      FilterConcat(a[1..], b, scope);
    }
  }

  lemma {:induction false} FilterMembers(rows: seq<Row>, scope: Scope)
    ensures forall r | r in Filter(rows, scope) :: r in rows && scope.Has(r)
  {
    if rows != [] {
      FilterMembers(rows[1..], scope);
    }
  }

  lemma {:induction false} FilterAll(rows: seq<Row>, scope: Scope)
    requires forall r | r in rows :: scope.Has(r)
    ensures Filter(rows, scope) == rows
  {
    if rows != [] {
      FilterAll(rows[1..], scope);
    }
  }

  lemma {:induction false} FilterNone(rows: seq<Row>, scope: Scope)
    requires forall r | r in rows :: !scope.Has(r)
    ensures Filter(rows, scope) == []
  {
    if rows != [] {
      FilterNone(rows[1..], scope);
    }
  }

  lemma {:induction false} FilterCount(rows: seq<Row>, scope: Scope, r: Row)
    ensures multiset(Filter(rows, scope))[r] == if scope.Has(r) then multiset(rows)[r] else 0
  {
    if rows != [] {
      FilterCount(rows[1..], scope, r);
      assert rows == [rows[0]] + rows[1..];
      assert multiset(rows) == multiset{rows[0]} + multiset(rows[1..]);
      if scope.Has(rows[0]) {
        assert multiset(Filter(rows, scope)) == multiset{rows[0]} + multiset(Filter(rows[1..], scope));
      }
    }
  }

  lemma FilterSameRows(a: seq<Row>, b: seq<Row>, scope: Scope)
    requires multiset(a) == multiset(b)
    ensures multiset(Filter(a, scope)) == multiset(Filter(b, scope))
  {
    forall r ensures multiset(Filter(a, scope))[r] == multiset(Filter(b, scope))[r] {
      FilterCount(a, scope, r);
      FilterCount(b, scope, r);
    }
  }

  lemma FilterOne(r: Row, scope: Scope)
    ensures Filter([r], scope) == if scope.Has(r) then [r] else []
  {
    assert [r][1..] == [];
  }

  // ----- ORDER BY ts ASC, id ASC -----

  predicate NotAfter(a: Row, b: Row) {
    a.ts < b.ts || (a.ts == b.ts && a.userId <= b.userId)
  }

  predicate Sorted(rows: seq<Row>) {
    forall i, j | 0 <= i < j < |rows| :: NotAfter(rows[i], rows[j])
  }

  /** A result set the database may give for the table: the rows sorted, ties in any order. */
  predicate ResultSet(result: seq<Row>, table: seq<Row>) {
    Sorted(result) && multiset(result) == multiset(table)
  }

  /** Timestamps increase; only identical rows may share one. */
  predicate Ordered(rows: seq<Row>) {
    forall i, j | 0 <= i < j < |rows| :: rows[i].ts < rows[j].ts || rows[i] == rows[j]
  }

  // ----- one order only -----

  lemma {:induction false} FilterSorted(rows: seq<Row>, scope: Scope)
    requires Sorted(rows)
    ensures Sorted(Filter(rows, scope))
  {
    if rows != [] {
      var rest := rows[1..];
      assert forall i, j | 0 <= i < j < |rest| :: rest[i] == rows[i + 1] && rest[j] == rows[j + 1];
      FilterSorted(rest, scope);
      if scope.Has(rows[0]) {
        FilterMembers(rest, scope);
        ConsSorted(rows[0], rest, Filter(rest, scope));
      }
    }
  }

  lemma ConsSorted(r: Row, rest: seq<Row>, kept: seq<Row>)
    requires Sorted([r] + rest) && Sorted(kept) && forall x | x in kept :: x in rest
    ensures Sorted([r] + kept)
  {
    forall x | x in kept ensures NotAfter(r, x) {
      var i :| 0 <= i < |rest| && rest[i] == x;
      var all := [r] + rest;
      assert all[0] == r && all[i + 1] == x;
    }
  }

  lemma TailSorted(rows: seq<Row>)
    requires rows != []
    ensures Sorted(rows) ==> Sorted(rows[1..])
    ensures Ordered(rows) ==> Ordered(rows[1..])
  {
    var rest := rows[1..];
    assert forall i | 0 <= i < |rest| :: rest[i] == rows[i + 1];
  }

  lemma FirstAgrees(a: seq<Row>, b: seq<Row>)
    requires a != [] && multiset(a) == multiset(b) && Sorted(a) && Ordered(b)
    ensures b != [] && a[0] == b[0]
  {
    assert |b| == |multiset(b)| == |multiset(a)| == |a|;
    assert a[0] in multiset(a) && b[0] in multiset(b);
    var j :| 0 <= j < |b| && b[j] == a[0];
    var i :| 0 <= i < |a| && a[i] == b[0];
  }

  /** Rows in timestamp order can be told apart by it: any sorted listing of them is that order. */
  lemma {:induction false} SortedIsOrdered(a: seq<Row>, b: seq<Row>)
    requires multiset(a) == multiset(b) && Sorted(a) && Ordered(b)
    ensures a == b
  {
    assert |b| == |multiset(b)| == |multiset(a)| == |a|;
    if a != [] {
      FirstAgrees(a, b);
      TailSorted(a);
      TailSorted(b);
      TailsPermuted(a, b);
      SortedIsOrdered(a[1..], b[1..]);
    }
  }

  // ----- a result set always exists -----

  function Insert(r: Row, rows: seq<Row>): seq<Row> {
    if rows == [] || NotAfter(r, rows[0]) then [r] + rows else [rows[0]] + Insert(r, rows[1..])
  }

  function Sort(rows: seq<Row>): seq<Row> {
    if rows == [] then [] else Insert(rows[0], Sort(rows[1..]))
  }

  lemma {:induction false} InsertRows(r: Row, rows: seq<Row>)
    ensures multiset(Insert(r, rows)) == multiset{r} + multiset(rows)
  {
    if rows != [] && !NotAfter(r, rows[0]) {
      InsertRows(r, rows[1..]);
      assert rows == [rows[0]] + rows[1..];
    }
  }

  lemma {:induction false} InsertMembers(r: Row, rows: seq<Row>)
    ensures forall x | x in Insert(r, rows) :: x == r || x in rows
  {
    if rows != [] && !NotAfter(r, rows[0]) {
      InsertMembers(r, rows[1..]);
    }
  }

  lemma {:induction false} InsertSorted(r: Row, rows: seq<Row>)
    requires Sorted(rows)
    ensures Sorted(Insert(r, rows))
  {
    if rows == [] {
    } else if NotAfter(r, rows[0]) {
      assert forall i | 0 <= i < |rows| :: NotAfter(rows[0], rows[i]) || i == 0;
    } else {
      var rest := rows[1..];
      TailSorted(rows);
      InsertSorted(r, rest);
      InsertMembers(r, rest);
      HeadBefore(rows[0], r, rest, Insert(r, rest));
    }
  }

  lemma HeadBefore(head: Row, r: Row, rest: seq<Row>, more: seq<Row>)
    requires Sorted([head] + rest) && !NotAfter(r, head) && Sorted(more)
    requires forall x | x in more :: x == r || x in rest
    ensures Sorted([head] + more)
  {
    forall x | x in more ensures NotAfter(head, x) {
      if x != r {
        var i :| 0 <= i < |rest| && rest[i] == x;
        var all := [head] + rest;
        assert all[0] == head && all[i + 1] == x;
      }
    }
  }

  lemma {:induction false} SortGivesResultSet(rows: seq<Row>)
    ensures ResultSet(Sort(rows), rows)
  {
    if rows != [] {
      SortGivesResultSet(rows[1..]);
      InsertSorted(rows[0], Sort(rows[1..]));
      InsertRows(rows[0], Sort(rows[1..]));
      assert rows == [rows[0]] + rows[1..];
    }
  }

  lemma {:induction false} SortSorted(rows: seq<Row>)
    requires Sorted(rows)
    ensures Sort(rows) == rows
  {
    if rows != [] {
      TailSorted(rows);
      SortSorted(rows[1..]);
      assert |rows| > 1 ==> NotAfter(rows[0], rows[1]);
    }
  }

  lemma {:induction false} FilterInsert(r: Row, rows: seq<Row>, scope: Scope)
    requires Sorted(rows)
    ensures Filter(Insert(r, rows), scope)
            == if scope.Has(r) then Insert(r, Filter(rows, scope)) else Filter(rows, scope)
  {
    if rows == [] {
    } else if NotAfter(r, rows[0]) {
      assert ([r] + rows)[1..] == rows;
      FilterMembers(rows, scope);
      if Filter(rows, scope) != [] {
        var x := Filter(rows, scope)[0];
        assert x in Filter(rows, scope);
        var i :| 0 <= i < |rows| && rows[i] == x;
        assert i > 0 ==> NotAfter(rows[0], rows[i]);
      }
    } else {
      TailSorted(rows);
      FilterInsert(r, rows[1..], scope);
      assert ([rows[0]] + Insert(r, rows[1..]))[1..] == Insert(r, rows[1..]);
      if scope.Has(rows[0]) {
        assert Filter(rows, scope)[1..] == Filter(rows[1..], scope);
      } else {
        SkippedStillLater(r, rows, scope);
      }
    }
  }

  lemma SkippedStillLater(r: Row, rows: seq<Row>, scope: Scope)
    ensures rows != [] && !scope.Has(rows[0]) ==> Filter(rows, scope) == Filter(rows[1..], scope)
  {
  }

  lemma {:induction false} FilterSort(rows: seq<Row>, scope: Scope)
    ensures Filter(Sort(rows), scope) == Sort(Filter(rows, scope))
  {
    if rows != [] {
      FilterSort(rows[1..], scope);
      SortGivesResultSet(rows[1..]);
      FilterInsert(rows[0], Sort(rows[1..]), scope);
      if scope.Has(rows[0]) {
        assert Filter(rows, scope)[1..] == Filter(rows[1..], scope);
      }
    }
  }

  // ----- when stored rows come back in order -----

  /** Whatever order these rows were stored in, and however the database breaks ties, those of the
      session come back in the order given. */
  ghost predicate ComesBack(log: seq<Row>, session: Scope) {
    forall table, result {:trigger ResultSet(result, table)} ::
      multiset(table) == multiset(log) && ResultSet(result, table)
      ==> Filter(result, session) == Filter(log, session)
  }

  function Others(rows: seq<Row>, scope: Scope): seq<Row> {
    if rows == [] then []
    else if scope.Has(rows[0]) then Others(rows[1..], scope)
    else [rows[0]] + Others(rows[1..], scope)
  }

  lemma {:induction false} OthersRest(rows: seq<Row>, scope: Scope)
    ensures multiset(Filter(rows, scope) + Others(rows, scope)) == multiset(rows)
    ensures forall r | r in Others(rows, scope) :: !scope.Has(r)
  {
    if rows != [] {
      OthersRest(rows[1..], scope);
      assert rows == [rows[0]] + rows[1..];
    }
  }

  /** Any sorted arrangement of the session's rows is what some execution order and tie-breaking
      give back. */
  lemma AnyArrangement(log: seq<Row>, session: Scope, rows: seq<Row>) returns (table: seq<Row>)
    requires multiset(rows) == multiset(Filter(log, session)) && Sorted(rows)
    ensures multiset(table) == multiset(log)
    ensures ResultSet(Sort(table), table) && Filter(Sort(table), session) == rows
  {
    table := rows + Others(log, session);
    OthersRest(log, session);
    SortGivesResultSet(table);
    FilterSort(table, session);
    FilterConcat(rows, Others(log, session), session);
    FilterMembers(log, session);
    forall r | r in rows ensures session.Has(r) {
      assert r in multiset(rows);
      assert r in multiset(Filter(log, session));
    }
    FilterAll(rows, session);
    FilterNone(Others(log, session), session);
    assert rows + [] == rows;
    SortSorted(rows);
  }

  function Swap(rows: seq<Row>, i: nat, j: nat): seq<Row>
    requires i < j < |rows|
  {
    rows[i := rows[j]][j := rows[i]]
  }

  lemma SwapTied(rows: seq<Row>, i: nat, j: nat)
    requires i < j < |rows| && Sorted(rows) && NotAfter(rows[j], rows[i])
    ensures Sorted(Swap(rows, i, j)) && multiset(Swap(rows, i, j)) == multiset(rows)
  {
    var s := Swap(rows, i, j);
    forall a, b | 0 <= a < b < |s| ensures NotAfter(s[a], s[b]) {
      SwapTiedPair(rows, i, j, a, b);
    }
  }

  lemma SwapTiedPair(rows: seq<Row>, i: nat, j: nat, a: nat, b: nat)
    requires i < j < |rows| && Sorted(rows) && NotAfter(rows[j], rows[i]) && a < b < |rows|
    ensures NotAfter(Swap(rows, i, j)[a], Swap(rows, i, j)[b])
  {
    assert NotAfter(rows[a], rows[b]) && NotAfter(rows[i], rows[j]);
    assert a < i ==> NotAfter(rows[a], rows[i]);
    assert a < j ==> NotAfter(rows[a], rows[j]);
    assert i < b ==> NotAfter(rows[i], rows[b]);
    assert j < b ==> NotAfter(rows[j], rows[b]);
  }

  lemma ComesBackExactly(log: seq<Row>, session: Scope)
    requires session.OfSession?
    ensures ComesBack(log, session) <==> Ordered(Filter(log, session))
  {
    var rows := Filter(log, session);
    if Ordered(rows) {
      forall table, result {:trigger ResultSet(result, table)}
        | multiset(table) == multiset(log) && ResultSet(result, table)
        ensures Filter(result, session) == rows
      {
        FilterSorted(result, session);
        FilterSameRows(result, log, session);
        SortedIsOrdered(Filter(result, session), rows);
      }
    }
    if ComesBack(log, session) {
      ComesBackSorted(log, session);
      forall i, j | 0 <= i < j < |rows| ensures rows[i].ts < rows[j].ts || rows[i] == rows[j] {
        if rows[i].ts == rows[j].ts && rows[i] != rows[j] {
          TieSwapped(log, session, i, j);
        } else {
          assert NotAfter(rows[i], rows[j]);
        }
      }
    }
  }

  lemma TieSwapped(log: seq<Row>, session: Scope, i: nat, j: nat)
    requires session.OfSession? && i < j < |Filter(log, session)|
    requires Filter(log, session)[i].ts == Filter(log, session)[j].ts
    requires Filter(log, session)[i] != Filter(log, session)[j]
    ensures !ComesBack(log, session)
  {
    if Sorted(Filter(log, session)) {
      var rows := Filter(log, session);
      SameUser(log, session, i, j);
      SwapTied(rows, i, j);
      var table := AnyArrangement(log, session, Swap(rows, i, j));
      assert ResultSet(Sort(table), table) && Filter(Sort(table), session)[i] == rows[j];
    } else if ComesBack(log, session) {
      ComesBackSorted(log, session);
    }
  }

  lemma ComesBackSorted(log: seq<Row>, session: Scope)
    requires ComesBack(log, session)
    ensures Sorted(Filter(log, session))
  {
    SortGivesResultSet(log);
    assert ResultSet(Sort(log), log);
    FilterSorted(Sort(log), session);
  }

  lemma SameUser(log: seq<Row>, session: Scope, i: nat, j: nat)
    requires i < |Filter(log, session)| && j < |Filter(log, session)|
    ensures Filter(log, session)[i].userId == Filter(log, session)[j].userId
  {
    FilterMembers(log, session);
    assert Filter(log, session)[i] in Filter(log, session);
    assert Filter(log, session)[j] in Filter(log, session);
  }

  // ----- when a published session survives -----

  /** What executing the inserts of these rows stores of the statements with a plain number. */
  function Stored(log: seq<Row>): seq<Row> {
    if log == [] then []
    else if StoredRow(log[0]).Some? then [StoredRow(log[0]).value] + Stored(log[1..])
    else Stored(log[1..])
  }

  /** The user's rows stored under this id are those published under this very text. */
  predicate SoleSpelling(log: seq<Row>, session: Scope)
    requires session.OfSession?
  {
    forall r | r in log && r.userId == session.u ::
      ColumnText(r.sessionId) == Some(session.sid) <==> r.sessionId == session.sid
  }

  lemma {:induction false} SpelledSame(log: seq<Row>, session: Scope)
    requires session.OfSession? && SoleSpelling(log, session)
    ensures Filter(Stored(log), session) == Filter(log, session)
  {
    if log != [] {
      var r := log[0];
      assert r in log;
      SpelledSame(log[1..], session);
      if StoredRow(r).Some? {
        assert Stored(log)[1..] == Stored(log[1..]);
        assert r.sessionId == session.sid ==> r.(sessionId := session.sid) == r;
      }
    }
  }

  /** Under a canonical id at least the rows published under it are stored. */
  lemma {:induction false} SpelledCount(log: seq<Row>, session: Scope)
    requires session.OfSession? && Canonical(session.sid)
    ensures |Filter(Stored(log), session)| >= |Filter(log, session)|
    ensures |Filter(Stored(log), session)| == |Filter(log, session)| ==> SoleSpelling(log, session)
  {
    if log != [] {
      var r := log[0];
      SpelledCount(log[1..], session);
      if StoredRow(r).Some? {
        assert Stored(log)[1..] == Stored(log[1..]);
      }
      assert forall x | x in log :: x == r || x in log[1..];
    }
  }

  lemma {:induction false} StoredCanonical(log: seq<Row>, session: Scope)
    requires session.OfSession? && !Canonical(session.sid)
    ensures Filter(Stored(log), session) == []
  {
    if log != [] {
      var r := log[0];
      StoredCanonical(log[1..], session);
      ColumnTextCanonical(r.sessionId);
      if StoredRow(r).Some? {
        assert Stored(log)[1..] == Stored(log[1..]);
      }
    }
  }

  lemma {:induction false} NonePublished(log: seq<Row>, session: Scope)
    requires session.OfSession? && !Canonical(session.sid) && Filter(log, session) == []
    ensures SoleSpelling(log, session)
  {
    if log != [] {
      var r := log[0];
      NonePublished(log[1..], session);
      ColumnTextCanonical(r.sessionId);
      assert forall x | x in log :: x == r || x in log[1..];
    }
  }

  /** As many rows stored as published under an id: they are the same rows. */
  lemma SameCountSpelled(log: seq<Row>, session: Scope)
    requires session.OfSession? && |Filter(Stored(log), session)| == |Filter(log, session)|
    ensures SoleSpelling(log, session)
  {
    if Canonical(session.sid) {
      SpelledCount(log, session);
    } else {
      StoredCanonical(log, session);
      NonePublished(log, session);
    }
  }

  lemma SameCount(a: seq<Row>, b: seq<Row>, scope: Scope)
    requires multiset(a) == multiset(b)
    ensures |Filter(a, scope)| == |Filter(b, scope)|
  {
    FilterSameRows(a, b, scope);
    assert |multiset(Filter(a, scope))| == |multiset(Filter(b, scope))|;
  }

  /** Survival as far as the statements with a plain number decide it. */
  ghost predicate PlainSurvives(log: seq<Row>, session: Scope) {
    forall table, result {:trigger ResultSet(result, table)} ::
      multiset(table) == multiset(Stored(log)) && ResultSet(result, table)
      ==> Filter(result, session) == Filter(log, session)
  }

  lemma {:induction false} PlainSurvivesExactly(log: seq<Row>, session: Scope)
    requires session.OfSession?
    ensures PlainSurvives(log, session) <==> SoleSpelling(log, session) && Ordered(Filter(log, session))
  {
    var stored := Stored(log);
    if PlainSurvives(log, session) {
      SortGivesResultSet(stored);
      assert ResultSet(Sort(stored), stored);
      SameCount(Sort(stored), stored, session);
      SameCountSpelled(log, session);
    }
    if SoleSpelling(log, session) {
      SpelledSame(log, session);
      assert ComesBack(stored, session) == PlainSurvives(log, session);
      ComesBackExactly(stored, session);
    }
  }

  // ----- statements of any form -----

  /** What executing the inserts of these rows stores, whatever the server makes of the ids. */
  function StoredUnder(eval: Evaluation, log: seq<Row>): seq<Row> {
    if log == [] then [] else RowsOf(eval, log[0]) + StoredUnder(eval, log[1..])
  }

  /** The table after those inserts ran in some order. */
  ghost predicate TableOf(table: seq<Row>, eval: Evaluation, log: seq<Row>) {
    Numeric(eval) && multiset(table) == multiset(StoredUnder(eval, log))
  }

  predicate OnlyNumbers(log: seq<Row>) {
    forall r | r in log :: SignedDecimal(r.sessionId)
  }

  lemma {:induction false} NumbersAlone(eval: Evaluation, log: seq<Row>)
    requires OnlyNumbers(log)
    ensures StoredUnder(eval, log) == Stored(log)
  {
    if log != [] {
      assert log[0] in log;
      NumbersAlone(eval, log[1..]);
    }
  }

  /** The server refuses every id that is not a number. */
  function NoneStored(): (eval: Evaluation)
    ensures Numeric(eval)
  {
    (r: Row) => []
  }

  lemma {:induction false} NothingMore(log: seq<Row>)
    ensures StoredUnder(NoneStored(), log) == Stored(log)
  {
    if log != [] {
      NothingMore(log[1..]);
    }
  }

  /** Every id that is not a number evaluates to this session's. */
  function Joins(session: Scope): (eval: Evaluation)
    requires session.OfSession?
    ensures Canonical(session.sid) ==> Numeric(eval)
  {
    (r: Row) => [Row(session.u, "", session.sid, true, "", 0)]
  }

  lemma {:induction false} JoinsCount(log: seq<Row>, session: Scope)
    requires session.OfSession?
    ensures var more, plain := Filter(StoredUnder(Joins(session), log), session), Filter(Stored(log), session);
            |more| >= |plain| && (!OnlyNumbers(log) ==> |more| > |plain|)
  {
    if log != [] {
      var r, eval := log[0], Joins(session);
      JoinsCount(log[1..], session);
      FilterConcat(RowsOf(eval, r), StoredUnder(eval, log[1..]), session);
      assert forall x | x in log :: x == r || x in log[1..];
      if SignedDecimal(r.sessionId) {
        if StoredRow(r).Some? {
          FilterConcat([StoredRow(r).value], Stored(log[1..]), session);
        }
      } else {
        FilterOne(RowsOf(eval, r)[0], session);
      }
    }
  }

  /** The numeric column holds canonical ids only. */
  lemma {:induction false} StoredNumeric(eval: Evaluation, log: seq<Row>)
    requires Numeric(eval)
    ensures forall r | r in StoredUnder(eval, log) :: Canonical(r.sessionId)
  {
    if log != [] {
      StoredNumeric(eval, log[1..]);
      ColumnTextCanonical(log[0].sessionId);
    }
  }

  /** Whatever the server makes of ids that are no numbers, whatever order the workers run the
      inserts in, and however the database breaks ties, the session comes back as published. */
  ghost predicate Survives(log: seq<Row>, session: Scope) {
    forall eval: Evaluation, table, result | TableOf(table, eval, log) && ResultSet(result, table) ::
      Filter(result, session) == Filter(log, session)
  }

  /** No statement of unknown effect is about: none matters to a session the column cannot hold. */
  predicate Understood(log: seq<Row>, session: Scope)
    requires session.OfSession?
  {
    Canonical(session.sid) ==> OnlyNumbers(log)
  }

  /** Persistence round trip, exactly: a session survives every evaluation, execution order and
      tie-breaking iff every published id, of any user, is a number, the user's rows stored under
      its id are those published under it, and its timestamps increased as it was published. */
  lemma {:induction false} SurvivesExactly(log: seq<Row>, session: Scope)
    requires session.OfSession?
    ensures Survives(log, session)
            <==> Understood(log, session) && SoleSpelling(log, session) && Ordered(Filter(log, session))
  {
    PlainSurvivesExactly(log, session);
    if Survives(log, session) {
      SurvivesPlain(log, session);
      SurvivorsUnderstood(log, session);
    }
    if Understood(log, session) && PlainSurvives(log, session) {
      forall eval: Evaluation, table, result | TableOf(table, eval, log) && ResultSet(result, table)
        ensures Filter(result, session) == Filter(log, session)
      {
        UnderstoodSurvives(log, session, eval, table, result);
      }
    }
  }

  lemma {:induction false} SurvivesPlain(log: seq<Row>, session: Scope)
    requires Survives(log, session)
    ensures PlainSurvives(log, session)
  {
    NothingMore(log);
    forall table, result {:trigger ResultSet(result, table)}
      | multiset(table) == multiset(Stored(log)) && ResultSet(result, table)
      ensures Filter(result, session) == Filter(log, session)
    {
      assert TableOf(table, NoneStored(), log);
    }
  }

  lemma {:induction false} SurvivorsUnderstood(log: seq<Row>, session: Scope)
    requires session.OfSession? && Survives(log, session) && SoleSpelling(log, session)
    ensures Understood(log, session)
  {
    if Canonical(session.sid) {
      var table := StoredUnder(Joins(session), log);
      SortGivesResultSet(table);
      assert TableOf(table, Joins(session), log);
      SameCount(Sort(table), table, session);
      SpelledSame(log, session);
      JoinsCount(log, session);
    }
  }

  lemma {:induction false} UnderstoodSurvives(log: seq<Row>, session: Scope, eval: Evaluation,
                                              table: seq<Row>, result: seq<Row>)
    requires session.OfSession? && Understood(log, session) && SoleSpelling(log, session)
    requires PlainSurvives(log, session) && TableOf(table, eval, log) && ResultSet(result, table)
    ensures Filter(result, session) == Filter(log, session)
  {
    if OnlyNumbers(log) {
      NumbersAlone(eval, log);
    } else {
      ForeignToColumn(log, session, eval, table, result);
    }
  }

  /** A session the numeric column cannot hold has no rows, before or after. */
  lemma {:induction false} ForeignToColumn(log: seq<Row>, session: Scope, eval: Evaluation,
                                           table: seq<Row>, result: seq<Row>)
    requires session.OfSession? && SoleSpelling(log, session) && !Canonical(session.sid)
    requires TableOf(table, eval, log) && multiset(result) == multiset(table)
    ensures Filter(result, session) == [] == Filter(log, session)
  {
    StoredNumeric(eval, log);
    forall r | r in result ensures !session.Has(r) {
      assert r in multiset(result);
      assert r in multiset(StoredUnder(eval, log));
    }
    FilterNone(result, session);
    forall r | r in log ensures !session.Has(r) {
      ColumnTextCanonical(r.sessionId);
    }
    FilterNone(log, session);
  }

  /** A sum evaluated by the server: the row published under `1+1` is stored in session 2. */
  function Sums(): (eval: Evaluation) {
    (r: Row) => if r.sessionId == "1+1" then [r.(sessionId := "2")] else []
  }

  lemma {:induction false} PairStored(eval: Evaluation, first: Row, second: Row)
    ensures StoredUnder(eval, [first, second]) == RowsOf(eval, first) + RowsOf(eval, second)
  {
    assert [first, second][1..] == [second];
    SingleStored(eval, second);
  }

  lemma {:induction false} SingleStored(eval: Evaluation, r: Row)
    ensures StoredUnder(eval, [r]) == RowsOf(eval, r)
  {
    assert [r][1..] == [] && RowsOf(eval, r) + [] == RowsOf(eval, r);
  }

  lemma {:induction false} PairFiltered(first: Row, second: Row, session: Scope)
    requires session.Has(first) && !session.Has(second)
    ensures Filter([first, second], session) == [first]
  {
    assert [first, second][1..] == [second];
    FilterOne(second, session);
  }

  lemma {:induction false} SumJoinsSession(first: Row, second: Row)
    requires first.sessionId == "2" && second.sessionId == "1+1" && first.userId == second.userId
    ensures var log, session := [first, second], OfSession(first.userId, "2");
            && SoleSpelling(log, session) && Ordered(Filter(log, session)) && !Survives(log, session)
            && StoredUnder(Sums(), log) == [first, second.(sessionId := "2")]
  {
    var log, session := [first, second], OfSession(first.userId, "2");
    TwoIsCanonical();
    SumIsNoNumber();
    SumsStored(first, second);
    PairFiltered(first, second, session);
    assert second in log && !OnlyNumbers(log);
    SurvivesExactly(log, session);
  }

  lemma {:induction false} SumsStored(first: Row, second: Row)
    requires Canonical(first.sessionId) && second.sessionId == "1+1"
    ensures StoredUnder(Sums(), [first, second]) == [first, second.(sessionId := "2")]
  {
    SumIsNoNumber();
    PairStored(Sums(), first, second);
    assert RowsOf(Sums(), first) == [first];
    assert RowsOf(Sums(), second) == [second.(sessionId := "2")];
  }

  lemma {:induction false} TwoIsCanonical()
    ensures Canonical("2")
  {
    assert Digits("2");
    DigitsWhole("2");
    assert "2"[..0] == "" && DecimalValue("2") == 2 && Decimal(2) == "2";
  }

  lemma {:induction false} SumIsNoNumber()
    ensures !SignedDecimal("1+1")
  {
    assert "1+1"[0..] == "1+1" && "1+1"[1..] == "+1" && !IsDigit("+1"[0]);
    assert DigitsPrefix("+1") == 0 && DigitsPrefix("1+1") == 1;
  }

  /** Two different rows of a session with one timestamp may come back exchanged. */
  lemma TieIsLost(log: seq<Row>, session: Scope, i: nat, j: nat)
    requires session.OfSession? && i < j < |Filter(log, session)|
    requires Filter(log, session)[i].ts == Filter(log, session)[j].ts
    requires Filter(log, session)[i] != Filter(log, session)[j]
    ensures !Survives(log, session)
  {
    SurvivesExactly(log, session);
  }

  // ----- what a statement does -----

  datatype Statement = InsertRow(row: Row) | DeleteRows(u: nat, sid: string)

  /** The statement stores a row in this session. */
  predicate Inserts(s: Statement, session: Scope)
    requires session.OfSession?
  {
    s.InsertRow? && s.row.userId == session.u && ColumnText(s.row.sessionId) == Some(session.sid)
  }

  /** The statement removes this session: the condition compares numbers. */
  predicate Deletes(s: Statement, session: Scope)
    requires session.OfSession?
  {
    s.DeleteRows? && s.u == session.u && ColumnText(s.sid) == Some(session.sid)
  }

  /** The statement stores a row in this session, or may do so. */
  predicate MayInsert(s: Statement, session: Scope)
    requires session.OfSession?
  {
    Inserts(s, session) || (s.InsertRow? && !SignedDecimal(s.row.sessionId))
  }

  function RunStatement(eval: Evaluation, table: seq<Row>, s: Statement): seq<Row> {
    match s
    case InsertRow(r) => table + RowsOf(eval, r)
    case DeleteRows(u, sid) =>
      if ColumnText(sid).Some? then Others(table, OfSession(u, ColumnText(sid).value)) else table
  }

  lemma {:induction false} OthersHasNone(rows: seq<Row>, scope: Scope)
    ensures Filter(Others(rows, scope), scope) == []
  {
    if rows != [] {
      OthersHasNone(rows[1..], scope);
      if !scope.Has(rows[0]) {
        assert ([rows[0]] + Others(rows[1..], scope))[1..] == Others(rows[1..], scope);
      }
    }
  }

  lemma {:induction false} OthersKeep(rows: seq<Row>, gone: Scope, scope: Scope)
    requires gone.OfSession? && scope.OfSession? && gone != scope
    ensures Filter(Others(rows, gone), scope) == Filter(rows, scope)
  {
    if rows != [] {
      OthersKeep(rows[1..], gone, scope);
      if !gone.Has(rows[0]) {
        assert ([rows[0]] + Others(rows[1..], gone))[1..] == Others(rows[1..], gone);
      }
    }
  }

  /** What a statement does to any session: an insertion with a number appends to the one it denotes,
      any other appends what the server's evaluation stores there, a deletion empties the session its
      number denotes, and every other session keeps its rows. */
  lemma StatementEffect(eval: Evaluation, table: seq<Row>, s: Statement, session: Scope)
    requires session.OfSession?
    ensures Filter(RunStatement(eval, table, s), session)
            == if Inserts(s, session) then Filter(table, session) + [StoredRow(s.row).value]
               else if MayInsert(s, session) then Filter(table, session) + Filter(eval(s.row), session)
               else if Deletes(s, session) then []
               else Filter(table, session)
  {
    match s
    case InsertRow(r) =>
      FilterConcat(table, RowsOf(eval, r), session);
      if StoredRow(r).Some? {
        FilterOne(StoredRow(r).value, session);
      }
      assert Filter(table, session) + [] == Filter(table, session);
    case DeleteRows(u, sid) =>
      if ColumnText(sid).Some? {
        var gone := OfSession(u, ColumnText(sid).value);
        if gone == session {
          OthersHasNone(table, session);
        } else {
          OthersKeep(table, gone, session);
        }
      }
  }
}
