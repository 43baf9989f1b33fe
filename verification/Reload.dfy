/** Rebuilding a user's sessions from the database: what loading gives, when it is what memory
    held, and when loading everything and loading one user agree. */
module Reload {
  import opened Text
  import opened Sql
  import opened Conversation
  import opened Persistence

  /** One user's helpers (their message lists) and the list of session ids shown to that user. */
  datatype UserView = UserView(chats: map<string, seq<Message>>, order: seq<string>)

  const NOTHING := UserView(map[], [])

  function MessageOf(r: Row): Message {
    Message(r.content, r.ts)
  }

  function MessagesOf(rows: seq<Row>): seq<Message> {
    seq(|rows|, i requires 0 <= i < |rows| => MessageOf(rows[i]))
  }

  /** One row of a result set, restored into a session created on first sight. */
  function LoadRow(v: UserView, r: Row): UserView {
    if r.sessionId in v.chats then
      v.(chats := v.chats[r.sessionId := v.chats[r.sessionId] + [MessageOf(r)]])
    else
      UserView(v.chats[r.sessionId := [MessageOf(r)]], v.order + [r.sessionId])
  }

  function Load(v: UserView, rows: seq<Row>): UserView
    decreases |rows|
  {
    if rows == [] then v else Load(LoadRow(v, rows[0]), rows[1..])
  }

  lemma {:induction false} LoadConcat(v: UserView, a: seq<Row>, b: seq<Row>)
    ensures Load(v, a + b) == Load(Load(v, a), b)
    decreases |a|
  {
    if a == [] {
      assert a + b == b;
    } else {
      assert (a + b)[1..] == a[1..] + b;
      LoadConcat(LoadRow(v, a[0]), a[1..], b);
    }
  }

  // ----- what loading gives -----

  function ChatOf(v: UserView, sid: string): seq<Message> {
    if sid in v.chats then v.chats[sid] else []
  }

  /** Loading appends to each session exactly that session's rows, in order. */
  lemma {:induction false} LoadChats(v: UserView, rows: seq<Row>, u: nat, sid: string)
    requires forall r | r in rows :: r.userId == u
    ensures ChatOf(Load(v, rows), sid) == ChatOf(v, sid) + MessagesOf(Filter(rows, OfSession(u, sid)))
    ensures sid in Load(v, rows).chats <==> sid in v.chats || Filter(rows, OfSession(u, sid)) != []
    decreases |rows|
  {
    if rows == [] {
      assert ChatOf(v, sid) + [] == ChatOf(v, sid);
    } else {
      var r, rest := rows[0], Filter(rows[1..], OfSession(u, sid));
      LoadChats(LoadRow(v, r), rows[1..], u, sid);
      assert r in rows;
      if r.sessionId == sid {
        assert MessagesOf([r] + rest) == [MessageOf(r)] + MessagesOf(rest);
        Regroup(ChatOf(v, sid), [MessageOf(r)], MessagesOf(rest));
      }
    }
  }

  /** Loading only ever appends to the list of ids. */
  lemma {:induction false} LoadOrder(v: UserView, rows: seq<Row>)
    ensures v.order <= Load(v, rows).order
    decreases |rows|
  {
    if rows != [] {
      LoadOrder(LoadRow(v, rows[0]), rows[1..]);
    }
  }

  /** The eager loop, seen by user `u`: rows of other users go elsewhere. */
  function LoadFor(v: UserView, rows: seq<Row>, u: nat): UserView
    decreases |rows|
  {
    if rows == [] then v
    else LoadFor(if rows[0].userId == u then LoadRow(v, rows[0]) else v, rows[1..], u)
  }

  /** Loading everything shows a user exactly what loading that user's rows does. */
  lemma {:induction false} OtherUsersInvisible(v: UserView, rows: seq<Row>, u: nat)
    ensures LoadFor(v, rows, u) == Load(v, Filter(rows, OfUser(u)))
    decreases |rows|
  {
    if rows != [] {
      var rest := Filter(rows[1..], OfUser(u));
      if rows[0].userId == u {
        assert ([rows[0]] + rest)[1..] == rest;
        OtherUsersInvisible(LoadRow(v, rows[0]), rows[1..], u);
      } else {
        OtherUsersInvisible(v, rows[1..], u);
      }
    }
  }

  // ----- one order of messages -----

  predicate InTime(ms: seq<Message>) {
    forall i, j | 0 <= i < j < |ms| :: ms[i].ts <= ms[j].ts
  }

  predicate TiesEqual(ms: seq<Message>) {
    forall i, j | 0 <= i < |ms| && 0 <= j < |ms| && ms[i].ts == ms[j].ts :: ms[i] == ms[j]
  }

  lemma MessagesOfConcat(a: seq<Row>, b: seq<Row>)
    ensures MessagesOf(a + b) == MessagesOf(a) + MessagesOf(b)
  {
  }

  function Without(rows: seq<Row>, i: nat): seq<Row>
    requires i < |rows|
  {
    rows[..i] + rows[i + 1..]
  }

  lemma WithoutRow(rows: seq<Row>, i: nat)
    requires i < |rows|
    ensures multiset(rows) == multiset(Without(rows, i)) + multiset{rows[i]}
  {
    assert rows == rows[..i] + [rows[i]] + rows[i + 1..];
  }

  lemma WithoutMessage(rows: seq<Row>, i: nat)
    requires i < |rows|
    ensures multiset(MessagesOf(rows)) == multiset(MessagesOf(Without(rows, i))) + multiset{MessageOf(rows[i])}
  {
    var all, rest := MessagesOf(rows), MessagesOf(Without(rows, i));
    assert rest == all[..i] + all[i + 1..];
    assert all == all[..i] + [all[i]] + all[i + 1..];
  }

  lemma DropShared(a: seq<Row>, b: seq<Row>) returns (c: seq<Row>, d: seq<Row>, m: Message)
    requires a != [] && multiset(a) == multiset(b)
    ensures |c| < |a| && multiset(c) == multiset(d)
    ensures multiset(MessagesOf(a)) == multiset(MessagesOf(c)) + multiset{m}
    ensures multiset(MessagesOf(b)) == multiset(MessagesOf(d)) + multiset{m}
  {
    assert a[0] in multiset(a) && a[0] in multiset(b);
    var i :| 0 <= i < |b| && b[i] == a[0];
    c, d, m := Without(a, 0), Without(b, i), MessageOf(a[0]);
    WithoutRow(a, 0);
    WithoutRow(b, i);
    assert multiset(c) == multiset(a) - multiset{a[0]} == multiset(d);
    WithoutMessage(a, 0);
    WithoutMessage(b, i);
  }

  /** Permuted rows give permuted messages. */
  lemma {:induction false} MessagesPermuted(a: seq<Row>, b: seq<Row>)
    requires multiset(a) == multiset(b)
    ensures multiset(MessagesOf(a)) == multiset(MessagesOf(b))
    decreases |a|
  {
    assert |a| == |multiset(a)| == |b|;
    if a != [] {
      var c, d, m := DropShared(a, b);
      MessagesPermuted(c, d);
    }
  }

  lemma TailInTime(ms: seq<Message>)
    requires ms != [] && InTime(ms)
    ensures InTime(ms[1..]) && (TiesEqual(ms) ==> TiesEqual(ms[1..]))
  {
    var rest := ms[1..];
    assert forall i | 0 <= i < |rest| :: rest[i] == ms[i + 1];
  }

  lemma SameFirst(a: seq<Message>, b: seq<Message>)
    requires a != [] && multiset(a) == multiset(b) && InTime(a) && InTime(b) && TiesEqual(a)
    ensures b != [] && a[0] == b[0]
  {
    assert |b| == |multiset(b)| == |multiset(a)| == |a|;
    assert a[0] in multiset(b) && b[0] in multiset(a);
    var j :| 0 <= j < |b| && b[j] == a[0];
    var i :| 0 <= i < |a| && a[i] == b[0];
  }

  /** Messages in time order whose ties are equal have no other such order. */
  lemma {:induction false} OneOrder(a: seq<Message>, b: seq<Message>)
    requires multiset(a) == multiset(b) && InTime(a) && InTime(b) && TiesEqual(a)
    ensures a == b
  {
    assert |b| == |multiset(b)| == |multiset(a)| == |a|;
    if a != [] {
      SameFirst(a, b);
      TailInTime(a);
      TailInTime(b);
      TailsPermuted(a, b);
      OneOrder(a[1..], b[1..]);
    }
  }

  lemma SortedInTime(rows: seq<Row>, u: nat)
    requires Sorted(rows) && forall r | r in rows :: r.userId == u
    ensures InTime(MessagesOf(rows))
  {
  }

  // ----- reading one user's rows -----

  lemma {:induction false} FilterTwice(rows: seq<Row>, u: nat, sid: string)
    ensures Filter(Filter(rows, OfUser(u)), OfSession(u, sid)) == Filter(rows, OfSession(u, sid))
  {
    if rows != [] {
      FilterTwice(rows[1..], u, sid);
      if rows[0].userId == u {
        assert ([rows[0]] + Filter(rows[1..], OfUser(u)))[1..] == Filter(rows[1..], OfUser(u));
      }
    }
  }

  /** Each session of a load is its rows in time order. */
  lemma {:induction false} OwnChat(own: seq<Row>, mine: seq<Row>, u: nat, sid: string)
    requires ResultSet(own, mine) && forall r | r in mine :: r.userId == u
    ensures var rows := Filter(own, OfSession(u, sid));
            && ChatOf(Load(NOTHING, own), sid) == MessagesOf(rows)
            && (sid in Load(NOTHING, own).chats <==> rows != [])
            && Sorted(rows) && InTime(MessagesOf(rows))
            && multiset(rows) == multiset(Filter(mine, OfSession(u, sid)))
  {
    var k := OfSession(u, sid);
    forall r | r in own ensures r.userId == u {
      assert r in multiset(own);
      assert r in multiset(mine);
    }
    LoadChats(NOTHING, own, u, sid);
    assert [] + MessagesOf(Filter(own, k)) == MessagesOf(Filter(own, k));
    FilterSorted(own, k);
    FilterSameRows(own, mine, k);
    FilterMembers(own, k);
    SortedInTime(Filter(own, k), u);
  }

  /** Any sorted arrangement of a session's rows is what some load of its user meets. */
  lemma Arranged(stored: seq<Row>, u: nat, sid: string, rows: seq<Row>) returns (table: seq<Row>, own: seq<Row>)
    requires multiset(rows) == multiset(Filter(stored, OfSession(u, sid))) && Sorted(rows)
    ensures multiset(table) == multiset(stored) && ResultSet(own, Filter(table, OfUser(u)))
    ensures Filter(own, OfSession(u, sid)) == rows
  {
    table := AnyArrangement(stored, OfSession(u, sid), rows);
    own := Filter(Sort(table), OfUser(u));
    FilterSorted(Sort(table), OfUser(u));
    FilterSameRows(Sort(table), table, OfUser(u));
    FilterTwice(Sort(table), u, sid);
  }

  // ----- the whole round trip -----

  /** Messages kept in memory, per session, and everything published, in the order it happened. */
  datatype World = World(memory: map<Scope, seq<Message>>, log: seq<Row>)

  /** `addMessage` on the row's session. */
  function Post(w: World, r: Row): World {
    var k := OfSession(r.userId, r.sessionId);
    World(w.memory[k := (if k in w.memory then w.memory[k] else []) + [MessageOf(r)]], w.log + [r])
  }

  function PostAll(w: World, rows: seq<Row>): World
    decreases |rows|
  {
    if rows == [] then w else PostAll(Post(w, rows[0]), rows[1..])
  }

  ghost predicate MemoryIsLog(w: World) {
    forall k: Scope | k.OfSession? ::
      (if k in w.memory then w.memory[k] else []) == MessagesOf(Filter(w.log, k))
  }

  lemma PostKeepsMemory(w: World, r: Row)
    requires MemoryIsLog(w)
    ensures MemoryIsLog(Post(w, r))
  {
    var next := Post(w, r);
    forall k: Scope | k.OfSession?
      ensures (if k in next.memory then next.memory[k] else []) == MessagesOf(Filter(next.log, k))
    {
      FilterConcat(w.log, [r], k);
      FilterOne(r, k);
      MessagesOfConcat(Filter(w.log, k), Filter([r], k));
      assert Filter(w.log, k) + [] == Filter(w.log, k);
    }
  }

  lemma {:induction false} PostAllKeepsMemory(w: World, rows: seq<Row>)
    requires MemoryIsLog(w)
    ensures MemoryIsLog(PostAll(w, rows)) && PostAll(w, rows).log == w.log + rows
    decreases |rows|
  {
    if rows == [] {
      assert w.log + rows == w.log;
    } else {
      PostKeepsMemory(w, rows[0]);
      PostAllKeepsMemory(Post(w, rows[0]), rows[1..]);
      assert rows == [rows[0]] + rows[1..];
      Regroup(w.log, [rows[0]], rows[1..]);
    }
  }

  const START := World(map[], [])

  /** What memory holds of a session after these messages were posted. */
  function Remembered(posted: seq<Row>, session: Scope): seq<Message> {
    var w := PostAll(START, posted);
    if session in w.memory then w.memory[session] else []
  }

  lemma RememberedRows(posted: seq<Row>, session: Scope)
    requires session.OfSession?
    ensures Remembered(posted, session) == MessagesOf(Filter(posted, session))
  {
    assert [] + posted == posted && MemoryIsLog(START);
    PostAllKeepsMemory(START, posted);
  }

  /** A reload rebuilds the session as memory holds it, as far as the statements with a plain number
      decide it. */
  ghost predicate PlainReloads(posted: seq<Row>, u: nat, sid: string) {
    forall table, own {:trigger ResultSet(own, Filter(table, OfUser(u)))} ::
      multiset(table) == multiset(Stored(posted)) && ResultSet(own, Filter(table, OfUser(u)))
      ==> ChatOf(Load(NOTHING, own), sid) == Remembered(posted, OfSession(u, sid))
  }

  lemma {:induction false} PlainRoundTrip(posted: seq<Row>, u: nat, sid: string)
    ensures var k := OfSession(u, sid);
            var memory := Remembered(posted, k);
            PlainReloads(posted, u, sid) <==> SoleSpelling(posted, k) && InTime(memory) && TiesEqual(memory)
  {
    var k := OfSession(u, sid);
    RememberedRows(posted, k);
    if SoleSpelling(posted, k) && InTime(Remembered(posted, k)) && TiesEqual(Remembered(posted, k)) {
      SpelledSame(posted, k);
      forall table, own {:trigger ResultSet(own, Filter(table, OfUser(u)))}
        | multiset(table) == multiset(Stored(posted)) && ResultSet(own, Filter(table, OfUser(u)))
        ensures ChatOf(Load(NOTHING, own), sid) == Remembered(posted, k)
      {
        ReloadedRows(Stored(posted), table, own, u, sid);
        MessagesPermuted(Filter(posted, k), Filter(own, k));
        OneOrder(Remembered(posted, k), MessagesOf(Filter(own, k)));
      }
    }
    if PlainReloads(posted, u, sid) {
      ReloadsSpelled(posted, u, sid);
      ReloadsTies(posted, u, sid);
    }
  }

  lemma ReloadedRows(stored: seq<Row>, table: seq<Row>, own: seq<Row>, u: nat, sid: string)
    requires multiset(table) == multiset(stored) && ResultSet(own, Filter(table, OfUser(u)))
    ensures var rows := Filter(own, OfSession(u, sid));
            && ChatOf(Load(NOTHING, own), sid) == MessagesOf(rows)
            && Sorted(rows) && InTime(MessagesOf(rows))
            && multiset(rows) == multiset(Filter(stored, OfSession(u, sid)))
  {
    var k, mine := OfSession(u, sid), Filter(table, OfUser(u));
    FilterMembers(table, OfUser(u));
    OwnChat(own, mine, u, sid);
    FilterTwice(table, u, sid);
    FilterSameRows(table, stored, k);
  }

  lemma ReloadsSpelled(posted: seq<Row>, u: nat, sid: string)
    requires PlainReloads(posted, u, sid)
    ensures SoleSpelling(posted, OfSession(u, sid)) && InTime(Remembered(posted, OfSession(u, sid)))
  {
    var k, stored := OfSession(u, sid), Stored(posted);
    var own := Sort(Filter(stored, OfUser(u)));
    SortGivesResultSet(Filter(stored, OfUser(u)));
    ReloadedRows(stored, stored, own, u, sid);
    RememberedRows(posted, k);
    assert |multiset(Filter(own, k))| == |multiset(Filter(stored, k))|;
    SameCountSpelled(posted, k);
  }

  lemma ReloadsTies(posted: seq<Row>, u: nat, sid: string)
    requires PlainReloads(posted, u, sid)
    requires SoleSpelling(posted, OfSession(u, sid)) && InTime(Remembered(posted, OfSession(u, sid)))
    ensures TiesEqual(Remembered(posted, OfSession(u, sid)))
  {
    var k := OfSession(u, sid);
    var rows, memory := Filter(posted, k), Remembered(posted, k);
    RememberedRows(posted, k);
    FilterMembers(posted, k);
    InTimeSorted(rows, u);
    forall i, j | 0 <= i < j < |memory| && memory[i].ts == memory[j].ts ensures memory[i] == memory[j] {
      TieReloaded(posted, u, sid, i, j);
    }
  }

  lemma InTimeSorted(rows: seq<Row>, u: nat)
    requires InTime(MessagesOf(rows)) && forall r | r in rows :: r.userId == u
    ensures Sorted(rows)
  {
    var ms := MessagesOf(rows);
    assert forall i | 0 <= i < |rows| :: rows[i] in rows && ms[i].ts == rows[i].ts;
  }

  lemma TieReloaded(posted: seq<Row>, u: nat, sid: string, i: nat, j: nat)
    requires var k := OfSession(u, sid);
             var rows := Filter(posted, k);
             && PlainReloads(posted, u, sid) && SoleSpelling(posted, k) && Sorted(rows)
             && i < j < |rows| && rows[i].ts == rows[j].ts
    ensures MessageOf(Filter(posted, OfSession(u, sid))[i]) == MessageOf(Filter(posted, OfSession(u, sid))[j])
  {
    var k := OfSession(u, sid);
    var rows := Filter(posted, k);
    var swapped := Swap(rows, i, j);
    SpelledSame(posted, k);
    SameUser(posted, k, i, j);
    SwapTied(rows, i, j);
    var table, own := Arranged(Stored(posted), u, sid, swapped);
    ReloadedRows(Stored(posted), table, own, u, sid);
    RememberedRows(posted, k);
    assert MessagesOf(swapped)[i] == MessageOf(rows[j]);
  }

  /** Whatever the server makes of ids that are no numbers, in whatever order the workers ran the
      inserts, and however the database breaks ties, a reload of the user gives the session these
      messages. */
  ghost predicate ReloadsTo(posted: seq<Row>, u: nat, sid: string, expected: seq<Message>) {
    forall eval: Evaluation, table, own | TableOf(table, eval, posted) && ResultSet(own, Filter(table, OfUser(u))) ::
      ChatOf(Load(NOTHING, own), sid) == expected
  }

  /** Persistence round trip, exactly: after any messages in any sessions every reload rebuilds the
      session as memory holds it iff every published id is a number, its rows are stored under its
      own text and no others are, its messages were posted in time order, and those sharing a
      timestamp are equal. */
  lemma {:induction false} PersistenceRoundTrip(posted: seq<Row>, u: nat, sid: string)
    ensures var k := OfSession(u, sid);
            var memory := Remembered(posted, k);
            ReloadsTo(posted, u, sid, memory)
            <==> Understood(posted, k) && SoleSpelling(posted, k) && InTime(memory) && TiesEqual(memory)
  {
    var k := OfSession(u, sid);
    PlainRoundTrip(posted, u, sid);
    if ReloadsTo(posted, u, sid, Remembered(posted, k)) {
      ReloadsPlain(posted, u, sid);
      ReloadsUnderstood(posted, u, sid);
    }
    if Understood(posted, k) && PlainReloads(posted, u, sid) {
      forall eval: Evaluation, table, own | TableOf(table, eval, posted) && ResultSet(own, Filter(table, OfUser(u)))
        ensures ChatOf(Load(NOTHING, own), sid) == Remembered(posted, k)
      {
        UnderstoodReloads(posted, u, sid, eval, table, own);
      }
    }
  }

  lemma {:induction false} ReloadsPlain(posted: seq<Row>, u: nat, sid: string)
    requires ReloadsTo(posted, u, sid, Remembered(posted, OfSession(u, sid)))
    ensures PlainReloads(posted, u, sid)
  {
    NothingMore(posted);
    forall table, own {:trigger ResultSet(own, Filter(table, OfUser(u)))}
      | multiset(table) == multiset(Stored(posted)) && ResultSet(own, Filter(table, OfUser(u)))
      ensures ChatOf(Load(NOTHING, own), sid) == Remembered(posted, OfSession(u, sid))
    {
      assert TableOf(table, NoneStored(), posted);
    }
  }

  /** If some id could evaluate to this session's, a reload might hold more than was posted. */
  lemma {:induction false} ReloadsUnderstood(posted: seq<Row>, u: nat, sid: string)
    requires ReloadsTo(posted, u, sid, Remembered(posted, OfSession(u, sid)))
    requires SoleSpelling(posted, OfSession(u, sid))
    ensures Understood(posted, OfSession(u, sid))
  {
    var k := OfSession(u, sid);
    if Canonical(sid) {
      var table := StoredUnder(Joins(k), posted);
      var own := Sort(Filter(table, OfUser(u)));
      SortGivesResultSet(Filter(table, OfUser(u)));
      assert TableOf(table, Joins(k), posted);
      ReloadedRows(table, table, own, u, sid);
      RememberedRows(posted, k);
      SpelledSame(posted, k);
      JoinsCount(posted, k);
      assert |multiset(Filter(own, k))| == |multiset(Filter(table, k))|;
    }
  }

  lemma {:induction false} UnderstoodReloads(posted: seq<Row>, u: nat, sid: string,
                                             eval: Evaluation, table: seq<Row>, own: seq<Row>)
    requires Understood(posted, OfSession(u, sid)) && SoleSpelling(posted, OfSession(u, sid))
    requires PlainReloads(posted, u, sid)
    requires TableOf(table, eval, posted) && ResultSet(own, Filter(table, OfUser(u)))
    ensures ChatOf(Load(NOTHING, own), sid) == Remembered(posted, OfSession(u, sid))
  {
    var k := OfSession(u, sid);
    if OnlyNumbers(posted) {
      NumbersAlone(eval, posted);
    } else {
      ReloadedRows(table, table, own, u, sid);
      ForeignToColumn(posted, k, eval, table, table);
      assert |multiset(Filter(own, k))| == |multiset(Filter(table, k))| == 0;
      RememberedRows(posted, k);
    }
  }

  // ----- from turns to reload -----

  /** An entry without a row is never made up for. */
  lemma {:induction false} AheadStays(h: History, a: Author, turns: seq<Turn>)
    requires |h.messages| > |h.rows| && forall t | t in turns :: t.ChatTurn? ==> Possible(t.plan)
    ensures |Converse(h, a, turns).messages| > |Converse(h, a, turns).rows|
    decreases |turns|
  {
    if turns != [] {
      var more := TurnGrows(h, a, turns[0]);
      AheadStays(TakeTurn(h, a, turns[0]), a, turns[1..]);
    }
  }

  /** A turn publishes all it keeps exactly when it is tracked. */
  lemma {:induction false} TrackedTurn(h: History, a: Author, turn: Turn)
    requires MessagesOf(h.rows) == h.messages && (turn.ChatTurn? ==> Possible(turn.plan))
    ensures var r := TakeTurn(h, a, turn);
            if Tracked(turn) then MessagesOf(r.rows) == r.messages else |r.messages| > |r.rows|
  {
    var q := Message(turn.question, turn.asked);
    var row := RowOf(a, true, q);
    assert |h.messages| == |h.rows| && MessageOf(row) == q;
    if turn.ChatTurn? && Tracked(turn) && !Balanced(turn) {
      assert [q] + [] == [q];
      MessagesOfConcat(h.rows, [row]);
      assert MessagesOf([row]) == [q];
    } else if Balanced(turn) && !Silent(turn) {
      var answer := Message(if turn.ChatTurn? then StoredAnswer(turn.plan).value else turn.reply, turn.answered);
      var both := [row] + [RowOf(a, false, answer)];
      assert [q] + [] + [answer] == [q, answer];
      assert turn.ChatTurn? ==> Residue(turn.plan) == [];
      MessagesOfConcat(h.rows, both);
      assert MessagesOf(both) == [q, answer];
    }
  }

  lemma {:induction false} TrackedRun(h: History, a: Author, turns: seq<Turn>)
    requires MessagesOf(h.rows) == h.messages && forall t | t in turns :: t.ChatTurn? ==> Possible(t.plan)
    ensures var r := Converse(h, a, turns);
            if forall t | t in turns :: Tracked(t) then MessagesOf(r.rows) == r.messages
            else |r.messages| > |r.rows|
    decreases |turns|
  {
    if turns != [] {
      assert turns == [turns[0]] + turns[1..];
      TrackedTurn(h, a, turns[0]);
      if Tracked(turns[0]) {
        TrackedRun(TakeTurn(h, a, turns[0]), a, turns[1..]);
      } else {
        AheadStays(TakeTurn(h, a, turns[0]), a, turns[1..]);
      }
    }
  }

  /** From turns to reload, exactly: where the session's rows are the ones stored under its id, every
      reload gives the helper's own list of messages iff each turn published all it kept and the
      timestamps kept order. If the turns were balanced too, each entry comes back in the place of
      the role it was stored with. */
  lemma {:induction false} ConversationReloaded(a: Author, turns: seq<Turn>, posted: seq<Row>)
    requires forall t | t in turns :: t.ChatTurn? ==> Possible(t.plan)
    requires var k := OfSession(a.userId, a.sessionId);
             && Filter(posted, k) == Converse(History([], []), a, turns).rows
             && Understood(posted, k) && SoleSpelling(posted, k)
    ensures var h := Converse(History([], []), a, turns);
            ReloadsTo(posted, a.userId, a.sessionId, h.messages)
            <==> (forall t | t in turns :: Tracked(t)) && InTime(h.messages) && TiesEqual(h.messages)
    ensures (forall t | t in turns :: Balanced(t)) ==>
              var h := Converse(History([], []), a, turns);
              && |h.messages| == |h.rows| == 2 * Rounds(turns)
              && forall i | 0 <= i < |h.messages| :: h.rows[i].isUser <==> Role(i) == "user"
  {
    var h, k := Converse(History([], []), a, turns), OfSession(a.userId, a.sessionId);
    AlternationRun(History([], []), a, turns);
    RememberedRows(posted, k);
    TrackedRun(History([], []), a, turns);
    if forall t | t in turns :: Tracked(t) {
      PersistenceRoundTrip(posted, a.userId, a.sessionId);
    } else {
      ReloadTooShort(posted, a.userId, a.sessionId, h.messages);
    }
  }

  /** A reload gives as many messages as were published. */
  lemma {:induction false} ReloadTooShort(posted: seq<Row>, u: nat, sid: string, expected: seq<Message>)
    requires SoleSpelling(posted, OfSession(u, sid)) && |expected| > |Filter(posted, OfSession(u, sid))|
    ensures !ReloadsTo(posted, u, sid, expected)
  {
    var k, table := OfSession(u, sid), Stored(posted);
    var own := Sort(Filter(table, OfUser(u)));
    NothingMore(posted);
    assert TableOf(table, NoneStored(), posted);
    SortGivesResultSet(Filter(table, OfUser(u)));
    ReloadedRows(table, table, own, u, sid);
    SpelledSame(posted, k);
    assert |multiset(Filter(own, k))| == |multiset(Filter(table, k))|;
  }

  // ----- the order of a user's sessions -----

  predicate Seen(rows: seq<Row>, sid: string) {
    exists r | r in rows :: r.sessionId == sid
  }

  /** The sessions of a listing in order of first appearance, each with that row's timestamp. */
  function Starts(rows: seq<Row>): seq<(string, nat)> {
    if rows == [] then []
    else
      var n := |rows| - 1;
      if Seen(rows[..n], rows[n].sessionId) then Starts(rows[..n])
      else Starts(rows[..n]) + [(rows[n].sessionId, rows[n].ts)]
  }

  function Ids(starts: seq<(string, nat)>): seq<string> {
    seq(|starts|, i requires 0 <= i < |starts| => starts[i].0)
  }

  lemma SeenAppended(init: seq<Row>, last: Row)
    ensures forall sid :: Seen(init + [last], sid) <==> Seen(init, sid) || last.sessionId == sid
  {
    var rows := init + [last];
    forall sid ensures Seen(rows, sid) <==> Seen(init, sid) || last.sessionId == sid {
      if Seen(init, sid) {
        var r :| r in init && r.sessionId == sid;
        assert r in rows;
      }
      assert last in rows;
    }
  }

  lemma LoadAppended(init: seq<Row>, last: Row)
    ensures Load(NOTHING, init + [last]) == LoadRow(Load(NOTHING, init), last)
  {
    LoadConcat(NOTHING, init, [last]);
    assert [last][1..] == [];
  }

  /** Helpers and list hold exactly the sessions met. */
  lemma {:induction false} LoadedAreSeen(rows: seq<Row>)
    ensures forall sid :: sid in Load(NOTHING, rows).chats <==> Seen(rows, sid)
    ensures forall sid :: sid in Load(NOTHING, rows).order <==> Seen(rows, sid)
    decreases |rows|
  {
    if rows != [] {
      var n := |rows| - 1;
      assert rows == rows[..n] + [rows[n]];
      LoadedAreSeen(rows[..n]);
      LoadAppended(rows[..n], rows[n]);
      SeenAppended(rows[..n], rows[n]);
    }
  }

  /** The list of a load is the order of first appearance. */
  lemma {:induction false} OrderIsStarts(rows: seq<Row>)
    ensures Load(NOTHING, rows).order == Ids(Starts(rows))
    decreases |rows|
  {
    if rows != [] {
      var n := |rows| - 1;
      var init, last := rows[..n], rows[n];
      assert rows == init + [last];
      OrderIsStarts(init);
      LoadAppended(init, last);
      LoadedAreSeen(init);
      assert Ids(Starts(init) + [(last.sessionId, last.ts)]) == Ids(Starts(init)) + [last.sessionId];
    }
  }

  /** A session of these rows with its earliest timestamp. */
  predicate Start(rows: seq<Row>, p: (string, nat)) {
    && (exists r | r in rows :: r.sessionId == p.0 && r.ts == p.1)
    && (forall r | r in rows && r.sessionId == p.0 :: p.1 <= r.ts)
  }

  predicate OneUser(rows: seq<Row>, u: nat) {
    forall r | r in rows :: r.userId == u
  }

  lemma StartAppended(init: seq<Row>, last: Row, p: (string, nat))
    requires forall r | r in init :: r.ts <= last.ts
    ensures Start(init + [last], p)
            <==> Start(init, p) || (p == (last.sessionId, last.ts) && !Seen(init, last.sessionId))
  {
    var rows := init + [last];
    assert last in rows && forall r | r in init :: r in rows;
    if Start(init, p) {
      var r :| r in init && r.sessionId == p.0 && r.ts == p.1;
    }
    if Start(rows, p) {
      var r :| r in rows && r.sessionId == p.0 && r.ts == p.1;
      if Seen(init, p.0) {
        var q :| q in init && q.sessionId == p.0;
        assert p.1 <= q.ts <= last.ts;
      }
    }
  }

  /** No session twice, and in time order. */
  predicate Listed(s: seq<(string, nat)>) {
    forall i, j | 0 <= i < j < |s| :: s[i].1 <= s[j].1 && s[i].0 != s[j].0
  }

  lemma LastIsLatest(init: seq<Row>, last: Row, u: nat)
    requires Sorted(init + [last]) && OneUser(init + [last], u)
    ensures Sorted(init) && OneUser(init, u) && forall r | r in init :: r.ts <= last.ts
  {
    var rows := init + [last];
    assert forall i | 0 <= i < |init| :: init[i] == rows[i] && rows[i] in rows;
    assert rows[|init|] == last && last in rows;
    assert forall i | 0 <= i < |init| :: NotAfter(rows[i], rows[|init|]);
  }

  /** In a sorted listing the first appearances are the earliest rows of each session. */
  lemma {:induction false} StartsExactly(rows: seq<Row>, u: nat)
    requires Sorted(rows) && OneUser(rows, u)
    ensures forall p :: p in Starts(rows) <==> Start(rows, p)
    decreases |rows|
  {
    if rows != [] {
      var n := |rows| - 1;
      var init, last := rows[..n], rows[n];
      assert rows == init + [last];
      LastIsLatest(init, last, u);
      StartsExactly(init, u);
      forall p ensures p in Starts(rows) <==> Start(rows, p) {
        StartAppended(init, last, p);
      }
    }
  }

  lemma NewStart(init: seq<Row>, last: Row, u: nat)
    requires Sorted(init + [last]) && OneUser(init + [last], u)
    ensures forall p | p in Starts(init) :: p.1 <= last.ts && (p.0 == last.sessionId ==> Seen(init, last.sessionId))
  {
    LastIsLatest(init, last, u);
    StartsExactly(init, u);
    forall p | p in Starts(init) ensures p.1 <= last.ts && (p.0 == last.sessionId ==> Seen(init, last.sessionId)) {
      assert Start(init, p);
      var r :| r in init && r.sessionId == p.0 && r.ts == p.1;
    }
  }

  lemma {:induction false} StartsListed(rows: seq<Row>, u: nat)
    requires Sorted(rows) && OneUser(rows, u)
    ensures Listed(Starts(rows))
    decreases |rows|
  {
    if rows != [] {
      var n := |rows| - 1;
      var init, last := rows[..n], rows[n];
      assert rows == init + [last];
      LastIsLatest(init, last, u);
      StartsListed(init, u);
      NewStart(init, last, u);
      assert forall i | 0 <= i < |Starts(init)| :: Starts(init)[i] in Starts(init);
    }
  }

  /** No two sessions share their earliest timestamp. */
  ghost predicate StartsDiffer(rows: seq<Row>) {
    forall p, q | Start(rows, p) && Start(rows, q) && p.1 == q.1 :: p == q
  }

  predicate Increasing(s: seq<(string, nat)>) {
    forall i, j | 0 <= i < j < |s| :: s[i].1 < s[j].1
  }

  lemma FirstIn(a: seq<(string, nat)>)
    ensures a == [] || a[0] in a
  {
  }

  function Init(a: seq<(string, nat)>): seq<(string, nat)>
    requires a != []
  {
    a[..|a| - 1]
  }

  lemma LastIsGreatest(a: seq<(string, nat)>, b: seq<(string, nat)>)
    requires a != [] && b != [] && Increasing(a) && Increasing(b) && forall p :: p in a <==> p in b
    ensures a[|a| - 1] == b[|b| - 1]
  {
    var m, n := |a| - 1, |b| - 1;
    assert a[m] in b && b[n] in a;
    var i :| 0 <= i < |b| && b[i] == a[m];
    var j :| 0 <= j < |a| && a[j] == b[n];
  }

  lemma SameInits(a: seq<(string, nat)>, b: seq<(string, nat)>)
    requires a != [] && b != [] && Increasing(a) && Increasing(b) && forall p :: p in a <==> p in b
    ensures a == Init(a) + [a[|a| - 1]] && b == Init(b) + [a[|a| - 1]]
    ensures Increasing(Init(a)) && Increasing(Init(b)) && forall p :: p in Init(a) <==> p in Init(b)
  {
    LastIsGreatest(a, b);
    AllButLast(a);
    AllButLast(b);
    forall p ensures p in Init(a) <==> p in Init(b) {
      assert p in a <==> p in b;
    }
  }

  lemma {:induction false} OneIncreasing(a: seq<(string, nat)>, b: seq<(string, nat)>)
    requires Increasing(a) && Increasing(b) && forall p :: p in a <==> p in b
    ensures a == b
    decreases |a|
  {
    FirstIn(a);
    FirstIn(b);
    if a != [] {
      SameInits(a, b);
      OneIncreasing(Init(a), Init(b));
    }
  }

  lemma AllButLast(a: seq<(string, nat)>)
    requires a != [] && Increasing(a)
    ensures Increasing(Init(a)) && forall p :: p in Init(a) <==> p in a && p != a[|a| - 1]
  {
    forall p ensures p in Init(a) <==> p in a && p != a[|a| - 1] {
      LastOnlyLast(a, p);
    }
  }

  lemma LastOnlyLast(a: seq<(string, nat)>, p: (string, nat))
    requires a != [] && Increasing(a)
    ensures p in Init(a) <==> p in a && p != a[|a| - 1]
  {
    var m := |a| - 1;
    if p in Init(a) {
      var i :| 0 <= i < m && Init(a)[i] == p;
      assert a[i] == p && a[i].1 < a[m].1;
    }
    if p in a && p != a[m] {
      var i :| 0 <= i < |a| && a[i] == p;
      assert Init(a)[i] == p;
    }
  }

  // ----- lazy and eager loading -----

  /** Every answer the database may give for these rows builds the same view. */
  ghost predicate OneLoad(mine: seq<Row>) {
    forall a, b | ResultSet(a, mine) && ResultSet(b, mine) :: Load(NOTHING, a) == Load(NOTHING, b)
  }

  /** Rows of one session with one timestamp have the same text. */
  predicate TiesAgree(rows: seq<Row>) {
    forall r, q | r in rows && q in rows && r.sessionId == q.sessionId && r.ts == q.ts :: r.content == q.content
  }

  lemma SameChat(a: seq<Row>, b: seq<Row>, mine: seq<Row>, u: nat, sid: string)
    requires ResultSet(a, mine) && ResultSet(b, mine) && OneUser(mine, u) && TiesAgree(mine)
    ensures ChatOf(Load(NOTHING, a), sid) == ChatOf(Load(NOTHING, b), sid)
    ensures sid in Load(NOTHING, a).chats <==> sid in Load(NOTHING, b).chats
  {
    var k := OfSession(u, sid);
    var p, q := Filter(a, k), Filter(b, k);
    OwnChat(a, mine, u, sid);
    OwnChat(b, mine, u, sid);
    assert |p| == |multiset(p)| == |multiset(q)| == |q|;
    MessagesPermuted(p, q);
    SessionTies(p, a, mine, k);
    OneOrder(MessagesOf(p), MessagesOf(q));
  }

  lemma SessionTies(rows: seq<Row>, a: seq<Row>, mine: seq<Row>, k: Scope)
    requires k.OfSession? && multiset(a) == multiset(mine) && TiesAgree(mine) && rows == Filter(a, k)
    ensures TiesEqual(MessagesOf(rows))
  {
    var ms := MessagesOf(rows);
    FilterMembers(a, k);
    forall i, j | 0 <= i < |ms| && 0 <= j < |ms| && ms[i].ts == ms[j].ts ensures ms[i] == ms[j] {
      assert rows[i] in rows && rows[j] in rows;
      assert rows[i] in multiset(a) && rows[j] in multiset(a);
      assert rows[i] in multiset(mine) && rows[j] in multiset(mine);
      assert ms[i] == MessageOf(rows[i]) && ms[j] == MessageOf(rows[j]);
    }
  }

  lemma StrictStarts(a: seq<Row>, mine: seq<Row>, u: nat)
    requires ResultSet(a, mine) && OneUser(mine, u) && StartsDiffer(mine)
    ensures Increasing(Starts(a)) && forall p :: p in Starts(a) <==> Start(mine, p)
  {
    SameMembers(a, mine);
    StartsExactly(a, u);
    StartsListed(a, u);
    forall p ensures Start(a, p) <==> Start(mine, p) {
    }
    var s := Starts(a);
    forall i, j | 0 <= i < j < |s| ensures s[i].1 < s[j].1 {
      assert s[i] in s && s[j] in s;
      DifferentStarts(mine, s[i], s[j]);
    }
  }

  lemma DifferentStarts(mine: seq<Row>, p: (string, nat), q: (string, nat))
    requires StartsDiffer(mine) && Start(mine, p) && Start(mine, q) && p != q
    ensures p.1 != q.1
  {
  }

  lemma SameMembers(a: seq<Row>, b: seq<Row>)
    requires multiset(a) == multiset(b)
    ensures forall r :: r in a <==> r in b
  {
    forall r ensures r in a <==> r in b {
      assert r in a <==> r in multiset(a);
      assert r in b <==> r in multiset(b);
    }
  }

  lemma SameOrder(a: seq<Row>, b: seq<Row>, mine: seq<Row>, u: nat)
    requires ResultSet(a, mine) && ResultSet(b, mine) && OneUser(mine, u) && StartsDiffer(mine)
    ensures Load(NOTHING, a).order == Load(NOTHING, b).order
  {
    StrictStarts(a, mine, u);
    StrictStarts(b, mine, u);
    OneIncreasing(Starts(a), Starts(b));
    OrderIsStarts(a);
    OrderIsStarts(b);
  }

  lemma SameLoad(a: seq<Row>, b: seq<Row>, mine: seq<Row>, u: nat)
    requires ResultSet(a, mine) && ResultSet(b, mine) && OneUser(mine, u) && TiesAgree(mine) && StartsDiffer(mine)
    ensures Load(NOTHING, a) == Load(NOTHING, b)
  {
    SameOrder(a, b, mine, u);
    var v, w := Load(NOTHING, a), Load(NOTHING, b);
    forall sid
      ensures sid in v.chats <==> sid in w.chats
      ensures sid in v.chats ==> v.chats[sid] == w.chats[sid]
    {
      SameChat(a, b, mine, u, sid);
    }
    assert v.chats == w.chats;
  }

  /** Two rows of a session that tie with different texts can come in either order. */
  lemma TiesMustAgree(mine: seq<Row>, u: nat, r: Row, q: Row)
    requires OneLoad(mine) && OneUser(mine, u) && r in mine && q in mine
    requires r.sessionId == q.sessionId && r.ts == q.ts
    ensures r.content == q.content
  {
    var k := OfSession(u, r.sessionId);
    SortGivesResultSet(mine);
    var a := Sort(mine);
    var rows := Filter(a, k);
    OwnChat(a, mine, u, r.sessionId);
    var i := IndexIn(mine, a, k, r);
    var j := IndexIn(mine, a, k, q);
    if i < j {
      TieExchanged(mine, u, r.sessionId, a, i, j);
    } else if j < i {
      TieExchanged(mine, u, r.sessionId, a, j, i);
    }
  }

  lemma IndexIn(mine: seq<Row>, a: seq<Row>, k: Scope, r: Row) returns (i: nat)
    requires multiset(a) == multiset(mine) && r in mine && k.Has(r)
    ensures i < |Filter(a, k)| && Filter(a, k)[i] == r
  {
    FilterCount(a, k, r);
    assert r in multiset(mine);
    assert r in multiset(Filter(a, k));
    i :| 0 <= i < |Filter(a, k)| && Filter(a, k)[i] == r;
  }

  lemma TieExchanged(mine: seq<Row>, u: nat, sid: string, a: seq<Row>, i: nat, j: nat)
    requires OneLoad(mine) && OneUser(mine, u) && ResultSet(a, mine)
    requires var rows := Filter(a, OfSession(u, sid));
             i < j < |rows| && rows[i].ts == rows[j].ts && Sorted(rows)
    ensures var rows := Filter(a, OfSession(u, sid)); rows[i].content == rows[j].content
  {
    var k := OfSession(u, sid);
    var rows := Filter(a, k);
    SameUser(a, k, i, j);
    SwapTied(rows, i, j);
    FilterSameRows(a, mine, k);
    var table := AnyArrangement(mine, k, Swap(rows, i, j));
    var b := Sort(table);
    assert ResultSet(b, mine);
    OwnChat(a, mine, u, sid);
    OwnChat(b, mine, u, sid);
    assert MessagesOf(rows)[i] == MessagesOf(Swap(rows, i, j))[i] == MessageOf(rows[j]);
  }

  /** A row can be made the first of all with its timestamp. */
  lemma {:induction false} InsertAhead(r: Row, rows: seq<Row>) returns (before: seq<Row>, after: seq<Row>)
    requires forall q | q in rows :: q.userId == r.userId
    ensures Insert(r, rows) == before + ([r] + after)
    ensures forall q | q in before :: q.ts < r.ts && q in rows
  {
    if rows == [] || NotAfter(r, rows[0]) {
      before, after := [], rows;
      assert [] + ([r] + rows) == [r] + rows;
    } else {
      before, after := InsertAhead(r, rows[1..]);
      Regroup([rows[0]], before, [r] + after);
      before := [rows[0]] + before;
    }
  }

  /** Some answer of the database lists this session before all others that start with it. */
  lemma StartFirst(mine: seq<Row>, u: nat, p: (string, nat)) returns (a: seq<Row>, before: seq<string>)
    requires OneUser(mine, u) && Start(mine, p)
    ensures ResultSet(a, mine)
    ensures before + [p.0] <= Load(NOTHING, a).order
    ensures forall q: (string, nat) | Start(mine, q) && q.1 == p.1 :: q.0 !in before
  {
    var r :| r in mine && r.sessionId == p.0 && r.ts == p.1;
    var i :| 0 <= i < |mine| && mine[i] == r;
    var rest := Without(mine, i);
    WithoutRow(mine, i);
    SortGivesResultSet([r] + rest);
    SortGivesResultSet(rest);
    a := Sort([r] + rest);
    assert ([r] + rest)[1..] == rest && multiset([r] + rest) == multiset(mine);
    SameMembers(Sort(rest), rest);
    forall q | q in Sort(rest) ensures q in mine && q.userId == r.userId {
      assert q in rest;
    }
    var earlier, later := InsertAhead(r, Sort(rest));
    LoadConcat(NOTHING, earlier, [r] + later);
    LoadedAreSeen(earlier);
    before := Load(NOTHING, earlier).order;
    EarlierStarts(mine, earlier, p.1);
    assert ([r] + later)[1..] == later;
    LoadOrder(LoadRow(Load(NOTHING, earlier), r), later);
  }

  lemma EarlierStarts(mine: seq<Row>, earlier: seq<Row>, ts: nat)
    requires forall q | q in earlier :: q.ts < ts && q in mine
    ensures forall p: (string, nat) | Start(mine, p) && p.1 == ts ::
              !Seen(earlier, p.0) && p.0 !in Load(NOTHING, earlier).order
  {
    LoadedAreSeen(earlier);
    forall p: (string, nat) | Start(mine, p) && p.1 == ts
      ensures !Seen(earlier, p.0) && p.0 !in Load(NOTHING, earlier).order
    {
      forall q | q in earlier ensures q.sessionId != p.0 {
        assert q in mine;
      }
    }
  }

  lemma StartsMustDiffer(mine: seq<Row>, u: nat, p: (string, nat), q: (string, nat))
    requires OneLoad(mine) && OneUser(mine, u) && Start(mine, p) && Start(mine, q) && p.1 == q.1
    ensures p == q
  {
    var a, before := StartFirst(mine, u, p);
    var b, ahead := StartFirst(mine, u, q);
    var order := Load(NOTHING, a).order;
    assert order == Load(NOTHING, b).order;
    NotAhead(order, before, p.0, ahead);
    NotAhead(order, ahead, q.0, before);
    assert order[|before|] == p.0 && order[|ahead|] == q.0;
  }

  lemma NotAhead(order: seq<string>, before: seq<string>, sid: string, ahead: seq<string>)
    requires before + [sid] <= order && ahead <= order && sid !in ahead
    ensures |ahead| <= |before|
  {
    assert order[|before|] == sid;
    assert forall i | 0 <= i < |ahead| :: ahead[i] == order[i] && ahead[i] in ahead;
  }

  lemma OneLoadExactly(mine: seq<Row>, u: nat)
    requires OneUser(mine, u)
    ensures OneLoad(mine) <==> TiesAgree(mine) && StartsDiffer(mine)
  {
    if OneLoad(mine) {
      forall r, q | r in mine && q in mine && r.sessionId == q.sessionId && r.ts == q.ts
        ensures r.content == q.content
      {
        TiesMustAgree(mine, u, r, q);
      }
      forall p, q | Start(mine, p) && Start(mine, q) && p.1 == q.1 ensures p == q {
        StartsMustDiffer(mine, u, p, q);
      }
    }
    if TiesAgree(mine) && StartsDiffer(mine) {
      forall a, b | ResultSet(a, mine) && ResultSet(b, mine) ensures Load(NOTHING, a) == Load(NOTHING, b) {
        SameLoad(a, b, mine, u);
      }
    }
  }

  /** Whatever the database answers to the full query and to the user's own, both build the same
      view of the user. */
  ghost predicate LoadsAgree(table: seq<Row>, u: nat) {
    forall everything, own | ResultSet(everything, table) && ResultSet(own, Filter(table, OfUser(u))) ::
      LoadFor(NOTHING, everything, u) == Load(NOTHING, own)
  }

  /** Lazy loading refines eager loading, exactly: the two agree for all result sets iff rows of one
      session with one timestamp have one text and no two of the user's sessions share their
      earliest timestamp. */
  lemma LazyRefinesEager(table: seq<Row>, u: nat)
    ensures var mine := Filter(table, OfUser(u));
            LoadsAgree(table, u) <==> TiesAgree(mine) && StartsDiffer(mine)
  {
    var mine := Filter(table, OfUser(u));
    FilterMembers(table, OfUser(u));
    OneLoadExactly(mine, u);
    if OneLoad(mine) {
      forall everything, own | ResultSet(everything, table) && ResultSet(own, mine)
        ensures LoadFor(NOTHING, everything, u) == Load(NOTHING, own)
      {
        EagerIsOwn(table, everything, u);
      }
    }
    if LoadsAgree(table, u) {
      SortGivesResultSet(table);
      var sorted := LoadFor(NOTHING, Sort(table), u);
      forall a | ResultSet(a, mine) ensures Load(NOTHING, a) == sorted {
      }
    }
  }

  lemma EagerIsOwn(table: seq<Row>, everything: seq<Row>, u: nat)
    requires ResultSet(everything, table)
    ensures var own := Filter(everything, OfUser(u));
            ResultSet(own, Filter(table, OfUser(u))) && LoadFor(NOTHING, everything, u) == Load(NOTHING, own)
  {
    OtherUsersInvisible(NOTHING, everything, u);
    FilterSorted(everything, OfUser(u));
    FilterSameRows(everything, table, OfUser(u));
  }
}
