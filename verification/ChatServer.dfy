/** The server's conversation store: the session index that must agree with what each user has in
    memory, and the loading of users on first use. */
module ChatServerModel {
  import opened Text
  import opened Sql
  import opened Conversation
  import opened Persistence
  import opened Reload

  // ----- the index -----

  predicate Distinct(ids: seq<string>) {
    forall i, j | 0 <= i < j < |ids| :: ids[i] != ids[j]
  }

  /** No id is listed twice and every listed id has a helper. */
  predicate Indexed(v: UserView) {
    && Distinct(v.order)
    && (forall sid | sid in v.order :: sid in v.chats)
  }

  /** Every helper is listed, too. */
  predicate AllListed(v: UserView) {
    forall sid | sid in v.chats :: sid in v.order
  }

  function Remove(ids: seq<string>, sid: string): seq<string> {
    if ids == [] then []
    else if ids[0] == sid then Remove(ids[1..], sid)
    else [ids[0]] + Remove(ids[1..], sid)
  }

  /** What one request does to its user's view. An empty session id asks for a new session. */
  datatype Op =
    | LoadRows(rows: seq<Row>)
    | Open(sid: string, generated: string)   // send and stream-start
    | ShowHistory(sid: string)
    | Delete(sid: string)

  function GetOrCreate(v: UserView, sid: string): UserView {
    if sid in v.chats then v else v.(chats := v.chats[sid := []])
  }

  function Perform(v: UserView, op: Op): UserView {
    match op
    case LoadRows(rows) => Load(v, rows)
    case Open(sid, generated) =>
      if sid == "" then GetOrCreate(v.(order := v.order + [generated]), generated) else GetOrCreate(v, sid)
    case ShowHistory(sid) => GetOrCreate(v, sid)
    case Delete(sid) =>
      if Digits(sid) then UserView(v.chats - {sid}, Remove(v.order, sid)) else v
  }

  /** A generated id is one the user's list does not hold yet. */
  predicate FreshId(v: UserView, op: Op) {
    op.Open? && op.sid == "" ==> op.generated !in v.order
  }

  lemma {:induction false} RemoveMembers(ids: seq<string>, sid: string)
    ensures forall x :: x in Remove(ids, sid) <==> x in ids && x != sid
  {
    if ids != [] {
      RemoveMembers(ids[1..], sid);
      assert forall x :: x in ids <==> x == ids[0] || x in ids[1..];
    }
  }

  lemma ConsDistinct(id: string, ids: seq<string>)
    ensures Distinct([id] + ids) <==> id !in ids && Distinct(ids)
  {
    var all := [id] + ids;
    assert forall i | 0 <= i < |ids| :: ids[i] == all[i + 1];
    if Distinct(all) {
      forall i | 0 <= i < |ids| ensures ids[i] != id {
        assert all[0] != all[i + 1];
      }
      forall i, j | 0 <= i < j < |ids| ensures ids[i] != ids[j] {
        assert all[i + 1] != all[j + 1];
      }
    }
  }

  lemma {:induction false} RemoveDistinct(ids: seq<string>, sid: string)
    requires Distinct(ids)
    ensures Distinct(Remove(ids, sid))
  {
    if ids != [] {
      var rest := ids[1..];
      assert ids == [ids[0]] + rest;
      ConsDistinct(ids[0], rest);
      RemoveDistinct(rest, sid);
      RemoveMembers(rest, sid);
      ConsDistinct(ids[0], Remove(rest, sid));
    }
  }

  lemma LoadRowIndexed(v: UserView, r: Row)
    requires Indexed(v)
    ensures Indexed(LoadRow(v, r)) && (AllListed(v) ==> AllListed(LoadRow(v, r)))
  {
  }

  lemma {:induction false} LoadIndexed(v: UserView, rows: seq<Row>)
    requires Indexed(v)
    ensures Indexed(Load(v, rows)) && (AllListed(v) ==> AllListed(Load(v, rows)))
    decreases |rows|
  {
    if rows != [] {
      LoadRowIndexed(v, rows[0]);
      LoadIndexed(LoadRow(v, rows[0]), rows[1..]);
    }
  }

  lemma PerformIndexed(v: UserView, op: Op)
    requires Indexed(v) && FreshId(v, op)
    ensures Indexed(Perform(v, op))
  {
    match op
    case LoadRows(rows) => LoadIndexed(v, rows);
    case Delete(sid) =>
      RemoveMembers(v.order, sid);
      RemoveDistinct(v.order, sid);
    case Open(_, _) =>
    case ShowHistory(_) =>
  }

  predicate FreshRun(v: UserView, ops: seq<Op>)
    decreases |ops|
  {
    ops == [] || (FreshId(v, ops[0]) && FreshRun(Perform(v, ops[0]), ops[1..]))
  }

  function PerformAll(v: UserView, ops: seq<Op>): UserView
    decreases |ops|
  {
    if ops == [] then v else PerformAll(Perform(v, ops[0]), ops[1..])
  }

  /** Session index agreement over every sequence of requests, loads at any point included. */
  lemma {:induction false} IndexAgreementRun(v: UserView, ops: seq<Op>)
    requires Indexed(v) && FreshRun(v, ops)
    ensures Indexed(PerformAll(v, ops))
    decreases |ops|
  {
    if ops != [] {
      PerformIndexed(v, ops[0]);
      IndexAgreementRun(Perform(v, ops[0]), ops[1..]);
    }
  }

  /** A request that names a session nobody created: its helper exists but is never listed. */
  predicate NamesUnknown(v: UserView, op: Op) {
    (op.ShowHistory? || (op.Open? && op.sid != "")) && op.sid !in v.chats
  }

  /** Helpers and list agree in both directions exactly as long as no request names an unknown id. */
  lemma ListedExactly(v: UserView, op: Op)
    requires Indexed(v) && AllListed(v) && FreshId(v, op)
    ensures AllListed(Perform(v, op)) <==> !NamesUnknown(v, op)
  {
    match op
    case LoadRows(rows) => LoadIndexed(v, rows);
    case Delete(sid) => RemoveMembers(v.order, sid);
    case Open(sid, generated) =>
      if NamesUnknown(v, op) {
        assert sid in Perform(v, op).chats && sid !in v.order;
      }
    case ShowHistory(sid) =>
      if NamesUnknown(v, op) {
        assert sid in Perform(v, op).chats && sid !in v.order;
      }
  }

  /** The id a request works on, if it needs a helper. */
  function Used(op: Op): Option<string> {
    match op
    case Open(sid, generated) => Some(if sid == "" then generated else sid)
    case ShowHistory(sid) => Some(sid)
    case _ => None
  }

  /** Opening a session or showing its history loses no message of any session: a helper is made only
      where there was none, and only a new id is listed, at the end. */
  lemma OpenKeepsChats(v: UserView, op: Op)
    requires Used(op).Some?
    ensures var r := Perform(v, op);
            && (forall x :: ChatOf(r, x) == ChatOf(v, x))
            && r.chats.Keys == v.chats.Keys + {Used(op).value}
            && r.order == v.order + if op.Open? && op.sid == "" then [op.generated] else []
  {
    assert v.order + [] == v.order;
  }

  /** So over any run without loads and deletions no session's messages change and none is lost. */
  lemma {:induction false} RunKeepsChats(v: UserView, ops: seq<Op>)
    requires forall op | op in ops :: Used(op).Some?
    ensures var r := PerformAll(v, ops);
            && (forall x :: ChatOf(r, x) == ChatOf(v, x))
            && r.chats.Keys == v.chats.Keys + (set op | op in ops :: Used(op).value)
            && v.order <= r.order
    decreases |ops|
  {
    if ops != [] {
      assert ops[0] in ops;
      OpenKeepsChats(v, ops[0]);
      RunKeepsChats(Perform(v, ops[0]), ops[1..]);
      assert forall op :: op in ops <==> op == ops[0] || op in ops[1..];
    }
  }

  lemma {:induction false} RemoveKeepsOrder(before: seq<string>, after: seq<string>, sid: string)
    ensures Remove(before + after, sid) == Remove(before, sid) + Remove(after, sid)
    ensures sid !in before ==> Remove(before, sid) == before
  {
    if before == [] {
      assert before + after == after;
    } else {
      assert (before + after)[1..] == before[1..] + after;
      RemoveKeepsOrder(before[1..], after, sid);
    }
  }

  /** Deleting takes the id out of both structures, leaves every other session alone and the list in
      order; an id that is no number is refused and changes nothing. */
  lemma DeleteExactly(v: UserView, sid: string)
    ensures var r := Perform(v, Delete(sid));
            && (!Digits(sid) ==> r == v)
            && (Digits(sid) ==> sid !in r.chats && sid !in r.order)
            && (forall x | x != sid :: (x in r.chats <==> x in v.chats) && ChatOf(r, x) == ChatOf(v, x))
            && (forall x | x != sid :: x in r.order <==> x in v.order)
  {
    RemoveMembers(v.order, sid);
  }

  lemma DeleteListed(v: UserView, before: seq<string>, sid: string, after: seq<string>)
    requires Digits(sid) && v.order == before + [sid] + after && Distinct(v.order)
    ensures Perform(v, Delete(sid)).order == before + after
  {
    forall x | x in before || x in after ensures x != sid {
      if x in before {
        var i :| 0 <= i < |before| && before[i] == x;
        assert v.order[i] == x && v.order[|before|] == sid;
      } else {
        var i :| 0 <= i < |after| && after[i] == x;
        assert v.order[|before| + 1 + i] == x && v.order[|before|] == sid;
      }
    }
    RemoveKeepsOrder(before + [sid], after, sid);
    RemoveKeepsOrder(before, [sid], sid);
    RemoveKeepsOrder(after, [], sid);
    assert [sid][1..] == [] && before + [] == before;
  }

  // ----- the imperative server -----

  /** A query fails as a whole or gives rows, some of which may not be readable. */
  type Query = Option<seq<Option<Row>>>

  function Readable(result: seq<Option<Row>>): seq<Row> {
    if result == [] then []
    else if result[0].Some? then [result[0].value] + Readable(result[1..])
    else Readable(result[1..])
  }

  /** An unreadable row is left out and no other. */
  lemma {:induction false} UnreadableSkipped(before: seq<Option<Row>>, after: seq<Option<Row>>, row: Option<Row>)
    ensures Readable(before + [row] + after)
            == Readable(before) + (if row.Some? then [row.value] else []) + Readable(after)
    decreases |before|
  {
    var all := before + [row] + after;
    if before == [] {
      assert all == [row] + after && all[1..] == after;
    } else {
      assert all[1..] == before[1..] + [row] + after;
      UnreadableSkipped(before[1..], after, row);
    }
  }

  /** The rows that reach memory. */
  function Answer(query: Query): seq<Row> {
    if query.Some? then Readable(query.value) else []
  }

  lemma ReadableNext(result: seq<Option<Row>>, i: nat)
    requires i < |result|
    ensures var rest := Readable(result[i + 1..]);
            if result[i].Some? then
              var rows := Readable(result[i..]);
              rows != [] && rows[0] == result[i].value && rows[1..] == rest
            else Readable(result[i..]) == rest
  {
    assert result[i..][1..] == result[i + 1..];
  }

  function LoadedView(v: UserView, loaded: bool, query: Query): UserView {
    if loaded then v else Load(v, Answer(query))
  }

  class ChatServer {
    var chatInformation: map<nat, map<string, seq<Message>>>
    var sessionsIdsMap: map<nat, seq<string>>
    var loadedUsers: set<nat>

    constructor ()
      ensures loadedUsers == {} && forall u :: View(u) == NOTHING
    {
      chatInformation, sessionsIdsMap, loadedUsers := map[], map[], {};
    }

    function View(u: nat): UserView
      reads this
    {
      UserView(if u in chatInformation then chatInformation[u] else map[],
               if u in sessionsIdsMap then sessionsIdsMap[u] else [])
    }

    method RestoreRow(u: nat, r: Row)
      modifies this`chatInformation, this`sessionsIdsMap
      ensures View(u) == LoadRow(old(View(u)), r)
      ensures forall v | v != u :: View(v) == old(View(v))
    {
      var userSessions := if u in chatInformation then chatInformation[u] else map[];
      ghost var before := View(u);
      if r.sessionId !in userSessions {
        var ids := if u in sessionsIdsMap then sessionsIdsMap[u] else [];
        userSessions := userSessions[r.sessionId := []];
        sessionsIdsMap := sessionsIdsMap[u := ids + [r.sessionId]];
      }
      userSessions := userSessions[r.sessionId := userSessions[r.sessionId] + [MessageOf(r)]];
      assert userSessions == LoadRow(before, r).chats by {
        assert [] + [MessageOf(r)] == [MessageOf(r)];
      }
      chatInformation := chatInformation[u := userSessions];
    }

    /** `readDataFromMySQL`: every row that can be read goes to its own user. */
    method ReadDataFromMySQL(query: Query)
      modifies this`chatInformation, this`sessionsIdsMap
      ensures forall u :: View(u) == LoadFor(old(View(u)), Answer(query), u)
    {
      if query.None? {
        return;
      }
      var result := query.value;
      assert result[0..] == result;
      for i := 0 to |result|
        invariant forall u :: LoadFor(View(u), Readable(result[i..]), u) == LoadFor(old(View(u)), Readable(result), u)
      {
        ReadableNext(result, i);
        if result[i].Some? {
          RestoreRow(result[i].value.userId, result[i].value);
        }
      }
    }

    /** `ensureUserDataLoaded`: once per user; a failed query leaves the user unloaded. */
    method EnsureUserDataLoaded(u: nat, query: Query)
      modifies this
      ensures forall v | v != u :: View(v) == old(View(v))
      ensures View(u) == LoadedView(old(View(u)), u in old(loadedUsers), query)
      ensures loadedUsers == if query.None? then old(loadedUsers) else old(loadedUsers) + {u}
    {
      if u in loadedUsers || query.None? {
        return;
      }
      var result := query.value;
      assert result[0..] == result;
      for i := 0 to |result|
        invariant loadedUsers == old(loadedUsers)
        invariant forall v | v != u :: View(v) == old(View(v))
        invariant Load(View(u), Readable(result[i..])) == Load(old(View(u)), Readable(result))
      {
        ReadableNext(result, i);
        if result[i].Some? {
          RestoreRow(u, result[i].value);
        }
      }
      loadedUsers := loadedUsers + {u};
    }

    method GetOrCreateHelper(u: nat, sid: string)
      modifies this`chatInformation
      ensures View(u) == GetOrCreate(old(View(u)), sid)
      ensures forall v | v != u :: View(v) == old(View(v))
    {
      var userSessions := if u in chatInformation then chatInformation[u] else map[];
      if sid !in userSessions {
        userSessions := userSessions[sid := []];
      }
      chatInformation := chatInformation[u := userSessions];
    }

    /** The start of send and stream: a new id is listed first, then its helper is made. */
    method OpenSession(u: nat, sid: string, generated: string) returns (used: string)
      modifies this`chatInformation, this`sessionsIdsMap
      ensures used == if sid == "" then generated else sid
      ensures View(u) == Perform(old(View(u)), Open(sid, generated))
      ensures forall v | v != u :: View(v) == old(View(v))
    {
      used := sid;
      if sid == "" {
        used := generated;
        var ids := if u in sessionsIdsMap then sessionsIdsMap[u] else [];
        sessionsIdsMap := sessionsIdsMap[u := ids + [generated]];
      }
      GetOrCreateHelper(u, used);
    }

    /** Deletion from helper map and list; an id that is not a number is refused. */
    method DeleteSession(u: nat, sid: string) returns (published: seq<Statement>)
      modifies this`chatInformation, this`sessionsIdsMap
      ensures View(u) == Perform(old(View(u)), Delete(sid))
      ensures published == if Digits(sid) then [DeleteRows(u, sid)] else []
      ensures forall v | v != u :: View(v) == old(View(v))
    {
      if !Digits(sid) {
        return [];
      }
      if u in chatInformation {
        chatInformation := chatInformation[u := chatInformation[u] - {sid}];
      }
      var ids := if u in sessionsIdsMap then sessionsIdsMap[u] else [];
      sessionsIdsMap := sessionsIdsMap[u := Remove(ids, sid)];
      published := [DeleteRows(u, sid)];
    }
  }

  /** Loading is idempotent: a second load changes something only where the first query failed. */
  method LoadTwice(s: ChatServer, u: nat, first: Query, second: Query)
    modifies s
    ensures forall v | v != u :: s.View(v) == old(s.View(v))
    ensures s.View(u)
            == LoadedView(old(s.View(u)), u in old(s.loadedUsers), if first.Some? then first else second)
    ensures s.loadedUsers
            == if first.Some? || second.Some? then old(s.loadedUsers) + {u} else old(s.loadedUsers)
  {
    s.EnsureUserDataLoaded(u, first);
    s.EnsureUserDataLoaded(u, second);
  }

  /** Loads of different users commute: either order ends in the same views and the same users
      loaded. */
  method LoadBoth(s: ChatServer, u: nat, v: nat, queryU: Query, queryV: Query, vFirst: bool)
    requires u != v
    modifies s
    ensures s.View(u) == LoadedView(old(s.View(u)), u in old(s.loadedUsers), queryU)
    ensures s.View(v) == LoadedView(old(s.View(v)), v in old(s.loadedUsers), queryV)
    ensures forall w | w != u && w != v :: s.View(w) == old(s.View(w))
    ensures s.loadedUsers
            == old(s.loadedUsers) + (if queryU.Some? then {u} else {}) + (if queryV.Some? then {v} else {})
  {
    if vFirst {
      s.EnsureUserDataLoaded(v, queryV);
      s.EnsureUserDataLoaded(u, queryU);
    } else {
      s.EnsureUserDataLoaded(u, queryU);
      s.EnsureUserDataLoaded(v, queryV);
    }
  }
}
