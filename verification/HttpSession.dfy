/** Cookie sessions with sliding expiry. */
module HttpSession {
  import opened Text

  const MAX_AGE: nat := 3600

  datatype Session = Session(id: string, data: map<string, string>, expiry: nat) {
    predicate IsExpired(now: nat) {
      now > expiry
    }

    function Refresh(now: nat): Session {
      this.(expiry := now + MAX_AGE)
    }
  }

  type Store = map<string, Session>

  /** The clock as one request reads it: inside `load`, after it, and at the refresh. */
  datatype Clock = Clock(load: nat, check: nat, refresh: nat) {
    predicate Nondecreasing(now: nat) {
      now <= load <= check <= refresh
    }
  }

  // ----- storage and manager as values -----

  /** `load`: an expired session is evicted on the way. */
  function LoadFrom(store: Store, id: string, now: nat): (Store, Option<Session>) {
    if id !in store then (store, None)
    else if store[id].IsExpired(now) then (store - {id}, None)
    else (store, Some(store[id]))
  }

  function Save(store: Store, s: Session): Store {
    store[s.id := s]
  }

  /** `getSession` for the id found in the cookie, empty when there is none. */
  function GetSession(store: Store, id: string, clock: Clock, generated: string): (Store, Session) {
    var (kept, found) := if id == "" then (store, None) else LoadFrom(store, id, clock.load);
    var session :=
      if found.None? || found.value.IsExpired(clock.check) then Session(generated, map[], 0) else found.value;
    var refreshed := session.Refresh(clock.refresh);
    (Save(kept, refreshed), refreshed)
  }

  class MemorySessionStorage {
    var sessions: Store

    constructor ()
      ensures sessions == map[]
    {
      sessions := map[];
    }

    method SaveSession(s: Session)
      modifies this
      ensures sessions == Save(old(sessions), s)
    {
      sessions := sessions[s.id := s];
    }

    method Load(id: string, now: nat) returns (found: Option<Session>)
      modifies this
      ensures (sessions, found) == LoadFrom(old(sessions), id, now)
    {
      if id in sessions {
        if !sessions[id].IsExpired(now) {
          return Some(sessions[id]);
        }
        sessions := sessions - {id};
      }
      found := None;
    }

    method Remove(id: string)
      modifies this
      ensures sessions == old(sessions) - {id}
    {
      sessions := sessions - {id};
    }
  }

  class SessionManager {
    const storage: MemorySessionStorage

    constructor ()
      ensures fresh(storage) && storage.sessions == map[]
    {
      storage := new MemorySessionStorage();
    }

    method GetOrCreate(cookie: string, clock: Clock, generated: string)
      returns (session: Session, setCookie: Option<string>)
      modifies storage
      ensures (storage.sessions, session) == GetSession(old(storage.sessions), IdInCookie(cookie), clock, generated)
      ensures setCookie.Some? ==>
                setCookie == Some(IssuedCookie(generated)) && session.id == generated && session.data == map[]
      ensures setCookie.None? ==>
                var id := IdInCookie(cookie);
                id != "" && id in old(storage.sessions) && session.data == old(storage.sessions)[id].data
    {
      var id := IdInCookie(cookie);
      var found: Option<Session> := None;
      if id != "" {
        found := storage.Load(id, clock.load);
      }
      if found.None? || found.value.IsExpired(clock.check) {
        session := Session(generated, map[], 0);
        setCookie := Some(IssuedCookie(generated));
      } else {
        session := found.value;
        setCookie := None;
      }
      session := session.Refresh(clock.refresh);
      storage.SaveSession(session);
    }

    /** `Session::setValue` saves the session again through its manager. */
    method SetValue(session: Session, key: string, value: string) returns (updated: Session)
      modifies storage
      ensures updated == session.(data := session.data[key := value])
      ensures storage.sessions == Save(old(storage.sessions), updated)
    {
      updated := session.(data := session.data[key := value]);
      storage.SaveSession(updated);
    }

    method DestroySession(id: string)
      modifies storage
      ensures storage.sessions == old(storage.sessions) - {id}
    {
      storage.Remove(id);
    }
  }

  // ----- the trace -----

  /** A request carrying an id (or none), whose handler then writes some values; or a destruction. */
  datatype Event =
    | Request(id: string, clock: Clock, generated: string, writes: map<string, string>)
    | Destroy(id: string)

  /** What happened to session ids, in order: the reference the store is measured against. */
  datatype Entry = Served(id: string, use: Use) | Destroyed(id: string)

  datatype Use = Use(at: nat, data: map<string, string>)

  function UseOf(e: Entry): Option<Use> {
    if e.Served? then Some(e.use) else None
  }

  /** The last use of an id, or `None` when it was never issued or was destroyed since. */
  function Latest(log: seq<Entry>, id: string): Option<Use> {
    if log == [] then None
    else if log[|log| - 1].id == id then UseOf(log[|log| - 1])
    else Latest(log[..|log| - 1], id)
  }

  /** Issued, not destroyed since its last use, and last used at most an hour ago. */
  predicate Alive(log: seq<Entry>, id: string, now: nat) {
    var last := Latest(log, id);
    last.Some? && now <= last.value.at + 3600
  }

  datatype System = System(store: Store, log: seq<Entry>, now: nat)

  const START := System(map[], [], 0)

  /** One event on the store, with what it served appended to the log. */
  function Handle(s: System, e: Event): System {
    match e
    case Destroy(id) => System(s.store - {id}, s.log + [Destroyed(id)], s.now)
    case Request(id, clock, generated, writes) =>
      var (store, session) := GetSession(s.store, id, clock, generated);
      var written := session.(data := session.data + writes);
      System(Save(store, written), s.log + [Served(session.id, Use(clock.refresh, written.data))], clock.refresh)
  }

  /** A nondecreasing clock, and a generated id that is nonempty and not in use. */
  predicate Proper(s: System, e: Event) {
    e.Request? ==> e.clock.Nondecreasing(s.now) && e.generated != "" && Latest(s.log, e.generated).None?
  }

  /** The store holds exactly the ids last served, each under its own id with the data and the
      expiry of that use; only expired ones may be missing. */
  ghost predicate Agrees(s: System) {
    "" !in s.store && Latest(s.log, "").None? && forall id :: AgreesOn(s, id)
  }

  predicate AgreesOn(s: System, id: string) {
    var last := Latest(s.log, id);
    if id in s.store then
      last.Some? && s.store[id] == Session(id, last.value.data, last.value.at + MAX_AGE)
    else
      last.Some? ==> last.value.at + MAX_AGE < s.now
  }

  lemma LatestAppended(log: seq<Entry>, e: Entry, id: string)
    ensures Latest(log + [e], id)
            == if e.id == id then UseOf(e) else Latest(log, id)
  {
    assert (log + [e])[..|log|] == log;
  }

  /** The session a request gets: the one it had, with its data, iff its id is alive when checked;
      a fresh empty one otherwise. */
  lemma ServedSession(s: System, e: Event)
    requires Agrees(s) && e.Request? && Proper(s, e)
    ensures var session := GetSession(s.store, e.id, e.clock, e.generated).1;
            if Alive(s.log, e.id, e.clock.check)
            then session.id == e.id && session.data == Latest(s.log, e.id).value.data && session.id != e.generated
            else session.id == e.generated && session.data == map[]
  {
    assert AgreesOn(s, e.id);
  }

  /** The request's own id may be evicted on the way; nothing else leaves the store. */
  lemma Evicted(s: System, e: Event, id: string)
    requires Agrees(s) && e.Request? && Proper(s, e)
    ensures var (store, session) := GetSession(s.store, e.id, e.clock, e.generated);
            && session.id in store
            && (id != session.id && id in store ==> id in s.store && store[id] == s.store[id])
            && (id !in store && id in s.store ==> s.store[id].expiry < e.clock.refresh)
  {
    assert AgreesOn(s, e.id);
  }

  lemma HandleAgreesOn(s: System, e: Event, id: string)
    requires Agrees(s) && Proper(s, e)
    ensures AgreesOn(Handle(s, e), id)
  {
    var r := Handle(s, e);
    LatestAppended(s.log, r.log[|s.log|], id);
    assert r.log == s.log + [r.log[|s.log|]];
    assert AgreesOn(s, id);
    if e.Request? {
      Evicted(s, e, id);
    }
  }

  lemma HandleAgrees(s: System, e: Event)
    requires Agrees(s) && Proper(s, e)
    ensures Agrees(Handle(s, e))
  {
    var r := Handle(s, e);
    LatestAppended(s.log, r.log[|s.log|], "");
    assert r.log == s.log + [r.log[|s.log|]];
    if e.Request? {
      ServedSession(s, e);
      Evicted(s, e, "");
    }
    forall id ensures AgreesOn(r, id) {
      HandleAgreesOn(s, e, id);
    }
  }

  predicate ProperRun(s: System, events: seq<Event>)
    decreases |events|
  {
    events == [] || (Proper(s, events[0]) && ProperRun(Handle(s, events[0]), events[1..]))
  }

  function HandleAll(s: System, events: seq<Event>): System
    decreases |events|
  {
    if events == [] then s else HandleAll(Handle(s, events[0]), events[1..])
  }

  lemma {:induction false} RunAgrees(s: System, events: seq<Event>)
    requires Agrees(s) && ProperRun(s, events)
    ensures Agrees(HandleAll(s, events))
    decreases |events|
  {
    if events != [] {
      HandleAgrees(s, events[0]);
      RunAgrees(Handle(s, events[0]), events[1..]);
    }
  }

  /** Sliding expiry as a trace property: after any run, a request gets the session it had before,
      with the data last written, iff its id was issued, not destroyed since its last use and last
      used at most an hour ago; otherwise it gets a fresh empty one, and the expired session has left
      the store. */
  lemma SlidingExpiry(events: seq<Event>, e: Event)
    requires ProperRun(START, events) && e.Request? && Proper(HandleAll(START, events), e)
    ensures var s := HandleAll(START, events);
            var session := GetSession(s.store, e.id, e.clock, e.generated).1;
            if Alive(s.log, e.id, e.clock.check)
            then session.id == e.id && session.data == Latest(s.log, e.id).value.data && session.id != e.generated
            else session.id == e.generated && session.data == map[]
    ensures var s := HandleAll(START, events);
            !Alive(s.log, e.id, e.clock.load) ==> e.id !in Handle(s, e).store || e.id == e.generated
  {
    RunAgrees(START, events);
    var s := HandleAll(START, events);
    ServedSession(s, e);
    assert AgreesOn(s, e.id);
  }

  // ----- the cookie -----

  const NAME := "sessionId="

  /** `string::find` of a text: where it first occurs, or the length. */
  function FindText(s: string, text: string): (r: nat)
    ensures r <= |s|
  {
    if text <= s then 0 else if s == "" then 0 else 1 + FindText(s[1..], text)
  }

  /** The text after the first `sessionId=`, up to a semicolon or the end. */
  function IdInCookie(cookie: string): string {
    var at := FindText(cookie, NAME);
    if at + |NAME| > |cookie| then "" else
      var rest := cookie[at + |NAME|..];
      rest[..Find(rest, ';')]
  }

  function IssuedCookie(id: string): string {
    NAME + id + "; Path=/; HttpOnly"
  }

  /** The text stands in `s` at position `i`. */
  predicate At(s: string, text: string, i: nat) {
    i <= |s| && text <= s[i..]
  }

  /** Searching finds the first occurrence, if there is one. */
  lemma {:induction false} FindTextExactly(s: string, text: string)
    requires text != ""
    ensures forall i: nat | i < FindText(s, text) :: !At(s, text, i)
    ensures FindText(s, text) < |s| ==> At(s, text, FindText(s, text))
  {
    assert s[0..] == s;
    if !(text <= s) && s != "" {
      FindTextExactly(s[1..], text);
      assert forall i: nat | 0 < i <= |s| :: s[1..][i - 1..] == s[i..];
      forall i: nat | i < FindText(s, text) ensures !At(s, text, i) {
        if i > 0 {
          assert !At(s[1..], text, i - 1);
        }
      }
    }
  }

  lemma FirstAt(s: string, text: string, k: nat)
    requires text != "" && At(s, text, k) && forall i: nat | i < k :: !At(s, text, i)
    ensures FindText(s, text) == k
  {
    FindTextExactly(s, text);
  }

  /** What the rest of a cookie adds behind an id. */
  predicate EndsId(rest: string) {
    rest == "" || rest[0] == ';'
  }

  lemma IdThenRest(id: string, rest: string)
    requires ';' !in id && EndsId(rest)
    ensures (id + rest)[..Find(id + rest, ';')] == id
  {
    FindIsFirst(id + rest, ';');
    assert forall i | 0 <= i < |id| :: (id + rest)[i] == id[i];
    assert rest != "" ==> (id + rest)[|id|] == ';';
  }

  /** An id is read where the name first occurs. */
  lemma ReadAt(before: string, id: string, rest: string)
    requires ';' !in id && EndsId(rest)
    requires forall i: nat | i < |before| :: !At(before + (NAME + id + rest), NAME, i)
    ensures IdInCookie(before + (NAME + id + rest)) == id
  {
    var s := before + (NAME + id + rest);
    assert s[|before|..] == NAME + id + rest;
    FirstAt(s, NAME, |before|);
    assert s[|before| + |NAME|..] == id + rest;
    IdThenRest(id, rest);
  }

  /** Whole cookies in front: none, or the last one followed by a semicolon and a blank. */
  predicate WholeCookies(before: string) {
    before == "" || (|before| >= 2 && before[|before| - 2..] == "; ")
  }

  /** The name holds no blank, so it never stands across the end of the cookies before it. */
  lemma NotAcross(before: string, tail: string, i: nat)
    requires WholeCookies(before) && i < |before|
    ensures At(before + tail, NAME, i) <==> At(before, NAME, i)
    ensures At(before, NAME, i) ==> i + |NAME| + 2 <= |before|
  {
    var s, end := before + tail, |before| - 1;
    assert before[end] == ' ' && before[end - 1] == ';' by {
      assert before[end] == before[|before| - 2..][1] && before[end - 1] == before[|before| - 2..][0];
    }
    assert s[end] == ' ' && s[end - 1] == ';' && ' ' !in NAME && ';' !in NAME;
    if At(s, NAME, i) {
      assert forall j | 0 <= j < |NAME| :: NAME[j] == s[i..][j] == s[i + j];
      if i + |NAME| > end - 1 {
        NameFree(end - i);
        NameFree(end - 1 - i);
      }
      assert before[i..] == s[i..][..|before| - i];
    }
    if At(before, NAME, i) {
      assert s[i..] == before[i..] + tail;
    }
  }

  lemma NameFree(j: int)
    ensures 0 <= j < |NAME| ==> NAME[j] != ' ' && NAME[j] != ';'
  {
    assert forall c | c in NAME :: c != ' ' && c != ';';
  }

  lemma EarlierId(before: string, tail: string, at: nat)
    requires WholeCookies(before) && at + 2 <= |before|
    ensures var a, b := before[at..], (before + tail)[at..]; a[..Find(a, ';')] == b[..Find(b, ';')]
  {
    var a, b := before[at..], (before + tail)[at..];
    assert b == a + tail;
    assert a[|a| - 2] == before[|before| - 2..][0] == ';';
    FindIsFirst(a, ';');
    FindIsFirst(b, ';');
    assert Find(a, ';') < |a|;
    assert b[Find(a, ';')] == ';';
    assert forall i | 0 <= i < Find(a, ';') :: b[i] == a[i];
  }

  lemma {:induction false} SameOccurrences(before: string, tail: string)
    requires WholeCookies(before)
    ensures forall i: nat | i < FindText(before, NAME) :: !At(before + tail, NAME, i)
    ensures FindText(before, NAME) < |before|
            ==> FindText(before + tail, NAME) == FindText(before, NAME) <= |before| - |NAME| - 2
  {
    var k := FindText(before, NAME);
    FindTextExactly(before, NAME);
    forall i: nat | i < k ensures !At(before + tail, NAME, i) {
      NotAcross(before, tail, i);
    }
    if k < |before| {
      NotAcross(before, tail, k);
      FirstAt(before + tail, NAME, k);
    }
  }

  lemma {:induction false} EarlierRead(before: string, tail: string)
    requires WholeCookies(before) && FindText(before, NAME) < |before|
    ensures IdInCookie(before + tail) == IdInCookie(before)
  {
    SameOccurrences(before, tail);
    EarlierId(before, tail, FindText(before, NAME) + |NAME|);
  }

  /** Among whole cookies, exactly: the id read is the one after the name's first occurrence in the
      cookies before, in whatever cookie that is, and this one only when there is none. */
  lemma {:induction false} CookieExactly(before: string, id: string, rest: string)
    requires WholeCookies(before) && ';' !in id && EndsId(rest)
    ensures IdInCookie(before + (NAME + id + rest))
            == if FindText(before, NAME) < |before| then IdInCookie(before) else id
  {
    if FindText(before, NAME) < |before| {
      EarlierRead(before, NAME + id + rest);
    } else {
      SameOccurrences(before, NAME + id + rest);
      ReadAt(before, id, rest);
    }
  }

  /** The id of a session cookie among others is read back iff the name occurs in none of the
      cookies before it, or what stands there is the same id. */
  lemma {:induction false} CookieRoundTrip(before: string, id: string, rest: string)
    requires WholeCookies(before) && ';' !in id && EndsId(rest)
    ensures IdInCookie(before + (NAME + id + rest)) == id
            <==> FindText(before, NAME) == |before| || IdInCookie(before) == id
  {
    CookieExactly(before, id, rest);
  }

  /** The issued cookie, whole or as browsers send it back, parses to its id. */
  lemma IssuedCookieRoundTrip(id: string)
    requires ';' !in id
    ensures IdInCookie(IssuedCookie(id)) == id && IdInCookie(NAME + id) == id
  {
    CookieExactly("", id, "; Path=/; HttpOnly");
    CookieExactly("", id, "");
    assert "" + (NAME + id + "; Path=/; HttpOnly") == IssuedCookie(id);
    assert "" + (NAME + id + "") == NAME + id;
  }

  lemma {:induction false} NotEarlier(longer: string, more: string, i: nat)
    requires FindText(longer + NAME, NAME) == |longer| && i < |longer|
    ensures !At(longer + (NAME + more), NAME, i)
  {
    var first, all := longer + NAME, longer + (NAME + more);
    FindTextExactly(first, NAME);
    assert !At(first, NAME, i);
    assert all[i..][..|first| - i] == first[i..];
  }

  lemma {:induction false} OwnCookie(longer: string, value: string, cookie: string)
    requires ';' !in value && FindText(longer + NAME, NAME) == |longer|
    requires cookie == longer + (NAME + value + "; ")
    ensures FindText(cookie, NAME) == |longer| && IdInCookie(cookie) == value && WholeCookies(cookie)
  {
    assert NAME + value + "; " == NAME + (value + "; ");
    forall i: nat | i < |longer| ensures !At(cookie, NAME, i) {
      NotEarlier(longer, value + "; ", i);
    }
    ReadAt(longer, value, "; ");
    assert cookie[|longer|..] == NAME + value + "; ";
    FirstAt(cookie, NAME, |longer|);
    assert cookie[|cookie| - 2..] == "; ";
  }

  /** The name counts even as the end of another cookie's name: whatever stands before it there,
      the other cookie's value is read instead of the id. */
  lemma {:induction false} LongerNameWins(longer: string, value: string, id: string, rest: string)
    requires ';' !in value && ';' !in id && EndsId(rest)
    requires FindText(longer + NAME, NAME) == |longer|
    ensures IdInCookie(longer + (NAME + value + "; ") + (NAME + id + rest)) == value
  {
    var cookie := longer + (NAME + value + "; ");
    OwnCookie(longer, value, cookie);
    CookieExactly(cookie, id, rest);
  }
}
