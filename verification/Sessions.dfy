/**
 Logins, and the refresh tokens that replace one another until the login ends or a used one comes back.

 Token hashes are taken to be collision-free, so a record is stored under its token. Random session
 ids and tokens are parameters, required never to have been drawn before. A session and all tokens
 ever issued for it form a family.
 */
module Sessions {
  import opened Common

  type User = nat
  type SessionId = nat
  type Token = nat

  datatype Session = Session(id: SessionId, user: User, createdAt: int, expiresAt: int)

  datatype Refresh = Refresh(session: SessionId, user: User, expiresAt: int, used: bool)

  datatype AuthError = UnknownOrExpiredToken | ReuseDetected | SessionGone

  datatype Store = Store(sessions: map<SessionId, Session>, refresh: map<Token, Refresh>)

  function Issue(st: Store, s: Session, token: Token): Store {
    st.(refresh := st.refresh[token := Refresh(s.id, s.user, s.expiresAt, false)])
  }

  function Start(st: Store, user: User, now: int, ttl: int, id: SessionId, token: Token): (Store, Session) {
    var s := Session(id, user, now, now + ttl);
    (Issue(st.(sessions := st.sessions[id := s]), s, token), s)
  }

  /** Forget a session and every refresh record of its family. */
  function Revoke(st: Store, id: SessionId): Store {
    Store(st.sessions - {id}, map t | t in st.refresh && st.refresh[t].session != id :: st.refresh[t])
  }

  function Rotate(st: Store, token: Token, now: int, next: Token): (Store, Result<Session, AuthError>) {
    if token !in st.refresh || st.refresh[token].expiresAt <= now then (st, Err(UnknownOrExpiredToken))
    else
      var record := st.refresh[token];
      if record.used then (Revoke(st, record.session), Err(ReuseDetected))
      else if record.session !in st.sessions || st.sessions[record.session].expiresAt <= now then (st, Err(SessionGone))
      else
        var s := st.sessions[record.session];
        (Issue(st.(refresh := st.refresh[token := record.(used := true)]), s, next), Ok(s))
  }

  class SessionStore {
    var sessions: map<SessionId, Session>
    var refresh: map<Token, Refresh>

    constructor ()
      ensures View() == Store(map[], map[])
    {
      sessions, refresh := map[], map[];
    }

    function View(): Store
      reads this
    {
      Store(sessions, refresh)
    }

    method SaveSession(s: Session)
      modifies this`sessions
      ensures sessions == old(sessions)[s.id := s]
    {
      sessions := sessions[s.id := s];
    }

    method SaveRefresh(token: Token, record: Refresh)
      modifies this`refresh
      ensures refresh == old(refresh)[token := record]
    {
      refresh := refresh[token := record];
    }

    method DeleteSession(id: SessionId)
      modifies this`sessions
      ensures sessions == old(sessions) - {id}
    {
      sessions := sessions - {id};
    }

    method DeleteRefreshesForSession(id: SessionId)
      modifies this`refresh
      ensures refresh == Revoke(old(View()), id).refresh
    {
      ghost var before := refresh;
      var doomed := set t | t in refresh && refresh[t].session == id;
      while doomed != {}
        invariant refresh == map t | t in before && (before[t].session != id || t in doomed) :: before[t]
        invariant forall t :: t in doomed ==> t in before && before[t].session == id
      {
        var t :| t in doomed;
        refresh := refresh - {t};
        doomed := doomed - {t};
      }
    }
  }

  class SessionService {
    const store: SessionStore
    const ttl: int

    constructor (store: SessionStore, ttl: int)
      ensures this.store == store && this.ttl == ttl
    {
      this.store, this.ttl := store, ttl;
    }

    method IssueRefresh(s: Session, token: Token)
      modifies store
      ensures store.View() == Issue(old(store.View()), s, token)
    {
      store.SaveRefresh(token, Refresh(s.id, s.user, s.expiresAt, false));
    }

    method StartSession(user: User, now: int, id: SessionId, token: Token) returns (s: Session)
      modifies store
      ensures (store.View(), s) == Start(old(store.View()), user, now, ttl, id, token)
    {
      s := Session(id, user, now, now + ttl);
      store.SaveSession(s);
      IssueRefresh(s, token);
    }

    method RotateToken(token: Token, now: int, next: Token) returns (result: Result<Session, AuthError>)
      modifies store
      ensures (store.View(), result) == Rotate(old(store.View()), token, now, next)
    {
      if token !in store.refresh || store.refresh[token].expiresAt <= now {
        return Err(UnknownOrExpiredToken);
      }
      var record := store.refresh[token];
      if record.used {
        RevokeSession(record.session);
        return Err(ReuseDetected);
      }
      if record.session !in store.sessions || store.sessions[record.session].expiresAt <= now {
        return Err(SessionGone);
      }
      var s := store.sessions[record.session];
      store.SaveRefresh(token, record.(used := true));
      IssueRefresh(s, next);
      return Ok(s);
    }

    method RevokeSession(id: SessionId)
      modifies store
      ensures store.View() == Revoke(old(store.View()), id)
    {
      store.DeleteSession(id);
      store.DeleteRefreshesForSession(id);
    }
  }

  // ----- Whole runs

  datatype Call =
    | Login(user: User, now: int, ttl: int, id: SessionId, token: Token)
    | Exchange(presented: Token, now: int, next: Token)
    | Logout(id: SessionId)

  /**
   The store plus what has ever happened: sessions started, tokens issued with their family, each
   family's newest token.
   */
  datatype World = World(store: Store, started: map<SessionId, Session>, issued: map<Token, SessionId>,
                         newest: map<SessionId, Token>)

  const EMPTY_WORLD := World(Store(map[], map[]), map[], map[], map[])

  /** Names drawn at random have never been drawn before. */
  predicate Fresh(w: World, call: Call) {
    match call
    case Login(_, _, _, id, token) => id !in w.started && token !in w.issued
    case Exchange(_, _, next) => next !in w.issued
    case Logout(_) => true
  }

  function Step(w: World, call: Call): World {
    match call
    case Login(user, now, ttl, id, token) =>
      var (store, s) := Start(w.store, user, now, ttl, id, token);
      World(store, w.started[id := s], w.issued[token := id], w.newest[id := token])
    case Exchange(token, now, next) =>
      var (store, result) := Rotate(w.store, token, now, next);
      if result.Ok?
      then World(store, w.started, w.issued[next := result.value.id], w.newest[result.value.id := next])
      else w.(store := store)
    case Logout(id) => w.(store := Revoke(w.store, id))
  }

  predicate Succeeds(w: World, call: Call, token: Token) {
    call.Exchange? && call.presented == token && Rotate(w.store, token, call.now, call.next).1.Ok?
  }

  ghost predicate Possible(w: World, calls: seq<Call>)
    decreases |calls|
  {
    calls == [] || (Fresh(w, calls[0]) && Possible(Step(w, calls[0]), calls[1..]))
  }

  function Run(w: World, calls: seq<Call>): World
    decreases |calls|
  {
    if calls == [] then w else Run(Step(w, calls[0]), calls[1..])
  }

  /** How often a token is exchanged for a new one along a run. */
  function Exchanges(w: World, calls: seq<Call>, token: Token): nat
    decreases |calls|
  {
    if calls == [] then 0
    else (if Succeeds(w, calls[0], token) then 1 else 0) + Exchanges(Step(w, calls[0]), calls[1..], token)
  }

  ghost predicate Coherent(w: World) {
    && (forall id :: id in w.store.sessions ==> id in w.started && w.store.sessions[id] == w.started[id])
    && (forall id :: id in w.started ==> w.started[id].id == id)
    && (forall t :: t in w.store.refresh ==> t in w.issued && RecordFits(w, t))
    && (forall t :: t in w.issued ==> w.issued[t] in w.started)
    && OneLive(w)
  }

  /** Each stored session's newest token is its one unused record. */
  ghost predicate OneLive(w: World) {
    && (forall id :: id in w.store.sessions ==>
         id in w.newest && w.newest[id] in w.store.refresh
         && w.store.refresh[w.newest[id]].session == id && !w.store.refresh[w.newest[id]].used)
    && (forall t :: t in w.store.refresh && !w.store.refresh[t].used ==>
         w.store.refresh[t].session in w.newest && w.newest[w.store.refresh[t].session] == t)
  }

  /** A refresh record belongs to a stored session, with its user and expiry. */
  ghost predicate RecordFits(w: World, t: Token)
    requires t in w.store.refresh && t in w.issued
  {
    var r := w.store.refresh[t];
    && r.session in w.store.sessions && w.issued[t] == r.session
    && r.user == w.store.sessions[r.session].user && r.expiresAt == w.store.sessions[r.session].expiresAt
  }

  lemma LoginKeeps(w: World, call: Call)
    requires Coherent(w) && Fresh(w, call) && call.Login?
    ensures Coherent(Step(w, call))
  {
    var after := Step(w, call);
    forall t | t in after.store.refresh ensures t in after.issued && RecordFits(after, t) {
      if t != call.token {
        assert RecordFits(w, t);
      }
    }
    LoginOneLive(w, call);
  }

  lemma LoginOneLive(w: World, call: Call)
    requires Coherent(w) && Fresh(w, call) && call.Login?
    ensures OneLive(Step(w, call))
  {
    assert forall t :: t in w.store.refresh ==> RecordFits(w, t);
  }

  lemma RevokeKeeps(w: World, id: SessionId)
    requires Coherent(w)
    ensures Coherent(w.(store := Revoke(w.store, id)))
  {
    var after := w.(store := Revoke(w.store, id));
    forall t | t in after.store.refresh ensures t in after.issued && RecordFits(after, t) {
      assert RecordFits(w, t);
    }
  }

  lemma ExchangeKeeps(w: World, call: Call)
    requires Coherent(w) && Fresh(w, call) && call.Exchange?
    requires Succeeds(w, call, call.presented)
    ensures Coherent(Step(w, call))
  {
    var after := Step(w, call);
    forall t | t in after.store.refresh ensures t in after.issued && RecordFits(after, t) {
      assert RecordFits(w, call.presented);
      if t != call.next {
        assert RecordFits(w, t);
      }
    }
    assert w.newest[w.store.refresh[call.presented].session] == call.presented;
  }

  lemma StepKeeps(w: World, call: Call)
    requires Coherent(w) && Fresh(w, call)
    ensures Coherent(Step(w, call))
  {
    match call {
      case Login(_, _, _, _, _) => LoginKeeps(w, call);
      case Logout(id) => RevokeKeeps(w, id);
      case Exchange(token, _, _) =>
        if Succeeds(w, call, token) {
          ExchangeKeeps(w, call);
        } else if token in w.store.refresh {
          RevokeKeeps(w, w.store.refresh[token].session);
        }
    }
  }

  lemma {:induction false} RunKeeps(w: World, calls: seq<Call>)
    requires Coherent(w) && Possible(w, calls)
    ensures Coherent(Run(w, calls))
    decreases |calls|
  {
    if calls != [] {
      StepKeeps(w, calls[0]);
      RunKeeps(Step(w, calls[0]), calls[1..]);
    }
  }

  ghost predicate IsUnused(st: Store, t: Token, id: SessionId) {
    t in st.refresh && st.refresh[t].session == id && !st.refresh[t].used
  }

  /**
   In every reachable state each stored session has exactly one unused refresh record, and every
   record belongs to a stored session with the same user and expiry, which is the original one.
   */
  lemma OneLiveTokenPerSession(calls: seq<Call>)
    requires Possible(EMPTY_WORLD, calls)
    ensures var w := Run(EMPTY_WORLD, calls);
            && (forall id :: id in w.store.sessions ==> exists t :: IsUnused(w.store, t, id))
            && (forall id, t, u :: IsUnused(w.store, t, id) && IsUnused(w.store, u, id) ==> t == u)
            && (forall t :: t in w.store.refresh ==>
                 var r := w.store.refresh[t];
                 && r.session in w.store.sessions && r.session in w.started
                 && r.user == w.started[r.session].user && r.expiresAt == w.started[r.session].expiresAt)
  {
    RunKeeps(EMPTY_WORLD, calls);
    var w := Run(EMPTY_WORLD, calls);
    forall id | id in w.store.sessions ensures exists t :: IsUnused(w.store, t, id) {
      assert IsUnused(w.store, w.newest[id], id);
    }
    forall t | t in w.store.refresh
      ensures var r := w.store.refresh[t];
              r.session in w.store.sessions && r.session in w.started && r.user == w.started[r.session].user
                && r.expiresAt == w.started[r.session].expiresAt
    {
      assert RecordFits(w, t);
    }
  }

  /** A token that was exchanged, or whose record is gone, can never be exchanged (again). */
  ghost predicate Spent(w: World, t: Token) {
    t in w.issued && (t in w.store.refresh ==> w.store.refresh[t].used)
  }

  lemma {:induction false} SpentForever(w: World, calls: seq<Call>, t: Token)
    requires Possible(w, calls) && Spent(w, t)
    ensures Exchanges(w, calls, t) == 0
    decreases |calls|
  {
    if calls != [] {
      SpentForever(Step(w, calls[0]), calls[1..], t);
    }
  }

  /** Along every run, every token is exchanged at most once. */
  lemma {:induction false} ExchangedAtMostOnce(w: World, calls: seq<Call>, t: Token)
    requires Coherent(w) && Possible(w, calls)
    ensures Exchanges(w, calls, t) <= 1
    decreases |calls|
  {
    if calls != [] {
      StepKeeps(w, calls[0]);
      if Succeeds(w, calls[0], t) {
        SpentForever(Step(w, calls[0]), calls[1..], t);
      } else {
        ExchangedAtMostOnce(Step(w, calls[0]), calls[1..], t);
      }
    }
  }

  /** A family that was started and is no longer stored. */
  ghost predicate Closed(w: World, id: SessionId) { id in w.started && id !in w.store.sessions }

  /** A closed family stays closed, and no token ever issued for it is exchanged again. */
  lemma {:induction false} ClosedForever(w: World, calls: seq<Call>, id: SessionId, t: Token)
    requires Coherent(w) && Possible(w, calls) && Closed(w, id) && t in w.issued && w.issued[t] == id
    ensures Closed(Run(w, calls), id) && Exchanges(w, calls, t) == 0
    decreases |calls|
  {
    if calls != [] {
      StepKeeps(w, calls[0]);
      assert t !in w.store.refresh;
      ClosedForever(Step(w, calls[0]), calls[1..], id, t);
    }
  }

  // ----- Reuse detection

  /** No token of a stored family is ever forgotten. */
  ghost predicate Remembered(w: World) {
    forall t :: t in w.issued && w.issued[t] in w.store.sessions ==> t in w.store.refresh
  }

  lemma StepRemembers(w: World, call: Call)
    requires Coherent(w) && Remembered(w) && Fresh(w, call)
    ensures Remembered(Step(w, call))
  {
    var after := Step(w, call);
    forall t | t in after.issued && after.issued[t] in after.store.sessions ensures t in after.store.refresh {
      if t in w.issued {
        assert w.issued[t] in w.started;
        assert t in w.store.refresh ==> RecordFits(w, t);
      }
    }
  }

  lemma {:induction false} RunRemembers(w: World, calls: seq<Call>)
    requires Coherent(w) && Remembered(w) && Possible(w, calls)
    ensures Coherent(Run(w, calls)) && Remembered(Run(w, calls))
    decreases |calls|
  {
    if calls != [] {
      StepKeeps(w, calls[0]);
      StepRemembers(w, calls[0]);
      RunRemembers(Step(w, calls[0]), calls[1..]);
    }
  }

  /** The token was issued, its family is stored, and the family's original expiry has not come. */
  predicate Live(w: World, token: Token, now: int) {
    && token in w.issued && w.issued[token] in w.store.sessions
    && w.issued[token] in w.started && now < w.started[w.issued[token]].expiresAt
  }

  predicate IsNewest(w: World, token: Token) {
    token in w.issued && w.issued[token] in w.newest && w.newest[w.issued[token]] == token
  }

  lemma AnswerTable(w: World, token: Token, now: int, next: Token)
    requires Coherent(w) && Remembered(w)
    ensures var result := Rotate(w.store, token, now, next).1;
            && (result.Ok? <==> Live(w, token, now) && IsNewest(w, token))
            && (result == Err(ReuseDetected) <==> Live(w, token, now) && !IsNewest(w, token))
            && (result == Err(UnknownOrExpiredToken) <==> !Live(w, token, now))
            && (result.Ok? ==> result.value == w.started[w.issued[token]])
  {
    if token in w.store.refresh {
      assert RecordFits(w, token);
    }
  }

  /**
   What an exchange answers in every reachable state: it succeeds on the newest token of a live
   family, with the session as it was started; it detects reuse on every other token ever issued
   for a live family; everything else is unknown or expired, and nothing else is ever answered.
   */
  lemma ExchangeExact(calls: seq<Call>, token: Token, now: int, next: Token)
    requires Possible(EMPTY_WORLD, calls)
    ensures var w := Run(EMPTY_WORLD, calls);
            var result := Rotate(w.store, token, now, next).1;
            && (result.Ok? <==> Live(w, token, now) && IsNewest(w, token))
            && (result == Err(ReuseDetected) <==> Live(w, token, now) && !IsNewest(w, token))
            && (result == Err(UnknownOrExpiredToken) <==> !Live(w, token, now))
            && (result.Ok? ==> result.value == w.started[w.issued[token]])
  {
    RunRemembers(EMPTY_WORLD, calls);
    AnswerTable(Run(EMPTY_WORLD, calls), token, now, next);
  }

  /**
   A login starts a session of that user from now until the lifetime has passed, and its first token
   is good until then.
   */
  lemma LoginLasts(calls: seq<Call>, user: User, now: int, ttl: int, id: SessionId, token: Token, at: int, next: Token)
    requires Possible(EMPTY_WORLD, calls) && Fresh(Run(EMPTY_WORLD, calls), Login(user, now, ttl, id, token))
    ensures var (store, s) := Start(Run(EMPTY_WORLD, calls).store, user, now, ttl, id, token);
            && s == Session(id, user, now, now + ttl)
            && id in store.sessions && store.sessions[id] == s
            && (Rotate(store, token, at, next).1.Ok? <==> at < now + ttl)
            && (at < now + ttl ==> Rotate(store, token, at, next).1 == Ok(s))
  {
    var w, login := Run(EMPTY_WORLD, calls), Login(user, now, ttl, id, token);
    RunRemembers(EMPTY_WORLD, calls);
    StepKeeps(w, login);
    StepRemembers(w, login);
    AnswerTable(Step(w, login), token, at, next);
  }

  /** The token belongs to a family that has had a newer token since. */
  ghost predicate Superseded(w: World, token: Token, id: SessionId, s: Session) {
    && token in w.issued && w.issued[token] == id && !IsNewest(w, token)
    && id in w.started && w.started[id] == s
  }

  lemma {:induction false} SupersededForever(w: World, calls: seq<Call>, token: Token, id: SessionId, s: Session)
    requires Coherent(w) && Possible(w, calls) && Superseded(w, token, id, s)
    ensures Superseded(Run(w, calls), token, id, s)
    decreases |calls|
  {
    if calls != [] {
      StepKeeps(w, calls[0]);
      SupersededForever(Step(w, calls[0]), calls[1..], token, id, s);
    }
  }

  /** Nothing of the family is left, and every other session is as it was. */
  ghost predicate ClosesOnly(before: World, after: World, id: SessionId) {
    && Closed(after, id)
    && (forall t :: t in after.store.refresh ==> after.store.refresh[t].session != id)
    && after.store.sessions == before.store.sessions - {id}
  }

  /** Presenting a superseded token before the original expiry: what is answered, and that its family is closed. */
  lemma ReplayAnswer(w: World, token: Token, id: SessionId, s: Session, now: int, next: Token)
    requires Coherent(w) && Remembered(w) && Superseded(w, token, id, s) && now < s.expiresAt
    ensures var result := Rotate(w.store, token, now, next).1;
            result == Err(if id in w.store.sessions then ReuseDetected else UnknownOrExpiredToken)
    ensures ClosesOnly(w, Step(w, Exchange(token, now, next)), id)
  {
    AnswerTable(w, token, now, next);
    assert forall t :: t in w.store.refresh ==> RecordFits(w, t);
  }

  function Returned(w: World, call: Call): Session
    requires call.Exchange? && Succeeds(w, call, call.presented)
  {
    Rotate(w.store, call.presented, call.now, call.next).1.value
  }

  /**
   Reuse detection over whole runs: once a token was exchanged, whatever happens in between,
   presenting it again before the original expiry is detected as reuse if its family is still
   there, and finds nothing if it is not. Either way the family is closed afterwards, and
   nothing else is.
   */
  lemma ReplayClosesFamily(before: seq<Call>, exchange: Call, between: seq<Call>, now: int, next: Token)
    requires Possible(EMPTY_WORLD, before)
    requires var w := Run(EMPTY_WORLD, before);
             && exchange.Exchange? && Fresh(w, exchange) && Succeeds(w, exchange, exchange.presented)
             && Possible(Step(w, exchange), between) && now < Returned(w, exchange).expiresAt
    ensures var w, token := Run(EMPTY_WORLD, before), exchange.presented;
            var id, later := Returned(w, exchange).id, Run(Step(w, exchange), between);
            && Rotate(later.store, token, now, next).1
               == Err(if id in later.store.sessions then ReuseDetected else UnknownOrExpiredToken)
            && ClosesOnly(later, Step(later, Exchange(token, now, next)), id)
  {
    var w, token := Run(EMPTY_WORLD, before), exchange.presented;
    RunRemembers(EMPTY_WORLD, before);
    AnswerTable(w, token, exchange.now, exchange.next);
    var s := Returned(w, exchange);
    StepKeeps(w, exchange);
    StepRemembers(w, exchange);
    assert Superseded(Step(w, exchange), token, s.id, s);
    SupersededForever(Step(w, exchange), between, token, s.id, s);
    RunRemembers(Step(w, exchange), between);
    ReplayAnswer(Run(Step(w, exchange), between), token, s.id, s, now, next);
  }
}
