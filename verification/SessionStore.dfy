/** The session map: sliding expiry under one mutex. */
module SessionStore {
  import opened Common

  const DEFAULT_SESSION_TTL := 15 * 60 * SECOND

  datatype Session = Session(email: string, token: string, tokenExpiresAt: Time, createdAt: Time, expiresAt: Time,
                             ttl: int)

  type Sessions = map<string, Session>

  datatype Error = MissingEmail | MissingToken | InvalidTokenExpiry | SessionNotFound

  predicate ExpiredAt(s: Session, now: Time) { s.expiresAt == 0 || s.expiresAt <= now }

  function Created(m: Sessions, defaultTtl: int, id: string, email: string, ttl: int, now: Time): (r: Sessions) {
    if email == "" then m else
      var window := if ttl <= 0 then defaultTtl else ttl;
      m[id := Session(email, "", 0, now, now + window, window)]
  }

  /** After `Get`: a session found expired is dropped. */
  function Seen(m: Sessions, id: string, now: Time): (r: Sessions) {
    if id in m && ExpiredAt(m[id], now) then m - {id} else m
  }

  function Found(m: Sessions, id: string, now: Time): (r: Option<Session>) {
    if id in m && !ExpiredAt(m[id], now) then Some(m[id]) else None
  }

  predicate UsableToken(token: string, tokenExpiresAt: Time, now: Time) {
    token != "" && tokenExpiresAt != 0 && tokenExpiresAt > now
  }

  function Refreshed(m: Sessions, defaultTtl: int, id: string, token: string, tokenExpiresAt: Time, now: Time):
    (r: Sessions) {
    if !UsableToken(token, tokenExpiresAt, now) || id !in m then m
    else if ExpiredAt(m[id], now) then m - {id}
    else
      var window := if m[id].ttl <= 0 then defaultTtl else m[id].ttl;
      m[id := m[id].(token := token, tokenExpiresAt := tokenExpiresAt, expiresAt := now + window)]
  }

  function RefreshError(m: Sessions, id: string, token: string, tokenExpiresAt: Time, now: Time): (r: Option<Error>) {
    if token == "" then Some(MissingToken)
    else if !UsableToken(token, tokenExpiresAt, now) then Some(InvalidTokenExpiry)
    else if id !in m || ExpiredAt(m[id], now) then Some(SessionNotFound)
    else None
  }

  /** There, and its deadline is set and ahead. */
  predicate Alive(m: Sessions, id: string, now: Time) { id in m && m[id].expiresAt != 0 && now < m[id].expiresAt }

  class Store {
    var sessions: Sessions
    const defaultTtl: int

    ghost predicate Valid() { defaultTtl > 0 }

    constructor (ttl: int)
      ensures Valid() && sessions == map[] && defaultTtl == if ttl <= 0 then DEFAULT_SESSION_TTL else ttl
    {
      sessions := map[];
      defaultTtl := if ttl <= 0 then DEFAULT_SESSION_TTL else ttl;
    }

    /** `CreateWithTTL`; `id` is the freshly generated session id. */
    method CreateWithTTL(email: string, ttl: int, id: string, now: Time) returns (err: Option<Error>)
      modifies this`sessions
      ensures sessions == Created(old(sessions), defaultTtl, id, email, ttl, now)
      ensures err == if email == "" then Some(MissingEmail) else None
      ensures email == "" ==> sessions == old(sessions)
      ensures email != "" ==>
                var window := if ttl > 0 then ttl else defaultTtl;
                sessions == old(sessions)[id := Session(email, "", 0, now, now + window, window)]
    {
      if email == "" { return Some(MissingEmail); }
      var window := ttl;
      if window <= 0 { window := defaultTtl; }
      sessions := sessions[id := Session(email, "", 0, now, now + window, window)];
      return None;
    }

    method Get(id: string, now: Time) returns (s: Option<Session>)
      modifies this`sessions
      ensures sessions == Seen(old(sessions), id, now) && s == Found(old(sessions), id, now)
      ensures s == if Alive(old(sessions), id, now) then Some(old(sessions)[id]) else None
      ensures sessions == if s.Some? then old(sessions) else old(sessions) - {id}
    {
      if id !in sessions { return None; }
      if ExpiredAt(sessions[id], now) {
        sessions := sessions - {id};
        return None;
      }
      return Some(sessions[id]);
    }

    method Delete(id: string)
      modifies this`sessions
      ensures sessions == old(sessions) - {id}
    {
      sessions := sessions - {id};
    }

    method Refresh(id: string, token: string, tokenExpiresAt: Time, now: Time) returns (err: Option<Error>)
      modifies this`sessions
      ensures sessions == Refreshed(old(sessions), defaultTtl, id, token, tokenExpiresAt, now)
      ensures err == RefreshError(old(sessions), id, token, tokenExpiresAt, now)
      ensures err.None? <==> token != "" && tokenExpiresAt != 0 && tokenExpiresAt > now && Alive(old(sessions), id, now)
      ensures err.None? ==>
                var was := old(sessions)[id];
                var window := if was.ttl > 0 then was.ttl else defaultTtl;
                sessions == old(sessions)[id :=
                  was.(token := token, tokenExpiresAt := tokenExpiresAt, expiresAt := now + window)]
      ensures err == Some(MissingToken) <==> token == ""
      ensures err == Some(SessionNotFound) ==> sessions == old(sessions) - {id}
      ensures err in {Some(MissingToken), Some(InvalidTokenExpiry)} ==> sessions == old(sessions)
    {
      if token == "" { return Some(MissingToken); }
      if tokenExpiresAt == 0 || !(tokenExpiresAt > now) { return Some(InvalidTokenExpiry); }
      if id !in sessions { return Some(SessionNotFound); }
      var session := sessions[id];
      if ExpiredAt(session, now) {
        sessions := sessions - {id};
        return Some(SessionNotFound);
      }
      var window := session.ttl;
      if window <= 0 { window := defaultTtl; }
      session := session.(token := token, tokenExpiresAt := tokenExpiresAt);
      session := session.(expiresAt := now + window);
      sessions := sessions[id := session];
      return None;
    }
  }

  // ---------------------------------------------------------------- the history law

  datatype Op =
    | Create(id: string, email: string, ttl: int, at: Time)
    | Get(id: string, at: Time)
    | Delete(id: string, at: Time)
    | Refresh(id: string, token: string, tokenExpiresAt: Time, at: Time)

  function Step(m: Sessions, defaultTtl: int, op: Op): (r: Sessions) {
    match op
    case Create(id, email, ttl, at) => Created(m, defaultTtl, id, email, ttl, at)
    case Get(id, at) => Seen(m, id, at)
    case Delete(id, _) => m - {id}
    case Refresh(id, token, expiry, at) => Refreshed(m, defaultTtl, id, token, expiry, at)
  }

  function Run(defaultTtl: int, ops: seq<Op>): (m: Sessions) {
    if ops == [] then map[] else Step(Run(defaultTtl, ops[..|ops| - 1]), defaultTtl, ops[|ops| - 1])
  }

  /** The clock never runs backwards, and a generated session id never repeats. */
  ghost predicate Plausible(ops: seq<Op>) {
    && (forall i :: 0 <= i < |ops| ==> ops[i].at > 0)
    && (forall i, j :: 0 <= i < j < |ops| ==> ops[i].at <= ops[j].at)
    && (forall i, j :: 0 <= i < j < |ops| && ops[i].Create? && ops[j].Create? ==> ops[i].id != ops[j].id)
  }

  predicate Opens(op: Op, id: string) { op.Create? && op.id == id && op.email != "" }

  predicate Touches(op: Op, id: string) {
    op.Refresh? && op.id == id && UsableToken(op.token, op.tokenExpiresAt, op.at)
  }

  /** When the session was created and then asked to be kept alive, whether or not that succeeded. */
  function TouchTimes(ops: seq<Op>, id: string): (ts: seq<Time>) {
    if ops == [] then [] else
      var before, op := TouchTimes(ops[..|ops| - 1], id), ops[|ops| - 1];
      if Opens(op, id) then [op.at]
      else if before != [] && Touches(op, id) then before + [op.at]
      else before
  }

  function Window(ops: seq<Op>, defaultTtl: int, id: string): (ttl: int) {
    if ops == [] then defaultTtl
    else if Opens(ops[|ops| - 1], id) then (if ops[|ops| - 1].ttl <= 0 then defaultTtl else ops[|ops| - 1].ttl)
    else Window(ops[..|ops| - 1], defaultTtl, id)
  }

  ghost predicate Revoked(ops: seq<Op>, id: string) {
    exists i, j :: 0 <= i < j < |ops| && Opens(ops[i], id) && ops[j].Delete? && ops[j].id == id
  }

  ghost predicate NoGap(ts: seq<Time>, ttl: int) {
    forall i :: 0 < i < |ts| ==> ts[i] - ts[i - 1] < ttl
  }

  /** Created, never deleted, and every gap between creation, the refreshes and `t` below the window. */
  ghost predicate Live(ops: seq<Op>, defaultTtl: int, id: string, t: Time) {
    && TouchTimes(ops, id) != []
    && !Revoked(ops, id)
    && NoGap(TouchTimes(ops, id) + [t], Window(ops, defaultTtl, id))
  }

  /** What the stored entry of one id says about its touches, the last instant anything happened at
      being `last`. */
  ghost predicate Reflects(entry: Option<Session>, ts: seq<Time>, revoked: bool, ttl: int, last: Time) {
    if entry.Some? then
      ts != [] && !revoked && NoGap(ts, ttl) && entry.value.ttl == ttl && ttl > 0
      && entry.value.expiresAt == ts[|ts| - 1] + ttl && entry.value.expiresAt > 0
    else
      ts == [] || revoked || !NoGap(ts, ttl) || last - ts[|ts| - 1] >= ttl
  }

  function Entry(m: Sessions, id: string): Option<Session> { if id in m then Some(m[id]) else None }

  ghost predicate StoreReflects(ops: seq<Op>, defaultTtl: int, id: string) {
    Reflects(Entry(Run(defaultTtl, ops), id), TouchTimes(ops, id), Revoked(ops, id), Window(ops, defaultTtl, id),
             if ops == [] then 0 else ops[|ops| - 1].at)
  }

  lemma RevokedGrows(ops: seq<Op>, id: string)
    requires ops != []
    ensures Revoked(ops, id) <==>
            || Revoked(ops[..|ops| - 1], id)
            || (ops[|ops| - 1].Delete? && ops[|ops| - 1].id == id
                && exists i :: 0 <= i < |ops| - 1 && Opens(ops[i], id))
  {
    var init := ops[..|ops| - 1];
    if Revoked(init, id) {
      var i, j :| 0 <= i < j < |init| && Opens(init[i], id) && init[j].Delete? && init[j].id == id;
      assert Opens(ops[i], id) && ops[j].Delete? && ops[j].id == id;
    }
    if Revoked(ops, id) {
      var i, j :| 0 <= i < j < |ops| && Opens(ops[i], id) && ops[j].Delete? && ops[j].id == id;
      if j < |init| { assert Opens(init[i], id) && init[j].Delete? && init[j].id == id; }
    }
  }

  /** Touch times exist exactly when the session was opened. */
  lemma {:induction false} TouchedIffOpened(ops: seq<Op>, id: string)
    ensures TouchTimes(ops, id) != [] <==> exists i :: 0 <= i < |ops| && Opens(ops[i], id)
  {
    if ops != [] {
      var init := ops[..|ops| - 1];
      TouchedIffOpened(init, id);
      if i :| 0 <= i < |ops| && Opens(ops[i], id) && i < |init| { assert Opens(init[i], id); }
      if i :| 0 <= i < |init| && Opens(init[i], id) { assert Opens(ops[i], id); }
    }
  }

  lemma OneMoreGap(ts: seq<Time>, ttl: int, x: Time)
    requires ts != []
    ensures NoGap(ts + [x], ttl) <==> NoGap(ts, ttl) && x - ts[|ts| - 1] < ttl
  {
    var a := ts + [x];
    assert forall i :: 0 <= i < |ts| ==> a[i] == ts[i];
    if NoGap(a, ttl) {
      forall i | 0 < i < |ts| ensures ts[i] - ts[i - 1] < ttl { assert a[i] - a[i - 1] < ttl; }
      assert a[|ts|] - a[|ts| - 1] < ttl;
    }
  }

  /** A refresh attempt moves entry and history on together. */
  lemma TouchReflects(m: Sessions, defaultTtl: int, id: string, op: Op, ts: seq<Time>, revoked: bool, ttl: int,
                      last: Time)
    requires Reflects(Entry(m, id), ts, revoked, ttl, last) && Touches(op, id) && ts != [] && last <= op.at && op.at > 0
    ensures Reflects(Entry(Step(m, defaultTtl, op), id), ts + [op.at], revoked, ttl, op.at)
  {
    OneMoreGap(ts, ttl, op.at);
  }

  lemma {:induction false} HistoryIsReflected(ops: seq<Op>, defaultTtl: int, id: string)
    requires defaultTtl > 0 && Plausible(ops)
    ensures StoreReflects(ops, defaultTtl, id)
  {
    if ops != [] {
      var init, op := ops[..|ops| - 1], ops[|ops| - 1];
      HistoryIsReflected(init, defaultTtl, id);
      RevokedGrows(ops, id);
      TouchedIffOpened(init, id);
      var m, ts := Run(defaultTtl, init), TouchTimes(init, id);
      if Opens(op, id) {
        NeverOpenedBefore(ops, id);
      } else if ts != [] && Touches(op, id) {
        TouchReflects(m, defaultTtl, id, op, ts, Revoked(init, id), Window(init, defaultTtl, id),
                      if init == [] then 0 else init[|init| - 1].at);
      }
    }
  }

  lemma NeverOpenedBefore(ops: seq<Op>, id: string)
    requires Plausible(ops) && ops != [] && Opens(ops[|ops| - 1], id)
    ensures !Revoked(ops, id)
  {
    assert forall i :: 0 <= i < |ops| - 1 ==> !Opens(ops[i], id);
  }

  /** `SessionStore` refines its history: at any later instant a lookup finds the session exactly when it
      is live, and the stored expiry is its last successful touch plus its own window. */
  lemma SessionHistoryLaw(ops: seq<Op>, defaultTtl: int, id: string, t: Time)
    requires defaultTtl > 0 && Plausible(ops)
    requires ops != [] ==> t >= ops[|ops| - 1].at
    ensures Found(Run(defaultTtl, ops), id, t).Some? <==> Live(ops, defaultTtl, id, t)
    ensures var m, ts := Run(defaultTtl, ops), TouchTimes(ops, id);
            id in m ==> ts != [] && m[id].expiresAt == ts[|ts| - 1] + Window(ops, defaultTtl, id)
  {
    HistoryIsReflected(ops, defaultTtl, id);
    var ts := TouchTimes(ops, id);
    if ts != [] { OneMoreGap(ts, Window(ops, defaultTtl, id), t); }
  }
}
