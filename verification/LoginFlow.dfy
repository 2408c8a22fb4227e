/** `LoginFlow`: the session map and the identity map sit behind two different mutexes, and minting a
    token spans a network call between two lock sections. The machine below takes one lock section, one
    clock reading or one network answer per step, with any number of calls in flight. */
module LoginFlow {
  import opened Common
  import opened SessionStore

  datatype Identity = Identity(email: string, userSpace: string, namespace: string, role: string,
                               onboardingPending: bool, localLogin: bool)

  datatype Kind = Mint | Logout | Query

  datatype Result = Token(token: string) | LoggedOut | Known(identity: Identity) | Refused

  /** Where a call stands. Each constructor names the next thing it will do. */
  datatype Pc =
    | StoreIdentity(identity: Identity)  // login: the session exists, its identity does not yet
    | LookUp                             // sessionIdentity: SessionStore.Get
    | DropIdentity                       // ... and its clean-up after a miss, or after a failed refresh
    | ReadIdentity                       // sessionIdentity: the identity map
    | AwaitMint                          // the TokenRequest call, then Refresh's clock reading
    | RefreshSession(token: string, expiry: Time, now: Time)
    | DeleteSession                      // Logout
    | ForgetIdentity                     // Logout
    | Return(result: Result)

  datatype Call = Call(kind: Kind, id: string, pc: Pc)

  datatype State = State(sessions: Sessions, identities: map<string, Identity>, issued: set<string>,
                         calls: map<nat, Call>)

  /** What the environment supplies to a step: a clock reading, and the answer of the token minter. */
  datatype Env = Env(now: Time, minted: Option<(string, Time)>)

  datatype Event =
    | Login(call: nat, id: string, email: string, ttl: int, now: Time, identity: Identity)
    | Begin(call: nat, kind: Kind, id: string)
    | Advance(call: nat, env: Env)
    | Onboard(id: string)

  /** One step; an event that is not enabled changes nothing. `Login` is the `CreateWithTTL` section at
      the end of either login path: the id is random, so never one issued before. */
  function Step(s: State, e: Event, defaultTtl: int): (r: State) {
    match e
    case Login(c, id, email, ttl, now, identity) =>
      if c in s.calls || id in s.issued || email == "" then s else
        State(Created(s.sessions, defaultTtl, id, email, ttl, now), s.identities, s.issued + {id},
              s.calls[c := Call(Query, id, StoreIdentity(identity))])
    case Begin(c, kind, id) =>
      if c in s.calls then s else s.(calls := s.calls[c := Call(kind, id, LookUp)])
    case Advance(c, env) =>
      if c !in s.calls then s else Resume(s, c, env, defaultTtl)
    case Onboard(id) =>
      if id !in s.identities then s else
        s.(identities := s.identities[id := s.identities[id].(onboardingPending := false)])
  }

  function Resume(s: State, c: nat, env: Env, defaultTtl: int): (r: State)
    requires c in s.calls
  {
    var call := s.calls[c];
    var id := call.id;
    match call.pc
    case StoreIdentity(identity) =>
      s.(identities := s.identities[id := identity], calls := s.calls[c := call.(pc := Return(Known(identity)))])
    case LookUp =>
      s.(sessions := Seen(s.sessions, id, env.now),
         calls := var next := if Found(s.sessions, id, env.now).Some? then ReadIdentity else DropIdentity;
                  s.calls[c := call.(pc := next)])
    case DropIdentity =>
      s.(identities := s.identities - {id}, calls := s.calls[c := call.(pc := Return(Refused))])
    case ReadIdentity =>
      var next := if id !in s.identities then Return(Refused) else
                    match call.kind
                    case Mint => AwaitMint
                    case Logout => DeleteSession
                    case Query => Return(Known(s.identities[id]));
      s.(calls := s.calls[c := call.(pc := next)])
    case AwaitMint =>
      var next := if env.minted.None? then Return(Refused)
                  else RefreshSession(env.minted.value.0, env.minted.value.1, env.now);
      s.(calls := s.calls[c := call.(pc := next)])
    case RefreshSession(token, expiry, now) =>
      var ok := RefreshError(s.sessions, id, token, expiry, now).None?;
      s.(sessions := Refreshed(s.sessions, defaultTtl, id, token, expiry, now),
         calls := s.calls[c := call.(pc := if ok then Return(Token(token)) else DropIdentity)])
    case DeleteSession =>
      s.(sessions := s.sessions - {id}, calls := s.calls[c := call.(pc := ForgetIdentity)])
    case ForgetIdentity =>
      s.(identities := s.identities - {id}, calls := s.calls[c := call.(pc := Return(LoggedOut))])
    case Return(_) => s
  }

  function Run(s: State, es: seq<Event>, defaultTtl: int): (r: State) {
    if es == [] then s else Step(Run(s, es[..|es| - 1], defaultTtl), es[|es| - 1], defaultTtl)
  }

  ghost predicate Storing(s: State, c: nat, id: string) {
    c in s.calls && s.calls[c].id == id && s.calls[c].pc.StoreIdentity?
  }

  /** A session that existed and is gone. */
  predicate Dead(s: State, id: string) { id in s.issued && id !in s.sessions }

  ghost predicate OnlyIssuedStored(s: State) {
    s.sessions.Keys <= s.issued && s.identities.Keys <= s.issued
  }

  ghost predicate StoredOnce(s: State) {
    && (forall c, id :: Storing(s, c, id) ==> id in s.issued && id !in s.identities)
    && (forall c, d, id :: Storing(s, c, id) && Storing(s, d, id) ==> c == d)
  }

  predicate CallInOrder(s: State, call: Call) {
    && (call.pc.ReadIdentity? || call.pc.DeleteSession? ==> call.id in s.issued)
    && (call.pc.ForgetIdentity? || call.pc == Return(LoggedOut) ==> Dead(s, call.id))
  }

  /** The bookkeeping every interleaving keeps: only issued ids are ever stored, each identity is stored
      at most once, and a logout past its delete section has left no session. */
  ghost predicate Inv(s: State) {
    OnlyIssuedStored(s) && StoredOnce(s) && forall c :: c in s.calls ==> CallInOrder(s, s.calls[c])
  }

  lemma StoringComesFrom(s: State, e: Event, defaultTtl: int, c: nat, id: string)
    requires Storing(Step(s, e, defaultTtl), c, id)
    ensures || (Storing(s, c, id) && !(e.Advance? && e.call == c))
            || (e.Login? && e.call == c && e.id == id && id !in s.issued)
    ensures e.Login? && e.call == c && e.id == id && id !in s.issued ==>
        Step(s, e, defaultTtl).identities == s.identities
  {
  }

  lemma StepStoresIssued(s: State, e: Event, defaultTtl: int)
    requires OnlyIssuedStored(s) && StoredOnce(s)
    ensures OnlyIssuedStored(Step(s, e, defaultTtl)) && s.issued <= Step(s, e, defaultTtl).issued
  {
    if e.Advance? && e.call in s.calls && s.calls[e.call].pc.StoreIdentity? {
      assert Storing(s, e.call, s.calls[e.call].id);
    }
  }

  lemma StepStoresOnce(s: State, e: Event, defaultTtl: int)
    requires OnlyIssuedStored(s) && StoredOnce(s)
    ensures StoredOnce(Step(s, e, defaultTtl))
  {
    var r := Step(s, e, defaultTtl);
    forall c, id | Storing(r, c, id) ensures id in r.issued && id !in r.identities {
      StoringComesFrom(s, e, defaultTtl, c, id);
      assert id in r.identities && id !in s.identities ==> e.Advance? && Storing(s, e.call, id);
    }
    forall c, d, id | Storing(r, c, id) && Storing(r, d, id) ensures c == d {
      StoringComesFrom(s, e, defaultTtl, c, id);
      StoringComesFrom(s, e, defaultTtl, d, id);
    }
  }

  lemma StepKeepsInv(s: State, e: Event, defaultTtl: int)
    requires Inv(s)
    ensures Inv(Step(s, e, defaultTtl))
  {
    StepStoresIssued(s, e, defaultTtl);
    StepStoresOnce(s, e, defaultTtl);
    var r := Step(s, e, defaultTtl);
    forall c | c in r.calls ensures CallInOrder(r, r.calls[c]) {
      if c in s.calls { assert CallInOrder(s, s.calls[c]); }
    }
  }

  lemma {:induction false} EveryRunKeepsInv(s: State, es: seq<Event>, defaultTtl: int)
    requires Inv(s)
    ensures Inv(Run(s, es, defaultTtl))
  {
    if es != [] {
      EveryRunKeepsInv(s, es[..|es| - 1], defaultTtl);
      StepKeepsInv(Run(s, es[..|es| - 1], defaultTtl), es[|es| - 1], defaultTtl);
    }
  }

  /** A session id once removed never comes back, whatever is in flight. */
  lemma {:induction false} RemovedStaysRemoved(s: State, es: seq<Event>, defaultTtl: int, id: string)
    requires Dead(s, id)
    ensures Dead(Run(s, es, defaultTtl), id)
  {
    if es != [] {
      RemovedStaysRemoved(s, es[..|es| - 1], defaultTtl, id);
    }
  }

  predicate Hopeless(pc: Pc) { pc.LookUp? || pc.DropIdentity? || pc == Return(Refused) }

  /** Calls on a dead session that had not begun when it died. */
  ghost predicate LateCallsFail(s: State, later: State, id: string) {
    forall c :: c in later.calls && c !in s.calls && later.calls[c].id == id ==> Hopeless(later.calls[c].pc)
  }

  lemma HopelessStays(s: State, c: nat, env: Env, defaultTtl: int)
    requires c in s.calls && Hopeless(s.calls[c].pc) && s.calls[c].id !in s.sessions
    ensures var r := Resume(s, c, env, defaultTtl);
            r.calls.Keys == s.calls.Keys && Hopeless(r.calls[c].pc) && forall d :: d in s.calls && d != c ==>
                r.calls[d] == s.calls[d]
  {
  }

  lemma OthersStay(s: State, c: nat, env: Env, defaultTtl: int)
    requires c in s.calls
    ensures var r := Resume(s, c, env, defaultTtl);
            && r.calls.Keys == s.calls.Keys && r.calls[c].id == s.calls[c].id
            && forall d :: d in s.calls && d != c ==> r.calls[d] == s.calls[d]
  {
  }

  lemma LateCallsKeepFailing(s: State, mid: State, e: Event, defaultTtl: int, id: string)
    requires Dead(mid, id) && LateCallsFail(s, mid, id)
    ensures LateCallsFail(s, Step(mid, e, defaultTtl), id)
  {
    if e.Advance? && e.call in mid.calls {
      OthersStay(mid, e.call, e.env, defaultTtl);
      if e.call !in s.calls && mid.calls[e.call].id == id { HopelessStays(mid, e.call, e.env, defaultTtl); }
    }
  }

  /** Once `Logout` has returned, every call begun afterwards on that session is refused: no token, no
      identity, no second logout. */
  lemma {:induction false} NothingAfterLogout(s: State, es: seq<Event>, defaultTtl: int, logout: nat)
    requires Inv(s) && logout in s.calls && s.calls[logout].pc == Return(LoggedOut)
    ensures var id := s.calls[logout].id;
            Dead(Run(s, es, defaultTtl), id) && LateCallsFail(s, Run(s, es, defaultTtl), id)
  {
    var id := s.calls[logout].id;
    assert Dead(s, id) by { assert CallInOrder(s, s.calls[logout]); }
    if es != [] {
      NothingAfterLogout(s, es[..|es| - 1], defaultTtl, logout);
      LateCallsKeepFailing(s, Run(s, es[..|es| - 1], defaultTtl), es[|es| - 1], defaultTtl, id);
      RemovedStaysRemoved(s, es, defaultTtl, id);
    }
  }

  /** A token leaves `MintTokenForSession` only in a step that found the session present and unexpired,
      and that step stores the very token and slides the expiry. */
  lemma TokenNeedsLiveSession(s: State, e: Event, defaultTtl: int, c: nat)
    requires defaultTtl > 0
    requires var r := Step(s, e, defaultTtl); c in r.calls && r.calls[c].pc.Return? && r.calls[c].pc.result.Token?
    requires c in s.calls && !s.calls[c].pc.Return?
    ensures var r, id := Step(s, e, defaultTtl), s.calls[c].id;
            && s.calls[c].pc.RefreshSession?
            && Found(s.sessions, id, s.calls[c].pc.now).Some?
            && id in r.sessions
            && r.sessions[id].token == r.calls[c].pc.result.token
            && r.sessions[id].expiresAt > s.calls[c].pc.now
            && r.sessions[id].(token := "", tokenExpiresAt := 0, expiresAt := 0)
               == s.sessions[id].(token := "", tokenExpiresAt := 0, expiresAt := 0)
            && r.identities == s.identities
  {
  }

  /** `b` is `a`, except that onboarding may have been completed. */
  predicate SamePerson(a: Identity, b: Identity) {
    b == a || b == a.(onboardingPending := false)
  }

  /** What is true of `id` once the identity `was` has been stored for it. */
  ghost predicate Settled(s: State, id: string, was: Identity) {
    && id in s.issued
    && (forall c :: !Storing(s, c, id))
    && (id in s.identities ==> SamePerson(was, s.identities[id]))
  }

  lemma StepKeepsSettled(s: State, e: Event, defaultTtl: int, id: string, was: Identity)
    requires Settled(s, id, was)
    ensures Settled(Step(s, e, defaultTtl), id, was)
  {
    var r := Step(s, e, defaultTtl);
    forall c ensures !Storing(r, c, id) {
      if Storing(r, c, id) { StoringComesFrom(s, e, defaultTtl, c, id); }
    }
    if e.Advance? { assert !Storing(s, e.call, id); }
  }

  /** A stored identity never changes except that `OnboardingPending` goes from true to false, and once
      removed it is not stored again. */
  lemma {:induction false} IdentityIsStable(s: State, es: seq<Event>, defaultTtl: int, id: string)
    requires Inv(s) && id in s.identities
    ensures Settled(Run(s, es, defaultTtl), id, s.identities[id])
  {
    if es != [] {
      IdentityIsStable(s, es[..|es| - 1], defaultTtl, id);
      StepKeepsSettled(Run(s, es[..|es| - 1], defaultTtl), es[|es| - 1], defaultTtl, id, s.identities[id]);
    }
  }

  // ---------------------------------------------------------------- what a call's own steps lead to

  ghost predicate At(s: State, c: nat, kind: Kind, id: string,
                     pc: Pc) { c in s.calls && s.calls[c] == Call(kind, id, pc) }

  /** The lookup goes on exactly with a live session; with its identity stored, the call then does what it was
      made for. */
  lemma LookupLeads(s: State, c: nat, kind: Kind, id: string, env: Env, defaultTtl: int)
    ensures At(s, c, kind, id, LookUp) ==>
              var r := Step(s, Advance(c, env), defaultTtl);
              if Alive(s.sessions, id, env.now) then At(r, c, kind, id, ReadIdentity) && r.sessions == s.sessions
              else At(r, c, kind, id, DropIdentity) && r.sessions == s.sessions - {id}
    ensures At(s, c, kind, id, ReadIdentity) ==>
              var r := Step(s, Advance(c, env), defaultTtl);
              && r.sessions == s.sessions && r.identities == s.identities
              && if id !in s.identities then At(r, c, kind, id, Return(Refused))
                 else if kind.Logout? then At(r, c, kind, id, DeleteSession)
                 else if kind.Mint? then At(r, c, kind, id, AwaitMint)
                 else At(r, c, kind, id, Return(Known(s.identities[id])))
  {
  }

  /** A call that missed its session forgets the identity and is refused; so is one the minter gives nothing. */
  lemma MissLeads(s: State, c: nat, kind: Kind, id: string, env: Env, defaultTtl: int)
    ensures At(s, c, kind, id, DropIdentity) ==>
              var r := Step(s, Advance(c, env), defaultTtl);
              At(r, c, kind, id, Return(Refused)) && r.identities == s.identities - {id} && r.sessions == s.sessions
    ensures At(s, c, kind, id, AwaitMint) && env.minted.None? ==>
              var r := Step(s, Advance(c, env), defaultTtl);
              At(r, c, kind, id, Return(Refused)) && r.identities == s.identities && r.sessions == s.sessions
  {
  }

  /** A logout that found its identity stored has, three steps of its own later, returned, and session and
      identity are gone. */
  lemma LogoutLeads(s: State, c: nat, id: string, env: Env, defaultTtl: int)
    requires At(s, c, Kind.Logout, id, ReadIdentity) && id in s.identities
    ensures var r := Step(Step(Step(s, Advance(c, env), defaultTtl), Advance(c, env), defaultTtl), Advance(c, env),
                          defaultTtl);
            && At(r, c, Kind.Logout, id, Return(LoggedOut))
            && r.sessions == s.sessions - {id} && r.identities == s.identities - {id}
  {
    LookupLeads(s, c, Kind.Logout, id, env, defaultTtl);
  }

  /** A minting call that found its identity stored has, three steps of its own later, returned the minted token
      exactly if there was one, it is usable and the session still alive; and the token is stored. */
  lemma MintLeads(s: State, c: nat, id: string, env: Env, defaultTtl: int)
    requires At(s, c, Mint, id, ReadIdentity) && id in s.identities && env.minted.Some?
    ensures var r := Step(Step(Step(s, Advance(c, env), defaultTtl), Advance(c, env), defaultTtl), Advance(c, env),
                          defaultTtl);
            var (token, expiry) := env.minted.value;
            && (At(r, c, Mint, id, Return(Token(token))) <==>
                  token != "" && expiry != 0 && expiry > env.now && Alive(s.sessions, id, env.now))
            && (At(r, c, Mint, id, Return(Token(token))) ==> id in r.sessions && r.sessions[id].token == token)
            && (!At(r, c, Mint, id, Return(Token(token))) ==> At(r, c, Mint, id, DropIdentity))
  {
    LookupLeads(s, c, Mint, id, env, defaultTtl);
  }

  /** A login stores its session and, one step of its own later, its identity. */
  lemma LoginLeads(s: State, e: Event, env: Env, defaultTtl: int)
    requires e.Login? && e.call !in s.calls && e.id !in s.issued && e.email != ""
    ensures var r := Step(Step(s, e, defaultTtl), Advance(e.call, env), defaultTtl);
            var window := if e.ttl > 0 then e.ttl else defaultTtl;
            && r.sessions == s.sessions[e.id := Session(e.email, "", 0, e.now, e.now + window, window)]
            && r.identities == s.identities[e.id := e.identity]
            && At(r, e.call, Query, e.id, Return(Known(e.identity)))
  {
  }

  /** Completing onboarding clears the flag of that identity, and nothing else changes. */
  lemma OnboardLeads(s: State, id: string, defaultTtl: int)
    ensures var r := Step(s, Onboard(id), defaultTtl);
            && r.identities.Keys == s.identities.Keys && r.sessions == s.sessions && r.calls == s.calls
            && (forall k :: k in s.identities && k != id ==> r.identities[k] == s.identities[k])
            && (id in s.identities ==>
                  !r.identities[id].onboardingPending && SamePerson(s.identities[id], r.identities[id]))
  {
  }

  /** Where a logout is that has found its identity stored. */
  predicate LoggingOut(pc: Pc) { pc.DeleteSession? || pc.ForgetIdentity? || pc == Return(LoggedOut) }

  /** From there no interleaving turns it back. */
  lemma {:induction false} LogoutIsNotRefused(s: State, es: seq<Event>, defaultTtl: int, c: nat)
    requires c in s.calls && LoggingOut(s.calls[c].pc)
    ensures var r := Run(s, es, defaultTtl);
            c in r.calls && r.calls[c].id == s.calls[c].id && LoggingOut(r.calls[c].pc)
  {
    if es != [] {
      var before, e := Run(s, es[..|es| - 1], defaultTtl), es[|es| - 1];
      LogoutIsNotRefused(s, es[..|es| - 1], defaultTtl, c);
      if e.Advance? && e.call in before.calls { OthersStay(before, e.call, e.env, defaultTtl); }
    }
  }

  // ---------------------------------------------------------------- the calls themselves

  /** One call run without interruption: `at` is when its session is looked up, `env` what the minter
      answers and the clock reading before the refresh. */
  function Uninterrupted(sessions: Sessions, identities: map<string, Identity>, kind: Kind, id: string,
                         at: Time, env: Env, defaultTtl: int): (r: State) {
    var look := Env(at, None);
    var s0 := State(sessions, identities, {}, map[0 := Call(kind, id, LookUp)]);
    var s2 := Resume(Resume(s0, 0, look, defaultTtl), 0, look, defaultTtl);
    Resume(Resume(Resume(s2, 0, env, defaultTtl), 0, env, defaultTtl), 0, env, defaultTtl)
  }

  lemma MintMisses(sessions: Sessions, identities: map<string, Identity>, id: string, at: Time, env: Env,
                   defaultTtl: int)
    requires Found(sessions, id, at).None?
    ensures var u := Uninterrupted(sessions, identities, Mint, id, at, env, defaultTtl);
            u.sessions == Seen(sessions, id, at) && u.identities == identities - {id}
                && u.calls[0].pc == Return(Refused)
  {
  }

  lemma MintUnknown(sessions: Sessions, identities: map<string, Identity>, id: string, at: Time, env: Env,
                    defaultTtl: int)
    requires Found(sessions, id, at).Some? && id !in identities
    ensures var u := Uninterrupted(sessions, identities, Mint, id, at, env, defaultTtl);
            u.sessions == sessions && u.identities == identities && u.calls[0].pc == Return(Refused)
  {
  }

  lemma MintGoesOn(sessions: Sessions, identities: map<string, Identity>, id: string, at: Time, env: Env,
                   defaultTtl: int)
    requires Found(sessions, id, at).Some? && id in identities
    ensures var u := Uninterrupted(sessions, identities, Mint, id, at, env, defaultTtl);
            if env.minted.None? then
              u.sessions == sessions && u.identities == identities && u.calls[0].pc == Return(Refused)
            else
              var (token, expiry) := env.minted.value;
              var ok := RefreshError(sessions, id, token, expiry, env.now).None?;
              && u.sessions == Refreshed(sessions, defaultTtl, id, token, expiry, env.now)
              && u.identities == (if ok then identities else identities - {id})
              && u.calls[0].pc == Return(if ok then Token(token) else Refused)
  {
  }

  class Flow {
    var sessions: Sessions
    var identities: map<string, Identity>
    const defaultTtl: int

    constructor (defaultTtl: int)
      ensures sessions == map[] && identities == map[] && this.defaultTtl == defaultTtl
    {
      sessions, identities, this.defaultTtl := map[], map[], defaultTtl;
    }

    /** `sessionIdentity`. */
    method SessionIdentity(id: string, now: Time) returns (r: Option<Identity>)
      modifies this
      ensures var u := Uninterrupted(old(sessions), old(identities), Query, id, now, Env(now, None), defaultTtl);
              && sessions == u.sessions && identities == u.identities
              && u.calls[0].pc == Return(if r.Some? then Known(r.value) else Refused)
      ensures r.Some? <==> Found(old(sessions), id, now).Some? && id in old(identities)
      ensures r.Some? ==> r.value == old(identities)[id] && sessions == old(sessions) && identities == old(identities)
      ensures r.Some? <==> Alive(old(sessions), id, now) && id in old(identities)
      ensures sessions == Seen(old(sessions), id, now)
      ensures sessions == if Alive(old(sessions), id, now) then old(sessions) else old(sessions) - {id}
      ensures identities == if Found(old(sessions), id, now).None? then old(identities) - {id} else old(identities)
    {
      if id !in sessions || ExpiredAt(sessions[id], now) {
        if id in sessions { sessions := sessions - {id}; }
        identities := identities - {id};
        return None;
      }
      if id !in identities { return None; }
      return Some(identities[id]);
    }

    method MintTokenForSession(id: string, at: Time, env: Env) returns (r: Result)
      modifies this
      ensures var u := Uninterrupted(old(sessions), old(identities), Mint, id, at, env, defaultTtl);
              sessions == u.sessions && identities == u.identities && u.calls[0].pc == Return(r)
      ensures r.Token? || r == Refused
      ensures r.Token? <==> && Alive(old(sessions), id, at) && id in old(identities) && env.minted.Some?
                            && env.minted.value.0 != "" && env.minted.value.1 != 0 && env.minted.value.1 > env.now
                            && Alive(old(sessions), id, env.now)
      ensures r.Token? ==>
                var was := old(sessions)[id];
                var window := if was.ttl > 0 then was.ttl else defaultTtl;
                && r.token == env.minted.value.0 && identities == old(identities)
                && sessions == old(sessions)[id := was.(token := r.token, tokenExpiresAt := env.minted.value.1,
                                                        expiresAt := env.now + window)]
      ensures r == Refused ==> sessions == old(sessions) || sessions == old(sessions) - {id}
      ensures r == Refused ==> identities == old(identities) || identities == old(identities) - {id}
    {
      var identity := SessionIdentity(id, at);
      if identity.None? {
        if Found(old(sessions), id, at).None? {
          MintMisses(old(sessions), old(identities), id, at, env, defaultTtl);
        } else {
          MintUnknown(old(sessions), old(identities), id, at, env, defaultTtl);
        }
        return Refused;
      }
      MintGoesOn(old(sessions), old(identities), id, at, env, defaultTtl);
      if env.minted.None? { return Refused; }
      var (token, expiry) := env.minted.value;
      var err := RefreshError(sessions, id, token, expiry, env.now);
      sessions := Refreshed(sessions, defaultTtl, id, token, expiry, env.now);
      if err.Some? {
        identities := identities - {id};
        return Refused;
      }
      return Token(token);
    }

    method Logout(id: string, at: Time) returns (r: Result)
      modifies this
      ensures var u := Uninterrupted(old(sessions), old(identities), Kind.Logout, id, at, Env(at, None), defaultTtl);
              sessions == u.sessions && identities == u.identities && u.calls[0].pc == Return(r)
      ensures r == LoggedOut || r == Refused
      ensures r == LoggedOut <==> Alive(old(sessions), id, at) && id in old(identities)
      ensures r == LoggedOut ==> sessions == old(sessions) - {id} && identities == old(identities) - {id}
      ensures r == Refused ==> sessions == if Alive(old(sessions), id, at) then old(sessions) else old(sessions) - {id}
    {
      var identity := SessionIdentity(id, at);
      if identity.None? { return Refused; }
      sessions := sessions - {id};
      identities := identities - {id};
      return LoggedOut;
    }

    method MarkOnboardingCompleted(id: string)
      modifies this`identities
      ensures identities.Keys == old(identities).Keys
      ensures forall k :: k in identities && k != id ==> identities[k] == old(identities)[k]
      ensures id in identities ==> SamePerson(old(identities)[id], identities[id]) && !identities[id].onboardingPending
    {
      if id !in identities { return; }
      identities := identities[id := identities[id].(onboardingPending := false)];
    }
  }
}
