/** The OAuth round trip: begin-login stores a one-shot challenge under its random state, the callback
    takes it, and only then may a session be created. */
module OAuthLogin {
  import opened Common

  datatype Provider = EntraID | Google | GitLab | Keycloak | GitHub | Unknown(name: string)

  predicate ValidProvider(p: Provider) { !p.Unknown? }

  datatype Challenge = Challenge(state: string, nonce: string, expiresAt: Time, codeVerifier: string)

  datatype Stored = Stored(provider: Provider, value: Challenge)

  type Challenges = map<string, Stored>

  function Taken(m: Challenges, provider: Provider, state: string, now: Time): (r: Option<Challenge>) {
    if state in m && m[state].provider == provider && m[state].value.expiresAt > now then Some(m[state].value) else None
  }

  class ChallengeStore {
    var challenges: Challenges

    constructor ()
      ensures challenges == map[]
    {
      challenges := map[];
    }

    method Put(provider: Provider, challenge: Challenge)
      modifies this
      ensures challenges == old(challenges)[challenge.state := Stored(provider, challenge)]
    {
      challenges := challenges[challenge.state := Stored(provider, challenge)];
    }

    /** Looking a challenge up removes it, also when it is then refused. */
    method Take(provider: Provider, state: string, now: Time) returns (r: Option<Challenge>)
      modifies this
      ensures challenges == old(challenges) - {state} && r == Taken(old(challenges), provider, state, now)
      ensures r.Some? <==> && state in old(challenges) && old(challenges)[state].provider == provider
                           && now < old(challenges)[state].value.expiresAt
      ensures r.Some? ==> r.value == old(challenges)[state].value
    {
      if state !in challenges {
        assert challenges == challenges - {state};
        return None;
      }
      var stored := challenges[state];
      challenges := challenges - {state};
      if stored.provider != provider || !(stored.value.expiresAt > now) { return None; }
      return Some(stored.value);
    }
  }

  // ---------------------------------------------------------------- the callback's own check

  datatype Request = Request(provider: Provider, code: string, state: string, challenge: Challenge)

  datatype LoginError = ProviderRequired | CodeRequired | StateRequired | ChallengeExpired | StateMismatch

  /** `validateCompleteLoginRequest`. */
  function Validate(now: Time, req: Request): (r: Option<LoginError>) {
    if !ValidProvider(req.provider) then Some(ProviderRequired)
    else if req.code == "" then Some(CodeRequired)
    else if req.state == "" then Some(StateRequired)
    else if req.challenge.expiresAt == 0 || req.challenge.expiresAt <= now then Some(ChallengeExpired)
    else if req.challenge.state != req.state then Some(StateMismatch)
    else None
  }

  // ---------------------------------------------------------------- the protocol

  datatype Begun = Begun(provider: Provider, challenge: Challenge, at: Time, step: nat)
  datatype Pending = Pending(req: Request, takenAt: Time, checkedAt: Option<Time>, step: nat)
  datatype LoggedIn = LoggedIn(provider: Provider, state: string, nonce: string, codeVerifier: string,
                               takenAt: Time, checkedAt: Time, createdAt: Time, step: nat)

  /** `begun` is the record of every begin-login; `errors` what the callback's own check answered. */
  datatype State = State(store: Challenges, begun: map<string, Begun>, callbacks: map<nat, Pending>,
                         sessions: seq<LoggedIn>, errors: seq<LoginError>, step: nat)

  datatype Event =
    | BeginLogin(provider: Provider, state: string, nonce: string, verifier: string, ttl: int, now: Time)
    | Callback(id: nat, provider: Provider, cookie: Option<string>, state: string, code: string, now: Time)
    | Check(id: nat, now: Time)
    | Create(id: nat, now: Time, accepted: bool)

  /** `BeginLogin` is refused for a provider that is not configured; its state is random, so new and not
      empty. `Callback` runs up to the take, `Check` is `validateCompleteLoginRequest`, and `Create`, any time
      later, is `CreateWithTTL`; `accepted` is what the provider, the nonce check and the owner resolution
      answered in between. */
  function Step(s: State, e: Event, configured: set<Provider>): (r: State) {
    var s' := s.(step := s.step + 1);
    match e
    case BeginLogin(provider, state, nonce, verifier, ttl, now) =>
      if provider !in configured || !ValidProvider(provider) || state in s.begun || state == "" then s' else
        var challenge := Challenge(state, nonce, now + ttl, verifier);
        s'.(store := s.store[state := Stored(provider, challenge)],
            begun := s.begun[state := Begun(provider, challenge, now, s.step)])
    case Callback(id, provider, cookie, state, code, now) =>
      if id in s.callbacks || cookie != Some(state) then s' else
        var taken := Taken(s.store, provider, state, now);
        s'.(store := s.store - {state},
            callbacks := if taken.None? then s.callbacks
                         else var req := Request(provider, code, state, taken.value);
                              s.callbacks[id := Pending(req, now, None, s.step)])
    case Check(id, now) =>
      if id !in s.callbacks || s.callbacks[id].checkedAt.Some? then s' else
        var p := s.callbacks[id];
        var err := Validate(now, p.req);
        if err.Some? then s'.(callbacks := s.callbacks - {id}, errors := s.errors + [err.value])
        else s'.(callbacks := s.callbacks[id := p.(checkedAt := Some(now))])
    case Create(id, now, accepted) =>
      if id !in s.callbacks || s.callbacks[id].checkedAt.None? then s' else
        var p := s.callbacks[id];
        s'.(callbacks := s.callbacks - {id},
            sessions := if !accepted then s.sessions else s.sessions + [Opened(p, p.checkedAt.value, now, s.step)])
  }

  function Opened(p: Pending, checkedAt: Time, now: Time, step: nat): LoggedIn {
    var c := p.req.challenge;
    LoggedIn(p.req.provider, p.req.state, c.nonce, c.codeVerifier, p.takenAt, checkedAt, now, step)
  }

  function Start(): State { State(map[], map[], map[], [], [], 0) }

  function Run(es: seq<Event>, configured: set<Provider>): (r: State) {
    if es == [] then Start() else Step(Run(es[..|es| - 1], configured), es[|es| - 1], configured)
  }

  /** A stored challenge is the one its own begin-login made. */
  predicate StoredOk(s: State, state: string)
    requires state in s.store
  {
    && state in s.begun && s.begun[state].challenge.state == state && state != ""
    && ValidProvider(s.begun[state].provider)
    && s.store[state] == Stored(s.begun[state].provider, s.begun[state].challenge)
    && s.begun[state].step < s.step
  }

  /** A callback past its take holds the challenge it named, unexpired at the take, and nobody else can
      take it again. */
  predicate PendingOk(s: State, p: Pending) {
    var state := p.req.state;
    && state in s.begun && state !in s.store && state != "" && ValidProvider(p.req.provider)
    && s.begun[state].challenge == p.req.challenge && p.req.challenge.state == state
    && s.begun[state].provider == p.req.provider
    && s.begun[state].step < p.step < s.step && p.takenAt < p.req.challenge.expiresAt
    && (p.checkedAt.Some? ==> p.checkedAt.value < p.req.challenge.expiresAt)
  }

  predicate SessionOk(s: State, l: LoggedIn) {
    && l.state in s.begun && l.state !in s.store
    && var b := s.begun[l.state];
    && b.provider == l.provider && b.challenge.state == l.state
    && b.challenge.nonce == l.nonce && b.challenge.codeVerifier == l.codeVerifier
    && b.step < l.step && l.takenAt < b.challenge.expiresAt && l.checkedAt < b.challenge.expiresAt
  }

  ghost predicate AllTraced(s: State) {
    && (forall st :: st in s.store ==> StoredOk(s, st))
    && (forall id :: id in s.callbacks ==> PendingOk(s, s.callbacks[id]))
    && (forall i :: 0 <= i < |s.sessions| ==> SessionOk(s, s.sessions[i]))
  }

  ghost predicate CallbacksApart(s: State) {
    forall c, d :: c in s.callbacks && d in s.callbacks && c != d ==>
        s.callbacks[c].req.state != s.callbacks[d].req.state
  }

  ghost predicate PendingApart(s: State) {
    forall c, i :: c in s.callbacks && 0 <= i < |s.sessions| ==> s.callbacks[c].req.state != s.sessions[i].state
  }

  ghost predicate SessionsApart(s: State) {
    forall i, j :: 0 <= i < j < |s.sessions| ==> s.sessions[i].state != s.sessions[j].state
  }

  ghost predicate AllApart(s: State) { CallbacksApart(s) && PendingApart(s) && SessionsApart(s) }

  predicate OnlyHonestErrors(s: State) {
    forall err :: err in s.errors ==> err in {CodeRequired, ChallengeExpired}
  }

  ghost predicate Inv(s: State) { AllTraced(s) && AllApart(s) && OnlyHonestErrors(s) }

  /** Records of begun logins only grow, and a state that left the store stays out. */
  lemma BegunGrows(s: State, e: Event, configured: set<Provider>, state: string)
    requires state in s.begun
    ensures var r := Step(s, e, configured);
            state in r.begun && r.begun[state] == s.begun[state] && (state !in s.store ==> state !in r.store)
            && (state in r.store ==> state in s.store && r.store[state] == s.store[state]) && s.step < r.step
  {
  }

  lemma StoreTraced(s: State, e: Event, configured: set<Provider>, st: string)
    requires AllTraced(s) && st in Step(s, e, configured).store
    ensures StoredOk(Step(s, e, configured), st)
  {
    if st in s.store {
      assert StoredOk(s, st);
      BegunGrows(s, e, configured, st);
    }
  }

  lemma CallbackStays(s: State, e: Event, configured: set<Provider>, id: nat)
    requires id in s.callbacks && id in Step(s, e, configured).callbacks
    ensures var p, q := s.callbacks[id], Step(s, e, configured).callbacks[id];
            && p == q.(checkedAt := p.checkedAt)
            && (q.checkedAt == p.checkedAt || (q.checkedAt.Some? && q.checkedAt.value < q.req.challenge.expiresAt))
  {
  }

  lemma TakenTraced(s: State, e: Event, configured: set<Provider>, id: nat)
    requires AllTraced(s) && id !in s.callbacks && id in Step(s, e, configured).callbacks
    ensures PendingOk(Step(s, e, configured), Step(s, e, configured).callbacks[id])
  {
    assert StoredOk(s, e.state);
  }

  lemma CallbackTraced(s: State, e: Event, configured: set<Provider>, id: nat)
    requires AllTraced(s) && id in Step(s, e, configured).callbacks
    ensures PendingOk(Step(s, e, configured), Step(s, e, configured).callbacks[id])
  {
    if id in s.callbacks {
      assert PendingOk(s, s.callbacks[id]);
      BegunGrows(s, e, configured, s.callbacks[id].req.state);
      CallbackStays(s, e, configured, id);
    } else {
      TakenTraced(s, e, configured, id);
    }
  }

  lemma SessionTraced(s: State, e: Event, configured: set<Provider>, i: nat)
    requires AllTraced(s) && i < |Step(s, e, configured).sessions|
    ensures SessionOk(Step(s, e, configured), Step(s, e, configured).sessions[i])
  {
    if i < |s.sessions| {
      assert SessionOk(s, s.sessions[i]);
      BegunGrows(s, e, configured, s.sessions[i].state);
    } else {
      assert PendingOk(s, s.callbacks[e.id]);
    }
  }

  lemma StepKeepsTrace(s: State, e: Event, configured: set<Provider>)
    requires AllTraced(s)
    ensures AllTraced(Step(s, e, configured))
  {
    var r := Step(s, e, configured);
    forall st | st in r.store ensures StoredOk(r, st) { StoreTraced(s, e, configured, st); }
    forall id | id in r.callbacks ensures PendingOk(r, r.callbacks[id]) { CallbackTraced(s, e, configured, id); }
    forall i | 0 <= i < |r.sessions| ensures SessionOk(r, r.sessions[i]) { SessionTraced(s, e, configured, i); }
  }

  /** A callback that gets past its take now: its state was in the store, so no other holds it. */
  lemma TakenIsNew(s: State, e: Event)
    requires AllTraced(s) && e.Callback? && e.state in s.store
    ensures forall c :: c in s.callbacks ==> s.callbacks[c].req.state != e.state
    ensures forall i :: 0 <= i < |s.sessions| ==> s.sessions[i].state != e.state
  {
    assert StoredOk(s, e.state);
    forall c | c in s.callbacks ensures s.callbacks[c].req.state != e.state { assert PendingOk(s, s.callbacks[c]); }
    forall i | 0 <= i < |s.sessions| ensures s.sessions[i].state != e.state { assert SessionOk(s, s.sessions[i]); }
  }

  lemma CallbackComesFrom(s: State, e: Event, configured: set<Provider>, c: nat)
    requires c in Step(s, e, configured).callbacks
    ensures var r := Step(s, e, configured).callbacks[c].req;
            || (c in s.callbacks && r == s.callbacks[c].req
                && !(e.Create? && e.id == c && s.callbacks[c].checkedAt.Some?))
            || (c !in s.callbacks && e.Callback? && e.id == c && e.state in s.store && r.state == e.state)
  {
  }

  lemma StepKeepsCallbacksApart(s: State, e: Event, configured: set<Provider>)
    requires AllTraced(s) && AllApart(s)
    ensures CallbacksApart(Step(s, e, configured))
  {
    var r := Step(s, e, configured);
    if e.Callback? && e.state in s.store { TakenIsNew(s, e); }
    forall c, d | c in r.callbacks && d in r.callbacks && c != d
      ensures r.callbacks[c].req.state != r.callbacks[d].req.state
    {
      CallbackComesFrom(s, e, configured, c);
      CallbackComesFrom(s, e, configured, d);
    }
  }

  lemma StepKeepsPendingApart(s: State, e: Event, configured: set<Provider>)
    requires AllTraced(s) && AllApart(s)
    ensures PendingApart(Step(s, e, configured))
  {
    var r := Step(s, e, configured);
    if e.Callback? && e.state in s.store { TakenIsNew(s, e); }
    forall c, i | c in r.callbacks && 0 <= i < |r.sessions|
      ensures r.callbacks[c].req.state != r.sessions[i].state
    {
      CallbackComesFrom(s, e, configured, c);
    }
  }

  lemma StepKeepsApart(s: State, e: Event, configured: set<Provider>)
    requires AllTraced(s) && AllApart(s)
    ensures AllApart(Step(s, e, configured))
  {
    StepKeepsCallbacksApart(s, e, configured);
    StepKeepsPendingApart(s, e, configured);
  }

  lemma StepKeepsInv(s: State, e: Event, configured: set<Provider>)
    requires Inv(s)
    ensures Inv(Step(s, e, configured))
  {
    StepKeepsTrace(s, e, configured);
    StepKeepsApart(s, e, configured);
    if e.Check? && e.id in s.callbacks { assert PendingOk(s, s.callbacks[e.id]); }
  }

  lemma {:induction false} EveryRunKeepsInv(es: seq<Event>, configured: set<Provider>)
    ensures Inv(Run(es, configured))
  {
    if es != [] {
      EveryRunKeepsInv(es[..|es| - 1], configured);
      StepKeepsInv(Run(es[..|es| - 1], configured), es[|es| - 1], configured);
    }
  }

  /** Every session created through the callback comes from an earlier begin-login with the same provider,
      state, nonce and PKCE verifier, which had not expired when it was taken and again when the request was
      checked; different sessions come from different ones;
      and the callback's own check only ever reports a missing code or an expired challenge, never a
      state mismatch. */
  lemma SessionsComeFromLogins(es: seq<Event>, configured: set<Provider>)
    ensures var s := Run(es, configured);
            && (forall i :: 0 <= i < |s.sessions| ==> SessionOk(s, s.sessions[i]))
            && (forall i, j :: 0 <= i < j < |s.sessions| ==> s.sessions[i].state != s.sessions[j].state)
            && OnlyHonestErrors(s)
  {
    EveryRunKeepsInv(es, configured);
  }

  /** The request check passes exactly a known provider, a code, a state that is the challenge's, and a deadline
      ahead; a missing code is told before an expired challenge, and that before a mismatch. */
  lemma ValidateMeans(now: Time, req: Request)
    ensures Validate(now, req).None? <==>
            && ValidProvider(req.provider) && req.code != "" && req.state != "" && req.challenge.state == req.state
            && req.challenge.expiresAt != 0 && now < req.challenge.expiresAt
    ensures ValidProvider(req.provider) && req.code == "" ==> Validate(now, req) == Some(CodeRequired)
    ensures ValidProvider(req.provider) && req.code != "" && req.state != "" && req.challenge.expiresAt <= now ==>
              Validate(now, req) == Some(ChallengeExpired)
  {
  }

  /** A callback takes its challenge only with the cookie of that state; it gets past the take exactly if the
      challenge is there, is its provider's and has not expired. */
  lemma CallbackLeads(s: State, e: Event, configured: set<Provider>)
    requires e.Callback? && e.id !in s.callbacks
    ensures var r := Step(s, e, configured);
            && r.sessions == s.sessions && r.begun == s.begun
            && (e.cookie != Some(e.state) ==> r.store == s.store && r.callbacks == s.callbacks)
            && (e.cookie == Some(e.state) ==> r.store == s.store - {e.state})
            && (e.id in r.callbacks <==>
                  && e.cookie == Some(e.state) && e.state in s.store && s.store[e.state].provider == e.provider
                  && e.now < s.store[e.state].value.expiresAt)
            && (e.id in r.callbacks ==>
                  && r.callbacks[e.id].checkedAt.None? && r.callbacks[e.id].takenAt == e.now
                  && r.callbacks[e.id].req == Request(e.provider, e.code, e.state, s.store[e.state].value))
  {
  }

  /** A callback stays only if the check passes it, with the time of that check. */
  lemma CheckLeads(s: State, e: Event, configured: set<Provider>)
    requires e.Check? && e.id in s.callbacks && s.callbacks[e.id].checkedAt.None?
    ensures var p, r := s.callbacks[e.id], Step(s, e, configured);
            && r.sessions == s.sessions && r.store == s.store && r.begun == s.begun
            && (e.id in r.callbacks <==>
                  && ValidProvider(p.req.provider) && p.req.code != "" && p.req.state != ""
                  && p.req.challenge.state == p.req.state
                  && p.req.challenge.expiresAt != 0 && e.now < p.req.challenge.expiresAt)
            && (e.id in r.callbacks ==> r.callbacks[e.id] == p.(checkedAt := Some(e.now)) && r.errors == s.errors)
            && (e.id !in r.callbacks ==> |r.errors| == |s.errors| + 1)
  {
    ValidateMeans(e.now, s.callbacks[e.id].req);
  }

  /** A session is created exactly for a callback that passed its check and was accepted. */
  lemma CreateLeads(s: State, e: Event, configured: set<Provider>)
    requires e.Create?
    ensures |Step(s, e, configured).sessions| == |s.sessions| + 1 <==>
            e.id in s.callbacks && s.callbacks[e.id].checkedAt.Some? && e.accepted
    ensures s.sessions <= Step(s, e, configured).sessions
  {
  }

  /** This event began the login: its own state, nonce and verifier, for its own lifetime. */
  predicate Began(e: Event, b: Begun) {
    && e.BeginLogin? && b.provider == e.provider && b.at == e.now
    && b.challenge.state == e.state && b.challenge.nonce == e.nonce && b.challenge.codeVerifier == e.verifier
    && b.challenge.expiresAt == e.now + e.ttl
  }

  /** A begin-login for a configured provider, with a state not used before, is recorded and stored as its own. */
  lemma BeginIsRecorded(s: State, e: Event, configured: set<Provider>)
    requires e.BeginLogin? && e.provider in configured && ValidProvider(e.provider) && e.state !in s.begun
        && e.state != ""
    ensures var r := Step(s, e, configured);
            && e.state in r.begun && Began(e, r.begun[e.state])
            && e.state in r.store && r.store[e.state] == Stored(e.provider, r.begun[e.state].challenge)
  {
  }

  /** Every login on record was begun by an event of the run. */
  lemma {:induction false} BegunByEvent(es: seq<Event>, configured: set<Provider>, state: string)
    requires state in Run(es, configured).begun
    ensures exists i :: 0 <= i < |es| && Began(es[i], Run(es, configured).begun[state]) && es[i].state == state
  {
    var init, e := es[..|es| - 1], es[|es| - 1];
    if state in Run(init, configured).begun {
      BegunByEvent(init, configured, state);
      var i :| 0 <= i < |init| && Began(init[i], Run(init, configured).begun[state]) && init[i].state == state;
      BegunGrows(Run(init, configured), e, configured, state);
      assert Began(es[i], Run(es, configured).begun[state]) && es[i].state == state;
    } else {
      assert Began(es[|es| - 1], Run(es, configured).begun[state]);
    }
  }

  /** So every session carries the provider, state, nonce and verifier of an event of the run, and was taken and
      checked within that event's lifetime. */
  lemma SessionsComeFromEvents(es: seq<Event>, configured: set<Provider>, i: nat)
    requires i < |Run(es, configured).sessions|
    ensures var l := Run(es, configured).sessions[i];
            exists k :: && 0 <= k < |es| && es[k].BeginLogin? && es[k].provider == l.provider && es[k].state == l.state
                        && es[k].nonce == l.nonce && es[k].verifier == l.codeVerifier
                        && l.takenAt < es[k].now + es[k].ttl && l.checkedAt < es[k].now + es[k].ttl
  {
    var l := Run(es, configured).sessions[i];
    SessionsComeFromLogins(es, configured);
    assert SessionOk(Run(es, configured), l);
    BegunByEvent(es, configured, l.state);
    var k :| 0 <= k < |es| && Began(es[k], Run(es, configured).begun[l.state]) && es[k].state == l.state;
    assert es[k].provider == l.provider;
  }

  /** The exchange with the provider comes after the check, so a session may be created at any time, also
      past the deadline of its challenge. */
  lemma CreationMayBeLate(provider: Provider, state: string, code: string, now: Time, ttl: int, late: Time)
    requires ValidProvider(provider) && state != "" && code != "" && ttl > 0 && now > 0
    ensures var begun := Step(Start(), BeginLogin(provider, state, "", "", ttl, now), {provider});
            var taken := Step(begun, Callback(1, provider, Some(state), state, code, now), {provider});
            var end := Step(Step(taken, Check(1, now), {provider}), Create(1, late, true), {provider});
            |end.sessions| == 1 && end.sessions[0].state == state && end.sessions[0].createdAt == late
  {
    var begun := Step(Start(), BeginLogin(provider, state, "", "", ttl, now), {provider});
    var taken := Step(begun, Callback(1, provider, Some(state), state, code, now), {provider});
    var challenge := Challenge(state, "", now + ttl, "");
    assert begun.store == map[state := Stored(provider, challenge)];
    assert taken.callbacks == map[1 := Pending(Request(provider, code, state, challenge), now, None, 1)];
    assert Step(taken, Check(1, now), {provider}).callbacks[1].checkedAt == Some(now);
  }

  predicate Spent(s: State, state: string) { state in s.begun && state !in s.store }

  lemma SpentStays(s: State, e: Event, configured: set<Provider>, state: string)
    requires Spent(s, state)
    ensures Spent(Step(s, e, configured), state)
  {
  }

  /** Nothing puts a challenge back: once its state has been begun and left the store, it stays out. */
  lemma {:induction false} GoneStaysGone(es: seq<Event>, more: seq<Event>, configured: set<Provider>, state: string)
    requires Spent(Run(es, configured), state)
    ensures Spent(Run(es + more, configured), state)
  {
    if more == [] {
      assert es + more == es;
    } else {
      var init := more[..|more| - 1];
      GoneStaysGone(es, init, configured, state);
      assert (es + more)[..|es + more| - 1] == es + init && (es + more)[|es + more| - 1] == more[|more| - 1];
      SpentStays(Run(es + init, configured), more[|more| - 1], configured, state);
    }
  }

  /** A challenge is consumed by its first take even when that take is refused (wrong provider, expired):
      every later callback naming its state is refused. */
  lemma FirstTakeConsumes(es: seq<Event>, take: Event, more: seq<Event>, configured: set<Provider>, again: Event)
    requires take.Callback? && take.cookie == Some(take.state) && take.id !in Run(es, configured).callbacks
    requires take.state in Run(es, configured).begun
    requires again.Callback? && again.state == take.state
    ensures var s := Run(es + [take] + more, configured);
            again.id !in s.callbacks ==> again.id !in Step(s, again, configured).callbacks
  {
    assert (es + [take])[..|es|] == es;
    assert Run(es + [take], configured) == Step(Run(es, configured), take, configured);
    GoneStaysGone(es + [take], more, configured, take.state);
  }
}
