/** The install hook: it creates the administrator's login and API token and records, once, the values
    an operator must read. Any number of runs may race, and any of them may die at any point. */
module Bootstrap {
  import opened Common
  import opened MergePatch
  import LocalUsers

  type Accounts = LocalUsers.Accounts

  /** The keys of the one bootstrap Secret. */
  datatype Key = Username | Password | Token

  type Values = map<Key, string>

  /** How usernames are trimmed and turned into Secret names; both may be any function. */
  datatype Naming = Naming(trim: string -> string, name: string -> string)

  /** `password == ""` asks for a generated one. */
  datatype Job = Account(username: string, email: string, password: string) | ApiToken

  /** What a run does next. */
  datatype Pc =
    | ListUsers                                        // AdminAccount: users.List
    | FindUser(password: string)                       // LocalUserStore.Create: findByUsername
    | CreateUser(password: string)                     // LocalUserStore.Create: the Secret
    | CheckTokens                                      // AdminToken: HasAny
    | IssueToken                                       // AdminToken: Issue
    | CreateRecord(values: Values)                     // writeInitialValues: Create
    | ReadRecord(values: Values)                       // ... then Get
    | PatchRecord(values: Values, base: Values)        // ... then Patch
    | Finished(created: bool)
    | Failed

  datatype Proc = Proc(job: Job, pc: Pc)

  datatype State = State(accounts: Accounts, tokens: set<Digest>, record: Option<Values>, procs: map<nat, Proc>)

  /** `random` is what the random generator would return, `salt` bcrypt's. */
  datatype Event = Start(id: nat, job: Job) | Advance(id: nat, random: string, salt: nat) | Crash(id: nat)

  /** Missing keys are filled in, existing ones left alone. */
  function Filled(base: Values, values: Values): (r: Values) { values + base }

  ghost function Step(s: State, e: Event, n: Naming): (r: State) {
    match e
    case Start(id, job) =>
      if id in s.procs then s
      else s.(procs := s.procs[id := Proc(job, if job.Account? then ListUsers else CheckTokens)])
    case Crash(id) => s.(procs := s.procs - {id})
    case Advance(id, random, salt) =>
      if id !in s.procs then s else Resume(s, id, random, salt, n)
  }

  ghost function Goto(s: State, id: nat, pc: Pc): (r: State)
    requires id in s.procs
  {
    s.(procs := s.procs[id := s.procs[id].(pc := pc)])
  }

  ghost function Resume(s: State, id: nat, random: string, salt: nat, n: Naming): (r: State)
    requires id in s.procs
  {
    var p := s.procs[id];
    match p.pc
    case ListUsers =>
      if p.job.ApiToken? || LocalUsers.Taken(s.accounts, p.job.username) then Goto(s, id, Finished(false))
      else Goto(s, id, FindUser(if p.job.password == "" then random else p.job.password))
    case FindUser(password) =>
      if p.job.ApiToken? || n.trim(p.job.username) == "" then Goto(s, id, Failed)
      else if LocalUsers.Taken(s.accounts, n.trim(p.job.username)) then Goto(s, id, Finished(false))
      else Goto(s, id, CreateUser(password))
    case CreateUser(password) =>
      if p.job.ApiToken? then Goto(s, id, Failed) else
        var user := n.trim(p.job.username);
        if n.name(user) in s.accounts then Goto(s, id, Failed)
        else
          var account := LocalUsers.NewRecord(user, LocalUsers.Bcrypt(password, salt), p.job.email);
          Goto(s.(accounts := s.accounts[n.name(user) := account]), id,
               if p.job.password == "" then CreateRecord(map[Username := p.job.username, Password := password])
               else Finished(true))
    case CheckTokens => Goto(s, id, if s.tokens != {} then Finished(false) else IssueToken)
    case IssueToken => Goto(s.(tokens := s.tokens + {Sha256(random)}), id, CreateRecord(map[Token := random]))
    case CreateRecord(values) =>
      if s.record.None? then Goto(s.(record := Some(values)), id, Finished(true)) else Goto(s, id, ReadRecord(values))
    case ReadRecord(values) =>
      if s.record.None? then Goto(s, id, Failed)
      else if Filled(s.record.value, values) == s.record.value then Goto(s, id, Finished(true))
      else Goto(s, id, PatchRecord(values, s.record.value))
    case PatchRecord(values, base) =>
      if s.record.None? then Goto(s, id, Failed)
      else Goto(s.(record := Some(Apply(s.record.value, Diff(base, Filled(base, values))))), id, Finished(true))
    case Finished(_) => s
    case Failed => s
  }

  ghost function Run(s: State, es: seq<Event>, n: Naming): (r: State) {
    if es == [] then s else Step(Run(s, es[..|es| - 1], n), es[|es| - 1], n)
  }

  // ---------------------------------------------------------------- what every run keeps

  /** The stored account of this username verifies this password. */
  predicate Opens(accounts: Accounts, username: string, password: string, n: Naming) {
    var secret := n.name(n.trim(username));
    && secret in accounts
    && LocalUsers.HasUsername(accounts[secret], n.trim(username))
    && LocalUsers.Verifies(accounts[secret], password)
  }

  /** Values a run may record: a username with its working password, a token with its stored digest. */
  predicate Truthful(v: Values, accounts: Accounts, tokens: set<Digest>, n: Naming) {
    && (Username in v <==> Password in v)
    && (Password in v ==> Opens(accounts, v[Username], v[Password], n))
    && (Token in v ==> Sha256(v[Token]) in tokens)
  }

  /** The values a run still has to record. */
  function Held(pc: Pc): (r: Option<Values>) {
    match pc
    case CreateRecord(values) => Some(values)
    case ReadRecord(values) => Some(values)
    case PatchRecord(values, _) => Some(values)
    case _ => None
  }

  predicate ProcTruthful(s: State, p: Proc, n: Naming) {
    && (Held(p.pc).Some? ==> Truthful(Held(p.pc).value, s.accounts, s.tokens, n))
    && (p.pc.PatchRecord? ==> Truthful(p.pc.base, s.accounts, s.tokens, n))
  }

  ghost predicate Inv(s: State, n: Naming) {
    && (s.record.Some? ==> Truthful(s.record.value, s.accounts, s.tokens, n))
    && (forall id :: id in s.procs ==> ProcTruthful(s, s.procs[id], n))
  }

  /** Where the values a run holds come from: it held them before, or it has just created the account or
      issued the token they describe. */
  lemma HeldComesFrom(s: State, e: Event, n: Naming, id: nat)
    requires id in Step(s, e, n).procs
    ensures var r := Step(s, e, n);
            var p := r.procs[id];
            && (id in s.procs ==> p.job == s.procs[id].job)
            && (id !in s.procs ==> e.Start? && p.job == e.job && Held(p.pc).None?)
            && (Held(p.pc).Some? ==>
                  var was := s.procs[id].pc;
                  || Held(was) == Held(p.pc)
                  || (was.CreateUser? && p.job.Account? && n.name(n.trim(p.job.username)) !in s.accounts
                      && Held(p.pc).value == map[Username := p.job.username, Password := was.password]
                      && Opens(r.accounts, p.job.username, was.password, n))
                  || (Held(p.pc).value.Keys == {Token} && Sha256(Held(p.pc).value[Token]) in r.tokens))
            && (p.pc.PatchRecord? ==> s.procs[id].pc == p.pc || s.record == Some(p.pc.base))
  {
    if e.Advance? && e.id == id && id in s.procs {
      var p := s.procs[id];
      match p.pc
      case CreateUser(password) =>
        if p.job.Account? && n.name(n.trim(p.job.username)) !in s.accounts {
          var rec := LocalUsers.NewRecord(n.trim(p.job.username), LocalUsers.Bcrypt(password, e.salt), p.job.email);
          assert Step(s, e, n).accounts[n.name(n.trim(p.job.username))] == rec;
        }
      case IssueToken => assert map[Token := e.random].Keys == {Token};
      case _ =>
    }
  }

  /** What a step does to the record: nothing, create it from held values, or patch held values in. */
  lemma RecordComesFrom(s: State, e: Event, n: Naming)
    ensures var r := Step(s, e, n);
            || r.record == s.record
            || (e.Advance? && e.id in s.procs && s.record.None? && r.record == Held(s.procs[e.id].pc))
            || (e.Advance? && e.id in s.procs && s.record.Some? && s.procs[e.id].pc.PatchRecord?
                && r.record == Some(Apply(s.record.value,
                                          Diff(s.procs[e.id].pc.base,
                                               Filled(s.procs[e.id].pc.base, s.procs[e.id].pc.values)))))
  {
  }

  /** Nothing a bootstrap run does removes or alters an account or a token. */
  ghost predicate Grows(s: State, r: State) {
    && (forall k :: k in s.accounts ==> k in r.accounts && r.accounts[k] == s.accounts[k])
    && s.tokens <= r.tokens
  }

  lemma StepGrows(s: State, e: Event, n: Naming)
    ensures Grows(s, Step(s, e, n))
  {
  }

  lemma TruthfulSurvives(v: Values, s: State, r: State, n: Naming)
    requires Grows(s, r) && Truthful(v, s.accounts, s.tokens, n)
    ensures Truthful(v, r.accounts, r.tokens, n)
  {
  }

  /** Filling in a record from any truthful snapshot keeps a truthful record truthful. */
  lemma PatchIsTruthful(v: Values, base: Values, current: Values, accounts: Accounts, tokens: set<Digest>, n: Naming)
    requires Truthful(v, accounts, tokens, n) && Truthful(base, accounts, tokens, n)
    requires Truthful(current, accounts, tokens, n)
    ensures Truthful(Apply(current, Diff(base, Filled(base, v))), accounts, tokens, n)
  {
    RecordAfterPatch(v, base, current, Username);
    RecordAfterPatch(v, base, current, Password);
    RecordAfterPatch(v, base, current, Token);
  }

  /** A patch writes exactly the keys it brings that its snapshot lacked. */
  lemma RecordAfterPatch(v: Values, base: Values, current: Values, k: Key)
    ensures var r := Apply(current, Diff(base, Filled(base, v)));
            if k in v && k !in base then k in r && r[k] == v[k]
            else (k in r <==> k in current) && (k in current ==> r[k] == current[k])
  {
    DiffIsLocal(base, Filled(base, v), current, k);
  }

  function KeyName(k: Key): string {
    match k
    case Username => "username"
    case Password => "password"
    case Token => "token"
  }

  lemma KeyNamesAreInjective()
    ensures Injective(KeyName)
  {
    forall k, l | KeyName(k) == KeyName(l) ensures k == l {
      assert |KeyName(k)| == |KeyName(l)| && KeyName(k)[0] == KeyName(l)[0];
    }
  }

  /** What the API server makes of the JSON patch of a run is what its `PatchRecord` step says. */
  lemma RecordPatchOnTheWire(v: Values, base: Values, current: Values,
                             rest: map<string, Json>, stored: map<string, Json>, enc: string -> Json)
    requires "data" !in rest && "data" !in stored && Leafy(enc) && Injective(KeyName) && v != map[]
    ensures var target := Filled(base, v);
            var r := Rewritten(rest, stored, "data", enc, Renamed(base, KeyName), Renamed(target, KeyName),
                               Renamed(current, KeyName));
            && r.Obj? && r.fields - {"data"} == stored
            && Member(r, "data") == Entries(Renamed(Apply(current, Diff(base, target)), KeyName), enc)
  {
    var k :| k in v;
    assert k in Filled(base, v);
    NamedPatch(rest, stored, "data", KeyName, enc, base, Filled(base, v), current);
  }

  lemma StepKeepsRecord(s: State, e: Event, n: Naming)
    requires Inv(s, n)
    ensures var r := Step(s, e, n); r.record.Some? ==> Truthful(r.record.value, r.accounts, r.tokens, n)
  {
    var r := Step(s, e, n);
    StepGrows(s, e, n);
    RecordComesFrom(s, e, n);
    if s.record.Some? { TruthfulSurvives(s.record.value, s, r, n); }
    if r.record != s.record {
      var p := s.procs[e.id];
      assert ProcTruthful(s, p, n);
      TruthfulSurvives(Held(p.pc).value, s, r, n);
      if s.record.Some? {
        TruthfulSurvives(p.pc.base, s, r, n);
        PatchIsTruthful(p.pc.values, p.pc.base, s.record.value, r.accounts, r.tokens, n);
      }
    }
  }

  lemma StepKeepsProcs(s: State, e: Event, n: Naming, id: nat)
    requires Inv(s, n) && id in Step(s, e, n).procs
    ensures ProcTruthful(Step(s, e, n), Step(s, e, n).procs[id], n)
  {
    var r := Step(s, e, n);
    StepGrows(s, e, n);
    HeldComesFrom(s, e, n, id);
    if s.record.Some? { TruthfulSurvives(s.record.value, s, r, n); }
    if id in s.procs {
      var was := s.procs[id].pc;
      assert ProcTruthful(s, s.procs[id], n);
      if Held(was).Some? { TruthfulSurvives(Held(was).value, s, r, n); }
      if was.PatchRecord? { TruthfulSurvives(was.base, s, r, n); }
    }
  }

  lemma OneStep(s: State, e: Event, n: Naming)
    requires Inv(s, n)
    ensures Inv(Step(s, e, n), n)
  {
    StepKeepsRecord(s, e, n);
    forall id | id in Step(s, e, n).procs ensures ProcTruthful(Step(s, e, n), Step(s, e, n).procs[id], n) {
      StepKeepsProcs(s, e, n, id);
    }
  }

  /** For every interleaving and every crash point, a recorded password opens the stored account of the
      recorded username, and a recorded token's digest is a stored admin token. */
  lemma {:induction false} RecordsStayTruthful(s: State, es: seq<Event>, n: Naming)
    requires Inv(s, n)
    ensures Inv(Run(s, es, n), n)
  {
    if es != [] {
      var before, e := Run(s, es[..|es| - 1], n), es[|es| - 1];
      RecordsStayTruthful(s, es[..|es| - 1], n);
      OneStep(before, e, n);
    }
  }

  /** No writer erases a recorded key: the password and token writers share the Secret safely. */
  lemma {:induction false} RecordedKeysStay(s: State, es: seq<Event>, n: Naming, k: Key)
    requires s.record.Some? && k in s.record.value
    ensures Run(s, es, n).record.Some? && k in Run(s, es, n).record.value
  {
    if es != [] {
      var before, e := Run(s, es[..|es| - 1], n), es[|es| - 1];
      RecordedKeysStay(s, es[..|es| - 1], n, k);
      RecordComesFrom(before, e, n);
      if Step(before, e, n).record != before.record {
        var p := before.procs[e.id].pc;
        RecordAfterPatch(p.values, p.base, before.record.value, k);
      }
    }
  }

  // ---------------------------------------------------------------- one Secret name

  /** The Secret a username's account is kept in. */
  function SecretOf(username: string, n: Naming): string { n.name(n.trim(username)) }

  predicate NamesOnly(v: Values, secret: string, n: Naming) { Username in v ==> SecretOf(v[Username], n) == secret }

  predicate ForSecret(p: Proc, secret: string, n: Naming) {
    && (p.job.Account? ==> SecretOf(p.job.username, n) == secret)
    && (Held(p.pc).Some? ==> NamesOnly(Held(p.pc).value, secret, n))
  }

  ghost predicate OnlySecret(s: State, secret: string, n: Naming) {
    && (forall id :: id in s.procs ==> ForSecret(s.procs[id], secret, n))
    && (s.record.Some? ==> NamesOnly(s.record.value, secret, n))
  }

  ghost predicate OnlyJobsFor(es: seq<Event>, secret: string, n: Naming) {
    forall i :: 0 <= i < |es| && es[i].Start? && es[i].job.Account? ==> SecretOf(es[i].job.username, n) == secret
  }

  lemma StepOnlySecret(s: State, e: Event, n: Naming, secret: string)
    requires OnlySecret(s, secret, n) && (e.Start? && e.job.Account? ==> SecretOf(e.job.username, n) == secret)
    ensures OnlySecret(Step(s, e, n), secret, n)
  {
    var r := Step(s, e, n);
    RecordComesFrom(s, e, n);
    if r.record != s.record {
      assert ForSecret(s.procs[e.id], secret, n);
      if s.record.Some? {
        var p := s.procs[e.id].pc;
        RecordAfterPatch(p.values, p.base, s.record.value, Username);
      }
    }
    forall id | id in r.procs ensures ForSecret(r.procs[id], secret, n) {
      HeldComesFrom(s, e, n, id);
      if id in s.procs { assert ForSecret(s.procs[id], secret, n); }
    }
  }

  lemma {:induction false} RunOnlySecret(s: State, es: seq<Event>, n: Naming, secret: string)
    requires OnlySecret(s, secret, n) && OnlyJobsFor(es, secret, n)
    ensures OnlySecret(Run(s, es, n), secret, n)
  {
    if es != [] {
      RunOnlySecret(s, es[..|es| - 1], n, secret);
      StepOnlySecret(Run(s, es[..|es| - 1], n), es[|es| - 1], n, secret);
    }
  }

  lemma {:induction false} RunGrows(s: State, es: seq<Event>, n: Naming)
    ensures Grows(s, Run(s, es, n))
  {
    if es != [] {
      RunGrows(s, es[..|es| - 1], n);
      StepGrows(Run(s, es[..|es| - 1], n), es[|es| - 1], n);
    }
  }

  /** While all configured usernames derive one Secret name the recorded password never changes, whatever
      else about them differs. */
  lemma RecordedPasswordIsFinal(s: State, es: seq<Event>, n: Naming, secret: string)
    requires Inv(s, n) && OnlySecret(s, secret, n) && OnlyJobsFor(es, secret, n)
    requires s.record.Some? && Password in s.record.value
    ensures var r := Run(s, es, n);
            r.record.Some? && Password in r.record.value && r.record.value[Password] == s.record.value[Password]
  {
    RecordsStayTruthful(s, es, n);
    RecordedKeysStay(s, es, n, Password);
    RunOnlySecret(s, es, n, secret);
    RunGrows(s, es, n);
  }

  /** Two runs can overwrite a recorded value: both read a record that does not have it yet, then both patch.
      So two hooks for different accounts replace the password, and two token runs the token. What is recorded
      stays truthful. */
  lemma RacingRunsOverwrite(s: State, a: nat, b: nat, x: Event, y: Event, n: Naming, k: Key)
    requires Inv(s, n) && a in s.procs && b in s.procs && a != b
    requires s.procs[a].pc.ReadRecord? && s.procs[b].pc.ReadRecord?
    requires k in s.procs[a].pc.values && k in s.procs[b].pc.values
    requires s.procs[a].pc.values[k] != s.procs[b].pc.values[k]
    requires s.record.Some? && !Has(s, k)
    requires x.Advance? && x.id == a && y.Advance? && y.id == b
    ensures var mid := Step(Step(Step(s, x, n), y, n), x, n);
            var end := Step(mid, y, n);
            && Inv(mid, n) && Inv(end, n) && Has(mid, k) && Has(end, k)
            && mid.record.value[k] == s.procs[a].pc.values[k]
            && end.record.value[k] == s.procs[b].pc.values[k]
  {
    var s1 := Step(s, x, n);
    ReadsForPatch(s, a, x, n, k);
    ReadsForPatch(s1, b, y, n, k);
    var s2 := Step(s1, y, n);
    PatchesIn(s2, a, x, n, k);
    PatchesIn(Step(s2, x, n), b, y, n, k);
    FourSteps(s, x, y, x, y, n);
  }

  lemma ReadsForPatch(s: State, id: nat, e: Event, n: Naming, k: Key)
    requires id in s.procs && s.procs[id].pc.ReadRecord? && k in s.procs[id].pc.values
    requires s.record.Some? && !Has(s, k) && e.Advance? && e.id == id
    ensures Step(s, e, n) == Goto(s, id, PatchRecord(s.procs[id].pc.values, s.record.value))
  {
    assert k in Filled(s.record.value, s.procs[id].pc.values);
  }

  lemma PatchesIn(s: State, id: nat, e: Event, n: Naming, k: Key)
    requires id in s.procs && s.procs[id].pc.PatchRecord? && k in s.procs[id].pc.values && k !in s.procs[id].pc.base
    requires s.record.Some? && e.Advance? && e.id == id
    ensures var r := Step(s, e, n);
            && Has(r, k) && r.record.value[k] == s.procs[id].pc.values[k]
            && r.procs == s.procs[id := s.procs[id].(pc := Finished(true))]
  {
    RecordAfterPatch(s.procs[id].pc.values, s.procs[id].pc.base, s.record.value, k);
  }

  lemma FourSteps(s: State, e1: Event, e2: Event, e3: Event, e4: Event, n: Naming)
    requires Inv(s, n)
    ensures var mid := Step(Step(Step(s, e1, n), e2, n), e3, n);
            Inv(mid, n) && Inv(Step(mid, e4, n), n)
  {
    OneStep(s, e1, n);
    OneStep(Step(s, e1, n), e2, n);
    OneStep(Step(Step(s, e1, n), e2, n), e3, n);
    OneStep(Step(Step(Step(s, e1, n), e2, n), e3, n), e4, n);
  }

  /** Exactly which step changes a recorded value: the patch of a run that read the record before it held one,
      and brings another. */
  lemma RecordChangesIff(s: State, e: Event, n: Naming, k: Key)
    requires Has(s, k)
    ensures Has(Step(s, e, n), k)
    ensures Step(s, e, n).record.value[k] != s.record.value[k] <==>
            && e.Advance? && e.id in s.procs && s.procs[e.id].pc.PatchRecord?
            && k in s.procs[e.id].pc.values && k !in s.procs[e.id].pc.base
            && s.procs[e.id].pc.values[k] != s.record.value[k]
  {
    RecordComesFrom(s, e, n);
    if e.Advance? && e.id in s.procs && s.procs[e.id].pc.PatchRecord? {
      RecordAfterPatch(s.procs[e.id].pc.values, s.procs[e.id].pc.base, s.record.value, k);
    }
  }

  ghost function FourTimes(s: State, e: Event, n: Naming): State { Step(Step(Step(Step(s, e, n), e, n), e, n), e, n) }

  predicate FreeFor(s: State, username: string, n: Naming) {
    && n.trim(username) != "" && SecretOf(username, n) !in s.accounts
    && !LocalUsers.Taken(s.accounts, username) && !LocalUsers.Taken(s.accounts, n.trim(username))
  }

  /** A run that meets nobody creates its account in three steps, with the configured password or a generated
      one, and has just the generated one to record. */
  lemma AccountRunCreates(s: State, e: Event, job: Job, n: Naming)
    requires e.Advance? && e.id in s.procs && s.procs[e.id] == Proc(job, ListUsers) && job.Account?
    requires FreeFor(s, job.username, n)
    ensures var r := Step(Step(Step(s, e, n), e, n), e, n);
            var used := if job.password == "" then e.random else job.password;
            && Opens(r.accounts, job.username, used, n)
                && r.accounts.Keys == s.accounts.Keys + {SecretOf(job.username, n)}
            && r.record == s.record && e.id in r.procs
            && Held(r.procs[e.id].pc) == (if job.password == ""
                                          then Some(map[Username := job.username, Password := e.random]) else None)
  {
    var s1 := Step(s, e, n);
    var used := if job.password == "" then e.random else job.password;
    assert s1 == Goto(s, e.id, FindUser(used));
    var s2 := Step(s1, e, n);
    assert s2 == Goto(s1, e.id, CreateUser(used));
  }

  /** A token run changes nothing when there is a token, and otherwise issues one, which it then has to record. */
  lemma TokenRunIssues(s: State, e: Event, n: Naming)
    requires e.Advance? && e.id in s.procs && s.procs[e.id] == Proc(ApiToken, CheckTokens)
    ensures var r := Step(Step(s, e, n), e, n);
            && r.accounts == s.accounts && r.record == s.record && e.id in r.procs
            && (s.tokens != {} ==> r.tokens == s.tokens && r.procs[e.id].pc == Finished(false))
            && (s.tokens == {} ==>
                  r.tokens == {Sha256(e.random)} && Held(r.procs[e.id].pc) == Some(map[Token := e.random]))
  {
    assert Step(s, e, n) == Goto(s, e.id, if s.tokens != {} then Finished(false) else IssueToken);
  }

  /** A run left alone from there records in three steps what `WriteInitialValues` does in one go. */
  lemma RecordingMatches(s: State, e: Event, n: Naming, values: Values)
    requires e.Advance? && e.id in s.procs && s.procs[e.id].pc == CreateRecord(values)
    ensures var r := Step(Step(Step(s, e, n), e, n), e, n);
            Fills(r.record, s.record, values) && r.procs[e.id].pc == Finished(true)
  {
    if s.record.Some? {
      DiffReaches(s.record.value, Filled(s.record.value, values));
    }
  }

  /** A run that meets nobody: it lists, looks, creates the account, and finds the record already there. */
  lemma AccountRunUpToRead(s: State, e: Event, username: string, email: string, n: Naming)
    requires e.Advance? && e.id in s.procs && s.procs[e.id] == Proc(Account(username, email, ""), ListUsers)
    requires FreeFor(s, username, n) && s.record.Some?
    ensures var r := FourTimes(s, e, n);
            var values := map[Username := username, Password := e.random];
            var account := LocalUsers.NewRecord(n.trim(username), LocalUsers.Bcrypt(e.random, e.salt), email);
            && r.procs == s.procs[e.id := Proc(Account(username, email, ""), ReadRecord(values))]
            && r.record == s.record && r.tokens == s.tokens
            && r.accounts == s.accounts[SecretOf(username, n) := account]
  {
    var s1 := Step(s, e, n);
    assert s1 == Goto(s, e.id, FindUser(e.random));
    var s2 := Step(s1, e, n);
    assert s2 == Goto(s1, e.id, CreateUser(e.random));
    var s3 := Step(s2, e, n);
    assert s3.procs[e.id].pc == CreateRecord(map[Username := username, Password := e.random]);
  }

  ghost function AfterTokenRun(t: string, u: string, v: string, email: string, n: Naming): State {
    var s0 := State(map[], {}, None, map[]);
    var s1 := Step(s0, Start(3, ApiToken), n);
    var go := Advance(3, t, 0);
    var s2 := Step(Step(Step(Step(s1, go, n), go, n), go, n), Crash(3), n);
    Step(Step(s2, Start(1, Account(u, email, "")), n), Start(2, Account(v, email, "")), n)
  }

  lemma TokenRunLeaves(t: string, u: string, v: string, email: string, n: Naming)
    ensures AfterTokenRun(t, u, v, email, n) ==
            State(map[], {Sha256(t)}, Some(map[Token := t]),
                  map[1 := Proc(Account(u, email, ""), ListUsers), 2 := Proc(Account(v, email, ""), ListUsers)])
  {
    var s1 := Step(State(map[], {}, None, map[]), Start(3, ApiToken), n);
    var go := Advance(3, t, 0);
    assert s1.procs == map[3 := Proc(ApiToken, CheckTokens)];
    assert Step(s1, go, n) == Goto(s1, 3, IssueToken);
    var s3 := Step(Step(s1, go, n), go, n);
    assert s3.procs[3].pc == CreateRecord(map[Token := t]) && s3.tokens == {Sha256(t)};
    var s5 := Step(Step(s3, go, n), Crash(3), n);
    assert s5 == State(map[], {Sha256(t)}, Some(map[Token := t]), map[]);
  }

  predicate TrimsOnce(n: Naming, username: string) { n.trim(n.trim(username)) == n.trim(username) != "" }

  /** And such a state is reached from an empty cluster: after the token run, hooks for two usernames with
      different Secret names each get as far as having read the record. */
  lemma RacingUsernamesReached(t: string, u: string, v: string, email: string, x: Event, y: Event, n: Naming)
    requires TrimsOnce(n, u) && TrimsOnce(n, v) && SecretOf(u, n) != SecretOf(v, n)
    requires x.Advance? && x.id == 1 && y.Advance? && y.id == 2
    ensures var s := AfterTokenRun(t, u, v, email, n);
            var r := FourTimes(FourTimes(s, x, n), y, n);
            && Inv(s, n) && 1 in r.procs && 2 in r.procs && r.record.Some? && !PasswordRecorded(r)
            && r.procs[1].pc == ReadRecord(map[Username := u, Password := x.random])
            && r.procs[2].pc == ReadRecord(map[Username := v, Password := y.random])
  {
    TokenRunLeaves(t, u, v, email, n);
    var s := AfterTokenRun(t, u, v, email, n);
    AccountRunUpToRead(s, x, u, email, n);
    var r := FourTimes(s, x, n);
    assert FreeFor(r, v, n) by {
      forall k, w | k in r.accounts && (w == v || w == n.trim(v)) ensures !LocalUsers.HasUsername(r.accounts[k], w) {
        assert r.accounts[k][LocalUsers.Username] == LocalUsers.Plain(n.trim(u));
      }
    }
    AccountRunUpToRead(r, y, v, email, n);
  }

  // ---------------------------------------------------------------- exactly when it is final

  function Empty(): State { State(map[], {}, None, map[]) }

  predicate JobFor(e: Event, u: string, v: string) {
    e.Start? && e.job.Account? ==> e.job.username == u || e.job.username == v
  }

  /** A state some run of hooks configured with these usernames gets to, from an empty cluster. */
  ghost predicate Reached(s: State, u: string, v: string, n: Naming) {
    exists es: seq<Event> :: (forall i :: 0 <= i < |es| ==> JobFor(es[i], u, v)) && Run(Empty(), es, n) == s
  }

  ghost predicate KeepsPassword(s: State, e: Event, n: Naming)
    requires PasswordRecorded(s)
  {
    && PasswordRecorded(Step(s, e, n))
    && Step(s, e, n).record.value[Password] == s.record.value[Password]
  }

  ghost predicate AlwaysFinal(u: string, v: string, n: Naming) {
    forall s, e :: Reached(s, u, v, n) && JobFor(e, u, v) && PasswordRecorded(s) ==> KeepsPassword(s, e, n)
  }

  lemma ReachedNext(s: State, e: Event, u: string, v: string, n: Naming)
    requires Reached(s, u, v, n) && JobFor(e, u, v)
    ensures Reached(Step(s, e, n), u, v, n)
  {
    var es: seq<Event> :| (forall i :: 0 <= i < |es| ==> JobFor(es[i], u, v)) && Run(Empty(), es, n) == s;
    assert (es + [e])[..|es|] == es;
    assert Run(Empty(), es + [e], n) == Step(s, e, n);
    assert forall i :: 0 <= i < |es + [e]| ==> JobFor((es + [e])[i], u, v);
  }

  lemma ReachedFour(s: State, e: Event, u: string, v: string, n: Naming)
    requires Reached(s, u, v, n) && JobFor(e, u, v)
    ensures Reached(FourTimes(s, e, n), u, v, n)
  {
    ReachedNext(s, e, u, v, n);
    ReachedNext(Step(s, e, n), e, u, v, n);
    ReachedNext(Step(Step(s, e, n), e, n), e, u, v, n);
    ReachedNext(Step(Step(Step(s, e, n), e, n), e, n), e, u, v, n);
  }

  lemma TokenRunReached(t: string, u: string, v: string, email: string, n: Naming)
    ensures Reached(AfterTokenRun(t, u, v, email, n), u, v, n)
  {
    assert Run(Empty(), [], n) == Empty();
    var s1 := Step(Empty(), Start(3, ApiToken), n);
    var go := Advance(3, t, 0);
    ReachedNext(Empty(), Start(3, ApiToken), u, v, n);
    ReachedNext(s1, go, u, v, n);
    ReachedNext(Step(s1, go, n), go, u, v, n);
    var s3 := Step(Step(s1, go, n), go, n);
    ReachedNext(s3, go, u, v, n);
    ReachedNext(Step(s3, go, n), Crash(3), u, v, n);
    var s5 := Step(Step(s3, go, n), Crash(3), n);
    ReachedNext(s5, Start(1, Account(u, email, "")), u, v, n);
    ReachedNext(Step(s5, Start(1, Account(u, email, "")), n), Start(2, Account(v, email, "")), u, v, n);
  }

  lemma OneNameIsFinal(s: State, e: Event, u: string, v: string, n: Naming)
    requires Reached(s, u, v, n) && JobFor(e, u, v) && PasswordRecorded(s) && SecretOf(u, n) == SecretOf(v, n)
    ensures KeepsPassword(s, e, n)
  {
    var es: seq<Event> :| (forall i :: 0 <= i < |es| ==> JobFor(es[i], u, v)) && Run(Empty(), es, n) == s;
    RecordsStayTruthful(Empty(), es, n);
    assert OnlyJobsFor(es, SecretOf(u, n), n) by {
      forall i | 0 <= i < |es| && es[i].Start? && es[i].job.Account?
        ensures SecretOf(es[i].job.username, n) == SecretOf(u, n) { assert JobFor(es[i], u, v); }
    }
    RunOnlySecret(Empty(), es, n, SecretOf(u, n));
    assert [e][..0] == [] && Run(s, [e], n) == Step(Run(s, [], n), e, n) == Step(s, e, n);
    RecordedPasswordIsFinal(s, [e], n, SecretOf(u, n));
  }

  lemma TwoNamesOverwrite(u: string, v: string, n: Naming)
    requires TrimsOnce(n, u) && TrimsOnce(n, v) && SecretOf(u, n) != SecretOf(v, n)
    ensures !AlwaysFinal(u, v, n)
  {
    var x, y := Advance(1, "x", 0), Advance(2, "y", 0);
    RacingUsernamesReached("t", u, v, "", x, y, n);
    TokenRunReached("t", u, v, "", n);
    var s0 := AfterTokenRun("t", u, v, "", n);
    ReachedFour(s0, x, u, v, n);
    ReachedFour(FourTimes(s0, x, n), y, u, v, n);
    var s := FourTimes(FourTimes(s0, x, n), y, n);
    assert Inv(s, n) by {
      FourSteps(s0, x, x, x, x, n);
      FourSteps(FourTimes(s0, x, n), y, y, y, y, n);
    }
    RacingRunsOverwrite(s, 1, 2, x, y, n, Password);
    ReachedNext(s, x, u, v, n);
    ReachedNext(Step(s, x, n), y, u, v, n);
    ReachedNext(Step(Step(s, x, n), y, n), x, u, v, n);
    var mid := Step(Step(Step(s, x, n), y, n), x, n);
    assert Reached(mid, u, v, n) && JobFor(y, u, v) && PasswordRecorded(mid) && !KeepsPassword(mid, y, n);
  }

  /** With two configured usernames, in whatever order and number their hooks run, race or crash, the recorded
      password is final if and only if the two derive one Secret name. */
  lemma PasswordIsFinalIff(u: string, v: string, n: Naming)
    requires TrimsOnce(n, u) && TrimsOnce(n, v)
    ensures AlwaysFinal(u, v, n) <==> SecretOf(u, n) == SecretOf(v, n)
  {
    if SecretOf(u, n) == SecretOf(v, n) {
      forall s, e | Reached(s, u, v, n) && JobFor(e, u, v) && PasswordRecorded(s) ensures KeepsPassword(s, e, n) {
        OneNameIsFinal(s, e, u, v, n);
      }
    } else {
      TwoNamesOverwrite(u, v, n);
    }
  }

  // ---------------------------------------------------------------- configured passwords

  /** A run for an account holds values to record only if it generated the password. */
  ghost predicate OnlyGenerated(s: State) { forall id :: id in s.procs ==> OnlyIfGenerated(s.procs[id]) }

  /** A configured password is never on its way into the record. */
  lemma {:induction false} ConfiguredIsNotRecorded(s: State, es: seq<Event>, n: Naming)
    requires OnlyGenerated(s)
    ensures OnlyGenerated(Run(s, es, n))
  {
    if es != [] {
      ConfiguredIsNotRecorded(s, es[..|es| - 1], n);
      var before, e := Run(s, es[..|es| - 1], n), es[|es| - 1];
      forall id | id in Step(before, e, n).procs ensures OnlyIfGenerated(Step(before, e, n).procs[id]) {
        StepFits(before, e, n, id);
      }
    }
  }

  predicate OnlyIfGenerated(p: Proc) { Fits(p) && (p.job.Account? && p.job.password != "" ==> Held(p.pc).None?) }

  lemma StepFits(s: State, e: Event, n: Naming, id: nat)
    requires id in Step(s, e, n).procs && (id in s.procs ==> OnlyIfGenerated(s.procs[id]))
    ensures OnlyIfGenerated(Step(s, e, n).procs[id])
  {
  }

  /** Token runs are at token steps and account runs at account steps until they have something to record. */
  predicate Fits(p: Proc) {
    && (p.pc.CheckTokens? || p.pc.IssueToken? ==> p.job.ApiToken?)
    && (p.pc.ListUsers? || p.pc.FindUser? || p.pc.CreateUser? ==> p.job.Account?)
  }

  // ---------------------------------------------------------------- what a crash leaves behind

  ghost predicate NobodyHolds(s: State) {
    forall id :: id in s.procs && Held(s.procs[id].pc).Some? ==> Password !in Held(s.procs[id].pc).value
  }

  predicate Has(s: State, k: Key) { s.record.Some? && k in s.record.value }

  predicate PasswordRecorded(s: State) { Has(s, Password) }

  /** A run that dies between creating the account and recording its generated password loses it for
      good: the account exists, so no later run for that Secret name records a password. */
  lemma {:induction false} LostPasswordStaysLost(s: State, es: seq<Event>, n: Naming, secret: string)
    requires OnlySecret(s, secret, n) && OnlyJobsFor(es, secret, n)
    requires secret in s.accounts && NobodyHolds(s) && !PasswordRecorded(s)
    ensures var r := Run(s, es, n); secret in r.accounts && NobodyHolds(r) && !PasswordRecorded(r)
  {
    if es != [] {
      var before, e := Run(s, es[..|es| - 1], n), es[|es| - 1];
      LostPasswordStaysLost(s, es[..|es| - 1], n, secret);
      RunOnlySecret(s, es[..|es| - 1], n, secret);
      StepGrows(before, e, n);
      RecordComesFrom(before, e, n);
      var r := Step(before, e, n);
      if r.record != before.record && before.record.Some? {
        var p := before.procs[e.id].pc;
        RecordAfterPatch(p.values, p.base, before.record.value, Password);
      }
      forall id | id in r.procs && Held(r.procs[id].pc).Some? ensures Password !in Held(r.procs[id].pc).value {
        HeldComesFrom(before, e, n, id);
        if id in before.procs { assert ForSecret(before.procs[id], secret, n); }
      }
    }
  }

  /** A run past its read has a record to patch, with all it read in it. */
  predicate Grounded(s: State, pc: Pc) {
    && (pc.ReadRecord? || pc.PatchRecord? ==> s.record.Some?)
    && (pc.PatchRecord? ==> pc.base.Keys <= s.record.value.Keys)
  }

  ghost predicate AllGrounded(s: State) { forall id :: id in s.procs ==> Grounded(s, s.procs[id].pc) }

  lemma StepKeepsKeys(s: State, e: Event, n: Naming)
    requires s.record.Some?
    ensures Step(s, e, n).record.Some? && s.record.value.Keys <= Step(s, e, n).record.value.Keys
  {
    RecordComesFrom(s, e, n);
    if Step(s, e, n).record != s.record {
      var p := s.procs[e.id].pc;
      forall k | k in s.record.value ensures k in Step(s, e, n).record.value {
        RecordAfterPatch(p.values, p.base, s.record.value, k);
      }
    }
  }

  lemma StepStaysGrounded(s: State, e: Event, n: Naming)
    requires AllGrounded(s)
    ensures AllGrounded(Step(s, e, n))
  {
    var r := Step(s, e, n);
    if s.record.Some? { StepKeepsKeys(s, e, n); }
    forall id | id in r.procs ensures Grounded(r, r.procs[id].pc) {
      if id in s.procs { assert Grounded(s, s.procs[id].pc); }
    }
  }

  lemma {:induction false} RunsStayGrounded(s: State, es: seq<Event>, n: Naming)
    requires AllGrounded(s)
    ensures AllGrounded(Run(s, es, n))
  {
    if es != [] {
      RunsStayGrounded(s, es[..|es| - 1], n);
      StepStaysGrounded(Run(s, es[..|es| - 1], n), es[|es| - 1], n);
    }
  }

  ghost predicate HoldsPassword(s: State, id: nat) {
    id in s.procs && Held(s.procs[id].pc).Some? && Password in Held(s.procs[id].pc).value
  }

  /** A run that holds the password records it, or finds one recorded, or is one step nearer to that. */
  lemma HolderAdvances(s: State, id: nat, e: Event, n: Naming)
    requires AllGrounded(s) && HoldsPassword(s, id) && e.Advance? && e.id == id
    ensures var r := Step(s, e, n);
            match s.procs[id].pc
            case CreateRecord(v) => PasswordRecorded(r) || (HoldsPassword(r, id) && r.procs[id].pc.ReadRecord?)
            case ReadRecord(v) => PasswordRecorded(r) || (HoldsPassword(r, id) && r.procs[id].pc.PatchRecord?)
            case _ => PasswordRecorded(r)
  {
    assert Grounded(s, s.procs[id].pc);
    if s.procs[id].pc.PatchRecord? {
      RecordAfterPatch(s.procs[id].pc.values, s.procs[id].pc.base, s.record.value, Password);
    } else if s.procs[id].pc.ReadRecord? {
      assert Password in Filled(s.record.value, s.procs[id].pc.values);
    }
  }

  lemma RecordedStays(s: State, e: Event, n: Naming)
    requires PasswordRecorded(s)
    ensures PasswordRecorded(Step(s, e, n))
  {
    StepKeepsKeys(s, e, n);
  }

  /** Whoever holds the password has it recorded within three steps of its own. */
  lemma HolderRecords(s: State, id: nat, e: Event, n: Naming)
    requires AllGrounded(s) && HoldsPassword(s, id) && e.Advance? && e.id == id
    ensures PasswordRecorded(Step(Step(Step(s, e, n), e, n), e, n))
  {
    var s1 := Step(s, e, n);
    var s2 := Step(s1, e, n);
    HolderAdvances(s, id, e, n);
    StepStaysGrounded(s, e, n);
    if PasswordRecorded(s1) { RecordedStays(s1, e, n); } else { HolderAdvances(s1, id, e, n); }
    StepStaysGrounded(s1, e, n);
    if PasswordRecorded(s2) { RecordedStays(s2, e, n); } else { HolderAdvances(s2, id, e, n); }
  }

  ghost predicate CanBeRecorded(s: State, n: Naming, secret: string) {
    exists es: seq<Event> :: OnlyJobsFor(es, secret, n) && PasswordRecorded(Run(s, es, n))
  }

  lemma ThreeEvents(s: State, e: Event, n: Naming)
    ensures Run(s, [e, e, e], n) == Step(Step(Step(s, e, n), e, n), e, n)
  {
    assert [e, e, e][..2] == [e, e] && [e, e][..1] == [e] && [e][..0] == [];
    assert Run(s, [], n) == s && Run(s, [e], n) == Step(s, e, n) && Run(s, [e, e], n) == Step(Step(s, e, n), e, n);
  }

  /** Once the account exists, its generated password can still come to be recorded if and only if it is
      recorded already or some run still holds it. */
  lemma RecordableIff(s: State, n: Naming, secret: string)
    requires OnlySecret(s, secret, n) && AllGrounded(s) && secret in s.accounts
    ensures CanBeRecorded(s, n, secret) <==> PasswordRecorded(s) || exists id :: HoldsPassword(s, id)
  {
    if PasswordRecorded(s) {
      assert Run(s, [], n) == s && OnlyJobsFor([], secret, n);
    } else if id :| HoldsPassword(s, id) {
      var e := Advance(id, "", 0);
      HolderRecords(s, id, e, n);
      ThreeEvents(s, e, n);
      assert OnlyJobsFor([e, e, e], secret, n);
    } else {
      forall es | OnlyJobsFor(es, secret, n) ensures !PasswordRecorded(Run(s, es, n)) {
        assert NobodyHolds(s) by {
          forall id | id in s.procs && Held(s.procs[id].pc).Some? ensures Password !in Held(s.procs[id].pc).value {
            assert !HoldsPassword(s, id);
          }
        }
        LostPasswordStaysLost(s, es, n, secret);
      }
    }
  }

  // ---------------------------------------------------------------- who loses the race, and how

  /** The account of this username is there, under its own Secret name. */
  predicate There(s: State, username: string, n: Naming) {
    SecretOf(username, n) in s.accounts && LocalUsers.HasUsername(s.accounts[SecretOf(username, n)], n.trim(username))
  }

  /** The winner's create puts it there. */
  lemma WinnerIsThere(s: State, e: Event, n: Naming)
    requires e.Advance? && e.id in s.procs && s.procs[e.id].pc.CreateUser? && s.procs[e.id].job.Account?
    requires SecretOf(s.procs[e.id].job.username, n) !in s.accounts
    ensures There(Step(s, e, n), s.procs[e.id].job.username, n)
  {
  }

  predicate Undecided(pc: Pc) { pc.ListUsers? || pc.FindUser? }

  /** Where a run may be that had not looked, and one that had, when the account appeared. */
  predicate EndsQuietly(pc: Pc) { Undecided(pc) || pc == Finished(false) }

  predicate EndsInConflict(pc: Pc) { pc.CreateUser? || pc == Failed }

  ghost predicate AccountRun(s: State, id: nat, job: Job) { id in s.procs && s.procs[id].job == job && job.Account? }

  lemma StepDecides(s: State, e: Event, n: Naming, id: nat, job: Job)
    requires AccountRun(s, id, job) && There(s, job.username, n) && n.trim(job.username) != "" && e != Crash(id)
    ensures var r := Step(s, e, n);
            && AccountRun(r, id, job) && There(r, job.username, n)
            && (EndsQuietly(s.procs[id].pc) ==> EndsQuietly(r.procs[id].pc))
            && (EndsInConflict(s.procs[id].pc) ==> EndsInConflict(r.procs[id].pc))
            && (e.Advance? && e.id == id && !s.procs[id].pc.ListUsers? && Undecided(s.procs[id].pc) ==>
                  r.procs[id].pc == Finished(false))
            && (e.Advance? && e.id == id && s.procs[id].pc.CreateUser? ==> r.procs[id].pc == Failed)
  {
    assert LocalUsers.Taken(s.accounts, n.trim(job.username));
  }

  ghost predicate Survives(es: seq<Event>, id: nat) { forall i :: 0 <= i < |es| ==> es[i] != Crash(id) }

  /** The line is a run's own lookup. Once the account is there, a run that has not looked for it yet can only
      end with "exists already, nothing to do", and one that has can only fail with the API server's conflict,
      in every run in which it is not killed. */
  lemma {:induction false} RaceLoserFailsIff(s: State, es: seq<Event>, n: Naming, id: nat, job: Job)
    requires AccountRun(s, id, job) && There(s, job.username, n) && n.trim(job.username) != "" && Survives(es, id)
    requires Undecided(s.procs[id].pc) || s.procs[id].pc.CreateUser?
    ensures var r := Run(s, es, n);
            && AccountRun(r, id, job) && There(r, job.username, n)
            && (Undecided(s.procs[id].pc) <==> EndsQuietly(r.procs[id].pc))
            && (s.procs[id].pc.CreateUser? <==> EndsInConflict(r.procs[id].pc))
  {
    if es != [] {
      var init, e := es[..|es| - 1], es[|es| - 1];
      RaceLoserFailsIff(s, init, n, id, job);
      StepDecides(Run(s, init, n), e, n, id, job);
    }
  }

  // ---------------------------------------------------------------- the steps themselves

  /** What is missing has been filled in, except for the keys still to come. */
  ghost predicate PartlyFilled(patched: Values, base: Values, values: Values, left: set<Key>) {
    && (forall k :: k in patched <==> k in base || (k in values && k !in left))
    && (forall k :: k in patched ==> patched[k] == if k in base then base[k] else values[k])
  }

  lemma FilledOneMore(patched: Values, base: Values, values: Values, left: set<Key>, k: Key)
    requires PartlyFilled(patched, base, values, left) && k in left && k in values
    ensures if k in base then PartlyFilled(patched, base, values, left - {k})
            else PartlyFilled(patched[k := values[k]], base, values, left - {k}) && patched[k := values[k]] != base
  {
    assert k in patched[k := values[k]];
  }

  lemma AllFilled(patched: Values, base: Values, values: Values)
    requires PartlyFilled(patched, base, values, {})
    ensures patched == Filled(base, values)
  {
  }

  /** The loop of `writeInitialValues`. */
  method FillMissing(base: Values, values: Values) returns (patched: Values, changed: bool)
    ensures patched == Filled(base, values) && (changed <==> patched != base)
  {
    patched, changed := base, false;
    var left := values.Keys;
    while left != {}
      invariant left <= values.Keys && PartlyFilled(patched, base, values, left)
      invariant changed <==> patched != base
      decreases |left|
    {
      var k :| k in left;
      FilledOneMore(patched, base, values, left, k);
      left := left - {k};
      if k !in base {
        patched := patched[k := values[k]];
        changed := true;
      }
    }
    AllFilled(patched, base, values);
  }

  datatype AccountResult = Created(generated: bool) | Existing | Error

  datatype TokenResult = Issued | AlreadyThere | TokenError

  /** What may fail, other than with "already exists". */
  datatype Call = ListCall | FindCall | HashCall | CreateUserCall | TokensCall | IssueCall
                | CreateRecordCall | ReadRecordCall | PatchRecordCall

  /** What recording values leaves, and whether it went through. */
  function Recorded(record: Option<Values>, values: Values, faults: set<Call>): (r: (Option<Values>, bool)) {
    if CreateRecordCall in faults then (record, false)
    else if record.None? then (Some(values), true)
    else if ReadRecordCall in faults then (record, false)
    else if Filled(record.value, values) == record.value then (record, true)
    else if PatchRecordCall in faults then (record, false)
    else (Some(Filled(record.value, values)), true)
  }

  /** The record holds what it held and, of the new values, those it did not hold: no other key, no other value. */
  ghost predicate Fills(now: Option<Values>, was: Option<Values>, values: Values) {
    var before: Values := if was.Some? then was.value else map[];
    && now.Some? && now.value.Keys == before.Keys + values.Keys
    && forall k :: k in now.value ==> now.value[k] == if k in before then before[k] else values[k]
  }

  ghost predicate RecordTruthful(record: Option<Values>, accounts: Accounts, tokens: set<Digest>, n: Naming) {
    record.Some? ==> Truthful(record.value, accounts, tokens, n)
  }

  /** Filling in truthful values keeps a truthful record truthful. */
  lemma FillsTruthfully(now: Option<Values>, was: Option<Values>, values: Values, accounts: Accounts,
                        tokens: set<Digest>, n: Naming)
    requires Fills(now, was, values) && RecordTruthful(was, accounts, tokens, n)
    requires Truthful(values, accounts, tokens, n)
    ensures RecordTruthful(now, accounts, tokens, n)
  {
  }

  /** The run gets as far as creating the account. */
  ghost predicate AccountWanted(accounts: Accounts, username: string, n: Naming, faults: set<Call>) {
    && faults !! {ListCall, FindCall, HashCall, CreateUserCall}
    && n.trim(username) != "" && SecretOf(username, n) !in accounts
    && !LocalUsers.Taken(accounts, username) && !LocalUsers.Taken(accounts, n.trim(username))
  }

  /** It ends quietly because the account is there. */
  ghost predicate AccountThere(accounts: Accounts, username: string, n: Naming, faults: set<Call>) {
    && ListCall !in faults
    && (LocalUsers.Taken(accounts, username)
        || (n.trim(username) != "" && FindCall !in faults && LocalUsers.Taken(accounts, n.trim(username))))
  }

  /** A new account opens with its password, and what was truthful before still is. */
  lemma AccountOpens(before: Accounts, accounts: Accounts, username: string, password: string, salt: nat, email: string,
                     record: Option<Values>, tokens: set<Digest>, n: Naming)
    requires SecretOf(username, n) !in before
    requires accounts == before[SecretOf(username, n) :=
                           LocalUsers.NewRecord(n.trim(username), LocalUsers.Bcrypt(password, salt), email)]
    ensures Opens(accounts, username, password, n)
    ensures RecordTruthful(record, before, tokens, n) ==> RecordTruthful(record, accounts, tokens, n)
  {
  }

  /** What a run does, step by step. */
  ghost predicate AccountSteps(was: Accounts, wasRecord: Option<Values>, accounts: Accounts, record: Option<Values>,
                               r: AccountResult, username: string, email: string, password: string, random: string,
                               salt: nat, n: Naming, faults: set<Call>)
  {
    && (r == Existing <==> AccountThere(was, username, n, faults))
    && (!AccountWanted(was, username, n, faults) ==>
            accounts == was && record == wasRecord && !r.Created?)
    && (AccountWanted(was, username, n, faults) ==>
                  var used := if password == "" then random else password;
                  var values := map[Username := username, Password := used];
                  var (written, ok) := if password == "" then Recorded(wasRecord, values, faults)
                                       else (wasRecord, true);
                  && accounts == was[SecretOf(username, n) :=
                       LocalUsers.NewRecord(n.trim(username), LocalUsers.Bcrypt(used, salt), email)]
                  && record == written && r == if ok then Created(password == "") else Error)
  }

  /** Some stored account has this username. */
  ghost predicate Known(accounts: Accounts, username: string) {
    exists k :: k in accounts && LocalUsers.Username in accounts[k]
                && accounts[k][LocalUsers.Username] == LocalUsers.Plain(username)
  }

  lemma KnownMeans(accounts: Accounts, username: string)
    ensures Known(accounts, username) <==> LocalUsers.Taken(accounts, username)
  {
    if Known(accounts, username) {
      var k :| k in accounts && LocalUsers.Username in accounts[k]
               && accounts[k][LocalUsers.Username] == LocalUsers.Plain(username);
      assert LocalUsers.HasUsername(accounts[k], username);
    }
    if LocalUsers.Taken(accounts, username) {
      var k :| k in accounts && LocalUsers.HasUsername(accounts[k], username);
      assert accounts[k][LocalUsers.Username] == LocalUsers.Plain(username);
    }
  }

  /** What a run means to the operator: an account reported as created opens with the password, that of the
      record if it was generated; nothing stored before is lost, and the record stays truthful. */
  ghost predicate AccountRight(was: Accounts, wasRecord: Option<Values>, accounts: Accounts, record: Option<Values>,
                               tokens: set<Digest>, r: AccountResult, username: string, email: string,
                               password: string, random: string, n: Naming, faults: set<Call>)
  {
    && (faults == {} ==>
          && (r == Existing <==> Known(was, username) || (n.trim(username) != "" && Known(was, n.trim(username))))
          && (r.Created? <==>
                && n.trim(username) != "" && !Known(was, username) && !Known(was, n.trim(username))
                && SecretOf(username, n) !in was))
    && (RecordTruthful(wasRecord, was, tokens, n) ==> RecordTruthful(record, accounts, tokens, n))
    && (forall k :: k in was ==> k in accounts && accounts[k] == was[k])
    && (password != "" || r == Existing ==> record == wasRecord)
    && (r.Created? ==>
          && r.generated == (password == "") && accounts.Keys == was.Keys + {SecretOf(username, n)}
          && Opens(accounts, username, if password == "" then random else password, n)
          && LocalUsers.Owner in accounts[SecretOf(username, n)]
          && accounts[SecretOf(username, n)][LocalUsers.Owner] == LocalUsers.Plain(email))
    && (r.Created? && r.generated ==> Fills(record, wasRecord, map[Username := username, Password := random]))
  }

  lemma RecordedFills(was: Option<Values>, values: Values, faults: set<Call>)
    ensures var (now, ok) := Recorded(was, values, faults);
            if ok then Fills(now, was, values) else now == was
  {
  }

  lemma RecordedWithoutFaults(was: Option<Values>, values: Values)
    ensures Recorded(was, values, {}).1
  {
  }

  lemma AccountIsRight(was: Accounts, wasRecord: Option<Values>, accounts: Accounts, record: Option<Values>,
                       tokens: set<Digest>, r: AccountResult, username: string, email: string, password: string,
                       random: string, salt: nat, n: Naming, faults: set<Call>)
    requires AccountSteps(was, wasRecord, accounts, record, r, username, email, password, random, salt, n, faults)
    ensures AccountRight(was, wasRecord, accounts, record, tokens, r, username, email, password, random, n, faults)
  {
    KnownMeans(was, username);
    KnownMeans(was, n.trim(username));
    RecordedWithoutFaults(wasRecord, map[Username := username, Password := random]);
    if AccountWanted(was, username, n, faults) {
      var used := if password == "" then random else password;
      var values := map[Username := username, Password := used];
      AccountOpens(was, accounts, username, used, salt, email, wasRecord, tokens, n);
      RecordedFills(wasRecord, values, faults);
      if password == "" && record != wasRecord && RecordTruthful(wasRecord, accounts, tokens, n) {
        FillsTruthfully(record, wasRecord, values, accounts, tokens, n);
      }
    }
  }

  class Cluster {
    var accounts: Accounts
    var tokens: set<Digest>
    var record: Option<Values>

    constructor ()
      ensures accounts == map[] && tokens == {} && record == None
    {
      accounts, tokens, record := map[], {}, None;
    }

    /** `writeInitialValues`, uninterrupted: the loop fills in what is missing. */
    method WriteInitialValues(values: Values, faults: set<Call>) returns (ok: bool)
      modifies this`record
      ensures (record, ok) == Recorded(old(record), values, faults)
      ensures if ok then Fills(record, old(record), values) else record == old(record)
      ensures faults !! {CreateRecordCall, ReadRecordCall, PatchRecordCall} ==> ok
    {
      if CreateRecordCall in faults { return false; }
      if record.None? {
        record := Some(values);
        return true;
      }
      if ReadRecordCall in faults { return false; }
      var patched, changed := FillMissing(record.value, values);
      if !changed { return true; }
      if PatchRecordCall in faults { return false; }
      DiffReaches(record.value, patched);
      record := Some(Apply(record.value, Diff(record.value, patched)));
      return true;
    }

    /** The steps of `AdminAccount`, after the UserSpace has been ensured. */
    method RunAdminAccount(username: string, email: string, password: string, random: string, salt: nat, n: Naming,
                        faults: set<Call>)
      returns (r: AccountResult)
      modifies this`accounts, this`record
      ensures AccountSteps(old(accounts), old(record), accounts, record, r, username, email, password, random, salt, n,
                           faults)
    {
      if ListCall in faults { return Error; }
      var left := accounts.Keys;
      while left != {}
        invariant left <= accounts.Keys
        invariant forall k :: k in accounts && k !in left ==> !LocalUsers.HasUsername(accounts[k], username)
        decreases |left|
      {
        var k :| k in left;
        if LocalUsers.HasUsername(accounts[k], username) { return Existing; }
        left := left - {k};
      }
      var used := if password == "" then random else password;
      var user := n.trim(username);
      if user == "" || FindCall in faults { return Error; }
      if exists k | k in accounts.Keys :: LocalUsers.HasUsername(accounts[k], user) { return Existing; }
      if HashCall in faults || CreateUserCall in faults || n.name(user) in accounts { return Error; }
      accounts := accounts[n.name(user) := LocalUsers.NewRecord(user, LocalUsers.Bcrypt(used, salt), email)];
      if password == "" {
        var ok := WriteInitialValues(map[Username := username, Password := used], faults);
        if !ok { return Error; }
      }
      return Created(password == "");
    }

    /** `AdminAccount`, uninterrupted, after the UserSpace has been ensured. */
    method AdminAccount(username: string, email: string, password: string, random: string, salt: nat, n: Naming,
                        faults: set<Call>)
      returns (r: AccountResult)
      modifies this`accounts, this`record
      ensures r == Existing <==> AccountThere(old(accounts), username, n, faults)
      ensures !AccountWanted(old(accounts), username, n, faults) ==>
          accounts == old(accounts) && record == old(record) && !r.Created?
      ensures AccountWanted(old(accounts), username, n, faults) ==>
                var used := if password == "" then random else password;
                var values := map[Username := username, Password := used];
                var (written, ok) := if password == "" then Recorded(old(record), values, faults)
                                     else (old(record), true);
                && accounts == old(accounts)[SecretOf(username, n) :=
                     LocalUsers.NewRecord(n.trim(username), LocalUsers.Bcrypt(used, salt), email)]
                && record == written && r == if ok then Created(password == "") else Error
      ensures AccountRight(old(accounts), old(record), accounts, record, tokens, r, username, email, password, random,
                           n,
                           faults)
    {
      r := RunAdminAccount(username, email, password, random, salt, n, faults);
      AccountIsRight(old(accounts), old(record), accounts, record, tokens, r, username, email, password, random, salt,
                     n,
                     faults);
    }

    /** `AdminToken`, uninterrupted. */
    method AdminToken(random: string, faults: set<Call>, ghost n: Naming) returns (r: TokenResult)
      modifies this`tokens, this`record
      ensures r == AlreadyThere <==> TokensCall !in faults && old(tokens) != {}
      ensures faults == {} && old(tokens) == {} ==> r == Issued
      ensures tokens == if faults !! {TokensCall, IssueCall} && old(tokens) == {} then {Sha256(random)} else old(tokens)
      ensures tokens == old(tokens) ==> record == old(record)
      ensures RecordTruthful(old(record), accounts, old(tokens), n) ==> RecordTruthful(record, accounts, tokens, n)
      ensures r == Issued ==> && record.Some? && Token in record.value && Sha256(random) in tokens
                              && (old(record).None? || Token !in old(record).value ==> record.value[Token] == random)
      ensures tokens != old(tokens) ==>
                (record, r) == (Recorded(old(record), map[Token := random], faults).0,
                                if Recorded(old(record), map[Token := random], faults).1 then Issued else TokenError)
    {
      if TokensCall in faults { return TokenError; }
      if tokens != {} { return AlreadyThere; }
      if IssueCall in faults { return TokenError; }
      tokens := tokens + {Sha256(random)};
      ghost var was := record;
      var ok := WriteInitialValues(map[Token := random], faults);
      assert Sha256(random) in tokens;
      if ok && RecordTruthful(was, accounts, tokens, n) {
        FillsTruthfully(record, was, map[Token := random], accounts, tokens, n);
      }
      return if ok then Issued else TokenError;
    }
  }
}
