/** API tokens: only their digests are stored, and a token stops working at a date rounded down to the
    second. */
module TokenStore {
  import opened Common

  /** An expiry at the zero time stands for "no expiry". */
  datatype Grant = Grant(kind: string, namespace: string, account: string, expiresAt: Time)

  /** The `expires-at` entry: absent, whole seconds, or text that does not parse. */
  datatype ExpiryText = Absent | Stamp(seconds: int) | Unparsable

  /** A Secret of the store's namespace; `kind` is its token-kind label, if it has one. */
  datatype Secret = Secret(kind: Option<string>, hash: Digest, namespace: string, account: string, expiry: ExpiryText)

  /** By generated Secret name. */
  type Secrets = map<nat, Secret>

  datatype Record = Record(secret: nat, kind: string, namespace: string, account: string, expiresAt: Time)

  function NewSecret(g: Grant, plain: string): Secret {
    Secret(Some(g.kind), Sha256(plain), g.namespace, g.account,
           if g.expiresAt == 0 then Absent else Stamp(g.expiresAt / SECOND))
  }

  /** `time.Parse` with its error ignored. */
  function Parsed(e: ExpiryText): Time { if e.Stamp? then e.seconds * SECOND else 0 }

  function RecordOf(n: nat, s: Secret): Record
    requires s.kind.Some?
  {
    Record(n, s.kind.value, s.namespace, s.account, Parsed(s.expiry))
  }

  predicate Expired(r: Record, now: Time) { r.expiresAt != 0 && now > r.expiresAt }

  predicate Hit(s: Secret, plain: string) { s.kind.Some? && s.hash == Sha256(plain) }

  ghost predicate Accepts(m: Secrets, plain: string, now: Time, r: Record) {
    r.secret in m && Hit(m[r.secret], plain) && r == RecordOf(r.secret, m[r.secret]) && !Expired(r, now)
  }

  ghost predicate OnePerToken(m: Secrets) {
    forall n, k :: n in m && k in m && m[n].kind.Some? && m[k].kind.Some? && m[n].hash == m[k].hash ==> n == k
  }

  datatype Answer = Accepted(record: Record) | NotFound | Broken

  class Store {
    var secrets: Secrets

    ghost predicate Valid()
      reads this
    {
      OnePerToken(secrets)
    }

    constructor (secrets: Secrets)
      requires OnePerToken(secrets)
      ensures Valid() && this.secrets == secrets
    {
      this.secrets := secrets;
    }

    /** `Issue`; `id` and `plain` are freshly generated. */
    method Issue(g: Grant, id: nat, plain: string, createFails: bool) returns (ok: bool)
      requires Valid() && id !in secrets && forall n :: n in secrets ==> secrets[n].hash != Sha256(plain)
      modifies this
      ensures Valid() && ok == !createFails
      ensures secrets == if ok then old(secrets)[id := NewSecret(g, plain)] else old(secrets)
    {
      if createFails { return false; }
      secrets := secrets[id := NewSecret(g, plain)];
      return true;
    }

    /** `Lookup`: list and compare. */
    method Lookup(plain: string, now: Time, listFails: bool) returns (r: Answer)
      requires Valid()
      ensures r.Broken? <==> listFails
      ensures forall rec :: r == Accepted(rec) <==> !listFails && Accepts(secrets, plain, now, rec)
    {
      if listFails { return Broken; }
      var left := secrets.Keys;
      while left != {}
        invariant left <= secrets.Keys
        invariant forall n :: n in secrets && n !in left ==> !Hit(secrets[n], plain)
        decreases |left|
      {
        var n :| n in left;
        left := left - {n};
        if secrets[n].kind.Some? && secrets[n].hash == Sha256(plain) {
          assert forall k :: k in secrets && Hit(secrets[k], plain) ==> k == n;
          var record := RecordOf(n, secrets[n]);
          if Expired(record, now) { return NotFound; }
          return Accepted(record);
        }
      }
      return NotFound;
    }

    /** `Revoke`; an absent Secret is not an error. */
    method Revoke(id: nat, deleteFails: bool) returns (ok: bool)
      requires Valid()
      modifies this
      ensures Valid() && ok == !deleteFails
      ensures secrets == if ok then old(secrets) - {id} else old(secrets)
    {
      if deleteFails { return false; }
      secrets := secrets - {id};
      return true;
    }

    /** `HasAny`; `None` is a failed list. */
    method HasAny(kind: string, listFails: bool) returns (found: Option<bool>)
      ensures found.None? <==> listFails
      ensures found.Some? ==> (found.value <==> exists n :: n in secrets && secrets[n].kind == Some(kind))
    {
      if listFails { return None; }
      return Some(exists n | n in secrets.Keys :: secrets[n].kind == Some(kind));
    }
  }

  // ---------------------------------------------------------------- the history law

  datatype Op = Issue(grant: Grant, id: nat, plain: string) | Revoke(id: nat)

  function Step(m: Secrets, op: Op): (r: Secrets) {
    match op
    case Issue(g, id, plain) => m[id := NewSecret(g, plain)]
    case Revoke(id) => m - {id}
  }

  function Run(ops: seq<Op>): (m: Secrets) {
    if ops == [] then map[] else Step(Run(ops[..|ops| - 1]), ops[|ops| - 1])
  }

  /** Generated tokens and Secret names never repeat. */
  ghost predicate Plausible(ops: seq<Op>) {
    forall i, j :: 0 <= i < j < |ops| && ops[i].Issue? && ops[j].Issue? ==>
        ops[i].plain != ops[j].plain && ops[i].id != ops[j].id
  }

  ghost predicate Standing(ops: seq<Op>, i: nat) {
    i < |ops| && ops[i].Issue? && forall j :: i < j < |ops| && ops[j].Revoke? ==> ops[j].id != ops[i].id
  }

  /** The date an expiry takes effect at: its own, rounded down to a whole second. */
  function Cutoff(g: Grant): Time { (g.expiresAt / SECOND) * SECOND }

  /** No expiry, or not past the rounded date. (A date within the zero second rounds to "no expiry".) */
  predicate Unexpired(g: Grant, t: Time) { g.expiresAt == 0 || Cutoff(g) == 0 || t <= Cutoff(g) }

  ghost predicate Holds(m: Secrets, ops: seq<Op>) {
    forall n :: n in m ==> exists i: nat :: Standing(ops, i) && ops[i].id == n
  }

  ghost predicate Exact(m: Secrets, ops: seq<Op>) {
    forall i: nat :: Standing(ops, i) ==> ops[i].id in m && m[ops[i].id] == NewSecret(ops[i].grant, ops[i].plain)
  }

  lemma StandingGrows(ops: seq<Op>, i: nat)
    requires ops != []
    ensures i < |ops| - 1 ==>
        (Standing(ops, i) <==>
         Standing(ops[..|ops| - 1], i) && !(ops[|ops| - 1].Revoke? && ops[|ops| - 1].id == ops[i].id))
    ensures i == |ops| - 1 ==> (Standing(ops, i) <==> ops[i].Issue?)
  {
    var init := ops[..|ops| - 1];
    if i < |init| && Standing(ops, i) {
      forall j | i < j < |init| && init[j].Revoke? ensures init[j].id != init[i].id { assert ops[j].id != ops[i].id; }
    }
    if i < |init| && Standing(init, i) && !(ops[|ops| - 1].Revoke? && ops[|ops| - 1].id == ops[i].id) {
      forall j | i < j < |ops| && ops[j].Revoke? ensures ops[j].id != ops[i].id {
        if j < |init| { assert init[j].id != init[i].id; }
      }
    }
  }

  lemma {:induction false} EveryRunIsExact(ops: seq<Op>)
    requires Plausible(ops)
    ensures Holds(Run(ops), ops) && Exact(Run(ops), ops)
  {
    if ops != [] {
      var init, op := ops[..|ops| - 1], ops[|ops| - 1];
      EveryRunIsExact(init);
      var m, r := Run(init), Run(ops);
      forall i: nat | Standing(ops, i) ensures ops[i].id in r && r[ops[i].id] == NewSecret(ops[i].grant, ops[i].plain) {
        StandingGrows(ops, i);
        if i < |init| { assert Standing(init, i) && init[i] == ops[i]; }
      }
      forall n | n in r ensures exists i: nat :: Standing(ops, i) && ops[i].id == n {
        if op.Issue? && n == op.id {
          StandingGrows(ops, |ops| - 1);
        } else {
          assert n in m;
          var i: nat :| Standing(init, i) && init[i].id == n;
          StandingGrows(ops, i);
          assert Standing(ops, i) && ops[i].id == n;
        }
      }
    }
  }

  /** What a lookup relies on: no token is stored twice. */
  lemma RunsStayValid(ops: seq<Op>)
    requires Plausible(ops)
    ensures OnePerToken(Run(ops))
  {
    EveryRunIsExact(ops);
    var m := Run(ops);
    forall n, k | n in m && k in m && m[n].hash == m[k].hash ensures n == k {
      var i: nat :| Standing(ops, i) && ops[i].id == n;
      var j: nat :| Standing(ops, j) && ops[j].id == k;
      assert m[n] == NewSecret(ops[i].grant, ops[i].plain) && m[k] == NewSecret(ops[j].grant, ops[j].plain);
    }
  }

  /** The answer an issue promises the holder of its token. */
  function Promised(op: Op): Record
    requires op.Issue?
  {
    Record(op.id, op.grant.kind, op.grant.namespace, op.grant.account,
           if op.grant.expiresAt == 0 then 0 else Cutoff(op.grant))
  }

  ghost predicate Entitles(ops: seq<Op>, i: nat, plain: string, t: Time) {
    Standing(ops, i) && ops[i].plain == plain && Unexpired(ops[i].grant, t)
  }

  /** `TokenStore` refines its history: a token is accepted exactly when it was issued, not revoked, and has
      no expiry or is not past its date rounded down to the second, and the answer names what it was issued
      for. */
  lemma TokenHistoryLaw(ops: seq<Op>, plain: string, t: Time, r: Record)
    requires Plausible(ops)
    ensures Accepts(Run(ops), plain, t, r) <==> exists i: nat :: Entitles(ops, i, plain, t) && r == Promised(ops[i])
  {
    EveryRunIsExact(ops);
    var m := Run(ops);
    if Accepts(m, plain, t, r) {
      var i: nat :| Standing(ops, i) && ops[i].id == r.secret;
      assert m[r.secret] == NewSecret(ops[i].grant, ops[i].plain);
      assert Entitles(ops, i, plain, t);
    }
    if i: nat :| Entitles(ops, i, plain, t) && r == Promised(ops[i]) {
      assert m[ops[i].id] == NewSecret(ops[i].grant, ops[i].plain);
    }
  }

  /** Of any stored token, expiry refuses exactly those past a readable date other than the zero time. So a
      stored expiry that does not parse never expires: `recordFromSecret` reads it as the zero time, which
      `Expired` takes for "no expiry". The comment in the source says the opposite. */
  lemma ExpiryDecides(m: Secrets, n: nat, plain: string, t: Time)
    requires n in m && Hit(m[n], plain)
    ensures Accepts(m, plain, t, RecordOf(n, m[n])) <==>
            !(m[n].expiry.Stamp? && m[n].expiry.seconds != 0 && t > m[n].expiry.seconds * SECOND)
  {
  }
}
