/** Single-use password reset links, kept as Secrets that hold only a digest and a deadline. */
module ResetStore {
  import opened Common

  const LIFETIME := 24 * 60 * 60 * SECOND

  /** The stored deadline: RFC 3339 text carries whole seconds (section 5.6), or it does not parse. */
  datatype Deadline = Stamp(seconds: int) | Unparsable

  datatype Record = Record(username: string, hash: Digest, deadline: Deadline)

  /** By generated Secret name. */
  type Records = map<nat, Record>

  /** `Format(time.RFC3339)` drops the fraction of a second. */
  function Formatted(t: Time): Deadline { Stamp(t / SECOND) }

  predicate Expired(r: Record, now: Time) { r.deadline.Unparsable? || now > r.deadline.seconds * SECOND }

  function NewRecord(username: string, plain: string, now: Time): Record {
    Record(username, Sha256(plain), Formatted(now + LIFETIME))
  }

  /** The person's outstanding links and everybody's expired ones are gone. */
  function Cleared(m: Records, username: string, now: Time): (r: Records) {
    map n | n in m && m[n].username != username && !Expired(m[n], now) :: m[n]
  }

  function Issued(m: Records, username: string, id: nat, plain: string, now: Time): (r: Records) {
    Cleared(m, username, now)[id := NewRecord(username, plain, now)]
  }

  /** Presenting a link removes its record, expired or not. */
  function Presented(m: Records, plain: string): (r: Records) {
    if plain == "" then m else map n | n in m && m[n].hash != Sha256(plain) :: m[n]
  }

  ghost predicate Grants(m: Records, plain: string, now: Time, username: string) {
    plain != "" && exists n :: n in m && m[n].hash == Sha256(plain) && m[n].username == username && !Expired(m[n], now)
  }

  ghost predicate OnePerLink(m: Records) {
    forall n, k :: n in m && k in m && m[n].hash == m[k].hash ==> n == k
  }

  /** What clearing for a person deletes. */
  predicate Doomed(r: Record, username: string, now: Time) { r.username == username || Expired(r, now) }

  /** Some of the doomed records are gone, everything else is as it was. */
  ghost predicate Thinned(r: Records, m: Records, username: string, now: Time) {
    && (forall n :: n in r ==> n in m && r[n] == m[n])
    && (forall n :: n in m && n !in r ==> Doomed(m[n], username, now))
  }

  /** The record a link names cannot be deleted. */
  ghost predicate Stuck(m: Records, plain: string, faults: set<nat>) {
    exists n :: n in m && m[n].hash == Sha256(plain) && n in faults
  }

  datatype Redemption = Granted(username: string) | Invalid | Broken

  class Store {
    var records: Records

    ghost predicate Valid()
      reads this
    {
      OnePerLink(records)
    }

    constructor ()
      ensures Valid() && records == map[]
    {
      records := map[];
    }

    /** `clearStaleAndPrevious`: delete as the listing goes by, and stop at the first delete that fails. */
    method ClearStaleAndPrevious(username: string, now: Time, listFails: bool, faults: set<nat>) returns (ok: bool)
      modifies this
      ensures ok <==> !listFails && forall n :: n in old(records) && Doomed(old(records)[n], username, now) ==>
          n !in faults
      ensures ok ==> records == Cleared(old(records), username, now)
      ensures listFails ==> records == old(records)
      ensures Thinned(records, old(records), username, now)
    {
      if listFails { return false; }
      var left := records.Keys;
      while left != {}
        invariant left <= records.Keys && Thinned(records, old(records), username, now)
        invariant forall n :: n in records && n !in left ==> !Doomed(records[n], username, now)
        invariant forall n :: n in old(records) && n !in records ==> n !in faults
        decreases |left|
      {
        var n :| n in left;
        left := left - {n};
        if records[n].username == username || Expired(records[n], now) {
          if n in faults { return false; }
          records := records - {n};
        }
      }
      return true;
    }

    /** `Issue`; `id` and `plain` are freshly generated. */
    method Issue(username: string, id: nat, plain: string, now: Time, listFails: bool, faults: set<nat>,
                 createFails: bool)
      returns (ok: bool)
      requires Valid() && id !in records && forall n :: n in records ==> records[n].hash != Sha256(plain)
      modifies this
      ensures Valid()
      ensures ok <==> && !listFails && !createFails
                      && forall n :: n in old(records) && Doomed(old(records)[n], username, now) ==> n !in faults
      ensures ok ==> records == Issued(old(records), username, id, plain, now)
      ensures !ok ==> Thinned(records, old(records), username, now)
    {
      ok := ClearStaleAndPrevious(username, now, listFails, faults);
      if !ok || createFails { return false; }
      records := records[id := NewRecord(username, plain, now)];
    }

    /** `Redeem`: the first record whose digest matches is deleted, then judged. */
    method Redeem(plain: string, now: Time, listFails: bool, faults: set<nat>) returns (r: Redemption)
      requires Valid()
      modifies this
      ensures Valid()
      ensures r.Broken? <==> plain != "" && (listFails || Stuck(old(records), plain, faults))
      ensures records == if r.Broken? then old(records) else Presented(old(records), plain)
      ensures forall u :: r == Granted(u) <==> !r.Broken? && Grants(old(records), plain, now, u)
    {
      if plain == "" { return Invalid; }
      if listFails { return Broken; }
      var left := records.Keys;
      while left != {}
        invariant left <= records.Keys && records == old(records)
        invariant forall n :: n in records && n !in left ==> records[n].hash != Sha256(plain)
        decreases |left|
      {
        var n :| n in left;
        left := left - {n};
        if records[n].hash == Sha256(plain) {
          var secret := records[n];
          assert forall k :: k in records && records[k].hash == Sha256(plain) ==> k == n;
          if n in faults { return Broken; }
          records := records - {n};
          assert records == Presented(old(records), plain);
          if Expired(secret, now) { return Invalid; }
          assert Grants(old(records), plain, now, secret.username);
          return Granted(secret.username);
        }
      }
      assert records == Presented(records, plain);
      return Invalid;
    }
  }

  // ---------------------------------------------------------------- deadlines

  /** A link lives for more than 24 hours less a second, and for at most 24 hours. */
  lemma LifetimeIsADay(username: string, plain: string, at: Time, t: Time)
    ensures t <= at + LIFETIME - SECOND ==> !Expired(NewRecord(username, plain, at), t)
    ensures t > at + LIFETIME ==> Expired(NewRecord(username, plain, at), t)
    ensures var d := NewRecord(username, plain, at).deadline.seconds * SECOND;
            at + LIFETIME - SECOND < d <= at + LIFETIME
  {
  }

  /** A deadline passes after its second; one that cannot be read counts as passed. */
  lemma ExpiredIff(r: Record, now: Time)
    ensures Expired(r, now) <==> r.deadline.Unparsable? || r.deadline.seconds * 1_000_000_000 < now
  {
  }

  /** Right after an issue that person has exactly one record, the new one, and nobody has an expired one. */
  lemma IssueLeavesOne(m: Records, username: string, id: nat, plain: string, now: Time)
    requires id !in m
    ensures var r := Issued(m, username, id, plain, now);
            && (forall n :: n in r && r[n].username == username <==> n == id)
            && r[id] == NewRecord(username, plain, now)
            && (forall n :: n in r ==> !Expired(r[n], now))
            && (forall n :: n in m && m[n].username != username && !Expired(m[n], now) ==> n in r && r[n] == m[n])
  {
    LifetimeIsADay(username, plain, now, now);
  }

  // ---------------------------------------------------------------- the history law

  datatype Op = Issue(username: string, id: nat, plain: string, at: Time) | Redeem(plain: string, at: Time)

  function Step(m: Records, op: Op): (r: Records) {
    match op
    case Issue(username, id, plain, at) => Issued(m, username, id, plain, at)
    case Redeem(plain, _) => Presented(m, plain)
  }

  function Run(ops: seq<Op>): (m: Records) {
    if ops == [] then map[] else Step(Run(ops[..|ops| - 1]), ops[|ops| - 1])
  }

  /** The clock never runs backwards; generated links and names never repeat and are not empty. */
  ghost predicate Plausible(ops: seq<Op>) {
    && (forall i, j :: 0 <= i < j < |ops| ==> ops[i].at <= ops[j].at)
    && (forall i :: 0 <= i < |ops| && ops[i].Issue? ==> ops[i].plain != "")
    && (forall i, j :: 0 <= i < j < |ops| && ops[i].Issue? && ops[j].Issue? ==>
          ops[i].plain != ops[j].plain && ops[i].id != ops[j].id)
  }

  /** The `i`-th operation issued a link that is still that person's latest and was not presented since. */
  ghost predicate Outstanding(ops: seq<Op>, i: nat) {
    && i < |ops| && ops[i].Issue?
    && forall j :: i < j < |ops| ==> !Supersedes(ops[j], ops[i])
  }

  predicate Supersedes(later: Op, issue: Op)
    requires issue.Issue?
  {
    match later
    case Issue(username, _, _, _) => username == issue.username
    case Redeem(plain, _) => plain == issue.plain
  }

  function RecordOf(op: Op): Record
    requires op.Issue?
  {
    NewRecord(op.username, op.plain, op.at)
  }

  ghost predicate Agrees(m: Records, id: nat, r: Record, outstanding: bool, now: Time) {
    if id in m then m[id] == r && outstanding else !outstanding || Expired(r, now)
  }

  /** What the store says about the `i`-th issue: a record means it is outstanding; no record means it is
      not, or has expired by the last operation. */
  ghost predicate Reflects(m: Records, ops: seq<Op>, i: nat)
    requires i < |ops| && ops[i].Issue?
  {
    Agrees(m, ops[i].id, RecordOf(ops[i]), Outstanding(ops, i), ops[|ops| - 1].at)
  }

  ghost predicate AllReflected(m: Records, ops: seq<Op>) {
    forall i :: 0 <= i < |ops| && ops[i].Issue? ==> Reflects(m, ops, i)
  }

  ghost predicate Issues(op: Op, n: nat) { op.Issue? && op.id == n }

  ghost predicate AllIssued(m: Records, ops: seq<Op>) {
    forall n :: n in m ==> exists i :: 0 <= i < |ops| && Issues(ops[i], n)
  }

  ghost predicate Tracked(m: Records, ops: seq<Op>) { AllReflected(m, ops) && AllIssued(m, ops) }

  lemma OutstandingGrows(ops: seq<Op>, i: nat)
    requires ops != [] && i < |ops| - 1 && ops[i].Issue?
    ensures Outstanding(ops, i) <==> Outstanding(ops[..|ops| - 1], i) && !Supersedes(ops[|ops| - 1], ops[i])
  {
    var init := ops[..|ops| - 1];
    if Outstanding(init, i) && !Supersedes(ops[|ops| - 1], ops[i]) {
      forall j | i < j < |ops| ensures !Supersedes(ops[j], ops[i]) {
        if j < |init| { assert init[j] == ops[j]; }
      }
    }
    if Outstanding(ops, i) {
      forall j | i < j < |init| ensures !Supersedes(init[j], init[i]) { assert !Supersedes(ops[j], ops[i]); }
    }
  }

  /** What one operation leaves of a record that is not its own new one. */
  lemma StepAt(m: Records, op: Op, n: nat)
    requires op.Issue? ==> op.id != n
    ensures n in Step(m, op) <==>
            n in m && if op.Issue? then m[n].username != op.username && !Expired(m[n], op.at)
                      else op.plain == "" || m[n].hash != Sha256(op.plain)
    ensures n in Step(m, op) ==> Step(m, op)[n] == m[n]
  {
  }

  lemma StillAgrees(m: Records, op: Op, id: nat, r: Record, outstanding: bool, superseded: bool, last: Time)
    requires Agrees(m, id, r, outstanding, last) && last <= op.at && (op.Issue? ==> op.id != id)
    requires superseded <==> if op.Issue? then op.username == r.username
                             else op.plain != "" && r.hash == Sha256(op.plain)
    ensures Agrees(Step(m, op), id, r, outstanding && !superseded, op.at)
  {
    StepAt(m, op, id);
  }

  lemma OldReflects(ops: seq<Op>, init: seq<Op>, op: Op, i: nat)
    requires init != [] && ops == init + [op] && i < |init| && init[i].Issue? && init[i].plain != ""
    requires Reflects(Run(init), init, i) && init[|init| - 1].at <= op.at && (op.Issue? ==> op.id != init[i].id)
    ensures Reflects(Run(ops), ops, i)
  {
    assert ops[..|ops| - 1] == init;
    OutstandingGrows(ops, i);
    StillAgrees(Run(init), op, init[i].id, RecordOf(init[i]), Outstanding(init, i), Supersedes(op, init[i]),
                init[|init| - 1].at);
  }

  lemma NewReflects(ops: seq<Op>, init: seq<Op>, op: Op)
    requires ops == init + [op] && op.Issue?
    ensures Reflects(Run(ops), ops, |init|)
  {
    assert ops[..|ops| - 1] == init;
    assert Outstanding(ops, |init|);
  }

  lemma PlausibleAt(ops: seq<Op>, init: seq<Op>, op: Op, i: nat)
    requires Plausible(ops) && ops == init + [op] && i < |init| && init[i].Issue?
    ensures init[i].plain != "" && init[|init| - 1].at <= op.at && (op.Issue? ==> op.id != init[i].id)
  {
    assert ops[i] == init[i] && ops[|init| - 1] == init[|init| - 1] && ops[|init|] == op;
  }

  lemma StepReflects(ops: seq<Op>, init: seq<Op>, op: Op, i: nat)
    requires Plausible(ops) && ops == init + [op] && i < |ops| && ops[i].Issue?
    requires i < |init| ==> Reflects(Run(init), init, i)
    ensures Reflects(Run(ops), ops, i)
  {
    if i < |init| {
      PlausibleAt(ops, init, op, i);
      OldReflects(ops, init, op, i);
    } else {
      NewReflects(ops, init, op);
    }
  }

  lemma StepReflectsAll(ops: seq<Op>, init: seq<Op>, op: Op)
    requires Plausible(ops) && ops == init + [op] && AllReflected(Run(init), init)
    ensures AllReflected(Run(ops), ops)
  {
    forall i | 0 <= i < |ops| && ops[i].Issue? ensures Reflects(Run(ops), ops, i) {
      assert i < |init| ==> init[i] == ops[i];
      StepReflects(ops, init, op, i);
    }
  }

  lemma StepIssuesAll(ops: seq<Op>, init: seq<Op>, op: Op)
    requires ops == init + [op] && AllIssued(Run(init), init)
    ensures AllIssued(Run(ops), ops)
  {
    assert ops[..|ops| - 1] == init;
    forall n | n in Run(ops) ensures exists i :: 0 <= i < |ops| && Issues(ops[i], n) {
      if n in Run(init) {
        var i :| 0 <= i < |init| && Issues(init[i], n);
        assert Issues(ops[i], n);
      } else {
        assert Issues(ops[|init|], n);
      }
    }
  }

  lemma {:induction false} EveryRunIsTracked(ops: seq<Op>)
    requires Plausible(ops)
    ensures Tracked(Run(ops), ops)
  {
    if ops != [] {
      var init, op := ops[..|ops| - 1], ops[|ops| - 1];
      assert ops == init + [op];
      EveryRunIsTracked(init);
      StepReflectsAll(ops, init, op);
      StepIssuesAll(ops, init, op);
    }
  }

  /** Some issue of this link for this person is outstanding and not past its stored deadline. */
  ghost predicate Deserves(ops: seq<Op>, plain: string, t: Time, username: string) {
    exists i :: 0 <= i < |ops| && ops[i].Issue? && ops[i].plain == plain && ops[i].username == username
                && Outstanding(ops, i) && !Expired(RecordOf(ops[i]), t)
  }

  /** `ResetStore` refines its history: presenting a link resets a person's password exactly when it came
      from that person's latest issue, was not presented before, and its deadline has not passed. */
  lemma ResetHistoryLaw(ops: seq<Op>, plain: string, t: Time, username: string)
    requires Plausible(ops) && (ops != [] ==> t >= ops[|ops| - 1].at)
    ensures Grants(Run(ops), plain, t, username) <==> Deserves(ops, plain, t, username)
  {
    EveryRunIsTracked(ops);
    var m := Run(ops);
    if Grants(m, plain, t, username) {
      var n :| n in m && m[n].hash == Sha256(plain) && m[n].username == username && !Expired(m[n], t);
      var i :| 0 <= i < |ops| && Issues(ops[i], n);
      assert Reflects(m, ops, i);
    }
    if Deserves(ops, plain, t, username) {
      var i :| 0 <= i < |ops| && ops[i].Issue? && ops[i].plain == plain && ops[i].username == username
                && Outstanding(ops, i) && !Expired(RecordOf(ops[i]), t);
      assert Reflects(m, ops, i);
      assert m[ops[i].id].hash == Sha256(plain);
    }
  }
}
