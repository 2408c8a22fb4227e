/** The cluster-wide rights of an administrator: `reconcileRoleGrants` applies a binding for each configured
    ClusterRole and then sweeps away every other administrator binding of that user. */
module RoleGrants {
  import opened Common

  /** `listed` names the UserSpace a binding is listed under, `owner` the UserSpace that controls it. */
  datatype Binding = Binding(listed: Option<string>, owner: Option<string>, role: string, subject: string)

  type Bindings = map<string, Binding>

  const ADMIN_PREFIX := "dwpk-administrator-"
  const OWNER_PREFIX := "dwpk-userspace-"

  predicate IsAdminName(n: string) { ADMIN_PREFIX <= n }

  function AdminName(role: string, user: string): (n: string) { ADMIN_PREFIX + role + "-" + user }
  function OwnerName(user: string): (n: string) { OWNER_PREFIX + user }

  lemma NamesAreApart(role: string, role': string, user: string)
    ensures IsAdminName(AdminName(role, user)) && !IsAdminName(OwnerName(user))
    ensures AdminName(role, user) == AdminName(role', user) ==> role == role'
  {
    assert OwnerName(user)[5] == 'u' && ADMIN_PREFIX[5] == 'a';
    var n, k, m := AdminName(role, user), AdminName(role', user), |ADMIN_PREFIX|;
    assert n[..m] == ADMIN_PREFIX;
    assert n[m..m + |role|] == role && k[m..m + |role'|] == role';
  }

  function Desired(role: string, user: string): Binding { Binding(Some(user), Some(user), role, user) }

  /** Server-side apply refuses an object another UserSpace controls, and a changed `roleRef`. */
  predicate CanApply(b: Bindings, role: string, user: string) {
    var n := AdminName(role, user);
    n in b ==> (b[n].owner.None? || b[n].owner == Some(user)) && b[n].role == role
  }

  /** `faults` are the object names whose call fails. */
  function ApplyAll(b: Bindings, user: string, roles: seq<string>, faults: set<string>): (r: (Bindings, bool))
    decreases |roles|
  {
    if roles == [] then (b, true)
    else if AdminName(roles[0], user) in faults || !CanApply(b, roles[0], user) then (b, false)
    else ApplyAll(b[AdminName(roles[0], user) := Desired(roles[0], user)], user, roles[1..], faults)
  }

  /** Listed for this user, an administrator binding by its name, and to a role not granted. */
  predicate Doomed(b: Bindings, n: string, user: string, granted: set<string>) {
    n in b && b[n].listed == Some(user) && IsAdminName(n) && b[n].role !in granted
  }

  function Sweep(b: Bindings, order: seq<string>, user: string, granted: set<string>, faults: set<string>):
    (r: (Bindings, bool))
    decreases |order|
  {
    if order == [] then (b, true)
    else if !Doomed(b, order[0], user, granted) then Sweep(b, order[1..], user, granted, faults)
    else if order[0] in faults then (b, false)
    else Sweep(b - {order[0]}, order[1..], user, granted, faults)
  }

  ghost predicate ListsLabelled(order: seq<string>, b: Bindings, user: string) {
    forall n :: n in order <==> n in b && b[n].listed == Some(user)
  }

  function Granted(admin: bool, roles: seq<string>): set<string> { if admin then set r | r in roles else {} }

  /** One reconcile. `order` is the listing the API server returned; anything else is a failed list. */
  ghost function Reconcile(b: Bindings, user: string, admin: bool, roles: seq<string>, order: seq<string>,
                           faults: set<string>): (r: (Bindings, bool)) {
    var applied := ApplyAll(b, user, if admin then roles else [], faults);
    if !applied.1 || !ListsLabelled(order, applied.0, user) then (applied.0, false)
    else Sweep(applied.0, order, user, Granted(admin, roles), faults)
  }

  class Cluster {
    var bindings: Bindings

    constructor (bindings: Bindings)
      ensures this.bindings == bindings
    {
      this.bindings := bindings;
    }

    /** The list call: the user's bindings in whatever order the API server returns them. */
    method ListBindings(user: string) returns (order: seq<string>)
      ensures ListsLabelled(order, bindings, user)
    {
      order := [];
      var left := bindings.Keys;
      while left != {}
        invariant left <= bindings.Keys
        invariant forall n :: n in order <==> n in bindings && n !in left && bindings[n].listed == Some(user)
        decreases |left|
      {
        var n :| n in left;
        left := left - {n};
        if bindings[n].listed == Some(user) { order := order + [n]; }
      }
    }

    /** `reconcileRoleGrants`: a loop that grants, then a loop that withdraws. `order` is the listing the
        second loop went by. */
    method ReconcileRoleGrants(user: string, admin: bool, roles: seq<string>, listFails: bool, faults: set<string>)
      returns (ok: bool, ghost order: seq<string>)
      modifies this
      ensures (bindings, ok) == Reconcile(old(bindings), user, admin, roles, order, faults)
      ensures listFails ==> !ok
      ensures !listFails && ApplyAll(old(bindings), user, if admin then roles else [], faults).1 ==>
                ListsLabelled(order, ApplyAll(old(bindings), user, if admin then roles else [], faults).0, user)
    {
      order := [];
      var granted: set<string> := {};
      if admin {
        var i := 0;
        while i < |roles|
          invariant 0 <= i <= |roles| && granted == set r | r in roles[..i]
          invariant ApplyAll(bindings, user, roles[i..], faults) == ApplyAll(old(bindings), user, roles, faults)
        {
          var n := AdminName(roles[i], user);
          assert roles[i..][1..] == roles[i + 1..] && roles[..i + 1] == roles[..i] + [roles[i]];
          if n in faults || !CanApply(bindings, roles[i], user) { return false, order; }
          bindings := bindings[n := Desired(roles[i], user)];
          granted := granted + {roles[i]};
          i := i + 1;
        }
        assert roles[..i] == roles;
      }
      if listFails {
        order := if ListsLabelled([], bindings, user) then [""] else [];
        assert !ListsLabelled(order, bindings, user) by { assert "" in [""]; }
        return false, order;
      }
      var items := ListBindings(user);
      order := items;
      label swept:
      var j := 0;
      while j < |items|
        invariant 0 <= j <= |items|
        invariant Sweep(bindings, items[j..], user, granted, faults)
                  == Sweep(old@swept(bindings), items, user, granted, faults)
      {
        assert items[j..][1..] == items[j + 1..];
        var n := items[j];
        if n in bindings && bindings[n].listed == Some(user) && IsAdminName(n) && bindings[n].role !in granted {
          if n in faults { return false, order; }
          bindings := bindings - {n};
        }
        j := j + 1;
      }
      return true, order;
    }
  }

  // ---------------------------------------------------------------- one reconcile, exactly

  predicate AppliedName(n: string, user: string, roles: seq<string>) {
    exists i :: 0 <= i < |roles| && n == AdminName(roles[i], user)
  }

  /** What granting leaves at one name. */
  lemma {:induction false} AfterApply(b: Bindings, user: string, roles: seq<string>, faults: set<string>, n: string)
    ensures var r := ApplyAll(b, user, roles, faults);
            && (n in b && n !in r.0 ==> false)
            && (!AppliedName(n, user, roles) ==> (n in r.0 <==> n in b) && (n in b ==> r.0[n] == b[n]))
            && (n in b && b[n].owner.Some? && b[n].owner != Some(user) ==> r.0[n] == b[n])
            && (n in r.0 && !(n in b && r.0[n] == b[n]) ==>
                  r.0[n].listed == Some(user) && r.0[n].owner == Some(user) && IsAdminName(n))
    decreases |roles|
  {
    if roles != [] && !(AdminName(roles[0], user) in faults) && CanApply(b, roles[0], user) {
      NamesAreApart(roles[0], roles[0], user);
      AfterApply(b[AdminName(roles[0], user) := Desired(roles[0], user)], user, roles[1..], faults, n);
      if !AppliedName(n, user, roles) {
        assert n != AdminName(roles[0], user);
        assert forall i :: 0 <= i < |roles[1..]| ==> roles[1..][i] == roles[i + 1];
      }
    }
  }

  /** A grant that went through leaves every configured role bound. */
  lemma {:induction false} AppliedAll(b: Bindings, user: string, roles: seq<string>, faults: set<string>, role: string)
    requires ApplyAll(b, user, roles, faults).1
    requires role in roles || (AdminName(role, user) in b && b[AdminName(role, user)] == Desired(role, user))
    ensures var r := ApplyAll(b, user, roles, faults).0;
            AdminName(role, user) in r && r[AdminName(role, user)] == Desired(role, user)
    decreases |roles|
  {
    if roles != [] {
      NamesAreApart(role, roles[0], user);
      AppliedAll(b[AdminName(roles[0], user) := Desired(roles[0], user)], user, roles[1..], faults, role);
    }
  }

  /** What a sweep leaves at one name, whether or not it got to the end. */
  lemma {:induction false} AfterSweep(b: Bindings, order: seq<string>, user: string, granted: set<string>,
                                      faults: set<string>, n: string)
    ensures var r := Sweep(b, order, user, granted, faults);
            && (n in r.0 ==> n in b && r.0[n] == b[n])
            && (n in b && n !in r.0 ==> Doomed(b, n, user, granted))
            && (r.1 && n in order && Doomed(b, n, user, granted) ==> n !in r.0)
    decreases |order|
  {
    if order != [] {
      if !Doomed(b, order[0], user, granted) {
        AfterSweep(b, order[1..], user, granted, faults, n);
      } else if order[0] !in faults {
        AfterSweep(b - {order[0]}, order[1..], user, granted, faults, n);
      }
    }
  }

  /** The roles a user's administrator bindings refer to. */
  function AdminRoles(b: Bindings, user: string): (r: set<string>) {
    set n | n in b && b[n].listed == Some(user) && IsAdminName(n) :: b[n].role
  }

  /** After a successful reconcile a user's administrator bindings refer to exactly the configured roles if
      the user is an administrator, and to none otherwise. */
  lemma SuccessIsExact(b: Bindings, user: string, admin: bool, roles: seq<string>, order: seq<string>,
                       faults: set<string>)
    requires Reconcile(b, user, admin, roles, order, faults).1
    ensures AdminRoles(Reconcile(b, user, admin, roles, order, faults).0, user) == Granted(admin, roles)
  {
    var wanted := if admin then roles else [];
    var mid := ApplyAll(b, user, wanted, faults).0;
    var end := Reconcile(b, user, admin, roles, order, faults).0;
    forall role | role in AdminRoles(end, user) ensures role in Granted(admin, roles) {
      var n :| n in end && end[n].listed == Some(user) && IsAdminName(n) && end[n].role == role;
      AfterSweep(mid, order, user, Granted(admin, roles), faults, n);
    }
    forall role | role in Granted(admin, roles) ensures role in AdminRoles(end, user) {
      AppliedAll(b, user, wanted, faults, role);
      NamesAreApart(role, role, user);
      AfterSweep(mid, order, user, Granted(admin, roles), faults, AdminName(role, user));
      assert end[AdminName(role, user)].role == role;
    }
  }

  /** What a successful reconcile leaves under each granted role's own name: the role, for this user. */
  lemma GrantedBindings(b: Bindings, user: string, admin: bool, roles: seq<string>, order: seq<string>,
                        faults: set<string>, role: string)
    requires Reconcile(b, user, admin, roles, order, faults).1 && admin && role in roles
    ensures var r, n := Reconcile(b, user, admin, roles, order, faults).0, ADMIN_PREFIX + role + "-" + user;
            && n in r && r[n].role == role && r[n].subject == user
            && r[n].listed == Some(user) && r[n].owner == Some(user)
  {
    AppliedAll(b, user, roles, faults, role);
    AfterSweep(ApplyAll(b, user, roles, faults).0, order, user, Granted(admin, roles), faults, AdminName(role, user));
  }

  /** The name of a role's binding is free for this user, or holds this user's binding to that role. */
  predicate Grantable(b: Bindings, role: string, user: string) {
    var n := ADMIN_PREFIX + role + "-" + user;
    n in b ==> b[n].owner in {None, Some(user)} && b[n].role == role
  }

  lemma {:induction false} ApplyOkIff(b: Bindings, user: string, roles: seq<string>, faults: set<string>)
    ensures ApplyAll(b, user, roles, faults).1 <==>
            forall i :: 0 <= i < |roles| ==> Grantable(b, roles[i], user) && AdminName(roles[i], user) !in faults
    decreases |roles|
  {
    if roles != [] {
      var n := AdminName(roles[0], user);
      if n !in faults && CanApply(b, roles[0], user) {
        var c := b[n := Desired(roles[0], user)];
        ApplyOkIff(c, user, roles[1..], faults);
        forall i | 0 <= i < |roles| ensures Grantable(c, roles[i], user) <==> Grantable(b, roles[i], user) {
          NamesAreApart(roles[0], roles[i], user);
        }
        assert forall i :: 0 < i < |roles| ==> roles[1..][i - 1] == roles[i];
      } else {
        assert !(Grantable(b, roles[0], user) && n !in faults);
      }
    }
  }

  lemma {:induction false} SweepOkIff(b: Bindings, order: seq<string>, user: string, granted: set<string>,
                                      faults: set<string>)
    ensures Sweep(b, order, user, granted, faults).1 <==>
            forall n :: n in order && Doomed(b, n, user, granted) ==> n !in faults
    decreases |order|
  {
    if order != [] {
      if !Doomed(b, order[0], user, granted) {
        SweepOkIff(b, order[1..], user, granted, faults);
      } else if order[0] !in faults {
        SweepOkIff(b - {order[0]}, order[1..], user, granted, faults);
        forall n | n in order && n != order[0]
          ensures n in order[1..] && (Doomed(b - {order[0]}, n, user, granted) <==> Doomed(b, n, user, granted)) {}
      }
    }
  }

  /** Exactly when a reconcile succeeds: every name it grants under is free or its own, the list was served, and
      no call it makes fails. */
  lemma ReconcileOkIff(b: Bindings, user: string, admin: bool, roles: seq<string>, order: seq<string>,
                       faults: set<string>)
    ensures var mid := ApplyAll(b, user, if admin then roles else [], faults).0;
            Reconcile(b, user, admin, roles, order, faults).1 <==>
            && (admin ==> forall i :: 0 <= i < |roles| ==>
                            Grantable(b, roles[i], user) && AdminName(roles[i], user) !in faults)
            && ListsLabelled(order, mid, user)
            && forall n :: n in order && Doomed(mid, n, user, Granted(admin, roles)) ==> n !in faults
  {
    ApplyOkIff(b, user, if admin then roles else [], faults);
    SweepOkIff(ApplyAll(b, user, if admin then roles else [], faults).0, order, user, Granted(admin, roles), faults);
  }

  /** A binding a UserSpace controls is listed under that UserSpace. */
  ghost predicate WellOwned(b: Bindings) {
    forall n :: n in b && b[n].owner.Some? ==> b[n].listed == b[n].owner
  }

  /** Whatever happens, a reconcile of one user leaves alone the bindings other users control and every
      binding without the administrator prefix, so in particular every owner binding. */
  lemma OthersUntouched(b: Bindings, user: string, admin: bool, roles: seq<string>, order: seq<string>,
                        faults: set<string>, n: string)
    requires WellOwned(b)
    ensures var r := Reconcile(b, user, admin, roles, order, faults).0;
            && WellOwned(r)
            && (!IsAdminName(n) || (n in b && b[n].owner.Some? && b[n].owner != Some(user)) ==>
                  (n in r <==> n in b) && (n in b ==> r[n] == b[n]))
            && (n in r && !(n in b && r[n] == b[n]) ==> r[n].listed == Some(user))
  {
    var wanted := if admin then roles else [];
    var mid := ApplyAll(b, user, wanted, faults).0;
    var r := Reconcile(b, user, admin, roles, order, faults).0;
    forall k | k in r && r[k].owner.Some? ensures r[k].listed == r[k].owner {
      AfterApply(b, user, wanted, faults, k);
      AfterSweep(mid, order, user, Granted(admin, roles), faults, k);
    }
    AfterApply(b, user, wanted, faults, n);
    AfterSweep(mid, order, user, Granted(admin, roles), faults, n);
  }

  /** A second reconcile with nothing changed changes nothing. */
  lemma ReconcileIsIdempotent(b: Bindings, user: string, admin: bool, roles: seq<string>, order: seq<string>,
                              order': seq<string>, faults: set<string>)
    requires Reconcile(b, user, admin, roles, order, faults).1
    ensures var r := Reconcile(b, user, admin, roles, order, faults).0;
            Reconcile(r, user, admin, roles, order', {}).0 == r
  {
    var r := Reconcile(b, user, admin, roles, order, faults).0;
    var wanted := if admin then roles else [];
    var mid := ApplyAll(b, user, wanted, faults).0;
    forall role | role in wanted ensures AdminName(role, user) in r && r[AdminName(role, user)] == Desired(role, user) {
      AppliedAll(b, user, wanted, faults, role);
      AfterSweep(mid, order, user, Granted(admin, roles), faults, AdminName(role, user));
    }
    ReapplyIsNeutral(r, user, wanted);
    forall n ensures !Doomed(r, n, user, Granted(admin, roles)) {
      AfterSweep(mid, order, user, Granted(admin, roles), faults, n);
    }
    NothingToSweep(r, order', user, Granted(admin, roles));
  }

  lemma {:induction false} ReapplyIsNeutral(b: Bindings, user: string, roles: seq<string>)
    requires forall role :: role in roles ==>
        AdminName(role, user) in b && b[AdminName(role, user)] == Desired(role, user)
    ensures ApplyAll(b, user, roles, {}) == (b, true)
    decreases |roles|
  {
    if roles != [] {
      assert roles[0] in roles;
      assert b[AdminName(roles[0], user) := Desired(roles[0], user)] == b;
      ReapplyIsNeutral(b, user, roles[1..]);
    }
  }

  lemma {:induction false} NothingToSweep(b: Bindings, order: seq<string>, user: string, granted: set<string>)
    requires forall n :: !Doomed(b, n, user, granted)
    ensures Sweep(b, order, user, granted, {}) == (b, true)
    decreases |order|
  {
    if order != [] { NothingToSweep(b, order[1..], user, granted); }
  }

  // ---------------------------------------------------------------- many users, many edits

  datatype State = State(bindings: Bindings, admins: set<string>, roles: seq<string>)

  datatype Event =
    | SetRole(user: string, admin: bool)
    | Configure(roles: seq<string>)
    | Pass(user: string, order: seq<string>, faults: set<string>)

  ghost function Step(s: State, e: Event): (r: State) {
    match e
    case SetRole(user, admin) => s.(admins := if admin then s.admins + {user} else s.admins - {user})
    case Configure(roles) => s.(roles := roles)
    case Pass(user, order, faults) =>
      s.(bindings := Reconcile(s.bindings, user, user in s.admins, s.roles, order, faults).0)
  }

  ghost function Run(s: State, es: seq<Event>): (r: State) {
    if es == [] then s else Step(Run(s, es[..|es| - 1]), es[|es| - 1])
  }

  /** Edits count from the next reconcile on. */
  lemma EditsCount(s: State, user: string, admin: bool, roles: seq<string>)
    ensures user in Step(s, SetRole(user, admin)).admins <==> admin
    ensures forall u :: u != user ==> (u in Step(s, SetRole(user, admin)).admins <==> u in s.admins)
    ensures Step(s, Configure(roles)).roles == roles
    ensures Step(s, SetRole(user, admin)).bindings == s.bindings == Step(s, Configure(roles)).bindings
  {
  }

  /** Nothing in the run concerns this user or the configured roles. */
  ghost predicate LeavesAlone(es: seq<Event>, user: string) {
    forall i :: 0 <= i < |es| ==> !es[i].Configure? && es[i].user != user
  }

  /** This user's administrator bindings are controlled by this user. */
  ghost predicate SelfOwned(b: Bindings, user: string) {
    forall n :: n in b && b[n].listed == Some(user) && IsAdminName(n) ==> b[n].owner == Some(user)
  }

  /** Once reconciled, a user's grants stay exact through any edits and reconciles of other users, whether
      those succeed or fail. */
  lemma {:induction false} GrantsPersist(s: State, es: seq<Event>, user: string)
    requires WellOwned(s.bindings) && SelfOwned(s.bindings, user) && LeavesAlone(es, user)
    ensures var r := Run(s, es);
            && WellOwned(r.bindings) && SelfOwned(r.bindings, user)
            && AdminRoles(r.bindings, user) == AdminRoles(s.bindings, user)
            && (user in r.admins <==> user in s.admins) && r.roles == s.roles
  {
    if es != [] {
      var before, e := Run(s, es[..|es| - 1]), es[|es| - 1];
      GrantsPersist(s, es[..|es| - 1], user);
      if e.Pass? { OtherPassKeepsGrants(before, e, user); }
    }
  }

  lemma OtherPassKeepsGrants(s: State, e: Event, user: string)
    requires WellOwned(s.bindings) && SelfOwned(s.bindings, user) && e.Pass? && e.user != user
    ensures var r := Step(s, e).bindings;
            WellOwned(r) && SelfOwned(r, user) && AdminRoles(r, user) == AdminRoles(s.bindings, user)
  {
    var b, r := s.bindings, Step(s, e).bindings;
    forall n ensures (n in b && b[n].listed == Some(user) && IsAdminName(n)) <==>
        (n in r && r[n].listed == Some(user) && IsAdminName(n))
             ensures n in b && b[n].listed == Some(user) && IsAdminName(n) ==> r[n] == b[n]
    {
      OthersUntouched(b, e.user, e.user in s.admins, s.roles, e.order, e.faults, n);
    }
    OthersUntouched(b, e.user, e.user in s.admins, s.roles, e.order, e.faults, "");
    assert forall x :: x in AdminRoles(r, user) <==> x in AdminRoles(b, user);
  }

  /** Every listed administrator binding is controlled by the user it is listed under. */
  ghost predicate AdminsOwned(b: Bindings) {
    forall n :: n in b && IsAdminName(n) && b[n].listed.Some? ==> b[n].owner == b[n].listed
  }

  lemma {:induction false} RunsStayOwned(s: State, es: seq<Event>)
    requires WellOwned(s.bindings) && AdminsOwned(s.bindings)
    ensures WellOwned(Run(s, es).bindings) && AdminsOwned(Run(s, es).bindings)
  {
    if es != [] {
      var before, e := Run(s, es[..|es| - 1]), es[|es| - 1];
      RunsStayOwned(s, es[..|es| - 1]);
      if e.Pass? {
        var b, r, admin := before.bindings, Step(before, e).bindings, e.user in before.admins;
        OthersUntouched(b, e.user, admin, before.roles, e.order, e.faults, "");
        var wanted := if admin then before.roles else [];
        forall n | n in r && IsAdminName(n) && r[n].listed.Some? ensures r[n].owner == r[n].listed {
          AfterApply(b, e.user, wanted, e.faults, n);
          AfterSweep(ApplyAll(b, e.user, wanted, e.faults).0, e.order, e.user, Granted(admin, before.roles), e.faults,
                     n);
        }
      }
    }
  }

  /** Every listed administrator binding is for the user it is listed under. */
  ghost predicate OwnSubjects(b: Bindings) {
    forall n :: n in b && IsAdminName(n) && b[n].listed.Some? ==> b[n].subject == b[n].listed.value
  }

  /** No run gives anybody else's name to an administrator binding. */
  lemma {:induction false} SubjectsStayRight(s: State, es: seq<Event>)
    requires OwnSubjects(s.bindings)
    ensures OwnSubjects(Run(s, es).bindings)
  {
    if es != [] {
      var before, e := Run(s, es[..|es| - 1]), es[|es| - 1];
      SubjectsStayRight(s, es[..|es| - 1]);
      if e.Pass? {
        var b, admin := before.bindings, e.user in before.admins;
        var wanted := if admin then before.roles else [];
        ApplyKeepsSubjects(b, e.user, wanted, e.faults);
        forall n ensures n in Step(before, e).bindings ==>
                           n in ApplyAll(b, e.user, wanted, e.faults).0
                           && Step(before, e).bindings[n] == ApplyAll(b, e.user, wanted, e.faults).0[n] {
          AfterSweep(ApplyAll(b, e.user, wanted, e.faults).0, e.order, e.user, Granted(admin, before.roles), e.faults,
                     n);
        }
      }
    }
  }

  lemma {:induction false} ApplyKeepsSubjects(b: Bindings, user: string, roles: seq<string>, faults: set<string>)
    requires OwnSubjects(b)
    ensures OwnSubjects(ApplyAll(b, user, roles, faults).0)
    decreases |roles|
  {
    if roles != [] && AdminName(roles[0], user) !in faults && CanApply(b, roles[0], user) {
      ApplyKeepsSubjects(b[AdminName(roles[0], user) := Desired(roles[0], user)], user, roles[1..], faults);
    }
  }

  /** The whole story: after any history, a successful pass makes a user's grants exact, and they stay exact
      until something about that user or the configuration changes. */
  lemma GrantsAreExact(s: State, es: seq<Event>, pass: Event, more: seq<Event>)
    requires WellOwned(s.bindings) && AdminsOwned(s.bindings)
    requires pass.Pass? && LeavesAlone(more, pass.user)
    requires var b := Run(s, es);
             Reconcile(b.bindings, pass.user, pass.user in b.admins, b.roles, pass.order, pass.faults).1
    ensures var b := Run(s, es);
            AdminRoles(Run(Step(b, pass), more).bindings, pass.user) == Granted(pass.user in b.admins, b.roles)
  {
    var b := Run(s, es);
    RunsStayOwned(s, es);
    SuccessIsExact(b.bindings, pass.user, pass.user in b.admins, b.roles, pass.order, pass.faults);
    assert Run(b, [pass]) == Step(b, pass) by { assert [pass][..0] == []; }
    RunsStayOwned(b, [pass]);
    GrantsPersist(Step(b, pass), more, pass.user);
  }
}
