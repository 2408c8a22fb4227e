/** The administrator's table of people: UserSpaces joined to local logins on the owner. */
module People {
  import opened Common
  import opened Ordering

  /** `shown` stands for the columns that are copied across unchanged. */
  datatype UserSpace = UserSpace(name: string, owner: string, shown: string)

  datatype Login = Login(username: string, owner: string, email: string)

  /** `space` is what the UserSpace columns are copied from, if the row has any. */
  datatype Row = Row(userSpaceName: string, owner: string, space: Option<UserSpace>, logins: seq<Login>)

  function SpaceRow(u: UserSpace, logins: seq<Login>): Row { Row(u.name, u.owner, Some(u), logins) }

  function OrphanRow(owner: string, logins: seq<Login>): Row { Row("", owner, None, logins) }

  /** The comparison of `slices.SortFunc`: owner, then name. */
  predicate InOrder(a: Row, b: Row) {
    Less(a.owner, b.owner) || (a.owner == b.owner && AtMost(a.userSpaceName, b.userSpaceName))
  }

  lemma RowsAreOrdered()
    ensures TotalPreorder(InOrder)
    ensures forall a, b :: InOrder(a, b) && InOrder(b, a) ==> a.owner == b.owner && a.userSpaceName == b.userSpaceName
  {
    StringsAreOrdered();
    forall a, b ensures InOrder(a, b) || InOrder(b, a)
                ensures InOrder(a, b) && InOrder(b, a) ==> a.owner == b.owner && a.userSpaceName == b.userSpaceName {
      Trichotomy(a.owner, b.owner);
    }
    forall a, b, c | InOrder(a, b) && InOrder(b, c) ensures InOrder(a, c) {
      Trichotomy(a.owner, b.owner);
      Trichotomy(b.owner, c.owner);
      Trichotomy(a.owner, c.owner);
      assert AtMost(a.owner, b.owner) && AtMost(b.owner, c.owner);
    }
  }

  // ---------------------------------------------------------------- what the join is

  function LoginsOf(users: seq<Login>, owner: string): (r: seq<Login>) {
    if users == [] then [] else
      var init, x := LoginsOf(users[..|users| - 1], owner), users[|users| - 1];
      if x.owner == owner then init + [x] else init
  }

  ghost predicate HasSpace(spaces: seq<UserSpace>, owner: string) {
    exists i :: 0 <= i < |spaces| && spaces[i].owner == owner
  }

  /** One row per UserSpace; the first of an owner carries the owner's logins. */
  ghost function SpaceRows(spaces: seq<UserSpace>, users: seq<Login>): (r: seq<Row>)
    ensures |r| == |spaces|
  {
    if spaces == [] then [] else
      var init, u := spaces[..|spaces| - 1], spaces[|spaces| - 1];
      SpaceRows(init, users) + [SpaceRow(u, if HasSpace(init, u.owner) then [] else LoginsOf(users, u.owner))]
  }

  function OrphanRows(owners: seq<string>, users: seq<Login>): (r: seq<Row>) {
    seq(|owners|, i requires 0 <= i < |owners| => OrphanRow(owners[i], LoginsOf(users, owners[i])))
  }

  /** Owners of logins that no UserSpace belongs to. */
  ghost function Unmatched(spaces: seq<UserSpace>, users: seq<Login>): set<string> {
    set i | 0 <= i < |users| && !HasSpace(spaces, users[i].owner) :: users[i].owner
  }

  /** Before sorting, for the order `owners` in which what is left of the map is iterated. */
  ghost function Unsorted(spaces: seq<UserSpace>, users: seq<Login>, owners: seq<string>): seq<Row> {
    SpaceRows(spaces, users) + OrphanRows(owners, users)
  }

  /** A possible answer: some iteration order, some sorted permutation. */
  ghost predicate IsJoin(spaces: seq<UserSpace>, users: seq<Login>, owners: seq<string>, rows: seq<Row>) {
    && Listing(owners, Unmatched(spaces, users))
    && SortedBy(InOrder, rows)
    && multiset(rows) == multiset(Unsorted(spaces, users, owners))
  }

  // ---------------------------------------------------------------- the code

  lemma {:induction false} LoginsOfMeans(users: seq<Login>, owner: string)
    ensures forall x :: x in LoginsOf(users, owner) <==> x in users && x.owner == owner
    ensures forall x: Login :: multiset(LoginsOf(users, owner))[x] == if x.owner == owner then multiset(users)[x] else 0
  {
    if users != [] {
      var init := users[..|users| - 1];
      LoginsOfMeans(init, owner);
      assert users == init + [users[|users| - 1]];
    }
  }

  /** What the map holds once `spaces` have been served. */
  ghost predicate Unserved(byOwner: map<string, seq<Login>>, spaces: seq<UserSpace>, users: seq<Login>) {
    forall o :: && (o in byOwner <==> !HasSpace(spaces, o) && LoginsOf(users, o) != [])
                && (o in byOwner ==> byOwner[o] == LoginsOf(users, o))
  }

  lemma UnservedMeansUnmatched(byOwner: map<string, seq<Login>>, spaces: seq<UserSpace>, users: seq<Login>)
    requires Unserved(byOwner, spaces, users)
    ensures byOwner.Keys == Unmatched(spaces, users)
  {
    forall o ensures o in byOwner <==> o in Unmatched(spaces, users) {
      LoginsOfMeans(users, o);
      if o in byOwner { assert LoginsOf(users, o)[0] in users; }
      if o in Unmatched(spaces, users) {
        var i :| 0 <= i < |users| && users[i].owner == o;
        assert users[i] in LoginsOf(users, o);
      }
    }
  }

  lemma HasSpaceGrows(spaces: seq<UserSpace>, i: nat, o: string)
    requires i < |spaces|
    ensures HasSpace(spaces[..i + 1], o) <==> HasSpace(spaces[..i], o) || spaces[i].owner == o
  {
    if HasSpace(spaces[..i], o) {
      var k :| 0 <= k < i && spaces[..i][k].owner == o;
      assert spaces[..i + 1][k].owner == o;
    }
    if spaces[i].owner == o { assert spaces[..i + 1][i].owner == o; }
    if HasSpace(spaces[..i + 1], o) && spaces[i].owner != o {
      var k :| 0 <= k <= i && spaces[..i + 1][k].owner == o;
      assert spaces[..i][k].owner == o;
    }
  }

  /** The first loop of `peopleRows`. */
  method GroupByOwner(users: seq<Login>) returns (byOwner: map<string, seq<Login>>)
    ensures Unserved(byOwner, [], users)
  {
    byOwner := map[];
    for i := 0 to |users|
      invariant Unserved(byOwner, [], users[..i])
    {
      assert users[..i + 1][..i] == users[..i];
      var o := users[i].owner;
      byOwner := byOwner[o := (if o in byOwner then byOwner[o] else []) + [users[i]]];
    }
    assert users[..|users|] == users;
  }

  /** The second loop: rows are appended and the map is emptied as they are. */
  method ServeSpaces(spaces: seq<UserSpace>, users: seq<Login>, grouped: map<string, seq<Login>>)
    returns (rows: seq<Row>, byOwner: map<string, seq<Login>>)
    requires Unserved(grouped, [], users)
    ensures rows == SpaceRows(spaces, users) && Unserved(byOwner, spaces, users)
  {
    rows, byOwner := [], grouped;
    for i := 0 to |spaces|
      invariant rows == SpaceRows(spaces[..i], users) && Unserved(byOwner, spaces[..i], users)
    {
      assert spaces[..i + 1][..i] == spaces[..i];
      var o := spaces[i].owner;
      forall p ensures HasSpace(spaces[..i + 1], p) <==> HasSpace(spaces[..i], p) || o == p {
        HasSpaceGrows(spaces, i, p);
      }
      rows := rows + [SpaceRow(spaces[i], if o in byOwner then byOwner[o] else [])];
      byOwner := byOwner - {o};
    }
    assert spaces[..|spaces|] == spaces;
  }

  lemma OneMoreOrphan(owners: seq<string>, users: seq<Login>, o: string)
    ensures OrphanRows(owners + [o], users) == OrphanRows(owners, users) + [OrphanRow(o, LoginsOf(users, o))]
  {
  }

  /** The third loop: what is left of the map, in whatever order it is iterated. */
  method AppendUnmatched(spaces: seq<UserSpace>, users: seq<Login>, byOwner: map<string, seq<Login>>)
    returns (rows: seq<Row>, ghost owners: seq<string>)
    requires Unserved(byOwner, spaces, users)
    ensures Listing(owners, Unmatched(spaces, users)) && rows == OrphanRows(owners, users)
  {
    rows, owners := [], [];
    UnservedMeansUnmatched(byOwner, spaces, users);
    var left := byOwner.Keys;
    while left != {}
      invariant left <= byOwner.Keys && Listing(owners, byOwner.Keys - left)
      invariant rows == OrphanRows(owners, users)
      decreases |left|
    {
      var o :| o in left;
      left := left - {o};
      rows := rows + [OrphanRow(o, byOwner[o])];
      OneMoreOrphan(owners, users, o);
      owners := owners + [o];
    }
    assert byOwner.Keys - left == byOwner.Keys;
  }

  /** `peopleRows`. The order in which the rest of the map is iterated is left open, and so is the sorted
      permutation. */
  method PeopleRows(spaces: seq<UserSpace>, users: seq<Login>) returns (rows: seq<Row>)
    ensures exists owners :: IsJoin(spaces, users, owners, rows)
  {
    var grouped := GroupByOwner(users);
    var served, byOwner := ServeSpaces(spaces, users, grouped);
    var extra, owners := AppendUnmatched(spaces, users, byOwner);
    RowsAreOrdered();
    SortIsSorted(InOrder, served + extra);
    rows := Sort(InOrder, served + extra);
    assert IsJoin(spaces, users, owners, rows);
  }

  // ---------------------------------------------------------------- the join conserves its inputs

  ghost function Sum(rows: seq<Row>, f: Row -> nat): nat {
    if rows == [] then 0 else Sum(rows[..|rows| - 1], f) + f(rows[|rows| - 1])
  }

  /** How many copies of `x` a row holds. */
  function Copies(x: Login): Row -> nat { (r: Row) => multiset(r.logins)[x] }

  function Holds(x: Login): Row -> nat { (r: Row) => if x in r.logins then 1 else 0 }

  function ShowsSpace(u: UserSpace): Row -> nat { (r: Row) => if r.space == Some(u) then 1 else 0 }

  function IsExtra(owner: string): Row -> nat { (r: Row) => if r.space.None? && r.owner == owner then 1 else 0 }

  lemma {:induction false} SumOfParts(a: seq<Row>, b: seq<Row>, f: Row -> nat)
    ensures Sum(a + b, f) == Sum(a, f) + Sum(b, f)
  {
    if b == [] {
      assert a + b == a;
    } else {
      assert (a + b)[..|a + b| - 1] == a + b[..|b| - 1];
      SumOfParts(a, b[..|b| - 1], f);
    }
  }

  lemma {:induction false} SumForgetsOrder(a: seq<Row>, b: seq<Row>, f: Row -> nat)
    requires multiset(a) == multiset(b)
    ensures Sum(a, f) == Sum(b, f)
  {
    if a == [] {
      assert |multiset(a)| == 0 == |multiset(b)|;
    } else {
      var x := a[|a| - 1];
      var pre, post := TakeLast(a, b);
      SumForgetsOrder(a[..|a| - 1], pre + post, f);
      SumOfParts(pre + [x], post, f);
      SumOfParts(pre, [x], f);
      SumOfParts(pre, post, f);
      assert Sum([x], f) == Sum([], f) + f(x);
    }
  }

  lemma {:induction false} SpacesAreShown(spaces: seq<UserSpace>, users: seq<Login>, u: UserSpace)
    ensures Sum(SpaceRows(spaces, users), ShowsSpace(u)) == multiset(spaces)[u]
  {
    if spaces != [] {
      var init := spaces[..|spaces| - 1];
      SpacesAreShown(init, users, u);
      assert spaces == init + [spaces[|spaces| - 1]];
    }
  }

  /** Of the rows of UserSpaces, those that carry logins of `o` are one if it has a UserSpace. */
  lemma {:induction false} ServedOnce(spaces: seq<UserSpace>, users: seq<Login>, x: Login)
    ensures Sum(SpaceRows(spaces, users), Copies(x)) == if HasSpace(spaces, x.owner) then multiset(users)[x] else 0
    ensures Sum(SpaceRows(spaces, users), Holds(x)) == if HasSpace(spaces, x.owner) && x in users then 1 else 0
    ensures Sum(SpaceRows(spaces, users), IsExtra(x.owner)) == 0
  {
    if spaces != [] {
      var n := |spaces| - 1;
      var init, u := spaces[..n], spaces[n];
      ServedOnce(init, users, x);
      assert spaces[..n + 1] == spaces;
      HasSpaceGrows(spaces, n, x.owner);
      LoginsOfMeans(users, u.owner);
    }
  }

  lemma {:induction false} OrphansOnce(owners: seq<string>, users: seq<Login>, x: Login)
    requires forall i, j :: 0 <= i < j < |owners| ==> owners[i] != owners[j]
    ensures Sum(OrphanRows(owners, users), Copies(x)) == if x.owner in owners then multiset(users)[x] else 0
    ensures Sum(OrphanRows(owners, users), Holds(x)) == if x.owner in owners && x in users then 1 else 0
    ensures Sum(OrphanRows(owners, users), IsExtra(x.owner)) == if x.owner in owners then 1 else 0
  {
    if owners != [] {
      var n := |owners| - 1;
      OrphansOnce(owners[..n], users, x);
      assert OrphanRows(owners, users)[..n] == OrphanRows(owners[..n], users);
      LoginsOfMeans(users, owners[n]);
      assert owners == owners[..n] + [owners[n]];
    }
  }

  lemma {:induction false} OrphansShowNoSpace(owners: seq<string>, users: seq<Login>, u: UserSpace)
    ensures Sum(OrphanRows(owners, users), ShowsSpace(u)) == 0
  {
    if owners != [] {
      var n := |owners| - 1;
      OrphansShowNoSpace(owners[..n], users, u);
      assert OrphanRows(owners, users)[..n] == OrphanRows(owners[..n], users);
    }
  }

  lemma JoinSums(spaces: seq<UserSpace>, users: seq<Login>, owners: seq<string>, rows: seq<Row>, f: Row -> nat)
    requires IsJoin(spaces, users, owners, rows)
    ensures Sum(rows, f) == Sum(SpaceRows(spaces, users), f) + Sum(OrphanRows(owners, users), f)
  {
    SumForgetsOrder(rows, Unsorted(spaces, users, owners), f);
    SumOfParts(SpaceRows(spaces, users), OrphanRows(owners, users), f);
  }

  lemma UnmatchedMeans(spaces: seq<UserSpace>, users: seq<Login>, x: Login)
    ensures x in users ==> (x.owner in Unmatched(spaces, users) <==> !HasSpace(spaces, x.owner))
  {
  }

  /** Every UserSpace gets one row, however many share an owner. */
  lemma EverySpaceHasOneRow(spaces: seq<UserSpace>, users: seq<Login>, owners: seq<string>, rows: seq<Row>,
                            u: UserSpace)
    requires IsJoin(spaces, users, owners, rows)
    ensures Sum(rows, ShowsSpace(u)) == multiset(spaces)[u]
  {
    JoinSums(spaces, users, owners, rows, ShowsSpace(u));
    SpacesAreShown(spaces, users, u);
    OrphansShowNoSpace(owners, users, u);
  }

  /** Every login is in exactly one row and no copy of it is lost or doubled; each owner of logins without a
      UserSpace gets one extra row and nobody else does. */
  lemma EveryLoginIsInOneRow(spaces: seq<UserSpace>, users: seq<Login>, owners: seq<string>, rows: seq<Row>, x: Login)
    requires IsJoin(spaces, users, owners, rows)
    ensures Sum(rows, Copies(x)) == multiset(users)[x]
    ensures Sum(rows, Holds(x)) == if x in users then 1 else 0
    ensures Sum(rows, IsExtra(x.owner)) == if x.owner in Unmatched(spaces, users) then 1 else 0
  {
    JoinSums(spaces, users, owners, rows, Copies(x));
    JoinSums(spaces, users, owners, rows, Holds(x));
    JoinSums(spaces, users, owners, rows, IsExtra(x.owner));
    ServedOnce(spaces, users, x);
    OrphansOnce(owners, users, x);
    UnmatchedMeans(spaces, users, x);
    assert multiset(users)[x] > 0 <==> x in users;
  }

  // ---------------------------------------------------------------- which row

  ghost predicate IsFirst(spaces: seq<UserSpace>, i: nat) {
    i < |spaces| && forall j :: 0 <= j < i ==> spaces[j].owner != spaces[i].owner
  }

  /** The row of a UserSpace holds all its owner's logins if it is the owner's first and none otherwise; an
      extra row holds all of its owner's, and there are some. */
  ghost predicate Right(spaces: seq<UserSpace>, users: seq<Login>, r: Row) {
    match r.space
    case Some(u) => exists i: nat :: i < |spaces| && u == spaces[i]
                                    && r == Row(u.name, u.owner, Some(u),
                                                if IsFirst(spaces, i) then LoginsOf(users, u.owner) else [])
    case None => && r == Row("", r.owner, None, LoginsOf(users, r.owner))
                 && r.owner in Unmatched(spaces, users) && r.logins != []
  }

  lemma {:induction false} SpaceRowsAt(spaces: seq<UserSpace>, users: seq<Login>, i: nat)
    requires i < |spaces|
    ensures SpaceRows(spaces, users)[i]
            == SpaceRow(spaces[i], if IsFirst(spaces, i) then LoginsOf(users, spaces[i].owner) else [])
  {
    var n := |spaces| - 1;
    if i < n {
      SpaceRowsAt(spaces[..n], users, i);
      assert IsFirst(spaces[..n], i) <==> IsFirst(spaces, i);
    } else {
      assert IsFirst(spaces, n) <==> !HasSpace(spaces[..n], spaces[n].owner);
    }
  }

  lemma SpaceRowsAreRight(spaces: seq<UserSpace>, users: seq<Login>, r: Row)
    requires r in SpaceRows(spaces, users)
    ensures Right(spaces, users, r)
  {
    var s := SpaceRows(spaces, users);
    var i :| 0 <= i < |s| && s[i] == r;
    SpaceRowsAt(spaces, users, i);
  }

  lemma OrphanRowsAreRight(spaces: seq<UserSpace>, users: seq<Login>, owners: seq<string>, r: Row)
    requires Listing(owners, Unmatched(spaces, users)) && r in OrphanRows(owners, users)
    ensures Right(spaces, users, r)
  {
    assert r.owner in owners && r == OrphanRow(r.owner, LoginsOf(users, r.owner));
    var k :| 0 <= k < |users| && users[k].owner == r.owner;
    LoginsOfMeans(users, r.owner);
    assert users[k] in r.logins;
  }

  lemma EveryRowIsRight(spaces: seq<UserSpace>, users: seq<Login>, owners: seq<string>, rows: seq<Row>)
    requires IsJoin(spaces, users, owners, rows)
    ensures forall r :: r in rows ==> Right(spaces, users, r)
  {
    var s, o := SpaceRows(spaces, users), OrphanRows(owners, users);
    forall r | r in rows ensures Right(spaces, users, r) {
      assert r in multiset(rows) && r in multiset(s) + multiset(o);
      if r in multiset(s) {
        SpaceRowsAreRight(spaces, users, r);
      } else {
        OrphanRowsAreRight(spaces, users, owners, r);
      }
    }
  }

  /** Logins keep the order of the listing. */
  lemma {:induction false} LoginsKeepOrder(a: seq<Login>, b: seq<Login>, x: Login, owner: string)
    ensures LoginsOf(a + b, owner) == LoginsOf(a, owner) + LoginsOf(b, owner)
    ensures LoginsOf([x], owner) == if x.owner == owner then [x] else []
  {
    assert LoginsOf([], owner) == [] && [x][..0] == [];
    if b == [] {
      assert a + b == a;
    } else {
      assert (a + b)[..|a + b| - 1] == a + b[..|b| - 1];
      LoginsKeepOrder(a, b[..|b| - 1], x, owner);
    }
  }

  /** The table is sorted by owner, then name. */
  lemma TableIsSorted(spaces: seq<UserSpace>, users: seq<Login>, owners: seq<string>, rows: seq<Row>, i: nat, j: nat)
    requires IsJoin(spaces, users, owners, rows) && i < j < |rows|
    ensures AtMost(rows[i].owner, rows[j].owner)
    ensures rows[i].owner == rows[j].owner ==> AtMost(rows[i].userSpaceName, rows[j].userSpaceName)
  {
    assert InOrder(rows[i], rows[j]);
    Trichotomy(rows[i].owner, rows[j].owner);
  }

  // ---------------------------------------------------------------- one answer

  /** The names of UserSpaces, as the API server keeps them: never empty, never shared. */
  ghost predicate ProperNames(spaces: seq<UserSpace>) {
    && (forall i :: 0 <= i < |spaces| ==> spaces[i].name != "")
    && (forall i, j :: 0 <= i < j < |spaces| ==> spaces[i].name != spaces[j].name)
  }

  lemma KeysDecide(spaces: seq<UserSpace>, users: seq<Login>, r: Row, s: Row)
    requires ProperNames(spaces) && Right(spaces, users, r) && Right(spaces, users, s)
    requires r.owner == s.owner && r.userSpaceName == s.userSpaceName
    ensures r == s
  {
  }

  lemma OrphanParts(a: seq<string>, b: seq<string>, users: seq<Login>)
    ensures multiset(OrphanRows(a + b, users)) == multiset(OrphanRows(a, users)) + multiset(OrphanRows(b, users))
  {
    assert OrphanRows(a + b, users) == OrphanRows(a, users) + OrphanRows(b, users);
  }

  lemma {:induction false} OrphanRowsForgetOrder(a: seq<string>, b: seq<string>, users: seq<Login>)
    requires multiset(a) == multiset(b)
    ensures multiset(OrphanRows(a, users)) == multiset(OrphanRows(b, users))
  {
    if a == [] {
      assert |multiset(a)| == 0 == |multiset(b)|;
    } else {
      var n := |a| - 1;
      var pre, post := TakeLast(a, b);
      OrphanRowsForgetOrder(a[..n], pre + post, users);
      assert a == a[..n] + [a[n]];
      OrphanParts(a[..n], [a[n]], users);
      OrphanParts(pre + [a[n]], post, users);
      OrphanParts(pre, [a[n]], users);
      OrphanParts(pre, post, users);
    }
  }

  /** The table is the same for every order the map may be iterated in and every sorted permutation. */
  lemma OneAnswer(spaces: seq<UserSpace>, users: seq<Login>, owners1: seq<string>, rows1: seq<Row>,
                  owners2: seq<string>, rows2: seq<Row>)
    requires ProperNames(spaces)
    requires IsJoin(spaces, users, owners1, rows1) && IsJoin(spaces, users, owners2, rows2)
    ensures rows1 == rows2
  {
    ListingsAgree(owners1, owners2, Unmatched(spaces, users));
    OrphanRowsForgetOrder(owners1, owners2, users);
    assert multiset(rows1) == multiset(rows2);
    EveryRowIsRight(spaces, users, owners1, rows1);
    RowsAreOrdered();
    forall i, j | 0 <= i < |rows1| && 0 <= j < |rows1| && InOrder(rows1[i], rows1[j]) && InOrder(rows1[j], rows1[i])
      ensures rows1[i] == rows1[j]
    {
      KeysDecide(spaces, users, rows1[i], rows1[j]);
    }
    SortedUnique(InOrder, rows1, rows2);
  }
}
