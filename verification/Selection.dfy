/** Which remote images a registry sync keeps: include and exclude patterns on repositories, then the
    newest tags of each. */
module Selection {
  import opened Ordering

  datatype RemoteImage = RemoteImage(repository: string, tag: string, reference: string, pushedAt: int)

  datatype Policy = Policy(include_: seq<string>, exclude: seq<string>, tagPatterns: seq<string>, latest: bool,
                           limit: int)

  /** RE2 matching, as any relation between patterns and strings. */
  type Matcher = (string, string) -> bool

  predicate AnyMatches(re: Matcher, patterns: seq<string>, s: string) {
    exists i :: 0 <= i < |patterns| && re(patterns[i], s)
  }

  predicate RepositoryMatches(re: Matcher, repository: string, p: Policy) {
    !AnyMatches(re, p.exclude, repository) && (p.include_ == [] || AnyMatches(re, p.include_, repository))
  }

  predicate TagMatches(re: Matcher, tag: string, p: Policy) { p.latest || AnyMatches(re, p.tagPatterns, tag) }

  predicate Eligible(re: Matcher, image: RemoteImage, p: Policy) {
    RepositoryMatches(re, image.repository, p) && TagMatches(re, image.tag, p)
  }

  function Limit(p: Policy): (k: nat)
    ensures k > 0
  {
    if p.limit <= 0 then 1 else p.limit
  }

  predicate NewestFirst(a: RemoteImage, b: RemoteImage) { a.pushedAt >= b.pushedAt }

  // ---------------------------------------------------------------- what a selection is

  /** The images of one repository whose tag qualifies, in listing order. */
  function Pool(re: Matcher, images: seq<RemoteImage>, repository: string, p: Policy): (r: seq<RemoteImage>) {
    if images == [] then [] else
      var init, x := Pool(re, images[..|images| - 1], repository, p), images[|images| - 1];
      if x.repository == repository && TagMatches(re, x.tag, p) then init + [x] else init
  }

  /** The qualifying repositories in order of first appearance. */
  function Repositories(re: Matcher, images: seq<RemoteImage>, p: Policy): (r: seq<string>) {
    if images == [] then [] else
      var init, x := Repositories(re, images[..|images| - 1], p), images[|images| - 1];
      if RepositoryMatches(re, x.repository, p) && x.repository !in init then init + [x.repository] else init
  }

  /** The `k` newest of the pool, newest first: as many as there are, and none left out is newer than one
      kept. */
  ghost predicate IsTopK(pool: seq<RemoteImage>, k: nat, r: seq<RemoteImage>) {
    && |r| == (if |pool| < k then |pool| else k)
    && SortedBy(NewestFirst, r)
    && multiset(r) <= multiset(pool)
    && forall x, y :: x in multiset(pool) - multiset(r) && y in r ==> y.pushedAt >= x.pushedAt
  }

  function Flatten(groups: seq<seq<RemoteImage>>): (r: seq<RemoteImage>) {
    if groups == [] then [] else Flatten(groups[..|groups| - 1]) + groups[|groups| - 1]
  }

  /** One group per qualifying repository, in order of first appearance, each its newest images. */
  ghost predicate Selects(re: Matcher, images: seq<RemoteImage>, p: Policy, groups: seq<seq<RemoteImage>>,
                          r: seq<RemoteImage>) {
    var repos := Repositories(re, images, p);
    && |groups| == |repos| && r == Flatten(groups)
    && forall i :: 0 <= i < |repos| ==> IsTopK(Pool(re, images, repos[i], p), Limit(p), groups[i])
  }

  // ---------------------------------------------------------------- the code

  /** `slices.SortFunc`: some sorted permutation, not necessarily a stable one. */
  method SortNewestFirst(s: seq<RemoteImage>) returns (r: seq<RemoteImage>)
    ensures SortedBy(NewestFirst, r) && multiset(r) == multiset(s) && |r| == |s|
  {
    SortIsSorted(NewestFirst, s);
    r := Sort(NewestFirst, s);
  }

  lemma LaterIsOlder(sorted: seq<RemoteImage>, k: nat, x: RemoteImage, y: RemoteImage)
    requires SortedBy(NewestFirst, sorted) && k <= |sorted| && x in sorted[k..] && y in sorted[..k]
    ensures y.pushedAt >= x.pushedAt
  {
    var i :| 0 <= i < |sorted| - k && sorted[k..][i] == x;
    var j :| 0 <= j < k && sorted[..k][j] == y;
    assert NewestFirst(sorted[j], sorted[k + i]);
  }

  lemma Remainder(sorted: seq<RemoteImage>, k: nat)
    requires k <= |sorted|
    ensures multiset(sorted[..k]) <= multiset(sorted)
    ensures forall x :: x in multiset(sorted) - multiset(sorted[..k]) ==> x in sorted[k..]
  {
    assert sorted == sorted[..k] + sorted[k..];
    assert multiset(sorted) - multiset(sorted[..k]) == multiset(sorted[k..]);
  }

  lemma PrefixIsTopK(sorted: seq<RemoteImage>, pool: seq<RemoteImage>, k: nat)
    requires SortedBy(NewestFirst, sorted) && multiset(sorted) == multiset(pool) && |sorted| == |pool|
    ensures IsTopK(pool, k, if |sorted| > k then sorted[..k] else sorted)
  {
    if |sorted| > k {
      Remainder(sorted, k);
      forall x, y | x in multiset(pool) - multiset(sorted[..k]) && y in sorted[..k] ensures y.pushedAt >= x.pushedAt {
        LaterIsOlder(sorted, k, x, y);
      }
    }
  }

  /** `selectTags`, on the images of one repository. */
  method SelectTags(re: Matcher, images: seq<RemoteImage>, ghost repository: string, p: Policy)
    returns (r: seq<RemoteImage>)
    requires forall i :: 0 <= i < |images| ==> images[i].repository == repository
    ensures IsTopK(Pool(re, images, repository, p), Limit(p), r)
  {
    var matching := [];
    var i := 0;
    while i < |images|
      invariant 0 <= i <= |images| && matching == Pool(re, images[..i], repository, p)
    {
      assert images[..i + 1][..i] == images[..i];
      if p.latest || exists j | 0 <= j < |p.tagPatterns| :: re(p.tagPatterns[j], images[i].tag) {
        matching := matching + [images[i]];
      }
      i := i + 1;
    }
    assert images[..i] == images;
    var sorted := SortNewestFirst(matching);
    PrefixIsTopK(sorted, matching, Limit(p));
    r := if |sorted| > Limit(p) then sorted[..Limit(p)] else sorted;
  }

  /** All images of one repository, in listing order. */
  function OfRepository(images: seq<RemoteImage>, repository: string): (r: seq<RemoteImage>) {
    if images == [] then [] else
      var init, x := OfRepository(images[..|images| - 1], repository), images[|images| - 1];
      if x.repository == repository then init + [x] else init
  }

  lemma {:induction false} PoolOfRepository(re: Matcher, images: seq<RemoteImage>, repository: string, p: Policy)
    ensures Pool(re, OfRepository(images, repository), repository, p) == Pool(re, images, repository, p)
    ensures forall i :: 0 <= i < |OfRepository(images, repository)| ==>
        OfRepository(images, repository)[i].repository == repository
  {
    if images != [] {
      var init, x := images[..|images| - 1], images[|images| - 1];
      PoolOfRepository(re, init, repository, p);
      if x.repository == repository {
        var o := OfRepository(init, repository);
        assert (o + [x])[..|o|] == o;
      }
    }
  }

  lemma {:induction false} RepositoriesAreDistinct(re: Matcher, images: seq<RemoteImage>, p: Policy)
    ensures var r := Repositories(re, images, p);
            && (forall i, j :: 0 <= i < j < |r| ==> r[i] != r[j])
            && (forall s :: s in r <==>
                RepositoryMatches(re, s, p) && exists i :: 0 <= i < |images| && images[i].repository == s)
  {
    if images != [] {
      var init, x := images[..|images| - 1], images[|images| - 1];
      RepositoriesAreDistinct(re, init, p);
      var r := Repositories(re, images, p);
      forall s ensures s in r <==>
          RepositoryMatches(re, s, p) && exists i :: 0 <= i < |images| && images[i].repository == s {
        if i :| 0 <= i < |init| && init[i].repository == s { assert images[i].repository == s; }
        if i :| 0 <= i < |images| && images[i].repository == s && i < |init| { assert init[i].repository == s; }
      }
    }
  }

  /** The first loop of `Select`. */
  method GroupByRepository(re: Matcher, images: seq<RemoteImage>, p: Policy)
    returns (byRepo: map<string, seq<RemoteImage>>, order: seq<string>)
    ensures order == Repositories(re, images, p)
    ensures forall s :: s in order ==> s in byRepo && byRepo[s] == OfRepository(images, s)
  {
    byRepo, order := map[], [];
    var i := 0;
    while i < |images|
      invariant 0 <= i <= |images| && order == Repositories(re, images[..i], p)
      invariant forall s :: s in byRepo <==> s in order
      invariant forall s :: s in byRepo ==> RepositoryMatches(re, s, p)
      invariant forall s :: s in byRepo ==> byRepo[s] == OfRepository(images[..i], s)
    {
      var image := images[i];
      assert images[..i + 1][..i] == images[..i];
      if RepositoryMatches(re, image.repository, p) {
        if image.repository !in byRepo {
          order := order + [image.repository];
          NotListedYet(re, images[..i], p, image.repository);
          byRepo := byRepo[image.repository := []];
        }
        byRepo := byRepo[image.repository := byRepo[image.repository] + [image]];
      }
      i := i + 1;
    }
    assert images[..i] == images;
  }

  /** The first groups, each the top of its repository's pool. */
  ghost predicate GroupsSoFar(re: Matcher, images: seq<RemoteImage>, p: Policy, order: seq<string>,
                              groups: seq<seq<RemoteImage>>)
  {
    |groups| <= |order| && forall k :: 0 <= k < |groups| ==> IsTopK(Pool(re, images, order[k], p), Limit(p), groups[k])
  }

  lemma OneMoreGroup(re: Matcher, images: seq<RemoteImage>, p: Policy, order: seq<string>,
                     groups: seq<seq<RemoteImage>>, g: seq<RemoteImage>)
    requires GroupsSoFar(re, images, p, order, groups) && |groups| < |order|
    requires IsTopK(Pool(re, images, order[|groups|], p), Limit(p), g)
    ensures GroupsSoFar(re, images, p, order, groups + [g]) && Flatten(groups + [g]) == Flatten(groups) + g
  {
    assert (groups + [g])[..|groups|] == groups;
  }

  /** `Select`. */
  method Select(re: Matcher, images: seq<RemoteImage>, p: Policy) returns (r: seq<RemoteImage>)
    ensures exists groups :: Selects(re, images, p, groups, r)
  {
    var byRepo, order := GroupByRepository(re, images, p);
    r := [];
    ghost var groups: seq<seq<RemoteImage>> := [];
    var j := 0;
    while j < |order|
      invariant 0 <= j == |groups| <= |order| && r == Flatten(groups) && GroupsSoFar(re, images, p, order, groups)
    {
      assert order[j] in order;
      PoolOfRepository(re, images, order[j], p);
      var tags := SelectTags(re, byRepo[order[j]], order[j], p);
      OneMoreGroup(re, images, p, order, groups, tags);
      r := r + tags;
      groups := groups + [tags];
      j := j + 1;
    }
    assert Selects(re, images, p, groups, r);
  }

  lemma {:induction false} NotListedYet(re: Matcher, images: seq<RemoteImage>, p: Policy, repository: string)
    requires RepositoryMatches(re, repository, p) && repository !in Repositories(re, images, p)
    ensures OfRepository(images, repository) == []
  {
    if images != [] { NotListedYet(re, images[..|images| - 1], p, repository); }
  }

  // ---------------------------------------------------------------- counting

  lemma {:induction false} PoolCounts(re: Matcher, images: seq<RemoteImage>, repository: string, p: Policy,
                                      x: RemoteImage)
    ensures multiset(Pool(re, images, repository, p))[x]
            == if x.repository == repository && TagMatches(re, x.tag, p) then multiset(images)[x] else 0
  {
    if images != [] {
      var init, last := images[..|images| - 1], images[|images| - 1];
      assert images == init + [last];
      PoolCounts(re, init, repository, p, x);
    }
  }

  /** Groups of different repositories do not share an image: a flattened selection counts an image as its
      own repository's group does. */
  lemma {:induction false} FlattenCounts(groups: seq<seq<RemoteImage>>, repos: seq<string>, x: RemoteImage)
    requires |groups| == |repos|
    requires forall i :: 0 <= i < |groups| ==> forall y :: y in groups[i] ==> y.repository == repos[i]
    requires forall i, j :: 0 <= i < j < |repos| ==> repos[i] != repos[j]
    ensures x.repository !in repos ==> multiset(Flatten(groups))[x] == 0
    ensures forall i :: 0 <= i < |repos| && repos[i] == x.repository ==>
        multiset(Flatten(groups))[x] == multiset(groups[i])[x]
  {
    if groups != [] {
      var n := |groups| - 1;
      FlattenCounts(groups[..n], repos[..n], x);
      assert multiset(Flatten(groups))[x] == multiset(Flatten(groups[..n]))[x] + multiset(groups[n])[x];
      if x.repository != repos[n] {
        assert x !in groups[n];
      } else {
        assert x.repository !in repos[..n];
      }
    }
  }

  /** The groups of a selection hold images of their own repository. */
  lemma GroupsAreApart(re: Matcher, images: seq<RemoteImage>, p: Policy, groups: seq<seq<RemoteImage>>,
                       r: seq<RemoteImage>)
    requires Selects(re, images, p, groups, r)
    ensures var repos := Repositories(re, images, p);
            forall i :: 0 <= i < |groups| ==> forall y :: y in groups[i] ==>
                y.repository == repos[i] && TagMatches(re, y.tag, p)
  {
    var repos := Repositories(re, images, p);
    forall i, y | 0 <= i < |groups| && y in groups[i] ensures y.repository == repos[i] && TagMatches(re, y.tag, p) {
      assert y in multiset(groups[i]);
      PoolCounts(re, images, repos[i], p, y);
    }
  }

  /** How often a selection holds an image: as its repository's group does. */
  lemma SelectionCounts(re: Matcher, images: seq<RemoteImage>, p: Policy, groups: seq<seq<RemoteImage>>,
                        r: seq<RemoteImage>, x: RemoteImage)
    requires Selects(re, images, p, groups, r)
    ensures var repos := Repositories(re, images, p);
            && (x.repository !in repos ==> multiset(r)[x] == 0)
            && (forall i :: 0 <= i < |repos| && repos[i] == x.repository ==> multiset(r)[x] == multiset(groups[i])[x])
  {
    GroupsAreApart(re, images, p, groups, r);
    RepositoriesAreDistinct(re, images, p);
    FlattenCounts(groups, Repositories(re, images, p), x);
  }

  /** Which images a policy admits, and how many of each repository. */
  lemma EligibleIff(re: Matcher, x: RemoteImage, p: Policy)
    ensures Eligible(re, x, p) <==>
            && (forall i :: 0 <= i < |p.exclude| ==> !re(p.exclude[i], x.repository))
            && (p.include_ == [] || exists i :: 0 <= i < |p.include_| && re(p.include_[i], x.repository))
            && (p.latest || exists i :: 0 <= i < |p.tagPatterns| && re(p.tagPatterns[i], x.tag))
    ensures p.limit > 0 ==> Limit(p) == p.limit
    ensures p.limit <= 0 ==> Limit(p) == 1
  {
  }

  /** Where a repository first appears in the listing. */
  ghost predicate FirstAt(images: seq<RemoteImage>, s: string, i: nat) {
    i < |images| && images[i].repository == s && forall j :: 0 <= j < i ==> images[j].repository != s
  }

  /** The groups follow the first appearance of their repositories. */
  lemma {:induction false} FirstAppearances(re: Matcher, images: seq<RemoteImage>, p: Policy, a: nat, b: nat, i: nat,
                                            j: nat)
    requires var r := Repositories(re, images, p);
             a < b < |r| && FirstAt(images, r[a], i) && FirstAt(images, r[b], j)
    ensures i < j
  {
    var n := |images| - 1;
    var init, r := images[..n], Repositories(re, images[..n], p);
    if b < |r| {
      RepositoriesAreDistinct(re, init, p);
      assert r[a] in r && r[b] in r;
      ListedBefore(re, images, p, r[a], i);
      ListedBefore(re, images, p, r[b], j);
      FirstAppearances(re, init, p, a, b, i, j);
    } else {
      assert r[a] in r;
      ListedBefore(re, images, p, r[a], i);
      NewIsLast(re, images, p, j);
    }
  }

  /** A repository already listed appears first before the last image. */
  lemma ListedBefore(re: Matcher, images: seq<RemoteImage>, p: Policy, s: string, i: nat)
    requires images != [] && s in Repositories(re, images[..|images| - 1], p) && FirstAt(images, s, i)
    ensures i < |images| - 1 && FirstAt(images[..|images| - 1], s, i)
  {
    RepositoriesAreDistinct(re, images[..|images| - 1], p);
    var k :| 0 <= k < |images| - 1 && images[..|images| - 1][k].repository == s;
    assert images[k].repository == s;
  }

  lemma NewIsLast(re: Matcher, images: seq<RemoteImage>, p: Policy, j: nat)
    requires images != []
    requires var r := Repositories(re, images, p);
             |r| == |Repositories(re, images[..|images| - 1], p)| + 1 && FirstAt(images, r[|r| - 1], j)
    ensures j == |images| - 1
  {
    var init, s := images[..|images| - 1], images[|images| - 1].repository;
    RepositoriesAreDistinct(re, init, p);
    assert forall k :: 0 <= k < |init| ==> init[k].repository != s && init[k] == images[k];
  }

  /** Everything selected was listed and is eligible; an exclude pattern beats any include pattern; and an
      eligible image left out is no newer than any image kept of its repository. */
  lemma SelectionIsSound(re: Matcher, images: seq<RemoteImage>, p: Policy, groups: seq<seq<RemoteImage>>,
                         r: seq<RemoteImage>, x: RemoteImage, y: RemoteImage)
    requires Selects(re, images, p, groups, r)
    ensures x in r ==> Eligible(re, x, p) && !AnyMatches(re, p.exclude, x.repository)
    ensures multiset(r)[x] <= multiset(images)[x]
    ensures Eligible(re, y, p) && multiset(r)[y] < multiset(images)[y] && x in r && x.repository == y.repository ==>
        x.pushedAt >= y.pushedAt
  {
    var repos := Repositories(re, images, p);
    SelectionCounts(re, images, p, groups, r, x);
    RepositoriesAreDistinct(re, images, p);
    if x in r {
      assert x in multiset(r);
      var i :| 0 <= i < |repos| && repos[i] == x.repository;
      PoolCounts(re, images, repos[i], p, x);
      assert x in multiset(groups[i]);
      if Eligible(re, y, p) && multiset(r)[y] < multiset(images)[y] && x.repository == y.repository {
        SelectionCounts(re, images, p, groups, r, y);
        PoolCounts(re, images, repos[i], p, y);
        assert y in multiset(Pool(re, images, repos[i], p)) - multiset(groups[i]);
      }
    }
  }

  /** How many images of one repository a list holds. */
  function CountOf(images: seq<RemoteImage>, repository: string): (n: nat) {
    if images == [] then 0 else
      CountOf(images[..|images| - 1], repository) + if images[|images| - 1].repository == repository then 1 else 0
  }

  function EligibleCount(re: Matcher, images: seq<RemoteImage>, repository: string, p: Policy): (n: nat) {
    if images == [] then 0 else
      var x := images[|images| - 1];
      EligibleCount(re, images[..|images| - 1], repository, p) +
          if x.repository == repository && Eligible(re, x, p) then 1 else 0
  }

  lemma {:induction false} PoolSize(re: Matcher, images: seq<RemoteImage>, repository: string, p: Policy)
    ensures EligibleCount(re, images, repository, p)
            == if RepositoryMatches(re, repository, p) then |Pool(re, images, repository, p)| else 0
  {
    if images != [] { PoolSize(re, images[..|images| - 1], repository, p); }
  }

  lemma {:induction false} PoolOfUnlisted(re: Matcher, images: seq<RemoteImage>, repository: string, p: Policy)
    requires forall i :: 0 <= i < |images| ==> images[i].repository != repository
    ensures Pool(re, images, repository, p) == []
  {
    if images != [] { PoolOfUnlisted(re, images[..|images| - 1], repository, p); }
  }

  lemma {:induction false} CountOfParts(a: seq<RemoteImage>, b: seq<RemoteImage>, repository: string)
    ensures CountOf(a + b, repository) == CountOf(a, repository) + CountOf(b, repository)
  {
    if b == [] {
      assert a + b == a;
    } else {
      assert (a + b)[..|a + b| - 1] == a + b[..|b| - 1];
      CountOfParts(a, b[..|b| - 1], repository);
    }
  }

  predicate AllFrom(g: seq<RemoteImage>, own: string) { forall i :: 0 <= i < |g| ==> g[i].repository == own }

  lemma {:induction false} CountOfOwn(g: seq<RemoteImage>, own: string, repository: string)
    requires AllFrom(g, own)
    ensures CountOf(g, repository) == if own == repository then |g| else 0
  {
    if g != [] { CountOfOwn(g[..|g| - 1], own, repository); }
  }

  lemma {:induction false} CountOfGroups(groups: seq<seq<RemoteImage>>, repos: seq<string>, repository: string)
    requires |groups| == |repos|
    requires forall i :: 0 <= i < |groups| ==> AllFrom(groups[i], repos[i])
    requires forall i, j :: 0 <= i < j < |repos| ==> repos[i] != repos[j]
    ensures repository !in repos ==> CountOf(Flatten(groups), repository) == 0
    ensures forall i :: 0 <= i < |repos| && repos[i] == repository ==>
        CountOf(Flatten(groups), repository) == |groups[i]|
  {
    if groups != [] {
      var n := |groups| - 1;
      CountOfGroups(groups[..n], repos[..n], repository);
      CountOfParts(Flatten(groups[..n]), groups[n], repository);
      CountOfOwn(groups[n], repos[n], repository);
    }
  }

  /** Of every repository a selection keeps as many images as the limit allows, or all that are eligible if
      they are fewer. */
  lemma SelectionIsFull(re: Matcher, images: seq<RemoteImage>, p: Policy, groups: seq<seq<RemoteImage>>,
                        r: seq<RemoteImage>, repository: string)
    requires Selects(re, images, p, groups, r)
    ensures var n := EligibleCount(re, images, repository, p);
            CountOf(r, repository) == if n < Limit(p) then n else Limit(p)
  {
    var repos := Repositories(re, images, p);
    GroupsAreApart(re, images, p, groups, r);
    RepositoriesAreDistinct(re, images, p);
    forall i | 0 <= i < |groups| ensures AllFrom(groups[i], repos[i]) {
      assert forall k :: 0 <= k < |groups[i]| ==> groups[i][k] in groups[i];
    }
    CountOfGroups(groups, repos, repository);
    PoolSize(re, images, repository, p);
    if repository in repos {
      var i :| 0 <= i < |repos| && repos[i] == repository;
      assert IsTopK(Pool(re, images, repos[i], p), Limit(p), groups[i]);
    } else if RepositoryMatches(re, repository, p) {
      PoolOfUnlisted(re, images, repository, p);
    }
  }

  /** What a second selection sees of one repository is exactly the group the first one kept. */
  lemma PoolAgain(re: Matcher, images: seq<RemoteImage>, p: Policy, groups: seq<seq<RemoteImage>>, r: seq<RemoteImage>,
                  i: nat)
    requires Selects(re, images, p, groups, r) && i < |groups|
    ensures var pool := Pool(re, r, Repositories(re, images, p)[i], p);
            multiset(pool) == multiset(groups[i]) && |pool| == |groups[i]| <= Limit(p)
  {
    var repos := Repositories(re, images, p);
    var pool := Pool(re, r, repos[i], p);
    GroupsAreApart(re, images, p, groups, r);
    forall x ensures multiset(pool)[x] == multiset(groups[i])[x] {
      PoolCounts(re, r, repos[i], p, x);
      SelectionCounts(re, images, p, groups, r, x);
      if x.repository != repos[i] || !TagMatches(re, x.tag, p) { assert x !in groups[i]; }
    }
    assert multiset(pool) == multiset(groups[i]);
    assert |multiset(pool)| == |pool| && |multiset(groups[i])| == |groups[i]|;
  }

  /** Selecting again from a selection keeps every image. */
  lemma SelectAgain(re: Matcher, images: seq<RemoteImage>, p: Policy, groups: seq<seq<RemoteImage>>,
                    r: seq<RemoteImage>, groups': seq<seq<RemoteImage>>, r': seq<RemoteImage>)
    requires Selects(re, images, p, groups, r) && Selects(re, r, p, groups', r')
    ensures multiset(r') == multiset(r)
  {
    forall x ensures multiset(r')[x] == multiset(r)[x] {
      CountAgain(re, images, p, groups, r, groups', r', x);
    }
  }

  /** A second selection meets no repository the first one did not. */
  lemma RepositoriesAgain(re: Matcher, images: seq<RemoteImage>, p: Policy, groups: seq<seq<RemoteImage>>,
                          r: seq<RemoteImage>, s: string)
    requires Selects(re, images, p, groups, r) && s in Repositories(re, r, p)
    ensures s in Repositories(re, images, p)
  {
    RepositoriesAreDistinct(re, r, p);
    var k :| 0 <= k < |r| && r[k].repository == s;
    assert r[k] in multiset(r);
    SelectionCounts(re, images, p, groups, r, r[k]);
  }

  lemma CountAgain(re: Matcher, images: seq<RemoteImage>, p: Policy, groups: seq<seq<RemoteImage>>, r: seq<RemoteImage>,
                   groups': seq<seq<RemoteImage>>, r': seq<RemoteImage>, x: RemoteImage)
    requires Selects(re, images, p, groups, r) && Selects(re, r, p, groups', r')
    ensures multiset(r')[x] == multiset(r)[x]
  {
    var repos, repos' := Repositories(re, images, p), Repositories(re, r, p);
    SelectionCounts(re, r, p, groups', r', x);
    if j :| 0 <= j < |repos'| && repos'[j] == x.repository {
      assert x.repository in repos';
      RepositoriesAgain(re, images, p, groups, r, x.repository);
      var i :| 0 <= i < |repos| && repos[i] == x.repository;
      PoolAgain(re, images, p, groups, r, i);
      WholePool(Pool(re, r, repos'[j], p), Limit(p), groups'[j]);
      SelectionCounts(re, images, p, groups, r, x);
    } else {
      NotSelectedElsewhere(re, images, p, groups, r, x);
    }
  }

  lemma NotSelectedElsewhere(re: Matcher, images: seq<RemoteImage>, p: Policy, groups: seq<seq<RemoteImage>>,
                             r: seq<RemoteImage>, x: RemoteImage)
    requires Selects(re, images, p, groups, r) && x.repository !in Repositories(re, r, p)
    ensures multiset(r)[x] == 0
  {
    RepositoriesAreDistinct(re, r, p);
    assert x in r <==> x in multiset(r);
    SelectionIsSound(re, images, p, groups, r, x, x);
  }

  lemma WholePool(pool: seq<RemoteImage>, k: nat, g: seq<RemoteImage>)
    requires IsTopK(pool, k, g) && |pool| <= k
    ensures multiset(g) == multiset(pool)
  {
    assert |multiset(pool)| == |pool| && |multiset(g)| == |g|;
    assert multiset(pool) == multiset(g) + (multiset(pool) - multiset(g));
    assert |multiset(pool) - multiset(g)| == 0;
  }
}
