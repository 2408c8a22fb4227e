/** Sorting, as `slices.Sort` and `slices.SortFunc` promise it: some sorted permutation, not a stable
    one. Where the keys are distinct that permutation is unique, and the order of the input is gone. */
module Ordering {
  // ---------------------------------------------------------------- string order

  /** `strings.Compare(a, b) < 0`. */
  predicate Less(a: string, b: string) {
    b != "" && (a == "" || a[0] < b[0] || (a[0] == b[0] && Less(a[1..], b[1..])))
  }

  /** Where the two first differ: one has ended, or has the smaller character. */
  ghost predicate DifferAt(a: string, b: string, k: nat) {
    && k <= |a| && k < |b| && a[..k] == b[..k]
    && (k == |a| || a[k] < b[k])
  }

  /** The order is the lexicographic one. */
  lemma {:induction false} LessMeans(a: string, b: string)
    ensures Less(a, b) <==> exists k: nat :: DifferAt(a, b, k)
  {
    if b != "" && a != "" && a[0] == b[0] {
      LessMeans(a[1..], b[1..]);
      if k: nat :| DifferAt(a[1..], b[1..], k) {
        assert a[..k + 1] == [a[0]] + a[1..][..k] && b[..k + 1] == [b[0]] + b[1..][..k];
        assert DifferAt(a, b, k + 1);
      }
      if k: nat :| DifferAt(a, b, k) {
        assert k > 0;
        assert a[1..][..k - 1] == a[..k][1..] && b[1..][..k - 1] == b[..k][1..];
        assert DifferAt(a[1..], b[1..], k - 1);
      }
    } else if Less(a, b) {
      assert DifferAt(a, b, 0);
    } else {
      forall k: nat ensures !DifferAt(a, b, k) { HeadsAlike(a, b, k); }
    }
  }

  lemma HeadsAlike(a: string, b: string, k: nat)
    ensures DifferAt(a, b, k) && k > 0 ==> a != "" && b != "" && a[0] == b[0]
  {
    if DifferAt(a, b, k) && k > 0 { assert a[..k][0] == b[..k][0]; }
  }

  predicate AtMost(a: string, b: string) { !Less(b, a) }

  lemma {:induction false} Trichotomy(a: string, b: string)
    ensures !(Less(a, b) && Less(b, a))
    ensures !Less(a, b) && !Less(b, a) <==> a == b
  {
    if a != "" && b != "" {
      Trichotomy(a[1..], b[1..]);
      if a[0] == b[0] && a[1..] == b[1..] {
        assert a == [a[0]] + a[1..] && b == [b[0]] + b[1..];
      }
    }
  }

  lemma {:induction false} LessTransitive(a: string, b: string, c: string)
    requires AtMost(a, b) && AtMost(b, c)
    ensures AtMost(a, c)
  {
    if a != "" && b != "" && c != "" && a[0] == b[0] == c[0] {
      LessTransitive(a[1..], b[1..], c[1..]);
    }
  }

  lemma StringsAreOrdered()
    ensures TotalPreorder(AtMost)
    ensures forall a, b :: AtMost(a, b) && AtMost(b, a) ==> a == b
  {
    forall a, b ensures AtMost(a, b) || AtMost(b, a)
                ensures AtMost(a, b) && AtMost(b, a) ==> a == b { Trichotomy(a, b); }
    forall a, b, c | AtMost(a, b) && AtMost(b, c) ensures AtMost(a, c) { LessTransitive(a, b, c); }
  }

  // ---------------------------------------------------------------- sorted permutations

  ghost predicate TotalPreorder<T(!new)>(leq: (T, T) -> bool) {
    && (forall x, y :: leq(x, y) || leq(y, x))
    && (forall x, y, z :: leq(x, y) && leq(y, z) ==> leq(x, z))
  }

  ghost predicate SortedBy<T>(leq: (T, T) -> bool, s: seq<T>) {
    forall i, j :: 0 <= i < j < |s| ==> leq(s[i], s[j])
  }

  /** Keys decide identity among the elements of `s`. */
  ghost predicate Distinguishes<T>(leq: (T, T) -> bool, s: seq<T>) {
    forall i, j :: 0 <= i < |s| && 0 <= j < |s| && leq(s[i], s[j]) && leq(s[j], s[i]) ==> s[i] == s[j]
  }

  lemma HeadsAgree<T>(leq: (T, T) -> bool, s: seq<T>, t: seq<T>)
    requires SortedBy(leq, s) && SortedBy(leq, t) && Distinguishes(leq, s)
    requires s != [] && t != [] && multiset(s) == multiset(t)
    ensures s[0] == t[0]
  {
    assert s[0] in multiset(t) && t[0] in multiset(s);
    var i :| 0 <= i < |t| && t[i] == s[0];
    var j :| 0 <= j < |s| && s[j] == t[0];
    if i != 0 && j != 0 {
      assert leq(t[0], t[i]) && leq(s[0], s[j]);
    }
  }

  lemma TailsAgree<T>(x: T, s: seq<T>, t: seq<T>)
    requires multiset([x] + s) == multiset([x] + t)
    ensures multiset(s) == multiset(t)
  {
    assert multiset([x] + s) - multiset{x} == multiset(s);
    assert multiset([x] + t) - multiset{x} == multiset(t);
  }

  /** Two sorted permutations of elements with distinct keys are one sequence. */
  lemma {:induction false} SortedUnique<T>(leq: (T, T) -> bool, s: seq<T>, t: seq<T>)
    requires SortedBy(leq, s) && SortedBy(leq, t)
    requires multiset(s) == multiset(t) && Distinguishes(leq, s)
    ensures s == t
  {
    assert |multiset(s)| == |s| && |multiset(t)| == |t|;
    if s != [] {
      HeadsAgree(leq, s, t);
      assert s == [s[0]] + s[1..] && t == [t[0]] + t[1..];
      TailsAgree(s[0], s[1..], t[1..]);
      SortedUnique(leq, s[1..], t[1..]);
    }
  }

  /** The last element of one permutation, found in another. */
  lemma TakeLast<T>(s: seq<T>, t: seq<T>) returns (pre: seq<T>, post: seq<T>)
    requires s != [] && multiset(s) == multiset(t)
    ensures t == pre + [s[|s| - 1]] + post
    ensures multiset(s[..|s| - 1]) == multiset(pre + post)
  {
    var init, x := s[..|s| - 1], s[|s| - 1];
    assert s == init + [x];
    assert x in multiset(t);
    var i :| 0 <= i < |t| && t[i] == x;
    pre, post := t[..i], t[i + 1..];
    assert t == pre + [x] + post;
    assert multiset(s) - multiset{x} == multiset(init);
    assert multiset(t) - multiset{x} == multiset(pre) + multiset(post);
  }

  function Insert<T>(leq: (T, T) -> bool, x: T, s: seq<T>): (r: seq<T>)
    ensures multiset(r) == multiset{x} + multiset(s)
  {
    if s == [] || leq(x, s[0]) then [x] + s else
      assert s == [s[0]] + s[1..];
      [s[0]] + Insert(leq, x, s[1..])
  }

  lemma {:induction false} InsertKeepsOrder<T(!new)>(leq: (T, T) -> bool, x: T, s: seq<T>)
    requires TotalPreorder(leq) && SortedBy(leq, s)
    ensures SortedBy(leq, Insert(leq, x, s))
  {
    if s != [] && !leq(x, s[0]) {
      InsertKeepsOrder(leq, x, s[1..]);
      var r := Insert(leq, x, s[1..]);
      forall y | y in r ensures leq(s[0], y) {
        assert y in multiset(r);
        assert y == x || y in s[1..];
      }
    }
  }

  /** The one sorted permutation this project computes with; results never depend on the choice. */
  function Sort<T>(leq: (T, T) -> bool, s: seq<T>): (r: seq<T>)
    ensures multiset(r) == multiset(s) && |r| == |s|
  {
    if s == [] then [] else
      assert s == [s[0]] + s[1..];
      var r := Insert(leq, s[0], Sort(leq, s[1..]));
      assert |multiset(r)| == |r| && |multiset(s)| == |s|;
      r
  }

  lemma {:induction false} SortIsSorted<T(!new)>(leq: (T, T) -> bool, s: seq<T>)
    requires TotalPreorder(leq)
    ensures SortedBy(leq, Sort(leq, s))
  {
    if s != [] {
      SortIsSorted(leq, s[1..]);
      InsertKeepsOrder(leq, s[0], Sort(leq, s[1..]));
    }
  }

  // ---------------------------------------------------------------- the sorted listing of a set

  ghost predicate Listing<T(!new)>(s: seq<T>, elems: set<T>) {
    && (forall x :: x in s <==> x in elems)
    && (forall i, j :: 0 <= i < j < |s| ==> s[i] != s[j])
  }

  /** A map or set iterated in some order. */
  ghost function AnyOrder<T(!new)>(elems: set<T>): (s: seq<T>)
    ensures Listing(s, elems)
  {
    if elems == {} then [] else
      var x :| x in elems;
      [x] + AnyOrder(elems - {x})
  }

  ghost predicate IsAscending(s: seq<string>, elems: set<string>) {
    Listing(s, elems) && SortedBy(AtMost, s)
  }

  /** The elements in ascending order: what is left of a listing after `slices.Sort`. */
  ghost function Ascending(elems: set<string>): (s: seq<string>) {
    AscendingExists(elems);
    var s :| IsAscending(s, elems); s
  }

  lemma AscendingExists(elems: set<string>)
    ensures exists s :: IsAscending(s, elems)
  {
    StringsAreOrdered();
    var t := AnyOrder(elems);
    SortIsSorted(AtMost, t);
    PermutedListing(t, Sort(AtMost, t), elems);
    assert IsAscending(Sort(AtMost, t), elems);
  }

  lemma ListingsAgree<T(!new)>(s: seq<T>, t: seq<T>, elems: set<T>)
    requires Listing(s, elems) && Listing(t, elems)
    ensures multiset(s) == multiset(t)
  {
    forall x ensures multiset(s)[x] == multiset(t)[x] {
      ListingCounts(s, elems, x);
      ListingCounts(t, elems, x);
    }
  }

  lemma {:induction false} ListingCounts<T(!new)>(s: seq<T>, elems: set<T>, x: T)
    requires Listing(s, elems)
    ensures multiset(s)[x] == if x in elems then 1 else 0
  {
    if s != [] {
      assert s == [s[0]] + s[1..];
      ListingCounts(s[1..], elems - {s[0]}, x);
    }
  }

  /** Sorting forgets the order a map was iterated in. */
  lemma SortForgetsOrder(s: seq<string>, elems: set<string>)
    requires Listing(s, elems)
    ensures Sort(AtMost, s) == Ascending(elems)
  {
    StringsAreOrdered();
    var t := Ascending(elems);
    ListingsAgree(s, t, elems);
    SortIsSorted(AtMost, s);
    SortedUnique(AtMost, t, Sort(AtMost, s));
  }

  lemma AscendingUnique(s: seq<string>, elems: set<string>)
    requires IsAscending(s, elems)
    ensures s == Ascending(elems)
  {
    StringsAreOrdered();
    ListingsAgree(s, Ascending(elems), elems);
    SortedUnique(AtMost, s, Ascending(elems));
  }

  lemma PermutedListing<T(!new)>(s: seq<T>, t: seq<T>, elems: set<T>)
    requires Listing(s, elems) && multiset(s) == multiset(t)
    ensures Listing(t, elems)
  {
    forall x ensures x in t <==> x in elems {
      assert x in t <==> x in multiset(t);
      assert x in s <==> x in multiset(s);
    }
    forall i, j | 0 <= i < j < |t| ensures t[i] != t[j] {
      ListingCounts(s, elems, t[i]);
      var pre, post := t[..i + 1], t[i + 1..];
      assert t == pre + post && t[i] in multiset(pre) && t[j] == post[j - i - 1];
      assert t[j] in multiset(post);
      assert multiset(t)[t[i]] == multiset(pre)[t[i]] + multiset(post)[t[i]];
    }
  }
}
