/** The registry sync: apply one catalog entry per selected image, prune the entries this registry produced
    before and no longer does, and report the result in the status. */
module RegistrySync {
  import opened Common
  import opened Selection
  import opened Text

  // ---------------------------------------------------------------- entry names

  predicate IsLabelChar(c: char) { IsAlnum(c) || c == '-' }
  predicate IsDash(c: char) { c == '-' }

  /** `[^a-z0-9-]+` replaced by `-`: each run of other characters becomes one dash. `inRun` says whether
      the previous character belonged to such a run. */
  function ReplaceRuns(s: string, inRun: bool): (r: string) {
    if s == "" then ""
    else if IsLabelChar(s[0]) then [s[0]] + ReplaceRuns(s[1..], false)
    else if inRun then ReplaceRuns(s[1..], true)
    else "-" + ReplaceRuns(s[1..], true)
  }

  const MAX_NAME := 200

  function Shortened(s: string): (r: string) {
    if |s| > MAX_NAME then Trim(s[..MAX_NAME], IsDash) else s
  }

  /** `syncedImageName`. */
  function SyncedName(registry: string, image: RemoteImage): (r: string) {
    Shortened(Trim(ReplaceRuns(Lower(registry + "-" + image.repository + "-" + image.tag), false), IsDash))
  }

  predicate LabelLike(s: string) {
    (forall i :: 0 <= i < |s| ==> IsLabelChar(s[i])) && (s != "" ==> IsAlnum(s[0]) && IsAlnum(s[|s| - 1]))
  }

  lemma {:induction false} ReplacedChars(s: string, inRun: bool)
    ensures forall i :: 0 <= i < |ReplaceRuns(s, inRun)| ==> IsLabelChar(ReplaceRuns(s, inRun)[i])
  {
    if s != "" {
      ReplacedChars(s[1..], false);
      ReplacedChars(s[1..], true);
    }
  }

  lemma TrimmedLabel(s: string)
    requires forall i :: 0 <= i < |s| ==> IsLabelChar(s[i])
    ensures LabelLike(Trim(s, IsDash)) && |Trim(s, IsDash)| <= |s|
  {
    TrimMeans(s, IsDash);
  }

  predicate HasAlnum(s: string) { exists i :: 0 <= i < |s| && IsAlnum(s[i]) }

  lemma HasAlnumCons(s: string)
    requires s != ""
    ensures HasAlnum(s) <==> IsAlnum(s[0]) || HasAlnum(s[1..])
  {
    if i :| 0 <= i < |s[1..]| && IsAlnum(s[1..][i]) { assert IsAlnum(s[i + 1]); }
    if i :| 0 < i < |s| && IsAlnum(s[i]) { assert IsAlnum(s[1..][i - 1]); }
  }

  lemma {:induction false} ReplaceKeepsAlnums(s: string, inRun: bool)
    ensures HasAlnum(ReplaceRuns(s, inRun)) <==> HasAlnum(s)
  {
    if s != "" {
      var tail := ReplaceRuns(s[1..], !IsLabelChar(s[0]));
      HasAlnumCons(s);
      ReplaceKeepsAlnums(s[1..], !IsLabelChar(s[0]));
      if IsLabelChar(s[0]) { HasAlnumCons([s[0]] + tail); } else { HasAlnumCons("-" + tail); }
    }
  }

  lemma TrimmedToNothing(s: string)
    requires forall i :: 0 <= i < |s| ==> IsLabelChar(s[i])
    ensures Trim(s, IsDash) == "" <==> !HasAlnum(s)
  {
    TrimMeans(s, IsDash);
    var i, j :| 0 <= i <= j <= |s| && Trim(s, IsDash) == s[i..j]
                && (i < j ==> !IsDash(s[i]) && !IsDash(s[j - 1]))
                && forall k :: (0 <= k < i || j <= k < |s|) ==> IsDash(s[k]);
    if i < j { assert IsAlnum(s[i]); }
  }

  /** Every derived name consists of label characters, begins and ends alphanumeric and fits the limit. */
  lemma SyncedNameIsUsable(registry: string, image: RemoteImage)
    ensures LabelLike(SyncedName(registry, image)) && |SyncedName(registry, image)| <= MAX_NAME
  {
    var raw := ReplaceRuns(Lower(registry + "-" + image.repository + "-" + image.tag), false);
    ReplacedChars(Lower(registry + "-" + image.repository + "-" + image.tag), false);
    TrimmedLabel(raw);
    var name := Trim(raw, IsDash);
    if |name| > MAX_NAME { TrimmedLabel(name[..MAX_NAME]); }
  }

  predicate Usable(s: string) { exists i :: 0 <= i < |s| && IsAlnum(LowerChar(s[i])) }

  lemma LowerAlnum(s: string)
    ensures HasAlnum(Lower(s)) <==> Usable(s)
  {
    MapAt(s, LowerChar);
    if i :| 0 <= i < |s| && IsAlnum(LowerChar(s[i])) { assert IsAlnum(Lower(s)[i]); }
    if i :| 0 <= i < |Lower(s)| && IsAlnum(Lower(s)[i]) { assert IsAlnum(LowerChar(s[i])); }
  }

  lemma UsableParts(a: string, b: string)
    ensures Usable(a + "-" + b) <==> Usable(a) || Usable(b)
  {
    var s := a + "-" + b;
    assert forall i :: 0 <= i < |s| ==> s[i] == if i < |a| then a[i] else if i == |a| then '-' else b[i - |a| - 1];
    if i :| 0 <= i < |a| && IsAlnum(LowerChar(a[i])) { assert IsAlnum(LowerChar(s[i])); }
    if i :| 0 <= i < |b| && IsAlnum(LowerChar(b[i])) { assert IsAlnum(LowerChar(s[|a| + 1 + i])); }
  }

  lemma ShortenedToNothing(s: string)
    requires LabelLike(s)
    ensures Shortened(s) == "" <==> s == ""
  {
    if |s| > MAX_NAME {
      assert IsAlnum(s[..MAX_NAME][0]);
      TrimmedToNothing(s[..MAX_NAME]);
    }
  }

  lemma {:induction false} ReplaceNothing(s: string)
    requires forall i :: 0 <= i < |s| ==> IsLabelChar(s[i])
    ensures ReplaceRuns(s, false) == s
  {
    if s != "" { ReplaceNothing(s[1..]); }
  }

  /** Registry, repository and tag that need no replacing are in the name as they are, lower-cased. */
  lemma SyncedNameKeeps(registry: string, image: RemoteImage)
    requires var t := Lower(registry + "-" + image.repository + "-" + image.tag);
             LabelLike(t) && |t| <= MAX_NAME
    ensures SyncedName(registry, image) == Lower(registry + "-" + image.repository + "-" + image.tag)
  {
    var t := Lower(registry + "-" + image.repository + "-" + image.tag);
    ReplaceNothing(t);
    TrimTrimmed(t, IsDash);
  }

  /** A derived name is empty only when registry, repository and tag have no alphanumeric at all: a registry's
      own name, as the API server accepts it, already rules that out. */
  lemma SyncedNameEmptyIff(registry: string, image: RemoteImage)
    ensures SyncedName(registry, image) == "" <==> !Usable(registry) && !Usable(image.repository) && !Usable(image.tag)
  {
    var text := registry + "-" + image.repository + "-" + image.tag;
    UsableParts(registry, image.repository);
    UsableParts(registry + "-" + image.repository, image.tag);
    LowerAlnum(text);
    ReplaceKeepsAlnums(Lower(text), false);
    ReplacedChars(Lower(text), false);
    TrimmedToNothing(ReplaceRuns(Lower(text), false));
    TrimmedLabel(ReplaceRuns(Lower(text), false));
    ShortenedToNothing(Trim(ReplaceRuns(Lower(text), false), IsDash));
  }

  // ---------------------------------------------------------------- the catalog

  /** `listed` is the registry label, `owner` the controlling registry, `extra` everything the sync does not
      manage. */
  datatype Entry = Entry(listed: Option<string>, owner: Option<string>, displayName: string, image: string,
                         pullSecret: string, extra: string)

  type Catalog = map<string, Entry>

  datatype Registry = Registry(name: string, pullSecret: string)

  /** How entry names are derived; may be any function, `SyncedName` among them. */
  type Namer = (string, RemoteImage) -> string

  /** Server-side apply: the managed fields are set, the others kept. */
  function Synced(reg: Registry, image: RemoteImage, was: Option<Entry>): (e: Entry) {
    Entry(Some(reg.name), Some(reg.name), image.repository + ":" + image.tag, image.reference, reg.pullSecret,
          if was.Some? then was.value.extra else "")
  }

  function At(c: Catalog, n: string): Option<Entry> { if n in c then Some(c[n]) else None }

  /** An entry another registry controls cannot be taken over. */
  predicate CanApply(c: Catalog, n: string, reg: Registry) {
    n in c ==> c[n].owner.None? || c[n].owner == Some(reg.name)
  }

  function ApplyAll(c: Catalog, reg: Registry, images: seq<RemoteImage>, name: Namer, faults: set<string>):
    (r: (Catalog, bool))
    decreases |images|
  {
    if images == [] then (c, true) else
      var n := name(reg.name, images[0]);
      if n in faults || !CanApply(c, n, reg) then (c, false)
      else ApplyAll(c[n := Synced(reg, images[0], At(c, n))], reg, images[1..], name, faults)
  }

  function Names(reg: Registry, images: seq<RemoteImage>, name: Namer): (r: set<string>) {
    set i | 0 <= i < |images| :: name(reg.name, images[i])
  }

  predicate Stale(c: Catalog, n: string, reg: Registry, desired: set<string>) {
    n in c && c[n].listed == Some(reg.name) && n !in desired
  }

  function Prune(c: Catalog, order: seq<string>, reg: Registry, desired: set<string>, faults: set<string>):
    (r: (Catalog, bool))
    decreases |order|
  {
    if order == [] then (c, true)
    else if !Stale(c, order[0], reg, desired) then Prune(c, order[1..], reg, desired, faults)
    else if order[0] in faults then (c, false)
    else Prune(c - {order[0]}, order[1..], reg, desired, faults)
  }

  ghost predicate ListsEntries(order: seq<string>, c: Catalog, reg: Registry) {
    forall n :: n in order <==> n in c && c[n].listed == Some(reg.name)
  }

  datatype Status = Status(images: int, lastSync: Option<Time>, ready: bool, degraded: bool, generation: int)

  function MarkReady(images: int, now: Time, generation: int): Status {
    Status(images, Some(now), true, false, generation)
  }

  function MarkDegraded(s: Status, generation: int): Status {
    s.(ready := false, degraded := true, generation := generation)
  }

  datatype Outcome = Outcome(catalog: Catalog, status: Status, ok: bool)

  /** One reconcile. `selected` is `None` when the provider, its listing or the patterns failed; `order` is
      the listing the prune pass got, anything else a failed list. */
  ghost function Sync(c: Catalog, status: Status, reg: Registry, selected: Option<seq<RemoteImage>>, prune: bool,
                      name: Namer, order: seq<string>, faults: set<string>, now: Time, generation: int): (r: Outcome)
  {
    if selected.None? then Outcome(c, MarkDegraded(status, generation), false) else
      var applied := ApplyAll(c, reg, selected.value, name, faults);
      if !applied.1 then Outcome(applied.0, MarkDegraded(status, generation), false)
      else if !prune then Outcome(applied.0, MarkReady(|selected.value|, now, generation), true)
      else if !ListsEntries(order, applied.0, reg) then Outcome(applied.0, MarkDegraded(status, generation), false)
      else
        var pruned := Prune(applied.0, order, reg, Names(reg, selected.value, name), faults);
        if pruned.1 then Outcome(pruned.0, MarkReady(|selected.value|, now, generation), true)
        else Outcome(pruned.0, MarkDegraded(status, generation), false)
  }

  class Controller {
    var catalog: Catalog
    var status: Status

    constructor (catalog: Catalog)
      ensures this.catalog == catalog
    {
      this.catalog := catalog;
      status := Status(0, None, false, false, 0);
    }

    /** `patchStatus`. */
    method PatchStatus(next: Status, statusFails: bool) returns (ok: bool)
      modifies this`status
      ensures ok == !statusFails && status == if ok then next else old(status)
    {
      if !statusFails { status := next; }
      return !statusFails;
    }

    /** `Reconcile`, from the selection on. */
    method Reconcile(reg: Registry, selected: Option<seq<RemoteImage>>, prune: bool, name: Namer,
                     listFails: bool, faults: set<string>, statusFails: bool, now: Time, generation: int)
      returns (ok: bool, ghost order: seq<string>)
      modifies this
      ensures var sync := Sync(old(catalog), old(status), reg, selected, prune, name, order, faults, now, generation);
              && catalog == sync.catalog && ok == (sync.ok && !statusFails)
              && status == if statusFails then old(status) else sync.status
      ensures prune && listFails ==> !ok
      ensures prune && !listFails && selected.Some? && ApplyAll(old(catalog), reg, selected.value, name, faults).1 ==>
                ListsEntries(order, ApplyAll(old(catalog), reg, selected.value, name, faults).0, reg)
    {
      order := [];
      if selected.None? {
        var _ := PatchStatus(MarkDegraded(status, generation), statusFails);
        return false, order;
      }
      var images := selected.value;
      var desired: set<string> := {};
      var i := 0;
      while i < |images|
        invariant 0 <= i <= |images| && desired == Names(reg, images[..i], name) && status == old(status)
        invariant ApplyAll(catalog, reg, images[i..], name, faults) == ApplyAll(old(catalog), reg, images, name, faults)
      {
        assert images[i..][1..] == images[i + 1..] && images[..i + 1] == images[..i] + [images[i]];
        var n := name(reg.name, images[i]);
        desired := desired + {n};
        NamesSnoc(reg, images[..i], images[i], name);
        if n in faults || !CanApply(catalog, n, reg) {
          var _ := PatchStatus(MarkDegraded(status, generation), statusFails);
          return false, order;
        }
        catalog := catalog[n := Synced(reg, images[i], At(catalog, n))];
        i := i + 1;
      }
      assert images[..i] == images;
      if prune {
        var pruned;
        pruned, order := PruneEntries(reg, desired, listFails, faults);
        if !pruned {
          var _ := PatchStatus(MarkDegraded(status, generation), statusFails);
          return false, order;
        }
      }
      ok := PatchStatus(MarkReady(|images|, now, generation), statusFails);
    }

    /** The list call of `prune`: this registry's entries in whatever order the API server returns them. */
    method ListEntries(reg: Registry) returns (order: seq<string>)
      ensures ListsEntries(order, catalog, reg)
    {
      order := [];
      var left := catalog.Keys;
      while left != {}
        invariant left <= catalog.Keys
        invariant forall n :: n in order <==> n in catalog && n !in left && catalog[n].listed == Some(reg.name)
        decreases |left|
      {
        var n :| n in left;
        left := left - {n};
        if catalog[n].listed == Some(reg.name) { order := order + [n]; }
      }
    }

    /** `prune`: list, then delete what is no longer wanted. */
    method PruneEntries(reg: Registry, desired: set<string>, listFails: bool, faults: set<string>)
      returns (ok: bool, ghost listing: seq<string>)
      modifies this`catalog
      ensures ListsEntries(listing, old(catalog), reg) <==> !listFails
      ensures (catalog, ok) == if listFails then (old(catalog), false)
                               else Prune(old(catalog), listing, reg, desired, faults)
    {
      if listFails {
        listing := if ListsEntries([], catalog, reg) then [""] else [];
        assert !ListsEntries(listing, catalog, reg) by { assert "" in [""]; }
        return false, listing;
      }
      var order := ListEntries(reg);
      listing := order;
      var j := 0;
      while j < |order|
        invariant 0 <= j <= |order|
        invariant Prune(catalog, order[j..], reg, desired, faults) == Prune(old(catalog), order, reg, desired, faults)
      {
        assert order[j..][1..] == order[j + 1..];
        var n := order[j];
        if n in catalog && catalog[n].listed == Some(reg.name) && n !in desired {
          if n in faults { return false, listing; }
          catalog := catalog - {n};
        }
        j := j + 1;
      }
      return true, listing;
    }
  }

  lemma NamesSnoc(reg: Registry, images: seq<RemoteImage>, x: RemoteImage, name: Namer)
    ensures Names(reg, images + [x], name) == Names(reg, images, name) + {name(reg.name, x)}
  {
    var l, r := Names(reg, images + [x], name), Names(reg, images, name) + {name(reg.name, x)};
    forall n ensures n in l <==> n in r {
      if n in l {
        var i :| 0 <= i < |images + [x]| && n == name(reg.name, (images + [x])[i]);
        if i < |images| { assert n == name(reg.name, images[i]); }
      }
      if n in r {
        if i :| 0 <= i < |images| && n == name(reg.name, images[i]) {
          assert n == name(reg.name, (images + [x])[i]);
        } else {
          assert n == name(reg.name, (images + [x])[|images|]);
        }
      }
    }
  }

  lemma NamesCons(reg: Registry, images: seq<RemoteImage>, name: Namer)
    requires images != []
    ensures Names(reg, images, name) == {name(reg.name, images[0])} + Names(reg, images[1..], name)
  {
    var l, r := Names(reg, images, name), {name(reg.name, images[0])} + Names(reg, images[1..], name);
    forall n ensures n in l <==> n in r {
      if n in l {
        var i :| 0 <= i < |images| && n == name(reg.name, images[i]);
        if i > 0 { assert n == name(reg.name, images[1..][i - 1]); }
      }
      if i :| 0 <= i < |images[1..]| && n == name(reg.name, images[1..][i]) {
        assert n == name(reg.name, images[i + 1]);
      }
    }
  }

  // ---------------------------------------------------------------- applying

  /** The entry an apply pass leaves at one name: the last image with that name decides. */
  function Final(reg: Registry, images: seq<RemoteImage>, name: Namer, n: string, was: Option<Entry>):
    (r: Option<Entry>)
    decreases |images|
  {
    if images == [] then was
    else Final(reg, images[1..], name, n,
               if name(reg.name, images[0]) == n then Some(Synced(reg, images[0], was)) else was)
  }

  lemma {:induction false} AppliedAt(c: Catalog, reg: Registry, images: seq<RemoteImage>, name: Namer,
                                     faults: set<string>, n: string)
    ensures var r := ApplyAll(c, reg, images, name, faults);
            && (n in c ==> n in r.0)
            && (n !in Names(reg, images, name) ==> At(r.0, n) == At(c, n))
            && (r.1 ==> At(r.0, n) == Final(reg, images, name, n, At(c, n)))
            && (n in r.0 && At(r.0, n) != At(c, n) ==>
                  r.0[n].listed == Some(reg.name) && r.0[n].owner == Some(reg.name))
            && (n in c && c[n].owner.Some? && c[n].owner != Some(reg.name) ==> r.0[n] == c[n])
            && (r.1 && n in Names(reg, images, name) ==>
                  n in r.0 && r.0[n].listed == Some(reg.name) && r.0[n].owner == Some(reg.name))
    decreases |images|
  {
    if images != [] {
      var m := name(reg.name, images[0]);
      NamesCons(reg, images, name);
      if m !in faults && CanApply(c, m, reg) {
        var c1 := c[m := Synced(reg, images[0], At(c, m))];
        AppliedAt(c1, reg, images[1..], name, faults, n);
        AppliedOwned(c1, reg, images[1..], name, faults, m);
      }
    }
  }

  /** Once ours, an entry stays ours through the rest of the pass. */
  lemma {:induction false} AppliedOwned(c: Catalog, reg: Registry, images: seq<RemoteImage>, name: Namer,
                                        faults: set<string>, n: string)
    requires n in c && c[n].listed == Some(reg.name) && c[n].owner == Some(reg.name)
    ensures var r := ApplyAll(c, reg, images, name, faults).0;
            n in r && r[n].listed == Some(reg.name) && r[n].owner == Some(reg.name)
    decreases |images|
  {
    if images != [] && name(reg.name, images[0]) !in faults && CanApply(c, name(reg.name, images[0]), reg) {
      AppliedOwned(c[name(reg.name, images[0]) := Synced(reg, images[0], At(c, name(reg.name, images[0])))], reg,
                   images[1..], name, faults, n);
    }
  }

  lemma {:induction false} PrunedAt(c: Catalog, order: seq<string>, reg: Registry, desired: set<string>,
                                    faults: set<string>, n: string)
    ensures var r := Prune(c, order, reg, desired, faults);
            && (n in r.0 ==> n in c && r.0[n] == c[n])
            && (n in c && n !in r.0 ==> Stale(c, n, reg, desired))
            && (r.1 && n in order && Stale(c, n, reg, desired) ==> n !in r.0)
    decreases |order|
  {
    if order != [] {
      if !Stale(c, order[0], reg, desired) {
        PrunedAt(c, order[1..], reg, desired, faults, n);
      } else if order[0] !in faults {
        PrunedAt(c - {order[0]}, order[1..], reg, desired, faults, n);
      }
    }
  }

  // ---------------------------------------------------------------- the sync

  function Listed(c: Catalog, reg: Registry): (r: set<string>) { set n | n in c && c[n].listed == Some(reg.name) }

  /** A successful sync with prune on leaves this registry exactly the names of the selected images; with
      prune off, the old ones plus those. */
  lemma SyncedExactly(c: Catalog, status: Status, reg: Registry, images: seq<RemoteImage>, prune: bool, name: Namer,
                      order: seq<string>, faults: set<string>, now: Time, generation: int)
    requires Sync(c, status, reg, Some(images), prune, name, order, faults, now, generation).ok
    ensures var r := Sync(c, status, reg, Some(images), prune, name, order, faults, now, generation);
            && Listed(r.catalog, reg) == Names(reg, images, name) + (if prune then {} else Listed(c, reg))
            && r.status.images == |images| && r.status.lastSync == Some(now) && r.status.ready && !r.status.degraded
            && r.status.generation == generation
  {
    var r := Sync(c, status, reg, Some(images), prune, name, order, faults, now, generation);
    var mid := ApplyAll(c, reg, images, name, faults).0;
    forall n ensures n in Listed(r.catalog, reg) <==> n in Names(reg, images, name) || (!prune && n in Listed(c, reg)) {
      AppliedAt(c, reg, images, name, faults, n);
      if prune { PrunedAt(mid, order, reg, Names(reg, images, name), faults, n); }
    }
  }

  /** `i` is the last image that derives this name. */
  predicate LastNamed(reg: Registry, images: seq<RemoteImage>, name: Namer, n: string, i: nat) {
    i < |images| && name(reg.name, images[i]) == n && forall j :: i < j < |images| ==> name(reg.name, images[j]) != n
  }

  lemma {:induction false} FinalIsLast(reg: Registry, images: seq<RemoteImage>, name: Namer, n: string,
                                       was: Option<Entry>) returns (i: nat)
    requires n in Names(reg, images, name)
    ensures LastNamed(reg, images, name, n, i)
    ensures var e := Final(reg, images, name, n, was);
            && e.Some? && e.value.image == images[i].reference && e.value.pullSecret == reg.pullSecret
            && e.value.displayName == images[i].repository + ":" + images[i].tag
            && e.value.listed == Some(reg.name) && e.value.owner == Some(reg.name)
            && e.value.extra == if was.Some? then was.value.extra else ""
    decreases |images|
  {
    NamesCons(reg, images, name);
    var next := if name(reg.name, images[0]) == n then Some(Synced(reg, images[0], was)) else was;
    if n in Names(reg, images[1..], name) {
      i := FinalIsLast(reg, images[1..], name, n, next);
      i := i + 1;
      assert forall j :: i < j < |images| ==> images[j] == images[1..][j - 1];
    } else {
      FinalUnnamed(reg, images[1..], name, n, next);
      i := 0;
      forall j | 0 < j < |images| ensures name(reg.name, images[j]) != n { assert images[j] == images[1..][j - 1]; }
    }
  }

  /** What a successful sync leaves under a name: the last image that derives it, with its reference, its display
      name and the registry's pull secret; what the sync does not manage is as it was. */
  lemma SyncedContent(c: Catalog, status: Status, reg: Registry, images: seq<RemoteImage>, prune: bool, name: Namer,
                      order: seq<string>, faults: set<string>, now: Time, generation: int, n: string) returns (i: nat)
    requires Sync(c, status, reg, Some(images), prune, name, order, faults, now, generation).ok
    requires n in Names(reg, images, name)
    ensures LastNamed(reg, images, name, n, i)
    ensures var r := Sync(c, status, reg, Some(images), prune, name, order, faults, now, generation).catalog;
            && n in r && r[n].image == images[i].reference && r[n].pullSecret == reg.pullSecret
            && r[n].displayName == images[i].repository + ":" + images[i].tag
            && r[n].extra == if n in c then c[n].extra else ""
  {
    AppliedAt(c, reg, images, name, faults, n);
    PrunedAt(ApplyAll(c, reg, images, name, faults).0, order, reg, Names(reg, images, name), faults, n);
    i := FinalIsLast(reg, images, name, n, At(c, n));
  }

  lemma {:induction false} ApplyOkIff(c: Catalog, reg: Registry, images: seq<RemoteImage>, name: Namer,
                                      faults: set<string>)
    ensures ApplyAll(c, reg, images, name, faults).1 <==>
            forall n :: n in Names(reg, images, name) ==> CanApply(c, n, reg) && n !in faults
    decreases |images|
  {
    if images != [] {
      NamesCons(reg, images, name);
      var m := name(reg.name, images[0]);
      if m !in faults && CanApply(c, m, reg) {
        var c1 := c[m := Synced(reg, images[0], At(c, m))];
        ApplyOkIff(c1, reg, images[1..], name, faults);
        forall n ensures CanApply(c1, n, reg) <==> CanApply(c, n, reg) {}
      }
    }
  }

  lemma {:induction false} PruneOkIff(c: Catalog, order: seq<string>, reg: Registry, desired: set<string>,
                                      faults: set<string>)
    ensures Prune(c, order, reg, desired, faults).1 <==>
            forall n :: n in order && Stale(c, n, reg, desired) ==> n !in faults
    decreases |order|
  {
    if order != [] {
      if !Stale(c, order[0], reg, desired) {
        PruneOkIff(c, order[1..], reg, desired, faults);
      } else if order[0] !in faults {
        PruneOkIff(c - {order[0]}, order[1..], reg, desired, faults);
        forall n | n in order && n != order[0]
          ensures n in order[1..] && (Stale(c - {order[0]}, n, reg, desired) <==> Stale(c, n, reg, desired)) {}
      }
    }
  }

  /** The entry of this name is absent, controlled by nobody or by this registry. */
  predicate Syncable(c: Catalog, n: string, reg: Registry) { n in c ==> c[n].owner in {None, Some(reg.name)} }

  /** Exactly when a sync succeeds: there is a selection, no other registry controls a selected name, the list was
      served, and no call it makes fails; a prune deletes just the listed entries not selected. */
  lemma SyncOkIff(c: Catalog, status: Status, reg: Registry, selected: Option<seq<RemoteImage>>, prune: bool,
                  name: Namer, order: seq<string>, faults: set<string>, now: Time, generation: int)
    ensures Sync(c, status, reg, selected, prune, name, order, faults, now, generation).ok <==>
            && selected.Some?
            && (forall n :: n in Names(reg, selected.value, name) ==> Syncable(c, n, reg) && n !in faults)
            && (prune ==>
                  && ListsEntries(order, ApplyAll(c, reg, selected.value, name, faults).0, reg)
                  && forall n :: n in Listed(c, reg) && n !in Names(reg, selected.value, name) ==> n !in faults)
  {
    if selected.Some? {
      var names, mid := Names(reg, selected.value, name), ApplyAll(c, reg, selected.value, name, faults).0;
      ApplyOkIff(c, reg, selected.value, name, faults);
      PruneOkIff(mid, order, reg, names, faults);
      forall n | n !in names ensures n in Listed(mid, reg) <==> n in Listed(c, reg) {
        AppliedAt(c, reg, selected.value, name, faults, n);
      }
      if ListsEntries(order, mid, reg) {
        forall n ensures n in order && Stale(mid, n, reg, names) <==> n in Listed(c, reg) && n !in names {
          assert n in order <==> n in Listed(mid, reg);
        }
      }
    }
  }

  /** Whatever happens, entries neither listed for this registry nor named by the selection are unchanged,
      and so are entries another registry controls and does not list here; a failed sync keeps the last
      image count and sync time. */
  lemma OthersUnchanged(c: Catalog, status: Status, reg: Registry, selected: Option<seq<RemoteImage>>, prune: bool,
                        name: Namer, order: seq<string>, faults: set<string>, now: Time, generation: int, n: string)
    ensures var r := Sync(c, status, reg, selected, prune, name, order, faults, now, generation);
            && (n !in Listed(c, reg) && (selected.None? || n !in Names(reg, selected.value, name)) ==>
                  At(r.catalog, n) == At(c, n))
            && (n in c && c[n].owner.Some? && c[n].owner != Some(reg.name) && n !in Listed(c, reg) ==>
                  At(r.catalog, n) == At(c, n))
            && (!r.ok ==> r.status == status.(ready := false, degraded := true, generation := generation))
  {
    if selected.Some? {
      var mid := ApplyAll(c, reg, selected.value, name, faults).0;
      AppliedAt(c, reg, selected.value, name, faults, n);
      PrunedAt(mid, order, reg, Names(reg, selected.value, name), faults, n);
    }
  }

  /** A sync that fails before it prunes (the prune pass's own list included), or does not prune, deletes
      nothing. */
  lemma FailureBeforePruneDeletesNothing(c: Catalog, status: Status, reg: Registry, selected: Option<seq<RemoteImage>>,
                                         prune: bool, name: Namer, order: seq<string>, faults: set<string>, now: Time,
                                         generation: int)
    requires selected.None? || !prune || !ApplyAll(c, reg, selected.value, name, faults).1
             || !ListsEntries(order, ApplyAll(c, reg, selected.value, name, faults).0, reg)
    ensures c.Keys <= Sync(c, status, reg, selected, prune, name, order, faults, now, generation).catalog.Keys
  {
    if selected.Some? {
      forall n | n in c ensures n in ApplyAll(c, reg, selected.value, name, faults).0 {
        AppliedAt(c, reg, selected.value, name, faults, n);
      }
    }
  }

  // ---------------------------------------------------------------- repeating a sync

  predicate SameExtra(a: Option<Entry>, b: Option<Entry>) {
    (if a.Some? then a.value.extra else "") == (if b.Some? then b.value.extra else "")
  }

  /** The final entry depends on what was there only through the unmanaged part. */
  lemma {:induction false} FinalForgets(reg: Registry, images: seq<RemoteImage>, name: Namer, n: string,
                                        a: Option<Entry>, b: Option<Entry>)
    requires n in Names(reg, images, name) && SameExtra(a, b)
    ensures Final(reg, images, name, n, a) == Final(reg, images, name, n, b)
    decreases |images|
  {
    NamesCons(reg, images, name);
    if n in Names(reg, images[1..], name) {
      var hit := name(reg.name, images[0]) == n;
      FinalForgets(reg, images[1..], name, n, if hit then Some(Synced(reg, images[0], a)) else a,
                   if hit then Some(Synced(reg, images[0], b)) else b);
    } else {
      FinalUnnamed(reg, images[1..], name, n, Some(Synced(reg, images[0], a)));
      FinalUnnamed(reg, images[1..], name, n, Some(Synced(reg, images[0], b)));
    }
  }

  lemma {:induction false} FinalUnnamed(reg: Registry, images: seq<RemoteImage>, name: Namer, n: string,
                                        was: Option<Entry>)
    requires n !in Names(reg, images, name)
    ensures Final(reg, images, name, n, was) == was
    decreases |images|
  {
    if images != [] {
      NamesCons(reg, images, name);
      FinalUnnamed(reg, images[1..], name, n, was);
    }
  }

  lemma {:induction false} FinalKeepsExtra(reg: Registry, images: seq<RemoteImage>, name: Namer, n: string,
                                           was: Option<Entry>)
    ensures SameExtra(Final(reg, images, name, n, was), was)
    decreases |images|
  {
    if images != [] {
      FinalKeepsExtra(reg, images[1..], name, n,
                      if name(reg.name, images[0]) == n then Some(Synced(reg, images[0], was)) else was);
    }
  }

  /** A fault-free apply over entries that are all ours goes through. */
  lemma {:induction false} OwnedApplies(c: Catalog, reg: Registry, images: seq<RemoteImage>, name: Namer)
    requires forall n :: n in Names(reg, images, name) ==> CanApply(c, n, reg)
    ensures ApplyAll(c, reg, images, name, {}).1
    decreases |images|
  {
    if images != [] {
      NamesCons(reg, images, name);
      var n := name(reg.name, images[0]);
      OwnedApplies(c[n := Synced(reg, images[0], At(c, n))], reg, images[1..], name);
    }
  }

  /** Repeating a sync on the same listing leaves the catalog unchanged. */
  lemma SyncIsIdempotent(c: Catalog, status: Status, reg: Registry, images: seq<RemoteImage>, prune: bool, name: Namer,
                         order: seq<string>, order': seq<string>, faults: set<string>, now: Time, generation: int)
    requires Sync(c, status, reg, Some(images), prune, name, order, faults, now, generation).ok
    ensures var r := Sync(c, status, reg, Some(images), prune, name, order, faults, now, generation);
            Sync(r.catalog, r.status, reg, Some(images), prune, name, order', {}, now, generation).catalog == r.catalog
  {
    var r := Sync(c, status, reg, Some(images), prune, name, order, faults, now, generation);
    var names, mid := Names(reg, images, name), ApplyAll(c, reg, images, name, faults).0;
    forall n | n in names ensures CanApply(r.catalog, n, reg) {
      AppliedAt(c, reg, images, name, faults, n);
      if prune { PrunedAt(mid, order, reg, names, faults, n); }
    }
    OwnedApplies(r.catalog, reg, images, name);
    var again := ApplyAll(r.catalog, reg, images, name, {}).0;
    forall n ensures At(again, n) == At(r.catalog, n) {
      AppliedAt(r.catalog, reg, images, name, {}, n);
      if n in names {
        AppliedAt(c, reg, images, name, faults, n);
        if prune { PrunedAt(mid, order, reg, names, faults, n); }
        FinalKeepsExtra(reg, images, name, n, At(c, n));
        FinalForgets(reg, images, name, n, At(r.catalog, n), At(c, n));
      }
    }
    assert again == r.catalog by {
      assert forall n :: n in again ==> At(again, n).Some? && At(r.catalog, n).Some?;
      assert forall n :: n in r.catalog ==> At(r.catalog, n).Some? && At(again, n).Some?;
    }
    if prune {
      SyncedExactly(c, status, reg, images, prune, name, order, faults, now, generation);
      forall n ensures !Stale(r.catalog, n, reg, names) {
        assert Stale(r.catalog, n, reg, names) ==> n in Listed(r.catalog, reg);
      }
      NothingStale(r.catalog, order', reg, names);
    }
  }

  lemma {:induction false} NothingStale(c: Catalog, order: seq<string>, reg: Registry, desired: set<string>)
    requires forall n :: !Stale(c, n, reg, desired)
    ensures Prune(c, order, reg, desired, {}) == (c, true)
    decreases |order|
  {
    if order != [] { NothingStale(c, order[1..], reg, desired); }
  }
}
