/** JSON merge patch as the Kubernetes clients use it: `client.MergeFrom(original)` sends the
    difference between two snapshots, and the API server merges it into whatever is stored by then
    (section 2 of RFC 7396).

    Two layers: the recursive algebra on JSON documents, and the flat algebra on the key/value map
    that one object member holds. `WirePatch` and `NamedPatch` connect the two, so that the protocols
    built on this module can work with the flat one. */
module MergePatch {
  import opened Common

  // ---------------------------------------------------------------- flat maps

  /** What `MergeFrom(a)` sends for `b`: the new value of every changed key, `None` for a removed one. */
  function Diff<K, V(==)>(a: map<K, V>, b: map<K, V>): (p: map<K, Option<V>>) {
    map k | k in a.Keys + b.Keys && !(k in a && k in b && a[k] == b[k])
      :: if k in b then Some(b[k]) else None
  }

  /** What the API server stores after merging `p` into `c`. */
  function Apply<K, V>(c: map<K, V>, p: map<K, Option<V>>): (r: map<K, V>) {
    map k | k in c.Keys + p.Keys && (k in p ==> p[k].Some?)
      :: if k in p then p[k].value else c[k]
  }

  /** A patch taken from the stored object reaches its target. */
  lemma DiffReaches<K, V>(a: map<K, V>, b: map<K, V>)
    ensures Apply(a, Diff(a, b)) == b
  {
    var r := Apply(a, Diff(a, b));
    assert forall k :: k in r <==> k in b;
  }

  /** A patch taken from a stale snapshot writes the changed keys and no other. */
  lemma DiffIsLocal<K, V>(a: map<K, V>, b: map<K, V>, c: map<K, V>, k: K)
    ensures var r := Apply(c, Diff(a, b));
            if (k in a && k in b && a[k] == b[k]) || (k !in a && k !in b)
            then (k in r <==> k in c) && (k in c ==> r[k] == c[k])
            else (k in r <==> k in b) && (k in b ==> r[k] == b[k])
  {
    assert k in Apply(c, Diff(a, b)) <==> k in c.Keys + Diff(a, b).Keys && (k in Diff(a, b) ==> Diff(a, b)[k].Some?);
  }

  /** Patches on disjoint keys commute, whatever they are merged into. */
  lemma DisjointPatchesCommute<K, V>(c: map<K, V>, p: map<K, Option<V>>, q: map<K, Option<V>>)
    requires p.Keys !! q.Keys
    ensures Apply(Apply(c, p), q) == Apply(Apply(c, q), p)
  {
    var pq, qp := Apply(Apply(c, p), q), Apply(Apply(c, q), p);
    assert forall k :: k in pq <==> k in qp;
  }

  // ---------------------------------------------------------------- JSON documents

  datatype Json =
    | Null
    | Bool(b: bool)
    | Num(n: int)
    | Str(s: string)
    | Arr(items: seq<Json>)
    | Obj(fields: map<string, Json>)

  /** Section 2 of RFC 7396. A missing target member is passed as `Null`: both are "not an object". */
  function MergeInto(target: Json, patch: Json): (r: Json)
    decreases patch
  {
    if !patch.Obj? then patch else
      var base := if target.Obj? then target.fields else map[];
      Obj(map k | k in base.Keys + patch.fields.Keys && !(k in patch.fields && patch.fields[k].Null?)
            :: if k in patch.fields
               then MergeInto(if k in base then base[k] else Null, patch.fields[k])
               else base[k])
  }

  /** The patch a client computes between two documents: members that differ, recursively, and
      `null` for the ones removed. */
  function DiffJson(a: Json, b: Json): (p: Json)
    decreases b
  {
    if !a.Obj? || !b.Obj? then b else
      Obj(map k | k in a.fields.Keys + b.fields.Keys
                  && !(k in a.fields && k in b.fields && a.fields[k] == b.fields[k])
            :: if k !in b.fields then Null
               else if k in a.fields then DiffJson(a.fields[k], b.fields[k])
               else b.fields[k])
  }

  /** No object member is `null`, arrays aside: they are opaque to a merge patch. */
  predicate NullFree(j: Json) {
    j.Obj? ==> forall k | k in j.fields :: !j.fields[k].Null? && NullFree(j.fields[k])
  }

  /** What a merge patch from `a` can express: `b` differs from `a` only by members holding no null. */
  predicate Expressible(a: Json, b: Json)
    decreases b
  {
    if !a.Obj? || !b.Obj? then NullFree(b) else
      forall k | k in b.fields && !(k in a.fields && a.fields[k] == b.fields[k]) ::
        !b.fields[k].Null? && Expressible(if k in a.fields then a.fields[k] else Null, b.fields[k])
  }

  lemma {:induction false} MergeFresh(target: Json, j: Json)
    requires !target.Obj?
    ensures MergeInto(target, j) == j <==> NullFree(j)
    decreases j
  {
    if j.Obj? {
      var r := MergeInto(target, j);
      forall k | k in j.fields
        ensures k in r.fields <==> !j.fields[k].Null?
        ensures k in r.fields ==> (r.fields[k] == j.fields[k] <==> NullFree(j.fields[k]))
      {
        MergeFresh(Null, j.fields[k]);
      }
      if NullFree(j) { assert r.fields == j.fields; }
    }
  }

  /** Patching the base of a diff gives its target exactly when the target is expressible. */
  lemma {:induction false} MergeReaches(a: Json, b: Json)
    ensures MergeInto(a, DiffJson(a, b)) == b <==> Expressible(a, b)
    decreases b
  {
    if !a.Obj? {
      MergeFresh(a, b);
    } else if b.Obj? {
      var p := DiffJson(a, b);
      var r := MergeInto(a, p);
      forall k | k in b.fields
        ensures k in r.fields && r.fields[k] == b.fields[k] <==>
                (k in a.fields && a.fields[k] == b.fields[k])
                || (!b.fields[k].Null? && Expressible(if k in a.fields then a.fields[k] else Null, b.fields[k]))
      {
        if k in a.fields && a.fields[k] == b.fields[k] {
          assert k !in p.fields;
        } else if k in a.fields {
          MergeReaches(a.fields[k], b.fields[k]);
          assert p.fields[k] == DiffJson(a.fields[k], b.fields[k]);
        } else {
          MergeFresh(Null, b.fields[k]);
        }
      }
      if Expressible(a, b) {
        assert forall k :: k in r.fields ==> k in b.fields;
        assert r.fields == b.fields;
      }
    }
  }

  /** The value at a path of member names, if there is one. */
  function AtPath(j: Json, path: seq<string>): (r: Option<Json>) {
    if path == [] then Some(j)
    else if j.Obj? && path[0] in j.fields then AtPath(j.fields[path[0]], path[1..])
    else None
  }

  /** A member as the object a diff descends into: anything else counts as empty. */
  function Below(j: Json, k: string): (r: Json) {
    if j.Obj? && k in j.fields && j.fields[k].Obj? then j.fields[k] else Obj(map[])
  }

  /** `a` and `b` are objects down to `path` and agree there, both lacking it included. */
  predicate AgreeAt(a: Json, b: Json, path: seq<string>)
    requires path != []
    decreases |path|
  {
    && a.Obj? && b.Obj?
    && var k := path[0];
       || (if k in a.fields then k in b.fields && a.fields[k] == b.fields[k] else k !in b.fields)
       || (|path| > 1 && k in b.fields && AgreeAt(Below(a, k), b.fields[k], path[1..]))
  }

  /** A diff leaves every place alone that its two ends agree on, at any depth and in any document. */
  lemma {:induction false} MergeIsLocal(a: Json, b: Json, c: Json, path: seq<string>)
    requires path != [] && AgreeAt(a, b, path)
    ensures AtPath(MergeInto(c, DiffJson(a, b)), path) == AtPath(c, path)
    decreases |path|
  {
    var k, p := path[0], DiffJson(a, b);
    if if k in a.fields then k in b.fields && a.fields[k] == b.fields[k] else k !in b.fields {
      assert k !in p.fields;
    } else {
      var was := if c.Obj? && k in c.fields then c.fields[k] else Null;
      assert AgreeAt(Below(a, k), b.fields[k], path[1..]) && b.fields[k].Obj?;
      EmptyDiff(b.fields[k]);
      assert k in p.fields && p.fields[k] == if k in a.fields then DiffJson(a.fields[k], b.fields[k]) else b.fields[k];
      MergeIsLocal(Below(a, k), b.fields[k], was, path[1..]);
    }
  }

  /** Nothing, or something that is not an object, counts as the empty object to a diff. */
  lemma EmptyDiff(j: Json)
    requires j.Obj?
    ensures DiffJson(Obj(map[]), j) == j
  {
  }

  /** One member of a document after merging a diff into it, case by case. */
  lemma MemberAfterMerge(a: Json, b: Json, c: Json, k: string)
    requires a.Obj? && b.Obj? && c.Obj?
    ensures MergeInto(c, DiffJson(a, b)).Obj?
    ensures var r := MergeInto(c, DiffJson(a, b)).fields;
            var was := if k in c.fields then c.fields[k] else Null;
            if k in a.fields && k in b.fields && a.fields[k] == b.fields[k] then
              (k in r <==> k in c.fields) && (k in r ==> r[k] == c.fields[k])
            else if k !in b.fields then
              if k in a.fields then k !in r else (k in r <==> k in c.fields) && (k in r ==> r[k] == c.fields[k])
            else
              var p := if k in a.fields then DiffJson(a.fields[k], b.fields[k]) else b.fields[k];
              (k in r <==> !p.Null?) && (k in r ==> r[k] == MergeInto(was, p))
  {
    var p := DiffJson(a, b);
    assert k in p.fields <==> (k in a.fields || k in b.fields)
                              && !(k in a.fields && k in b.fields && a.fields[k] == b.fields[k]);
  }

  // ---------------------------------------------------------------- one object member on the wire

  /** Values that are opaque to a merge patch: strings, numbers, arrays. */
  ghost predicate Leafy<V(!new)>(enc: V -> Json) { forall x :: !enc(x).Obj? && !enc(x).Null? }

  /** Where two maps hold different values under one key, the encoding shows it. Values under different keys
      may well be encoded alike. */
  ghost predicate TellsApart<K, V>(enc: V -> Json, a: map<K, V>, b: map<K, V>) {
    forall k :: k in a && k in b && enc(a[k]) == enc(b[k]) ==> a[k] == b[k]
  }

  /** An object with one map-like member (a Secret's `data`, a Workspace's `status`), which is omitted when
      it is empty (`omitempty`, `omitzero`). */
  function Doc<V>(rest: map<string, Json>, member: string, data: map<string, V>, enc: V -> Json): (d: Json) {
    if data == map[] then Obj(rest) else Obj(rest[member := Entries(data, enc)])
  }

  function Entries<V>(data: map<string, V>, enc: V -> Json): (d: Json) {
    Obj(map k | k in data :: enc(data[k]))
  }

  /** The member as a reader sees it: absent reads as empty. */
  function Member(doc: Json, member: string): (d: Json)
    requires doc.Obj?
  {
    if member in doc.fields then doc.fields[member] else Obj(map[])
  }

  /** The document after a patch between two snapshots of one object is merged into a third. */
  function Rewritten<V>(rest: map<string, Json>, stored: map<string, Json>, member: string, enc: V -> Json,
                        a: map<string, V>, b: map<string, V>, c: map<string, V>): (r: Json) {
    MergeInto(Doc(stored, member, c, enc), DiffJson(Doc(rest, member, a, enc), Doc(rest, member, b, enc)))
  }

  /** A patch between two snapshots of one object, merged into a third, is the flat patch on the member,
      except when the client emptied a non-empty map: that sends `null` for the member, which also wipes
      keys the client never saw. */
  lemma WirePatch<V(!new)>(rest: map<string, Json>, stored: map<string, Json>, member: string, enc: V -> Json,
                           a: map<string, V>, b: map<string, V>, c: map<string, V>)
    requires member !in rest && member !in stored && Leafy(enc) && TellsApart(enc, a, b)
    ensures var r := Rewritten(rest, stored, member, enc, a, b, c);
            && r.Obj?
            && r.fields - {member} == stored
            && (Member(r, member) == Entries(Apply(c, Diff(a, b)), enc)
                <==> (b != map[] || a == map[] || c.Keys <= a.Keys))
  {
    var A, B, C := Doc(rest, member, a, enc), Doc(rest, member, b, enc), Doc(stored, member, c, enc);
    var r := Rewritten(rest, stored, member, enc, a, b, c);
    forall k | k != member
      ensures (k in r.fields <==> k in stored) && (k in stored ==> r.fields[k] == stored[k])
    {
      MemberAfterMerge(A, B, C, k);
    }
    assert r.fields - {member} == stored;
    WireData(rest, stored, member, enc, a, b, c);
  }

  lemma WireData<V(!new)>(rest: map<string, Json>, stored: map<string, Json>, member: string, enc: V -> Json,
                          a: map<string, V>, b: map<string, V>, c: map<string, V>)
    requires member !in rest && member !in stored && Leafy(enc) && TellsApart(enc, a, b)
    ensures var r := Rewritten(rest, stored, member, enc, a, b, c);
            r.Obj? && (Member(r, member) == Entries(Apply(c, Diff(a, b)), enc)
                       <==> (b != map[] || a == map[] || c.Keys <= a.Keys))
  {
    if a == b {
      assert Apply(c, Diff(a, b)) == c;
      MemberAfterMerge(Doc(rest, member, a, enc), Doc(rest, member, b, enc), Doc(stored, member, c, enc), member);
    } else if b == map[] {
      EmptiedData(enc, a, c);
      MemberAfterMerge(Doc(rest, member, a, enc), Doc(rest, member, b, enc), Doc(stored, member, c, enc), member);
    } else if a == map[] {
      WireAdded(rest, stored, member, enc, a, b, c);
    } else {
      WireChanged(rest, stored, member, enc, a, b, c);
    }
  }

  lemma WireAdded<V(!new)>(rest: map<string, Json>, stored: map<string, Json>, member: string, enc: V -> Json,
                           a: map<string, V>, b: map<string, V>, c: map<string, V>)
    requires member !in rest && member !in stored && Leafy(enc) && a == map[] && b != map[]
    ensures var r := Rewritten(rest, stored, member, enc, a, b, c);
            r.Obj? && Member(r, member) == Entries(Apply(c, Diff(a, b)), enc)
  {
    MemberAfterMerge(Doc(rest, member, a, enc), Doc(rest, member, b, enc), Doc(stored, member, c, enc), member);
    AddedEntries(enc, b, c);
    MergeIgnoresKind(Entries(b, enc));
  }

  lemma WireChanged<V(!new)>(rest: map<string, Json>, stored: map<string, Json>, member: string, enc: V -> Json,
                             a: map<string, V>, b: map<string, V>, c: map<string, V>)
    requires member !in rest && member !in stored && Leafy(enc) && TellsApart(enc, a, b) && a != map[] && b != map[]
        && a != b
    ensures var r := Rewritten(rest, stored, member, enc, a, b, c);
            r.Obj? && Member(r, member) == Entries(Apply(c, Diff(a, b)), enc)
  {
    MemberAfterMerge(Doc(rest, member, a, enc), Doc(rest, member, b, enc), Doc(stored, member, c, enc), member);
    EntriesInjective(enc, a, b);
    EntriesPatch(enc, a, b, c);
    MergeIgnoresKind(DiffJson(Entries(a, enc), Entries(b, enc)));
  }

  lemma EmptiedData<V>(enc: V -> Json, a: map<string, V>, c: map<string, V>)
    ensures Entries(Apply(c, Diff(a, map[])), enc) == Obj(map[]) <==> c.Keys <= a.Keys
  {
    var e: map<string, V> := map[];
    var flat := Apply(c, Diff(a, e));
    forall k ensures k in flat <==> k in c && k !in a { DiffIsLocal(a, e, c, k); }
    if c.Keys <= a.Keys {
      assert flat == map[];
    } else {
      var k :| k in c && k !in a;
      assert k in Entries(flat, enc).fields;
    }
  }

  lemma EntriesInjective<V(!new)>(enc: V -> Json, a: map<string, V>, b: map<string, V>)
    requires Leafy(enc) && TellsApart(enc, a, b)
    ensures Entries(a, enc) == Entries(b, enc) ==> a == b
  {
    if Entries(a, enc) == Entries(b, enc) {
      var f, g := Entries(a, enc).fields, Entries(b, enc).fields;
      assert f.Keys == a.Keys && g.Keys == b.Keys;
      forall k | k in a ensures k in b && a[k] == b[k] {
        assert k in g;
        assert f[k] == enc(a[k]) && g[k] == enc(b[k]);
      }
      assert forall k :: k in b ==> k in f;
    }
  }

  lemma EntriesPatch<V(!new)>(enc: V -> Json, a: map<string, V>, b: map<string, V>, c: map<string, V>)
    requires Leafy(enc) && TellsApart(enc, a, b)
    ensures MergeInto(Entries(c, enc), DiffJson(Entries(a, enc), Entries(b, enc))) == Entries(Apply(c, Diff(a, b)), enc)
  {
    var A, B, C := Entries(a, enc), Entries(b, enc), Entries(c, enc);
    var l, r := MergeInto(C, DiffJson(A, B)), Entries(Apply(c, Diff(a, b)), enc);
    forall k ensures k in l.fields <==> k in r.fields
             ensures k in l.fields ==> l.fields[k] == r.fields[k]
    {
      MemberAfterMerge(A, B, C, k);
      DiffIsLocal(a, b, c, k);
    }
    assert l.fields == r.fields;
  }

  lemma AddedEntries<V(!new)>(enc: V -> Json, b: map<string, V>, c: map<string, V>)
    requires Leafy(enc)
    ensures MergeInto(Entries(c, enc), Entries(b, enc)) == Entries(Apply(c, Diff(map[], b)), enc)
  {
    var e: map<string, V> := map[];
    var l, r := MergeInto(Entries(c, enc), Entries(b, enc)), Entries(Apply(c, Diff(e, b)), enc);
    assert DiffJson(Entries(e, enc), Entries(b, enc)) == Entries(b, enc);
    forall k ensures k in l.fields <==> k in r.fields
             ensures k in l.fields ==> l.fields[k] == r.fields[k]
    {
      MemberAfterMerge(Entries(e, enc), Entries(b, enc), Entries(c, enc), k);
      DiffIsLocal(e, b, c, k);
    }
    assert l.fields == r.fields;
  }

  /** An absent target and an empty object merge alike. */
  lemma MergeIgnoresKind(patch: Json)
    requires patch.Obj?
    ensures MergeInto(Null, patch) == MergeInto(Obj(map[]), patch)
  {
  }

  // ---------------------------------------------------------------- maps whose keys have names

  ghost predicate Injective<K(!new)>(name: K -> string) { forall x, y :: name(x) == name(y) ==> x == y }

  function Renamed<K(!new), V>(m: map<K, V>, name: K -> string): (r: map<string, V>)
    requires Injective(name)
  {
    map k | k in m :: name(k) := m[k]
  }

  lemma RenamedAt<K(!new), V>(m: map<K, V>, name: K -> string, k: K)
    requires Injective(name)
    ensures (name(k) in Renamed(m, name) <==> k in m) && (k in m ==> Renamed(m, name)[name(k)] == m[k])
  {
  }

  /** Patching and naming the keys commute. */
  lemma RenamedPatch<K(!new), V>(name: K -> string, a: map<K, V>, b: map<K, V>, c: map<K, V>)
    requires Injective(name)
    ensures Renamed(Apply(c, Diff(a, b)), name)
            == Apply(Renamed(c, name), Diff(Renamed(a, name), Renamed(b, name)))
  {
    var A, B, C := Renamed(a, name), Renamed(b, name), Renamed(c, name);
    var l, r := Renamed(Apply(c, Diff(a, b)), name), Apply(C, Diff(A, B));
    forall n ensures n in l <==> n in r ensures n in l ==> l[n] == r[n] {
      if n in l || n in r {
        assert n in A || n in B || n in C;
        var k :| name(k) == n;
        RenamedPatchAt(name, a, b, c, k);
      }
    }
    assert l == r;
  }

  lemma RenamedPatchAt<K(!new), V>(name: K -> string, a: map<K, V>, b: map<K, V>, c: map<K, V>, k: K)
    requires Injective(name)
    ensures var l := Renamed(Apply(c, Diff(a, b)), name);
            var r := Apply(Renamed(c, name), Diff(Renamed(a, name), Renamed(b, name)));
            (name(k) in l <==> name(k) in r) && (name(k) in l ==> l[name(k)] == r[name(k)])
  {
    RenamedAt(a, name, k);
    RenamedAt(b, name, k);
    RenamedAt(c, name, k);
    RenamedAt(Apply(c, Diff(a, b)), name, k);
    DiffIsLocal(a, b, c, k);
    DiffIsLocal(Renamed(a, name), Renamed(b, name), Renamed(c, name), name(k));
  }

  lemma RenamedTellsApart<K(!new), V>(name: K -> string, enc: V -> Json, a: map<K, V>, b: map<K, V>)
    requires Injective(name) && TellsApart(enc, a, b)
    ensures TellsApart(enc, Renamed(a, name), Renamed(b, name))
  {
    var A, B := Renamed(a, name), Renamed(b, name);
    forall n | n in A && n in B && enc(A[n]) == enc(B[n]) ensures A[n] == B[n] {
      var k :| name(k) == n;
      RenamedAt(a, name, k);
      RenamedAt(b, name, k);
    }
  }

  /** A patch that leaves the member non-empty is the flat patch, whatever the keys are called. */
  lemma NamedPatch<K(!new), V(!new)>(rest: map<string, Json>, stored: map<string, Json>, member: string,
                                     name: K -> string, enc: V -> Json, a: map<K, V>, b: map<K, V>, c: map<K, V>)
    requires member !in rest && member !in stored && Injective(name) && Leafy(enc) && TellsApart(enc, a, b)
    requires b != map[]
    ensures var r := Rewritten(rest, stored, member, enc, Renamed(a, name), Renamed(b, name), Renamed(c, name));
            && r.Obj? && r.fields - {member} == stored
            && Member(r, member) == Entries(Renamed(Apply(c, Diff(a, b)), name), enc)
  {
    var k :| k in b;
    RenamedAt(b, name, k);
    RenamedPatch(name, a, b, c);
    RenamedTellsApart(name, enc, a, b);
    WirePatch(rest, stored, member, enc, Renamed(a, name), Renamed(b, name), Renamed(c, name));
  }
}
