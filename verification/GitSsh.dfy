/** The git-SSH key pipeline. The UI keeps one Secret of encrypted keys per user namespace, edited by
    read-then-patch requests that may race; the controller derives from it the decrypted Secret that
    workspaces mount. */
module GitSsh {
  import opened Common
  import opened MergePatch
  import opened Ordering

  // ---------------------------------------------------------------- Secret contents

  /** What parsing an OpenSSH private key yields: its public facts and the secret material. */
  datatype PrivateKey = PrivateKey(kind: string, fingerprint: string, material: string)

  /** One Secret value. AES-GCM is symbolic: a sealed value opens under its own key and no other. */
  datatype Blob = Text(s: string) | Sealed(key: string, nonce: nat, plain: PrivateKey) | Pem(plain: PrivateKey)

  const KEY_PREFIX := "key-"
  const META_PREFIX := "meta-"
  const CONFIG := "config"

  datatype RawEntry = KeyOf(host: string) | MetaOf(host: string) | Config | Other(name: string)

  /** The Secret's data keys, read by their prefixes: `Other` is what no prefix claims. */
  type Entry = e: RawEntry | e.Other? ==> Unclaimed(e.name) witness Config

  predicate Unclaimed(s: string) { !(KEY_PREFIX <= s) && !(META_PREFIX <= s) && s != CONFIG }

  type Data = map<Entry, Blob>

  function EntryName(e: Entry): (s: string) {
    match e
    case KeyOf(host) => KEY_PREFIX + host
    case MetaOf(host) => META_PREFIX + host
    case Config => CONFIG
    case Other(name) => name
  }

  /** `strings.CutPrefix` against each prefix. */
  function EntryOf(s: string): (e: Entry) {
    if KEY_PREFIX <= s then KeyOf(s[|KEY_PREFIX|..])
    else if META_PREFIX <= s then MetaOf(s[|META_PREFIX|..])
    else if s == CONFIG then Config
    else Other(s)
  }

  /** Working with entries instead of strings loses nothing: every data key is one entry, and no two
      entries share a name. */
  lemma EntryNamesAreExact(s: string, e: Entry)
    ensures EntryName(EntryOf(s)) == s
    ensures EntryOf(EntryName(e)) == e
  {
    match e
    case KeyOf(host) =>
      assert EntryName(e)[|KEY_PREFIX|..] == host;
    case MetaOf(host) =>
      assert EntryName(e)[0] == 'm' && KEY_PREFIX[0] == 'k';
      assert EntryName(e)[|META_PREFIX|..] == host;
    case Config =>
      assert CONFIG[0] == 'c' && KEY_PREFIX[0] == 'k' && META_PREFIX[0] == 'm';
    case Other(_) =>
  }

  function Describe(key: PrivateKey): Blob { Text(key.kind + " " + key.fingerprint) }

  predicate UsableAesKey(key: string) { |key| in {16, 24, 32} }

  function Decrypt(key: string, blob: Blob): Option<PrivateKey> {
    if UsableAesKey(key) && blob.Sealed? && blob.key == key then Some(blob.plain) else None
  }

  function HostSet(data: Data): (r: set<string>) {
    set e | e in data && e.KeyOf? :: e.host
  }

  const MOUNT_PATH := "/etc/dwpk/git-ssh"

  /** The line that points ssh at the entry the host's key is mounted under. */
  function IdentityLine(host: string): (text: string) {
    "  IdentityFile " + MOUNT_PATH + "/" + EntryName(KeyOf(host)) + "\n"
  }

  function BlockHead(host: string): (text: string) { "Host " + host + "\n" + IdentityLine(host) }

  function HostBlock(host: string): (text: string) { BlockHead(host) + "  StrictHostKeyChecking accept-new\n\n" }

  function Blocks(hosts: seq<string>, block: string -> string): (text: string) {
    if hosts == [] then "" else block(hosts[0]) + Blocks(hosts[1..], block)
  }

  /** `GitSSHConfig`: one block after the other. */
  function RenderConfig(hosts: seq<string>): (text: string) { Blocks(hosts, HostBlock) }

  /** The config entry a Secret holding exactly these hosts should carry. */
  ghost function ConfigOf(hosts: set<string>): Blob { Text(RenderConfig(Ascending(hosts))) }

  ghost function HostsAmong(keys: set<Entry>): set<string> { set e | e in keys && e.KeyOf? :: e.host }

  lemma OneMoreKey(all: set<Entry>, left: set<Entry>, key: Entry)
    requires left <= all && key in left
    ensures HostsAmong(all - (left - {key})) == HostsAmong(all - left) + (if key.KeyOf? then {key.host} else {})
    ensures key.KeyOf? ==> key.host !in HostsAmong(all - left)
  {
    assert all - (left - {key}) == all - left + {key};
  }

  /** `GitSSHHostsFromData`: map iteration in any order, then a sort. */
  method HostsFromData(data: Data) returns (hosts: seq<string>)
    ensures hosts == Ascending(HostSet(data))
  {
    var left, found := data.Keys, [];
    while left != {}
      invariant left <= data.Keys && Listing(found, HostsAmong(data.Keys - left))
      decreases |left|
    {
      var key :| key in left;
      OneMoreKey(data.Keys, left, key);
      if key.KeyOf? {
        found := found + [key.host];
      }
      left := left - {key};
    }
    assert data.Keys - left == data.Keys && HostsAmong(data.Keys) == HostSet(data);
    SortForgetsOrder(found, HostSet(data));
    hosts := Sort(AtMost, found);
  }

  // ---------------------------------------------------------------- one request

  datatype Op = Put(host: string, key: PrivateKey, sealKey: string, nonce: nat) | Remove(host: string)

  /** What a request decides to do once it has read the Secret (`None`: not found). */
  datatype Plan = Stop(reply: Reply) | Create(data: Data) | Patch(base: Data, data: Data) | DeleteSecret

  datatype Reply = Done | KeyExists | Conflict | Gone | NotConfigured | BadKey | BadSealKey | ApiError

  ghost function WithKey(d: Data, op: Op): (r: Data)
    requires op.Put?
  {
    var e := d[KeyOf(op.host) := Sealed(op.sealKey, op.nonce, op.key)][MetaOf(op.host) := Describe(op.key)];
    e[Config := ConfigOf(HostSet(e))]
  }

  ghost function WithoutKey(d: Data, host: string): (r: Data) {
    (d - {KeyOf(host), MetaOf(host)})[Config := ConfigOf(HostSet(d) - {host})]
  }

  ghost function Prepare(op: Op, seen: Option<Data>): (p: Plan) {
    match op
    case Put(host, _, _, _) =>
      if seen.None? then Create(WithKey(map[], op))
      else if KeyOf(host) in seen.value then Stop(KeyExists)
      else Patch(seen.value, WithKey(seen.value, op))
    case Remove(host) =>
      if seen.None? || KeyOf(host) !in seen.value then Stop(Done)
      else if HostSet(seen.value) - {host} == {} then DeleteSecret
      else Patch(seen.value, WithoutKey(seen.value, host))
  }

  /** The API server's side: what the request's one write does to the Secret stored by then. */
  function Commit(current: Option<Data>, plan: Plan): (r: (Option<Data>, Reply)) {
    match plan
    case Stop(reply) => (current, reply)
    case Create(data) => if current.Some? then (current, Conflict) else (Some(data), Done)
    case Patch(base, data) =>
      if current.None? then (None, Gone) else (Some(Apply(current.value, Diff(base, data))), Done)
    case DeleteSecret => (None, Done)
  }

  /** The API calls that may fail. */
  datatype Call = GetSource | WriteSource | GetMasterKey | GetRuntime | WriteRuntime | DeleteRuntime

  /** One request uninterrupted: a read, then at most one write. */
  ghost function Answer(source: Option<Data>, op: Op, faults: set<Call>): (r: (Option<Data>, Reply)) {
    if GetSource in faults then (source, ApiError)
    else if !Prepare(op, source).Stop? && WriteSource in faults then (source, ApiError)
    else Commit(source, Prepare(op, source))
  }

  // ---------------------------------------------------------------- the request on the wire

  lemma EntryNamesAreInjective()
    ensures Injective(EntryName)
  {
    forall x: Entry, y: Entry | EntryName(x) == EntryName(y) ensures x == y {
      EntryNamesAreExact("", x);
      EntryNamesAreExact("", y);
    }
  }

  /** A patch to Secret data that leaves a config there is the flat one: it does not empty the data. `enc`
      writes a value as bytes; it has to tell apart only what the patch replaces from what it puts there. */
  lemma DataOnTheWire(base: Data, data: Data, current: Data, rest: map<string, Json>, stored: map<string, Json>,
                      enc: Blob -> Json)
    requires "data" !in rest && "data" !in stored && Injective(EntryName) && Config in data
    requires Leafy(enc) && TellsApart(enc, base, data)
    ensures var r := Rewritten(rest, stored, "data", enc, Renamed(base, EntryName), Renamed(data, EntryName),
                               Renamed(current, EntryName));
            && r.Obj? && r.fields - {"data"} == stored
            && Member(r, "data") == Entries(Renamed(Apply(current, Diff(base, data)), EntryName), enc)
  {
    NamedPatch(rest, stored, "data", EntryName, enc, base, data, current);
  }

  // ---------------------------------------------------------------- racing requests

  /** A request between its read and its write. */
  datatype Writer = Writer(op: Op, seen: Option<Data>)
  datatype State = State(source: Option<Data>, writers: map<nat, Writer>)
  datatype Event = Read(id: nat, op: Op) | Write(id: nat)

  ghost function Step(s: State, e: Event): (r: State) {
    match e
    case Read(id, op) =>
      if id in s.writers then s else s.(writers := s.writers[id := Writer(op, s.source)])
    case Write(id) =>
      if id !in s.writers then s else
        var w := s.writers[id];
        State(Commit(s.source, Prepare(w.op, w.seen)).0, s.writers - {id})
  }

  /** Any interleaving of reads and writes; a request that dies simply never writes. */
  ghost function Run(s: State, es: seq<Event>): (r: State) {
    if es == [] then s else Step(Run(s, es[..|es| - 1]), es[|es| - 1])
  }

  /** A host has a key entry exactly when it has a metadata entry, and the one describes the other. */
  ghost predicate HostCoherent(d: Data, h: string) {
    && (KeyOf(h) in d <==> MetaOf(h) in d)
    && (KeyOf(h) in d ==> d[KeyOf(h)].Sealed? && d[MetaOf(h)] == Describe(d[KeyOf(h)].plain))
  }

  ghost predicate Coherent(source: Option<Data>) {
    source.Some? ==> forall h :: HostCoherent(source.value, h)
  }

  ghost predicate Inv(s: State) {
    Coherent(s.source) && forall id :: id in s.writers ==> Coherent(s.writers[id].seen)
  }

  /** One write, prepared from any coherent snapshot, keeps any coherent Secret coherent. */
  lemma CommitKeepsCoherence(op: Op, seen: Option<Data>, current: Option<Data>)
    requires Coherent(seen) && Coherent(current)
    ensures Coherent(Commit(current, Prepare(op, seen)).0)
  {
    var next := Commit(current, Prepare(op, seen)).0;
    if next.Some? && next != current {
      forall h ensures HostCoherent(next.value, h) {
        HostAfterWrite(op, seen, current, h);
        if current.Some? { assert HostCoherent(current.value, h); }
      }
    }
  }

  /** What the plan of a request changes at one host, relative to the snapshot it was prepared from. */
  lemma PlanAtHost(op: Op, seen: Option<Data>, h: string)
    requires Prepare(op, seen).Create? || Prepare(op, seen).Patch?
    ensures var d := Prepare(op, seen).data;
            var base: Data := if seen.Some? then seen.value else map[];
            if h != op.host then
              Same(base, d, KeyOf(h)) && Same(base, d, MetaOf(h))
            else if op.Put? then
              && KeyOf(h) !in base
              && KeyOf(h) in d && d[KeyOf(h)] == Sealed(op.sealKey, op.nonce, op.key)
              && MetaOf(h) in d && d[MetaOf(h)] == Describe(op.key)
            else
              KeyOf(h) in base && KeyOf(h) !in d && MetaOf(h) !in d
  {
  }

  ghost predicate Same(a: Data, b: Data, x: Entry) {
    (x in a <==> x in b) && (x in a ==> a[x] == b[x])
  }

  /** What a write that went through leaves at one host: its own host as requested, any other host as
      it was, however stale the snapshot. */
  lemma HostAfterWrite(op: Op, seen: Option<Data>, current: Option<Data>, h: string)
    requires Coherent(seen) && WentThrough(op, seen, current)
    ensures var d := Commit(current, Prepare(op, seen)).0.value;
            var was: Data := if current.Some? then current.value else map[];
            if h != op.host then
              Same(was, d, KeyOf(h)) && Same(was, d, MetaOf(h))
            else if op.Put? then
              && KeyOf(h) in d && d[KeyOf(h)] == Sealed(op.sealKey, op.nonce, op.key)
              && MetaOf(h) in d && d[MetaOf(h)] == Describe(op.key)
            else
              KeyOf(h) !in d && MetaOf(h) !in d
  {
    PlanAtHost(op, seen, h);
    var p := Prepare(op, seen);
    if p.Patch? {
      assert HostCoherent(p.base, h);
      MergedAt(p, current.value, KeyOf(h));
      MergedAt(p, current.value, MetaOf(h));
    }
  }

  /** The request's write was accepted and left a Secret behind. */
  ghost predicate WentThrough(op: Op, seen: Option<Data>, current: Option<Data>) {
    var p := Prepare(op, seen);
    (p.Create? && current.None?) || (p.Patch? && current.Some?)
  }

  lemma MergedAt(p: Plan, current: Data, x: Entry)
    requires p.Patch?
    ensures var d := Apply(current, Diff(p.base, p.data));
            if Same(p.base, p.data, x) then Same(current, d, x) else Same(p.data, d, x)
  {
    DiffIsLocal(p.base, p.data, current, x);
  }

  /** The main theorem on the source Secret. */
  lemma {:induction false} EveryInterleavingIsCoherent(s: State, es: seq<Event>)
    requires Inv(s)
    ensures Inv(Run(s, es))
  {
    if es != [] {
      var before := Run(s, es[..|es| - 1]);
      EveryInterleavingIsCoherent(s, es[..|es| - 1]);
      match es[|es| - 1]
      case Read(_, _) =>
      case Write(id) =>
        if id in before.writers {
          CommitKeepsCoherence(before.writers[id].op, before.writers[id].seen, before.source);
        }
    }
  }

  /** Texts told apart are all a key request needs: the one entry it may overwrite is the config. */
  lemma RequestTellsApart(op: Op, seen: Data, p: Plan, enc: Blob -> Json)
    requires Coherent(Some(seen)) && p == Prepare(op, Some(seen)) && p.Patch? && (Config in seen ==> seen[Config].Text?)
    requires forall x, y :: enc(Text(x)) == enc(Text(y)) ==> x == y
    ensures p.base == seen && Config in p.data && TellsApart(enc, p.base, p.data)
  {
    assert HostCoherent(seen, op.host);
  }

  /** So what the API server makes of a key request's JSON patch is what `Commit` says. */
  lemma PatchOnTheWire(op: Op, seen: Data, p: Plan, current: Data, rest: map<string, Json>, stored: map<string, Json>,
                       enc: Blob -> Json)
    requires Coherent(Some(seen)) && p == Prepare(op, Some(seen)) && p.Patch? && (Config in seen ==> seen[Config].Text?)
    requires "data" !in rest && "data" !in stored && Injective(EntryName)
    requires Leafy(enc) && forall x, y :: enc(Text(x)) == enc(Text(y)) ==> x == y
    ensures var r := Rewritten(rest, stored, "data", enc, Renamed(p.base, EntryName), Renamed(p.data, EntryName),
                               Renamed(current, EntryName));
            && r.Obj? && r.fields - {"data"} == stored
            && Member(r, "data") == Entries(Renamed(Apply(current, Diff(p.base, p.data)), EntryName), enc)
  {
    RequestTellsApart(op, seen, p, enc);
    DataOnTheWire(p.base, p.data, current, rest, stored, enc);
  }

  // ---------------------------------------------------------------- what the keys are

  /** The abstract content of the source Secret: one private key per host. */
  ghost function Keys(source: Option<Data>): (r: map<string, PrivateKey>)
    requires Coherent(source)
  {
    if source.None? then map[] else
      map h | h in HostSet(source.value) ::
        assert HostCoherent(source.value, h);
        source.value[KeyOf(h)].plain
  }

  /** The same request as an atomic update of the abstract content. */
  function Atomically(keys: map<string, PrivateKey>, op: Op): map<string, PrivateKey> {
    match op
    case Put(host, key, _, _) => keys[host := key]
    case Remove(host) => keys - {host}
  }

  /** A write that patches or creates refines the atomic update of whatever is stored at that moment. */
  lemma PatchRefinesAtomicUpdate(op: Op, seen: Option<Data>, current: Option<Data>)
    requires Coherent(seen) && Coherent(current)
    requires WentThrough(op, seen, current)
    ensures var next := Commit(current, Prepare(op, seen)).0;
            Coherent(next) && Keys(next) == Atomically(Keys(current), op)
  {
    CommitKeepsCoherence(op, seen, current);
    var next := Commit(current, Prepare(op, seen)).0;
    var l, r := Keys(next), Atomically(Keys(current), op);
    forall h ensures h in l <==> h in r
             ensures h in l ==> l[h] == r[h]
    {
      HostAfterWrite(op, seen, current, h);
    }
    assert l == r;
  }

  /** Removing a host's key is an atomic removal exactly when the request saw another host, or no other
      host is stored by then. Otherwise it deletes the whole Secret and with it keys it never saw. */
  lemma RemovalIsExactIff(host: string, seen: Option<Data>, current: Option<Data>)
    requires Coherent(seen) && Coherent(current)
    requires seen.Some? && KeyOf(host) in seen.value && current.Some?
    ensures var next := Commit(current, Prepare(Remove(host), seen)).0;
            Coherent(next) &&
            (Keys(next) == Keys(current) - {host}
             <==> (HostSet(seen.value) != {host} || HostSet(current.value) <= {host}))
  {
    CommitKeepsCoherence(Remove(host), seen, current);
    if HostSet(seen.value) - {host} == {} {
      assert HostSet(seen.value) == {host};
      assert Keys(current).Keys == HostSet(current.value);
      if HostSet(current.value) <= {host} {
        assert Keys(current) - {host} == map[];
      } else {
        var g :| g in HostSet(current.value) && g != host;
        assert g in Keys(current) - {host};
      }
    } else {
      PatchRefinesAtomicUpdate(Remove(host), seen, current);
    }
  }

  // ---------------------------------------------------------------- whole runs as atomic updates

  /** A write that went through, or removed the Secret. */
  ghost predicate Accepted(w: Writer, current: Option<Data>) {
    WentThrough(w.op, w.seen, current) || Prepare(w.op, w.seen).DeleteSecret?
  }

  /** The content if every accepted write were an atomic update, in the order of the writes. */
  ghost function Ledger(s: State, es: seq<Event>, keys: map<string, PrivateKey>): (r: map<string, PrivateKey>) {
    if es == [] then keys else Booked(Run(s, es[..|es| - 1]), es[|es| - 1], Ledger(s, es[..|es| - 1], keys))
  }

  ghost function Booked(before: State, e: Event, keys: map<string, PrivateKey>): (r: map<string, PrivateKey>) {
    if e.Write? && e.id in before.writers && Accepted(before.writers[e.id], before.source)
    then Atomically(keys, before.writers[e.id].op) else keys
  }

  /** A removal about to delete the Secret with a host in it that it never saw. */
  ghost predicate LosesKeys(before: State, e: Event) {
    && e.Write? && e.id in before.writers
    && Prepare(before.writers[e.id].op, before.writers[e.id].seen).DeleteSecret?
    && before.source.Some? && !(HostSet(before.source.value) <= {before.writers[e.id].op.host})
  }

  lemma StepIsBookedIff(before: State, e: Event)
    requires Inv(before)
    ensures Coherent(Step(before, e).source)
    ensures Keys(Step(before, e).source) == Booked(before, e, Keys(before.source)) <==> !LosesKeys(before, e)
  {
    EveryInterleavingIsCoherent(before, [e]);
    assert [e][..0] == [];
    assert Run(before, []) == before;
    if e.Write? && e.id in before.writers {
      var w := before.writers[e.id];
      if WentThrough(w.op, w.seen, before.source) {
        PatchRefinesAtomicUpdate(w.op, w.seen, before.source);
      } else if Prepare(w.op, w.seen).DeleteSecret? && before.source.Some? {
        RemovalIsExactIff(w.op.host, w.seen, before.source);
      }
    }
  }

  ghost predicate InStep(s: State, es: seq<Event>)
    requires Inv(s)
  {
    Coherent(Run(s, es).source) && Keys(Run(s, es).source) == Ledger(s, es, Keys(s.source))
  }

  /** The content is the ledger's after every prefix of the run. */
  ghost predicate AlwaysInStep(s: State, es: seq<Event>)
    requires Inv(s)
  {
    InStep(s, es) && (es != [] ==> AlwaysInStep(s, es[..|es| - 1]))
  }

  ghost predicate NeverLoses(s: State, es: seq<Event>) {
    es != [] ==> !LosesKeys(Run(s, es[..|es| - 1]), es[|es| - 1]) && NeverLoses(s, es[..|es| - 1])
  }

  lemma InStepAgainIff(s: State, es: seq<Event>)
    requires Inv(s) && es != [] && InStep(s, es[..|es| - 1])
    ensures InStep(s, es) <==> !LosesKeys(Run(s, es[..|es| - 1]), es[|es| - 1])
  {
    EveryInterleavingIsCoherent(s, es[..|es| - 1]);
    StepIsBookedIff(Run(s, es[..|es| - 1]), es[|es| - 1]);
  }

  /** A run is, all along, the fold of its accepted writes as atomic updates if and only if no removal in it
      deletes a host it never saw. */
  lemma {:induction false} RunIsLedgerIff(s: State, es: seq<Event>)
    requires Inv(s)
    ensures AlwaysInStep(s, es) <==> NeverLoses(s, es)
  {
    if es != [] {
      RunIsLedgerIff(s, es[..|es| - 1]);
      if InStep(s, es[..|es| - 1]) { InStepAgainIff(s, es); }
    }
  }

  /** And such a removal happens: an addition that is stored between the read and the write of the removal
      of the last key is gone afterwards. */
  lemma AdditionLost(d: Option<Data>, a: Op, g: string)
    requires Coherent(d) && d.Some? && HostSet(d.value) == {g} && a.Put? && a.host != g
    ensures var es := [Read(1, a), Read(2, Remove(g)), Write(1), Write(2)];
            var d1 := Commit(d, Prepare(a, d)).0;
            d1.Some? && a.host in HostSet(d1.value) && Run(State(d, map[]), es).source == None
  {
    RaceOutcome(d, a, Remove(g));
    assert a.host !in HostSet(d.value);
    HostsAfterWrite(a, d, d);
    assert HostSet(d.value) - {g} == {};
  }

  ghost predicate SealedUnder(source: Option<Data>, key: string) {
    source.Some? ==> forall h :: KeyOf(h) in source.value ==>
        source.value[KeyOf(h)].Sealed? && source.value[KeyOf(h)].key == key
  }

  ghost predicate OnlySeals(es: seq<Event>, key: string) {
    forall i :: 0 <= i < |es| && es[i].Read? && es[i].op.Put? ==> es[i].op.sealKey == key
  }

  ghost predicate PutsSealUnder(s: State, key: string) {
    forall id :: id in s.writers && s.writers[id].op.Put? ==> s.writers[id].op.sealKey == key
  }

  lemma {:induction false} RunsSealUnder(s: State, es: seq<Event>, key: string)
    requires Inv(s) && SealedUnder(s.source, key) && PutsSealUnder(s, key) && OnlySeals(es, key)
    ensures SealedUnder(Run(s, es).source, key) && PutsSealUnder(Run(s, es), key)
  {
    if es != [] {
      var init, e := es[..|es| - 1], es[|es| - 1];
      var before := Run(s, init);
      RunsSealUnder(s, init, key);
      EveryInterleavingIsCoherent(s, init);
      if e.Write? && e.id in before.writers {
        var w := before.writers[e.id];
        var p := Prepare(w.op, w.seen);
        var next := Commit(before.source, p).0;
        if next.Some? && next != before.source {
          forall h | KeyOf(h) in next.value
            ensures next.value[KeyOf(h)].Sealed? && next.value[KeyOf(h)].key == key
          {
            HostAfterWrite(w.op, w.seen, before.source, h);
          }
        }
      }
    }
  }

  // ---------------------------------------------------------------- the config entry of the source

  ghost predicate ConfigFresh(source: Option<Data>) {
    source.Some? ==> Config in source.value && source.value[Config] == ConfigOf(HostSet(source.value))
  }

  /** The hosts a plan leaves, if nothing intervened. */
  lemma PlannedHosts(op: Op, seen: Option<Data>)
    requires Prepare(op, seen).Create? || Prepare(op, seen).Patch?
    ensures var was := if seen.Some? then HostSet(seen.value) else {};
            HostSet(Prepare(op, seen).data) == if op.Put? then was + {op.host} else was - {op.host}
  {
    var d := Prepare(op, seen).data;
    var base: Data := if seen.Some? then seen.value else map[];
    var was := HostSet(base);
    forall h ensures h in HostSet(d) <==> if op.Put? then h in was + {op.host} else h in was - {op.host} {
      PlanAtHost(op, seen, h);
    }
  }

  lemma PlannedConfig(op: Op, seen: Option<Data>)
    requires Prepare(op, seen).Create? || Prepare(op, seen).Patch?
    ensures ConfigFresh(Some(Prepare(op, seen).data))
  {
    PlannedHosts(op, seen);
    if op.Put? {
      var d: Data := if seen.Some? then seen.value else map[];
      var e := d[KeyOf(op.host) := Sealed(op.sealKey, op.nonce, op.key)][MetaOf(op.host) := Describe(op.key)];
      forall h ensures h in HostSet(e) <==> h in HostSet(WithKey(d, op)) {
      }
      assert HostSet(e) == HostSet(WithKey(d, op));
    }
  }

  /** Without a race (the request's snapshot is what it writes to) the config entry stays right. */
  lemma UnracedWriteKeepsConfig(op: Op, current: Option<Data>)
    requires ConfigFresh(current)
    ensures ConfigFresh(Commit(current, Prepare(op, current)).0)
  {
    var p := Prepare(op, current);
    if p.Create? || p.Patch? { PlannedConfig(op, current); }
    if p.Patch? { DiffReaches(p.base, p.data); }
  }

  /** Host names as the profile page accepts them stay on one line. */
  predicate OneLine(host: string) { '\n' !in host }

  lemma BlockShape(host: string)
    ensures var s := HostBlock(host); |s| > 5 + |host| && s[5..5 + |host|] == host && s[5 + |host|] == '\n'
  {
  }

  /** A name that ends at the first line break is not shorter than another one read at the same place. */
  lemma NotShorter(s: string, g: string, h: string)
    requires 5 + |g| < |s| && 5 + |h| < |s| && s[5..5 + |h|] == h && s[5 + |g|] == '\n'
    ensures |g| < |h| ==> !OneLine(h)
  {
    if |g| < |h| { assert h[|g|] == s[5 + |g|]; }
  }

  lemma BlockThen(g: string, x: string)
    ensures var s := HostBlock(g) + x;
            |s| > 5 + |g| && s[5..5 + |g|] == g && s[5 + |g|] == '\n' && s[|HostBlock(g)|..] == x
  {
    BlockShape(g);
    var s := HostBlock(g) + x;
    assert s[5..5 + |g|] == HostBlock(g)[5..5 + |g|];
  }

  /** Two configs that begin with the blocks of these hosts are only equal if the hosts are. */
  lemma FirstHost(g: string, h: string, x: string, y: string)
    requires OneLine(g) && OneLine(h) && HostBlock(g) + x == HostBlock(h) + y
    ensures g == h && x == y
  {
    BlockThen(g, x);
    BlockThen(h, y);
    NotShorter(HostBlock(g) + x, g, h);
    NotShorter(HostBlock(g) + x, h, g);
  }

  /** Where a block ends can be told, and so can the host it is for. */
  ghost predicate Decodable(block: string -> string) {
    && (forall g :: block(g) != "")
    && forall g, h, x, y :: OneLine(g) && OneLine(h) && block(g) + x == block(h) + y ==> g == h && x == y
  }

  lemma {:induction false} BlocksInjective(a: seq<string>, b: seq<string>, block: string -> string)
    requires Decodable(block) && Blocks(a, block) == Blocks(b, block)
    requires forall i :: 0 <= i < |a| ==> OneLine(a[i])
    requires forall i :: 0 <= i < |b| ==> OneLine(b[i])
    ensures a == b
  {
    if a != [] && b != [] {
      assert block(a[0]) + Blocks(a[1..], block) == block(b[0]) + Blocks(b[1..], block);
      BlocksInjective(a[1..], b[1..], block);
      assert a == [a[0]] + a[1..] && b == [b[0]] + b[1..];
    }
  }

  lemma RenderInjective(a: seq<string>, b: seq<string>)
    requires forall i :: 0 <= i < |a| ==> OneLine(a[i])
    requires forall i :: 0 <= i < |b| ==> OneLine(b[i])
    requires RenderConfig(a) == RenderConfig(b)
    ensures a == b
  {
    HostBlocksDecodable();
    BlocksInjective(a, b, HostBlock);
  }

  lemma HostBlocksDecodable()
    ensures Decodable(HostBlock)
  {
    forall g ensures HostBlock(g) != "" { BlockShape(g); }
    forall g, h, x, y | OneLine(g) && OneLine(h) && HostBlock(g) + x == HostBlock(h) + y ensures g == h && x == y {
      FirstHost(g, h, x, y);
    }
  }

  /** A host's block points ssh at the very entry its key is mounted under. */
  lemma IdentityIsMounted(host: string)
    ensures "Host " + host + "\n" + ("  IdentityFile " + MOUNT_PATH + "/" + ("key-" + host) + "\n") <= HostBlock(host)
  {
    assert EntryName(KeyOf(host)) == "key-" + host;
  }

  /** A config tells exactly which hosts it was made for. */
  lemma ConfigTellsHosts(a: set<string>, b: set<string>)
    requires forall h :: h in a + b ==> OneLine(h)
    ensures ConfigOf(a) == ConfigOf(b) ==> a == b
  {
    if ConfigOf(a) == ConfigOf(b) {
      var s := Ascending(a);
      assert IsAscending(s, a) && IsAscending(Ascending(b), b);
      RenderInjective(s, Ascending(b));
      assert forall h :: h in a <==> h in s;
    }
  }

  lemma HostsAfterWrite(op: Op, seen: Option<Data>, current: Option<Data>)
    requires Coherent(seen) && current.Some? && WentThrough(op, seen, current)
    ensures var next := Commit(current, Prepare(op, seen)).0;
            var was := HostSet(current.value);
            HostSet(next.value) == if op.Put? then was + {op.host} else was - {op.host}
  {
    var next := Commit(current, Prepare(op, seen)).0;
    var was := HostSet(current.value);
    forall h ensures h in HostSet(next.value) <==> if op.Put? then h in was + {op.host} else h in was - {op.host} {
      HostAfterWrite(op, seen, current, h);
    }
  }

  /** The request's patch carries no config: what it plans is what it read. */
  ghost predicate ConfigUnchanged(op: Op, seen: Data) {
    var p := Prepare(op, Some(seen));
    p.Patch? && Config in seen && seen[Config] == ConfigOf(HostSet(p.data))
  }

  /** A request that patches replaces the config by the one for the hosts it saw, unless it read that very
      config already: then the stored one stays. */
  lemma LastConfigWins(op: Op, seen: Option<Data>, current: Option<Data>)
    requires seen.Some? && current.Some? && WentThrough(op, seen, current)
    ensures var d := Commit(current, Prepare(op, seen)).0.value;
            if ConfigUnchanged(op, seen.value) then Same(current.value, d, Config)
            else Config in d && d[Config] == ConfigOf(HostSet(Prepare(op, seen).data))
  {
    PlannedConfig(op, seen);
    MergedAt(Prepare(op, seen), current.value, Config);
  }

  /** With the right config in its snapshot a request always carries another one. */
  lemma FreshConfigChanges(op: Op, seen: Data)
    requires ConfigFresh(Some(seen)) && Prepare(op, Some(seen)).Patch?
    requires OneLine(op.host) && forall h :: h in HostSet(seen) ==> OneLine(h)
    ensures !ConfigUnchanged(op, seen)
  {
    var p := Prepare(op, Some(seen));
    PlannedHosts(op, Some(seen));
    PlanAtHost(op, Some(seen), op.host);
    assert op.host in HostSet(seen) <==> op.host !in HostSet(p.data);
    ConfigTellsHosts(HostSet(seen), HostSet(p.data));
  }

  /** Exactly when a write leaves the source's config entry right, from any snapshot. A request whose patch
      carries a config must have seen all the other hosts that are stored by then, and no more; one whose
      patch does not needs the stored config to be right for the result already. */
  lemma ConfigFreshIff(op: Op, seen: Option<Data>, current: Option<Data>)
    requires Coherent(seen) && seen.Some? && current.Some? && WentThrough(op, seen, current)
    requires OneLine(op.host) && forall h :: h in HostSet(seen.value) + HostSet(current.value) ==> OneLine(h)
    ensures var next := Commit(current, Prepare(op, seen)).0;
            ConfigFresh(next) <==>
            if ConfigUnchanged(op, seen.value)
            then Config in current.value && current.value[Config] == ConfigOf(HostSet(next.value))
            else HostSet(seen.value) - {op.host} == HostSet(current.value) - {op.host}
  {
    var planned, stored := HostSet(Prepare(op, seen).data), HostSet(Commit(current, Prepare(op, seen)).0.value);
    PlannedHosts(op, seen);
    HostsAfterWrite(op, seen, current);
    LastConfigWins(op, seen, current);
    ConfigTellsHosts(planned, stored);
    AgreeElsewhere(op.Put?, HostSet(seen.value), HostSet(current.value), op.host, planned, stored);
  }

  /** So even a request that saw all the hosts can turn a right config stale: one that read the leftover of a
      race, in which the config already lacked the host it removes. */
  lemma SeenAllYetStale(host: string, seen: Data, current: Data)
    requires Coherent(Some(seen)) && Coherent(Some(current)) && HostSet(seen) == HostSet(current)
    requires host in HostSet(seen) && HostSet(seen) != {host} && forall h :: h in HostSet(seen) ==> OneLine(h)
    requires Config in seen && seen[Config] == ConfigOf(HostSet(seen) - {host}) && ConfigFresh(Some(current))
    ensures !ConfigFresh(Commit(Some(current), Prepare(Remove(host), Some(seen))).0)
  {
    PlannedHosts(Remove(host), Some(seen));
    HostsAfterWrite(Remove(host), Some(seen), Some(current));
    ConfigFreshIff(Remove(host), Some(seen), Some(current));
    ConfigTellsHosts(HostSet(current), HostSet(current) - {host});
  }

  ghost predicate Leftover(d: Data, host: string) {
    && Coherent(Some(d)) && host in HostSet(d) && HostSet(d) != {host}
    && (forall h :: h in HostSet(d) ==> OneLine(h))
    && Config in d && d[Config] == ConfigOf(HostSet(d) - {host})
  }

  /** An addition that meets nobody, and its removal, over any Secret with a host in it: the hosts are as
      before and the config is right, however stale it was. */
  lemma AddAndRemove(d: Data, c: Op)
    requires Coherent(Some(d)) && HostSet(d) != {} && c.Put? && c.host !in HostSet(d)
    ensures var d2 := Commit(Some(d), Prepare(c, Some(d))).0;
            var d3 := Commit(d2, Prepare(Remove(c.host), d2)).0;
            && d2.Some? && d3.Some? && Coherent(d3) && ConfigFresh(d3) && HostSet(d3.value) == HostSet(d)
  {
    var d2 := Commit(Some(d), Prepare(c, Some(d))).0;
    CommitKeepsCoherence(c, Some(d), Some(d));
    HostsAfterWrite(c, Some(d), Some(d));
    PlannedConfig(c, Some(d));
    DiffReaches(d, Prepare(c, Some(d)).data);
    var h :| h in HostSet(d);
    assert h in HostSet(d2.value) - {c.host};
    CommitKeepsCoherence(Remove(c.host), d2, d2);
    UnracedWriteKeepsConfig(Remove(c.host), d2);
    HostsAfterWrite(Remove(c.host), d2, d2);
  }

  lemma SixEvents(s: State, es: seq<Event>)
    requires |es| == 6
    ensures Run(s, es[..5]) == Step(Step(Step(Step(Step(s, es[0]), es[1]), es[2]), es[3]), es[4])
    ensures Run(s, es) == Step(Run(s, es[..5]), es[5])
  {
    assert es[..0] == [] && es[..6] == es;
    OneEvent(s, es, 0);
    OneEvent(s, es, 1);
    OneEvent(s, es, 2);
    OneEvent(s, es, 3);
    OneEvent(s, es, 4);
    OneEvent(s, es, 5);
  }

  /** A request whose read and write follow one another. */
  lemma Uninterrupted(s: State, id: nat, op: Op)
    requires id !in s.writers
    ensures Step(Step(s, Read(id, op)), Write(id)) == State(Commit(s.source, Prepare(op, s.source)).0, s.writers)
  {
    assert s.writers[id := Writer(op, s.source)] - {id} == s.writers;
  }

  /** What six events make of the leftover of a race. */
  lemma LeftoverOutcome(d: Data, host: string, c: Op)
    requires c.Put?
    ensures var es := [Read(9, Remove(host)), Read(3, c), Write(3), Read(4, Remove(c.host)), Write(4), Write(9)];
            var d2 := Commit(Some(d), Prepare(c, Some(d))).0;
            var d3 := Commit(d2, Prepare(Remove(c.host), d2)).0;
            && Run(State(Some(d), map[]), es[..5]).source == d3
            && Run(State(Some(d), map[]), es).source == Commit(d3, Prepare(Remove(host), Some(d))).0
  {
    var es := [Read(9, Remove(host)), Read(3, c), Write(3), Read(4, Remove(c.host)), Write(4), Write(9)];
    SixEvents(State(Some(d), map[]), es);
    var s1 := Step(State(Some(d), map[]), Read(9, Remove(host)));
    Uninterrupted(s1, 3, c);
    Uninterrupted(Step(Step(s1, Read(3, c)), Write(3)), 4, Remove(c.host));
  }

  /** A run that gets there from the leftover of a race (which `RacingAdditionsStaleConfig` leaves): the config
      is right before the last write, which saw every host, and stale after it. */
  lemma RightConfigTurnsStale(d: Data, host: string, c: Op)
    requires Leftover(d, host) && c.Put? && c.host !in HostSet(d)
    ensures var es := [Read(9, Remove(host)), Read(3, c), Write(3), Read(4, Remove(c.host)), Write(4), Write(9)];
            var before, end := Run(State(Some(d), map[]), es[..5]).source, Run(State(Some(d), map[]), es).source;
            && before.Some? && HostSet(before.value) == HostSet(d) && ConfigFresh(before) && !ConfigFresh(end)
  {
    LeftoverOutcome(d, host, c);
    AddAndRemove(d, c);
    var d2 := Commit(Some(d), Prepare(c, Some(d))).0;
    var d3 := Commit(d2, Prepare(Remove(c.host), d2)).0;
    SeenAllYetStale(host, d, d3.value);
  }

  /** Racing additions do leave such a Secret. */
  lemma RaceLeavesLeftover(d: Option<Data>, a: Op, b: Op)
    requires Coherent(d) && ConfigFresh(d) && d.Some? && forall h :: h in HostSet(d.value) ==> OneLine(h)
    requires a.Put? && b.Put? && a.host != b.host && OneLine(a.host) && OneLine(b.host)
    requires a.host !in HostSet(d.value) && b.host !in HostSet(d.value)
    ensures var end := Run(State(d, map[]), [Read(1, a), Read(2, b), Write(1), Write(2)]).source;
            end.Some? && Leftover(end.value, a.host)
  {
    RacingAdditionsStaleConfig(d, a, b);
    EveryInterleavingIsCoherent(State(d, map[]), [Read(1, a), Read(2, b), Write(1), Write(2)]);
    assert HostSet(d.value) + {a.host} + {b.host} - {a.host} == HostSet(d.value) + {b.host};
  }

  lemma {:induction false} RunOn(s: State, xs: seq<Event>, ys: seq<Event>)
    ensures Run(s, xs + ys) == Run(Run(s, xs), ys)
  {
    if ys == [] {
      assert xs + ys == xs;
    } else {
      assert (xs + ys)[..|xs + ys| - 1] == xs + ys[..|ys| - 1];
      RunOn(s, xs, ys[..|ys| - 1]);
    }
  }

  /** The whole run, from a right config to a right config to a stale one. */
  lemma RaceThenStale(d: Option<Data>, a: Op, b: Op, c: Op, race: seq<Event>, after: seq<Event>)
    requires Coherent(d) && ConfigFresh(d) && d.Some? && forall h :: h in HostSet(d.value) ==> OneLine(h)
    requires a.Put? && b.Put? && a.host != b.host && OneLine(a.host) && OneLine(b.host)
    requires a.host !in HostSet(d.value) && b.host !in HostSet(d.value)
    requires c.Put? && c.host !in HostSet(d.value) + {a.host} + {b.host}
    requires race == [Read(1, a), Read(2, b), Write(1), Write(2)]
    requires after == [Read(9, Remove(a.host)), Read(3, c), Write(3), Read(4, Remove(c.host)), Write(4), Write(9)]
    ensures var s := State(d, map[]);
            ConfigFresh(Run(s, race + after[..5]).source) && !ConfigFresh(Run(s, race + after).source)
  {
    RaceOutcome(d, a, b);
    RaceLeavesLeftover(d, a, b);
    RacingAdditionsStaleConfig(d, a, b);
    var mid := Run(State(d, map[]), race).source;
    RightConfigTurnsStale(mid.value, a.host, c);
    RunOn(State(d, map[]), race, after[..5]);
    RunOn(State(d, map[]), race, after);
  }

  lemma AgreeElsewhere(put: bool, seen: set<string>, current: set<string>, x: string, planned: set<string>,
                       stored: set<string>)
    requires planned == if put then seen + {x} else seen - {x}
    requires stored == if put then current + {x} else current - {x}
    ensures planned == stored <==> seen - {x} == current - {x}
  {
    assert planned - {x} == seen - {x} && stored - {x} == current - {x};
    if seen - {x} == current - {x} {
      forall y ensures y in planned <==> y in stored { assert y in planned - {x} <==> y in stored - {x}; }
    }
  }

  /** Both requests read, then both write. */
  lemma RaceOutcome(d: Option<Data>, a: Op, b: Op)
    ensures Run(State(d, map[]), [Read(1, a), Read(2, b), Write(1), Write(2)])
            == State(Commit(Commit(d, Prepare(a, d)).0, Prepare(b, d)).0, map[])
  {
    var s0, es := State(d, map[]), [Read(1, a), Read(2, b), Write(1), Write(2)];
    FourEvents(s0, es);
    var s2 := State(d, map[1 := Writer(a, d), 2 := Writer(b, d)]);
    assert Step(Step(s0, es[0]), es[1]) == s2;
    WriteEvent(s2, 1);
    assert s2.writers - {1} == map[2 := Writer(b, d)];
    WriteEvent(Step(s2, Write(1)), 2);
    assert map[2 := Writer(b, d)] - {2} == map[];
  }

  lemma WriteEvent(s: State, id: nat)
    requires id in s.writers
    ensures var w := s.writers[id];
            Step(s, Write(id)) == State(Commit(s.source, Prepare(w.op, w.seen)).0, s.writers - {id})
  {
  }

  lemma FourEvents(s: State, es: seq<Event>)
    requires |es| == 4
    ensures Run(s, es) == Step(Step(Step(Step(s, es[0]), es[1]), es[2]), es[3])
  {
    assert es[..0] == [] && es[..4] == es;
    OneEvent(s, es, 0);
    OneEvent(s, es, 1);
    OneEvent(s, es, 2);
    OneEvent(s, es, 3);
  }

  lemma OneEvent(s: State, es: seq<Event>, n: nat)
    requires n < |es|
    ensures Run(s, es[..n + 1]) == Step(Run(s, es[..n]), es[n])
  {
    assert es[..n + 1][..n] == es[..n];
  }

  /** Two additions that race over one snapshot do leave the source's config entry stale: both keys are
      stored, and the config names only the host whose patch came last. */
  lemma RacingAdditionsStaleConfig(d: Option<Data>, a: Op, b: Op)
    requires Coherent(d) && ConfigFresh(d) && d.Some? && forall h :: h in HostSet(d.value) ==> OneLine(h)
    requires a.Put? && b.Put? && a.host != b.host && OneLine(a.host) && OneLine(b.host)
    requires a.host !in HostSet(d.value) && b.host !in HostSet(d.value)
    ensures var end := Run(State(d, map[]), [Read(1, a), Read(2, b), Write(1), Write(2)]).source;
            && end.Some?
            && HostSet(end.value) == HostSet(d.value) + {a.host} + {b.host}
            && Config in end.value && end.value[Config] == ConfigOf(HostSet(d.value) + {b.host})
            && !ConfigFresh(end)
  {
    RaceOutcome(d, a, b);
    var d1 := Commit(d, Prepare(a, d)).0;
    HostsAfterWrite(a, d, d);
    HostsAfterWrite(b, d, d1);
    PlannedHosts(b, d);
    FreshConfigChanges(b, d.value);
    LastConfigWins(b, d, d1);
    ConfigFreshIff(b, d, d1);
    assert a.host in HostSet(d1.value) - {b.host};
  }

  // ---------------------------------------------------------------- the profile page

  datatype KeyInfo = KeyInfo(host: string, kind: string, fingerprint: string)

  /** `strings.Cut(s, " ")`. */
  function CutSpace(s: string): (r: Option<(string, string)>) {
    if s == "" then None
    else if s[0] == ' ' then Some(("", s[1..]))
    else match CutSpace(s[1..]) case None => None case Some(q) => Some(([s[0]] + q.0, q.1))
  }

  lemma {:induction false} CutJoined(kind: string, rest: string)
    requires ' ' !in kind
    ensures CutSpace(kind + " " + rest) == Some((kind, rest))
  {
    var s := kind + " " + rest;
    if kind == "" {
      assert s[1..] == rest;
    } else {
      assert s[0] == kind[0] && kind == [kind[0]] + kind[1..];
      assert s[1..] == kind[1..] + " " + rest;
      CutJoined(kind[1..], rest);
    }
  }

  function InfoFor(host: string, meta: Blob): (r: KeyInfo) {
    match (if meta.Text? then CutSpace(meta.s) else None)
    case Some(q) => KeyInfo(host, q.0, q.1)
    case None => KeyInfo(host, "unrecognised", "")
  }

  /** Metadata that is not two words is shown as unrecognised. */
  lemma Unrecognised(host: string, meta: Blob)
    requires meta.Text? ==> ' ' !in meta.s
    ensures InfoFor(host, meta) == KeyInfo(host, "unrecognised", "")
  {
    if meta.Text? { NoSpace(meta.s); }
  }

  lemma {:induction false} NoSpace(s: string)
    requires ' ' !in s
    ensures CutSpace(s).None?
  {
    if s != "" { NoSpace(s[1..]); }
  }

  /** One line for each metadata entry among `keys`, and no other line. */
  ghost predicate ListsMetadata(infos: seq<KeyInfo>, data: Data, keys: set<Entry>)
    requires keys <= data.Keys
  {
    && (forall info :: info in infos ==>
          MetaOf(info.host) in keys && info == InfoFor(info.host, data[MetaOf(info.host)]))
    && (forall h :: MetaOf(h) in keys ==> InfoFor(h, data[MetaOf(h)]) in infos)
  }

  /** `GetGitSSHKeys`, in the order the map happened to be iterated. */
  method ListKeys(source: Option<Data>) returns (infos: seq<KeyInfo>)
    ensures if source.None? then infos == [] else ListsMetadata(infos, source.value, source.value.Keys)
    ensures forall i, j :: 0 <= i < j < |infos| ==> infos[i].host != infos[j].host
  {
    infos := [];
    if source.None? { return; }
    var data := source.value;
    var left := data.Keys;
    while left != {}
      invariant left <= data.Keys
      invariant ListsMetadata(infos, data, data.Keys - left)
      invariant forall i, j :: 0 <= i < j < |infos| ==> infos[i].host != infos[j].host
      decreases |left|
    {
      var key :| key in left;
      if key.MetaOf? {
        infos := infos + [InfoFor(key.host, data[key])];
      }
      left := left - {key};
    }
  }

  /** In every reachable state the page shows each stored key's own type and fingerprint, once per host. */
  lemma ListingShowsStoredKeys(source: Option<Data>, infos: seq<KeyInfo>, host: string)
    requires Coherent(source) && source.Some?
    requires forall h :: h in Keys(source) ==> ' ' !in Keys(source)[h].kind
    requires ListsMetadata(infos, source.value, source.value.Keys)
    ensures (exists i :: 0 <= i < |infos| && infos[i].host == host) <==> host in Keys(source)
    ensures forall i :: 0 <= i < |infos| && infos[i].host == host ==>
              infos[i] == KeyInfo(host, Keys(source)[host].kind, Keys(source)[host].fingerprint)
  {
    assert HostCoherent(source.value, host);
    if host in Keys(source) {
      var k := Keys(source)[host];
      CutJoined(k.kind, k.fingerprint);
    }
  }

  // ---------------------------------------------------------------- the controller's derived Secret

  datatype Outcome = Mounted | Unused | Failed

  /** What one pass leaves: its result, the runtime Secret, and whether it wrote. */
  datatype Pass = Pass(outcome: Outcome, runtime: Option<Data>, wrote: bool)

  predicate Decryptable(source: Data, master: string) {
    forall k | k in source && k.KeyOf? :: Decrypt(master, source[k]).Some?
  }

  /** The runtime Secret a source should produce: every key decrypted, and a config rebuilt from the key
      entries, never copied from the source. */
  ghost function Derived(source: Data, master: string): (r: Data)
    requires Decryptable(source, master)
  {
    Plaintexts(source, master)[Config := ConfigOf(HostSet(source))]
  }

  ghost function Plaintexts(source: Data, master: string): (r: Data)
    requires Decryptable(source, master)
  {
    map k | k in source && k.KeyOf? :: Pem(Decrypt(master, source[k]).value)
  }

  /** The loop over the source's entries; stops at the first key it cannot open. */
  method DecryptAll(source: Data, master: string) returns (r: Option<Data>)
    ensures r.Some? <==> Decryptable(source, master)
    ensures r.Some? ==> r.value == Plaintexts(source, master)
  {
    var data: Data := map[];
    var left := source.Keys;
    while left != {}
      invariant left <= source.Keys
      invariant forall k | k in source.Keys - left && k.KeyOf? :: Decrypt(master, source[k]).Some?
      invariant data == map k | k in source.Keys - left && k.KeyOf? :: Pem(Decrypt(master, source[k]).value)
      decreases |left|
    {
      var key :| key in left;
      left := left - {key};
      if key.KeyOf? {
        var plaintext := Decrypt(master, source[key]);
        if plaintext.None? { return None; }
        data := data[key := Pem(plaintext.value)];
      }
    }
    return Some(data);
  }

  /** One pass over what it reads; `faults` are the API calls that fail (other than with NotFound). */
  ghost function EnsureRuntime(source: Option<Data>, master: Option<string>, runtime: Option<Data>,
                               faults: set<Call>): (r: Pass) {
    if GetSource in faults then Pass(Failed, runtime, false)
    else if source.None? then
      if GetRuntime in faults || runtime.None? then Pass(Unused, runtime, false)
      else if DeleteRuntime in faults then Pass(Failed, runtime, false)
      else Pass(Unused, None, true)
    else if GetMasterKey in faults || master.None? then Pass(Failed, runtime, false)
    else if !Decryptable(source.value, master.value) then Pass(Failed, runtime, false)
    else if GetRuntime in faults then Pass(Failed, runtime, false)
    else if runtime == Some(Derived(source.value, master.value)) then Pass(Mounted, runtime, false)
    else if WriteRuntime in faults then Pass(Failed, runtime, false)
    else Pass(Mounted, Some(Derived(source.value, master.value)), true)
  }

  /** `slices.DeleteFunc` on the sorted host list: what is left is still the sorted list of the rest. */
  method WithoutHost(hosts: seq<string>, host: string, ghost all: set<string>) returns (rest: seq<string>)
    requires hosts == Ascending(all)
    ensures rest == Ascending(all - {host}) && forall x :: x in rest <==> x in all - {host}
  {
    rest := [];
    var i := 0;
    ghost var from: seq<nat> := [];
    while i < |hosts|
      invariant 0 <= i <= |hosts| && |from| == |rest|
      invariant forall j :: 0 <= j < |rest| ==> from[j] < i && rest[j] == hosts[from[j]] && rest[j] != host
      invariant forall j, k :: 0 <= j < k < |rest| ==> from[j] < from[k]
      invariant forall j :: 0 <= j < i && hosts[j] != host ==> hosts[j] in rest
    {
      if hosts[i] != host {
        rest := rest + [hosts[i]];
        from := from + [i];
      }
      i := i + 1;
    }
    assert IsAscending(hosts, all);
    assert IsAscending(rest, all - {host}) by {
      forall x ensures x in rest <==> x in all - {host} {
        if x in all - {host} { var j :| 0 <= j < |hosts| && hosts[j] == x; }
      }
    }
    AscendingUnique(rest, all - {host});
  }

  // ---------------------------------------------------------------- what the calls promise

  /** The entries of a Secret, absent meaning none. */
  function DataOf(source: Option<Data>): Data { if source.Some? then source.value else map[] }

  ghost predicate OthersSame(was: Option<Data>, now: Option<Data>, host: string) {
    forall x: Entry :: x != KeyOf(host) && x != MetaOf(host) && x != Config ==> Same(DataOf(was), DataOf(now), x)
  }

  /** Adding a key, as its user understands it: refused for a host that has one, and otherwise that key and no
      other is added, sealed, with a config that is right; a failing call changes nothing. */
  ghost predicate Adds(was: Option<Data>, now: Option<Data>, reply: Reply, host: string, key: PrivateKey,
                       sealKey: string, nonce: nat, faults: set<Call>)
    requires Coherent(was)
  {
    && Coherent(now)
    && if GetSource in faults then reply == ApiError && now == was
       else if host in Keys(was) then reply == KeyExists && now == was
       else if WriteSource in faults then reply == ApiError && now == was
       else
         && reply == Done && now.Some? && Keys(now) == Keys(was)[host := key]
         && KeyOf(host) in now.value && now.value[KeyOf(host)] == Sealed(sealKey, nonce, key)
         && ConfigFresh(now) && OthersSame(was, now, host)
  }

  /** Removing a key: nothing for a host that has none, the whole Secret with its last key, and otherwise that
      key and no other. */
  ghost predicate Removes(was: Option<Data>, now: Option<Data>, reply: Reply, host: string, faults: set<Call>)
    requires Coherent(was)
  {
    && Coherent(now)
    && if GetSource in faults then reply == ApiError && now == was
       else if host !in Keys(was) then reply == Done && now == was
       else if WriteSource in faults then reply == ApiError && now == was
       else
         && reply == Done && Keys(now) == Keys(was) - {host} && ConfigFresh(now)
         && (now.None? <==> Keys(was).Keys == {host}) && (now.Some? ==> OthersSame(was, now, host))
  }

  lemma UnracedIsPlanned(op: Op, was: Option<Data>)
    requires Prepare(op, was).Create? || Prepare(op, was).Patch?
    ensures Commit(was, Prepare(op, was)) == (Some(Prepare(op, was).data), Done)
    ensures ConfigFresh(Some(Prepare(op, was).data)) && WentThrough(op, was, was)
  {
    var p := Prepare(op, was);
    PlannedConfig(op, was);
    if p.Patch? { DiffReaches(p.base, p.data); }
  }

  lemma PlanLeavesOthers(op: Op, was: Option<Data>)
    requires Prepare(op, was).Create? || Prepare(op, was).Patch?
    ensures OthersSame(was, Some(Prepare(op, was).data), op.host)
  {
  }

  lemma PutIsRight(was: Option<Data>, op: Op, faults: set<Call>)
    requires Coherent(was) && op.Put?
    ensures var (now, reply) := Answer(was, op, faults);
            Adds(was, now, reply, op.host, op.key, op.sealKey, op.nonce, faults)
  {
    assert op.host in Keys(was) <==> was.Some? && KeyOf(op.host) in was.value;
    if op.host !in Keys(was) {
      UnracedIsPlanned(op, was);
      PlanLeavesOthers(op, was);
      PatchRefinesAtomicUpdate(op, was, was);
      HostAfterWrite(op, was, was, op.host);
    }
  }

  lemma RemoveIsRight(was: Option<Data>, host: string, faults: set<Call>)
    requires Coherent(was)
    ensures var (now, reply) := Answer(was, Remove(host), faults);
            Removes(was, now, reply, host, faults)
  {
    if was.Some? && KeyOf(host) in was.value {
      KeysAreHosts(was);
      RemovalIsExactIff(host, was, was);
      if Prepare(Remove(host), was).Patch? {
        UnracedIsPlanned(Remove(host), was);
        PlanLeavesOthers(Remove(host), was);
        var g :| g in HostSet(was.value) - {host};
        assert g in Keys(was);
      } else {
        assert HostSet(was.value) == {host};
      }
    }
  }

  lemma KeysAreHosts(source: Option<Data>)
    requires Coherent(source) && source.Some?
    ensures Keys(source).Keys == HostSet(source.value)
  {
  }

  /** Every key entry is sealed under this master key, and it is one AES can use. */
  ghost predicate Openable(source: Data, master: Option<string>) {
    && master.Some?
    && forall h :: KeyOf(h) in source ==>
         source[KeyOf(h)].Sealed? && source[KeyOf(h)].key == master.value && |master.value| in {16, 24, 32}
  }

  /** The runtime Secret a source calls for: its keys in the clear, a config naming exactly their hosts, and
      nothing else. */
  ghost predicate Serves(runtime: Option<Data>, source: Data) {
    && runtime.Some?
    && (forall x :: x in runtime.value <==> x == Config || (x.KeyOf? && x in source))
    && (forall h :: KeyOf(h) in source && source[KeyOf(h)].Sealed? ==>
          runtime.value[KeyOf(h)] == Pem(source[KeyOf(h)].plain))
    && runtime.value[Config] == ConfigOf(HostSet(source))
  }

  /** A controller pass, as its caller understands it. It fails exactly when something it needs cannot be read,
      opened or written, and has then written nothing. */
  ghost predicate PassIsRight(source: Option<Data>, master: Option<string>, was: Option<Data>, faults: set<Call>,
                              outcome: Outcome, now: Option<Data>, wrote: bool)
  {
    && (outcome == Failed ==> now == was) && (wrote <==> now != was)
    && if GetSource in faults then outcome == Failed
       else if source.None? then
         && (outcome == Failed <==> GetRuntime !in faults && DeleteRuntime in faults && was.Some?)
         && (outcome != Failed ==> outcome == Unused && now == if GetRuntime in faults then was else None)
       else
         && (outcome == Failed <==>
               || GetMasterKey in faults || !Openable(source.value, master) || GetRuntime in faults
               || (WriteRuntime in faults && !Serves(was, source.value)))
         && (outcome != Failed ==> outcome == Mounted && Serves(now, source.value))
  }

  lemma OpenableMeans(source: Data, master: string)
    ensures Openable(source, Some(master)) <==> Decryptable(source, master)
  {
    if Decryptable(source, master) {
      forall h | KeyOf(h) in source
        ensures source[KeyOf(h)].Sealed? && source[KeyOf(h)].key == master && |master| in {16, 24, 32}
      {
        assert Decrypt(master, source[KeyOf(h)]).Some?;
      }
    }
    if Openable(source, Some(master)) {
      forall k | k in source && k.KeyOf? ensures Decrypt(master, source[k]).Some? { assert k == KeyOf(k.host); }
    }
  }

  lemma DerivedServes(source: Data, master: string, runtime: Option<Data>)
    requires Decryptable(source, master)
    ensures Serves(runtime, source) <==> runtime == Some(Derived(source, master))
  {
    var d := Derived(source, master);
    OpenableMeans(source, master);
    assert forall x :: x in d <==> x == Config || (x.KeyOf? && x in source);
    assert forall h :: KeyOf(h) in source ==> d[KeyOf(h)] == Pem(source[KeyOf(h)].plain);
    if Serves(runtime, source) {
      forall x | x in d ensures runtime.value[x] == d[x] {
        if x.KeyOf? { assert x == KeyOf(x.host); }
      }
      assert runtime.value == d;
    }
  }

  lemma EveryPassIsRight(source: Option<Data>, master: Option<string>, was: Option<Data>, faults: set<Call>)
    ensures var p := EnsureRuntime(source, master, was, faults);
            PassIsRight(source, master, was, faults, p.outcome, p.runtime, p.wrote)
  {
    if source.Some? && master.Some? {
      OpenableMeans(source.value, master.value);
      if Decryptable(source.value, master.value) {
        DerivedServes(source.value, master.value, was);
        DerivedServes(source.value, master.value, Some(Derived(source.value, master.value)));
      }
    }
  }

  /** The user's namespace, as the UI's own requests and the controller see it. */
  class Namespace {
    var source: Option<Data>
    var runtime: Option<Data>
    var masterKey: Option<string>

    constructor (source: Option<Data>, runtime: Option<Data>, masterKey: Option<string>)
      ensures this.source == source && this.runtime == runtime && this.masterKey == masterKey
    {
      this.source, this.runtime, this.masterKey := source, runtime, masterKey;
    }

    /** The three entries an addition sets: the sealed key, what describes it, and the rebuilt config. */
    static method AddEntries(was: Data, op: Op) returns (data: Data)
      requires op.Put?
      ensures data == WithKey(was, op)
    {
      data := was[KeyOf(op.host) := Sealed(op.sealKey, op.nonce, op.key)];
      data := data[MetaOf(op.host) := Describe(op.key)];
      var hosts := HostsFromData(data);
      data := data[Config := Text(RenderConfig(hosts))];
    }

    /** `PutGitSSHKey`, uninterrupted; `pem` is `None` when the upload does not parse. */
    method PutGitSSHKey(host: string, pem: Option<PrivateKey>, sealKey: string, nonce: nat, faults: set<Call>)
      returns (reply: Reply)
      modifies this`source
      ensures if sealKey == "" then reply == NotConfigured && source == old(source)
              else if pem.None? then reply == BadKey && source == old(source)
              else if !UsableAesKey(sealKey) then reply == BadSealKey && source == old(source)
              else (source, reply) == Answer(old(source), Put(host, pem.value, sealKey, nonce), faults)
      ensures Coherent(old(source)) && pem.Some? && UsableAesKey(sealKey) ==>
                Adds(old(source), source, reply, host, pem.value, sealKey, nonce, faults)
    {
      if Coherent(source) && pem.Some? { PutIsRight(source, Put(host, pem.value, sealKey, nonce), faults); }
      if sealKey == "" { return NotConfigured; }
      if pem.None? { return BadKey; }
      if !UsableAesKey(sealKey) { return BadSealKey; }
      if GetSource in faults { return ApiError; }
      var data: Data := if source.Some? then source.value else map[];
      if KeyOf(host) in data { return KeyExists; }
      data := AddEntries(data, Put(host, pem.value, sealKey, nonce));
      if WriteSource in faults { return ApiError; }
      if source.None? {
        source := Some(data);
      } else {
        source := Some(Apply(source.value, Diff(source.value, data)));
      }
      return Done;
    }

    /** `DeleteGitSSHKey`, uninterrupted. */
    method DeleteGitSSHKey(host: string, faults: set<Call>) returns (reply: Reply)
      modifies this`source
      ensures (source, reply) == Answer(old(source), Remove(host), faults)
      ensures Coherent(old(source)) ==> Removes(old(source), source, reply, host, faults)
    {
      if Coherent(source) { RemoveIsRight(source, host, faults); }
      if GetSource in faults { return ApiError; }
      if source.None? || KeyOf(host) !in source.value { return Done; }
      var hosts := HostsFromData(source.value);
      var remaining := WithoutHost(hosts, host, HostSet(source.value));
      if remaining == [] {
        assert HostSet(source.value) - {host} == {};
        if WriteSource in faults { return ApiError; }
        source := None;
        return Done;
      }
      assert remaining[0] in HostSet(source.value) - {host};
      var data := source.value - {KeyOf(host), MetaOf(host)};
      data := data[Config := Text(RenderConfig(remaining))];
      if WriteSource in faults { return ApiError; }
      source := Some(Apply(source.value, Diff(source.value, data)));
      return Done;
    }

    /** `ensureGitSSHRuntimeSecret`. */
    method EnsureRuntimeSecret(faults: set<Call>) returns (outcome: Outcome, wrote: bool)
      modifies this`runtime
      ensures Pass(outcome, runtime, wrote) == EnsureRuntime(source, masterKey, old(runtime), faults)
      ensures PassIsRight(source, masterKey, old(runtime), faults, outcome, runtime, wrote)
    {
      EveryPassIsRight(source, masterKey, runtime, faults);
      wrote := false;
      if GetSource in faults { return Failed, wrote; }
      if source.None? {
        if GetRuntime !in faults && runtime.Some? {
          if DeleteRuntime in faults { return Failed, wrote; }
          runtime, wrote := None, true;
        }
        return Unused, wrote;
      }
      if GetMasterKey in faults || masterKey.None? { return Failed, wrote; }

      var decrypted := DecryptAll(source.value, masterKey.value);
      if decrypted.None? { return Failed, wrote; }
      var hosts := HostsFromData(source.value);
      var data := decrypted.value[Config := Text(RenderConfig(hosts))];

      if GetRuntime in faults { return Failed, wrote; }
      if runtime.None? {
        if WriteRuntime in faults { return Failed, wrote; }
        runtime, wrote := Some(data), true;
      } else if runtime.value != data {
        if WriteRuntime in faults { return Failed, wrote; }
        DiffReaches(runtime.value, data);
        runtime, wrote := Some(Apply(runtime.value, Diff(runtime.value, data))), true;
      }
      return Mounted, wrote;
    }
  }

  /** The runtime Secret holds a key for each of these hosts, a config naming exactly them, and nothing
      else: in particular no metadata and no stale entry. */
  ghost predicate Mounts(runtime: Option<Data>, keys: map<string, PrivateKey>) {
    && runtime.Some?
    && (forall x :: x in runtime.value <==> x == Config || (x.KeyOf? && x.host in keys))
    && (forall h :: h in keys ==> KeyOf(h) in runtime.value && runtime.value[KeyOf(h)] == Pem(keys[h]))
    && runtime.value[Config] == Text(RenderConfig(Ascending(keys.Keys)))
  }

  lemma DerivedMounts(source: Data, master: string)
    requires Coherent(Some(source)) && Decryptable(source, master)
    ensures Mounts(Some(Derived(source, master)), Keys(Some(source)))
  {
    var keys := Keys(Some(source));
    var d := Derived(source, master);
    assert keys.Keys == HostSet(source);
    assert forall x :: x in d <==> x == Config || (x.KeyOf? && x.host in keys);
  }

  /** The controller's own patch of the runtime Secret, which replaces its data outright. */
  lemma RuntimePatchOnTheWire(source: Data, master: string, runtime: Data, rest: map<string, Json>,
                              stored: map<string, Json>, enc: Blob -> Json)
    requires Decryptable(source, master) && "data" !in rest && "data" !in stored && Injective(EntryName)
    requires Leafy(enc) && TellsApart(enc, runtime, Derived(source, master))
    ensures var data := Derived(source, master);
            var r := Rewritten(rest, stored, "data", enc, Renamed(runtime, EntryName), Renamed(data, EntryName),
                               Renamed(runtime, EntryName));
            && r.Obj? && r.fields - {"data"} == stored
            && Member(r, "data") == Entries(Renamed(data, EntryName), enc)
  {
    var data := Derived(source, master);
    DiffReaches(runtime, data);
    DataOnTheWire(runtime, data, runtime, rest, stored, enc);
  }

  lemma SealedIsDecryptable(source: Data, master: string)
    requires SealedUnder(Some(source), master) && UsableAesKey(master)
    ensures Decryptable(source, master)
  {
    forall k | k in source && k.KeyOf? ensures Decrypt(master, source[k]).Some? {
      assert k == KeyOf(k.host);
    }
  }

  /** One fault-free pass, from any runtime Secret, and the pass after it. */
  lemma PassDerives(source: Data, master: string, runtime: Option<Data>)
    requires Decryptable(source, master)
    ensures var pass := EnsureRuntime(Some(source), Some(master), runtime, {});
            pass.outcome == Mounted && pass.runtime == Some(Derived(source, master))
    ensures !EnsureRuntime(Some(source), Some(master), Some(Derived(source, master)), {}).wrote
  {
  }

  /** After any interleaving of additions and removals sealed under the master key, one fault-free pass
      makes the runtime Secret exactly the stored keys, whatever it held before; a second pass writes
      nothing; and with no source left there is no runtime Secret either. */
  lemma PassConverges(s: State, es: seq<Event>, master: string, runtime: Option<Data>, source: Option<Data>, pass: Pass)
    requires Inv(s) && SealedUnder(s.source, master) && PutsSealUnder(s, master) && OnlySeals(es, master)
    requires UsableAesKey(master)
    requires source == Run(s, es).source
    requires pass == EnsureRuntime(source, Some(master), runtime, {})
    ensures Coherent(source)
    ensures source.Some? ==> pass.outcome == Mounted && Mounts(pass.runtime, Keys(source))
    ensures source.None? ==> pass.outcome == Unused && pass.runtime == None
    ensures !EnsureRuntime(source, Some(master), pass.runtime, {}).wrote
  {
    EveryInterleavingIsCoherent(s, es);
    RunsSealUnder(s, es, master);
    if source.Some? {
      SealedIsDecryptable(source.value, master);
      PassDerives(source.value, master, runtime);
      DerivedMounts(source.value, master);
    }
  }

  /** Whatever fails, a pass that reports failure has written nothing, and a pass that reports success
      is the fault-free pass, except that a runtime Secret it could not read outlives its source. */
  lemma FailedPassWritesNothing(source: Option<Data>, master: Option<string>, runtime: Option<Data>, faults: set<Call>)
    ensures var pass := EnsureRuntime(source, master, runtime, faults);
            var clean := EnsureRuntime(source, master, runtime, {});
            && (pass.outcome == Failed ==> !pass.wrote && pass.runtime == runtime)
            && (!pass.wrote ==> pass.runtime == runtime)
            && (pass.outcome != Failed ==>
                  pass.outcome == clean.outcome
                  && (pass.runtime == clean.runtime <==> !(source.None? && runtime.Some? && GetRuntime in faults)))
  {
  }
}
