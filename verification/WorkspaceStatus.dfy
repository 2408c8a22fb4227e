/** A Workspace's status, written by two processes with merge patches: the controller publishes what a
    reconcile observed, the gateway stamps activity. The gateway also reads the status to decide whether a
    session may open. */
module WorkspaceStatus {
  import opened Common
  import opened MergePatch

  datatype Truth = True | False | Unknown
  datatype RawKind = Ready | ImageResolved | Degraded | OtherKind(name: string)

  /** A condition type; `OtherKind` is none of the three the controller sets. */
  type Kind = k: RawKind | k.OtherKind? ==> Unclaimed(k.name) witness Ready

  predicate Unclaimed(s: string) { s != "Ready" && s != "ImageResolved" && s != "Degraded" }

  datatype Condition = Condition(kind: Kind, status: Truth, reason: string, message: string, generation: int,
                                 since: Time)

  /** `Unset` is the empty string of a Workspace no reconcile has reached yet. */
  datatype Phase = Unset | Pending | Starting | Running | Suspended | Failed

  datatype Status = Status(phase: Phase, podName: string, endpoint: string, lastActivity: Option<Time>,
                           generation: int, conditions: seq<Condition>)

  // ---------------------------------------------------------------- conditions

  function Find(cs: seq<Condition>, kind: Kind): (r: Option<Condition>) {
    if cs == [] then None else if cs[0].kind == kind then Some(cs[0]) else Find(cs[1..], kind)
  }

  predicate IsTrue(cs: seq<Condition>, kind: Kind) { Find(cs, kind).Some? && Find(cs, kind).value.status == True }
  predicate IsFalse(cs: seq<Condition>, kind: Kind) { Find(cs, kind).Some? && Find(cs, kind).value.status == False }

  /** `meta.SetStatusCondition`: update in place or append; the transition time moves with the status. */
  function SetCondition(cs: seq<Condition>, c: Condition, now: Time): (r: seq<Condition>) {
    if cs == [] then [c.(since := now)]
    else if cs[0].kind == c.kind then [c.(since := if cs[0].status == c.status then cs[0].since else now)] + cs[1..]
    else [cs[0]] + SetCondition(cs[1..], c, now)
  }

  lemma {:induction false} FindAfterSet(cs: seq<Condition>, c: Condition, now: Time, kind: Kind)
    ensures var r := Find(SetCondition(cs, c, now), kind);
            if kind != c.kind then r == Find(cs, kind)
            else
              var was := Find(cs, kind);
              r == Some(c.(since := if was.Some? && was.value.status == c.status then was.value.since else now))
  {
    if cs != [] && cs[0].kind != c.kind { FindAfterSet(cs[1..], c, now, kind); }
  }

  function SetAll(cs: seq<Condition>, updates: seq<Condition>, generation: int, now: Time): (r: seq<Condition>)
    decreases |updates|
  {
    if updates == [] then cs
    else SetAll(SetCondition(cs, updates[0].(generation := generation), now), updates[1..], generation, now)
  }

  // ---------------------------------------------------------------- the controller's verdicts

  /** What one reconcile found out. */
  datatype Verdict =
    | ImageMissing
    | StorageUnset
    | ApplyFailed(cause: string)
    | Observed(wanted: bool, readyReplicas: int)

  /** The parts of the Workspace and its surroundings that end up in the status. */
  datatype Info = Info(workspace: string, image: string, endpoint: string, generation: int)

  function PodName(info: Info): string { info.workspace + "-0" }

  function PhaseOf(v: Verdict): Phase {
    match v
    case ImageMissing => Pending
    case StorageUnset => Failed
    case ApplyFailed(_) => Failed
    case Observed(wanted, ready) => if !wanted then Suspended else if ready > 0 then Running else Starting
  }

  function PodOf(v: Verdict, info: Info): string { if v.Observed? && v.wanted then PodName(info) else "" }

  function Cond(kind: Kind, status: Truth, reason: string, message: string): Condition {
    Condition(kind, status, reason, message, 0, 0)
  }

  function ConditionsOf(v: Verdict, info: Info): seq<Condition> {
    match v
    case ImageMissing =>
      [Cond(ImageResolved, False, "ImageNotFound", info.image), Cond(Ready, False, "ImageNotFound", info.image)]
    case StorageUnset => [Cond(Ready, False, "StorageNotDefaulted", "")]
    case ApplyFailed(cause) =>
      [Cond(Ready, False, "WorkloadApplyFailed", cause), Cond(Degraded, True, "WorkloadApplyFailed", cause)]
    case Observed(wanted, ready) =>
      [if !wanted then Cond(Ready, False, "Suspended", "")
       else if ready > 0 then Cond(Ready, True, "PodRunning", PodName(info))
       else Cond(Ready, False, "PodNotReady", PodName(info)),
       Cond(ImageResolved, True, "CatalogEntryFound", info.image),
       Cond(Degraded, False, "WorkloadApplied", "")]
  }

  /** The status `patchStatus` aims for, starting from the object it read. */
  function Marked(s: Status, v: Verdict, info: Info, now: Time): (r: Status) {
    s.(phase := PhaseOf(v), podName := PodOf(v, info), endpoint := info.endpoint, generation := info.generation,
       conditions := SetAll(s.conditions, ConditionsOf(v, info), info.generation, now))
  }

  /** What the rest of the system relies on. */
  predicate Healthy(s: Status) {
    && (s.phase == Running <==> IsTrue(s.conditions, Ready))
    && (s.phase == Running ==>
          IsTrue(s.conditions, ImageResolved) && IsFalse(s.conditions, Degraded) && s.podName != "")
  }

  /** The gateway's test. */
  predicate WorkspaceIsReady(s: Status) { s.phase == Running && s.podName != "" }

  /** The condition a list of updates sets for a kind, if any: the last one counts. */
  function LastSet(updates: seq<Condition>, kind: Kind): (r: Option<Condition>) {
    if updates == [] then None
    else if LastSet(updates[1..], kind).Some? then LastSet(updates[1..], kind)
    else if updates[0].kind == kind then Some(updates[0])
    else None
  }

  lemma {:induction false} FindAfterAll(cs: seq<Condition>, updates: seq<Condition>, generation: int, now: Time,
                                        kind: Kind)
    ensures var r, last := Find(SetAll(cs, updates, generation, now), kind), LastSet(updates, kind);
            if last.None? then r == Find(cs, kind)
            else r.Some? && r.value == last.value.(generation := generation, since := r.value.since)
    decreases |updates|
  {
    if updates != [] {
      var c := updates[0].(generation := generation);
      FindAfterSet(cs, c, now, kind);
      FindAfterAll(SetCondition(cs, c, now), updates[1..], generation, now, kind);
    }
  }

  lemma Unrolled(a: Condition, b: Condition, c: Condition, kind: Kind)
    ensures LastSet([a], kind) == if a.kind == kind then Some(a) else None
    ensures LastSet([a, b], kind) == if b.kind == kind then Some(b) else LastSet([a], kind)
    ensures LastSet([a, b, c], kind) == if c.kind == kind then Some(c) else LastSet([a, b], kind)
  {
    assert [a][1..] == [] && [a, b][1..] == [b] && [b][1..] == [] && [c][1..] == [];
    assert [a, b, c][1..] == [b, c] && [b, c][1..] == [c];
    assert LastSet([c], kind) == if c.kind == kind then Some(c) else None;
    assert LastSet([b], kind) == if b.kind == kind then Some(b) else None;
  }

  /** The reason a verdict gives in its Ready condition. */
  function ReasonOf(v: Verdict): string {
    match v
    case ImageMissing => "ImageNotFound"
    case StorageUnset => "StorageNotDefaulted"
    case ApplyFailed(_) => "WorkloadApplyFailed"
    case Observed(wanted, ready) => if !wanted then "Suspended" else if ready > 0 then "PodRunning" else "PodNotReady"
  }

  predicate Says(c: Option<Condition>, status: Truth) { c.Some? && c.value.status == status }

  /** What each verdict says about each condition it sets, and which it does not set. */
  lemma VerdictSets(v: Verdict, info: Info)
    ensures var cs := ConditionsOf(v, info);
            && Says(LastSet(cs, Ready), if PhaseOf(v) == Running then True else False)
            && LastSet(cs, Ready).value.reason == ReasonOf(v)
            && (if v.ImageMissing? then Says(LastSet(cs, ImageResolved), False)
                else if v.Observed? then Says(LastSet(cs, ImageResolved), True)
                else LastSet(cs, ImageResolved).None?)
            && (if v.ApplyFailed? then Says(LastSet(cs, Degraded), True)
                else if v.Observed? then Says(LastSet(cs, Degraded), False)
                else LastSet(cs, Degraded).None?)
  {
    var cs := ConditionsOf(v, info);
    VerdictUnrolled(v, info, Ready);
    VerdictUnrolled(v, info, ImageResolved);
    VerdictUnrolled(v, info, Degraded);
  }

  lemma VerdictUnrolled(v: Verdict, info: Info, kind: Kind)
    ensures var cs := ConditionsOf(v, info);
            && 1 <= |cs| <= 3
            && LastSet(cs, kind) == if |cs| > 2 && cs[2].kind == kind then Some(cs[2])
                                    else if |cs| > 1 && cs[1].kind == kind then Some(cs[1])
                                    else if cs[0].kind == kind then Some(cs[0]) else None
  {
    var cs := ConditionsOf(v, info);
    Unrolled(cs[0], if |cs| > 1 then cs[1] else cs[0], if |cs| > 2 then cs[2] else cs[0], kind);
    assert |cs| == 1 ==> cs == [cs[0]];
    assert |cs| == 2 ==> cs == [cs[0], cs[1]];
    assert |cs| == 3 ==> cs == [cs[0], cs[1], cs[2]];
  }

  lemma MarkedIsHealthy(s: Status, v: Verdict, info: Info, now: Time)
    ensures Healthy(Marked(s, v, info, now))
  {
    VerdictSets(v, info);
    FindAfterAll(s.conditions, ConditionsOf(v, info), info.generation, now, Ready);
    FindAfterAll(s.conditions, ConditionsOf(v, info), info.generation, now, ImageResolved);
    FindAfterAll(s.conditions, ConditionsOf(v, info), info.generation, now, Degraded);
  }

  // ---------------------------------------------------------------- the status on the wire

  datatype Field = FPhase | FPodName | FEndpoint | FLastActivity | FGeneration | FConditions
  datatype Value = P(phase: Phase) | S(s: string) | T(t: Time) | N(n: int) | C(cs: seq<Condition>)

  type Wire = map<Field, Value>

  predicate Present(s: Status, f: Field) {
    match f
    case FPhase => s.phase != Unset
    case FPodName => s.podName != ""
    case FEndpoint => s.endpoint != ""
    case FLastActivity => s.lastActivity.Some?
    case FGeneration => s.generation != 0
    case FConditions => s.conditions != []
  }

  function ValueOf(s: Status, f: Field): Value
    requires Present(s, f)
  {
    match f
    case FPhase => P(s.phase)
    case FPodName => S(s.podName)
    case FEndpoint => S(s.endpoint)
    case FLastActivity => T(s.lastActivity.value)
    case FGeneration => N(s.generation)
    case FConditions => C(s.conditions)
  }

  const FIELDS := {FPhase, FPodName, FEndpoint, FLastActivity, FGeneration, FConditions}

  /** Zero values are omitted. */
  function Encode(s: Status): (w: Wire) {
    map f | f in FIELDS && Present(s, f) :: ValueOf(s, f)
  }

  function Decode(w: Wire): (s: Status) {
    Status(if FPhase in w && w[FPhase].P? then w[FPhase].phase else Unset,
           if FPodName in w && w[FPodName].S? then w[FPodName].s else "",
           if FEndpoint in w && w[FEndpoint].S? then w[FEndpoint].s else "",
           if FLastActivity in w && w[FLastActivity].T? then Some(w[FLastActivity].t) else None,
           if FGeneration in w && w[FGeneration].N? then w[FGeneration].n else 0,
           if FConditions in w && w[FConditions].C? then w[FConditions].cs else [])
  }

  /** A status patch computed between `base` and `target`, merged into `current`. */
  function Merged(current: Status, base: Status, target: Status): (r: Status) {
    Decode(Apply(Encode(current), Diff(Encode(base), Encode(target))))
  }

  /** Two statuses that agree on one wire field. */
  predicate Agree(a: Wire, b: Wire, f: Field) { (f in a <==> f in b) && (f in a ==> a[f] == b[f]) }

  lemma MergedAt(current: Status, base: Status, target: Status, f: Field)
    ensures var w := Apply(Encode(current), Diff(Encode(base), Encode(target)));
            if Agree(Encode(base), Encode(target), f) then Agree(Encode(current), w, f) else Agree(Encode(target), w, f)
  {
    DiffIsLocal(Encode(base), Encode(target), Encode(current), f);
  }

  predicate SameField(a: Status, b: Status, f: Field) {
    match f
    case FPhase => a.phase == b.phase
    case FPodName => a.podName == b.podName
    case FEndpoint => a.endpoint == b.endpoint
    case FLastActivity => a.lastActivity == b.lastActivity
    case FGeneration => a.generation == b.generation
    case FConditions => a.conditions == b.conditions
  }

  lemma AgreeMeansEqual(a: Status, b: Status, f: Field)
    ensures Agree(Encode(a), Encode(b), f) <==> SameField(a, b, f)
  {
    assert f in FIELDS;
    assert f in Encode(a) <==> Present(a, f);
    assert f in Encode(b) <==> Present(b, f);
    if Present(a, f) && Present(b, f) {
      assert Encode(a)[f] == ValueOf(a, f) && Encode(b)[f] == ValueOf(b, f);
    }
  }

  lemma DecodedField(s: Status, w: Wire, f: Field)
    requires Agree(Encode(s), w, f)
    ensures SameField(Decode(w), s, f)
  {
    assert f in FIELDS;
    assert f in Encode(s) <==> Present(s, f);
    if Present(s, f) { assert Encode(s)[f] == ValueOf(s, f); }
  }

  lemma MergedField(current: Status, base: Status, target: Status, f: Field)
    ensures SameField(Merged(current, base, target), if SameField(base, target, f) then current else target, f)
  {
    var w := Apply(Encode(current), Diff(Encode(base), Encode(target)));
    MergedAt(current, base, target, f);
    AgreeMeansEqual(base, target, f);
    DecodedField(if SameField(base, target, f) then current else target, w, f);
  }

  /** Field by field, a merged status takes what the patch changed and keeps the rest. */
  lemma MergedMeans(current: Status, base: Status, target: Status)
    ensures Merged(current, base, target) ==
            Status(if base.phase == target.phase then current.phase else target.phase,
                   if base.podName == target.podName then current.podName else target.podName,
                   if base.endpoint == target.endpoint then current.endpoint else target.endpoint,
                   if base.lastActivity == target.lastActivity then current.lastActivity else target.lastActivity,
                   if base.generation == target.generation then current.generation else target.generation,
                   if base.conditions == target.conditions then current.conditions else target.conditions)
  {
    MergedField(current, base, target, FPhase);
    MergedField(current, base, target, FPodName);
    MergedField(current, base, target, FEndpoint);
    MergedField(current, base, target, FLastActivity);
    MergedField(current, base, target, FGeneration);
    MergedField(current, base, target, FConditions);
  }

  /** The JSON names of the fields. */
  function FieldName(f: Field): string {
    match f
    case FPhase => "state"
    case FPodName => "podName"
    case FEndpoint => "endpoint"
    case FLastActivity => "lastActivityTime"
    case FGeneration => "observedGeneration"
    case FConditions => "conditions"
  }

  lemma FieldNamesAreInjective()
    ensures Injective(FieldName)
  {
    forall f, g | FieldName(f) == FieldName(g) ensures f == g {
      assert |FieldName(f)| == |FieldName(g)|;
    }
  }

  lemma MergedWireAt(current: Status, base: Status, target: Status, f: Field)
    ensures Agree(Encode(Merged(current, base, target)), Apply(Encode(current), Diff(Encode(base), Encode(target))), f)
  {
    MergedAt(current, base, target, f);
    AgreeMeansEqual(base, target, f);
    MergedField(current, base, target, f);
    AgreeMeansEqual(Merged(current, base, target), if SameField(base, target, f) then current else target, f);
  }

  lemma AgreeEverywhere(a: Wire, b: Wire)
    requires forall f :: Agree(a, b, f)
    ensures a == b
  {
    forall f ensures f in a <==> f in b ensures f in a ==> a[f] == b[f] { assert Agree(a, b, f); }
  }

  lemma MergedWire(current: Status, base: Status, target: Status)
    ensures Encode(Merged(current, base, target)) == Apply(Encode(current), Diff(Encode(base), Encode(target)))
  {
    var m, w := Encode(Merged(current, base, target)), Apply(Encode(current), Diff(Encode(base), Encode(target)));
    forall f ensures Agree(m, w, f) { MergedWireAt(current, base, target, f); }
    AgreeEverywhere(m, w);
  }

  function PhaseName(p: Phase): string {
    match p
    case Unset => ""
    case Pending => "Pending"
    case Starting => "Starting"
    case Running => "Running"
    case Suspended => "Suspended"
    case Failed => "Failed"
  }

  function KindName(k: Kind): string {
    match k
    case Ready => "Ready"
    case ImageResolved => "ImageResolved"
    case Degraded => "Degraded"
    case OtherKind(name) => name
  }

  function TruthName(t: Truth): string {
    match t
    case True => "True"
    case False => "False"
    case Unknown => "Unknown"
  }

  /** A condition in JSON; `stamp` writes an instant (of whole seconds) as text. */
  function ConditionJson(c: Condition, stamp: Time -> string): Json {
    var fields := map["type" := Str(KindName(c.kind)), "status" := Str(TruthName(c.status)), "reason" := Str(c.reason),
                      "message" := Str(c.message), "lastTransitionTime" := Str(stamp(c.since))];
    Obj(if c.generation == 0 then fields else fields["observedGeneration" := Num(c.generation)])
  }

  function ConditionsJson(cs: seq<Condition>, stamp: Time -> string): (r: seq<Json>) {
    if cs == [] then [] else [ConditionJson(cs[0], stamp)] + ConditionsJson(cs[1..], stamp)
  }

  /** How the fields' values are written. A phase and a pod name may well be written alike. */
  function Encoder(stamp: Time -> string): Value -> Json {
    (v: Value) =>
      match v
      case P(phase) => Str(PhaseName(phase))
      case S(s) => Str(s)
      case T(t) => Str(stamp(t))
      case N(n) => Num(n)
      case C(cs) => Arr(ConditionsJson(cs, stamp))
  }

  lemma NamesTellApart(p: Phase, q: Phase, k: Kind, l: Kind, t: Truth, u: Truth)
    ensures PhaseName(p) == PhaseName(q) ==> p == q
    ensures KindName(k) == KindName(l) ==> k == l
    ensures TruthName(t) == TruthName(u) ==> t == u
  {
    assert PhaseName(Pending)[0] == 'P' && PhaseName(Running)[0] == 'R' && PhaseName(Failed)[0] == 'F';
    assert PhaseName(Starting)[1] == 't' && PhaseName(Suspended)[1] == 'u';
    assert TruthName(True)[0] == 'T' && TruthName(False)[0] == 'F' && TruthName(Unknown)[0] == 'U';
    assert KindName(Ready)[0] == 'R' && KindName(ImageResolved)[0] == 'I' && KindName(Degraded)[0] == 'D';
  }

  lemma ConditionTellsApart(c: Condition, d: Condition, stamp: Time -> string)
    requires Injective(stamp) && ConditionJson(c, stamp) == ConditionJson(d, stamp)
    ensures c == d
  {
    var f, g := ConditionJson(c, stamp).fields, ConditionJson(d, stamp).fields;
    assert f["type"] == Str(KindName(c.kind)) && g["type"] == Str(KindName(d.kind));
    assert f["status"] == Str(TruthName(c.status)) && g["status"] == Str(TruthName(d.status));
    assert f["reason"] == Str(c.reason) && g["reason"] == Str(d.reason);
    assert f["message"] == Str(c.message) && g["message"] == Str(d.message);
    assert f["lastTransitionTime"] == Str(stamp(c.since)) && g["lastTransitionTime"] == Str(stamp(d.since));
    assert "observedGeneration" in f <==> c.generation != 0;
    assert "observedGeneration" in g <==> d.generation != 0;
    NamesTellApart(Unset, Unset, c.kind, d.kind, c.status, d.status);
  }

  lemma {:induction false} ConditionsTellApart(cs: seq<Condition>, ds: seq<Condition>, stamp: Time -> string)
    requires Injective(stamp) && ConditionsJson(cs, stamp) == ConditionsJson(ds, stamp)
    ensures cs == ds
  {
    var x, y := ConditionsJson(cs, stamp), ConditionsJson(ds, stamp);
    assert cs == [] <==> x == [];
    assert ds == [] <==> y == [];
    if cs != [] {
      assert x[0] == ConditionJson(cs[0], stamp) && y[0] == ConditionJson(ds[0], stamp);
      assert x[1..] == ConditionsJson(cs[1..], stamp) && y[1..] == ConditionsJson(ds[1..], stamp);
      ConditionTellsApart(cs[0], ds[0], stamp);
      ConditionsTellApart(cs[1..], ds[1..], stamp);
    }
  }

  lemma StatusesTellApart(a: Status, b: Status, stamp: Time -> string)
    requires Injective(stamp)
    ensures TellsApart(Encoder(stamp), Encode(a), Encode(b))
  {
    var enc := Encoder(stamp);
    forall f | f in Encode(a) && f in Encode(b)
        && enc(Encode(a)[f]) == enc(Encode(b)[f]) ensures Encode(a)[f] == Encode(b)[f] {
      assert Encode(a)[f] == ValueOf(a, f) && Encode(b)[f] == ValueOf(b, f);
      match f
      case FPhase => NamesTellApart(a.phase, b.phase, Ready, Ready, True, True);
      case FConditions => ConditionsTellApart(a.conditions, b.conditions, stamp);
      case _ =>
    }
  }

  /** `Merged` is what the API server makes of the nested document patch: the Workspace's `status` member,
      and nothing outside it. Instants are whole seconds here, as they are on the wire. */
  lemma StatusOnTheWire(rest: map<string, Json>, stored: map<string, Json>, stamp: Time -> string,
                        current: Status, base: Status, target: Status)
    requires "status" !in rest && "status" !in stored && Injective(stamp) && Injective(FieldName)
    requires Encode(target) != map[]
    ensures var r := Rewritten(rest, stored, "status", Encoder(stamp), Renamed(Encode(base), FieldName),
                               Renamed(Encode(target), FieldName), Renamed(Encode(current), FieldName));
            && r.Obj? && r.fields - {"status"} == stored
            && Member(r, "status") == Entries(Renamed(Encode(Merged(current, base, target)), FieldName), Encoder(stamp))
  {
    MergedWire(current, base, target);
    StatusesTellApart(base, target, stamp);
    NamedPatch(rest, stored, "status", FieldName, Encoder(stamp), Encode(base), Encode(target), Encode(current));
  }

  /** Neither writer ever sends an empty status. */
  lemma NoWriterEmptiesStatus(s: Status, v: Verdict, info: Info, now: Time)
    ensures Encode(Marked(s, v, info, now)) != map[] && Encode(s.(lastActivity := Some(now))) != map[]
  {
    assert FPhase in Encode(Marked(s, v, info, now)) && FLastActivity in Encode(s.(lastActivity := Some(now)));
  }

  // ---------------------------------------------------------------- two writers

  /** `reconcile` is the object the one reconcile in flight has read; `sessions` what gateway sessions read. */
  datatype State = State(stored: Status, reconcile: Option<Status>, sessions: map<nat, Status>)

  datatype Event =
    | Read
    | Publish(verdict: Verdict, info: Info, now: Time)
    | Abandon
    | GatewayRead(id: nat)
    | GatewayStamp(id: nat, now: Time)

  function Step(s: State, e: Event): (r: State) {
    match e
    case Read => if s.reconcile.Some? then s else s.(reconcile := Some(s.stored))
    case Publish(v, info, now) =>
      if s.reconcile.None? then s else
        s.(stored := Merged(s.stored, s.reconcile.value, Marked(s.reconcile.value, v, info, now)), reconcile := None)
    case Abandon => s.(reconcile := None)
    case GatewayRead(id) => s.(sessions := s.sessions[id := s.stored])
    case GatewayStamp(id, now) =>
      if id !in s.sessions then s else
        var seen := s.sessions[id];
        s.(stored := Merged(s.stored, seen, seen.(lastActivity := Some(now))), sessions := s.sessions - {id})
  }

  function Run(s: State, es: seq<Event>): (r: State) {
    if es == [] then s else Step(Run(s, es[..|es| - 1]), es[|es| - 1])
  }

  /** Everything but the activity stamp: the controller's part. */
  function ControllerPart(s: Status): Status { s.(lastActivity := None) }

  /** The reconcile in flight read the controller's current fields: only it writes them. */
  predicate Current(s: State) {
    s.reconcile.Some? ==> ControllerPart(s.reconcile.value) == ControllerPart(s.stored)
  }

  /** A stamp touches nothing but the activity time. */
  lemma StampIsLocal(current: Status, seen: Status, now: Time)
    ensures var r := Merged(current, seen, seen.(lastActivity := Some(now)));
            && ControllerPart(r) == ControllerPart(current)
            && r.lastActivity == if seen.lastActivity == Some(now) then current.lastActivity else Some(now)
  {
    MergedMeans(current, seen, seen.(lastActivity := Some(now)));
  }

  /** A publish over a current base is the atomic update of what is stored, activity stamp included. */
  lemma PublishIsAtomic(current: Status, base: Status, v: Verdict, info: Info, now: Time)
    requires ControllerPart(base) == ControllerPart(current)
    ensures Merged(current, base, Marked(base, v, info, now)) == Marked(current, v, info, now)
  {
    MergedMeans(current, base, Marked(base, v, info, now));
    assert base.conditions == ControllerPart(base).conditions == current.conditions;
    assert base.phase == ControllerPart(base).phase && base.podName == ControllerPart(base).podName;
    assert base.endpoint == ControllerPart(base).endpoint && base.generation == ControllerPart(base).generation;
  }

  /** In every run, the status the world sees is healthy, and the gateway's readiness test agrees with the
      Ready condition. */
  lemma {:induction false} StatusStaysHealthy(s: State, es: seq<Event>)
    requires Current(s) && Healthy(s.stored)
    ensures var r := Run(s, es);
            Current(r) && Healthy(r.stored) && (WorkspaceIsReady(r.stored) <==> IsTrue(r.stored.conditions, Ready))
  {
    if es != [] {
      var before, e := Run(s, es[..|es| - 1]), es[|es| - 1];
      StatusStaysHealthy(s, es[..|es| - 1]);
      StepStaysHealthy(before, e);
    }
  }

  lemma StepStaysHealthy(s: State, e: Event)
    requires Current(s) && Healthy(s.stored)
    ensures Current(Step(s, e)) && Healthy(Step(s, e).stored)
  {
    match e
    case Publish(v, info, now) =>
      if s.reconcile.Some? {
        PublishIsAtomic(s.stored, s.reconcile.value, v, info, now);
        MarkedIsHealthy(s.stored, v, info, now);
      }
    case GatewayStamp(id, now) =>
      if id in s.sessions {
        StampIsLocal(s.stored, s.sessions[id], now);
        assert ControllerPart(Step(s, e).stored).conditions == ControllerPart(s.stored).conditions;
        assert ControllerPart(Step(s, e).stored).phase == ControllerPart(s.stored).phase;
        assert ControllerPart(Step(s, e).stored).podName == ControllerPart(s.stored).podName;
      }
    case _ =>
  }

  /** What the controller's steps come to: a publish makes the stored status the marked one. */
  lemma PublishLands(s: State, v: Verdict, info: Info, now: Time)
    requires Current(s)
    ensures s.reconcile.None? ==> Step(s, Read).reconcile == Some(s.stored)
    ensures Step(s, Abandon).stored == s.stored && Step(s, Abandon).reconcile.None?
    ensures s.reconcile.Some? ==> Step(s, Publish(v, info, now)).stored == Marked(s.stored, v, info, now)
  {
    if s.reconcile.Some? { PublishIsAtomic(s.stored, s.reconcile.value, v, info, now); }
  }

  /** And the gateway's: a stamp sets the time. */
  lemma StampLands(s: State, id: nat, now: Time)
    ensures id in Step(s, GatewayRead(id)).sessions && Step(s, GatewayRead(id)).sessions[id] == s.stored
    ensures id in s.sessions && s.sessions[id].lastActivity != Some(now) ==>
              Step(s, GatewayStamp(id, now)).stored == s.stored.(lastActivity := Some(now))
  {
    if id in s.sessions { MergedMeans(s.stored, s.sessions[id], s.sessions[id].(lastActivity := Some(now))); }
  }

  // ---------------------------------------------------------------- neither loses the other's fields

  predicate FromGateway(e: Event) { e.GatewayRead? || e.GatewayStamp? }

  /** The run with one side's events left out. */
  function Only(es: seq<Event>, gateway: bool): (r: seq<Event>) {
    if es == [] then [] else
      var init, e := Only(es[..|es| - 1], gateway), es[|es| - 1];
      if FromGateway(e) == gateway then init + [e] else init
  }

  /** Indistinguishable to the controller. */
  predicate SameController(r: State, c: State) {
    && Current(r) && Current(c)
    && ControllerPart(r.stored) == ControllerPart(c.stored)
    && (r.reconcile.Some? <==> c.reconcile.Some?)
  }

  lemma GatewayStepUnseen(r: State, c: State, e: Event)
    requires SameController(r, c) && FromGateway(e)
    ensures SameController(Step(r, e), c)
  {
    if e.GatewayStamp? && e.id in r.sessions { StampIsLocal(r.stored, r.sessions[e.id], e.now); }
  }

  lemma ControllerStepsAlike(r: State, c: State, e: Event)
    requires SameController(r, c) && !FromGateway(e)
    ensures SameController(Step(r, e), Step(c, e))
  {
    if e.Publish? && r.reconcile.Some? {
      PublishIsAtomic(r.stored, r.reconcile.value, e.verdict, e.info, e.now);
      PublishIsAtomic(c.stored, c.reconcile.value, e.verdict, e.info, e.now);
      MarkedParts(r.stored, c.stored, e.verdict, e.info, e.now);
    }
  }

  lemma MarkedParts(a: Status, b: Status, v: Verdict, info: Info, now: Time)
    requires ControllerPart(a) == ControllerPart(b)
    ensures ControllerPart(Marked(a, v, info, now)) == ControllerPart(Marked(b, v, info, now))
  {
    assert a.conditions == ControllerPart(a).conditions == b.conditions;
  }

  lemma RunSnoc(s: State, es: seq<Event>, e: Event)
    ensures Run(s, es + [e]) == Step(Run(s, es), e)
  {
    assert (es + [e])[..|es|] == es;
  }

  /** The controller's fields are exactly what its own events alone would have made them. */
  lemma {:induction false} GatewayIsInvisible(s: State, es: seq<Event>)
    requires Current(s)
    ensures SameController(Run(s, es), Run(s, Only(es, false)))
  {
    if es != [] {
      var init, e := es[..|es| - 1], es[|es| - 1];
      GatewayIsInvisible(s, init);
      if FromGateway(e) {
        GatewayStepUnseen(Run(s, init), Run(s, Only(init, false)), e);
      } else {
        ControllerStepsAlike(Run(s, init), Run(s, Only(init, false)), e);
        RunSnoc(s, Only(init, false), e);
      }
    }
  }

  /** Indistinguishable to the gateway, as far as activity goes. */
  ghost predicate SameActivity(r: State, g: State) {
    && r.stored.lastActivity == g.stored.lastActivity
    && r.sessions.Keys == g.sessions.Keys
    && forall id :: id in r.sessions ==> r.sessions[id].lastActivity == g.sessions[id].lastActivity
  }

  lemma ControllerStepUnseen(r: State, g: State, e: Event)
    requires Current(r) && SameActivity(r, g) && !FromGateway(e)
    ensures SameActivity(Step(r, e), g)
  {
    if e.Publish? && r.reconcile.Some? {
      PublishIsAtomic(r.stored, r.reconcile.value, e.verdict, e.info, e.now);
    }
  }

  lemma GatewayStepsAlike(r: State, g: State, e: Event)
    requires SameActivity(r, g) && FromGateway(e)
    ensures SameActivity(Step(r, e), Step(g, e))
  {
    if e.GatewayStamp? && e.id in r.sessions {
      StampIsLocal(r.stored, r.sessions[e.id], e.now);
      StampIsLocal(g.stored, g.sessions[e.id], e.now);
    }
  }

  /** The activity time is exactly what the gateway's events alone would have made it. */
  lemma {:induction false} ControllerIsInvisible(s: State, es: seq<Event>)
    requires Current(s)
    ensures SameActivity(Run(s, es), Run(s, Only(es, true)))
  {
    if es != [] {
      var init, e := es[..|es| - 1], es[|es| - 1];
      ControllerIsInvisible(s, init);
      GatewayIsInvisible(s, init);
      if FromGateway(e) {
        GatewayStepsAlike(Run(s, init), Run(s, Only(init, true)), e);
        RunSnoc(s, Only(init, true), e);
      } else {
        ControllerStepUnseen(Run(s, init), Run(s, Only(init, true)), e);
      }
    }
  }

  // ---------------------------------------------------------------- one reconcile

  datatype Lookup = Found | NotFound | LookupFailed

  /** What a reconcile meets on its way. */
  datatype Inputs = Inputs(workspace: Lookup, deleting: bool, image: Lookup, storageSet: bool,
                           gitSshError: Option<string>, applyError: Option<string>, statefulSet: Lookup,
                           running: bool, readyReplicas: int)

  /** The verdict published, if any: a deletion or a failed read publishes nothing. */
  function VerdictOf(i: Inputs): (r: Option<Verdict>) {
    if i.workspace != Found || i.deleting || i.image == LookupFailed then None
    else if i.image == NotFound then Some(ImageMissing)
    else if !i.storageSet then Some(StorageUnset)
    else if i.gitSshError.Some? then Some(ApplyFailed(i.gitSshError.value))
    else if i.applyError.Some? then Some(ApplyFailed(i.applyError.value))
    else if i.statefulSet == LookupFailed then None
    else Some(Observed(i.running, if i.statefulSet == NotFound then 0 else i.readyReplicas))
  }

  /** The reconcile gets to see how the workload is doing. */
  predicate Reaches(i: Inputs) {
    && i.workspace == Found && !i.deleting && i.image == Found && i.storageSet
    && i.gitSshError.None? && i.applyError.None? && i.statefulSet != LookupFailed
  }

  predicate PodIsUp(i: Inputs) { i.running && i.statefulSet == Found && i.readyReplicas > 0 }

  predicate Broken(i: Inputs) {
    && i.workspace == Found && !i.deleting && i.image == Found
    && (!i.storageSet || i.gitSshError.Some? || i.applyError.Some?)
  }

  predicate NoImage(i: Inputs) { i.workspace == Found && !i.deleting && i.image == NotFound }

  /** What a published status says, from what the reconcile met alone. */
  ghost predicate StatusRight(i: Inputs, info: Info, was: Status, now: Status) {
    && (now.phase == Running <==> Reaches(i) && PodIsUp(i))
    && (now.phase == Starting <==> Reaches(i) && i.running && !PodIsUp(i))
    && (now.phase == Suspended <==> Reaches(i) && !i.running)
    && (now.phase == Pending <==> NoImage(i))
    && (now.phase == Failed <==> Broken(i))
    && (if Reaches(i) && PodIsUp(i) then IsTrue(now.conditions, Ready) else IsFalse(now.conditions, Ready))
    && Find(now.conditions, Ready).value.reason == ReadyReason(i)
    && (if Reaches(i) then IsTrue(now.conditions, ImageResolved)
        else if NoImage(i) then IsFalse(now.conditions, ImageResolved)
        else Find(now.conditions, ImageResolved) == Find(was.conditions, ImageResolved))
    && (if Reaches(i) then IsFalse(now.conditions, Degraded)
        else if Broken(i) && i.storageSet then IsTrue(now.conditions, Degraded)
        else Find(now.conditions, Degraded) == Find(was.conditions, Degraded))
    && now.podName == (if Reaches(i) && i.running then info.workspace + "-0" else "")
    && now.endpoint == info.endpoint && now.generation == info.generation && now.lastActivity == was.lastActivity
  }

  function ReadyReason(i: Inputs): string {
    if i.image == NotFound then "ImageNotFound"
    else if !i.storageSet then "StorageNotDefaulted"
    else if i.gitSshError.Some? || i.applyError.Some? then "WorkloadApplyFailed"
    else if !i.running then "Suspended"
    else if i.statefulSet == Found && i.readyReplicas > 0 then "PodRunning"
    else "PodNotReady"
  }

  lemma PublishedIsRight(i: Inputs, info: Info, was: Status, now: Time)
    ensures VerdictOf(i).Some? <==> Reaches(i) || NoImage(i) || Broken(i)
    ensures VerdictOf(i).Some? ==> StatusRight(i, info, was, Marked(was, VerdictOf(i).value, info, now))
  {
    if VerdictOf(i).Some? {
      var v := VerdictOf(i).value;
      VerdictSets(v, info);
      FindAfterAll(was.conditions, ConditionsOf(v, info), info.generation, now, Ready);
      FindAfterAll(was.conditions, ConditionsOf(v, info), info.generation, now, ImageResolved);
      FindAfterAll(was.conditions, ConditionsOf(v, info), info.generation, now, Degraded);
    }
  }

  class Workspace {
    var status: Status

    constructor ()
      ensures Healthy(status)
    {
      status := Status(Unset, "", "", None, 0, []);
    }

    /** `patchStatus`: overwrite the fields, set the conditions one by one, send the difference. */
    method PatchStatus(phase: Phase, podName: string, conditions: seq<Condition>, info: Info, now: Time,
                       patchFails: bool)
      returns (ok: bool)
      modifies this
      ensures ok == !patchFails
      ensures status ==
              if patchFails then old(status)
              else old(status).(phase := phase, podName := podName, endpoint := info.endpoint,
                                generation := info.generation,
                                conditions := SetAll(old(status).conditions, conditions, info.generation, now))
    {
      var next := status.(phase := phase, podName := podName);
      next := next.(endpoint := info.endpoint, generation := info.generation);
      var i := 0;
      while i < |conditions|
        invariant 0 <= i <= |conditions|
        invariant SetAll(next.conditions, conditions[i..], info.generation, now)
                  == SetAll(status.conditions, conditions, info.generation, now)
        invariant next == status.(phase := phase, podName := podName, endpoint := info.endpoint,
                    generation := info.generation, conditions := next.conditions)
      {
        assert conditions[i..][1..] == conditions[i + 1..];
        next := next.(conditions := SetCondition(next.conditions, conditions[i].(generation := info.generation), now));
        i := i + 1;
      }
      if patchFails { return false; }
      MergedMeans(status, status, next);
      status := Merged(status, status, next);
      return true;
    }

    /** `markImageNotFound`, `markStorageUnset`, `markDegraded`, `markObserved`. */
    method Mark(v: Verdict, info: Info, now: Time, patchFails: bool) returns (ok: bool)
      modifies this
      ensures ok == !patchFails
      ensures status == if patchFails then old(status) else Marked(old(status), v, info, now)
      ensures ok ==> Healthy(status)
    {
      MarkedIsHealthy(status, v, info, now);
      ok := PatchStatus(PhaseOf(v), PodOf(v, info), ConditionsOf(v, info), info, now, patchFails);
    }

    /** `Reconcile`, with the objects it reads given as inputs; `ok` is a nil error. */
    method Reconcile(i: Inputs, info: Info, now: Time, patchFails: bool) returns (ok: bool)
      modifies this
      ensures status == if VerdictOf(i).None? || patchFails then old(status)
                        else Marked(old(status), VerdictOf(i).value, info, now)
      ensures old(Healthy(status)) ==> Healthy(status)
      ensures if !patchFails && (Reaches(i) || NoImage(i) || Broken(i)) then StatusRight(i, info, old(status), status)
              else status == old(status)
      ensures ok <==> || i.workspace == NotFound || (i.workspace == Found && i.deleting)
                      || (!patchFails && (Reaches(i) || NoImage(i) || (Broken(i) && !i.storageSet)))
    {
      PublishedIsRight(i, info, status, now);
      if i.workspace != Found { return i.workspace == NotFound; }
      if i.deleting { return true; }
      if i.image != Found {
        if i.image == NotFound {
          ok := Mark(ImageMissing, info, now, patchFails);
          return;
        }
        return false;
      }
      if !i.storageSet {
        ok := Mark(StorageUnset, info, now, patchFails);
        return;
      }
      if i.gitSshError.Some? {
        var _ := Mark(ApplyFailed(i.gitSshError.value), info, now, patchFails);
        return false;
      }
      if i.applyError.Some? {
        var _ := Mark(ApplyFailed(i.applyError.value), info, now, patchFails);
        return false;
      }
      if i.statefulSet == LookupFailed { return false; }
      var replicas := if i.statefulSet == Found then i.readyReplicas else 0;
      ok := Mark(Observed(i.running, replicas), info, now, patchFails);
    }

    /** `touchWorkspaceActivity`. */
    method TouchActivity(now: Time, getFails: bool, patchFails: bool) returns (ok: bool)
      modifies this
      ensures ok == (!getFails && !patchFails)
      ensures status == if ok then old(status).(lastActivity := Some(now)) else old(status)
    {
      if getFails || patchFails { return false; }
      MergedMeans(status, status, status.(lastActivity := Some(now)));
      status := Merged(status, status, status.(lastActivity := Some(now)));
      return true;
    }
  }
}
