/** Naming a catalog entry after what a person called it: a DNS label derived from the display name, and a
    numbered one when that is taken. */
module Slug {
  import opened Common
  import opened Text

  const MAX_SLUG := 60
  const SLUG_ATTEMPTS := 10

  predicate IsDash(c: char) { c == '-' }

  predicate SlugChar(c: char) { IsAlnum(c) || c == '-' }

  predicate NoDoubledDash(s: string) { forall i :: 0 <= i < |s| - 1 ==> !(s[i] == '-' && s[i + 1] == '-') }

  /** A DNS label, as section 2.1 of RFC 1123 has it, without its length. */
  predicate LabelShaped(s: string) {
    s != "" && (forall i :: 0 <= i < |s| ==> SlugChar(s[i])) && IsAlnum(s[0]) && IsAlnum(s[|s| - 1])
  }

  predicate IsLabel(s: string) { LabelShaped(s) && |s| <= 63 }

  // ---------------------------------------------------------------- the slug

  /** Alphanumerics kept, any run of other characters after the first of them one dash. */
  function Dashed(s: string): (r: string) {
    if s == "" then "" else
      var init, c := Dashed(s[..|s| - 1]), s[|s| - 1];
      if IsAlnum(c) then init + [c] else if init != "" && init[|init| - 1] != '-' then init + ['-'] else init
  }

  function Cut(s: string): (r: string) { if |s| > MAX_SLUG then s[..MAX_SLUG] else s }

  /** The slug of a text already in lower case. */
  function SlugOf(lowered: string): (r: string) { Trim(Cut(Dashed(lowered)), IsDash) }

  /** `slugify`; `lowered` is the display name after `strings.ToLower`, whatever Unicode makes of it. */
  method Slugify(lowered: string) returns (slug: string)
    ensures slug == SlugOf(lowered)
    ensures slug != "" ==> LabelShaped(slug) && NoDoubledDash(slug) && |slug| <= MAX_SLUG
    ensures slug == "" <==> forall i :: 0 <= i < |lowered| ==> !IsAlnum(lowered[i])
  {
    var out := "";
    var previousDash := false;
    for i := 0 to |lowered|
      invariant out == Dashed(lowered[..i])
      invariant previousDash == (out != "" && out[|out| - 1] == '-')
    {
      assert lowered[..i + 1][..i] == lowered[..i];
      var r := lowered[i];
      if IsAlnum(r) {
        out := out + [r];
        previousDash := false;
      } else if |out| > 0 && !previousDash {
        out := out + ['-'];
        previousDash := true;
      }
    }
    assert lowered[..|lowered|] == lowered;
    if |out| > MAX_SLUG { out := out[..MAX_SLUG]; }
    slug := Trim(out, IsDash);
    SlugIsLabel(lowered);
    EmptyOnlyWithoutLetters(lowered);
  }

  /** Starts well, never doubles a dash. */
  predicate WellDashed(s: string) {
    && (forall i :: 0 <= i < |s| ==> SlugChar(s[i]))
    && NoDoubledDash(s) && (s != "" ==> IsAlnum(s[0]))
  }

  lemma {:induction false} DashedIsWell(s: string)
    ensures WellDashed(Dashed(s))
    ensures Dashed(s) != "" && IsAlnum(Dashed(s)[|Dashed(s)| - 1]) <==> s != "" && IsAlnum(s[|s| - 1])
    ensures Dashed(s) == "" <==> forall i :: 0 <= i < |s| ==> !IsAlnum(s[i])
  {
    if s != "" {
      var init := s[..|s| - 1];
      DashedIsWell(init);
      assert forall i :: 0 <= i < |init| ==> init[i] == s[i];
    }
  }

  /** Of a well-dashed text only one dash at the end can be trimmed. */
  lemma TrimWell(s: string)
    requires WellDashed(s)
    ensures Trim(s, IsDash) == if s != "" && s[|s| - 1] == '-' then s[..|s| - 1] else s
  {
    assert TrimLeft(s, IsDash) == s;
    if s != "" && s[|s| - 1] == '-' {
      var t := s[..|s| - 1];
      assert t != "" && t[|t| - 1] == s[|s| - 2] != '-';
      assert TrimRight(s, IsDash) == TrimRight(t, IsDash) == t;
    }
  }

  lemma CutWell(s: string)
    requires WellDashed(s)
    ensures WellDashed(Cut(s)) && |Cut(s)| <= MAX_SLUG
  {
  }

  /** Every non-empty slug is a label of at most 60 characters with no doubled dash. */
  lemma SlugIsLabel(s: string)
    ensures WellDashed(SlugOf(s)) && |SlugOf(s)| <= MAX_SLUG
    ensures SlugOf(s) != "" ==> LabelShaped(SlugOf(s))
  {
    DashedIsWell(s);
    CutWell(Dashed(s));
    TrimWell(Cut(Dashed(s)));
  }

  lemma EmptyOnlyWithoutLetters(s: string)
    ensures SlugOf(s) == "" <==> forall i :: 0 <= i < |s| ==> !IsAlnum(s[i])
  {
    DashedIsWell(s);
    CutWell(Dashed(s));
    TrimWell(Cut(Dashed(s)));
  }

  // ---------------------------------------------------------------- what a slug keeps

  predicate EndsAlnum(s: string) { s != "" && IsAlnum(s[|s| - 1]) }

  /** One more character: it continues the last word, begins one, or belongs to none. */
  function AddChar(w: seq<string>, inWord: bool, c: char): (r: seq<string>) {
    if !IsAlnum(c) then w
    else if inWord && w != [] then w[..|w| - 1] + [w[|w| - 1] + [c]]
    else w + [[c]]
  }

  /** The maximal runs of alphanumerics. */
  function Words(s: string): (w: seq<string>) {
    if s == "" then [] else AddChar(Words(s[..|s| - 1]), EndsAlnum(s[..|s| - 1]), s[|s| - 1])
  }

  lemma WordsOfOneMore(s: string, c: char)
    ensures Words(s + [c]) == AddChar(Words(s), EndsAlnum(s), c)
  {
    assert (s + [c])[..|s + [c]| - 1] == s;
  }

  lemma DashedOneMore(s: string, c: char)
    ensures var d := Dashed(s);
            Dashed(s + [c]) == if IsAlnum(c) then d + [c] else if d != "" && d[|d| - 1] != '-' then d + ['-'] else d
  {
    assert (s + [c])[..|s + [c]| - 1] == s;
  }

  lemma DashedEnds(s: string)
    ensures EndsAlnum(Dashed(s)) <==> EndsAlnum(s)
  {
    DashedIsWell(s);
  }

  lemma WordsStayAlike(s: string, d: string, e: string, c: char)
    requires Words(d) == Words(s) && EndsAlnum(d) == EndsAlnum(s)
    requires e == if IsAlnum(c) then d + [c] else if d != "" && d[|d| - 1] != '-' then d + ['-'] else d
    ensures Words(e) == Words(s + [c])
  {
    WordsOfOneMore(s, c);
    if e != d { WordsOfOneMore(d, if IsAlnum(c) then c else '-'); }
  }

  lemma {:induction false} DashedKeepsWords(s: string)
    ensures Words(Dashed(s)) == Words(s)
  {
    if s != "" {
      var init, c := s[..|s| - 1], s[|s| - 1];
      assert s == init + [c];
      DashedKeepsWords(init);
      DashedEnds(init);
      DashedOneMore(init, c);
      WordsStayAlike(init, Dashed(init), Dashed(s), c);
    }
  }

  lemma DashEndsNoWord(s: string)
    requires s != "" && s[|s| - 1] == '-'
    ensures Words(s[..|s| - 1]) == Words(s)
  {
    assert s == s[..|s| - 1] + ['-'];
    WordsOfOneMore(s[..|s| - 1], '-');
  }

  /** A slug is a prefix of the dashed name, and short enough it has exactly the words of the name, in
      order. */
  lemma SlugKeepsWords(s: string)
    ensures SlugOf(s) <= Dashed(s)
    ensures |Dashed(s)| <= MAX_SLUG ==> Words(SlugOf(s)) == Words(s)
  {
    DashedIsWell(s);
    CutWell(Dashed(s));
    TrimWell(Cut(Dashed(s)));
    DashedKeepsWords(s);
    var d := Dashed(s);
    if d != "" && d[|d| - 1] == '-' { DashEndsNoWord(d); }
  }

  lemma {:induction false} DashedFixes(s: string)
    requires WellDashed(s)
    ensures Dashed(s) == s
  {
    if s != "" {
      var init, c := s[..|s| - 1], s[|s| - 1];
      DashedFixes(init);
      assert s == init + [c];
      if c == '-' { assert init != "" && init[|init| - 1] == s[|s| - 2] != '-'; }
    }
  }

  /** Slugging is idempotent, for every lower-casing that leaves ASCII lower case alone. */
  lemma SlugIdempotent(lower: string -> string, name: string)
    requires forall s :: (forall i :: 0 <= i < |s| ==> SlugChar(s[i])) ==> lower(s) == s
    ensures SlugOf(lower(SlugOf(lower(name)))) == SlugOf(lower(name))
  {
    var slug := SlugOf(lower(name));
    SlugIsLabel(lower(name));
    assert lower(slug) == slug;
    DashedFixes(slug);
    TrimWell(slug);
  }

  // ---------------------------------------------------------------- collision candidates

  function Candidate(base: string, attempt: nat): (r: string) {
    if attempt > 1 then base + "-" + Itoa(attempt) else base
  }

  lemma ItoaLength(n: nat)
    requires n <= SLUG_ATTEMPTS
    ensures 1 <= |Itoa(n)| <= 2
  {
  }

  /** The ten candidates are labels of at most 63 characters, with no doubled dash, and all different. */
  lemma CandidatesAreLabels(base: string, i: nat)
    requires LabelShaped(base) && NoDoubledDash(base) && |base| <= MAX_SLUG && 1 <= i <= SLUG_ATTEMPTS
    ensures IsLabel(Candidate(base, i)) && NoDoubledDash(Candidate(base, i))
  {
    ItoaMeans(i);
    ItoaLength(i);
    var d := Itoa(i);
    assert IsDigit(d[0]) && IsDigit(d[|d| - 1]);
    if i > 1 {
      var c := Candidate(base, i);
      assert c == base + ("-" + d);
      assert forall k :: 0 <= k < |c| ==>
          c[k] == if k < |base| then base[k] else if k == |base| then '-' else d[k - |base| - 1];
    }
  }

  /** The first candidate is the slug itself, the others are numbered from two. */
  lemma CandidateMeans(base: string, i: nat)
    requires i >= 1
    ensures i == 1 ==> Candidate(base, i) == base
    ensures i > 1 ==> exists d :: Candidate(base, i) == base + "-" + d && d != "" && AllDigits(d) && Value(d) == i
  {
    ItoaMeans(i);
  }

  lemma CandidatesDiffer(base: string, i: nat, j: nat)
    requires 1 <= i < j
    ensures Candidate(base, i) != Candidate(base, j)
  {
    ItoaMeans(i);
    ItoaMeans(j);
    assert i > 1 ==> Candidate(base, i)[|base| + 1..] == Itoa(i);
    assert Candidate(base, j)[|base| + 1..] == Itoa(j);
  }

  // ---------------------------------------------------------------- taking a free name

  datatype Image = Image(name: string, spec: string)

  type Catalog = map<string, Image>

  datatype Outcome = Created(name: string) | Unusable | NoFreeName | Failed(attempt: nat)

  /** Attempt `k` comes to an end of the search: the name is free, or the call fails for another reason. */
  predicate Settles(m: Catalog, base: string, faults: set<nat>, k: nat) { k in faults || Candidate(base, k) !in m }

  ghost predicate FirstSettled(m: Catalog, base: string, faults: set<nat>, k: nat) {
    1 <= k <= SLUG_ATTEMPTS && Settles(m, base, faults, k) && forall j :: 1 <= j < k ==> !Settles(m, base, faults, j)
  }

  /** What a creation may do: take the first free candidate, or nothing at all. */
  ghost predicate CreatesAs(m: Catalog, image: Image, lowered: string, faults: set<nat>, r: Catalog, o: Outcome) {
    var base := SlugOf(lowered);
    match o
    case Unusable => r == m && base == ""
    case NoFreeName => r == m && base != "" && forall k :: 1 <= k <= SLUG_ATTEMPTS ==> !Settles(m, base, faults, k)
    case Failed(k) => r == m && base != "" && FirstSettled(m, base, faults, k) && k in faults
    case Created(n) => && base != "" && n !in m && r == m[n := image.(name := n)]
                       && exists k :: FirstSettled(m, base, faults, k) && k !in faults && n == Candidate(base, k)
  }

  class Api {
    var entries: Catalog

    /** `createWithSlug`. `faults` are the attempts at which the API server refuses for a reason other than
        a taken name. */
    method CreateWithSlug(image: Image, lowered: string, faults: set<nat>) returns (o: Outcome)
      modifies this
      ensures CreatesAs(old(entries), image, lowered, faults, entries, o)
    {
      var base := Slugify(lowered);
      if base == "" { return Unusable; }
      var entry := image;
      for attempt := 1 to SLUG_ATTEMPTS + 1
        invariant entries == old(entries)
        invariant forall j :: 1 <= j < attempt ==> !Settles(entries, base, faults, j)
        invariant entry.spec == image.spec
      {
        entry := entry.(name := base);
        if attempt > 1 { entry := entry.(name := base + "-" + Itoa(attempt)); }
        assert entry.name == Candidate(base, attempt);
        if attempt in faults { return Failed(attempt); }
        if entry.name !in entries {
          assert FirstSettled(entries, base, faults, attempt);
          entries := entries[entry.name := entry];
          return Created(entry.name);
        }
      }
      return NoFreeName;
    }
  }

  /** The answer is determined: no two outcomes fit one call. */
  lemma OutcomeUnique(m: Catalog, image: Image, lowered: string, faults: set<nat>, r1: Catalog, o1: Outcome,
                      r2: Catalog, o2: Outcome)
    requires CreatesAs(m, image, lowered, faults, r1, o1) && CreatesAs(m, image, lowered, faults, r2, o2)
    ensures r1 == r2 && o1 == o2
  {
    var base := SlugOf(lowered);
    forall j: nat, k: nat | FirstSettled(m, base, faults, j) && FirstSettled(m, base, faults, k) ensures j == k {
    }
  }

  // ---------------------------------------------------------------- concurrent creations

  /** A creation about to make its `k`-th API call; `tried` is when it made the earlier ones. */
  datatype Attempt = Attempt(image: Image, lowered: string, base: string, k: nat, tried: seq<nat>)

  datatype State = State(entries: Catalog, calls: map<nat, Attempt>, clock: nat)

  /** `fault` is a refusal for a reason other than a taken name. `Outside` is anything others do to the catalog:
      an administrator's edits and deletions, a registry sync that applies and prunes. */
  datatype Event =
    | Begin(id: nat, image: Image, lowered: string)
    | Try(id: nat, fault: bool)
    | Outside(entries: Catalog)

  function Wanted(a: Attempt): string { Candidate(a.base, a.k) }

  /** How a creation ends with this call, or that it goes on. */
  datatype Progress = Ends(outcome: Outcome) | GoesOn

  function Respond(entries: Catalog, a: Attempt, fault: bool): (r: Progress) {
    if fault then Ends(Failed(a.k))
    else if Wanted(a) !in entries then Ends(Created(Wanted(a)))
    else if a.k >= SLUG_ATTEMPTS then Ends(NoFreeName)
    else GoesOn
  }

  /** One API call of one creation, or one act of somebody else; any number of creations take turns. */
  function Step(s: State, e: Event): (r: State) {
    var s' := s.(clock := s.clock + 1);
    match e
    case Outside(entries) => s'.(entries := entries)
    case Begin(id, image, lowered) =>
      if id in s.calls || SlugOf(lowered) == "" then s'
      else s'.(calls := s.calls[id := Attempt(image, lowered, SlugOf(lowered), 1, [])])
    case Try(id, fault) =>
      if id !in s.calls then s' else
        var a := s.calls[id];
        var p := Respond(s.entries, a, fault);
        if p.GoesOn? then s'.(calls := s.calls[id := a.(k := a.k + 1, tried := a.tried + [s.clock])])
        else if !p.outcome.Created? then s'.(calls := s.calls - {id})
        else s'.(entries := s.entries[p.outcome.name := a.image.(name := p.outcome.name)], calls := s.calls - {id})
  }

  function Run(s: State, es: seq<Event>): (r: State) {
    if es == [] then s else Step(Run(s, es[..|es| - 1]), es[|es| - 1])
  }

  lemma {:induction false} ClockCounts(s: State, es: seq<Event>)
    ensures Run(s, es).clock == s.clock + |es|
  {
    if es != [] { ClockCounts(s, es[..|es| - 1]); }
  }

  predicate Sound(a: Attempt) {
    1 <= a.k <= SLUG_ATTEMPTS && a.base == SlugOf(a.lowered) != "" && |a.tried| == a.k - 1
  }

  ghost predicate Inv(s: State) { forall id :: id in s.calls ==> Sound(s.calls[id]) }

  lemma StepKeepsInv(s: State, e: Event)
    requires Inv(s)
    ensures Inv(Step(s, e))
  {
    var r := Step(s, e);
    forall id | id in r.calls ensures Sound(r.calls[id]) {
      if id in s.calls { assert Sound(s.calls[id]); }
    }
  }

  lemma {:induction false} EveryRunKeepsInv(s: State, es: seq<Event>)
    requires Inv(s)
    ensures Inv(Run(s, es))
  {
    if es != [] {
      EveryRunKeepsInv(s, es[..|es| - 1]);
      StepKeepsInv(Run(s, es[..|es| - 1]), es[|es| - 1]);
    }
  }

  // ---------------------------------------------------------------- what each call met

  /** The `j`-th earlier call of this creation was event `t` of the run, and met its candidate taken. */
  ghost predicate MetTaken(s: State, es: seq<Event>, id: nat, base: string, j: nat, t: nat) {
    t < |es| && es[t] == Try(id, false) && Candidate(base, j + 1) in Run(s, es[..t]).entries
  }

  ghost predicate Trail(s: State, es: seq<Event>, id: nat, a: Attempt) {
    && (forall j :: 0 <= j < |a.tried| ==> MetTaken(s, es, id, a.base, j, a.tried[j]))
    && (forall i, j :: 0 <= i < j < |a.tried| ==> a.tried[i] < a.tried[j])
  }

  lemma TrailGrows(s: State, es: seq<Event>, id: nat, a: Attempt)
    requires es != [] && Trail(s, es[..|es| - 1], id, a)
    ensures Trail(s, es, id, a)
  {
    var init := es[..|es| - 1];
    forall j | 0 <= j < |a.tried| ensures MetTaken(s, es, id, a.base, j, a.tried[j]) {
      assert MetTaken(s, init, id, a.base, j, a.tried[j]);
      assert init[..a.tried[j]] == es[..a.tried[j]];
    }
  }

  /** A creation in flight left its trail: each earlier candidate was taken when it was tried, one after the
      other, whatever others did to the catalog in between. */
  lemma {:induction false} EarlierCandidatesWereTaken(s: State, es: seq<Event>, id: nat)
    requires s.calls == map[] && s.clock == 0 && id in Run(s, es).calls
    ensures Sound(Run(s, es).calls[id]) && Trail(s, es, id, Run(s, es).calls[id])
  {
    EveryRunKeepsInv(s, es);
    if es != [] {
      if id in Run(s, es[..|es| - 1]).calls { EarlierCandidatesWereTaken(s, es[..|es| - 1], id); }
      TrailStep(s, es, id);
    }
  }

  lemma TrailStep(s: State, es: seq<Event>, id: nat)
    requires s.clock == 0 && es != [] && id in Run(s, es).calls && Inv(Run(s, es))
    requires var before := Run(s, es[..|es| - 1]);
             id in before.calls ==> Sound(before.calls[id]) && Trail(s, es[..|es| - 1], id, before.calls[id])
    ensures Trail(s, es, id, Run(s, es).calls[id])
  {
    var before := Run(s, es[..|es| - 1]);
    AttemptComesFrom(before, es[|es| - 1], id);
    if id in before.calls {
      TrailGrows(s, es, id, before.calls[id]);
      ClockCounts(s, es[..|es| - 1]);
      if Run(s, es).calls[id] != before.calls[id] { TrailExtends(s, es, id, before.calls[id]); }
    }
  }

  lemma AttemptComesFrom(s: State, e: Event, id: nat)
    requires id in Step(s, e).calls
    ensures var a := Step(s, e).calls[id];
            if id !in s.calls then a.tried == []
            else || a == s.calls[id]
                 || (&& e == Try(id, false) && Wanted(s.calls[id]) in s.entries
                     && a == s.calls[id].(k := s.calls[id].k + 1, tried := s.calls[id].tried + [s.clock]))
  {
  }

  lemma TrailExtends(s: State, es: seq<Event>, id: nat, a: Attempt)
    requires es != [] && es[|es| - 1] == Try(id, false) && Sound(a) && Trail(s, es[..|es| - 1], id, a)
        && Trail(s, es, id, a)
    requires Wanted(a) in Run(s, es[..|es| - 1]).entries
    ensures Trail(s, es, id, a.(k := a.k + 1, tried := a.tried + [|es| - 1]))
  {
    var b := a.(k := a.k + 1, tried := a.tried + [|es| - 1]);
    forall j | 0 <= j < |b.tried| ensures MetTaken(s, es, id, b.base, j, b.tried[j]) {
      if j < |a.tried| { assert MetTaken(s, es, id, a.base, j, a.tried[j]); }
    }
    forall j | 0 <= j < |a.tried| ensures a.tried[j] < |es| - 1 {
      assert MetTaken(s, es[..|es| - 1], id, a.base, j, a.tried[j]);
    }
  }

  /** What a creation's next call does, in any run: it takes its candidate only if that is free at this very
      call, its earlier ones having been taken at theirs; it gives up only after ten taken ones; otherwise it
      changes nothing. */
  lemma EveryCallIsRight(s: State, es: seq<Event>, id: nat, fault: bool)
    requires s.calls == map[] && s.clock == 0 && id in Run(s, es).calls
    ensures var before := Run(s, es);
            var a, r := before.calls[id], Step(before, Try(id, fault)).entries;
            && Sound(a) && Trail(s, es, id, a)
            && match Respond(before.entries, a, fault)
               case Ends(Created(n)) => n == Wanted(a) && n !in before.entries
                   && r == before.entries[n := a.image.(name := n)]
               case Ends(NoFreeName) => a.k == SLUG_ATTEMPTS && Wanted(a) in before.entries && r == before.entries
               case GoesOn =>
                 var after := Step(before, Try(id, fault)).calls;
                 r == before.entries && id in after && after[id].k == a.k + 1 && after[id].base == a.base
               case _ => r == before.entries
  {
    EarlierCandidatesWereTaken(s, es, id);
  }

  // ---------------------------------------------------------------- when a creation is atomic

  /** All the earlier candidates of a creation are still taken. */
  ghost predicate StillTaken(entries: Catalog, a: Attempt) {
    forall j :: 1 <= j < a.k ==> Candidate(a.base, j) in entries
  }

  lemma SettledFirstIff(m: Catalog, a: Attempt, faults: set<nat>)
    requires Sound(a) && faults <= {a.k} && Settles(m, a.base, faults, a.k)
    ensures FirstSettled(m, a.base, faults, a.k) <==> StillTaken(m, a)
  {
    if StillTaken(m, a) {
      forall j | 1 <= j < a.k ensures !Settles(m, a.base, faults, j) { assert Candidate(a.base, j) in m; }
    }
    if FirstSettled(m, a.base, faults, a.k) {
      forall j | 1 <= j < a.k ensures Candidate(a.base, j) in m { assert !Settles(m, a.base, faults, j); }
    }
  }

  lemma NoneSettledIff(m: Catalog, a: Attempt)
    requires Sound(a) && a.k == SLUG_ATTEMPTS && Wanted(a) in m
    ensures (forall j :: 1 <= j <= SLUG_ATTEMPTS ==> !Settles(m, a.base, {}, j)) <==> StillTaken(m, a)
  {
    if StillTaken(m, a) {
      forall j | 1 <= j <= SLUG_ATTEMPTS ensures !Settles(m, a.base, {}, j) { assert Candidate(a.base, j) in m; }
    }
    if forall j :: 1 <= j <= SLUG_ATTEMPTS ==> !Settles(m, a.base, {}, j) {
      forall j | 1 <= j < a.k ensures Candidate(a.base, j) in m { assert !Settles(m, a.base, {}, j); }
    }
  }

  /** Only one attempt has this name. */
  lemma SettledAt(m: Catalog, a: Attempt, k: nat)
    requires Sound(a) && FirstSettled(m, a.base, {}, k) && Candidate(a.base, k) == Wanted(a)
    ensures k == a.k
  {
    if k < a.k { CandidatesDiffer(a.base, k, a.k); }
    if a.k < k { CandidatesDiffer(a.base, a.k, k); }
  }

  /** A creation's last call does what one atomic creation at that moment would do if and only if the
      candidates it had met taken still are. */
  lemma LastCallIsAtomicIff(s: State, id: nat, fault: bool)
    requires Inv(s) && id in s.calls && Respond(s.entries, s.calls[id], fault).Ends?
    ensures var a, r := s.calls[id], Step(s, Try(id, fault)).entries;
            var o := Respond(s.entries, a, fault).outcome;
            CreatesAs(s.entries, a.image, a.lowered, if fault then {a.k} else {}, r, o) <==> StillTaken(s.entries, a)
  {
    var a := s.calls[id];
    assert Sound(a);
    if fault {
      SettledFirstIff(s.entries, a, {a.k});
    } else if Wanted(a) !in s.entries {
      SettledFirstIff(s.entries, a, {});
      forall k | FirstSettled(s.entries, a.base, {}, k) && Candidate(a.base, k) == Wanted(a) ensures k == a.k {
        SettledAt(s.entries, a, k);
      }
    } else {
      NoneSettledIff(s.entries, a);
    }
  }

  ghost predicate OnlyCreations(es: seq<Event>) { forall i :: 0 <= i < |es| ==> !es[i].Outside? }

  ghost predicate AllStillTaken(s: State) { forall id :: id in s.calls ==> StillTaken(s.entries, s.calls[id]) }

  ghost predicate Grows(m: Catalog, r: Catalog) { forall n :: n in m ==> n in r && r[n] == m[n] }

  predicate Succeeds(s: State, e: Event) {
    e.Try? && e.id in s.calls && !e.fault && Wanted(s.calls[e.id]) !in s.entries
  }

  lemma StepGrows(s: State, e: Event)
    requires !e.Outside?
    ensures Grows(s.entries, Step(s, e).entries)
    ensures |Step(s, e).entries| == |s.entries| + if Succeeds(s, e) then 1 else 0
  {
    if Succeeds(s, e) {
      var n := Wanted(s.calls[e.id]);
      OneMore(s.entries, n, s.calls[e.id].image.(name := n));
    }
  }

  lemma OneMore(m: Catalog, n: string, image: Image)
    requires n !in m
    ensures Grows(m, m[n := image]) && |m[n := image]| == |m| + 1
  {
    assert m[n := image].Keys == m.Keys + {n};
  }

  lemma TakenStays(m: Catalog, r: Catalog, a: Attempt, t: nat)
    requires StillTaken(m, a) && Grows(m, r)
    ensures StillTaken(r, a)
    ensures Wanted(a) in r ==> StillTaken(r, a.(k := a.k + 1, tried := a.tried + [t]))
  {
  }

  lemma StepStaysTaken(s: State, e: Event)
    requires AllStillTaken(s) && !e.Outside?
    ensures AllStillTaken(Step(s, e))
  {
    var r := Step(s, e);
    StepGrows(s, e);
    forall id | id in r.calls ensures StillTaken(r.entries, r.calls[id]) {
      if id in s.calls { TakenStays(s.entries, r.entries, s.calls[id], s.clock); }
    }
  }

  lemma {:induction false} RunStaysTaken(s: State, es: seq<Event>)
    requires AllStillTaken(s) && OnlyCreations(es)
    ensures AllStillTaken(Run(s, es))
  {
    if es != [] {
      RunStaysTaken(s, es[..|es| - 1]);
      StepStaysTaken(Run(s, es[..|es| - 1]), es[|es| - 1]);
    }
  }

  /** So among creations alone each is atomic at its last call, however their API calls interleave: it takes
      the first candidate free in the catalog of that moment, or changes nothing. */
  lemma CreationsAreAtomic(s: State, es: seq<Event>, id: nat, fault: bool)
    requires Inv(s) && AllStillTaken(s) && OnlyCreations(es)
    requires id in Run(s, es).calls && Respond(Run(s, es).entries, Run(s, es).calls[id], fault).Ends?
    ensures var before := Run(s, es);
            var a, r := before.calls[id], Step(before, Try(id, fault)).entries;
            CreatesAs(before.entries, a.image, a.lowered, if fault then {a.k} else {}, r,
                      Respond(before.entries, a, fault).outcome)
  {
    EveryRunKeepsInv(s, es);
    RunStaysTaken(s, es);
    LastCallIsAtomicIff(Run(s, es), id, fault);
  }

  // ---------------------------------------------------------------- what creations never do

  /** Others leave this name alone. */
  ghost predicate LeftAlone(s: State, es: seq<Event>, n: string) {
    es != [] ==>
      && LeftAlone(s, es[..|es| - 1], n)
      && (es[|es| - 1].Outside? ==> AtName(es[|es| - 1].entries, n) == AtName(Run(s, es[..|es| - 1]).entries, n))
  }

  function AtName(m: Catalog, n: string): Option<Image> { if n in m then Some(m[n]) else None }

  /** No creation alters or removes an entry: one that others leave alone is as it was after every run. */
  lemma {:induction false} EntriesPersist(s: State, es: seq<Event>, n: string)
    requires n in s.entries && LeftAlone(s, es, n)
    ensures n in Run(s, es).entries && Run(s, es).entries[n] == s.entries[n]
  {
    if es != [] {
      EntriesPersist(s, es[..|es| - 1], n);
      if !es[|es| - 1].Outside? {
        StepGrows(Run(s, es[..|es| - 1]), es[|es| - 1]);
      }
    }
  }

  function Successes(s: State, es: seq<Event>): nat {
    if es == [] then 0
    else Successes(s, es[..|es| - 1]) + if Succeeds(Run(s, es[..|es| - 1]), es[|es| - 1]) then 1 else 0
  }

  /** Each success adds exactly one entry. */
  lemma {:induction false} SuccessesAddUp(s: State, es: seq<Event>)
    requires OnlyCreations(es)
    ensures |Run(s, es).entries| == |s.entries| + Successes(s, es)
  {
    if es != [] {
      SuccessesAddUp(s, es[..|es| - 1]);
      StepGrows(Run(s, es[..|es| - 1]), es[|es| - 1]);
    }
  }

  ghost predicate Usable(m: Catalog) { forall n :: n in m ==> IsLabel(n) && m[n].name == n }

  lemma StepAddsLabel(s: State, e: Event)
    requires Inv(s) && Usable(s.entries) && !e.Outside?
    ensures Usable(Step(s, e).entries)
  {
    if Succeeds(s, e) {
      var a := s.calls[e.id];
      assert Sound(a);
      SlugIsLabel(a.lowered);
      CandidatesAreLabels(a.base, a.k);
    }
  }

  /** Every name stays a label that its object carries, as far as creations are concerned. */
  lemma {:induction false} NamesStayUsable(s: State, es: seq<Event>)
    requires Inv(s) && Usable(s.entries) && forall i :: 0 <= i < |es| && es[i].Outside? ==> Usable(es[i].entries)
    ensures Usable(Run(s, es).entries)
  {
    if es != [] {
      NamesStayUsable(s, es[..|es| - 1]);
      EveryRunKeepsInv(s, es[..|es| - 1]);
      if !es[|es| - 1].Outside? { StepAddsLabel(Run(s, es[..|es| - 1]), es[|es| - 1]); }
    }
  }
}
