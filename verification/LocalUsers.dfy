/** Local login accounts, kept as Secrets whose names are derived from the username. */
module LocalUsers {
  import opened Common
  import opened MergePatch
  import opened Text

  // ---------------------------------------------------------------- naming

  const SECRET_PREFIX := "dwpk-local-user-"
  const MAX_NAME := 253

  predicate IsSeparator(c: char) { c == '-' || c == '.' }
  predicate IsNameChar(c: char) { IsAlnum(c) || IsSeparator(c) }

  function SanitiseChar(c: char): (r: char) { if IsNameChar(c) then c else '-' }

  function Sanitised(raw: string): (r: string) { Trim(Map(Lower(TrimSpace(raw)), SanitiseChar), IsSeparator) }

  /** `sanitiseName`, rune by rune. */
  method SanitiseName(raw: string) returns (r: string)
    ensures r == Sanitised(raw)
  {
    var lowered := Lower(TrimSpace(raw));
    var out := "";
    for i := 0 to |lowered|
      invariant |out| == i && forall j :: 0 <= j < i ==> out[j] == SanitiseChar(lowered[j])
    {
      if IsAlnum(lowered[i]) || lowered[i] == '-' || lowered[i] == '.' {
        out := out + [lowered[i]];
      } else {
        out := out + ['-'];
      }
    }
    MapAt(lowered, SanitiseChar);
    assert Map(lowered, SanitiseChar) == out;
    return Trim(out, IsSeparator);
  }

  /** The name before it is cut to length; `digest` is the first eight hex digits of the SHA-256. */
  function LongName(sanitised: string, username: string, digest: string): (r: string) {
    if sanitised != Lower(username) || sanitised == "" then SECRET_PREFIX + sanitised + "-" + digest
    else SECRET_PREFIX + sanitised
  }

  function Fitted(name: string): (r: string) {
    Trim(if |name| > MAX_NAME then name[..MAX_NAME] else name, IsSeparator)
  }

  /** `LocalUserSecretName`. */
  function SecretName(username: string, digest: string -> string): (r: string) {
    Fitted(LongName(Sanitised(username), username, digest(username)))
  }

  predicate NameLike(s: string) { forall i :: 0 <= i < |s| ==> IsNameChar(s[i]) }

  lemma SanitisedIsNameLike(raw: string)
    ensures NameLike(Sanitised(raw))
  {
    var lowered := Lower(TrimSpace(raw));
    MapAt(lowered, SanitiseChar);
    var s := Map(lowered, SanitiseChar);
    TrimMeans(s, IsSeparator);
  }

  lemma FittedIsUsable(name: string)
    requires NameLike(name) && name != "" && IsAlnum(name[0])
    ensures var n := Fitted(name); 0 < |n| <= MAX_NAME && NameLike(n) && IsAlnum(n[0]) && IsAlnum(n[|n| - 1])
  {
    var cut := if |name| > MAX_NAME then name[..MAX_NAME] else name;
    assert NameLike(cut);
    TrimMeans(cut, IsSeparator);
    var i, j :| 0 <= i <= j <= |cut| && Fitted(name) == cut[i..j]
                && (i < j ==> !IsSeparator(cut[i]) && !IsSeparator(cut[j - 1]))
                && forall k :: (0 <= k < i || j <= k < |cut|) ==> IsSeparator(cut[k]);
    assert !IsSeparator(cut[0]);
    assert i == 0 < j;
  }

  ghost predicate HexDigest(d: string) { |d| == 8 && forall i :: 0 <= i < 8 ==> IsAlnum(d[i]) }

  /** Whatever the username, its Secret name is made of name characters, begins and ends alphanumeric, and
      fits the limit. */
  lemma SecretNameIsNameLike(username: string, digest: string -> string)
    requires HexDigest(digest(username))
    ensures var n := SecretName(username, digest);
            0 < |n| <= MAX_NAME && NameLike(n) && IsAlnum(n[0]) && IsAlnum(n[|n| - 1])
  {
    SanitisedIsNameLike(username);
    assert NameLike(SECRET_PREFIX) && IsAlnum(SECRET_PREFIX[0]);
    FittedIsUsable(LongName(Sanitised(username), username, digest(username)));
  }

  /** Every dot stands between two alphanumerics. */
  predicate DotsApart(s: string) {
    forall i :: 0 <= i < |s| && s[i] == '.' ==> 0 < i < |s| - 1 && IsAlnum(s[i - 1]) && IsAlnum(s[i + 1])
  }

  /** A name the API server accepts: labels joined by single dots, each alphanumeric at both ends (section 2.1
      of RFC 1123). */
  predicate IsSubdomain(s: string) {
    0 < |s| <= MAX_NAME && NameLike(s) && IsAlnum(s[0]) && IsAlnum(s[|s| - 1]) && DotsApart(s)
  }

  const ROOM := MAX_NAME - |SECRET_PREFIX|

  /** What is left of the username in its Secret name: its sanitised form, as far as there is room. */
  function Kept(username: string): (r: string) {
    var s := Sanitised(username);
    Trim(if |s| > ROOM then s[..ROOM] else s, IsSeparator)
  }

  lemma SanitisedEnds(raw: string)
    ensures Sanitised(raw) != "" ==> IsAlnum(Sanitised(raw)[0]) && IsAlnum(Sanitised(raw)[|Sanitised(raw)| - 1])
  {
    SanitisedIsNameLike(raw);
    TrimMeans(Map(Lower(TrimSpace(raw)), SanitiseChar), IsSeparator);
  }

  /** The name is the prefix, what is kept, and at most a dash and part of the digest. */
  lemma NameParts(username: string, digest: string -> string) returns (tail: string)
    requires HexDigest(digest(username))
    ensures SecretName(username, digest) == SECRET_PREFIX + Kept(username) + tail
    ensures forall i :: 0 <= i < |tail| ==> tail[i] != '.'
    ensures Kept(username) != "" ==> IsAlnum(Kept(username)[0]) && IsAlnum(Kept(username)[|Kept(username)| - 1])
  {
    var s, d := Sanitised(username), digest(username);
    SanitisedIsNameLike(username);
    SanitisedEnds(username);
    var ending := if s != Lower(username) || s == "" then "-" + d else "";
    assert LongName(s, username, d) == SECRET_PREFIX + (s + ending);
    if |s| > ROOM {
      LongParts(s, ending);
      tail := "";
    } else {
      TrimTrimmed(s, IsSeparator);
      tail := ShortParts(s, ending);
    }
  }

  lemma LongParts(s: string, ending: string)
    requires |s| > ROOM && NameLike(s) && IsAlnum(s[0])
    ensures var k := Trim(s[..ROOM], IsSeparator);
            Fitted(SECRET_PREFIX + (s + ending)) == SECRET_PREFIX + k && k != "" && IsAlnum(k[0]) && IsAlnum(k[|k| - 1])
  {
    var x := s[..ROOM];
    var name := SECRET_PREFIX + (s + ending);
    assert name[..MAX_NAME] == SECRET_PREFIX + x;
    assert name[0] == SECRET_PREFIX[0] && x[0] == s[0];
    assert TrimLeft(SECRET_PREFIX + x, IsSeparator) == SECRET_PREFIX + x && TrimLeft(x, IsSeparator) == x;
    TrimRightAfter(SECRET_PREFIX, x, IsSeparator);
    TrimRightMeans(x, IsSeparator);
  }

  lemma ShortParts(s: string, ending: string) returns (tail: string)
    requires |s| <= ROOM && NameLike(s) && (s != "" ==> IsAlnum(s[0]) && IsAlnum(s[|s| - 1]))
    requires ending == "" || (|ending| == 9 && ending[0] == '-' && forall i :: 1 <= i < 9 ==> IsAlnum(ending[i]))
    requires s == "" ==> ending != ""
    ensures Fitted(SECRET_PREFIX + (s + ending)) == SECRET_PREFIX + s + tail
    ensures forall i :: 0 <= i < |tail| ==> tail[i] != '.'
  {
    var name := SECRET_PREFIX + (s + ending);
    var room := MAX_NAME - |SECRET_PREFIX + s|;
    var y := if |ending| > room then ending[..room] else ending;
    assert (if |name| > MAX_NAME then name[..MAX_NAME] else name) == SECRET_PREFIX + s + y;
    var cut, whole := SECRET_PREFIX + s + y, SECRET_PREFIX + s;
    assert whole[0] == SECRET_PREFIX[0] == cut[0] && |SECRET_PREFIX| == 16;
    assert s != "" ==> whole[|whole| - 1] == s[|s| - 1];
    if |y| == 1 {
      tail := "";
      assert cut == whole + "-";
      TrimOneDash(whole);
    } else {
      tail := y;
      assert y != "" ==> cut[|cut| - 1] == y[|y| - 1];
      assert y == "" ==> cut == whole;
      TrimTrimmed(cut, IsSeparator);
    }
    assert whole + tail == SECRET_PREFIX + s + tail;
  }

  lemma TrimOneDash(t: string)
    requires t != "" && IsAlnum(t[0]) && IsAlnum(t[|t| - 1])
    ensures Trim(t + "-", IsSeparator) == t
  {
    var d := t + "-";
    assert d[0] == t[0] && d[..|d| - 1] == t && d[|d| - 1] == '-';
    assert TrimLeft(d, IsSeparator) == d;
    assert TrimRight(d, IsSeparator) == TrimRight(t, IsSeparator) == t;
  }

  lemma DotsBetween(a: string, k: string, b: string)
    requires (forall i :: 0 <= i < |a| ==> a[i] != '.') && (forall i :: 0 <= i < |b| ==> b[i] != '.')
    requires k != "" ==> IsAlnum(k[0]) && IsAlnum(k[|k| - 1])
    ensures DotsApart(a + k + b) <==> DotsApart(k)
  {
    var s := a + k + b;
    assert forall i :: 0 <= i < |k| ==> s[|a| + i] == k[i];
    if DotsApart(s) {
      forall i | 0 <= i < |k| && k[i] == '.' ensures 0 < i < |k| - 1 && IsAlnum(k[i - 1]) && IsAlnum(k[i + 1]) {
        assert s[|a| + i] == '.' && s[|a| + i - 1] == k[i - 1] && s[|a| + i + 1] == k[i + 1];
      }
    }
    if DotsApart(k) {
      forall i | 0 <= i < |s| && s[i] == '.' ensures 0 < i < |s| - 1 && IsAlnum(s[i - 1]) && IsAlnum(s[i + 1]) {
        assert |a| <= i < |a| + |k|;
        assert k[i - |a|] == '.';
      }
    }
  }

  /** The API server accepts the name of a username if and only if in what is kept of it every dot stands
      between two alphanumerics: "a..b" has none. */
  lemma SecretNameIsUsableIff(username: string, digest: string -> string)
    requires HexDigest(digest(username))
    ensures IsSubdomain(SecretName(username, digest)) <==> DotsApart(Kept(username))
  {
    SecretNameIsNameLike(username, digest);
    var tail := NameParts(username, digest);
    SubdomainIff(SecretName(username, digest), Kept(username), tail);
  }

  lemma SubdomainIff(n: string, kept: string, tail: string)
    requires 0 < |n| <= MAX_NAME && NameLike(n) && IsAlnum(n[0]) && IsAlnum(n[|n| - 1])
    requires n == SECRET_PREFIX + kept + tail && forall i :: 0 <= i < |tail| ==> tail[i] != '.'
    requires kept != "" ==> IsAlnum(kept[0]) && IsAlnum(kept[|kept| - 1])
    ensures IsSubdomain(n) <==> DotsApart(kept)
  {
    assert forall i :: 0 <= i < |SECRET_PREFIX| ==> SECRET_PREFIX[i] != '.';
    DotsBetween(SECRET_PREFIX, kept, tail);
  }

  /** A username of name characters with alphanumeric ends, once lower-cased. */
  predicate PlainUser(u: string) {
    && u != "" && (forall i :: 0 <= i < |u| ==> IsNameChar(LowerChar(u[i])))
    && IsAlnum(LowerChar(u[0])) && IsAlnum(LowerChar(u[|u| - 1]))
  }

  /** Such a username needs no change beyond lower-casing and carries no digest. */
  lemma PlainName(u: string, digest: string -> string)
    requires PlainUser(u)
    ensures SecretName(u, digest) == Fitted(SECRET_PREFIX + Lower(u))
  {
    TrimTrimmed(u, IsSpace);
    MapAt(u, LowerChar);
    MapAt(Lower(u), SanitiseChar);
    assert Map(Lower(u), SanitiseChar) == Lower(u);
    TrimTrimmed(Lower(u), IsSeparator);
  }

  /** So the names are not injective: plain usernames that differ only in case share one. */
  lemma NamesCollide(u: string, v: string, digest: string -> string)
    requires PlainUser(u) && EqualFold(u, v)
    ensures SecretName(u, digest) == SecretName(v, digest)
  {
    MapAt(u, LowerChar);
    MapAt(v, LowerChar);
    assert forall i :: 0 <= i < |u| ==> LowerChar(v[i]) == Lower(u)[i] == LowerChar(u[i]);
    PlainName(u, digest);
    PlainName(v, digest);
  }

  lemma SimpleName(u: string, digest: string -> string)
    requires PlainUser(u) && |u| <= ROOM
    ensures SecretName(u, digest) == SECRET_PREFIX + Lower(u)
  {
    PlainName(u, digest);
    MapAt(u, LowerChar);
    var n := SECRET_PREFIX + Lower(u);
    assert n[0] == SECRET_PREFIX[0] && n[|n| - 1] == Lower(u)[|u| - 1];
    TrimTrimmed(n, IsSeparator);
  }

  /** Sanitising changed this username, and it leaves room for the digest. */
  ghost predicate Changed(u: string, digest: string -> string) {
    && HexDigest(digest(u)) && (Sanitised(u) != Lower(u) || Sanitised(u) == "") && |Sanitised(u)| <= ROOM - 9
  }

  /** Such a username carries its digest. */
  lemma ChangedCarriesDigest(u: string, digest: string -> string)
    requires Changed(u, digest)
    ensures SecretName(u, digest) == SECRET_PREFIX + Sanitised(u) + "-" + digest(u)
  {
    var n := SECRET_PREFIX + Sanitised(u) + "-" + digest(u);
    assert n[0] == SECRET_PREFIX[0] && n[|n| - 1] == digest(u)[7];
    TrimTrimmed(n, IsSeparator);
  }

  /** So it shares its name neither with the plain username it was changed to, nor with another changed one of a
      different digest. */
  lemma ChangedNamesDiffer(u: string, v: string, digest: string -> string)
    requires Changed(u, digest)
    ensures PlainUser(v) && Lower(v) == Sanitised(u) ==> SecretName(u, digest) != SecretName(v, digest)
    ensures Changed(v, digest) && digest(u) != digest(v) ==> SecretName(u, digest) != SecretName(v, digest)
  {
    ChangedCarriesDigest(u, digest);
    if PlainUser(v) && Lower(v) == Sanitised(u) {
      MapAt(v, LowerChar);
      SimpleName(v, digest);
    }
    if Changed(v, digest) {
      ChangedCarriesDigest(v, digest);
      LastEight(SECRET_PREFIX + Sanitised(u) + "-", digest(u));
      LastEight(SECRET_PREFIX + Sanitised(v) + "-", digest(v));
    }
  }

  lemma LastEight(a: string, d: string)
    requires |d| == 8
    ensures (a + d)[|a + d| - 8..] == d
  {
  }

  /** Plain usernames of at most 237 characters share a Secret name if and only if they differ in case only. */
  lemma NamesCollideIff(u: string, v: string, digest: string -> string)
    requires PlainUser(u) && PlainUser(v) && |u| <= ROOM && |v| <= ROOM
    ensures SecretName(u, digest) == SecretName(v, digest) <==> EqualFold(u, v)
  {
    SimpleName(u, digest);
    SimpleName(v, digest);
    var n, k := SECRET_PREFIX + Lower(u), SECRET_PREFIX + Lower(v);
    assert n[|SECRET_PREFIX|..] == Lower(u) && k[|SECRET_PREFIX|..] == Lower(v);
  }

  // ---------------------------------------------------------------- stored accounts

  datatype Field = Username | PasswordHash | Owner

  /** bcrypt is symbolic: a hash verifies exactly the password it was made from. */
  datatype Value = Plain(s: string) | Bcrypt(password: string, salt: nat)

  type Record = map<Field, Value>
  type Accounts = map<string, Record>

  function NewRecord(username: string, hash: Value, owner: string): Record {
    map[Username := Plain(username), PasswordHash := hash, Owner := Plain(owner)]
  }

  predicate HasUsername(r: Record, username: string) { Username in r && r[Username] == Plain(username) }

  predicate Taken(m: Accounts, username: string) { exists n :: n in m && HasUsername(m[n], username) }

  // ---------------------------------------------------------------- concurrent edits

  /** A request between the store's list and its one write. */
  datatype Pending =
    | Creating(username: string, hash: Value, owner: string)
    | Rehashing(secret: string, seen: Record, hash: Value)

  datatype State = State(accounts: Accounts, pending: map<nat, Pending>)

  datatype Event =
    | BeginCreate(id: nat, username: string, password: string, salt: nat, owner: string)
    | BeginPassword(id: nat, secret: string, password: string, salt: nat)
    | Commit(id: nat)
    | Delete(secret: string)

  /** The username is trimmed before anything else; `name` derives Secret names, and may be any function. */
  ghost function Step(s: State, e: Event, name: string -> string): (r: State) {
    match e
    case BeginCreate(id, username, password, salt, owner) =>
      if id in s.pending || username == "" || Taken(s.accounts, username) then s
      else s.(pending := s.pending[id := Creating(username, Bcrypt(password, salt), owner)])
    case BeginPassword(id, secret, password, salt) =>
      if id in s.pending || secret !in s.accounts then s
      else s.(pending := s.pending[id := Rehashing(secret, s.accounts[secret], Bcrypt(password, salt))])
    case Commit(id) =>
      if id !in s.pending then s else State(Committed(s.accounts, s.pending[id], name), s.pending - {id})
    case Delete(secret) => s.(accounts := s.accounts - {secret})
  }

  /** The write: a create is refused when the name is taken, a patch when the Secret is gone; the patch
      carries the difference to the record that was read. */
  function Committed(m: Accounts, p: Pending, name: string -> string): (r: Accounts) {
    match p
    case Creating(username, hash, owner) =>
      if name(username) in m then m else m[name(username) := NewRecord(username, hash, owner)]
    case Rehashing(secret, seen, hash) =>
      if secret !in m then m else m[secret := Apply(m[secret], Diff(seen, seen[PasswordHash := hash]))]
  }

  ghost function Run(s: State, es: seq<Event>, name: string -> string): (r: State) {
    if es == [] then s else Step(Run(s, es[..|es| - 1], name), es[|es| - 1], name)
  }

  /** Every account sits under the name its username derives. */
  predicate NamedAfterUser(n: string, r: Record, name: string -> string) {
    Username in r && r[Username].Plain? && name(r[Username].s) == n
  }

  ghost predicate Inv(s: State, name: string -> string) {
    AllNamedAfterUser(s.accounts, name)
  }

  ghost predicate UsernamesDistinct(m: Accounts) {
    forall n, k, u :: n in m && k in m && HasUsername(m[n], u) && HasUsername(m[k], u) ==> n == k
  }

  lemma PasswordPatchKeepsUsername(current: Record, seen: Record, hash: Value)
    ensures var r := Apply(current, Diff(seen, seen[PasswordHash := hash]));
            && (Username in r <==> Username in current) && (Username in current ==> r[Username] == current[Username])
            && (Owner in r <==> Owner in current) && (Owner in current ==> r[Owner] == current[Owner])
  {
    DiffIsLocal(seen, seen[PasswordHash := hash], current, Username);
    DiffIsLocal(seen, seen[PasswordHash := hash], current, Owner);
  }

  /** In every interleaving of list and create steps, with deletions and password changes, no two stored
      accounts share a username, although two usernames may share a Secret name. */
  lemma {:induction false} UsernamesStayDistinct(s: State, es: seq<Event>, name: string -> string)
    requires Inv(s, name)
    ensures Inv(Run(s, es, name), name) && UsernamesDistinct(Run(s, es, name).accounts)
  {
    if es != [] {
      var before := Run(s, es[..|es| - 1], name);
      UsernamesStayDistinct(s, es[..|es| - 1], name);
      var e := es[|es| - 1];
      if e.Commit? && e.id in before.pending && before.pending[e.id].Rehashing? {
        var p := before.pending[e.id];
        if p.secret in before.accounts {
          PasswordPatchKeepsUsername(before.accounts[p.secret], p.seen, p.hash);
        }
      }
    }
  }

  function FieldName(f: Field): string {
    match f
    case Username => "username"
    case PasswordHash => "password-hash"
    case Owner => "owner"
  }

  lemma FieldNamesAreInjective()
    ensures Injective(FieldName)
  {
    forall f, g | FieldName(f) == FieldName(g) ensures f == g { assert |FieldName(f)| == |FieldName(g)|; }
  }

  /** What the API server makes of a password patch is what `Committed` says. `enc` writes a value as bytes; it
      has to tell the old hash from the new one, and nothing else. */
  lemma PasswordPatchOnTheWire(current: Record, seen: Record, hash: Value,
                               rest: map<string, Json>, stored: map<string, Json>, enc: Value -> Json)
    requires "data" !in rest && "data" !in stored && Injective(FieldName)
    requires Leafy(enc) && (PasswordHash in seen && enc(seen[PasswordHash]) == enc(hash) ==> seen[PasswordHash] == hash)
    ensures var target := seen[PasswordHash := hash];
            var r := Rewritten(rest, stored, "data", enc, Renamed(seen, FieldName), Renamed(target, FieldName),
                               Renamed(current, FieldName));
            && r.Obj? && r.fields - {"data"} == stored
            && Member(r, "data") == Entries(Renamed(Apply(current, Diff(seen, target)), FieldName), enc)
  {
    assert PasswordHash in seen[PasswordHash := hash];
    NamedPatch(rest, stored, "data", FieldName, enc, seen, seen[PasswordHash := hash], current);
  }

  // ---------------------------------------------------------------- what the steps come to

  /** Nothing but its deletion takes an account away; nothing at all changes its username or owner while it is
      there, and only a password change for its Secret its hash. */
  lemma AccountsPersist(s: State, e: Event, name: string -> string, n: string)
    requires AllNamedAfterUser(s.accounts, name) && n in s.accounts && e != Delete(n)
    ensures var r := Step(s, e, name).accounts;
            && n in r && Username in r[n] && r[n][Username] == s.accounts[n][Username]
            && (Owner in s.accounts[n] <==> Owner in r[n]) && (Owner in r[n] ==> r[n][Owner] == s.accounts[n][Owner])
            && (r[n] != s.accounts[n] ==>
                  && e.Commit? && e.id in s.pending && s.pending[e.id].Rehashing? && s.pending[e.id].secret == n
                  && PasswordHash in r[n] && r[n][PasswordHash] == s.pending[e.id].hash)
  {
    if e.Commit? && e.id in s.pending && s.pending[e.id].Rehashing? && s.pending[e.id].secret == n {
      var p := s.pending[e.id];
      PasswordPatchKeepsUsername(s.accounts[n], p.seen, p.hash);
      OnlyHashPatched(s.accounts[n], p.seen, p.hash);
    }
  }

  lemma OnlyHashPatched(current: Record, seen: Record, hash: Value)
    ensures var r := Apply(current, Diff(seen, seen[PasswordHash := hash]));
            r != current ==> PasswordHash in r && r[PasswordHash] == hash
  {
    var r := Apply(current, Diff(seen, seen[PasswordHash := hash]));
    DiffIsLocal(seen, seen[PasswordHash := hash], current, PasswordHash);
    DiffIsLocal(seen, seen[PasswordHash := hash], current, Username);
    DiffIsLocal(seen, seen[PasswordHash := hash], current, Owner);
    if PasswordHash in seen && seen[PasswordHash] == hash {
      assert Diff(seen, seen[PasswordHash := hash]) == map[];
      assert r == current;
    }
  }

  /** A creation is let through its list exactly with a username that is not empty and not taken, and then adds
      its account exactly if the Secret name is free. */
  lemma CreationLeads(s: State, id: nat, username: string, password: string, salt: nat, owner: string,
                      name: string -> string)
    requires id !in s.pending
    ensures var begun := Step(s, BeginCreate(id, username, password, salt, owner), name);
            var end := Step(begun, Commit(id), name);
            var free := username != "" && !(exists n :: n in s.accounts && HasUsername(s.accounts[n], username));
            && begun.accounts == s.accounts && (id in begun.pending <==> free)
            && end.accounts == if free && name(username) !in s.accounts
                               then s.accounts[name(username) := map[Username := Plain(username),
                                      PasswordHash := Bcrypt(password, salt), Owner := Plain(owner)]]
                               else s.accounts
  {
  }

  // ---------------------------------------------------------------- whose password a patch changes

  /** Every username in play is one of these. */
  predicate RecordFor(r: Record, users: set<string>) { Username in r && r[Username].Plain? && r[Username].s in users }

  predicate PendingFor(p: Pending, users: set<string>, name: string -> string) {
    match p
    case Creating(username, _, _) => username in users
    case Rehashing(secret, seen, _) => RecordFor(seen, users) && NamedAfterUser(secret, seen, name)
  }

  ghost predicate OnlyUsers(s: State, users: set<string>, name: string -> string) {
    && (forall n :: n in s.accounts ==> RecordFor(s.accounts[n], users))
    && (forall id :: id in s.pending ==> PendingFor(s.pending[id], users, name))
  }

  ghost predicate OnlyCreates(es: seq<Event>, users: set<string>) {
    forall i :: 0 <= i < |es| && es[i].BeginCreate? ==> es[i].username in users
  }

  /** Every password change in flight is, if its Secret is still there, for the account it was verified on. */
  ghost predicate Unmixed(s: State) {
    forall id :: id in s.pending && s.pending[id].Rehashing? && s.pending[id].secret in s.accounts ==>
      var p := s.pending[id];
      Username in p.seen && Username in s.accounts[p.secret] && s.accounts[p.secret][Username] == p.seen[Username]
  }

  lemma StepOnlyUsers(s: State, e: Event, name: string -> string, users: set<string>)
    requires Inv(s, name) && OnlyUsers(s, users, name) && (e.BeginCreate? ==> e.username in users)
    ensures OnlyUsers(Step(s, e, name), users, name)
  {
    if e.Commit? && e.id in s.pending && s.pending[e.id].Rehashing? {
      var p := s.pending[e.id];
      if p.secret in s.accounts { PasswordPatchKeepsUsername(s.accounts[p.secret], p.seen, p.hash); }
    }
  }

  /** With Secret names distinct for the usernames in play, no interleaving lets a password change land on
      somebody else's account. */
  lemma {:induction false} DistinctNamesNeverMix(s: State, es: seq<Event>, name: string -> string, users: set<string>)
    requires Inv(s, name) && OnlyUsers(s, users, name) && OnlyCreates(es, users)
    requires forall u, v :: u in users && v in users && name(u) == name(v) ==> u == v
    ensures OnlyUsers(Run(s, es, name), users, name) && Unmixed(Run(s, es, name))
  {
    UsernamesStayDistinct(s, es, name);
    if es != [] {
      DistinctNamesNeverMix(s, es[..|es| - 1], name, users);
      UsernamesStayDistinct(s, es[..|es| - 1], name);
      StepOnlyUsers(Run(s, es[..|es| - 1], name), es[|es| - 1], name, users);
    }
    UnmixedFromNames(Run(s, es, name), name, users);
  }

  lemma UnmixedFromNames(s: State, name: string -> string, users: set<string>)
    requires Inv(s, name) && OnlyUsers(s, users, name)
    requires forall u, v :: u in users && v in users && name(u) == name(v) ==> u == v
    ensures Unmixed(s)
  {
    forall id | id in s.pending && s.pending[id].Rehashing? && s.pending[id].secret in s.accounts
      ensures s.accounts[s.pending[id].secret][Username] == s.pending[id].seen[Username]
    {
      var p := s.pending[id];
      assert PendingFor(p, users, name) && NamedAfterUser(p.secret, s.accounts[p.secret], name);
      assert RecordFor(s.accounts[p.secret], users);
    }
  }

  /** And only then: where two usernames share a Secret name, a change verified on the one account lands on
      the other, created under that name in between. */
  lemma SharedNameMixes(u: string, v: string, owner: string, password: string, salt: nat, name: string -> string)
    requires u != "" && v != "" && u != v && name(u) == name(v)
    ensures var s1 := Step(Step(State(map[], map[]), BeginCreate(1, u, "", salt + 1, owner), name), Commit(1), name);
            var s2 := Step(Step(s1, BeginPassword(2, name(u), password, salt), name), Delete(name(u)), name);
            var s3 := Step(Step(s2, BeginCreate(3, v, "", salt + 1, owner), name), Commit(3), name);
            var end := Step(s3, Commit(2), name).accounts;
            && 2 in s3.pending && s3.pending[2].Rehashing? && HasUsername(s3.pending[2].seen, u)
            && name(v) in end && HasUsername(end[name(v)], v) && Verifies(end[name(v)], password)
  {
    var n, hash := name(u), Bcrypt(password, salt);
    var a, b := NewRecord(u, Bcrypt("", salt + 1), owner), NewRecord(v, Bcrypt("", salt + 1), owner);
    var s0 := Step(State(map[], map[]), BeginCreate(1, u, "", salt + 1, owner), name);
    var s1 := Step(s0, Commit(1), name);
    assert s1.accounts == map[n := a] && s1.pending == map[];
    var s2 := Step(Step(s1, BeginPassword(2, n, password, salt), name), Delete(n), name);
    assert s2.accounts == map[] && s2.pending == map[2 := Rehashing(n, a, hash)];
    var s3 := Step(Step(s2, BeginCreate(3, v, "", salt + 1, owner), name), Commit(3), name);
    assert s3.accounts == map[n := b] && s3.pending == map[2 := Rehashing(n, a, hash)];
    DiffIsLocal(a, a[PasswordHash := hash], b, PasswordHash);
    PasswordPatchKeepsUsername(b, a, hash);
  }

  // ---------------------------------------------------------------- the store's own calls

  datatype Reply = Done | EmptyUsername | Exists | NameClash | Unknown | WrongPassword | Broken

  /** What may fail: the list, the hashing, the one write. */
  datatype Call = ListUsers | HashPassword | WriteUser

  datatype Lookup = Hit(secret: string) | Miss | ListFailed

  predicate Verifies(r: Record, password: string) {
    PasswordHash in r && r[PasswordHash].Bcrypt? && r[PasswordHash].password == password
  }

  ghost predicate AllNamedAfterUser(m: Accounts, name: string -> string) {
    forall n :: n in m ==> NamedAfterUser(n, m[n], name)
  }

  /** A stored account verifies its own password and no other, until it is changed. */
  lemma VerifiesOnlyOwn(username: string, password: string, salt: nat, owner: string, r: Record, tried: string)
    ensures Verifies(NewRecord(username, Bcrypt(password, salt), owner), tried) <==> tried == password
    ensures Verifies(r[PasswordHash := Bcrypt(password, salt)], tried) <==> tried == password
  {
  }

  class Store {
    var accounts: Accounts
    const name: string -> string

    ghost predicate Valid()
      reads this
    {
      AllNamedAfterUser(accounts, name)
    }

    constructor (name: string -> string)
      ensures accounts == map[] && this.name == name && Valid()
    {
      accounts := map[];
      this.name := name;
    }

    /** `findByUsername`. */
    method FindByUsername(username: string, faults: set<Call>) returns (r: Lookup)
      ensures r.ListFailed? <==> ListUsers in faults
      ensures r.Hit? ==> r.secret in accounts && HasUsername(accounts[r.secret], username)
      ensures r.Miss? ==> !Taken(accounts, username)
    {
      if ListUsers in faults { return ListFailed; }
      var left := accounts.Keys;
      while left != {}
        invariant left <= accounts.Keys
        invariant forall n :: n in accounts && n !in left ==> !HasUsername(accounts[n], username)
        decreases |left|
      {
        var n :| n in left;
        if HasUsername(accounts[n], username) { return Hit(n); }
        left := left - {n};
      }
      return Miss;
    }

    /** `Create`. A Secret name that is taken by another username is the API server's refusal. */
    method Create(raw: string, password: string, salt: nat, owner: string, faults: set<Call>) returns (r: Reply)
      requires Valid()
      modifies this`accounts
      ensures Valid()
      ensures r != Done ==> accounts == old(accounts)
      ensures var username := TrimSpace(raw);
              if username == "" then r == EmptyUsername
              else if ListUsers in faults then r == Broken
              else if Taken(old(accounts), username) then r == Exists
              else if HashPassword in faults || WriteUser in faults then r == Broken
              else if name(username) in old(accounts) then r == NameClash
              else
                var record := map[Username := Plain(username), PasswordHash := Bcrypt(password, salt),
                                  Owner := Plain(owner)];
                r == Done && accounts == old(accounts)[name(username) := record]
    {
      var username := TrimSpace(raw);
      if username == "" { return EmptyUsername; }
      var existing := FindByUsername(username, faults);
      if existing.ListFailed? { return Broken; }
      if existing.Hit? { return Exists; }
      if HashPassword in faults { return Broken; }
      if WriteUser in faults { return Broken; }
      if name(username) in accounts { return NameClash; }
      accounts := accounts[name(username) := NewRecord(username, Bcrypt(password, salt), owner)];
      return Done;
    }

    /** `SetPassword`: proves knowledge of the current password, then patches the hash. */
    method SetPassword(username: string, current: string, next: string, salt: nat, faults: set<Call>) returns (r: Reply)
      requires Valid()
      modifies this`accounts
      ensures Valid() && accounts.Keys == old(accounts).Keys
      ensures r == Done <==> && faults !! {ListUsers, HashPassword, WriteUser}
                             && exists n :: n in old(accounts) && HasUsername(old(accounts)[n], username)
                                 && Verifies(old(accounts)[n], current)
      ensures r == WrongPassword ==> Taken(old(accounts), username)
      ensures r == Unknown <==> ListUsers !in faults && !Taken(old(accounts), username)
      ensures r != Done ==> accounts == old(accounts)
      ensures r == Done ==> forall n :: n in accounts ==>
                accounts[n] == if HasUsername(old(accounts)[n], username)
                               then old(accounts)[n][PasswordHash := Bcrypt(next, salt)] else old(accounts)[n]
    {
      var found := FindByUsername(username, faults);
      if found.ListFailed? { return Broken; }
      if found.Miss? { return Unknown; }
      var secret := accounts[found.secret];
      assert forall n :: n in accounts && HasUsername(accounts[n], username) ==> n == found.secret;
      if !Verifies(secret, current) { return WrongPassword; }
      if HashPassword in faults || WriteUser in faults { return Broken; }
      var patched := secret[PasswordHash := Bcrypt(next, salt)];
      DiffReaches(secret, patched);
      accounts := accounts[found.secret := Apply(secret, Diff(secret, patched))];
      return Done;
    }

    /** `Delete`; an absent Secret is not an error. */
    method Delete(secret: string, faults: set<Call>) returns (r: Reply)
      requires Valid()
      modifies this`accounts
      ensures Valid() && r == (if WriteUser in faults then Broken else Done)
      ensures accounts == if r == Done then old(accounts) - {secret} else old(accounts)
    {
      if WriteUser in faults { return Broken; }
      accounts := accounts - {secret};
      return Done;
    }
  }

  // ---------------------------------------------------------------- login lookup

  datatype Account = Account(secret: string, username: string, owner: string, hash: Value)

  datatype Answer = Found(account: Account) | NotFound | Ambiguous

  function ByUsername(list: seq<Account>, username: string): (r: Option<Account>)
    ensures r.Some? ==> r.value in list && r.value.username == username
    ensures r.None? ==> forall a :: a in list ==> a.username != username
  {
    if list == [] then None
    else if list[0].username == username then Some(list[0])
    else ByUsername(list[1..], username)
  }

  function ByOwner(list: seq<Account>, login: string): (r: seq<Account>) {
    if list == [] then []
    else if EqualFold(list[0].owner, login) then [list[0]] + ByOwner(list[1..], login)
    else ByOwner(list[1..], login)
  }

  function Resolve(list: seq<Account>, login: string): (r: Answer) {
    if login == "" then NotFound
    else match ByUsername(list, login)
      case Some(a) => Found(a)
      case None =>
        var owned := ByOwner(list, login);
        if |owned| == 0 then NotFound else if |owned| == 1 then Found(owned[0]) else Ambiguous
  }

  /** `findByLogin`: one pass, returning early on a username match. */
  method FindByLogin(list: seq<Account>, raw: string) returns (r: Answer)
    ensures r == Resolve(list, TrimSpace(raw))
  {
    var login := TrimSpace(raw);
    if login == "" { return NotFound; }
    var byOwner: seq<Account> := [];
    var i := 0;
    while i < |list|
      invariant 0 <= i <= |list|
      invariant ByUsername(list, login) == ByUsername(list[i..], login)
      invariant ByOwner(list, login) == byOwner + ByOwner(list[i..], login)
    {
      assert list[i..][1..] == list[i + 1..];
      if list[i].username == login { return Found(list[i]); }
      if EqualFold(list[i].owner, login) { byOwner := byOwner + [list[i]]; }
      i := i + 1;
    }
    if |byOwner| == 0 { return NotFound; }
    if |byOwner| == 1 { return Found(byOwner[0]); }
    return Ambiguous;
  }

  lemma {:induction false} OwnedCounts(list: seq<Account>, login: string, a: Account)
    ensures multiset(ByOwner(list, login))[a] == if EqualFold(a.owner, login) then multiset(list)[a] else 0
  {
    if list != [] {
      assert list == [list[0]] + list[1..];
      OwnedCounts(list[1..], login, a);
    }
  }

  ghost predicate DistinctUsernames(l: seq<Account>) {
    forall a, b :: a in l && b in l && a.username == b.username ==> a == b
  }

  lemma SameElements(l: seq<Account>, m: seq<Account>, a: Account)
    requires multiset(l) == multiset(m)
    ensures a in l <==> a in m
  {
    assert a in l <==> a in multiset(l);
    assert a in m <==> a in multiset(m);
  }

  lemma OwnersAgree(l: seq<Account>, m: seq<Account>, login: string)
    requires multiset(l) == multiset(m)
    ensures multiset(ByOwner(l, login)) == multiset(ByOwner(m, login))
  {
    forall a ensures multiset(ByOwner(l, login))[a] == multiset(ByOwner(m, login))[a] {
      OwnedCounts(l, login, a);
      OwnedCounts(m, login, a);
    }
  }

  /** With distinct usernames the answer is the same for every order of the listing. */
  lemma LookupForgetsOrder(l: seq<Account>, m: seq<Account>, login: string)
    requires multiset(l) == multiset(m) && DistinctUsernames(l)
    ensures Resolve(l, login) == Resolve(m, login)
  {
    var x, y := ByUsername(l, login), ByUsername(m, login);
    if x.Some? { SameElements(l, m, x.value); }
    if y.Some? { SameElements(l, m, y.value); }
    assert x == y;
    OwnersAgree(l, m, login);
    SingletonsAgree(ByOwner(l, login), ByOwner(m, login));
  }

  lemma SingletonsAgree(p: seq<Account>, q: seq<Account>)
    requires multiset(p) == multiset(q)
    ensures |p| == |q| && (|p| == 1 ==> p[0] == q[0])
  {
    assert |multiset(p)| == |p| && |multiset(q)| == |q|;
    if |p| == 1 { SameElements(p, q, p[0]); }
  }

  /** What the answer means: a username match wins outright; otherwise exactly one owner must match. */
  lemma LookupMeans(list: seq<Account>, login: string)
    ensures var r := Resolve(list, login);
            && (r.Found? ==> r.account in list && (r.account.username == login || EqualFold(r.account.owner, login)))
            && (login != "" && (exists a :: a in list && a.username == login) ==>
                  r.Found? && r.account.username == login)
            && (r.NotFound? <==> login == "" || forall a :: a in list ==>
                  a.username != login && !EqualFold(a.owner, login))
            && (r.Ambiguous? <==> && login != "" && (forall a :: a in list ==> a.username != login)
                                  && exists i, j :: 0 <= i < j < |list| && EqualFold(list[i].owner, login)
                                      && EqualFold(list[j].owner, login))
            && (r.Found? && r.account.username != login ==> forall a :: a in list && EqualFold(a.owner, login) ==>
                  a == r.account)
  {
    var owned := ByOwner(list, login);
    forall a ensures a in owned <==> a in list && EqualFold(a.owner, login) {
      OwnedCounts(list, login, a);
      assert a in owned <==> a in multiset(owned);
      assert a in list <==> a in multiset(list);
    }
    if |owned| > 0 { assert owned[0] in owned; }
    TwoOwners(list, login);
  }

  lemma {:induction false} TwoOwners(list: seq<Account>, login: string)
    ensures |ByOwner(list, login)| >= 1 <==> exists i :: 0 <= i < |list| && EqualFold(list[i].owner, login)
    ensures |ByOwner(list, login)| >= 2 <==>
            exists i, j :: 0 <= i < j < |list| && EqualFold(list[i].owner, login) && EqualFold(list[j].owner, login)
  {
    if list != [] {
      var rest := list[1..];
      TwoOwners(rest, login);
      assert forall i :: 0 < i < |list| ==> list[i] == rest[i - 1];
      if i :| 0 <= i < |rest| && EqualFold(rest[i].owner, login) { assert EqualFold(list[i + 1].owner, login); }
      if i, j :| 0 <= i < j < |rest| && EqualFold(rest[i].owner, login) && EqualFold(rest[j].owner, login) {
        assert EqualFold(list[i + 1].owner, login) && EqualFold(list[j + 1].owner, login);
      }
    }
  }

  predicate Describes(a: Account, m: Accounts) {
    a.secret in m && m[a.secret] == NewRecord(a.username, a.hash, a.owner)
  }

  /** In every reachable state, any two listings of the stored accounts resolve a login alike. */
  lemma ReachableLookupIsOrderFree(s: State, es: seq<Event>, name: string -> string, l: seq<Account>, m: seq<Account>,
                                   login: string)
    requires Inv(s, name)
    requires forall a :: a in l ==> Describes(a, Run(s, es, name).accounts)
    requires multiset(l) == multiset(m)
    ensures Resolve(l, login) == Resolve(m, login)
  {
    UsernamesStayDistinct(s, es, name);
    var stored := Run(s, es, name).accounts;
    forall a, b | a in l && b in l && a.username == b.username ensures a == b {
      assert Describes(a, stored) && Describes(b, stored);
      assert HasUsername(stored[a.secret], a.username) && HasUsername(stored[b.secret], a.username);
      RecordsAreExact(a, b, stored);
    }
    LookupForgetsOrder(l, m, login);
  }

  lemma RecordsAreExact(a: Account, b: Account, m: Accounts)
    requires Describes(a, m) && Describes(b, m) && a.secret == b.secret
    ensures a == b
  {
    var r := m[a.secret];
    assert r[PasswordHash] == a.hash == b.hash;
    assert r[Owner] == Plain(a.owner) == Plain(b.owner);
    assert r[Username] == Plain(a.username) == Plain(b.username);
  }
}
