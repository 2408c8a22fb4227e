/** The string helpers of Go's `strings` package that the model needs, on ASCII. */
module Text {
  predicate IsUpper(c: char) { 'A' <= c <= 'Z' }
  predicate IsLower(c: char) { 'a' <= c <= 'z' }
  predicate IsDigit(c: char) { '0' <= c <= '9' }
  predicate IsAlnum(c: char) { IsLower(c) || IsDigit(c) }
  predicate IsSpace(c: char) { c == ' ' || ('\t' <= c <= '\r') }

  function LowerChar(c: char): (r: char)
    ensures !IsUpper(r)
  {
    if IsUpper(c) then ((c as int) + 32) as char else c
  }

  function Map(s: string, f: char -> char): (r: string) {
    if s == "" then "" else [f(s[0])] + Map(s[1..], f)
  }

  lemma {:induction false} MapAt(s: string, f: char -> char)
    ensures |Map(s, f)| == |s| && forall i :: 0 <= i < |s| ==> Map(s, f)[i] == f(s[i])
  {
    if s != "" { MapAt(s[1..], f); }
  }

  /** `strings.ToLower`. */
  function Lower(s: string): (r: string) { Map(s, LowerChar) }

  /** `strings.EqualFold`. */
  predicate EqualFold(a: string, b: string) { Lower(a) == Lower(b) }

  function TrimLeft(s: string, cut: char -> bool): (r: string) {
    if s != "" && cut(s[0]) then TrimLeft(s[1..], cut) else s
  }

  function TrimRight(s: string, cut: char -> bool): (r: string) {
    if s != "" && cut(s[|s| - 1]) then TrimRight(s[..|s| - 1], cut) else s
  }

  /** `strings.Trim`, the cutset given as a predicate. */
  function Trim(s: string, cut: char -> bool): (r: string) { TrimRight(TrimLeft(s, cut), cut) }

  lemma {:induction false} TrimLeftMeans(s: string, cut: char -> bool)
    ensures var r := TrimLeft(s, cut);
            && |r| <= |s| && r == s[|s| - |r|..] && (r != "" ==> !cut(r[0]))
            && forall i :: 0 <= i < |s| - |r| ==> cut(s[i])
  {
    if s != "" && cut(s[0]) {
      TrimLeftMeans(s[1..], cut);
      var r := TrimLeft(s[1..], cut);
      assert s[1..][|s| - 1 - |r|..] == s[|s| - |r|..];
      forall i | 0 <= i < |s| - |r| ensures cut(s[i]) {
        if i > 0 { assert s[1..][i - 1] == s[i]; }
      }
    }
  }

  lemma {:induction false} TrimRightMeans(s: string, cut: char -> bool)
    ensures var r := TrimRight(s, cut);
            && r <= s && (r != "" ==> !cut(r[|r| - 1]))
            && forall i :: |r| <= i < |s| ==> cut(s[i])
  {
    if s != "" && cut(s[|s| - 1]) {
      TrimRightMeans(s[..|s| - 1], cut);
      var r := TrimRight(s[..|s| - 1], cut);
      forall i | |r| <= i < |s| ensures cut(s[i]) {
        if i < |s| - 1 { assert s[..|s| - 1][i] == s[i]; }
      }
    }
  }

  /** What is left is one contiguous piece, none of the cutset at either end, and all of it around. */
  lemma TrimMeans(s: string, cut: char -> bool)
    ensures exists i, j :: 0 <= i <= j <= |s| && Trim(s, cut) == s[i..j]
              && (i < j ==> !cut(s[i]) && !cut(s[j - 1]))
              && forall k :: (0 <= k < i || j <= k < |s|) ==> cut(s[k])
  {
    TrimLeftMeans(s, cut);
    var l := TrimLeft(s, cut);
    TrimRightMeans(l, cut);
    var r := TrimRight(l, cut);
    var i := |s| - |l|;
    var j := i + |r|;
    assert r == s[i..j];
    forall k | j <= k < |s| ensures cut(s[k]) { assert s[k] == l[k - i]; }
  }

  lemma TrimTrimmed(s: string, cut: char -> bool)
    requires s != "" ==> !cut(s[0]) && !cut(s[|s| - 1])
    ensures Trim(s, cut) == s
  {
  }

  /** Whatever comes before a character that stays is not trimmed on the right. */
  lemma {:induction false} TrimRightAfter(a: string, b: string, cut: char -> bool)
    requires exists i :: 0 <= i < |b| && !cut(b[i])
    ensures TrimRight(a + b, cut) == a + TrimRight(b, cut)
  {
    assert (a + b)[|a + b| - 1] == b[|b| - 1];
    if cut(b[|b| - 1]) {
      assert (a + b)[..|a + b| - 1] == a + b[..|b| - 1];
      var i :| 0 <= i < |b| && !cut(b[i]);
      assert b[..|b| - 1][i] == b[i];
      TrimRightAfter(a, b[..|b| - 1], cut);
    }
  }

  function TrimSpace(s: string): (r: string) { Trim(s, IsSpace) }

  function Digit(d: nat): (c: char)
    requires d < 10
    ensures IsDigit(c)
  {
    '0' + d as char
  }

  /** `strconv.Itoa`, of a number that is not negative. */
  function Itoa(n: nat): (s: string) { if n < 10 then [Digit(n)] else Itoa(n / 10) + [Digit(n % 10)] }

  predicate AllDigits(s: string) { forall i :: 0 <= i < |s| ==> IsDigit(s[i]) }

  function Value(s: string): (n: nat)
    requires AllDigits(s)
  {
    if s == "" then 0 else 10 * Value(s[..|s| - 1]) + (s[|s| - 1] as int - '0' as int)
  }

  lemma {:induction false} ItoaMeans(n: nat)
    ensures Itoa(n) != "" && AllDigits(Itoa(n)) && Value(Itoa(n)) == n
  {
    if n >= 10 {
      ItoaMeans(n / 10);
      assert Itoa(n)[..|Itoa(n)| - 1] == Itoa(n / 10);
    }
  }
}
