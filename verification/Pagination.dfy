/** Tables in pages: the slice a request shows, and the links that lead to the others. */
module Pagination {
  import opened Common
  import opened Text

  // ---------------------------------------------------------------- numbers in a query string

  const MAX_INT := 0x7FFF_FFFF_FFFF_FFFF

  /** `strconv.Atoi`: an optional sign, then digits, then a range check. */
  function Atoi(s: string): (r: Option<int>) {
    var negative: bool, digits: string := s != "" && s[0] == '-', if s != "" && s[0] in "+-" then s[1..] else s;
    if digits == "" || !AllDigits(digits) then None
    else if negative then (if Value(digits) <= MAX_INT + 1 then Some(0 - Value(digits)) else None)
    else if Value(digits) <= MAX_INT then Some(Value(digits)) else None
  }

  lemma AtoiItoa(n: nat)
    ensures Atoi(Itoa(n)) == if n <= MAX_INT then Some(n) else None
  {
    ItoaMeans(n);
    assert IsDigit(Itoa(n)[0]);
  }

  /** A sign is read, and a sign alone is no number. */
  lemma AtoiSigned(sign: char, n: nat)
    requires sign == '-' || sign == '+'
    ensures Atoi([sign] + Itoa(n)) == if sign == '-' then (if n <= MAX_INT + 1 then Some(0 - n) else None)
                                      else if n <= MAX_INT then Some(n) else None
    ensures Atoi([sign]).None?
  {
    ItoaMeans(n);
    var d := Itoa(n);
    var s := [sign] + d;
    assert s[0] == sign && s[1..] == d && [sign][1..] == "";
  }

  // ---------------------------------------------------------------- the code

  /** `url.Values`. */
  type Query = map<string, seq<string>>

  const PAGE := "page"
  const PER := "per"
  const ALL := "all"

  function Get(q: Query, key: string): string { if key in q && q[key] != [] then q[key][0] else "" }

  datatype Page<T> = Page(items: seq<T>, number: int, size: int, total: nat, pages: int)

  /** `pageSizeFrom`. */
  function PageSizeFrom(q: Query, sizes: seq<int>): (size: int)
    requires sizes != []
    ensures size == 0 || size in sizes
  {
    if Get(q, PER) == ALL then 0 else
      var parsed := Atoi(Get(q, PER));
      if parsed.Some? && parsed.value in sizes then parsed.value else sizes[0]
  }

  /** The number of pages: as few as hold everything, and one for an empty list or an unlimited size. */
  ghost predicate IsPageCount(total: nat, size: int, pages: int) {
    if size <= 0 || total == 0 then pages == 1 else (pages - 1) * size < total <= pages * size
  }

  /** What page `k` shows. */
  function PageItems<T>(items: seq<T>, size: int, k: int): (r: seq<T>)
    requires 1 <= k
  {
    if size <= 0 then items else
      var start := (k - 1) * size;
      if start >= |items| then [] else if start + size <= |items| then items[start..start + size] else items[start..]
  }

  function Wanted(q: Query): (k: int)
    ensures k >= 1
  {
    var parsed := Atoi(Get(q, PAGE));
    if parsed.Some? && parsed.value > 1 then parsed.value else 1
  }

  /** `paginateWith`. */
  method PaginateWith<T>(items: seq<T>, q: Query, sizes: seq<int>) returns (page: Page<T>)
    requires sizes != []
    ensures page.size == PageSizeFrom(q, sizes) && page.total == |items|
    ensures IsPageCount(|items|, page.size, page.pages)
    ensures page.number == (if Wanted(q) <= page.pages then Wanted(q) else page.pages) >= 1
    ensures page.items == PageItems(items, page.size, page.number)
  {
    var size := PageSizeFrom(q, sizes);
    page := Page(items, 1, size, |items|, 1);
    if size <= 0 || |items| == 0 { return; }
    page := page.(pages := (|items| + size - 1) / size);
    CeilingMeans(|items|, size);
    var raw := Get(q, PAGE);
    if raw != "" {
      var parsed := Atoi(raw);
      if parsed.Some? && parsed.value > 1 { page := page.(number := parsed.value); }
    }
    if page.number > page.pages { page := page.(number := page.pages); }
    StartsInside(|items|, size, page.pages, page.number);
    var start := (page.number - 1) * size;
    PageSlice(items, size, page.number);
    var end := if start + size < |items| then start + size else |items|;
    page := page.(items := items[start..end]);
  }

  lemma PageSlice<T>(items: seq<T>, size: int, k: int)
    requires size > 0 && k >= 1 && 0 <= (k - 1) * size < |items|
    ensures var start := (k - 1) * size;
            PageItems(items, size, k) == items[start..if start + size < |items| then start + size else |items|]
  {
  }

  lemma Monotone(a: int, b: int, size: int)
    requires size > 0
    ensures a <= b ==> a * size <= b * size
  {
  }

  lemma CeilingMeans(total: nat, size: int)
    requires size > 0 && total > 0
    ensures var p := (total + size - 1) / size; p >= 1 && (p - 1) * size < total <= p * size
  {
    var p, r := (total + size - 1) / size, (total + size - 1) % size;
    assert total + size - 1 == p * size + r;
    assert (p - 1) * size == p * size - size;
    Monotone(p, 0, size);
  }

  lemma StartsInside(total: nat, size: int, pages: int, k: int)
    requires size > 0 && total > 0 && IsPageCount(total, size, pages) && 1 <= k <= pages
    ensures 0 <= (k - 1) * size < total
    ensures k < pages ==> k * size < total
  {
    Monotone(k - 1, pages - 1, size);
    Monotone(k, pages - 1, size);
  }

  lemma PageCountUnique(total: nat, size: int, p: int, q: int)
    requires IsPageCount(total, size, p) && IsPageCount(total, size, q)
    ensures p == q >= 1
  {
    if size > 0 && total > 0 {
      Monotone(p, q - 1, size);
      Monotone(q, p - 1, size);
      Monotone(p, 0, size);
    }
  }

  // ---------------------------------------------------------------- the pages are the list

  ghost function Concatenated<T>(items: seq<T>, size: int, k: nat): (r: seq<T>) {
    if k == 0 then [] else Concatenated(items, size, k - 1) + PageItems(items, size, k)
  }

  lemma {:induction false} FirstPages<T>(items: seq<T>, size: int, pages: int, k: nat)
    requires size > 0 && items != [] && IsPageCount(|items|, size, pages) && k <= pages
    ensures k < pages ==> k * size < |items|
    ensures Concatenated(items, size, k) == if k * size <= |items| then items[..k * size] else items
  {
    if k > 0 {
      FirstPages(items, size, pages, k - 1);
      StartsInside(|items|, size, pages, k);
      assert (k - 1) * size + size == k * size;
    }
  }

  /** Pages 1 to the last, one after the other, are the list. */
  lemma PagesConcatenate<T>(items: seq<T>, size: int, pages: int)
    requires IsPageCount(|items|, size, pages)
    ensures pages >= 1 && Concatenated(items, size, pages) == items
  {
    PageCountUnique(|items|, size, pages, pages);
    if size > 0 && items != [] {
      FirstPages(items, size, pages, pages);
    } else {
      assert Concatenated(items, size, 0) == [];
      assert PageItems(items, size, 1) == items;
    }
  }

  /** Every page but the last is full, the last is not over-full, and none is empty unless the list is. */
  lemma PagesAreFull<T>(items: seq<T>, size: int, pages: int, k: int)
    requires size > 0 && IsPageCount(|items|, size, pages) && 1 <= k <= pages
    ensures k < pages ==> |PageItems(items, size, k)| == size
    ensures |PageItems(items, size, k)| <= size
    ensures PageItems(items, size, k) == [] <==> items == []
  {
    if items != [] {
      StartsInside(|items|, size, pages, k);
      assert (k - 1) * size + size == k * size;
    }
  }

  /** "all" is unlimited, an offered size is itself, and everything else is the screen's first choice: no size,
      no number, a size not offered. */
  lemma PageSizeMeans(q: Query, sizes: seq<int>, k: int)
    requires sizes != []
    ensures var raw, size := Get(q, PER), PageSizeFrom(q, sizes);
            && (raw == "all" ==> size == 0)
            && (raw != "all" && Atoi(raw) == Some(k) ==> size == if k in sizes then k else sizes[0])
            && (PER !in q || q[PER] == [] || (raw != "all" && Atoi(raw).None?) ==> size == sizes[0])
  {
    AllIsNoNumber();
  }

  // ---------------------------------------------------------------- links

  /** The query of a link, `path` left aside; encoding and parsing it are taken to be inverse. */
  function LinkQuery(q: Query, size: int, number: int): (r: Query) {
    var filters := q - {PAGE, PER};
    if size <= 0 then filters[PER := [ALL]]
    else if number > 1 then filters[PER := [Itoa(size)]][PAGE := [Itoa(number)]]
    else filters[PER := [Itoa(size)]]
  }

  /** `pageQuery`: the other filters are copied key by key. The query is never empty, so the link never is
      the bare path. */
  method PageQuery(q: Query, size: int, number: int) returns (r: Query)
    ensures r == LinkQuery(q, size, number) && r != map[]
  {
    r := map[];
    var left := q.Keys;
    while left != {}
      invariant left <= q.Keys && r == (map k | k in q && k !in left && k != PAGE && k != PER :: q[k])
      decreases |left|
    {
      var key :| key in left;
      left := left - {key};
      if key != PAGE && key != PER { r := r[key := q[key]]; }
    }
    assert r == q - {PAGE, PER};
    if size <= 0 {
      r := r[PER := [ALL]];
    } else {
      r := r[PER := [Itoa(size)]];
      if number > 1 { r := r[PAGE := [Itoa(number)]]; }
    }
    assert PER in r;
  }

  lemma AllIsNoNumber()
    ensures Atoi(ALL).None? && Atoi("").None?
  {
    assert !IsDigit(ALL[0]);
  }

  predicate Offered(size: int, sizes: seq<int>) { size == 0 || (size > 0 && size in sizes) }

  /** The size a link asks for is the one its request gets, exactly for the sizes the screen offers. */
  lemma LinkKeepsSize(q: Query, sizes: seq<int>, size: int, number: int)
    requires sizes != [] && size <= MAX_INT
    ensures PageSizeFrom(LinkQuery(q, size, number), sizes) == size <==> Offered(size, sizes)
  {
    var r := LinkQuery(q, size, number);
    if size > 0 {
      assert Get(r, PER) == Itoa(size);
      AtoiItoa(size);
      AllIsNoNumber();
    } else {
      assert Get(r, PER) == ALL;
    }
  }

  lemma LinkKeepsNumber(q: Query, size: int, number: int)
    requires number <= MAX_INT
    ensures Wanted(LinkQuery(q, size, number)) == if size > 0 && number > 1 then number else 1
  {
    var r := LinkQuery(q, size, number);
    if size > 0 && number > 1 {
      assert Get(r, PAGE) == Itoa(number);
      AtoiItoa(number);
    } else {
      assert PAGE !in r;
      AllIsNoNumber();
    }
  }

  /** Following a link shows exactly the page and size it was built for if and only if the screen offers that
      size and the list has that page. */
  method FollowLink<T>(items: seq<T>, q: Query, sizes: seq<int>, size: int, number: int) returns (page: Page<T>)
    requires sizes != [] && size <= MAX_INT && number <= MAX_INT
    ensures page.size == size && page.number == number <==>
            Offered(size, sizes) && 1 <= number && exists pages :: IsPageCount(|items|, size, pages) && number <= pages
    ensures Offered(size, sizes) ==> page.size == size
    ensures page.number >= 1 && page.items == PageItems(items, page.size, page.number)
  {
    var link := PageQuery(q, size, number);
    page := PaginateWith(items, link, sizes);
    LinkKeepsSize(q, sizes, size, number);
    LinkKeepsNumber(q, size, number);
    forall p | IsPageCount(|items|, page.size, p) ensures p == page.pages {
      PageCountUnique(|items|, page.size, p, page.pages);
    }
  }

  /** The other filters survive every link, and links do not pile up: the last choice decides. */
  lemma LinksKeepFilters(q: Query, size: int, number: int, size2: int, number2: int)
    ensures LinkQuery(q, size, number) - {PAGE, PER} == q - {PAGE, PER}
    ensures LinkQuery(LinkQuery(q, size, number), size2, number2) == LinkQuery(q, size2, number2)
  {
    var r := LinkQuery(q, size, number);
    forall k | k != PAGE && k != PER ensures k in r <==> k in q ensures k in q ==> r[k] == q[k] {}
    assert r - {PAGE, PER} == q - {PAGE, PER};
  }
}
