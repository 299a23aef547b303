/** The paginator every feed goes through: Django's Paginator with ten posts per
    page, asked for a page number taken from the `page` query parameter. */
module Paging {
  import opened Wrappers

  /** Page size used by `paginator`. */
  const PerPage: nat := 10

  function Min(a: int, b: int): int { if a <= b then a else b }

  /** Number of pages of a list of `count` items: no orphans, and an empty
      list still has one (empty) page. */
  function NumPages(count: nat): (n: nat)
    ensures 1 <= n
    ensures count <= n * PerPage
    ensures n == 1 || (n - 1) * PerPage < count
  {
    if count == 0 then 1 else (count + PerPage - 1) / PerPage
  }

  /** The items of page `k` (counted from 1): positions (k-1)*10 up to min(k*10, n). */
  function Slice<T>(s: seq<T>, k: nat): (r: seq<T>)
    requires 1 <= k <= NumPages(|s|)
    ensures |r| == Min(k * PerPage, |s|) - (k - 1) * PerPage
    ensures forall i :: 0 <= i < |r| ==> r[i] == s[(k - 1) * PerPage + i]
    ensures forall x :: x in r ==> x in s
  {
    s[(k - 1) * PerPage .. Min(k * PerPage, |s|)]
  }

  /** A page as handed to the templates. */
  datatype Page<T> = Page(objects: seq<T>, number: nat, numPages: nat)
  {
    predicate HasNext() { number < numPages }
    predicate HasPrevious() { number > 1 }
  }

  /** The page number `get_page` settles on. `requested` is the query parameter
      read as an integer (None when it is absent or not an integer): an absent
      or malformed number gives page 1, a number below 1 or past the end gives
      the last page. */
  function PageNumber(count: nat, requested: Option<int>): (k: nat)
    ensures 1 <= k <= NumPages(count)
    ensures requested.None? ==> k == 1
    ensures requested.Some? && 1 <= requested.value <= NumPages(count) ==> k == requested.value
    ensures requested.Some? && !(1 <= requested.value <= NumPages(count)) ==> k == NumPages(count)
  {
    match requested
    case None => 1
    case Some(n) => if 1 <= n <= NumPages(count) then n else NumPages(count)
  }

  /** `paginator(request, post_list)`: the requested page of `s`. */
  function GetPage<T>(s: seq<T>, requested: Option<int>): (p: Page<T>)
    ensures p.numPages == NumPages(|s|) && 1 <= p.number <= p.numPages
    ensures p.objects == Slice(s, p.number)
    ensures p.number == PageNumber(|s|, requested)
    ensures forall x :: x in p.objects ==> x in s
  {
    var k := PageNumber(|s|, requested);
    Page(Slice(s, k), k, NumPages(|s|))
  }

  /** Pages 1 to k laid end to end. */
  function Upto<T>(s: seq<T>, k: nat): seq<T>
    requires k <= NumPages(|s|)
  {
    if k == 0 then [] else Upto(s, k - 1) + Slice(s, k)
  }

  /** The first k pages are exactly the first min(10k, n) items, in order. */
  lemma {:induction false} UptoIsPrefix<T>(s: seq<T>, k: nat)
    requires k <= NumPages(|s|)
    ensures Upto(s, k) == s[..Min(k * PerPage, |s|)]
  {
    if k > 0 {
      UptoIsPrefix(s, k - 1);
      assert s[..Min(k * PerPage, |s|)]
          == s[..Min((k - 1) * PerPage, |s|)] + Slice(s, k);
    }
  }

  /** All pages together give back the whole list, in order: nothing is lost,
      repeated or reordered by pagination. */
  lemma PagesCover<T>(s: seq<T>)
    ensures Upto(s, NumPages(|s|)) == s
  {
    UptoIsPrefix(s, NumPages(|s|));
  }

  /** Two consecutive pages are adjacent slices: every page but the last is
      full, and page k followed by page k+1 is the run of items from (k-1)*10
      to min((k+1)*10, n). */
  lemma ConsecutivePages<T>(s: seq<T>, k: nat)
    requires 1 <= k < NumPages(|s|)
    ensures |Slice(s, k)| == PerPage
    ensures Slice(s, k) + Slice(s, k + 1) == s[(k - 1) * PerPage .. Min((k + 1) * PerPage, |s|)]
  {
  }

  /** Of a list without repeated items (posts have distinct ids), two different
      pages share no item. */
  lemma PagesDisjoint<T>(s: seq<T>, j: nat, k: nat)
    requires forall a, b :: 0 <= a < b < |s| ==> s[a] != s[b]
    requires 1 <= j <= NumPages(|s|) && 1 <= k <= NumPages(|s|) && j != k
    ensures forall x :: x in Slice(s, j) ==> x !in Slice(s, k)
  {
  }

  /** Fifteen posts: the first page shows ten, page 2 shows the remaining five. */
  lemma FifteenItems<T>(s: seq<T>)
    requires |s| == 15
    ensures NumPages(|s|) == 2
    ensures |GetPage(s, None).objects| == 10 && GetPage(s, None).HasNext()
    ensures |GetPage(s, Some(2)).objects| == 5 && !GetPage(s, Some(2)).HasNext()
  {
  }
}
