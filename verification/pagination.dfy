/** The folder walk of `get_folder`: read the first listing page's `.EML`
    links; unless the page says it is page 1 of 1, keep following "Next Page"
    and appending each new page's links, stopping after the first page that
    equals the one before it (that repeated page is appended too). */
module Pagination {
  import opened Common
  import opened Text
  import opened Server

  /** The page-count text whose presence means "a single page". */
  const SinglePageText := "&nbsp;of&nbsp;1"

  /** Each id with every occurrence of the base href removed. */
  function StripBase(urls: seq<Id>, base: string): (r: seq<Id>)
    ensures |r| == |urls|
    ensures forall i :: 0 <= i < |r| ==> r[i] == RemoveAll(urls[i], base)
    ensures (forall i :: 0 <= i < |urls| ==> !Contains(urls[i], base)) ==> r == urls
  {
    assert (forall i :: 0 <= i < |urls| ==> !Contains(urls[i], base))
           ==> forall i :: 0 <= i < |urls| ==> RemoveAll(urls[i], base) == urls[i] by {
      forall i | 0 <= i < |urls| && !Contains(urls[i], base)
        ensures RemoveAll(urls[i], base) == urls[i]
      {
        RemoveAllIdentityIff(urls[i], base);
      }
    }
    seq(|urls|, i requires 0 <= i < |urls| => RemoveAll(urls[i], base))
  }

  /** The ids read from a page reached through "Next Page". */
  function LaterIds(v: Variant, base: string, p: Page): (r: seq<Id>)
    ensures v == TopLevel ==> r == EmlUrls(p.links)
    ensures |r| == |EmlUrls(p.links)|
    ensures v == Packaged ==> forall i :: 0 <= i < |r| ==> r[i] == RemoveAll(EmlUrls(p.links)[i], base)
    ensures (forall i :: 0 <= i < |r| ==> !Contains(EmlUrls(p.links)[i], base)) ==> r == EmlUrls(p.links)
  {
    var urls := EmlUrls(p.links);
    if v == Packaged then StripBase(urls, base) else urls
  }

  /** What the loop reads from a listing page it has opened: its ids and
      whether it carries a "Next Page" link. */
  datatype View = View(ids: seq<Id>, hasNext: bool)

  /** The view of every page of the listing, as reached through "Next Page". */
  function Views(v: Variant, base: string, lst: Listing): (r: seq<View>)
    ensures |r| == lst.Count()
    ensures forall k :: 0 <= k < |r| ==>
      r[k] == View(LaterIds(v, base, lst.PageAt(k)), HasNextPage(lst.PageAt(k)))
  {
    seq(lst.Count(), k requires 0 <= k < lst.Count() =>
      View(LaterIds(v, base, lst.PageAt(k)), HasNextPage(lst.PageAt(k))))
  }

  /** The ids appended by the walk, the page that ended it, and the number of
      "Next Page" requests made. */
  datatype Walk = Walk(ids: seq<Id>, final: seq<Id>, requests: nat)

  predicate EndsWith(s: seq<Id>, t: seq<Id>)
  {
    |t| <= |s| && s[|s| - |t|..] == t
  }

  ghost predicate AllHaveNext(views: seq<View>, from: nat)
  {
    forall k :: from <= k < |views| ==> views[k].hasNext
  }

  /** The `while flag` loop over a wrapping listing, entered on page `cur`
      with `last` the ids read from it. Each round follows the current page's
      "Next Page" link (absent: the `[0]` lookup raises), reads the page it
      leads to (the next one, or the last one again once at the end) and
      appends it; the round that reads a page equal to `last` is the final
      one. This always ends: once on the last page, the next request returns
      it again. */
  function Paginate(views: seq<View>, cur: nat, last: seq<Id>): (r: Result<Walk>)
    requires cur < |views|
    ensures r.Success? ==> 1 <= r.value.requests <= |views| - cur + 1
    ensures r.Success? && r.value.requests == 1 ==> r.value.ids == r.value.final == last
    ensures r.Success? && r.value.requests > 1 ==> EndsWith(r.value.ids, r.value.final + r.value.final)
    ensures r.Failure? ==> r.error == MissingElement
    decreases |views| - cur, if last == views[cur].ids then 0 else 1
  {
    if !views[cur].hasNext then Failure(MissingElement)
    else
      var next := if cur + 1 < |views| then cur + 1 else cur;
      var murls := views[next].ids;
      if murls == last then Success(Walk(murls, murls, 1))
      else
        match Paginate(views, next, murls)
        case Failure(e) => Failure(e)
        case Success(w) => Success(Walk(murls + w.ids, w.final, w.requests + 1))
  }

  /** The whole listing computation of `get_folder` once logged in: the
      single-page shortcut, or the first page's ids followed by the walk. */
  function Collect(v: Variant, base: string, lst: Listing): (r: Result<Walk>)
    ensures Contains(lst.first.body, SinglePageText) ==>
      r == Success(Walk(EmlUrls(lst.first.links), EmlUrls(lst.first.links), 0))
    ensures !Contains(lst.first.body, SinglePageText) && r.Success? ==>
      && 1 <= r.value.requests <= lst.Count() + 1
      && |EmlUrls(lst.first.links)| <= |r.value.ids|
      && r.value.ids[..|EmlUrls(lst.first.links)|] == EmlUrls(lst.first.links)
    ensures r.Failure? ==> r.error == MissingElement
  {
    var first := EmlUrls(lst.first.links);
    if Contains(lst.first.body, SinglePageText) then Success(Walk(first, first, 0))
    else
      var views := Views(v, base, lst);
      match Paginate(views, 0, first)
      case Failure(e) => Failure(e)
      case Success(w) =>
        assert (first + w.ids)[..|first|] == first;
        Success(Walk(first + w.ids, w.final, w.requests))
  }

  /** The walk raises only when a page it stands on has no "Next Page" link,
      and it cannot raise when every page has one. */
  lemma {:induction false} PaginateFailure(views: seq<View>, cur: nat, last: seq<Id>)
    requires cur < |views|
    ensures Paginate(views, cur, last).Failure? ==> exists k :: cur <= k < |views| && !views[k].hasNext
    ensures AllHaveNext(views, cur) ==> Paginate(views, cur, last).Success?
    decreases |views| - cur, if last == views[cur].ids then 0 else 1
  {
    if views[cur].hasNext {
      var next := if cur + 1 < |views| then cur + 1 else cur;
      if views[next].ids != last {
        PaginateFailure(views, next, views[next].ids);
      }
    }
  }

  /** `get_folder` raises `IndexError` only on a listing with a page that has
      no "Next Page" link, and never when every page has one. */
  lemma CollectFailure(v: Variant, base: string, lst: Listing)
    ensures Collect(v, base, lst).Failure? ==> exists k :: 0 <= k < lst.Count() && !HasNextPage(lst.PageAt(k))
    ensures (forall k :: 0 <= k < lst.Count() ==> HasNextPage(lst.PageAt(k))) ==> Collect(v, base, lst).Success?
  {
    var views := Views(v, base, lst);
    PaginateFailure(views, 0, EmlUrls(lst.first.links));
    if Collect(v, base, lst).Failure? {
      var k :| 0 <= k < |views| && !views[k].hasNext;
      assert !HasNextPage(lst.PageAt(k));
    }
    if forall k :: 0 <= k < lst.Count() ==> HasNextPage(lst.PageAt(k)) {
      assert AllHaveNext(views, 0);
    }
  }

  /** The converse: the walk raises when it reaches a page without a "Next
      Page" link. Entered on page `cur`, if every page before page `m` has the
      link, no read before page `m` repeats its predecessor, and page `m`
      lacks the link, the `[0]` lookup on page `m` raises `IndexError` and
      nothing is returned. */
  lemma {:induction false} PaginateMissingNext(views: seq<View>, cur: nat, last: seq<Id>, m: nat)
    requires cur <= m < |views|
    requires forall k :: cur <= k < m ==> views[k].hasNext
    requires m > cur ==> views[cur + 1].ids != last
    requires forall j :: cur + 1 < j <= m ==> views[j].ids != views[j - 1].ids
    requires !views[m].hasNext
    ensures Paginate(views, cur, last) == Failure(MissingElement)
    decreases m - cur
  {
    if m > cur {
      PaginateMissingNext(views, cur + 1, views[cur + 1].ids, m);
      assert Paginate(views, cur + 1, views[cur + 1].ids).Failure?;
    }
  }

  /** A first page with neither the single-page text nor a "Next Page" link
      makes `get_folder` raise `IndexError` before any request. */
  lemma CollectFirstPageNoNext(v: Variant, base: string, lst: Listing)
    requires !Contains(lst.first.body, SinglePageText)
    requires !HasNextPage(lst.first)
    ensures Collect(v, base, lst) == Failure(MissingElement)
  {
    assert !Views(v, base, lst)[0].hasNext;
  }

  /** At folder level: if the pages before page `m` have "Next Page", no
      page read before page `m` repeats the one before it, and page `m` has
      no such link, `get_folder` raises `IndexError`. */
  lemma CollectMissingNext(v: Variant, base: string, lst: Listing, m: nat)
    requires !Contains(lst.first.body, SinglePageText)
    requires m < lst.Count()
    requires forall k :: 0 <= k < m ==> HasNextPage(lst.PageAt(k))
    requires m > 0 ==> Views(v, base, lst)[1].ids != EmlUrls(lst.first.links)
    requires forall j :: 1 < j <= m ==> Views(v, base, lst)[j].ids != Views(v, base, lst)[j - 1].ids
    requires !HasNextPage(lst.PageAt(m))
    ensures Collect(v, base, lst) == Failure(MissingElement)
  {
    var views := Views(v, base, lst);
    forall k | 0 <= k < m
      ensures views[k].hasNext
    {
      assert HasNextPage(lst.PageAt(k));
    }
    PaginateMissingNext(views, 0, EmlUrls(lst.first.links), m);
  }

  ghost function Concat(pages: seq<seq<Id>>): seq<Id>
  {
    if pages == [] then [] else pages[0] + Concat(pages[1..])
  }

  ghost predicate NeighboursDiffer(pages: seq<seq<Id>>)
  {
    forall k :: 0 <= k < |pages| - 1 ==> pages[k] != pages[k + 1]
  }

  /** The ids of the views from index `from` on. */
  ghost function IdsFrom(views: seq<View>, from: nat): (r: seq<seq<Id>>)
    requires from <= |views|
    ensures |r| == |views| - from
    ensures forall k :: 0 <= k < |r| ==> r[k] == views[from + k].ids
  {
    seq(|views| - from, k requires 0 <= k < |views| - from => views[from + k].ids)
  }

  /** A round that reads a new page: the walk from `cur` is that page
      followed by the walk from it. */
  lemma PaginateAdvance(views: seq<View>, cur: nat, last: seq<Id>, w: Walk)
    requires cur + 1 < |views|
    requires views[cur].hasNext
    requires views[cur + 1].ids != last
    requires Paginate(views, cur + 1, views[cur + 1].ids) == Success(w)
    ensures Paginate(views, cur, last) == Success(Walk(views[cur + 1].ids + w.ids, w.final, w.requests + 1))
  {
  }

  /** The walk from page `cur` appends the pages after `cur`, then the last
      page once more, in `|views| - cur` requests, provided every page has a
      "Next Page" link and no two neighbouring pages read the same. */
  lemma {:induction false} PaginateDistinct(views: seq<View>, cur: nat, last: seq<Id>)
    requires cur + 1 < |views|
    requires AllHaveNext(views, cur)
    requires last != views[cur + 1].ids
    requires NeighboursDiffer(IdsFrom(views, cur + 1))
    ensures Paginate(views, cur, last)
      == Success(Walk(Concat(IdsFrom(views, cur + 1)) + views[|views| - 1].ids, views[|views| - 1].ids, |views| - cur))
    decreases |views| - cur
  {
    var next := cur + 1;
    var tail := IdsFrom(views, next);
    assert Concat(tail) == views[next].ids + Concat(tail[1..]);
    if next == |views| - 1 {
      var lastIds := views[next].ids;
      assert Paginate(views, next, lastIds) == Success(Walk(lastIds, lastIds, 1));
      PaginateAdvance(views, cur, last, Walk(lastIds, lastIds, 1));
      assert tail[1..] == [];
      assert Concat(tail[1..]) == [];
      assert Concat(tail) == lastIds;
    } else {
      assert tail[1..] == IdsFrom(views, next + 1);
      assert NeighboursDiffer(IdsFrom(views, next + 1)) by {
        forall k | 0 <= k < |tail[1..]| - 1
          ensures tail[1..][k] != tail[1..][k + 1]
        {
          assert tail[k + 1] != tail[k + 2];
        }
      }
      assert views[next].ids != views[next + 1].ids by {
        assert tail[0] != tail[1];
      }
      PaginateDistinct(views, next, views[next].ids);
      var lastIds := views[|views| - 1].ids;
      var w := Walk(Concat(tail[1..]) + lastIds, lastIds, |views| - next);
      PaginateAdvance(views, cur, last, w);
      assert views[next].ids + w.ids == Concat(tail) + lastIds;
    }
  }

  /** The ids the client reads from each page of the listing, in order: the
      first page as it is, later pages through `LaterIds`. */
  ghost function Observed(v: Variant, base: string, lst: Listing): (r: seq<seq<Id>>)
    ensures |r| == lst.Count()
  {
    [EmlUrls(lst.first.links)] + IdsFrom(Views(v, base, lst), 1)
  }

  /** Without the single-page text, `get_folder` returns the first page's
      ids followed by whatever the walk appends. */
  lemma CollectPaginates(v: Variant, base: string, lst: Listing, w: Walk)
    requires !Contains(lst.first.body, SinglePageText)
    requires Paginate(Views(v, base, lst), 0, EmlUrls(lst.first.links)) == Success(w)
    ensures Collect(v, base, lst) == Success(Walk(EmlUrls(lst.first.links) + w.ids, w.final, w.requests))
  {
  }

  lemma CollectWrapsSingle(v: Variant, base: string, lst: Listing)
    requires !Contains(lst.first.body, SinglePageText)
    requires lst.Count() == 1 && HasNextPage(lst.first)
    requires LaterIds(v, base, lst.first) == EmlUrls(lst.first.links)
    ensures var obs := Observed(v, base, lst);
      Collect(v, base, lst) == Success(Walk(Concat(obs) + obs[0], obs[0], 1))
  {
    var obs := Observed(v, base, lst);
    var views := Views(v, base, lst);
    var first := EmlUrls(lst.first.links);
    assert views[0].ids == first && views[0].hasNext;
    assert Paginate(views, 0, first) == Success(Walk(first, first, 1));
    CollectPaginates(v, base, lst, Walk(first, first, 1));
    assert obs == [first];
    assert Concat(obs) == first + Concat([]);
    assert Concat(obs) + obs[0] == first + first;
  }

  /** The walk from the first page of a listing of two or more pages. */
  lemma WalkFromFirst(views: seq<View>, first: seq<Id>)
    requires |views| >= 2
    requires AllHaveNext(views, 0)
    requires NeighboursDiffer([first] + IdsFrom(views, 1))
    ensures var obs := [first] + IdsFrom(views, 1);
      Paginate(views, 0, first)
        == Success(Walk(Concat(obs[1..]) + obs[|views| - 1], obs[|views| - 1], |views|))
  {
    var obs := [first] + IdsFrom(views, 1);
    assert obs[1..] == IdsFrom(views, 1);
    assert NeighboursDiffer(obs[1..]) by {
      forall k | 0 <= k < |obs[1..]| - 1
        ensures obs[1..][k] != obs[1..][k + 1]
      {
        assert obs[k + 1] != obs[k + 2];
      }
    }
    assert first != views[1].ids by {
      assert obs[0] != obs[1];
    }
    PaginateDistinct(views, 0, first);
  }

  lemma CollectWrapsMany(v: Variant, base: string, lst: Listing)
    requires !Contains(lst.first.body, SinglePageText)
    requires lst.Count() >= 2
    requires forall k :: 0 <= k < lst.Count() ==> HasNextPage(lst.PageAt(k))
    requires NeighboursDiffer(Observed(v, base, lst))
    ensures var obs := Observed(v, base, lst);
      Collect(v, base, lst)
        == Success(Walk(Concat(obs) + obs[lst.Count() - 1], obs[lst.Count() - 1], lst.Count()))
  {
    var obs := Observed(v, base, lst);
    var views := Views(v, base, lst);
    var n := lst.Count();
    var first := EmlUrls(lst.first.links);
    assert AllHaveNext(views, 0);
    WalkFromFirst(views, first);
    var w := Walk(Concat(obs[1..]) + obs[n - 1], obs[n - 1], n);
    CollectPaginates(v, base, lst, w);
    ConcatFront(obs);
  }

  lemma ConcatFront(obs: seq<seq<Id>>)
    requires obs != []
    ensures obs[0] + (Concat(obs[1..]) + obs[|obs| - 1]) == Concat(obs) + obs[|obs| - 1]
  {
  }

  /** On a wrapping listing whose pages all carry "Next Page" and whose
      neighbouring pages differ, the folder is every observed page in order
      followed by the last page a second time, after exactly one request per
      page. For a one-page listing this needs the page to read the same
      through `LaterIds` as it does first. */
  lemma CollectWraps(v: Variant, base: string, lst: Listing)
    requires !Contains(lst.first.body, SinglePageText)
    requires forall k :: 0 <= k < lst.Count() ==> HasNextPage(lst.PageAt(k))
    requires NeighboursDiffer(Observed(v, base, lst))
    requires lst.Count() == 1 ==> LaterIds(v, base, lst.first) == EmlUrls(lst.first.links)
    ensures var obs := Observed(v, base, lst);
      Collect(v, base, lst)
        == Success(Walk(Concat(obs) + obs[lst.Count() - 1], obs[lst.Count() - 1], lst.Count()))
  {
    if lst.Count() == 1 {
      assert HasNextPage(lst.PageAt(0));
      CollectWrapsSingle(v, base, lst);
    } else {
      CollectWrapsMany(v, base, lst);
    }
  }

  /** The ids the walk reads when it asks for page `j`: that page, or the
      last page again once it has run past the end. */
  ghost function ReadAt(views: seq<View>, j: nat): seq<Id>
    requires views != []
  {
    views[if j < |views| then j else |views| - 1].ids
  }

  /** The ids read when asking for pages `a` up to but excluding `b`, one
      after the other. */
  ghost function Reads(views: seq<View>, a: nat, b: nat): seq<Id>
    requires views != []
    decreases b - a
  {
    if b <= a then [] else ReadAt(views, a) + Reads(views, a + 1, b)
  }

  /** A round that reads the same ids as `last` ends the walk. */
  lemma PaginateStops(views: seq<View>, cur: nat, last: seq<Id>)
    requires cur < |views|
    requires views[cur].hasNext
    requires ReadAt(views, cur + 1) == last
    ensures Paginate(views, cur, last) == Success(Walk(last, last, 1))
  {
    var next := if cur + 1 < |views| then cur + 1 else cur;
    assert views[next].ids == last;
  }

  /** The walk stops at the first repeat. Entered on page `cur` with `last`,
      suppose the pages it stands on before round `m` carry "Next Page" and
      round `m` is the first to read the same ids as the round before. Then
      the walk appends exactly the pages read in rounds `cur + 1` to `m`,
      repeat included, after `m - cur` requests; nothing after page `m` is
      read, even when the listing goes on. */
  lemma {:induction false} PaginateFirstRepeat(views: seq<View>, cur: nat, last: seq<Id>, m: nat)
    requires cur < m <= |views|
    requires forall k :: cur <= k < m ==> views[k].hasNext
    requires m > cur + 1 ==> ReadAt(views, cur + 1) != last
    requires forall j :: cur + 1 < j < m ==> ReadAt(views, j) != ReadAt(views, j - 1)
    requires ReadAt(views, m) == if m == cur + 1 then last else ReadAt(views, m - 1)
    ensures Paginate(views, cur, last)
      == Success(Walk(Reads(views, cur + 1, m + 1), ReadAt(views, m), m - cur))
    decreases m - cur
  {
    if m == cur + 1 {
      PaginateStops(views, cur, last);
      assert Reads(views, m + 1, m + 1) == [];
      assert Reads(views, cur + 1, m + 1) == ReadAt(views, m);
    } else {
      var murls := ReadAt(views, cur + 1);
      PaginateFirstRepeat(views, cur + 1, murls, m);
      PaginateAdvance(views, cur, last, Walk(Reads(views, cur + 2, m + 1), ReadAt(views, m), m - cur - 1));
      assert Reads(views, cur + 1, m + 1) == murls + Reads(views, cur + 2, m + 1);
    }
  }

  /** `get_folder` over a listing without the single-page text stops at the
      first page that reads the same as the one before: if the pages before
      page `m` carry "Next Page" and page `m` is the first repeat (page
      `Count()` stands for the last page requested again), the folder is the
      first page followed by pages 1 to `m`, after `m` requests. The pages
      after `m` are dropped. */
  lemma CollectFirstRepeat(v: Variant, base: string, lst: Listing, m: nat)
    requires !Contains(lst.first.body, SinglePageText)
    requires 1 <= m <= lst.Count()
    requires forall k :: 0 <= k < m ==> HasNextPage(lst.PageAt(k))
    requires m > 1 ==> ReadAt(Views(v, base, lst), 1) != EmlUrls(lst.first.links)
    requires forall j :: 1 < j < m ==> ReadAt(Views(v, base, lst), j) != ReadAt(Views(v, base, lst), j - 1)
    requires ReadAt(Views(v, base, lst), m)
      == if m == 1 then EmlUrls(lst.first.links) else ReadAt(Views(v, base, lst), m - 1)
    ensures var views := Views(v, base, lst);
      Collect(v, base, lst)
        == Success(Walk(EmlUrls(lst.first.links) + Reads(views, 1, m + 1), ReadAt(views, m), m))
  {
    var views := Views(v, base, lst);
    var first := EmlUrls(lst.first.links);
    forall k | 0 <= k < m
      ensures views[k].hasNext
    {
      assert HasNextPage(lst.PageAt(k));
    }
    PaginateFirstRepeat(views, 0, first, m);
    CollectPaginates(v, base, lst, Walk(Reads(views, 1, m + 1), ReadAt(views, m), m));
  }

  /** The ids of each page as served, with nothing stripped. */
  ghost function RawPages(lst: Listing): (r: seq<seq<Id>>)
    ensures |r| == lst.Count()
  {
    seq(lst.Count(), k requires 0 <= k < lst.Count() => EmlUrls(lst.Pages()[k].links))
  }

  /** scraper.py: the folder is P1 ++ P2 ++ ... ++ Pn ++ Pn, the raw links of
      every page with the last page appended twice, after n requests. */
  lemma CollectTopLevelWraps(base: string, lst: Listing)
    requires !Contains(lst.first.body, SinglePageText)
    requires forall k :: 0 <= k < lst.Count() ==> HasNextPage(lst.PageAt(k))
    requires NeighboursDiffer(RawPages(lst))
    ensures var raw := RawPages(lst);
      Collect(TopLevel, base, lst)
        == Success(Walk(Concat(raw) + raw[lst.Count() - 1], raw[lst.Count() - 1], lst.Count()))
  {
    assert Observed(TopLevel, base, lst) == RawPages(lst);
    CollectWraps(TopLevel, base, lst);
  }

  /** weboutlook/scraper.py: the folder is the first page's raw links
      followed by the later pages with the base href stripped, the last of
      them twice, after n requests. */
  lemma CollectPackagedWraps(base: string, lst: Listing)
    requires lst.Count() >= 2
    requires !Contains(lst.first.body, SinglePageText)
    requires forall k :: 0 <= k < lst.Count() ==> HasNextPage(lst.PageAt(k))
    requires NeighboursDiffer(Observed(Packaged, base, lst))
    ensures var obs := Observed(Packaged, base, lst);
      && obs[0] == EmlUrls(lst.first.links)
      && (forall k :: 1 <= k < lst.Count() ==> obs[k] == StripBase(EmlUrls(lst.later[k - 1].links), base))
      && Collect(Packaged, base, lst)
           == Success(Walk(Concat(obs) + obs[lst.Count() - 1], obs[lst.Count() - 1], lst.Count()))
  {
    CollectWraps(Packaged, base, lst);
  }

  /** weboutlook/scraper.py on a one-page listing without the single-page
      text, whose links change when the base href is stripped: the first
      read is raw and the page wraps onto itself stripped, so the stripped
      links come twice after the raw ones, in two requests. */
  lemma CollectPackagedOnePage(base: string, lst: Listing)
    requires lst.Count() == 1
    requires !Contains(lst.first.body, SinglePageText)
    requires HasNextPage(lst.first)
    requires LaterIds(Packaged, base, lst.first) != EmlUrls(lst.first.links)
    ensures var raw := EmlUrls(lst.first.links);
      var stripped := StripBase(raw, base);
      Collect(Packaged, base, lst) == Success(Walk(raw + (stripped + stripped), stripped, 2))
  {
    var views := Views(Packaged, base, lst);
    var raw := EmlUrls(lst.first.links);
    var stripped := StripBase(raw, base);
    assert views[0] == View(stripped, true);
    assert Paginate(views, 0, stripped) == Success(Walk(stripped, stripped, 1));
    assert Paginate(views, 0, raw) == Success(Walk(stripped + stripped, stripped, 2));
    CollectPaginates(Packaged, base, lst, Walk(stripped + stripped, stripped, 2));
  }

  /** The page-count test is a substring test, so any count of two or more
      digits starting with 1 (10 to 19, 100 to 199, ...) also takes the
      single-page shortcut; here "1&nbsp;of&nbsp;12". Only the first page is
      read. */
  lemma SinglePageTextMatchesTwelve(v: Variant, base: string, lst: Listing)
    requires lst.first.body == "Page 1&nbsp;of&nbsp;12"
    ensures Collect(v, base, lst) == Success(Walk(EmlUrls(lst.first.links), EmlUrls(lst.first.links), 0))
  {
    assert OccursAt(lst.first.body, SinglePageText, 6);
    ContainsIffOccurs(lst.first.body, SinglePageText);
  }
}
