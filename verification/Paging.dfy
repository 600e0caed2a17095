/** Discovery's pages: how many items one carries, and what following the answers from page to page gives. */
module Paging {
  import opened Options

  /** An item of a list or of a history: its number in order, and its size as JSON. */
  datatype Item = Item(number: nat, bytes: nat)

  const PAGE_BYTE_BUDGET := 3_670_016
  const MAX_PAGE := 100
  const MAX_VERSIONS_PAGE := 100
  /** The largest offset a request may ask for. */
  const MAX_OFFSET := 1_000_000

  /** The bytes of some items, each with a separator. */
  function Weight(items: seq<Item>): nat {
    if items == [] then 0 else Weight(items[..|items| - 1]) + items[|items| - 1].bytes + 1
  }

  /** Each item counts its bytes and one separator. */
  lemma {:induction false} WeightAddsUp(items: seq<Item>, more: seq<Item>)
    ensures Weight(items + more) == Weight(items) + Weight(more)
    ensures forall item :: Weight([item]) == item.bytes + 1
    decreases |more|
  {
    forall item ensures Weight([item]) == item.bytes + 1 {
      assert [item][..0] == [];
    }
    if more == [] {
      assert items + more == items;
    } else {
      WeightAddsUp(items, more[..|more| - 1]);
      assert (items + more)[..|items + more| - 1] == items + more[..|more| - 1];
    }
  }

  lemma {:induction false} WeightGrows(items: seq<Item>, count: nat)
    requires count <= |items|
    ensures Weight(items[..count]) <= Weight(items)
    decreases |items|
  {
    if count < |items| {
      WeightGrows(items[..|items| - 1], count);
      assert items[..|items| - 1][..count] == items[..count];
    } else {
      assert items[..count] == items;
    }
  }

  /** `count` is the most items, in order, that fit; or one, when not even the first does. */
  ghost predicate Fits(items: seq<Item>, budget: int, count: nat) {
    && count <= |items| && (items != [] ==> count >= 1)
    && (count > 1 ==> Weight(items[..count]) <= budget)
    && (count < |items| ==> Weight(items[..count + 1]) > budget)
  }

  lemma FitsIsUnique(items: seq<Item>, budget: int, a: nat, b: nat)
    requires Fits(items, budget, a) && Fits(items, budget, b)
    ensures a == b
  {
    if a < b {
      assert items[..b][..a + 1] == items[..a + 1];
      WeightGrows(items[..b], a + 1);
    } else if b < a {
      assert items[..a][..b + 1] == items[..b + 1];
      WeightGrows(items[..a], b + 1);
    }
  }

  lemma {:induction false} SomeFit(items: seq<Item>, budget: int, upTo: nat)
    requires upTo <= |items| && forall k | upTo < k <= |items| :: Weight(items[..k]) > budget
    ensures exists count :: Fits(items, budget, count)
    decreases upTo
  {
    if upTo > 1 && Weight(items[..upTo]) > budget {
      SomeFit(items, budget, upTo - 1);
    } else {
      var count := if upTo == 0 && items != [] then 1 else upTo;
      if count < |items| {
        assert Weight(items[..count + 1]) > budget;
      }
      assert Fits(items, budget, count);
    }
  }

  /** How many items a page carries. */
  ghost function Kept(items: seq<Item>, budget: int): (count: nat)
    ensures Fits(items, budget, count)
  {
    SomeFit(items, budget, |items|);
    var count :| Fits(items, budget, count);
    count
  }

  method ItemsWithin(items: seq<Item>, budget: int) returns (count: nat)
    ensures count == Kept(items, budget)
  {
    var bytes, index := 0, 0;
    while index < |items|
      invariant index <= |items| && bytes == Weight(items[..index])
      invariant index > 0 ==> bytes <= budget
    {
      assert items[..index + 1][..index] == items[..index];
      bytes := bytes + items[index].bytes + 1;
      if bytes > budget {
        count := if index < 1 then 1 else index;
        WeightGrows(items[..if count < |items| then count + 1 else count], index + 1);
        FitsIsUnique(items, budget, count, Kept(items, budget));
        return;
      }
      index := index + 1;
    }
    assert items[..index] == items;
    FitsIsUnique(items, budget, |items|, Kept(items, budget));
    return |items|;
  }

  function Lesser(a: int, b: int): int {
    if a < b then a else b
  }

  /** Fits a page, or is alone on it. */
  ghost predicate PageIsSmall(page: seq<Item>) {
    |page| <= 1 || Weight(page) <= PAGE_BYTE_BUDGET
  }

  // --------------------------------------------------------------------------------- the catalog

  /** What a list request is answered: the page, and how many items it says it holds. */
  datatype ListPage = ListPage(items: seq<Item>, limit: nat)

  /** `want` is the limit asked for. */
  ghost function ListAnswer(catalog: seq<Item>, offset: nat, want: nat): (page: ListPage)
    requires want >= 1
    ensures 1 <= page.limit <= want && PageIsSmall(page.items)
    ensures offset < |catalog| ==> page.items != [] && offset + |page.items| <= |catalog|
    ensures offset < |catalog| ==> page.items == catalog[offset..offset + |page.items|]
    ensures offset < |catalog| ==> |page.items| == Lesser(page.limit, |catalog| - offset) && |page.items| <= MAX_PAGE
    ensures offset >= |catalog| ==> page.items == []
  {
    var limit := Lesser(want, MAX_PAGE);
    var items := if offset >= |catalog| then [] else catalog[offset..Lesser(offset + limit, |catalog|)];
    var kept := Kept(items, PAGE_BYTE_BUDGET);
    ListPage(items[..kept], if kept < |items| then kept else limit)
  }

  lemma SliceOfSlice(s: seq<Item>, from: nat, to: nat, count: nat)
    requires from + count <= to <= |s|
    ensures s[from..to][..count] == s[from..from + count]
  {
  }

  /** Of the `most` items from `from` on, all are on a page of `count` items, or as many as fit. */
  ghost predicate IsFull(items: seq<Item>, from: nat, most: nat, count: nat) {
    && from + most <= |items|
    && if most <= 1 || Weight(items[from..from + most]) <= PAGE_BYTE_BUDGET then count == most
       else 1 <= count < most && Weight(items[from..from + count + 1]) > PAGE_BYTE_BUDGET
  }

  lemma KeptIsFull(items: seq<Item>, from: nat, most: nat)
    requires from + most <= |items|
    ensures IsFull(items, from, most, Kept(items[from..from + most], PAGE_BYTE_BUDGET))
  {
    var slice := items[from..from + most];
    var count := Kept(slice, PAGE_BYTE_BUDGET);
    assert slice[..most] == slice;
    if count < most {
      WeightGrows(slice, count + 1);
      SliceOfSlice(items, from, from + most, count + 1);
    }
  }

  /**
   * A page says its limit is the one asked for, up to `MAX_PAGE`, and holds that many items while there are so
   * many; only when they do not fit it holds, and says, as many as do.
   */
  lemma ListPageIsFull(catalog: seq<Item>, offset: nat, want: nat)
    requires want >= 1
    ensures var page, asked := ListAnswer(catalog, offset, want), if want < 100 then want else 100;
            var most := if offset >= |catalog| then 0 else Lesser(asked, |catalog| - offset);
            && (most > 0 ==> IsFull(catalog, offset, most, |page.items|)) && (most == 0 ==> page.items == [])
            && page.limit == if |page.items| < most then |page.items| else asked
  {
    if offset < |catalog| {
      KeptIsFull(catalog, offset, Lesser(Lesser(want, MAX_PAGE), |catalog| - offset));
    }
  }

  /** The items of the pages from `offset` on, each page asked for where the one before says it ends. */
  ghost function Followed(catalog: seq<Item>, offset: nat, wants: nat -> nat): seq<Item>
    requires forall o :: wants(o) >= 1
    decreases |catalog| - offset
  {
    if offset >= |catalog| || offset > MAX_OFFSET then [] else
    var page := ListAnswer(catalog, offset, wants(offset));
    page.items + Followed(catalog, offset + page.limit, wants)
  }

  lemma FollowedFrom(catalog: seq<Item>, offset: nat, wants: nat -> nat)
    requires (forall o :: wants(o) >= 1) && offset < |catalog| && offset <= MAX_OFFSET
    ensures var page := ListAnswer(catalog, offset, wants(offset));
            Followed(catalog, offset, wants) == page.items + Followed(catalog, offset + page.limit, wants)
  {
  }

  lemma Joined(s: seq<Item>, a: nat, b: nat, c: nat)
    requires a <= b <= c <= |s|
    ensures s[a..b] + s[b..c] == s[a..c]
  {
  }

  /** `items` are the catalog's from `offset` on, to its end or to where no page may begin. */
  ghost predicate Enumerated(catalog: seq<Item>, offset: nat, items: seq<Item>) {
    var end := offset + |items|;
    && end <= |catalog| && items == catalog[offset..end]
    && (end == |catalog| || end > MAX_OFFSET)
    && (offset <= MAX_OFFSET ==> end <= MAX_OFFSET + MAX_PAGE)
  }

  lemma EnumeratedOn(catalog: seq<Item>, offset: nat, page: ListPage, rest: seq<Item>)
    requires offset < |catalog| && page.limit >= 1 && offset <= MAX_OFFSET
    requires |page.items| == Lesser(page.limit, |catalog| - offset) <= MAX_PAGE
    requires page.items == catalog[offset..offset + |page.items|]
    requires if offset + page.limit < |catalog| then Enumerated(catalog, offset + page.limit, rest) else rest == []
    requires offset + page.limit > MAX_OFFSET ==> rest == []
    ensures Enumerated(catalog, offset, page.items + rest)
  {
    var on := offset + |page.items|;
    Joined(catalog, offset, on, on + |rest|);
  }

  lemma FollowedOn(catalog: seq<Item>, offset: nat, wants: nat -> nat, rest: seq<Item>)
    requires (forall o :: wants(o) >= 1) && offset < |catalog| && offset <= MAX_OFFSET
    requires var on := offset + ListAnswer(catalog, offset, wants(offset)).limit;
             && rest == Followed(catalog, on, wants)
             && (on < |catalog| ==> Enumerated(catalog, on, rest))
    ensures Enumerated(catalog, offset, Followed(catalog, offset, wants))
  {
    var page := ListAnswer(catalog, offset, wants(offset));
    FollowedFrom(catalog, offset, wants);
    EnumeratedOn(catalog, offset, page, rest);
  }

  /**
   * Following the pages gives every item from `offset` on, once and in order, up to where a page would begin
   * beyond the largest offset a request may ask for.
   */
  lemma {:induction false} FollowedIsCatalog(catalog: seq<Item>, offset: nat, wants: nat -> nat)
    requires (forall o :: wants(o) >= 1) && offset <= |catalog|
    ensures Enumerated(catalog, offset, Followed(catalog, offset, wants))
    decreases |catalog| - offset
  {
    if offset < |catalog| && offset <= MAX_OFFSET {
      var on := offset + ListAnswer(catalog, offset, wants(offset)).limit;
      if on < |catalog| {
        FollowedIsCatalog(catalog, on, wants);
      }
      FollowedOn(catalog, offset, wants, Followed(catalog, on, wants));
    }
  }

  /** Following from `offset` on, a page is asked for at `at`, or would be if requests could go that far. */
  ghost predicate Begins(catalog: seq<Item>, offset: nat, wants: nat -> nat, at: nat)
    requires forall o :: wants(o) >= 1
    decreases |catalog| - offset
  {
    at == offset || (offset < |catalog| && offset <= MAX_OFFSET
      && Begins(catalog, offset + ListAnswer(catalog, offset, wants(offset)).limit, wants, at))
  }

  /** A page begins where no request may go, before the end of the catalog. */
  ghost predicate BeginsTooFar(catalog: seq<Item>, offset: nat, wants: nat -> nat)
    requires forall o :: wants(o) >= 1
  {
    exists at: nat :: MAX_OFFSET < at < |catalog| && Begins(catalog, offset, wants, at)
  }

  lemma BeginsFrom(catalog: seq<Item>, offset: nat, wants: nat -> nat)
    requires forall o :: wants(o) >= 1
    ensures MAX_OFFSET < offset < |catalog| ==> BeginsTooFar(catalog, offset, wants)
    ensures offset < |catalog| && offset <= MAX_OFFSET ==>
              var on := offset + ListAnswer(catalog, offset, wants(offset)).limit;
              BeginsTooFar(catalog, offset, wants) <==> BeginsTooFar(catalog, on, wants)
  {
    if MAX_OFFSET < offset < |catalog| {
      assert Begins(catalog, offset, wants, offset);
    }
    if offset < |catalog| && offset <= MAX_OFFSET {
      var on := offset + ListAnswer(catalog, offset, wants(offset)).limit;
      forall at: nat | at != offset ensures Begins(catalog, offset, wants, at) <==> Begins(catalog, on, wants, at) {
      }
    }
  }

  /** Where the items of the pages end. */
  ghost function EndOfPages(catalog: seq<Item>, offset: nat, wants: nat -> nat): int
    requires forall o :: wants(o) >= 1
  {
    offset + |Followed(catalog, offset, wants)|
  }

  lemma {:induction false} EndsExactly(catalog: seq<Item>, offset: nat, wants: nat -> nat)
    requires (forall o :: wants(o) >= 1) && offset <= |catalog|
    ensures EndOfPages(catalog, offset, wants) == |catalog| <==> !BeginsTooFar(catalog, offset, wants)
    decreases |catalog| - offset
  {
    BeginsFrom(catalog, offset, wants);
    if offset < |catalog| && offset <= MAX_OFFSET {
      var on := offset + ListAnswer(catalog, offset, wants(offset)).limit;
      EndsFrom(catalog, offset, wants);
      if on <= |catalog| {
        EndsExactly(catalog, on, wants);
      }
    }
  }

  lemma EndsFrom(catalog: seq<Item>, offset: nat, wants: nat -> nat)
    requires (forall o :: wants(o) >= 1) && offset < |catalog| && offset <= MAX_OFFSET
    ensures var on := offset + ListAnswer(catalog, offset, wants(offset)).limit;
            && (on <= |catalog| ==> EndOfPages(catalog, offset, wants) == EndOfPages(catalog, on, wants))
            && (on > |catalog| ==> EndOfPages(catalog, offset, wants) == |catalog| && !BeginsTooFar(catalog, on, wants))
  {
    FollowedFrom(catalog, offset, wants);
  }

  /** Some pages give the whole catalog exactly if none of them begins too far. */
  lemma CompleteExactly(catalog: seq<Item>, wants: nat -> nat)
    requires forall o :: wants(o) >= 1
    ensures Followed(catalog, 0, wants) == catalog <==> !BeginsTooFar(catalog, 0, wants)
  {
    FollowedIsCatalog(catalog, 0, wants);
    EndsExactly(catalog, 0, wants);
  }

  /** Pages of one item reach every offset a request may ask for, and no item beyond. */
  lemma {:induction false} OneByOne(catalog: seq<Item>, offset: nat)
    requires offset <= MAX_OFFSET + 1 && offset <= |catalog|
    ensures Followed(catalog, offset, o => 1) == catalog[offset..Lesser(|catalog|, MAX_OFFSET + 1)]
    decreases |catalog| - offset
  {
    if offset < |catalog| && offset <= MAX_OFFSET {
      OneFrom(catalog, offset, o => 1);
      OneByOne(catalog, offset + 1);
      Joined(catalog, offset, offset + 1, Lesser(|catalog|, MAX_OFFSET + 1));
    }
  }

  lemma OneFrom(catalog: seq<Item>, offset: nat, wants: nat -> nat)
    requires (forall o :: wants(o) >= 1) && wants(offset) == 1 && offset < |catalog| && offset <= MAX_OFFSET
    ensures Followed(catalog, offset, wants) == catalog[offset..offset + 1] + Followed(catalog, offset + 1, wants)
  {
    FollowedFrom(catalog, offset, wants);
  }

  ghost predicate AlwaysEnumerated(catalog: seq<Item>) {
    forall wants: nat -> nat | (forall o :: wants(o) >= 1) :: Followed(catalog, 0, wants) == catalog
  }

  /**
   * Whatever limits the requests carry, the pages give the whole catalog exactly if its last item lies at an
   * offset a request may ask for.
   */
  lemma EnumerationIsComplete(catalog: seq<Item>)
    ensures AlwaysEnumerated(catalog) <==> |catalog| <= MAX_OFFSET + 1
  {
    if |catalog| <= MAX_OFFSET + 1 {
      forall wants: nat -> nat | (forall o :: wants(o) >= 1) ensures Followed(catalog, 0, wants) == catalog {
        FollowedIsCatalog(catalog, 0, wants);
      }
    } else {
      OneByOne(catalog, 0);
      assert |Followed(catalog, 0, o => 1)| == MAX_OFFSET + 1;
    }
  }

  /** No limits help a catalog that ends beyond every page that may begin. */
  lemma EnumerationEnds(catalog: seq<Item>, wants: nat -> nat)
    requires forall o :: wants(o) >= 1
    ensures |catalog| > MAX_OFFSET + MAX_PAGE ==> Followed(catalog, 0, wants) != catalog
  {
    FollowedIsCatalog(catalog, 0, wants);
  }

  /** Of a catalog of 1,000,002 items, pages of one item leave out the last. */
  lemma LastItemIsLeftOut()
    ensures var catalog := seq(MAX_OFFSET + 2, i => Item(0, 0));
            Followed(catalog, 0, o => 1) == catalog[..MAX_OFFSET + 1] != catalog
  {
    OneByOne(seq(MAX_OFFSET + 2, i => Item(0, 0)), 0);
  }

  // --------------------------------------------------------------------------- a listing's history

  ghost predicate Ascending(history: seq<Item>) {
    forall i, j | 0 <= i < j < |history| :: history[i].number < history[j].number
  }

  /** Where the versions after one begin. */
  function FirstAbove(history: seq<Item>, after: nat): (i: nat)
    ensures i <= |history|
  {
    if history == [] || history[0].number > after then 0 else 1 + FirstAbove(history[1..], after)
  }

  lemma {:induction false} FirstAboveIs(history: seq<Item>, after: nat, i: nat)
    requires Ascending(history) && i <= |history|
    requires (i > 0 ==> history[i - 1].number <= after) && (i < |history| ==> history[i].number > after)
    ensures FirstAbove(history, after) == i
  {
    if i > 0 {
      assert history[0].number <= after;
      FirstAboveIs(history[1..], after, i - 1);
    }
  }

  /** A page of versions, and the version to go on after, if the listing has later ones. */
  datatype VersionsPage = VersionsPage(items: seq<Item>, next: Option<nat>)

  ghost function VersionsAnswer(history: seq<Item>, latest: nat, after: nat, want: nat): (page: VersionsPage)
    requires want >= 1
    ensures var from := FirstAbove(history, after);
            && from + |page.items| <= |history| && page.items == history[from..from + |page.items|]
            && (page.items == [] <==> from == |history|)
    ensures PageIsSmall(page.items)
    ensures page.next.Some? <==> page.items != [] && page.items[|page.items| - 1].number < latest
    ensures page.next.Some? ==> page.next.value == page.items[|page.items| - 1].number
  {
    var from := FirstAbove(history, after);
    var versions := history[from..Lesser(from + Lesser(want, MAX_VERSIONS_PAGE), |history|)];
    var count := Kept(versions, PAGE_BYTE_BUDGET);
    SliceOfSlice(history, from, from + |versions|, count);
    var page := versions[..count];
    VersionsPage(page, if page != [] && page[|page| - 1].number < latest then Some(page[|page| - 1].number) else None)
  }

  /** A page of versions holds as many as were asked for, up to `MAX_VERSIONS_PAGE`, as there are and as fit. */
  lemma VersionsPageIsFull(history: seq<Item>, latest: nat, after: nat, want: nat, from: nat, most: nat)
    requires want >= 1 && from == FirstAbove(history, after) && most == Lesser(Lesser(want, 100), |history| - from)
    ensures IsFull(history, from, most, |VersionsAnswer(history, latest, after, want).items|)
  {
    KeptIsFull(history, from, most);
    ItemsOfVersions(history, latest, after, want, from, most);
  }

  lemma ItemsOfVersions(history: seq<Item>, latest: nat, after: nat, want: nat, from: nat, most: nat)
    requires want >= 1 && from == FirstAbove(history, after) && most == Lesser(Lesser(want, 100), |history| - from)
    ensures |VersionsAnswer(history, latest, after, want).items|
         == Kept(history[from..from + most], PAGE_BYTE_BUDGET)
  {
    assert from + most == Lesser(from + Lesser(want, MAX_VERSIONS_PAGE), |history|);
  }

  lemma NextBegins(history: seq<Item>, at: nat)
    requires Ascending(history) && 0 < at <= |history|
    ensures FirstAbove(history, history[at - 1].number) == at
  {
    FirstAboveIs(history, history[at - 1].number, at);
  }

  /** What `VersionsAnswer` promises of a page, whatever fits on it. */
  ghost predicate IsPageAfter(history: seq<Item>, latest: nat, after: nat, page: VersionsPage) {
    var from := FirstAbove(history, after);
    && from + |page.items| <= |history| && page.items == history[from..from + |page.items|]
    && (page.items == [] <==> from == |history|)
    && (page.next.Some? <==> page.items != [] && page.items[|page.items| - 1].number < latest)
    && (page.next.Some? ==> page.next.value == page.items[|page.items| - 1].number)
  }

  /** The versions of some pages after `after`, each page asked for after the version the one before names. */
  ghost function FollowedBy(history: seq<Item>, latest: nat, after: nat, pages: nat -> VersionsPage): seq<Item>
    requires Ascending(history) && forall a :: IsPageAfter(history, latest, a, pages(a))
    decreases |history| - FirstAbove(history, after)
  {
    var page := pages(after);
    assert IsPageAfter(history, latest, after, page);
    if page.next.None? then page.items else
    NextBegins(history, FirstAbove(history, after) + |page.items|);
    page.items + FollowedBy(history, latest, page.next.value, pages)
  }

  /** The pages a service gives that is asked for so many each time. */
  ghost function Served(history: seq<Item>, latest: nat, wants: nat -> nat): (pages: nat -> VersionsPage)
    requires forall o :: wants(o) >= 1
    ensures forall a :: pages(a) == VersionsAnswer(history, latest, a, wants(a))
    ensures forall a :: IsPageAfter(history, latest, a, pages(a))
  {
    (a: nat) => VersionsAnswer(history, latest, a, wants(a))
  }

  /** Their versions. */
  ghost function FollowedVersions(history: seq<Item>, latest: nat, after: nat, wants: nat -> nat): seq<Item>
    requires Ascending(history) && forall o :: wants(o) >= 1
  {
    FollowedBy(history, latest, after, Served(history, latest, wants))
  }

  /** No version has a number above the latest. */
  ghost predicate AtMost(history: seq<Item>, latest: nat) {
    forall i | 0 <= i < |history| :: history[i].number <= latest
  }

  lemma LaterVersions(history: seq<Item>, latest: nat, at: nat)
    requires Ascending(history) && 0 < at < |history| && AtMost(history, latest)
    ensures history[at - 1].number < latest
  {
    assert history[at - 1].number < history[at].number;
  }

  /** A page names the version to go on after unless it ends the history, and the next page begins where it ends. */
  lemma NextBeginsWhereItEnds(history: seq<Item>, latest: nat, after: nat, page: VersionsPage)
    requires Ascending(history) && AtMost(history, latest) && IsPageAfter(history, latest, after, page)
    ensures var at := FirstAbove(history, after) + |page.items|;
            if page.next.None? then at == |history| else FirstAbove(history, page.next.value) == at
  {
    var at := FirstAbove(history, after) + |page.items|;
    if 0 < at < |history| {
      LaterVersions(history, latest, at);
    }
    if page.next.Some? {
      NextBegins(history, at);
    }
  }

  lemma Parted(s: seq<Item>, a: nat, b: nat)
    requires a <= b <= |s|
    ensures s[a..b] + s[b..] == s[a..] && s[|s|..] == []
  {
  }

  lemma FollowedByFrom(history: seq<Item>, latest: nat, after: nat, pages: nat -> VersionsPage)
    requires Ascending(history) && forall a :: IsPageAfter(history, latest, a, pages(a))
    ensures var page := pages(after);
            FollowedBy(history, latest, after, pages)
            == page.items + if page.next.None? then [] else FollowedBy(history, latest, page.next.value, pages)
  {
  }

  lemma {:induction false} PagesGiveHistory(history: seq<Item>, latest: nat, after: nat, pages: nat -> VersionsPage)
    requires Ascending(history) && AtMost(history, latest) && forall a :: IsPageAfter(history, latest, a, pages(a))
    ensures FollowedBy(history, latest, after, pages) == history[FirstAbove(history, after)..]
    decreases |history| - FirstAbove(history, after)
  {
    var page, from := pages(after), FirstAbove(history, after);
    assert IsPageAfter(history, latest, after, page);
    NextBeginsWhereItEnds(history, latest, after, page);
    if page.next.Some? {
      PagesGiveHistory(history, latest, page.next.value, pages);
    }
    Parted(history, from, from + |page.items|);
    FollowedByFrom(history, latest, after, pages);
  }

  /** Following `next` gives every version after `after`, once and in order. */
  lemma FollowedVersionsAreHistory(history: seq<Item>, latest: nat, after: nat, wants: nat -> nat)
    requires Ascending(history) && AtMost(history, latest) && forall o :: wants(o) >= 1
    ensures FollowedVersions(history, latest, after, wants) == history[FirstAbove(history, after)..]
  {
    PagesGiveHistory(history, latest, after, Served(history, latest, wants));
  }
}
