/**
 * The application launcher (`Launchpad`): a search box that filters the
 * configured modules and plugins, and a paged grid. Without a search the items
 * are grouped into pages by category (the core Sentra services, other tools,
 * and the QQ adapters); with a search every match is shown on one page. The
 * component keeps two pieces of state, the search term and the current page,
 * and shows the current page clamped to the pages that exist.
 *
 * `displayName` is the display-name lookup of the icon utilities; it is not
 * modelled, so it is a parameter.
 */
module Launchpad {

  import opened Text

  datatype Kind = Module | Plugin

  /** One launcher entry; its click handler is not modelled. */
  datatype Item = Item(name: string, kind: Kind)

  // ---------------------------------------------------------------------------
  // Order-preserving selection
  // ---------------------------------------------------------------------------

  datatype Category = Core | Tools | QQ

  /** The tests by which the component selects items: the search, or one category. */
  datatype Test =
    | Search(term: string, displayName: string -> string)
    | InCategory(category: Category)

  /**
   * The search matches when the display name or the raw name contains the
   * term, both compared in lower case.
   */
  predicate Matches(it: Item, term: string, displayName: string -> string) {
    Contains(ToLower(displayName(it.name)), ToLower(term)) || Contains(ToLower(it.name), ToLower(term))
  }

  /** Names of the core services: a name containing one of them is a core app. */
  const CoreMarkers: seq<string> := ["sentra-prompts", "sentra-mcp", "sentra-emo", "sentra-adapter", "sentra-rag"]

  predicate IsCoreName(lower: string) {
    exists k :: 0 <= k < |CoreMarkers| && Contains(lower, CoreMarkers[k])
  }

  /** The category of an item, decided on its lower-cased name: a core marker first, then `qq_`/`qq-`. */
  function CategoryOf(name: string): Category {
    var lower := ToLower(name);
    if IsCoreName(lower) then Core
    else if Contains(lower, "qq_") || Contains(lower, "qq-") then QQ
    else Tools
  }

  predicate Passes(t: Test, it: Item) {
    match t
    case Search(term, displayName) => Matches(it, term, displayName)
    case InCategory(c) => CategoryOf(it.name) == c
  }

  /** `items.filter(test)`: the items that pass, in their original order. */
  function Keep(items: seq<Item>, t: Test): (r: seq<Item>)
    ensures |r| <= |items|
  {
    if items == [] then []
    else
      var last := items[|items| - 1];
      Keep(items[..|items| - 1], t) + (if Passes(t, last) then [last] else [])
  }

  /** An item is kept exactly when it is in the list and passes. */
  lemma {:induction false} KeepMembers(items: seq<Item>, t: Test)
    ensures forall x :: x in Keep(items, t) <==> x in items && Passes(t, x)
    decreases |items|
  {
    if items != [] {
      var n := |items| - 1;
      KeepMembers(items[..n], t);
      assert items == items[..n] + [items[n]];
    }
  }

  /** The positions of the items that pass, in increasing order. */
  function PassingPositions(items: seq<Item>, t: Test): (idx: seq<int>)
    ensures forall k :: 0 <= k < |idx| ==> 0 <= idx[k] < |items| && Passes(t, items[idx[k]])
    ensures forall j, k :: 0 <= j < k < |idx| ==> idx[j] < idx[k]
    ensures forall i :: 0 <= i < |items| && Passes(t, items[i]) ==> i in idx
  {
    if items == [] then []
    else
      var n := |items| - 1;
      var front := PassingPositions(items[..n], t);
      assert forall k :: 0 <= k < |front| ==> items[..n][front[k]] == items[front[k]];
      front + (if Passes(t, items[n]) then [n] else [])
  }

  /**
   * Selection keeps order: the kept items are exactly the items at the
   * passing positions, read in increasing order, so the result is an
   * order-preserving subsequence of the input that drops nothing that passes.
   */
  lemma {:induction false} KeepSelectsPassingPositions(items: seq<Item>, t: Test)
    ensures |Keep(items, t)| == |PassingPositions(items, t)|
    ensures forall k :: 0 <= k < |Keep(items, t)| ==> Keep(items, t)[k] == items[PassingPositions(items, t)[k]]
    decreases |items|
  {
    if items != [] {
      var n := |items| - 1;
      var front := items[..n];
      KeepSelectsPassingPositions(front, t);
      var kept, idx := Keep(front, t), PassingPositions(front, t);
      forall k | 0 <= k < |kept|
        ensures Keep(items, t)[k] == items[PassingPositions(items, t)[k]]
      {
        assert Keep(items, t)[k] == kept[k];
        assert PassingPositions(items, t)[k] == idx[k];
        assert front[idx[k]] == items[idx[k]];
      }
    }
  }

  // ---------------------------------------------------------------------------
  // Search (filteredItems)
  // ---------------------------------------------------------------------------

  /** `filteredItems` */
  function FilteredItems(items: seq<Item>, term: string, displayName: string -> string): (r: seq<Item>)
    ensures forall x :: x in r <==> x in items && Matches(x, term, displayName)
  {
    KeepMembers(items, Search(term, displayName));
    Keep(items, Search(term, displayName))
  }

  /** Every string contains the empty string. */
  lemma {:induction false} ContainsEmpty(s: string)
    ensures Contains(s, "")
  {
    assert s[..0] == "";
  }

  /** An empty search keeps every item, in order. */
  lemma {:induction false} EmptySearchKeepsAll(items: seq<Item>, displayName: string -> string)
    ensures FilteredItems(items, "", displayName) == items
    decreases |items|
  {
    if items != [] {
      var n := |items| - 1;
      EmptySearchKeepsAll(items[..n], displayName);
      ContainsEmpty(ToLower(items[n].name));
      assert ToLower("") == "";
      assert items[..n] + [items[n]] == items;
    }
  }

  // ---------------------------------------------------------------------------
  // Pages (pages)
  // ---------------------------------------------------------------------------

  function Bucket(items: seq<Item>, c: Category): seq<Item> {
    Keep(items, InCategory(c))
  }

  /** The position of a category's page among the pages. */
  function Rank(c: Category): nat {
    match c
    case Core => 0
    case Tools => 1
    case QQ => 2
  }

  /**
   * `pages`: one page with every match while searching; otherwise the
   * non-empty categories in the order core, tools, qq, or a single empty page
   * when all three are empty.
   */
  function PagesOf(filtered: seq<Item>, searchTerm: string): seq<seq<Item>> {
    if searchTerm != "" then [filtered]
    else
      var core, tools, qq := Bucket(filtered, Core), Bucket(filtered, Tools), Bucket(filtered, QQ);
      var result := (if |core| > 0 then [core] else []) + (if |tools| > 0 then [tools] else []) + (if |qq| > 0 then [qq] else []);
      if |result| > 0 then result else [[]]
  }

  /** The `pages` memo: one pass over the matches pushing each into its category. */
  method CategorisePages(filtered: seq<Item>, searchTerm: string) returns (pages: seq<seq<Item>>)
    ensures pages == PagesOf(filtered, searchTerm)
  {
    if searchTerm != "" {
      return [filtered];
    }
    var core: seq<Item> := [];
    var tools: seq<Item> := [];
    var qq: seq<Item> := [];
    for k := 0 to |filtered|
      invariant core == Bucket(filtered[..k], Core)
      invariant tools == Bucket(filtered[..k], Tools)
      invariant qq == Bucket(filtered[..k], QQ)
    {
      var item := filtered[k];
      assert filtered[..k + 1][..k] == filtered[..k];
      match CategoryOf(item.name)
      case Core => core := core + [item];
      case QQ => qq := qq + [item];
      case Tools => tools := tools + [item];
    }
    assert filtered[..|filtered|] == filtered;
    var result: seq<seq<Item>> := [];
    if |core| > 0 {
      result := result + [core];
    }
    if |tools| > 0 {
      result := result + [tools];
    }
    if |qq| > 0 {
      result := result + [qq];
    }
    pages := if |result| > 0 then result else [[]];
  }

  /** All the pages' items, page after page. */
  function Flatten(pages: seq<seq<Item>>): seq<Item> {
    if pages == [] then [] else pages[0] + Flatten(pages[1..])
  }

  /** Every item falls into exactly one category: the three buckets partition the list. */
  lemma {:induction false} CategoriesPartition(items: seq<Item>)
    ensures multiset(items) == multiset(Bucket(items, Core)) + multiset(Bucket(items, Tools)) + multiset(Bucket(items, QQ))
    decreases |items|
  {
    if items != [] {
      var n := |items| - 1;
      var front, last := items[..n], items[n];
      CategoriesPartition(front);
      assert items == front + [last];
      assert multiset(items) == multiset(front) + multiset{last};
      match CategoryOf(last.name)
      case Core =>
        assert Bucket(items, Core) == Bucket(front, Core) + [last];
        assert Bucket(items, Tools) == Bucket(front, Tools);
        assert Bucket(items, QQ) == Bucket(front, QQ);
      case Tools =>
        assert Bucket(items, Core) == Bucket(front, Core);
        assert Bucket(items, Tools) == Bucket(front, Tools) + [last];
        assert Bucket(items, QQ) == Bucket(front, QQ);
      case QQ =>
        assert Bucket(items, Core) == Bucket(front, Core);
        assert Bucket(items, Tools) == Bucket(front, Tools);
        assert Bucket(items, QQ) == Bucket(front, QQ) + [last];
    }
  }

  /** A core marker decides the category even when the name also has a `qq_` or `qq-` tag. */
  lemma CoreTakesPrecedence(name: string, k: nat)
    requires k < |CoreMarkers| && Contains(ToLower(name), CoreMarkers[k])
    ensures CategoryOf(name) == Core
  {
  }

  /**
   * There is always a page, and the pages hold every match exactly once: as
   * the single search page, or spread over the category pages.
   */
  lemma PagesCoverMatches(filtered: seq<Item>, searchTerm: string)
    ensures |PagesOf(filtered, searchTerm)| >= 1
    ensures searchTerm != "" ==> PagesOf(filtered, searchTerm) == [filtered]
    ensures multiset(Flatten(PagesOf(filtered, searchTerm))) == multiset(filtered)
  {
    var pages := PagesOf(filtered, searchTerm);
    if searchTerm == "" {
      CategoriesPartition(filtered);
      var core, tools, qq := Bucket(filtered, Core), Bucket(filtered, Tools), Bucket(filtered, QQ);
      FlattenThree(core, tools, qq);
    } else {
      assert Flatten([filtered]) == filtered + Flatten([]);
    }
  }

  /** A page pushed only when non-empty contributes exactly its items. */
  lemma FlattenOptional(a: seq<Item>)
    ensures Flatten(if |a| > 0 then [a] else []) == a
  {
    if |a| > 0 {
      assert Flatten([a]) == a + Flatten([]);
    }
  }

  /** Flattening the non-empty pages among three gives the three pages' items. */
  lemma FlattenThree(a: seq<Item>, b: seq<Item>, c: seq<Item>)
    ensures var pages := (if |a| > 0 then [a] else []) + (if |b| > 0 then [b] else []) + (if |c| > 0 then [c] else []);
      multiset(Flatten(if |pages| > 0 then pages else [[]])) == multiset(a) + multiset(b) + multiset(c)
  {
    var pa: seq<seq<Item>> := if |a| > 0 then [a] else [];
    var pb: seq<seq<Item>> := if |b| > 0 then [b] else [];
    var pc: seq<seq<Item>> := if |c| > 0 then [c] else [];
    FlattenAppend(pa + pb, pc);
    FlattenAppend(pa, pb);
    FlattenOptional(a);
    FlattenOptional(b);
    FlattenOptional(c);
    assert Flatten(pa + pb + pc) == a + b + c;
    if |pa + pb + pc| == 0 {
      assert Flatten([[]]) == [] + Flatten([]);
    }
  }

  lemma {:induction false} FlattenAppend(p: seq<seq<Item>>, q: seq<seq<Item>>)
    ensures Flatten(p + q) == Flatten(p) + Flatten(q)
    decreases |p|
  {
    if p != [] {
      FlattenAppend(p[1..], q);
      assert (p + q)[0] == p[0];
      assert (p + q)[1..] == p[1..] + q;
      calc {
        Flatten(p + q);
        p[0] + Flatten(p[1..] + q);
        p[0] + (Flatten(p[1..]) + Flatten(q));
        (p[0] + Flatten(p[1..])) + Flatten(q);
      }
    } else {
      assert p + q == q;
    }
  }

  /** The categories that get a page without a search, in page order. */
  function CategoriesShown(filtered: seq<Item>): seq<Category> {
    (if |Bucket(filtered, Core)| > 0 then [Core] else [])
      + (if |Bucket(filtered, Tools)| > 0 then [Tools] else [])
      + (if |Bucket(filtered, QQ)| > 0 then [QQ] else [])
  }

  /** Pushing each of three groups only when it is non-empty. */
  lemma PushNonEmpty<T>(a: seq<T>, b: seq<T>, c: seq<T>, ca: Category, cb: Category, cc: Category)
    ensures var pages := (if |a| > 0 then [a] else []) + (if |b| > 0 then [b] else []) + (if |c| > 0 then [c] else []);
      var shown := (if |a| > 0 then [ca] else []) + (if |b| > 0 then [cb] else []) + (if |c| > 0 then [cc] else []);
      && |pages| == |shown|
      && (forall k :: 0 <= k < |pages| ==> pages[k] != [])
      && (forall k :: 0 <= k < |pages| ==>
            (shown[k] == ca && pages[k] == a) || (shown[k] == cb && pages[k] == b) || (shown[k] == cc && pages[k] == c))
      && (forall j, k :: 0 <= j < k < |shown| ==>
            (shown[j] == ca && shown[k] in {cb, cc}) || (shown[j] == cb && shown[k] == cc))
  {
  }

  /**
   * Without a search there is one page per category that has items and no
   * other page (a single empty page when nothing matches), each page holds
   * that category's items, and the pages come in the order core, tools, qq.
   */
  lemma PagesFollowCategoryOrder(filtered: seq<Item>)
    ensures var pages, shown := PagesOf(filtered, ""), CategoriesShown(filtered);
      && (filtered == [] ==> pages == [[]])
      && (filtered != [] ==> (|pages| == |shown|
            && forall k :: 0 <= k < |shown| ==> pages[k] == Bucket(filtered, shown[k]) && pages[k] != []))
      && forall j, k :: 0 <= j < k < |shown| ==> Rank(shown[j]) < Rank(shown[k])
  {
    var core, tools, qq := Bucket(filtered, Core), Bucket(filtered, Tools), Bucket(filtered, QQ);
    PushNonEmpty(core, tools, qq, Core, Tools, QQ);
    if filtered != [] {
      SomeCategoryHasItems(filtered);
    }
  }

  lemma SomeCategoryHasItems(filtered: seq<Item>)
    requires filtered != []
    ensures |Bucket(filtered, Core)| > 0 || |Bucket(filtered, Tools)| > 0 || |Bucket(filtered, QQ)| > 0
  {
    CategoriesPartition(filtered);
    assert filtered[0] in multiset(filtered);
  }

  // ---------------------------------------------------------------------------
  // Page index (activePage, handlePageChange)
  // ---------------------------------------------------------------------------

  /** `Math.min(currentPage, totalPages - 1)` */
  function ActiveIndex(current: int, total: nat): (p: int)
    requires 0 <= current && 1 <= total
    ensures 0 <= p < total
    ensures current < total ==> p == current
    ensures total <= current ==> p == total - 1
  {
    if current < total - 1 then current else total - 1
  }

  /** `setCurrentPage(p => Math.max(0, p - 1))` */
  function PrevPage(p: int): (r: int)
    requires 0 <= p
    ensures 0 <= r <= p && (p > 0 ==> r == p - 1)
  {
    if p - 1 > 0 then p - 1 else 0
  }

  /** `setCurrentPage(p => Math.min(totalPages - 1, p + 1))` */
  function NextPage(p: int, total: nat): (r: int)
    requires 0 <= p && 1 <= total
    ensures 0 <= r < total
    ensures p + 1 < total ==> r == p + 1
    ensures total <= p + 1 ==> r == total - 1
  {
    if total - 1 < p + 1 then total - 1 else p + 1
  }

  /**
   * The previous-page handler steps back from the stored page, not from the
   * page on screen. After the item list shrinks (a prop change does not reset
   * the page), the stored page can lie beyond the last page; the screen then
   * shows the last page with its previous-page button enabled, and pressing
   * it leaves the same page on screen.
   */
  lemma StalePrevDoesNotMove(p: int, total: nat)
    requires 2 <= total <= p
    ensures ActiveIndex(p, total) > 0
    ensures ActiveIndex(PrevPage(p), total) == ActiveIndex(p, total)
  {
  }

  /** Stepping back from the page on screen. */
  function CorrectedPrevPage(p: int, total: nat): (r: int)
    requires 0 <= p && 1 <= total
    ensures 0 <= r < total
  {
    PrevPage(ActiveIndex(p, total))
  }

  /** With the corrected handler, previous-page always moves the screen one page back when it is enabled. */
  lemma CorrectedPrevMovesBack(p: int, total: nat)
    requires 0 <= p && 1 <= total && ActiveIndex(p, total) > 0
    ensures ActiveIndex(CorrectedPrevPage(p, total), total) == ActiveIndex(p, total) - 1
  {
  }

  datatype Direction = Prev | Next

  /** The launcher component with its state. */
  class LaunchpadView {
    const displayName: string -> string
    var items: seq<Item>
    var searchTerm: string
    var currentPage: int

    /** No handler makes the page index negative. */
    ghost predicate Valid()
      reads this
    {
      currentPage >= 0
    }

    function Pages(): seq<seq<Item>>
      reads this
    {
      PagesOf(FilteredItems(items, searchTerm, displayName), searchTerm)
    }

    function TotalPages(): (n: nat)
      reads this
      ensures n >= 1
    {
      PagesCoverMatches(FilteredItems(items, searchTerm, displayName), searchTerm);
      |Pages()|
    }

    /** `activePage`: always the index of an existing page. */
    function ActivePage(): (p: int)
      reads this
      requires Valid()
      ensures 0 <= p < TotalPages()
    {
      ActiveIndex(currentPage, TotalPages())
    }

    /** `useState('')` and `useState(0)` */
    constructor (items: seq<Item>, displayName: string -> string)
      ensures Valid()
      ensures this.items == items && this.displayName == displayName
      ensures searchTerm == "" && currentPage == 0
    {
      this.displayName := displayName;
      this.items := items;
      searchTerm := "";
      currentPage := 0;
    }

    /** A new `items` prop: the lists are recomputed, the stored page is kept. */
    method ReceiveItems(newItems: seq<Item>)
      modifies this
      requires Valid()
      ensures Valid()
      ensures items == newItems && searchTerm == old(searchTerm) && currentPage == old(currentPage)
    {
      items := newItems;
    }

    /** The search box's `onChange`: the new term, and back to the first page. */
    method ChangeSearch(term: string)
      modifies this
      ensures Valid()
      ensures searchTerm == term && currentPage == 0 && items == old(items)
      ensures ActivePage() == 0
    {
      searchTerm := term;
      currentPage := 0;
    }

    /**
     * `handlePageChange(direction)`, with the previous-page step taken from
     * the page on screen (see `StalePrevDoesNotMove`): either button moves the
     * page on screen by one within the existing pages, and the stored page is
     * an existing page afterwards.
     */
    method PageChange(direction: Direction)
      modifies this
      requires Valid()
      ensures Valid()
      ensures items == old(items) && searchTerm == old(searchTerm)
      ensures direction == Prev ==> currentPage == CorrectedPrevPage(old(currentPage), TotalPages())
      ensures direction == Next ==> currentPage == NextPage(old(currentPage), TotalPages())
      ensures currentPage < TotalPages()
      ensures direction == Prev ==> ActivePage() == PrevPage(old(ActivePage()))
      ensures direction == Next ==> ActivePage() == NextPage(old(ActivePage()), TotalPages())
    {
      if direction == Prev {
        currentPage := CorrectedPrevPage(currentPage, TotalPages());
      } else {
        currentPage := NextPage(currentPage, TotalPages());
      }
    }

    /** A pagination dot: jump to that page. */
    method SelectPage(idx: int)
      modifies this
      requires 0 <= idx < TotalPages()
      ensures Valid()
      ensures currentPage == idx && items == old(items) && searchTerm == old(searchTerm)
      ensures ActivePage() == idx
    {
      currentPage := idx;
    }
  }
}
