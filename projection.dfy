/** The prompt list the main pane shows: the prompts of the selected view, narrowed by the
    search text, in the chosen order. Case folding (`toLowerCase`) and locale-aware title
    comparison (`localeCompare`) are passed in as `lower` and `compare`. */
module Projection {
  import opened Types
  import opened Seqs
  import Text

  /** Whether prompt `p` belongs to the view `active`: "all" shows everything outside the
      trash, "trash" only the trash, and a category id exactly its own prompts (prompts of
      sub-folders are not included). */
  predicate InView(active: string, p: PromptEntry) {
    if active == AllCategoryId then p.categoryId != TrashCategoryId
    else if active == TrashCategoryId then p.categoryId == TrashCategoryId
    else p.categoryId == active
  }

  /** The search test: the lower-cased query occurs in the lower-cased title or content. */
  predicate MatchesSearch(p: PromptEntry, query: string, lower: string -> string) {
    Text.Includes(lower(p.title), lower(query)) || Text.Includes(lower(p.content), lower(query))
  }

  function ViewFilter(active: string): PromptEntry -> bool { p => InView(active, p) }
  function SearchFilter(query: string, lower: string -> string): PromptEntry -> bool { p => MatchesSearch(p, query, lower) }

  /** The comparator handed to `sort`: negative when `a` belongs before `b`. */
  function Comparator(sort: SortOption, compare: (string, string) -> int, a: PromptEntry, b: PromptEntry): int {
    match sort
    case Newest => b.createdAt - a.createdAt
    case Oldest => a.createdAt - b.createdAt
    case TitleAsc => compare(a.title, b.title)
    case TitleDesc => compare(b.title, a.title)
  }

  /** `a` may stay in front of `b`: the comparator does not ask to swap them. */
  function Precedes(sort: SortOption, compare: (string, string) -> int): (PromptEntry, PromptEntry) -> bool {
    (a, b) => Comparator(sort, compare, a, b) <= 0
  }

  /** `filteredAndSortedPrompts`: view filter, then search filter, then a stable sort. */
  function Visible(prompts: seq<PromptEntry>, active: string, query: string, sort: SortOption,
                   lower: string -> string, compare: (string, string) -> int): seq<PromptEntry> {
    var inView := Filter(prompts, ViewFilter(active));
    var found := Filter(inView, SearchFilter(query, lower));
    SortBy(found, Precedes(sort, compare))
  }

  /** The visible list is a reordering of a sub-multiset of the prompts: it holds each prompt
      of the view that matches the search, as often as the store does, and nothing else. */
  lemma VisibleIsSelection(prompts: seq<PromptEntry>, active: string, query: string, sort: SortOption,
                           lower: string -> string, compare: (string, string) -> int)
    ensures multiset(Visible(prompts, active, query, sort, lower, compare)) <= multiset(prompts)
    ensures forall p :: p in Visible(prompts, active, query, sort, lower, compare) <==>
      p in prompts && InView(active, p) && MatchesSearch(p, query, lower)
    ensures forall p :: InView(active, p) && MatchesSearch(p, query, lower) ==>
      multiset(Visible(prompts, active, query, sort, lower, compare))[p] == multiset(prompts)[p]
  {
    var r := Visible(prompts, active, query, sort, lower, compare);
    var inView := Filter(prompts, ViewFilter(active));
    var found := Filter(inView, SearchFilter(query, lower));
    assert multiset(r) == multiset(found);
    forall p ensures multiset(r)[p] <= multiset(prompts)[p] {
      assert multiset(found)[p] <= multiset(inView)[p] <= multiset(prompts)[p];
    }
    forall p ensures p in r <==> p in found {
      assert p in r <==> p in multiset(r);
      assert p in found <==> p in multiset(found);
    }
  }

  /** The view "all" never shows a trashed prompt; the view "trash" shows nothing else; a
      category view shows only prompts filed exactly under that category. */
  lemma VisibleRespectsView(prompts: seq<PromptEntry>, active: string, query: string, sort: SortOption,
                            lower: string -> string, compare: (string, string) -> int)
    ensures active == AllCategoryId ==>
      forall p :: p in Visible(prompts, active, query, sort, lower, compare) ==> p.categoryId != TrashCategoryId
    ensures active == TrashCategoryId ==>
      forall p :: p in Visible(prompts, active, query, sort, lower, compare) ==> p.categoryId == TrashCategoryId
    ensures active != AllCategoryId && active != TrashCategoryId ==>
      forall p :: p in Visible(prompts, active, query, sort, lower, compare) ==> p.categoryId == active
  {
    VisibleIsSelection(prompts, active, query, sort, lower, compare);
  }

  /** With an empty search (and a case folding that keeps the empty string empty) the visible
      list holds exactly the view's prompts. */
  lemma EmptySearchShowsWholeView(prompts: seq<PromptEntry>, active: string, sort: SortOption,
                                  lower: string -> string, compare: (string, string) -> int)
    requires lower("") == ""
    ensures forall p :: p in Visible(prompts, active, "", sort, lower, compare) <==> p in prompts && InView(active, p)
  {
    VisibleIsSelection(prompts, active, "", sort, lower, compare);
    forall p ensures MatchesSearch(p, "", lower) {
      Text.IncludesEmpty(lower(p.title));
    }
  }

  /** Sorting by creation time uses a total preorder. */
  lemma CreatedAtOrders(sort: SortOption, compare: (string, string) -> int)
    requires sort == Newest || sort == Oldest
    ensures Total(Precedes(sort, compare)) && Transitive(Precedes(sort, compare))
  {
  }

  /** "Newest" lists creation times in non-increasing order, "oldest" in non-decreasing order. */
  lemma VisibleSortedByCreation(prompts: seq<PromptEntry>, active: string, query: string, sort: SortOption,
                                lower: string -> string, compare: (string, string) -> int)
    ensures var r := Visible(prompts, active, query, sort, lower, compare);
      sort == Newest ==> forall i, j :: 0 <= i < j < |r| ==> r[i].createdAt >= r[j].createdAt
    ensures var r := Visible(prompts, active, query, sort, lower, compare);
      sort == Oldest ==> forall i, j :: 0 <= i < j < |r| ==> r[i].createdAt <= r[j].createdAt
  {
    if sort == Newest || sort == Oldest {
      var found := Filter(Filter(prompts, ViewFilter(active)), SearchFilter(query, lower));
      CreatedAtOrders(sort, compare);
      SortBySorted(found, Precedes(sort, compare));
    }
  }
}
