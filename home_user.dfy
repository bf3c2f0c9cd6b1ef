/**
 * The home page's publication lists: the main list filtered by category and
 * sorted newest first, the "popular" card and the "ending soon" card, plus
 * the category badge of each card and the loading of publications.
 */
module HomeUser {
  import opened Wrappers
  import opened Records
  import opened Seqs
  import opened UpcomingEvents

  datatype Category = Category(id: string, name: string, icon: string)

  /**
   * The four categories. The icons are kept exactly as the page's text holds
   * them: a Mac Roman reading of the UTF-8 bytes of four emoji.
   */
  const Categories: seq<Category> := [
    Category("musical", "Eventos Musicales", "\U{F8FF}\U{00FC}\U{00E9}\U{00B5}"),
    Category("charity", "Eventos Caritativos", "\U{F8FF}\U{00FC}\U{00ED}\U{00F9}"),
    Category("cultural", "Eventos Culturales", "\U{F8FF}\U{00FC}\U{00E9}\U{00AE}"),
    Category("social", "Eventos Sociales", "\U{F8FF}\U{00FC}\U{00E9}\U{00E2}")
  ]

  /** The icon shown when the category is unknown (the same text as the social icon). */
  const DefaultIcon: string := "\U{F8FF}\U{00FC}\U{00E9}\U{00E2}"
  const DefaultLabel: string := "General"

  /** `categories.find((cat) => cat.id === id)` over a list of categories. */
  function FindCategoryIn(cats: seq<Category>, id: string): (r: Option<Category>)
    ensures r.None? <==> forall i :: 0 <= i < |cats| ==> cats[i].id != id
    ensures r.Some? ==> r.value in cats && r.value.id == id
  {
    Find(cats, (c: Category) => c.id == id)
  }

  function FindCategory(id: string): Option<Category>
  {
    FindCategoryIn(Categories, id)
  }

  datatype Badge = Badge(icon: string, name: string)

  /** A JavaScript string is truthy when it is not empty. */
  predicate HasPhoto(pub: EventRecord)
  {
    |pub.medias.photos| > 0 && pub.medias.photos[0].url != ""
  }

  /**
   * The category tag of a card: drawn only over the card's first photo, and
   * holding the category's icon and name, or the defaults when the category
   * is not one of the four.
   */
  function CardBadge(pub: EventRecord): (b: Option<Badge>)
    ensures b.Some? <==> HasPhoto(pub)
    ensures b.Some? && FindCategory(pub.category).Some? ==>
      b.value == Badge(FindCategory(pub.category).value.icon, FindCategory(pub.category).value.name)
    ensures b.Some? && FindCategory(pub.category).None? ==> b.value == Badge(DefaultIcon, DefaultLabel)
  {
    if !HasPhoto(pub) then None
    else
      var cat := FindCategory(pub.category);
      // `categoryData?.icon || default`: every icon and name is a non-empty string
      var icon := if cat.Some? && cat.value.icon != "" then cat.value.icon else DefaultIcon;
      var name := if cat.Some? && cat.value.name != "" then cat.value.name else DefaultLabel;
      Some(Badge(icon, name))
  }

  /** The four ids are known and every other id falls back to the defaults. */
  lemma KnownCategories(id: string)
    ensures FindCategory(id).Some? <==> id in ["musical", "charity", "cultural", "social"]
  {
    if FindCategory(id).Some? {
      var k :| 0 <= k < |Categories| && Categories[k].id == id;
    }
  }

  // ---- the lists ----

  const AllCategories: string := "all"

  /** `selectedCategory === "all" ? publications : publications.filter(...)`. */
  function FilterByCategory(pubs: seq<EventRecord>, selected: string): (r: seq<EventRecord>)
    ensures selected == AllCategories ==> r == pubs
    ensures forall i :: 0 <= i < |r| && selected != AllCategories ==> r[i].category == selected
  {
    if selected == AllCategories then pubs else Filter(pubs, InCategory(selected))
  }

  function InCategory(category: string): EventRecord -> bool
  {
    (p: EventRecord) => p.category == category
  }

  /**
   * A selected category keeps each publication of that category as often as
   * it occurs, drops every other one, and keeps the original order (filtering
   * commutes with concatenation).
   */
  lemma FilterByCategorySpec(pubs: seq<EventRecord>, more: seq<EventRecord>, selected: string, p: EventRecord)
    requires selected != AllCategories
    ensures multiset(FilterByCategory(pubs, selected))[p] == if p.category == selected then multiset(pubs)[p] else 0
    ensures FilterByCategory(pubs + more, selected) == FilterByCategory(pubs, selected) + FilterByCategory(more, selected)
  {
    FilterCount(pubs, InCategory(selected), p);
    FilterConcat(pubs, more, InCategory(selected));
  }

  /** Newest first: the comparator `new Date(b.startDates) - new Date(a.startDates)` is ascending by `-startDates`. */
  function StartDescKey(p: EventRecord): int
  {
    -p.startDates
  }

  function EndKey(p: EventRecord): int
  {
    p.endDates
  }

  ghost predicate StartNonIncreasing(s: seq<EventRecord>)
  {
    forall i, j :: 0 <= i < j < |s| ==> s[i].startDates >= s[j].startDates
  }

  /** The main list is a permutation of the filtered list, newest start first. */
  lemma SortedByStart(s: seq<EventRecord>)
    ensures StartNonIncreasing(SortByKey(s, StartDescKey))
    ensures multiset(SortByKey(s, StartDescKey)) == multiset(s)
  {
    SortByKeySorted(s, StartDescKey);
    SortByKeyMultiset(s, StartDescKey);
  }

  /** `publications.slice(0, 5).reverse()`. */
  function Popular(pubs: seq<EventRecord>): (r: seq<EventRecord>)
    ensures |r| == if |pubs| < 5 then |pubs| else 5
    ensures forall i :: 0 <= i < |r| ==> r[i] == pubs[|r| - 1 - i]
  {
    Reverse(Take(pubs, 5))
  }

  /**
   * After a render with "all" the state list is sorted newest first, so the
   * popular card, computed from it afterwards, runs oldest first.
   */
  lemma PopularAfterSortAscending(s: seq<EventRecord>)
    ensures var r := Popular(SortByKey(s, StartDescKey));
      forall i, j :: 0 <= i < j < |r| ==> r[i].startDates <= r[j].startDates
  {
    var t := SortByKey(s, StartDescKey);
    SortedByStart(s);
  }

  function EndsAtOrAfter(now: int): EventRecord -> bool
  {
    (p: EventRecord) => p.endDates >= now
  }

  /** `publications.filter(end >= now).sort(by end ascending)`. */
  function Upcoming(pubs: seq<EventRecord>, now: int): (r: seq<EventRecord>)
    ensures |r| <= |pubs|
  {
    SortByKey(Filter(pubs, EndsAtOrAfter(now)), EndKey)
  }

  /** The ending-soon list holds exactly the publications not yet ended, as often as they occur, soonest end first. */
  lemma UpcomingSpec(pubs: seq<EventRecord>, now: int, p: EventRecord)
    ensures p in Upcoming(pubs, now) <==> p in pubs && p.endDates >= now
    ensures multiset(Upcoming(pubs, now))[p] == if p.endDates >= now then multiset(pubs)[p] else 0
    ensures SortedBy(Upcoming(pubs, now), EndKey)
  {
    var f := Filter(pubs, EndsAtOrAfter(now));
    SortByKeyMultiset(f, EndKey);
    SortByKeyMember(f, EndKey, p);
    FilterMember(pubs, EndsAtOrAfter(now), p);
    FilterCount(pubs, EndsAtOrAfter(now), p);
    SortByKeySorted(f, EndKey);
  }

  /** Because of the filter, the ending-soon card never shows a red row. */
  lemma UpcomingNeverRed(pubs: seq<EventRecord>, now: int)
    ensures forall i :: 0 <= i < |Rows(Upcoming(pubs, now), now)| ==> Rows(Upcoming(pubs, now), now)[i].color != Red
  {
    var u := Upcoming(pubs, now);
    forall i | 0 <= i < |u| ensures u[i].endDates >= now {
      UpcomingSpec(pubs, now, u[i]);
    }
    NoRedRows(u, now);
  }

  // ---- the page state ----

  /** The two endpoints `fetchPublications` chooses between. */
  datatype Endpoint = AllPublications | ByCategory(category: string)

  function EndpointFor(category: string): (e: Endpoint)
    ensures e == AllPublications <==> category == AllCategories
    ensures e.ByCategory? ==> e.category == category
  {
    if category == AllCategories then AllPublications else ByCategory(category)
  }

  /** What one render shows. */
  datatype View = View(listed: seq<EventRecord>, popular: seq<EventRecord>, upcoming: seq<EventRecord>)

  class HomeUserPage {
    var publications: array<EventRecord>
    var loadingPublications: bool
    var selectedCategory: string

    constructor ()
      ensures publications[..] == [] && !loadingPublications && selectedCategory == AllCategories
    {
      publications := new EventRecord[0];
      loadingPublications := false;
      selectedCategory := AllCategories;
    }

    /**
     * `fetchPublications(category)`: the endpoint follows the category; a
     * failed fetch leaves the list as it was; loading ends false either way.
     * `api` stands for the two fetch helpers, `None` for a rejection.
     */
    method FetchPublications(category: string, api: Endpoint -> Option<seq<EventRecord>>)
      modifies this
      ensures !loadingPublications && selectedCategory == old(selectedCategory)
      ensures api(EndpointFor(category)).Some? ==>
        fresh(publications) && publications[..] == api(EndpointFor(category)).value
      ensures api(EndpointFor(category)).None? ==> publications == old(publications)
    {
      loadingPublications := true;
      var data := api(if category == AllCategories then AllPublications else ByCategory(category));
      if data.Some? {
        publications := FromSeq(data.value);
      }
      loadingPublications := false;
    }

    /** The mount effect: one `fetchPublications()` with its default category "all", from the full list's endpoint. */
    method Mount(api: Endpoint -> Option<seq<EventRecord>>)
      modifies this
      ensures !loadingPublications && selectedCategory == old(selectedCategory)
      ensures api(AllPublications).Some? ==> fresh(publications) && publications[..] == api(AllPublications).value
      ensures api(AllPublications).None? ==> publications == old(publications)
    {
      FetchPublications(AllCategories, api);
    }

    /** `handleCategoryChange(category)`: records the selection, then fetches for it. */
    method HandleCategoryChange(category: string, api: Endpoint -> Option<seq<EventRecord>>)
      modifies this
      ensures !loadingPublications && selectedCategory == category
      ensures api(EndpointFor(category)).Some? ==>
        fresh(publications) && publications[..] == api(EndpointFor(category)).value
      ensures api(EndpointFor(category)).None? ==> publications == old(publications)
    {
      selectedCategory := category;
      FetchPublications(category, api);
    }

    /**
     * One render. The in-place `sort` of the filtered list reorders the state
     * array itself when the selection is "all" (the filtered list is that
     * array), and the popular and ending-soon lists are computed after it.
     */
    method Render(now: int) returns (view: View)
      modifies publications
      ensures selectedCategory == AllCategories ==>
        publications[..] == SortByKey(old(publications[..]), StartDescKey) && view.listed == publications[..]
      ensures selectedCategory != AllCategories ==>
        publications[..] == old(publications[..])
        && view.listed == SortByKey(FilterByCategory(old(publications[..]), selectedCategory), StartDescKey)
      ensures view.popular == Popular(publications[..])
      ensures view.upcoming == Upcoming(publications[..], now)
    {
      var listed: seq<EventRecord>;
      if selectedCategory == AllCategories {
        SortInPlace(publications, StartDescKey);
        listed := publications[..];
      } else {
        var filtered := FromSeq(Filter(publications[..], InCategory(selectedCategory)));
        SortInPlace(filtered, StartDescKey);
        listed := filtered[..];
      }
      var top := FromSeq(Take(publications[..], 5));
      ReverseInPlace(top);
      var upcoming := FromSeq(Filter(publications[..], EndsAtOrAfter(now)));
      SortInPlace(upcoming, EndKey);
      view := View(listed, top[..], upcoming[..]);
    }
  }
}
