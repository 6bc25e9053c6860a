/** The stateful half of the search page (src/pages/MovieSearchPage.tsx):
    `applyFilters` with its successive filter passes, and the page
    controller whose handlers change `filters`, `filteredMovies`,
    `currentPage` and the visible rows. */
module MovieSearchPage {
  import opened Wrappers
  import opened Movies
  import opened MovieFilters
  import opened Pagination

  /** One `moviesToFilter.filter(callback)` pass. */
  method FilterPass(s: seq<Movie>, p: Movie -> bool) returns (r: seq<Movie>)
    ensures r == Where(s, p)
  {
    r := [];
    var i := 0;
    while i < |s|
      invariant 0 <= i <= |s|
      invariant r == Where(s[..i], p)
    {
      WhereSnoc(s, i, p);
      if p(s[i]) {
        r := r + [s[i]];
      }
      i := i + 1;
    }
    assert s[..|s|] == s;
  }

  /** The release-date step of `applyFilters`: one pass over s with the
      comparison that suits the active bounds, or none when neither bound
      is set. */
  method DatePass(s: seq<Movie>, f: Filters) returns (r: seq<Movie>)
    ensures r == Where(s, m => DateOk(m, f))
  {
    var start, end := ActiveBound(f.releaseDateStart), ActiveBound(f.releaseDateEnd);
    if start.Some? && end.Some? {
      var lo, hi := start.value, end.value;
      var datePass := (m: Movie) => ReleasedWithin(m, lo, hi);
      r := FilterPass(s, datePass);
      WhereExt(s, datePass, m => DateOk(m, f));
    } else if start.Some? {
      var lo := start.value;
      var datePass := (m: Movie) => ReleasedOnOrAfter(m, lo);
      r := FilterPass(s, datePass);
      WhereExt(s, datePass, m => DateOk(m, f));
    } else if end.Some? {
      var hi := end.value;
      var datePass := (m: Movie) => ReleasedOnOrBefore(m, hi);
      r := FilterPass(s, datePass);
      WhereExt(s, datePass, m => DateOk(m, f));
    } else {
      r := s;
      WhereAll(s, m => DateOk(m, f));
    }
  }

  /** `applyFilters`: starting from a copy of the dataset, runs one pass per
      active filter, in the source's order: title, year, director, then
      one of the three release-date passes. */
  method ApplyFilters(all: seq<Movie>, f: Filters) returns (r: seq<Movie>)
    ensures r == Filtered(all, f)
  {
    ghost var upToTitle := (m: Movie) => TitleOk(m, f);
    ghost var upToYear := (m: Movie) => TitleOk(m, f) && YearOk(m, f);
    ghost var upToDirector := (m: Movie) => TitleOk(m, f) && YearOk(m, f) && DirectorOk(m, f);
    ghost var upToDate := (m: Movie) => Matches(m, f);

    r := all;
    if f.title != "" {
      var titlePass := (m: Movie) => TitleMatch(m, f.title);
      r := FilterPass(r, titlePass);
      WhereExt(all, titlePass, upToTitle);
    } else {
      WhereAll(all, upToTitle);
    }

    if f.year != AllYears {
      var yearPass := (m: Movie) => YearMatch(m, f.year);
      r := FilterPass(r, yearPass);
      WhereWhere(all, upToTitle, yearPass, upToYear);
    } else {
      WhereExt(all, upToTitle, upToYear);
    }

    if f.director != "" {
      var directorPass := (m: Movie) => DirectorMatch(m, f.director);
      r := FilterPass(r, directorPass);
      WhereWhere(all, upToYear, directorPass, upToDirector);
    } else {
      WhereExt(all, upToYear, upToDirector);
    }

    ghost var datePass := (m: Movie) => DateOk(m, f);
    r := DatePass(r, f);
    WhereWhere(all, upToDirector, datePass, upToDate);
    FilteredBy(all, f, upToDate);
  }

  /** The page controller. `allMovies` never changes; `currentMovies` is
      recomputed from `filteredMovies` and `currentPage` after every
      transition, as the page's effect does. `searched` records the filters
      `filteredMovies` was last computed from. */
  class SearchPage {
    const allMovies: seq<Movie>
    var filters: Filters
    var filteredMovies: seq<Movie>
    var currentPage: int
    var currentMovies: seq<Movie>
    ghost var searched: Filters

    ghost predicate Valid()
      reads this
    {
      filteredMovies == Filtered(allMovies, searched)
      && currentMovies == PageSlice(filteredMovies, currentPage)
    }

    constructor (movies: seq<Movie>)
      ensures Valid()
      ensures allMovies == movies && filters == InitialFilters
      ensures filteredMovies == movies && currentPage == 1
      ensures currentMovies == PageSlice(movies, 1)
    {
      allMovies := movies;
      filters := InitialFilters;
      filteredMovies := movies;
      currentPage := 1;
      currentMovies := PageSlice(movies, 1);
      searched := InitialFilters;
      InitialFiltersKeepAll(movies);
    }

    /** `handleFilterChange`: only field k changes; the results and the
        page stay as they were until the next search. */
    method EditField(k: Field, v: FieldValue)
      requires Valid() && Fits(k, v)
      modifies this
      ensures Valid()
      ensures filters == SetField(old(filters), k, v)
      ensures filteredMovies == old(filteredMovies) && currentPage == old(currentPage)
      ensures currentMovies == old(currentMovies) && searched == old(searched)
    {
      filters := SetField(filters, k, v);
    }

    /** `handleSearch`: runs the pipeline over the whole dataset with the
        current filters and goes back to page 1. */
    method Search()
      requires Valid()
      modifies this
      ensures Valid()
      ensures filters == old(filters)
      ensures filteredMovies == Filtered(allMovies, filters)
      ensures currentPage == 1 && currentMovies == PageSlice(filteredMovies, 1)
    {
      filteredMovies := ApplyFilters(allMovies, filters);
      currentPage := 1;
      currentMovies := PageSlice(filteredMovies, currentPage);
      searched := filters;
    }

    /** `handleReset`: the initial filters, the whole dataset (without
        running the pipeline) and page 1, whatever the state before. The
        result is the one a search with the initial filters gives. */
    method Reset()
      requires Valid()
      modifies this
      ensures Valid()
      ensures filters == InitialFilters
      ensures filteredMovies == allMovies && filteredMovies == Filtered(allMovies, InitialFilters)
      ensures currentPage == 1 && currentMovies == PageSlice(allMovies, 1)
    {
      filters := InitialFilters;
      filteredMovies := allMovies;
      currentPage := 1;
      currentMovies := PageSlice(filteredMovies, currentPage);
      searched := InitialFilters;
      InitialFiltersKeepAll(allMovies);
    }

    /** `onPageChange={setCurrentPage}`: another page of the same results. */
    method ChangePage(page: int)
      requires Valid()
      modifies this
      ensures Valid()
      ensures currentPage == page && currentMovies == PageSlice(filteredMovies, page)
      ensures filters == old(filters) && filteredMovies == old(filteredMovies)
      ensures searched == old(searched)
    {
      currentPage := page;
      currentMovies := PageSlice(filteredMovies, currentPage);
    }

    /** `totalPages`, the page count the pager receives. */
    function TotalPages(): (r: nat)
      reads this
      ensures r == 0 <==> |filteredMovies| == 0
    {
      Pagination.TotalPages(|filteredMovies|)
    }

    /** The pager is rendered only when there is at least one page. */
    predicate PagerShown(): (r: bool)
      reads this
      ensures r <==> filteredMovies != []
    {
      TotalPages() > 0
    }

    /** Every row on screen is a record of the dataset that passes the
        filters of the last search, and there are at most ten of them. */
    lemma VisibleRowsMatch()
      requires Valid()
      ensures |currentMovies| <= ItemsPerPage
      ensures forall m :: m in currentMovies ==> m in allMovies && Matches(m, searched)
    {
      PageSliceAtMostTen(filteredMovies, currentPage);
      forall m | m in currentMovies
        ensures m in allMovies && Matches(m, searched)
      {
        FilteredMembership(allMovies, searched, m);
      }
    }
  }
}
