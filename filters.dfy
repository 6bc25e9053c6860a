/** The pure half of the search page (src/pages/MovieSearchPage.tsx): the
    filter state, the criterion each filter pass applies to one record,
    the stable filter the passes are made of, and field edits. */
module MovieFilters {
  import opened Wrappers
  import opened Text
  import opened Numbers
  import opened Dates
  import opened Movies

  /** A JavaScript Date as the calendar widget hands it over: either an
      Invalid Date or midnight of a day, given by its day number. */
  datatype DateValue = InvalidDate | Day(dayNumber: int)

  /** The filter state. A date bound is None while it is `undefined`. */
  datatype Filters = Filters(
    title: string,
    year: string,
    director: string,
    releaseDateStart: Option<DateValue>,
    releaseDateEnd: Option<DateValue>)

  /** The year option that means "any year". */
  const AllYears: string := "전체"

  const InitialFilters: Filters := Filters("", AllYears, "", None, None)

  /** A date bound takes part in the search only when it is set and
      `isValid` holds of it. */
  function ActiveBound(b: Option<DateValue>): (r: Option<int>)
    ensures r.Some? <==> b.Some? && b.value.Day?
    ensures r.Some? ==> r.value == b.value.dayNumber
  {
    match b
    case Some(Day(n)) => Some(n)
    case _ => None
  }

  // The criterion of each filter pass, as the source's callbacks state it.

  predicate TitleMatch(m: Movie, q: string) {
    Contains(Lower(m.titleKorean), Lower(q)) || Contains(Lower(m.titleEnglish), Lower(q))
  }

  /** `movie.productionYear === parseInt(year)`; NaN equals nothing. */
  predicate YearMatch(m: Movie, year: string) {
    ParseInt(year) == Some(m.productionYear)
  }

  predicate DirectorMatch(m: Movie, q: string) {
    Contains(Lower(m.director), Lower(q))
  }

  /** The three release-date callbacks: a record whose date does not
      parse is dropped by each of them. */
  predicate ReleasedWithin(m: Movie, lo: int, hi: int) {
    match ParseDate(m.releaseDate)
    case None => false
    case Some(d) => lo <= d <= hi
  }

  predicate ReleasedOnOrAfter(m: Movie, lo: int) {
    match ParseDate(m.releaseDate)
    case None => false
    case Some(d) => d >= lo
  }

  predicate ReleasedOnOrBefore(m: Movie, hi: int) {
    match ParseDate(m.releaseDate)
    case None => false
    case Some(d) => d <= hi
  }

  // Each filter with its activation condition: an inactive filter keeps
  // every record.

  predicate TitleOk(m: Movie, f: Filters) {
    f.title == "" || TitleMatch(m, f.title)
  }

  predicate YearOk(m: Movie, f: Filters) {
    f.year == AllYears || YearMatch(m, f.year)
  }

  predicate DirectorOk(m: Movie, f: Filters) {
    f.director == "" || DirectorMatch(m, f.director)
  }

  /** The release-date window: both bounds, else the start only, else the
      end only, else no constraint. */
  predicate DateOk(m: Movie, f: Filters) {
    match (ActiveBound(f.releaseDateStart), ActiveBound(f.releaseDateEnd))
    case (Some(lo), Some(hi)) => ReleasedWithin(m, lo, hi)
    case (Some(lo), None) => ReleasedOnOrAfter(m, lo)
    case (None, Some(hi)) => ReleasedOnOrBefore(m, hi)
    case (None, None) => true
  }

  /** A record survives the whole pipeline when it passes every filter. */
  predicate Matches(m: Movie, f: Filters) {
    TitleOk(m, f) && YearOk(m, f) && DirectorOk(m, f) && DateOk(m, f)
  }

  /** `Array.prototype.filter`: the records satisfying p, in order. */
  function Where(s: seq<Movie>, p: Movie -> bool): (r: seq<Movie>)
    ensures |r| <= |s|
  {
    if s == [] then []
    else Where(s[..|s| - 1], p) + (if p(s[|s| - 1]) then [s[|s| - 1]] else [])
  }

  /** What the pipeline yields for the dataset `all` under filters f. */
  function Filtered(all: seq<Movie>, f: Filters): seq<Movie> {
    Where(all, m => Matches(m, f))
  }

  lemma WhereSnoc(s: seq<Movie>, k: nat, p: Movie -> bool)
    requires k < |s|
    ensures Where(s[..k + 1], p) == Where(s[..k], p) + (if p(s[k]) then [s[k]] else [])
  {
    assert s[..k + 1][..k] == s[..k];
  }

  /** Where picks out exactly the positions of s whose record satisfies p,
      in increasing order: idx lists them. */
  lemma {:induction false} WhereSelects(s: seq<Movie>, p: Movie -> bool) returns (idx: seq<nat>)
    ensures |idx| == |Where(s, p)|
    ensures forall k :: 0 <= k < |idx| ==> idx[k] < |s| && Where(s, p)[k] == s[idx[k]] && p(s[idx[k]])
    ensures forall k1, k2 :: 0 <= k1 < k2 < |idx| ==> idx[k1] < idx[k2]
    ensures forall j :: 0 <= j < |s| && p(s[j]) ==> j in idx
  {
    if s == [] {
      idx := [];
    } else {
      var n := |s| - 1;
      var init := s[..n];
      var front := WhereSelects(init, p);
      if p(s[n]) {
        idx := front + [n];
        assert Where(s, p) == Where(init, p) + [s[n]];
      } else {
        idx := front;
      }
    }
  }

  /** A record is kept iff it occurs in s and satisfies p. */
  lemma {:induction false} WhereMembership(s: seq<Movie>, p: Movie -> bool, m: Movie)
    ensures m in Where(s, p) <==> m in s && p(m)
  {
    if s != [] {
      var n := |s| - 1;
      WhereMembership(s[..n], p, m);
      SplitLast(s);
    }
  }

  lemma {:induction false} WhereAppend(a: seq<Movie>, b: seq<Movie>, p: Movie -> bool)
    ensures Where(a + b, p) == Where(a, p) + Where(b, p)
    decreases |b|
  {
    if b == [] {
      assert a + b == a;
    } else {
      var n := |b| - 1;
      assert (a + b)[..|a + b| - 1] == a + b[..n];
      WhereAppend(a, b[..n], p);
    }
  }

  /** Two predicates that agree on every record filter alike. */
  lemma {:induction false} WhereExt(s: seq<Movie>, p: Movie -> bool, q: Movie -> bool)
    requires forall m :: m in s ==> p(m) == q(m)
    ensures Where(s, p) == Where(s, q)
  {
    if s != [] {
      var n := |s| - 1;
      assert forall m :: m in s[..n] ==> m in s;
      WhereExt(s[..n], p, q);
    }
  }

  /** A predicate every record satisfies keeps the whole sequence. */
  lemma {:induction false} WhereAll(s: seq<Movie>, p: Movie -> bool)
    requires forall m :: m in s ==> p(m)
    ensures Where(s, p) == s
  {
    if s != [] {
      var n := |s| - 1;
      var init := s[..n];
      assert forall m :: m in init ==> m in s;
      WhereAll(init, p);
      assert p(s[n]);
      assert Where(s, p) == init + [s[n]];
      SplitLast(s);
    }
  }

  /** A non-empty sequence is its front followed by its last element. */
  lemma SplitLast<T>(s: seq<T>)
    requires s != []
    ensures s[..|s| - 1] + [s[|s| - 1]] == s
  {
  }

  /** Two passes in a row equal one pass with the conjunction. */
  lemma {:induction false} WhereWhere(s: seq<Movie>, p: Movie -> bool, q: Movie -> bool, pq: Movie -> bool)
    requires forall m :: m in s ==> pq(m) == (p(m) && q(m))
    ensures Where(Where(s, p), q) == Where(s, pq)
  {
    if s != [] {
      var n := |s| - 1;
      assert forall m :: m in s[..n] ==> m in s;
      WhereWhere(s[..n], p, q, pq);
      WhereAppend(Where(s[..n], p), if p(s[n]) then [s[n]] else [], q);
    }
  }

  /** Any predicate that agrees with Matches filters as the pipeline does. */
  lemma FilteredBy(all: seq<Movie>, f: Filters, p: Movie -> bool)
    requires forall m :: m in all ==> p(m) == Matches(m, f)
    ensures Filtered(all, f) == Where(all, p)
  {
    WhereExt(all, p, m => Matches(m, f));
  }

  // Properties of the pipeline.

  /** With the initial filters every record is kept, in the same order. */
  lemma InitialFiltersKeepAll(all: seq<Movie>)
    ensures Filtered(all, InitialFilters) == all
  {
    WhereAll(all, m => Matches(m, InitialFilters));
  }

  /** The result is an order-preserving subsequence of the dataset: idx
      gives the dataset position of each kept record. */
  lemma FilteredIsSubsequence(all: seq<Movie>, f: Filters) returns (idx: seq<nat>)
    ensures |idx| == |Filtered(all, f)| <= |all|
    ensures forall k :: 0 <= k < |idx| ==> idx[k] < |all| && Filtered(all, f)[k] == all[idx[k]]
    ensures forall k1, k2 :: 0 <= k1 < k2 < |idx| ==> idx[k1] < idx[k2]
  {
    idx := WhereSelects(all, m => Matches(m, f));
  }

  /** A record is in the result iff it is in the dataset and passes every
      active filter. */
  lemma FilteredMembership(all: seq<Movie>, f: Filters, m: Movie)
    ensures m in Filtered(all, f) <==> m in all && Matches(m, f)
  {
    WhereMembership(all, x => Matches(x, f), m);
  }

  /** Title search alone: with a non-empty query q, a record is kept iff
      the lower-cased query occurs in its lower-cased Korean or English
      title. */
  lemma TitleSearch(all: seq<Movie>, q: string, m: Movie)
    requires q != ""
    ensures var f := InitialFilters.(title := q);
      m in Filtered(all, f) <==>
        m in all && (Contains(Lower(m.titleKorean), Lower(q)) || Contains(Lower(m.titleEnglish), Lower(q)))
  {
    FilteredMembership(all, InitialFilters.(title := q), m);
  }

  /** Director search alone works the same way on the director field. */
  lemma DirectorSearch(all: seq<Movie>, q: string, m: Movie)
    requires q != ""
    ensures var f := InitialFilters.(director := q);
      m in Filtered(all, f) <==> m in all && Contains(Lower(m.director), Lower(q))
  {
    FilteredMembership(all, InitialFilters.(director := q), m);
  }

  /** Whatever the other filters, a kept record satisfies each active text
      criterion and, unless the year is "전체", has the parsed year. */
  lemma KeptRecordSatisfiesActiveFilters(all: seq<Movie>, f: Filters, m: Movie)
    requires m in Filtered(all, f)
    ensures f.title != "" ==> TitleMatch(m, f.title)
    ensures f.year != AllYears ==> ParseInt(f.year) == Some(m.productionYear)
    ensures f.director != "" ==> DirectorMatch(m, f.director)
  {
    FilteredMembership(all, f, m);
  }

  /** With the year on "전체" the production year has no effect. */
  lemma AllYearsIgnoresYear(all: seq<Movie>, f: Filters, m: Movie, year: int)
    requires f.year == AllYears
    ensures Matches(m.(productionYear := year), f) == Matches(m, f)
    ensures m.(productionYear := year) in Filtered(all, f) <==>
            m.(productionYear := year) in all && Matches(m, f)
  {
    FilteredMembership(all, f, m.(productionYear := year));
  }

  /** Year search alone keeps exactly the records whose production year
      equals the parsed year text. */
  lemma YearSearch(all: seq<Movie>, year: string, m: Movie)
    requires year != AllYears
    ensures m in Filtered(all, InitialFilters.(year := year)) <==>
            m in all && ParseInt(year) == Some(m.productionYear)
  {
    FilteredMembership(all, InitialFilters.(year := year), m);
  }

  /** Year search alone: with the year text parsing to n, a record is kept
      iff its production year is n. */
  lemma YearOnlyMatches(m: Movie, year: string, n: int)
    requires year != AllYears && ParseInt(year) == Some(n)
    ensures Matches(m, InitialFilters.(year := year)) <==> m.productionYear == n
  {
  }

  /** Both bounds valid: kept iff the release date parses and lies in the
      closed window. */
  lemma DateWindowBoth(all: seq<Movie>, lo: int, hi: int, m: Movie)
    ensures var f := InitialFilters.(releaseDateStart := Some(Day(lo)), releaseDateEnd := Some(Day(hi)));
      m in Filtered(all, f) <==>
        m in all && ParseDate(m.releaseDate).Some? && lo <= ParseDate(m.releaseDate).value <= hi
  {
    FilteredMembership(all, InitialFilters.(releaseDateStart := Some(Day(lo)), releaseDateEnd := Some(Day(hi))), m);
  }

  /** Only the start bound valid (the end unset or an Invalid Date): kept
      iff the release date parses and is on or after the start. */
  lemma DateWindowStartOnly(all: seq<Movie>, lo: int, end: Option<DateValue>, m: Movie)
    requires ActiveBound(end).None?
    ensures var f := InitialFilters.(releaseDateStart := Some(Day(lo)), releaseDateEnd := end);
      m in Filtered(all, f) <==>
        m in all && ParseDate(m.releaseDate).Some? && ParseDate(m.releaseDate).value >= lo
  {
    FilteredMembership(all, InitialFilters.(releaseDateStart := Some(Day(lo)), releaseDateEnd := end), m);
  }

  /** Only the end bound valid: kept iff the release date parses and is on
      or before the end. */
  lemma DateWindowEndOnly(all: seq<Movie>, start: Option<DateValue>, hi: int, m: Movie)
    requires ActiveBound(start).None?
    ensures var f := InitialFilters.(releaseDateStart := start, releaseDateEnd := Some(Day(hi)));
      m in Filtered(all, f) <==>
        m in all && ParseDate(m.releaseDate).Some? && ParseDate(m.releaseDate).value <= hi
  {
    FilteredMembership(all, InitialFilters.(releaseDateStart := start, releaseDateEnd := Some(Day(hi))), m);
  }

  /** Fail-closed: with any valid bound, a record whose release date does
      not parse is never kept; with no valid bound the release date has
      no effect. */
  lemma UnparsableDateExcluded(all: seq<Movie>, f: Filters, m: Movie)
    requires ParseDate(m.releaseDate).None?
    ensures ActiveBound(f.releaseDateStart).Some? || ActiveBound(f.releaseDateEnd).Some? ==>
              m !in Filtered(all, f)
    ensures ActiveBound(f.releaseDateStart).None? && ActiveBound(f.releaseDateEnd).None? ==>
              (m in Filtered(all, f) <==> m in all && TitleOk(m, f) && YearOk(m, f) && DirectorOk(m, f))
  {
    FilteredMembership(all, f, m);
  }

  /** The remaining fields of a record (id, country, type, genre, status,
      company) never influence whether it is kept. */
  lemma OtherFieldsInert(m: Movie, n: Movie, f: Filters)
    requires m.titleKorean == n.titleKorean && m.titleEnglish == n.titleEnglish
    requires m.productionYear == n.productionYear && m.director == n.director
    requires m.releaseDate == n.releaseDate
    ensures Matches(m, f) == Matches(n, f)
  {
  }

  // Editing one field of the filter state.

  datatype Field = Title | Year | Director | ReleaseDateStart | ReleaseDateEnd

  datatype FieldValue = Text(text: string) | Date(date: Option<DateValue>)

  /** Text fields take text; the two date fields take a Date or undefined. */
  predicate Fits(k: Field, v: FieldValue) {
    if k == ReleaseDateStart || k == ReleaseDateEnd then v.Date? else v.Text?
  }

  function Get(f: Filters, k: Field): (v: FieldValue)
    ensures Fits(k, v)
  {
    match k
    case Title => Text(f.title)
    case Year => Text(f.year)
    case Director => Text(f.director)
    case ReleaseDateStart => Date(f.releaseDateStart)
    case ReleaseDateEnd => Date(f.releaseDateEnd)
  }

  /** `{ ...prev, [field]: value }`: field k reads back v and every other
      field keeps its value. */
  function SetField(f: Filters, k: Field, v: FieldValue): (g: Filters)
    requires Fits(k, v)
    ensures Get(g, k) == v
    ensures forall k' :: k' != k ==> Get(g, k') == Get(f, k')
  {
    match k
    case Title => f.(title := v.text)
    case Year => f.(year := v.text)
    case Director => f.(director := v.text)
    case ReleaseDateStart => f.(releaseDateStart := v.date)
    case ReleaseDateEnd => f.(releaseDateEnd := v.date)
  }

  /** Filters are determined by their five fields. */
  lemma FieldsDetermineFilters(f: Filters, g: Filters)
    requires forall k :: Get(f, k) == Get(g, k)
    ensures f == g
  {
    assert Get(f, Title) == Get(g, Title);
    assert Get(f, Year) == Get(g, Year);
    assert Get(f, Director) == Get(g, Director);
    assert Get(f, ReleaseDateStart) == Get(g, ReleaseDateStart);
    assert Get(f, ReleaseDateEnd) == Get(g, ReleaseDateEnd);
  }

  /** Writing back the value a field already holds changes nothing, and a
      second write to the same field overrides the first. */
  lemma SetFieldLaws(f: Filters, k: Field, v: FieldValue, w: FieldValue)
    requires Fits(k, v) && Fits(k, w)
    ensures SetField(f, k, Get(f, k)) == f
    ensures SetField(SetField(f, k, v), k, w) == SetField(f, k, w)
  {
  }
}
