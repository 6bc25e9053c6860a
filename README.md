# Movie search page, modelled in Dafny

This project models the movie search page of the repository. It covers
its record type and fixture dataset (`src/types/movie.ts`) and the page
itself (`src/pages/MovieSearchPage.tsx`). The page holds five filters:
a title query, a production-year option, a director query and two release
dates. A search runs the fixed dataset through one filter pass per active
filter, in the order title, year, director, release date. It then shows
the result ten rows at a time. The page's handlers edit one filter,
search, reset, or change the page.

The model is split by concern:

- `text.dfy` (`Text`): `toLowerCase` on ASCII letters and `includes`.
  `includes` is modelled recursively and proved equal to an
  "occurs at some index" definition.
- `numbers.dfy` (`Numbers`): `parseInt` on the year option, as an
  optional sign followed by the longest run of decimal digits. `None`
  stands for NaN.
- `dates.dfy` (`Dates`): parsing `yyyy-MM-dd` into a calendar date and
  checking that the date is real. A date is mapped to a proleptic
  Gregorian day number, so `>=`, `<=` and interval containment become
  integer comparisons. The day-number order is proved to be the calendar
  order.
- `movies.dfy` (`Movies`): the `Movie` record and the ten fixture records.
- `filters.dfy` (`MovieFilters`): the filter state and the criterion each
  pass applies. `Where` is `Array.prototype.filter`, specified by what it
  keeps and in which order. `Filtered` is the whole pipeline as one
  conjunctive filter. The file also has the properties of each filter
  and the `{ ...prev, [field]: value }` edit.
- `pagination.dfy` (`Pagination`): the JavaScript `slice` that cuts out
  a page, and `Math.ceil(n / 10)`.
- `search_page.dfy` (`MovieSearchPage`): `applyFilters` as a method that
  reassigns `moviesToFilter` pass by pass. It is proved equal to
  `Filtered`. The page is a class whose fields are the component's state
  and whose methods are its handlers.
- `scenarios.dfy` (`FixtureScenarios`): searches over the fixture with
  known outcomes, and one client session.

The filters, the year text, the date bounds, the dataset and the page
number are all parameters. The model reads no clock and no user input.

## Model

| member | source | states |
|---|---|---|
| Text.LowerChar | src/pages/MovieSearchPage.tsx:31-32 | lower-casing gives the same letter up to case and never a capital, and changes a character exactly when it is an ASCII capital |
| Text.Lower | src/pages/MovieSearchPage.tsx:31-32 | `toLowerCase` keeps the length and, at each position, gives the input's letter up to case and never a capital |
| Text.LowerCharAgree | src/pages/MovieSearchPage.tsx:31-32 | two characters lower-case alike iff they are the same letter up to ASCII case |
| Text.LowerAgree | src/pages/MovieSearchPage.tsx:31-32 | two texts lower-case alike iff they are equal up to ASCII case, which makes the searches case-insensitive |
| Text.LowerIdempotent | src/pages/MovieSearchPage.tsx:31-32 | lower-casing a lower-cased text changes nothing |
| Text.LowerNoUpper | src/pages/MovieSearchPage.tsx:31-32 | a text with no ASCII capital, Korean text among them, is its own lower-case form |
| Text.LowerKeepsNonLetter | src/pages/MovieSearchPage.tsx:31-32 | a character that is not an ASCII letter occurs in the lower-case form iff it occurs in the original |
| Text.Contains | src/pages/MovieSearchPage.tsx:31-32 | `includes`: the query is a prefix of the text or of one of its suffixes |
| Text.ContainsIffOccurs | src/pages/MovieSearchPage.tsx:31-32 | `includes` holds iff the query occurs in the text at some index, the empty query included |
| Text.NotContainsWithoutFirst | src/pages/MovieSearchPage.tsx:42 | a text lacking the query's first character does not include the query |
| Numbers.ParseInt | src/pages/MovieSearchPage.tsx:37 | `parseInt`: an optional sign, then the longest run of digits; NaN when there is no digit |
| Numbers.DigitPrefix | src/pages/MovieSearchPage.tsx:37 | the digit run `parseInt` reads is a prefix of the text, all digits, and cannot be extended |
| Numbers.DigitsValueOfDecimal | src/pages/MovieSearchPage.tsx:37 | the digits of a number's decimal form have that number as their value |
| Numbers.ParseIntDecimal | src/pages/MovieSearchPage.tsx:37 | `parseInt` of a year option such as "2023" is that number |
| Numbers.ParseIntNegative | src/pages/MovieSearchPage.tsx:37 | a leading minus sign negates the number read |
| Numbers.ParseIntNaN | src/pages/MovieSearchPage.tsx:37 | a text that starts with neither a digit nor a sign, such as "전체", parses to NaN |
| Dates.MonthTablesAgree | src/pages/MovieSearchPage.tsx:50 | each month's length ends it where the next month starts, and December ends where the year does |
| Dates.DaysInMonth | src/pages/MovieSearchPage.tsx:49-50 | every month has 28 to 31 days |
| Dates.ParseYmd | src/pages/MovieSearchPage.tsx:49-50 | parsing yields a date only for well-formed `yyyy-MM-dd` text naming a real calendar day of a year from 1 on |
| Dates.ParseDate | src/pages/MovieSearchPage.tsx:49-50 | a release date becomes the day number of the date it names, or nothing when it does not parse |
| Dates.YearZeroRejected | src/pages/MovieSearchPage.tsx:49-50 | the well-formed text 0000-01-01 does not parse, since year 0000 is refused |
| Dates.ParseFormat | src/pages/MovieSearchPage.tsx:49 | formatting a valid date as `yyyy-MM-dd` and parsing it back gives the same date |
| Dates.ParseYmdOfDigits | src/pages/MovieSearchPage.tsx:49-50 | an eight-digit date text reads off its year, month and day, and is accepted iff that day exists in a year from 1 on |
| Dates.DayNumberMonotone | src/pages/MovieSearchPage.tsx:51 | a calendar-earlier date has a smaller day number |
| Dates.DayNumberOrder | src/pages/MovieSearchPage.tsx:62 | comparing day numbers is comparing dates: smaller iff earlier, equal iff the same date |
| Movies.Movie | src/types/movie.ts:4-16 | the movie record with its eleven fields |
| Movies.SampleMovies | src/types/movie.ts:18-149 | the ten fixture records, in their order |
| Movies.SampleSize | src/types/movie.ts:18-149 | the fixture has ten records |
| Movies.SampleIdsDistinct | src/types/movie.ts:18-149 | no two fixture records share an id |
| Movies.SampleDatesValid | src/types/movie.ts:15 | every fixture release date parses as a real `yyyy-MM-dd` date |
| MovieFilters.InitialFilters | src/pages/MovieSearchPage.tsx:11-17 | empty title and director, year "전체", both dates undefined |
| MovieFilters.TitleMatch | src/pages/MovieSearchPage.tsx:30-33 | the lower-cased query occurs in the lower-cased Korean or English title |
| MovieFilters.YearMatch | src/pages/MovieSearchPage.tsx:37 | the production year equals `parseInt` of the year text, and NaN equals nothing |
| MovieFilters.DirectorMatch | src/pages/MovieSearchPage.tsx:41-43 | the lower-cased query occurs in the lower-cased director |
| MovieFilters.DateOk | src/pages/MovieSearchPage.tsx:46-79 | both valid bounds, else the start, else the end, else no constraint, and a date that does not parse fails every constraint |
| MovieFilters.Matches | src/pages/MovieSearchPage.tsx:29-79 | a record passes each filter that is active |
| MovieFilters.Where | src/pages/MovieSearchPage.tsx:30 | `Array.prototype.filter`, as used by each pass (lines 30, 37, 41, 47, 58 and 69): the satisfying records in order, never more than the input |
| MovieFilters.Filtered | src/pages/MovieSearchPage.tsx:26-79 | the search result as one pass that keeps the records matching every active filter |
| MovieFilters.ActiveBound | src/pages/MovieSearchPage.tsx:46-79 | a date bound takes part iff it is set and valid, and then it contributes its day |
| MovieFilters.WhereSelects | src/pages/MovieSearchPage.tsx:30-33 | a filter pass keeps exactly the records that satisfy the callback, in their original order |
| MovieFilters.WhereMembership | src/pages/MovieSearchPage.tsx:30-33 | a record is in a pass's output iff it is in the input and satisfies the callback |
| MovieFilters.WhereAll | src/pages/MovieSearchPage.tsx:27 | a pass whose callback accepts every record returns the input unchanged |
| MovieFilters.WhereWhere | src/pages/MovieSearchPage.tsx:29-44 | two passes in a row give what one pass with the conjoined callback gives |
| MovieFilters.SetField | src/pages/MovieSearchPage.tsx:91-93 | editing a field makes it read back the new value and leaves every other field as it was |
| MovieFilters.FieldsDetermineFilters | src/pages/MovieSearchPage.tsx:11-17 | two filter states with the same five fields are equal |
| MovieFilters.SetFieldLaws | src/pages/MovieSearchPage.tsx:91-93 | writing back a field's own value is a no-op, and the second of two writes to a field wins |
| MovieFilters.InitialFiltersKeepAll | src/pages/MovieSearchPage.tsx:11-17 | the initial filters keep every record in order |
| MovieFilters.FilteredIsSubsequence | src/pages/MovieSearchPage.tsx:26-84 | the search result is an order-preserving subsequence of the dataset |
| MovieFilters.FilteredMembership | src/pages/MovieSearchPage.tsx:26-84 | a record is in the result iff it is in the dataset and passes every active filter |
| MovieFilters.TitleSearch | src/pages/MovieSearchPage.tsx:29-34 | with only a title query, a record is kept iff the lower-cased query occurs in its lower-cased Korean or English title |
| MovieFilters.YearSearch | src/pages/MovieSearchPage.tsx:36-38 | with only a year option, a record is kept iff its production year equals `parseInt` of the option |
| MovieFilters.YearOnlyMatches | src/pages/MovieSearchPage.tsx:36-38 | with only a year option that parses to n, a record is kept iff its production year is n |
| MovieFilters.AllYearsIgnoresYear | src/pages/MovieSearchPage.tsx:36 | with the year on "전체", changing a record's production year changes neither whether it matches nor whether it is kept |
| MovieFilters.DirectorSearch | src/pages/MovieSearchPage.tsx:40-44 | with only a director query, a record is kept iff the lower-cased query occurs in its lower-cased director |
| MovieFilters.KeptRecordSatisfiesActiveFilters | src/pages/MovieSearchPage.tsx:29-44 | a kept record satisfies every active title, year and director criterion, whatever the other filters |
| MovieFilters.DateWindowBoth | src/pages/MovieSearchPage.tsx:46-56 | with both bounds valid, a record is kept iff its release date parses and lies in the closed window |
| MovieFilters.DateWindowStartOnly | src/pages/MovieSearchPage.tsx:57-67 | with only the start valid, a record is kept iff its release date parses and is on or after the start |
| MovieFilters.DateWindowEndOnly | src/pages/MovieSearchPage.tsx:68-78 | with only the end valid, a record is kept iff its release date parses and is on or before the end |
| MovieFilters.UnparsableDateExcluded | src/pages/MovieSearchPage.tsx:50 | a record whose date does not parse is dropped whenever a bound is valid, and its date is ignored otherwise |
| MovieFilters.OtherFieldsInert | src/pages/MovieSearchPage.tsx:26-79 | id, country, type, genre, status and company never affect whether a record is kept |
| Pagination.PageSlice | src/pages/MovieSearchPage.tsx:86-89 | page p is the slice from (p-1)*10, ten long |
| Pagination.SliceIndex | src/pages/MovieSearchPage.tsx:88 | a slice index resolves into [0, length], and a non-negative index is clamped to the length |
| Pagination.JsSlice | src/pages/MovieSearchPage.tsx:88 | every element of a slice comes from the sliced sequence |
| Pagination.TotalPages | src/pages/MovieSearchPage.tsx:105 | the page count is the least number of ten-row pages holding all rows, and it is zero iff there are no rows |
| Pagination.PageSliceWindow | src/pages/MovieSearchPage.tsx:86-89 | page p from 1 on shows rows (p-1)*10 up to p*10 or the end, and nothing if it starts past the end |
| Pagination.PageSliceAtMostTen | src/pages/MovieSearchPage.tsx:86-89 | no page, whatever its number, shows more than ten rows |
| Pagination.PageBeyondLastIsEmpty | src/pages/MovieSearchPage.tsx:86-89 | a page past the last one, and page 0, is empty, without error |
| Pagination.PageInRangeIsFilled | src/pages/MovieSearchPage.tsx:86-89 | each page from 1 to the last shows at least one row, and each page before the last is full |
| Pagination.PagesPrefix | src/pages/MovieSearchPage.tsx:86-89 | pages 1 to k together are the first k*10 rows |
| Pagination.PagesCoverAll | src/pages/MovieSearchPage.tsx:86-105 | pages 1 to the page count together are the whole result, nothing lost or repeated |
| MovieSearchPage.FilterPass | src/pages/MovieSearchPage.tsx:30-33 | the loop that builds a pass's output returns what `Where` specifies |
| MovieSearchPage.DatePass | src/pages/MovieSearchPage.tsx:46-79 | the release-date step picks the pass that matches the active bounds and keeps what `DateOk` accepts |
| MovieSearchPage.ApplyFilters | src/pages/MovieSearchPage.tsx:26-84 | running the passes in sequence yields exactly `Filtered(all, f)` |
| MovieSearchPage.SearchPage.constructor | src/pages/MovieSearchPage.tsx:20-24 | the page starts on the initial filters with the whole dataset on page 1 |
| MovieSearchPage.SearchPage.EditField | src/pages/MovieSearchPage.tsx:91-93 | an edit changes only that filter field; results, page and rows stay until the next search |
| MovieSearchPage.SearchPage.Search | src/pages/MovieSearchPage.tsx:95-97 | a search filters the whole dataset with the current filters and goes to page 1 |
| MovieSearchPage.SearchPage.Reset | src/pages/MovieSearchPage.tsx:99-103 | a reset restores the initial filters, the whole dataset and page 1, which a search with the initial filters also gives |
| MovieSearchPage.SearchPage.ChangePage | src/pages/MovieSearchPage.tsx:121 | a page change shows that page of the same results and changes nothing else |
| MovieSearchPage.SearchPage.TotalPages | src/pages/MovieSearchPage.tsx:105 | the page count is zero iff the result is empty |
| MovieSearchPage.SearchPage.PagerShown | src/pages/MovieSearchPage.tsx:117 | the pager is shown iff the result is non-empty |
| MovieSearchPage.SearchPage.VisibleRowsMatch | src/pages/MovieSearchPage.tsx:116 | at most ten rows are on screen, each a dataset record that passes the filters of the last search |
| FixtureScenarios.Year2023Scenario | src/types/movie.ts:110-135 | the year "2023" keeps exactly the two 2023 records, 범죄도시3 then 웡카 |
| FixtureScenarios.WonkaReleasedLater | src/types/movie.ts:123-135 | 웡카 was produced in 2023 but released on 2024-01-31 |
| FixtureScenarios.MissesAvatar | src/pages/MovieSearchPage.tsx:29-34 | a record with no '아' in either title does not match the query "아바타" |
| FixtureScenarios.AvatarMatches | src/types/movie.ts:136-148 | the record 아바타: 물의 길 matches the query "아바타" |
| FixtureScenarios.OnlyLastMatchesTitle | src/pages/MovieSearchPage.tsx:29-34 | when only the last of ten records matches a title query, the search returns that record alone |
| FixtureScenarios.AvatarScenario | src/types/movie.ts:18-149 | the query "아바타" over the fixture returns the 아바타: 물의 길 record alone |
| FixtureScenarios.ExhumaInAnyCase | src/pages/MovieSearchPage.tsx:29-34 | the queries "EXHUMA" and "exhuma" both match the record whose English title is "Exhuma" |
| FixtureScenarios.ExhumaFoundByCapitals | src/types/movie.ts:97-109 | a search for "EXHUMA" over the fixture keeps 파묘 |
| FixtureScenarios.FixtureFitsOnePage | src/pages/MovieSearchPage.tsx:105 | the ten fixture records make exactly one page, and page 2 is empty |

## Left out

- The JSX, the filter form, the data table, the pager widget
  (`PaginationControls`) and the `CalendarIcon` re-export have no logic
  the page relies on. They are not part of this model.
- React scheduling is not modelled. Each handler is one atomic
  transition. Right after it, `currentMovies` is recomputed, as the
  effect on `currentPage` and `filteredMovies` does once React runs it.
  Before the first effect, React briefly holds `currentMovies` as `[]`.
  The constructor instead starts with page 1 already filled.
- `console.error` in the three `catch` blocks is left out; only the
  outcome is modelled, which is that the record is dropped.
- date-fns `parse` is modelled as a strict `yyyy-MM-dd` parser: exactly
  four, two and two digits, a year from 1 on (the year pattern of
  date-fns refuses 0000), and the day must exist. date-fns is more
  lenient in two ways the model does not capture: it accepts other digit
  counts, and it accepts trailing whitespace after the day. The fixture
  dates are all in the strict form. It also yields a local-midnight Date, and
  time of day and time zones are left out: bounds and release dates are
  whole days.
- A window whose start is after its end keeps nothing in this model.
  That matches date-fns 2, whose `isWithinInterval` throws, the
  exception being caught and the record dropped. date-fns 3 swaps the
  bounds instead. The package version is not part of this model.
- `toLowerCase` is modelled on ASCII letters only. Hangul has no case.
  Other scripts with case (Latin with accents, Greek, Cyrillic) are
  left as they are.
- `parseInt` is modelled without its leading-whitespace skip, radix
  detection and hexadecimal prefixes. The year options are "전체" and
  four-digit years, so none of these arise.
- MovieSearchPage.SearchPage.EditField: requires the value to fit the
  field (text for a text field, a date or `undefined` for a date
  field), which is what the filter form passes. JavaScript itself would
  accept any value type.
- The `type` field of `Movie` is called `filmType`, because `type` is a
  Dafny keyword.
