/** Concrete searches over the fixture dataset. */
module FixtureScenarios {
  import opened Wrappers
  import opened Text
  import opened Numbers
  import opened Dates
  import opened Movies
  import opened MovieFilters
  import opened Pagination
  import opened MovieSearchPage

  lemma ParseYear2023()
    ensures ParseInt("2023") == Some(2023)
  {
    ParseIntDecimal(2023);
    assert DecimalString(2023) == "2023";
  }

  /** A filter that keeps exactly the positions lo..hi-1 yields that
      window of the input. */
  lemma {:induction false} WhereWindow(s: seq<Movie>, p: Movie -> bool, lo: nat, hi: nat)
    requires lo <= hi <= |s|
    requires forall k :: 0 <= k < |s| ==> (p(s[k]) <==> lo <= k < hi)
    ensures Where(s, p) == s[lo..hi]
  {
    if s != [] {
      var n := |s| - 1;
      assert p(s[n]) <==> lo <= n < hi;
      WhereWindow(s[..n], p, Min(lo, n), Min(hi, n));
      WindowStep(s, lo, hi);
    }
  }

  /** Dropping the last element of s shortens a window of s by as much. */
  lemma WindowStep<T>(s: seq<T>, lo: nat, hi: nat)
    requires lo <= hi <= |s| && s != []
    ensures s[lo..hi] == s[..|s| - 1][Min(lo, |s| - 1)..Min(hi, |s| - 1)]
                         + (if lo <= |s| - 1 < hi then [s[|s| - 1]] else [])
  {
    var n := |s| - 1;
    if hi <= n {
      assert s[..n][lo..hi] == s[lo..hi];
    } else if lo <= n {
      assert s[..n][lo..n] + [s[n]] == s[lo..hi];
    } else {
      assert s[..n][n..n] + [] == s[lo..hi];
    }
  }

  lemma Year2023Verdict(k: nat)
    requires k < 10
    ensures Matches(SampleMovies[k], InitialFilters.(year := "2023")) <==> 7 <= k < 9
  {
    ParseYear2023();
    YearOnlyMatches(SampleMovies[k], "2023", 2023);
    assert forall i :: 0 <= i < 10 ==> (SampleMovies[i].productionYear == 2023 <==> 7 <= i < 9);
  }

  /** Filtering by year "2023" keeps Roundup and Wonka, in dataset order. */
  lemma Year2023Scenario()
    ensures Filtered(SampleMovies, InitialFilters.(year := "2023")) == [Roundup, Wonka]
    ensures Roundup.id == "20230002" && Wonka.id == "20230003"
  {
    var f := InitialFilters.(year := "2023");
    var p := (m: Movie) => Matches(m, f);
    forall k | 0 <= k < 10
      ensures p(SampleMovies[k]) <==> 7 <= k < 9
    {
      Year2023Verdict(k);
    }
    WhereWindow(SampleMovies, p, 7, 9);
    FilteredBy(SampleMovies, f, p);
    assert SampleMovies[7..9] == [Roundup, Wonka];
  }

  /** Wonka, produced in 2023, was released in 2024: the year filter and
      the release-date filter are different criteria. */
  lemma WonkaReleasedLater()
    ensures Wonka.productionYear == 2023
    ensures ParseYmd(Wonka.releaseDate) == Some(CalendarDate(2024, 1, 31))
  {
    ParseYmdOfDigits('2', '0', '2', '4', '0', '1', '3', '1');
  }

  lemma LowerAvatar()
    ensures Lower("아바타") == "아바타"
  {
    LowerNoUpper("아바타");
  }

  /** A record with no '아' in either title does not match "아바타". */
  lemma MissesAvatar(m: Movie)
    requires '아' !in m.titleKorean && '아' !in m.titleEnglish
    ensures !TitleMatch(m, "아바타")
  {
    LowerAvatar();
    LowerKeepsNonLetter(m.titleKorean, '아');
    LowerKeepsNonLetter(m.titleEnglish, '아');
    NotContainsWithoutFirst(Lower(m.titleKorean), "아바타");
    NotContainsWithoutFirst(Lower(m.titleEnglish), "아바타");
  }

  lemma AvatarMatches()
    ensures TitleMatch(Avatar, "아바타")
  {
    var kor := Avatar.titleKorean;
    LowerAvatar();
    LowerNoUpper(kor);
    assert kor[..3] == "아바타";
    assert IsPrefix("아바타", Lower(kor));
  }

  // Scanning a title character by character is costly, so the titles of
  // each record are checked by a lemma of their own.
  lemma WhenISleepLacksA()
    ensures '아' !in WhenISleepKorean && '아' !in WhenISleepEnglish
  {
  }

  lemma MyGoLacksA()
    ensures '아' !in MyGoKorean && '아' !in MyGoEnglish
  {
  }

  lemma MyBelovedStrangerLacksA()
    ensures '아' !in MyBelovedStrangerKorean && '아' !in MyBelovedStrangerEnglish
  {
  }

  lemma MisfitsLacksA()
    ensures '아' !in MisfitsKorean && '아' !in MisfitsEnglish
  {
  }

  lemma AllThatSavesUsLacksA()
    ensures '아' !in AllThatSavesUsKorean && '아' !in AllThatSavesUsEnglish
  {
  }

  lemma InfiniteComeBackAgainLacksA()
    ensures '아' !in InfiniteComeBackAgainKorean && '아' !in InfiniteComeBackAgainEnglish
  {
  }

  lemma ExhumaLacksA()
    ensures '아' !in ExhumaKorean && '아' !in ExhumaEnglish
  {
  }

  lemma RoundupLacksA()
    ensures '아' !in RoundupKorean && '아' !in RoundupEnglish
  {
  }

  lemma WonkaLacksA()
    ensures '아' !in WonkaKorean && '아' !in WonkaEnglish
  {
  }

  /** A title search over ten records that only the last one matches. */
  lemma OnlyLastMatchesTitle(a0: Movie, a1: Movie, a2: Movie, a3: Movie, a4: Movie,
                             a5: Movie, a6: Movie, a7: Movie, a8: Movie, a9: Movie, q: string)
    requires q != ""
    requires !TitleMatch(a0, q) && !TitleMatch(a1, q) && !TitleMatch(a2, q) && !TitleMatch(a3, q)
    requires !TitleMatch(a4, q) && !TitleMatch(a5, q) && !TitleMatch(a6, q) && !TitleMatch(a7, q)
    requires !TitleMatch(a8, q) && TitleMatch(a9, q)
    ensures Filtered([a0, a1, a2, a3, a4, a5, a6, a7, a8, a9], InitialFilters.(title := q)) == [a9]
  {
    var s := [a0, a1, a2, a3, a4, a5, a6, a7, a8, a9];
    var p := (m: Movie) => Matches(m, InitialFilters.(title := q));
    forall k | 0 <= k < 10
      ensures p(s[k]) <==> 9 <= k < 10
    {
      assert p(s[k]) <==> TitleMatch(s[k], q);
    }
    WhereWindow(s, p, 9, 10);
    FilteredBy(s, InitialFilters.(title := q), p);
  }

  /** Filtering the fixture by the title "아바타" keeps exactly Avatar. */
  lemma AvatarScenario()
    ensures Filtered(SampleMovies, InitialFilters.(title := "아바타")) == [Avatar]
    ensures Avatar.id == "20220004"
  {
    WhenISleepLacksA();
    MissesAvatar(WhenISleep);
    MyGoLacksA();
    MissesAvatar(MyGo);
    MyBelovedStrangerLacksA();
    MissesAvatar(MyBelovedStranger);
    MisfitsLacksA();
    MissesAvatar(Misfits);
    AllThatSavesUsLacksA();
    MissesAvatar(AllThatSavesUs);
    InfiniteComeBackAgainLacksA();
    MissesAvatar(InfiniteComeBackAgain);
    ExhumaLacksA();
    MissesAvatar(Exhuma);
    RoundupLacksA();
    MissesAvatar(Roundup);
    WonkaLacksA();
    MissesAvatar(Wonka);
    AvatarMatches();
    OnlyLastMatchesTitle(WhenISleep, MyGo, MyBelovedStranger, Misfits, AllThatSavesUs,
                         InfiniteComeBackAgain, Exhuma, Roundup, Wonka, Avatar, "아바타");
  }

  lemma ExhumaEnglishAnyCase()
    ensures Lower(ExhumaEnglish) == Lower("EXHUMA") == Lower("exhuma")
  {
    LowerAgree(ExhumaEnglish, "EXHUMA");
    LowerAgree(ExhumaEnglish, "exhuma");
  }

  /** The title search ignores ASCII case: "EXHUMA" and "exhuma" both
      find 파묘, whose English title is "Exhuma". */
  lemma ExhumaInAnyCase()
    ensures TitleMatch(Exhuma, "EXHUMA") && TitleMatch(Exhuma, "exhuma")
  {
    ExhumaEnglishAnyCase();
    assert IsPrefix(Lower(ExhumaEnglish), Lower(ExhumaEnglish));
  }

  /** So a search for "EXHUMA" over the fixture keeps 파묘. */
  lemma ExhumaFoundByCapitals()
    ensures Exhuma in Filtered(SampleMovies, InitialFilters.(title := "EXHUMA"))
  {
    ExhumaInAnyCase();
    assert SampleMovies[6] == Exhuma;
    FilteredMembership(SampleMovies, InitialFilters.(title := "EXHUMA"), Exhuma);
  }

  /** The whole fixture fits on one page. */
  lemma FixtureFitsOnePage()
    ensures Pagination.TotalPages(|SampleMovies|) == 1
    ensures PageSlice(SampleMovies, 1) == SampleMovies
    ensures PageSlice(SampleMovies, 2) == []
  {
    PageSliceWindow(SampleMovies, 1);
    assert SampleMovies[0..10] == SampleMovies;
    PageBeyondLastIsEmpty(SampleMovies, 2);
  }

  /** A session on the fixture: choose 2023, search, move to page 2, reset. */
  method YearSearchSession()
  {
    var page := new SearchPage(SampleMovies);
    page.EditField(Year, Text("2023"));
    page.Search();
    Year2023Scenario();
    assert page.filteredMovies == [Roundup, Wonka];
    assert page.currentMovies == page.filteredMovies;
    page.ChangePage(2);
    assert page.currentMovies == [];
    page.Reset();
    FixtureFitsOnePage();
    assert page.currentMovies == SampleMovies;
  }
}
