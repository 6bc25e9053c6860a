/** The movie record and the fixed dataset the search page starts from
    (src/types/movie.ts). */
module Movies {
  import opened Wrappers
  import opened Numbers
  import opened Dates

  /** One movie. The record's `type` field (feature or short film) is
      called `filmType` here because `type` is a Dafny keyword.
      `releaseDate` is text meant to hold `yyyy-MM-dd`. */
  datatype Movie = Movie(
    id: string,
    titleKorean: string,
    titleEnglish: string,
    productionYear: int,
    productionCountry: string,
    filmType: string,
    genre: string,
    productionStatus: string,
    director: string,
    productionCompany: string,
    releaseDate: string)

  // One constant per record of the `sampleMovies` array, in its order.
  // The two titles of each record are constants of their own, so that a
  // fact about a title can be proved without unfolding the whole record.

  const WhenISleepKorean := "내가 잠들 때까지"
  const WhenISleepEnglish := "When I Sleep"
  const WhenISleep: Movie :=
    Movie("20224492", WhenISleepKorean, WhenISleepEnglish,
          2022, "한국", "장편", "드라마",
          "개봉예정", "최지훈",
          "(주)시네마달", "2025-07-01")

  const MyGoKorean := "극장판 여성향 게임의 파멸 플래그밖에 없는 악역 영애로 환생해버렸다…"
  const MyGoEnglish := "BanG Dream! It's MyGO!!!!!"
  const MyGo: Movie :=
    Movie("20255168", MyGoKorean, MyGoEnglish,
          2024, "일본", "장편", "애니메이션",
          "개봉예정", "카키모토 코다이",
          "", "2025-06-15")

  const MyBelovedStrangerKorean := "나를 모르는 그의 세계에서"
  const MyBelovedStrangerEnglish := "My Beloved Stranger"
  const MyBelovedStranger: Movie :=
    Movie("20253956", MyBelovedStrangerKorean, MyBelovedStrangerEnglish,
          2025, "일본", "장편", "멜로/로맨스",
          "개봉", "미키 타카히로",
          "", "2025-05-20")

  const MisfitsKorean := "미스치프 시흥"
  const MisfitsEnglish := "MISFITS [SIHEUNG]"
  const Misfits: Movie :=
    Movie("20223444", MisfitsKorean, MisfitsEnglish,
          2021, "한국", "단편", "드라마",
          "기타", "김아무개",
          "독립영화사", "2021-10-10")

  const AllThatSavesUsKorean := "새로 온 공기"
  const AllThatSavesUsEnglish := "All that saves us"
  const AllThatSavesUs: Movie :=
    Movie("20244606", AllThatSavesUsKorean, AllThatSavesUsEnglish,
          2024, "한국", "장편", "다큐멘터리",
          "개봉준비", "남보라, 문혜성, 김보람",
          "영화사보통", "2024-12-01")

  const InfiniteComeBackAgainKorean := "인피니트 13주년 콘서트 무비 인피니트 ＜컴백 어게인＞"
  const InfiniteComeBackAgainEnglish := ""
  const InfiniteComeBackAgain: Movie :=
    Movie("20254931", InfiniteComeBackAgainKorean, InfiniteComeBackAgainEnglish,
          2025, "한국", "장편", "공연",
          "개봉예정", "손석",
          "주식회사 케이엔", "2025-08-01")

  const ExhumaKorean := "파묘"
  const ExhumaEnglish := "Exhuma"
  const Exhuma: Movie :=
    Movie("20240001", ExhumaKorean, ExhumaEnglish,
          2024, "한국", "장편", "미스터리, 공포",
          "개봉", "장재현",
          "(주)쇼박스", "2024-02-22")

  const RoundupKorean := "범죄도시3"
  const RoundupEnglish := "The Roundup: No Way Out"
  const Roundup: Movie :=
    Movie("20230002", RoundupKorean, RoundupEnglish,
          2023, "한국", "장편", "액션, 범죄",
          "개봉", "이상용",
          "에이비오엔터테인먼트", "2023-05-31")

  const WonkaKorean := "웡카"
  const WonkaEnglish := "Wonka"
  const Wonka: Movie :=
    Movie("20230003", WonkaKorean, WonkaEnglish,
          2023, "미국", "장편", "판타지, 드라마, 뮤지컬",
          "개봉", "폴 킹",
          "워너브라더스 코리아(주)", "2024-01-31")

  const AvatarKorean := "아바타: 물의 길"
  const AvatarEnglish := "Avatar: The Way of Water"
  const Avatar: Movie :=
    Movie("20220004", AvatarKorean, AvatarEnglish,
          2022, "미국", "장편", "SF, 액션, 어드벤처",
          "개봉", "제임스 카메론",
          "월트디즈니컴퍼니코리아 유한책임회사", "2022-12-14")

  const SampleMovies: seq<Movie> :=
    [WhenISleep, MyGo, MyBelovedStranger, Misfits, AllThatSavesUs,
     InfiniteComeBackAgain, Exhuma, Roundup, Wonka, Avatar]

  lemma SampleSize()
    ensures |SampleMovies| == 10
  {
  }

  /** The ids serve as table row keys, so no two records share one. */
  lemma SampleIdsDistinct()
    ensures forall i, j :: 0 <= i < j < |SampleMovies| ==> SampleMovies[i].id != SampleMovies[j].id
  {
  }

  // One lemma per release date keeps each proof small.

  lemma WhenISleepDateValid()
    ensures ParseYmd(WhenISleep.releaseDate).Some?
  {
    ParseYmdOfDigits('2', '0', '2', '5', '0', '7', '0', '1');
  }

  lemma MyGoDateValid()
    ensures ParseYmd(MyGo.releaseDate).Some?
  {
    ParseYmdOfDigits('2', '0', '2', '5', '0', '6', '1', '5');
  }

  lemma MyBelovedStrangerDateValid()
    ensures ParseYmd(MyBelovedStranger.releaseDate).Some?
  {
    ParseYmdOfDigits('2', '0', '2', '5', '0', '5', '2', '0');
  }

  lemma MisfitsDateValid()
    ensures ParseYmd(Misfits.releaseDate).Some?
  {
    ParseYmdOfDigits('2', '0', '2', '1', '1', '0', '1', '0');
  }

  lemma AllThatSavesUsDateValid()
    ensures ParseYmd(AllThatSavesUs.releaseDate).Some?
  {
    ParseYmdOfDigits('2', '0', '2', '4', '1', '2', '0', '1');
  }

  lemma InfiniteComeBackAgainDateValid()
    ensures ParseYmd(InfiniteComeBackAgain.releaseDate).Some?
  {
    ParseYmdOfDigits('2', '0', '2', '5', '0', '8', '0', '1');
  }

  lemma ExhumaDateValid()
    ensures ParseYmd(Exhuma.releaseDate).Some?
  {
    ParseYmdOfDigits('2', '0', '2', '4', '0', '2', '2', '2');
  }

  lemma RoundupDateValid()
    ensures ParseYmd(Roundup.releaseDate).Some?
  {
    ParseYmdOfDigits('2', '0', '2', '3', '0', '5', '3', '1');
  }

  lemma WonkaDateValid()
    ensures ParseYmd(Wonka.releaseDate).Some?
  {
    ParseYmdOfDigits('2', '0', '2', '4', '0', '1', '3', '1');
  }

  lemma AvatarDateValid()
    ensures ParseYmd(Avatar.releaseDate).Some?
  {
    ParseYmdOfDigits('2', '0', '2', '2', '1', '2', '1', '4');
  }

  /** Every release date of the fixture is a real `yyyy-MM-dd` date. */
  lemma SampleDatesValid()
    ensures forall i :: 0 <= i < |SampleMovies| ==> ParseYmd(SampleMovies[i].releaseDate).Some?
  {
    forall i | 0 <= i < |SampleMovies| ensures ParseYmd(SampleMovies[i].releaseDate).Some? {
      if i == 0 {
        WhenISleepDateValid();
      } else if i == 1 {
        MyGoDateValid();
      } else if i == 2 {
        MyBelovedStrangerDateValid();
      } else if i == 3 {
        MisfitsDateValid();
      } else if i == 4 {
        AllThatSavesUsDateValid();
      } else if i == 5 {
        InfiniteComeBackAgainDateValid();
      } else if i == 6 {
        ExhumaDateValid();
      } else if i == 7 {
        RoundupDateValid();
      } else if i == 8 {
        WonkaDateValid();
      } else {
        AvatarDateValid();
      }
    }
  }
}
