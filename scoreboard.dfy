/** The scoreboard page's selection logic: the list of distinct weeks, the
    default ("current") week, the week/conference filter and the order by
    start time. The page's state hooks are the fields of `ScoreboardPage`;
    each handler ends by re-running the filter, as the page's filter effect
    does whenever `games`, `week` or `conference` change. */
module Scoreboard {
  import opened Common
  import opened Seqs
  import opened Sorting
  import opened Decimal
  import opened Games

  /** A week number as the page holds it, `0` meaning all weeks;
      `Math.max()` over no weeks yields `-Infinity`. */
  datatype WeekValue = Finite(n: int) | NegInfinity

  const AllWeeks: WeekValue := Finite(0)
  const AllConferences: string := "All"

  ghost predicate StrictlyAscending(s: seq<int>) {
    forall i, j :: 0 <= i < j < |s| ==> s[i] < s[j]
  }

  /** Adds `w` to a strictly ascending list of weeks unless it is already there. */
  function InsertWeek(w: int, s: seq<int>): (r: seq<int>)
    requires StrictlyAscending(s)
    ensures StrictlyAscending(r)
    ensures forall x :: x in r <==> x in s || x == w
  {
    if |s| == 0 then [w]
    else if w < s[0] then [w] + s
    else if w == s[0] then s
    else
      var rest := InsertWeek(w, s[1..]);
      assert forall x :: x in s[1..] ==> s[0] < x;
      assert forall j :: 0 <= j < |rest| ==> rest[j] in rest;
      [s[0]] + rest
  }

  /** `Array.from(new Set(data.map(g => g.week))).sort((a, b) => a - b)`: the
      weeks present in the data, each once, in ascending order. */
  function UniqueWeeks(games: seq<Game>): (r: seq<int>)
    ensures StrictlyAscending(r)
    ensures forall w :: w in r <==> exists i :: 0 <= i < |games| && games[i].week == w
  {
    if |games| == 0 then []
    else
      var rest := UniqueWeeks(games[1..]);
      assert forall i :: 1 <= i < |games| ==> games[i] == games[1..][i - 1];
      InsertWeek(games[0].week, rest)
  }

  /** `Math.floor(daysSinceStart / 7) + 1`: days 0..6 are week 1, days 7..13 week 2, and so on. */
  function CalcWeek(daysSinceStart: int): (w: int)
    ensures 7 * (w - 1) <= daysSinceStart < 7 * w
  {
    daysSinceStart / 7 + 1
  }

  /** `Math.max(...s)` for a non-empty list. */
  function MaxOf(s: seq<int>): (m: int)
    requires |s| > 0
    ensures m in s && forall x :: x in s ==> x <= m
  {
    if |s| == 1 then s[0]
    else
      var m := MaxOf(s[1..]);
      assert s == [s[0]] + s[1..];
      if s[0] > m then s[0] else m
  }

  /** `uniqueWeeks.includes(calcWeek) ? calcWeek : Math.max(...uniqueWeeks)`. */
  function DefaultWeek(weeks: seq<int>, computed: int): (r: WeekValue)
    ensures computed in weeks ==> r == Finite(computed)
    ensures computed !in weeks && |weeks| > 0 ==>
      r.Finite? && r.n in weeks && forall w :: w in weeks ==> w <= r.n
    ensures |weeks| == 0 ==> r == NegInfinity
  {
    if computed in weeks then Finite(computed)
    else if |weeks| == 0 then NegInfinity
    else Finite(MaxOf(weeks))
  }

  /** The selection the filter effect applies: the game's week is the selected
      one (unless all weeks are selected), and its home or away conference is
      the selected one (unless "All" is selected). */
  predicate Matches(g: Game, week: WeekValue, conference: string) {
    (week == AllWeeks || Finite(g.week) == week) &&
    (conference == AllConferences || InConference(g, conference))
  }

  /** The games the page shows for a selection. */
  function Selected(games: seq<Game>, week: WeekValue, conference: string): (r: seq<Game>)
    ensures |r| <= |games|
    ensures forall i :: 0 <= i < |r| ==> r[i] in games && Matches(r[i], week, conference)
  {
    Filter(games, (g: Game) => Matches(g, week, conference))
  }

  /** The value chosen in the week selector, as the page stores it. */
  function WeekFromOption(value: string): (r: WeekValue)
    requires value == "all" || ParseDecimal(value).Some?
    ensures r == AllWeeks <==> value == "all" || ParseDecimal(value) == Some(0)
  {
    if value == "all" then AllWeeks else Finite(ParseDecimal(value).value)
  }

  /** Week 0 and conference "All" select every game. */
  lemma SelectAllIsEverything(games: seq<Game>)
    ensures Selected(games, AllWeeks, AllConferences) == games
  {
    FilterKeepsAll(games, (g: Game) => Matches(g, AllWeeks, AllConferences));
  }

  /** A game is shown exactly when it is one of the games and meets the selection. */
  lemma SelectedMeetsSelection(games: seq<Game>, week: WeekValue, conference: string, g: Game)
    ensures g in Selected(games, week, conference) <==>
      g in games &&
      (week != AllWeeks ==> Finite(g.week) == week) &&
      (conference != AllConferences ==> InConference(g, conference))
  {
    FilterMembers(games, (x: Game) => Matches(x, week, conference), g);
  }

  /** Filtering only removes games and never reorders them. */
  lemma SelectedIsSubsequence(games: seq<Game>, week: WeekValue, conference: string)
    ensures SubsequenceOf(Selected(games, week, conference), games)
  {
    FilterIsSubsequence(games, (g: Game) => Matches(g, week, conference));
  }

  /** Choosing "All" selects week 0; choosing the option rendered for week `w` selects `w`. */
  lemma WeekOptionSelectsWeek(w: int)
    ensures WeekFromOption("all") == AllWeeks
    ensures IntToDecimal(w) != "all" && WeekFromOption(IntToDecimal(w)) == Finite(w)
  {
    ParseIntToDecimal(w);
    assert "all"[0] == 'a';
    assert ParseDecimal("all") == None;
  }

  class ScoreboardPage {
    var games: seq<Game>
    var filteredGames: seq<Game>
    var week: WeekValue
    var weeks: seq<int>
    var currentWeek: WeekValue
    var conference: string
    var failed: bool

    /** The filter effect has run for the current `games`, `week` and `conference`. */
    ghost predicate Valid()
      reads this
    {
      filteredGames == Selected(games, week, conference)
    }

    /** The initial state of the hooks, after the first run of the filter effect. */
    constructor ()
      ensures Valid()
      ensures games == [] && filteredGames == [] && weeks == []
      ensures week == AllWeeks && currentWeek == AllWeeks && conference == "SEC" && !failed
    {
      games, filteredGames, weeks := [], [], [];
      week, currentWeek := AllWeeks, AllWeeks;
      conference := "SEC";
      failed := false;
    }

    /** The filter effect: narrow `games` by week, then by conference. */
    method ApplyFilter()
      modifies this`filteredGames
      ensures filteredGames == Selected(games, week, conference)
    {
      var w, c := week, conference;
      var temp := games;
      if w != AllWeeks {
        temp := Filter(temp, (g: Game) => Finite(g.week) == w);
      }
      if c != AllConferences {
        temp := Filter(temp, (g: Game) => InConference(g, c));
      }
      filteredGames := temp;
      ghost var byWeek := (g: Game) => w == AllWeeks || Finite(g.week) == w;
      ghost var byConf := (g: Game) => c == AllConferences || InConference(g, c);
      if w == AllWeeks {
        FilterKeepsAll(games, byWeek);
      } else {
        FilterCongruent(games, byWeek, (g: Game) => Finite(g.week) == w);
      }
      if c == AllConferences {
        FilterKeepsAll(Filter(games, byWeek), byConf);
      } else {
        FilterCongruent(Filter(games, byWeek), byConf, (g: Game) => InConference(g, c));
      }
      FilterFilter(games, byWeek, byConf, (g: Game) => Matches(g, w, c));
    }

    /** The page's `load`: on a successful fetch of `data`, store the games,
        the distinct weeks and the default week; on a failed fetch, only
        show the error. `daysSinceStart` is the whole number of days since
        the season start. */
    method Load(data: Option<seq<Game>>, daysSinceStart: int)
      modifies this
      ensures Valid()
      ensures conference == old(conference)
      ensures data.None? ==>
        failed && games == old(games) && weeks == old(weeks) &&
        week == old(week) && currentWeek == old(currentWeek)
      ensures data.Some? ==>
        !failed && games == data.value && weeks == UniqueWeeks(data.value) &&
        currentWeek == DefaultWeek(weeks, CalcWeek(daysSinceStart)) && week == currentWeek
    {
      failed := false;
      if data.None? {
        failed := true;
      } else {
        games := data.value;
        weeks := UniqueWeeks(data.value);
        var calcWeek := CalcWeek(daysSinceStart);
        var validWeek := DefaultWeek(weeks, calcWeek);
        currentWeek := validWeek;
        week := validWeek;
      }
      ApplyFilter();
    }

    /** The week selector's change handler; the selector offers "all" and the weeks. */
    method HandleWeekChange(value: string)
      requires value == "all" || ParseDecimal(value).Some?
      modifies this
      ensures Valid()
      ensures week == WeekFromOption(value)
      ensures games == old(games) && weeks == old(weeks) && currentWeek == old(currentWeek)
      ensures conference == old(conference) && failed == old(failed)
    {
      week := if value == "all" then AllWeeks else Finite(ParseDecimal(value).value);
      ApplyFilter();
    }

    /** The conference selector's change handler. */
    method HandleConferenceChange(value: string)
      modifies this
      ensures Valid()
      ensures conference == value
      ensures games == old(games) && weeks == old(weeks) && week == old(week)
      ensures currentWeek == old(currentWeek) && failed == old(failed)
    {
      conference := value;
      ApplyFilter();
    }

    /** `filteredGames.slice().sort(...)` by start time; `timeOf` gives the
        time `new Date(startDate)` denotes. The sort runs on a copy, so
        `filteredGames` keeps its order. */
    function SortedGames(timeOf: Option<string> -> int): (r: seq<Game>)
      reads this
      ensures multiset(r) == multiset(filteredGames)
      ensures SortedBy(r, (g: Game) => timeOf(g.startDate))
    {
      SortBy(filteredGames, (g: Game) => timeOf(g.startDate))
    }
  }

  /** Among shown games with the same start time, the sorted list keeps the
      filtered order (the sort is stable). */
  lemma SortedGamesKeepTies(page: ScoreboardPage, timeOf: Option<string> -> int, t: int)
    ensures Filter(page.SortedGames(timeOf), (g: Game) => timeOf(g.startDate) == t) ==
            Filter(page.filteredGames, (g: Game) => timeOf(g.startDate) == t)
  {
    SortByIsStable(page.filteredGames, (g: Game) => timeOf(g.startDate), t, (g: Game) => timeOf(g.startDate) == t);
  }
}
