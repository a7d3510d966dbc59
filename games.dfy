/** The game record that the backend stores, lists and mails and that the
    scoreboard page receives as JSON. Only the attributes the core reads are
    modelled; numbers that are only ever printed (spread, over/under) are kept
    as the text JavaScript prints for them, and the start date as its text. */
module Games {
  import opened Common

  datatype Game = Game(
    id: int,
    week: int,
    homeTeam: Option<string>,
    awayTeam: Option<string>,
    startDate: Option<string>,
    homeConference: Option<string>,
    awayConference: Option<string>,
    spread: Option<string>,
    overUnder: Option<string>)

  function WeekOf(g: Game): int {
    g.week
  }

  /** The home or the away side plays in conference `c`. */
  predicate InConference(g: Game, c: string) {
    g.homeConference == Some(c) || g.awayConference == Some(c)
  }
}
