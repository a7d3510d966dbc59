/** The `/send-sec-schedule` route: select the games in which an SEC team
    plays, ordered by week, render them as an HTML table and mail it. The
    stored games are an input; the rendering of a start date as a local date
    is an opaque function, and the mailer's outcome is an input. */
module SecSchedule {
  import opened Common
  import opened Seqs
  import opened Sorting
  import opened Decimal
  import opened Games

  predicate IsSec(g: Game) {
    InConference(g, "SEC")
  }

  /** `Game.find({ $or: [{ homeConference: "SEC" }, { awayConference: "SEC" }] }).sort({ week: 1 })`. */
  function SecGames(games: seq<Game>): (r: seq<Game>)
    ensures multiset(r) == multiset(Filter(games, IsSec))
    ensures SortedBy(r, WeekOf)
  {
    SortBy(Filter(games, IsSec), WeekOf)
  }

  /** The selection holds exactly the games with an SEC side. */
  lemma SecGamesAreTheSecOnes(games: seq<Game>, g: Game)
    ensures g in SecGames(games) <==> g in games && (g.homeConference == Some("SEC") || g.awayConference == Some("SEC"))
  {
    FilterMembers(games, IsSec, g);
    assert g in SecGames(games) <==> g in multiset(SecGames(games));
  }

  const Opening: string := "<h2>SEC Game Schedule</h2><table"

  /** The table's columns, left to right. The header row and every game's
      row are both built from this one list. */
  datatype Column = WeekCol | DateCol | AwayCol | HomeCol | SpreadCol | OverUnderCol

  const Columns: seq<Column> := [WeekCol, DateCol, AwayCol, HomeCol, SpreadCol, OverUnderCol]

  /** The heading of a column in the header row. */
  function Title(c: Column): string {
    match c
    case WeekCol => "Week"
    case DateCol => "Date"
    case AwayCol => "Away Team"
    case HomeCol => "Home Team"
    case SpreadCol => "Spread"
    case OverUnderCol => "Over/Under"
  }

  /** The header cells of `cols`, all on one line. */
  function TitlesHtml(cols: seq<Column>): string {
    if |cols| == 0 then "" else "<th>" + Title(cols[0]) + "</th>" + TitlesHtml(cols[1..])
  }

  /** The rest of the opening tag and the header row. */
  const HeaderRow: string :=
    " border=\"1\" cellpadding=\"5\" cellspacing=\"0\">\n      <tr>" + TitlesHtml(Columns) + "</tr>"

  const Header: string := Opening + HeaderRow

  const Footer: string := "</table>"

  /** `${v}` in a template literal: an absent attribute prints as `undefined`. */
  function Printed(v: Option<string>): string {
    match v
    case Some(s) => s
    case None => "undefined"
  }

  /** `${v ?? "N/A"}`. */
  function OrNA(v: Option<string>): string {
    match v
    case Some(s) => s
    case None => "N/A"
  }

  /** What a game's row shows in column `c`; `dateText` is
      `new Date(d).toLocaleDateString()`. */
  function Cell(c: Column, g: Game, dateText: Option<string> -> string): string {
    match c
    case WeekCol => IntToDecimal(g.week)
    case DateCol => dateText(g.startDate)
    case AwayCol => Printed(g.awayTeam)
    case HomeCol => Printed(g.homeTeam)
    case SpreadCol => OrNA(g.spread)
    case OverUnderCol => OrNA(g.overUnder)
  }

  function ColumnCells(cols: seq<Column>, g: Game, dateText: Option<string> -> string): (cells: seq<string>)
    ensures |cells| == |cols| && forall i :: 0 <= i < |cols| ==> cells[i] == Cell(cols[i], g, dateText)
  {
    if |cols| == 0 then [] else [Cell(cols[0], g, dateText)] + ColumnCells(cols[1..], g, dateText)
  }

  /** The texts of a game's cells: one per column of the header, in the
      header's order. */
  function CellTexts(g: Game, dateText: Option<string> -> string): (cells: seq<string>)
    ensures |cells| == |Columns|
    ensures forall i :: 0 <= i < |Columns| ==> cells[i] == Cell(Columns[i], g, dateText)
  {
    ColumnCells(Columns, g, dateText)
  }

  /** The cell under each heading holds the attribute that heading names:
      the week's number, the rendered start date, the away team, the home
      team, and the spread and over/under or "N/A". */
  lemma CellsUnderTitles(g: Game, dateText: Option<string> -> string, i: int)
    requires 0 <= i < |Columns|
    ensures var t := Title(Columns[i]); var cell := CellTexts(g, dateText)[i];
      (t == "Week" ==> cell == IntToDecimal(g.week)) &&
      (t == "Date" ==> cell == dateText(g.startDate)) &&
      (t == "Away Team" ==> cell == Printed(g.awayTeam)) &&
      (t == "Home Team" ==> cell == Printed(g.homeTeam)) &&
      (t == "Spread" ==> cell == OrNA(g.spread)) &&
      (t == "Over/Under" ==> cell == OrNA(g.overUnder))
  {
    var c := Columns[i];
    match c
    case WeekCol =>
    case DateCol =>
    case AwayCol =>
    case HomeCol =>
    case SpreadCol =>
    case OverUnderCol =>
  }

  /** Cells, each on its own line. */
  function CellsHtml(cells: seq<string>): string {
    if |cells| == 0 then "" else "\n        <td>" + cells[0] + "</td>" + CellsHtml(cells[1..])
  }

  /** The table row of one game. */
  function Row(g: Game, dateText: Option<string> -> string): string {
    "<tr>" + CellsHtml(CellTexts(g, dateText)) + "\n      </tr>"
  }

  /** The row template, for the dates as `dateText` renders them. */
  function RowTemplate(dateText: Option<string> -> string): Game -> string {
    (g: Game) => Row(g, dateText)
  }

  /** The rows of the games, one per game, in order. */
  function RowsOf(games: seq<Game>, render: Game -> string): (rows: seq<string>)
    ensures |rows| == |games| && forall i :: 0 <= i < |games| ==> rows[i] == render(games[i])
  {
    if |games| == 0 then [] else [render(games[0])] + RowsOf(games[1..], render)
  }

  function Concat(parts: seq<string>): string {
    if |parts| == 0 then "" else parts[0] + Concat(parts[1..])
  }

  lemma {:induction false} ConcatSnoc(parts: seq<string>, last: string)
    ensures Concat(parts + [last]) == Concat(parts) + last
  {
    if |parts| == 0 {
      assert parts + [last] == [last];
    } else {
      assert (parts + [last])[0] == parts[0];
      assert (parts + [last])[1..] == parts[1..] + [last];
      ConcatSnoc(parts[1..], last);
    }
  }

  /** The whole message: the heading and the header row, one row per game in
      the order given, and the end of the table. */
  function ScheduleHtml(games: seq<Game>, dateText: Option<string> -> string): (html: string)
    ensures |html| >= |Opening| + |Footer|
    ensures html[..|Opening|] == Opening && html[|html| - |Footer|..] == Footer
  {
    var rows := Concat(RowsOf(games, RowTemplate(dateText)));
    Framed(Opening, HeaderRow, rows, Footer);
    Header + rows + Footer
  }

  lemma Framed(opening: string, header: string, rows: string, footer: string)
    ensures var html := (opening + header) + rows + footer;
      html[..|opening|] == opening && html[|html| - |footer|..] == footer
  {
    var html := (opening + header) + rows + footer;
    assert html == opening + (header + rows + footer);
    assert html == (opening + header + rows) + footer;
  }

  /** Every row opens and closes a table row. */
  lemma RowShape(g: Game, dateText: Option<string> -> string)
    ensures var row := Row(g, dateText);
      |row| >= 9 && row[..4] == "<tr>" && row[|row| - 5..] == "</tr>"
  {
    var row := Row(g, dateText);
    var cells := CellsHtml(CellTexts(g, dateText));
    assert row == "<tr>" + (cells + "\n      </tr>");
    assert row[..4] == "<tr>";
    assert row[|row| - 5..] == "</tr>";
  }

  /** A missing spread or over/under is printed as `N/A`, as though that
      were its value. */
  lemma MissingOddsPrintAsNA(g: Game, dateText: Option<string> -> string)
    ensures g.spread.None? ==>
      CellTexts(g, dateText)[4] == "N/A" && Row(g, dateText) == Row(g.(spread := Some("N/A")), dateText)
    ensures g.overUnder.None? ==>
      CellTexts(g, dateText)[5] == "N/A" && Row(g, dateText) == Row(g.(overUnder := Some("N/A")), dateText)
  {
    if g.spread.None? {
      assert CellTexts(g, dateText) == CellTexts(g.(spread := Some("N/A")), dateText);
    }
    if g.overUnder.None? {
      assert CellTexts(g, dateText) == CellTexts(g.(overUnder := Some("N/A")), dateText);
    }
  }

  /** `html += ...` for each game, between the header and the footer. */
  method BuildHtml(secGames: seq<Game>, dateText: Option<string> -> string) returns (html: string)
    ensures html == ScheduleHtml(secGames, dateText)
  {
    html := Header;
    html := AppendRows(html, secGames, RowTemplate(dateText));
    html := html + Footer;
  }

  /** The `forEach` loop: each game's row is appended to `html`. */
  method AppendRows(start: string, secGames: seq<Game>, render: Game -> string) returns (html: string)
    ensures html == start + Concat(RowsOf(secGames, render))
  {
    html := start;
    ghost var done: seq<string> := [];
    var i := 0;
    while i < |secGames|
      invariant 0 <= i <= |secGames| && |done| == i
      invariant forall k :: 0 <= k < i ==> done[k] == render(secGames[k])
      invariant html == start + Concat(done)
    {
      var row := render(secGames[i]);
      ConcatSnoc(done, row);
      html := html + row;
      done := done + [row];
      i := i + 1;
    }
    assert done == RowsOf(secGames, render);
  }

  datatype Mail = Mail(to: Option<string>, subject: string, html: string)

  datatype Body = Error(error: string) | Sent(message: string) | Failure(error: string, details: string)

  datatype Response = Response(status: int, body: Body)

  /** The route handler over the stored `games`. `sendTo` is `SEND_TO_EMAIL`;
      `mailError` is the message of the mailer's error, if sending fails. */
  method SendSecSchedule(games: seq<Game>, dateText: Option<string> -> string,
                         sendTo: Option<string>, mailError: Option<string>)
    returns (res: Response, mail: Option<Mail>)
    ensures SecGames(games) == [] <==> res == Response(404, Error("No SEC games found"))
    ensures SecGames(games) == [] ==> mail.None?
    ensures SecGames(games) != [] ==>
      mail == Some(Mail(sendTo, "Weekly SEC Schedule", ScheduleHtml(SecGames(games), dateText)))
    ensures SecGames(games) != [] && mailError.None? ==> res == Response(200, Sent("SEC schedule email sent!"))
    ensures SecGames(games) != [] && mailError.Some? ==>
      res == Response(500, Failure("Failed to send SEC schedule", mailError.value))
  {
    var secGames := SortBy(Filter(games, IsSec), WeekOf);
    if |secGames| == 0 {
      return Response(404, Error("No SEC games found")), None;
    }
    var html := BuildHtml(secGames, dateText);
    mail := Some(Mail(sendTo, "Weekly SEC Schedule", html));
    if mailError.Some? {
      res := Response(500, Failure("Failed to send SEC schedule", mailError.value));
    } else {
      res := Response(200, Sent("SEC schedule email sent!"));
    }
  }
}
