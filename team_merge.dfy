/** The merge step of `fetch_and_merge_all`: lookup indexes over the
    statistics endpoints keyed by normalised team name (and venues by id),
    then one pass over the season's games that attaches the looked-up rows to
    every game and counts the games that matched. Endpoint rows are JSON
    objects with scalar values; the HTTP fetches are inputs (a failed fetch
    arrives as the empty list, as `fetch_endpoint` returns it). */
module TeamMerge {
  import opened Common
  import opened Seqs
  import opened TeamNames

  datatype Field = Null | Bool(b: bool) | Number(n: int) | Text(s: string)

  /** An attribute name of a JSON object. The names the merge reads have
      constructors of their own; `Named(n)` stands for any other name `n`. */
  datatype Key = HomeTeam | AwayTeam | VenueId | School | Team | Id | Named(name: string)

  /** A JSON object, as Python holds it in a dict. */
  type Doc = map<Key, Field>

  /** Python truthiness of a scalar. */
  predicate FieldTruthy(f: Field) {
    match f
    case Null => false
    case Bool(b) => b
    case Number(n) => n != 0
    case Text(s) => s != ""
  }

  /** Python truthiness of a lookup result: `None` and `{}` are falsy. */
  predicate DocTruthy(d: Option<Doc>) {
    d.Some? && d.value != map[]
  }

  /** `d.get(k)`. */
  function Get(d: Doc, k: Key): Field {
    if k in d then d[k] else Null
  }

  function TextOf(f: Field): Option<string> {
    if f.Text? then Some(f.s) else None
  }

  /** `index.get(k)`. */
  function Lookup<K>(index: map<K, Doc>, k: K): Option<Doc> {
    if k in index then Some(index[k]) else None
  }

  /** `{key(t): t for t in rows}`: every key of a row is present, and a later
      row overwrites an earlier one with the same key. */
  function BuildIndex<K(!new)>(rows: seq<Doc>, key: Doc -> K): (index: map<K, Doc>)
    ensures forall k :: k in index <==> exists i :: 0 <= i < |rows| && key(rows[i]) == k
  {
    if |rows| == 0 then map[]
    else
      var init := rows[..|rows| - 1];
      assert forall i :: 0 <= i < |init| ==> init[i] == rows[i];
      BuildIndex(init, key)[key(rows[|rows| - 1]) := rows[|rows| - 1]]
  }

  /** Row `i` is the last row whose key is `k`. */
  ghost predicate LastWithKey<K>(rows: seq<Doc>, key: Doc -> K, k: K, i: int) {
    0 <= i < |rows| && key(rows[i]) == k &&
    forall j :: i < j < |rows| ==> key(rows[j]) != k
  }

  /** Looking a key up in an index finds nothing exactly when no row has that
      key, and otherwise finds the last row with that key. */
  lemma {:induction false} LookupFindsLastRow<K(!new)>(rows: seq<Doc>, key: Doc -> K, k: K)
    ensures Lookup(BuildIndex(rows, key), k).None? <==> forall i :: 0 <= i < |rows| ==> key(rows[i]) != k
    ensures Lookup(BuildIndex(rows, key), k).Some? ==>
      exists i :: LastWithKey(rows, key, k, i) && Lookup(BuildIndex(rows, key), k) == Some(rows[i])
  {
    if |rows| > 0 {
      var n := |rows| - 1;
      var init := rows[..n];
      assert forall i :: 0 <= i < n ==> init[i] == rows[i];
      assert BuildIndex(rows, key) == BuildIndex(init, key)[key(rows[n]) := rows[n]];
      LookupFindsLastRow(init, key, k);
      if key(rows[n]) != k && Lookup(BuildIndex(init, key), k).Some? {
        var i :| LastWithKey(init, key, k, i) && Lookup(BuildIndex(init, key), k) == Some(init[i]);
        assert LastWithKey(rows, key, k, i);
      } else if key(rows[n]) == k {
        assert LastWithKey(rows, key, k, n);
      }
    }
  }

  /** `normalize_team_name(t["school"])` and `normalize_team_name(t["team"])`. */
  function SchoolKey(d: Doc): string {
    NormalizeTeamName(TextOf(Get(d, School)))
  }

  function TeamKey(d: Doc): string {
    NormalizeTeamName(TextOf(Get(d, Team)))
  }

  function VenueKey(d: Doc): Field {
    Get(d, Id)
  }

  /** The rows of the endpoints the merge reads. */
  datatype ExtraData = ExtraData(
    teams: seq<Doc>,
    venues: seq<Doc>,
    ratingsSp: seq<Doc>,
    ratingsFpi: seq<Doc>,
    statsSeason: seq<Doc>,
    records: seq<Doc>)

  datatype Indexes = Indexes(
    team: map<string, Doc>,
    sp: map<string, Doc>,
    fpi: map<string, Doc>,
    stat: map<string, Doc>,
    record: map<string, Doc>,
    venue: map<Field, Doc>)

  function BuildIndexes(extra: ExtraData): Indexes {
    Indexes(
      BuildIndex(extra.teams, SchoolKey),
      BuildIndex(extra.ratingsSp, TeamKey),
      BuildIndex(extra.ratingsFpi, TeamKey),
      BuildIndex(extra.statsSeason, TeamKey),
      BuildIndex(extra.records, TeamKey),
      BuildIndex(extra.venues, VenueKey))
  }

  /** A `{"home": ..., "away": ...}` slot. */
  datatype Pair = Pair(home: Option<Doc>, away: Option<Doc>)

  /** The keys the merge writes into a game: `ratings.sp`, `ratings.fpi`,
      `team_info`, `season_stats`, `records`, `venue_info` and `fbs_only`. */
  datatype Merged = Merged(
    sp: Pair,
    fpi: Pair,
    teamInfo: Pair,
    seasonStats: Pair,
    records: Pair,
    venueInfo: Option<Doc>,
    fbsOnly: bool)

  /** A game dict: the fields the games endpoint delivered, and the merged
      keys once the merge has written them (they take precedence over
      delivered fields of the same name). */
  datatype GameEntry = GameEntry(doc: Doc, merged: Option<Merged>)

  const Unmatched: Pair := Pair(None, None)

  function HomeKey(doc: Doc): string {
    NormalizeTeamName(TextOf(Get(doc, HomeTeam)))
  }

  function AwayKey(doc: Doc): string {
    NormalizeTeamName(TextOf(Get(doc, AwayTeam)))
  }

  /** The home and away rows of one index. */
  function LookupPair(index: map<string, Doc>, homeKey: string, awayKey: string): Pair {
    Pair(Lookup(index, homeKey), Lookup(index, awayKey))
  }

  predicate EitherTruthy(p: Pair) {
    DocTruthy(p.home) || DocTruthy(p.away)
  }

  /** What the loop body writes into one game. */
  function MergedFor(doc: Doc, idx: Indexes): Merged {
    MergedForKeys(HomeKey(doc), AwayKey(doc), Get(doc, VenueId), idx)
  }

  /** Each side of `p` holds the index's entry for that side's key, and is
      empty exactly when the index has no such key. */
  predicate FromIndex(p: Pair, index: map<string, Doc>, homeKey: string, awayKey: string) {
    (p.home.Some? <==> homeKey in index) && (p.home.Some? ==> p.home.value == index[homeKey]) &&
    (p.away.Some? <==> awayKey in index) && (p.away.Some? ==> p.away.value == index[awayKey])
  }

  lemma LookupPairFromIndex(index: map<string, Doc>, homeKey: string, awayKey: string)
    ensures FromIndex(LookupPair(index, homeKey, awayKey), index, homeKey, awayKey)
  {
  }

  /** The merged keys of a game with normalised names `homeKey` and
      `awayKey` and venue id `venueId`. */
  function MergedForKeys(homeKey: string, awayKey: string, venueId: Field, idx: Indexes): (m: Merged)
    ensures m.fbsOnly <==> DocTruthy(m.sp.home) || DocTruthy(m.sp.away)
    ensures FromIndex(m.sp, idx.sp, homeKey, awayKey) && FromIndex(m.fpi, idx.fpi, homeKey, awayKey)
    ensures FromIndex(m.teamInfo, idx.team, homeKey, awayKey) && FromIndex(m.seasonStats, idx.stat, homeKey, awayKey)
    ensures FromIndex(m.records, idx.record, homeKey, awayKey)
    ensures m.venueInfo.Some? <==> FieldTruthy(venueId) && venueId in idx.venue
    ensures m.venueInfo.Some? ==> m.venueInfo.value == idx.venue[venueId]
  {
    var sp := LookupPair(idx.sp, homeKey, awayKey);
    LookupPairFromIndex(idx.sp, homeKey, awayKey);
    LookupPairFromIndex(idx.fpi, homeKey, awayKey);
    LookupPairFromIndex(idx.team, homeKey, awayKey);
    LookupPairFromIndex(idx.stat, homeKey, awayKey);
    LookupPairFromIndex(idx.record, homeKey, awayKey);
    Merged(
      sp,
      LookupPair(idx.fpi, homeKey, awayKey),
      LookupPair(idx.team, homeKey, awayKey),
      LookupPair(idx.stat, homeKey, awayKey),
      LookupPair(idx.record, homeKey, awayKey),
      if FieldTruthy(venueId) then Lookup(idx.venue, venueId) else None,
      EitherTruthy(sp))
  }

  predicate SpMatched(g: GameEntry) {
    g.merged.Some? && g.merged.value.fbsOnly
  }

  predicate TeamInfoMatched(g: GameEntry) {
    g.merged.Some? && EitherTruthy(g.merged.value.teamInfo)
  }

  predicate StatsMatched(g: GameEntry) {
    g.merged.Some? && EitherTruthy(g.merged.value.seasonStats)
  }

  /** A slot filled from an index over `rows` for key `k` is empty exactly
      when no row has key `k`, and otherwise holds the last row that has it. */
  ghost predicate LastRowOrNone<K>(slot: Option<Doc>, rows: seq<Doc>, key: Doc -> K, k: K) {
    (slot.None? <==> forall i :: 0 <= i < |rows| ==> key(rows[i]) != k) &&
    (slot.Some? ==> exists i :: LastWithKey(rows, key, k, i) && slot == Some(rows[i]))
  }

  /** Both sides of a team slot come from the rows that way. */
  ghost predicate PairFromRows(p: Pair, rows: seq<Doc>, homeKey: string, awayKey: string) {
    LastRowOrNone(p.home, rows, TeamKey, homeKey) && LastRowOrNone(p.away, rows, TeamKey, awayKey)
  }

  lemma PairFromIndex(rows: seq<Doc>, key: Doc -> string, homeKey: string, awayKey: string)
    ensures var p := LookupPair(BuildIndex(rows, key), homeKey, awayKey);
      LastRowOrNone(p.home, rows, key, homeKey) && LastRowOrNone(p.away, rows, key, awayKey)
  {
    LookupFindsLastRow(rows, key, homeKey);
    LookupFindsLastRow(rows, key, awayKey);
  }

  /** Every team slot of a merged game, home and away, for the SP and FPI
      ratings, the season statistics and the records, is the last row of
      its endpoint whose normalised `team` is that side's normalised name,
      or `None` when there is none; the team-info slots are the same over
      the teams endpoint and its `school` names. The venue slot is `None`
      for a missing or falsy `venueId` and otherwise the last venue row
      with that id, if any; and `fbs_only` holds exactly when an SP slot
      holds a non-empty row. */
  lemma MergedSlotsComeFromRows(doc: Doc, extra: ExtraData)
    ensures var m := MergedFor(doc, BuildIndexes(extra));
      && PairFromRows(m.sp, extra.ratingsSp, HomeKey(doc), AwayKey(doc))
      && PairFromRows(m.fpi, extra.ratingsFpi, HomeKey(doc), AwayKey(doc))
      && PairFromRows(m.seasonStats, extra.statsSeason, HomeKey(doc), AwayKey(doc))
      && PairFromRows(m.records, extra.records, HomeKey(doc), AwayKey(doc))
      && LastRowOrNone(m.teamInfo.home, extra.teams, SchoolKey, HomeKey(doc))
      && LastRowOrNone(m.teamInfo.away, extra.teams, SchoolKey, AwayKey(doc))
      && (!FieldTruthy(Get(doc, VenueId)) ==> m.venueInfo.None?)
      && (FieldTruthy(Get(doc, VenueId)) ==> LastRowOrNone(m.venueInfo, extra.venues, VenueKey, Get(doc, VenueId)))
      && (m.fbsOnly <==> DocTruthy(m.sp.home) || DocTruthy(m.sp.away))
  {
    var h, a := HomeKey(doc), AwayKey(doc);
    PairFromIndex(extra.ratingsSp, TeamKey, h, a);
    PairFromIndex(extra.ratingsFpi, TeamKey, h, a);
    PairFromIndex(extra.statsSeason, TeamKey, h, a);
    PairFromIndex(extra.records, TeamKey, h, a);
    PairFromIndex(extra.teams, SchoolKey, h, a);
    LookupFindsLastRow(extra.venues, VenueKey, Get(doc, VenueId));
  }

  /** Games whose team names normalise alike pick up the same rows. */
  lemma SameNamesSameRows(a: Doc, b: Doc, idx: Indexes)
    requires HomeKey(a) == HomeKey(b) && AwayKey(a) == AwayKey(b)
    ensures var ma, mb := MergedFor(a, idx), MergedFor(b, idx);
      ma.sp == mb.sp && ma.fpi == mb.fpi && ma.teamInfo == mb.teamInfo &&
      ma.seasonStats == mb.seasonStats && ma.records == mb.records && ma.fbsOnly == mb.fbsOnly
  {
  }

  /** The body of the merge loop for one game: initialise every merged key
      to "no match", then fill each from its index. */
  method MergeGame(homeKey: string, awayKey: string, venueId: Field, idx: Indexes) returns (m: Merged)
    ensures m == MergedForKeys(homeKey, awayKey, venueId, idx)
  {
    m := Merged(Unmatched, Unmatched, Unmatched, Unmatched, Unmatched, None, false);
    m := m.(sp := Pair(Lookup(idx.sp, homeKey), Lookup(idx.sp, awayKey)));
    m := m.(fpi := Pair(Lookup(idx.fpi, homeKey), Lookup(idx.fpi, awayKey)));
    if DocTruthy(m.sp.home) || DocTruthy(m.sp.away) {
      m := m.(fbsOnly := true);
    }
    m := m.(teamInfo := Pair(Lookup(idx.team, homeKey), Lookup(idx.team, awayKey)));
    m := m.(seasonStats := Pair(Lookup(idx.stat, homeKey), Lookup(idx.stat, awayKey)));
    m := m.(records := Pair(Lookup(idx.record, homeKey), Lookup(idx.record, awayKey)));
    m := m.(venueInfo := if FieldTruthy(venueId) then Lookup(idx.venue, venueId) else None);
  }

  /** One game dict after the merge has written its keys. */
  function MergeEntry(g: GameEntry, idx: Indexes): GameEntry {
    GameEntry(g.doc, Some(MergedFor(g.doc, idx)))
  }

  /** Every game of `s` after the merge. */
  function MergeEntries(s: seq<GameEntry>, idx: Indexes): (r: seq<GameEntry>)
    ensures |r| == |s|
  {
    if |s| == 0 then []
    else MergeEntries(s[..|s| - 1], idx) + [MergeEntry(s[|s| - 1], idx)]
  }

  /** Each game is merged on its own: position `i` of the result is game `i` merged. */
  lemma {:induction false} MergeEntriesAt(s: seq<GameEntry>, idx: Indexes, i: int)
    requires 0 <= i < |s|
    ensures MergeEntries(s, idx)[i] == MergeEntry(s[i], idx)
  {
    if i < |s| - 1 {
      MergeEntriesAt(s[..|s| - 1], idx, i);
    }
  }

  /** `sp_merged_count`, `team_info_count` and `season_stats_count`. */
  datatype MergeCounts = MergeCounts(spMerged: nat, teamInfo: nat, seasonStats: nat)

  /** The counters after the loop has merged the games `s`. */
  function CountsOf(s: seq<GameEntry>): (c: MergeCounts)
    ensures c.spMerged <= |s| && c.teamInfo <= |s| && c.seasonStats <= |s|
  {
    MergeCounts(CountWhere(s, SpMatched), CountWhere(s, TeamInfoMatched), CountWhere(s, StatsMatched))
  }

  /** The counters after one more game: each counter whose slot matched goes up by one. */
  function Bump(c: MergeCounts, e: GameEntry): MergeCounts {
    MergeCounts(
      c.spMerged + (if SpMatched(e) then 1 else 0),
      c.teamInfo + (if TeamInfoMatched(e) then 1 else 0),
      c.seasonStats + (if StatsMatched(e) then 1 else 0))
  }

  lemma CountsOfSnoc(s: seq<GameEntry>, e: GameEntry)
    ensures CountsOf(s + [e]) == Bump(CountsOf(s), e)
  {
    CountWhereSnoc(s, e, SpMatched);
    CountWhereSnoc(s, e, TeamInfoMatched);
    CountWhereSnoc(s, e, StatsMatched);
  }

  /** A list holding game `k` merged at every position `k` is the merged list. */
  lemma MergeEntriesPointwise(s: seq<GameEntry>, r: seq<GameEntry>, idx: Indexes)
    requires |r| == |s| && forall k :: 0 <= k < |s| ==> r[k] == MergeEntry(s[k], idx)
    ensures r == MergeEntries(s, idx)
  {
    forall k | 0 <= k < |s|
      ensures r[k] == MergeEntries(s, idx)[k]
    {
      MergeEntriesAt(s, idx, k);
    }
  }

  /** The merge loop: every game gets all merged keys, whether or not any
      lookup matched; the counters count the games with an SP, team-info or
      season-stats match. */
  method MergeAll(games: array<GameEntry>, idx: Indexes) returns (counts: MergeCounts)
    modifies games
    ensures games[..] == MergeEntries(old(games[..]), idx)
    ensures counts == CountsOf(games[..])
  {
    counts := MergeCounts(0, 0, 0);
    ghost var original := games[..];
    ghost var done: seq<GameEntry> := [];
    var i := 0;
    while i < games.Length
      invariant 0 <= i <= games.Length && |done| == i
      invariant forall k :: 0 <= k < i ==> done[k] == MergeEntry(original[k], idx)
      invariant forall k :: 0 <= k < i ==> games[k] == done[k]
      invariant forall k :: i <= k < games.Length ==> games[k] == original[k]
      invariant counts == CountsOf(done)
    {
      assert games[i] == original[i];
      var entry;
      entry, counts := MergeOne(games[i], idx, counts);
      assert entry == MergeEntry(original[i], idx);
      CountsOfSnoc(done, entry);
      games[i] := entry;
      ghost var prev := done;
      done := done + [entry];
      assert done[i] == entry;
      assert forall k :: 0 <= k < i ==> done[k] == prev[k];
      i := i + 1;
    }
    assert games[..] == done;
    MergeEntriesPointwise(original, done, idx);
  }

  /** One pass of the loop body: merge the game and bump each counter whose
      slot matched. */
  method MergeOne(g: GameEntry, idx: Indexes, counts: MergeCounts) returns (e: GameEntry, counts': MergeCounts)
    ensures e == MergeEntry(g, idx)
    ensures counts' == Bump(counts, e)
  {
    var sp, team, stats := counts.spMerged, counts.teamInfo, counts.seasonStats;
    var homeKey := HomeKey(g.doc);
    var awayKey := AwayKey(g.doc);
    var m := MergeGame(homeKey, awayKey, Get(g.doc, VenueId), idx);
    if DocTruthy(m.sp.home) || DocTruthy(m.sp.away) {
      sp := sp + 1;
    }
    if DocTruthy(m.teamInfo.home) || DocTruthy(m.teamInfo.away) {
      team := team + 1;
    }
    if DocTruthy(m.seasonStats.home) || DocTruthy(m.seasonStats.away) {
      stats := stats + 1;
    }
    e := GameEntry(g.doc, Some(m));
    counts' := MergeCounts(sp, team, stats);
    BumpOf(counts, e, m);
  }

  /** The counters after one more game, merged as `m`. */
  lemma BumpOf(c: MergeCounts, e: GameEntry, m: Merged)
    requires e.merged == Some(m) && (m.fbsOnly <==> EitherTruthy(m.sp))
    ensures Bump(c, e) == MergeCounts(
      c.spMerged + (if EitherTruthy(m.sp) then 1 else 0),
      c.teamInfo + (if EitherTruthy(m.teamInfo) then 1 else 0),
      c.seasonStats + (if EitherTruthy(m.seasonStats) then 1 else 0))
  {
  }

  /** The games as the games endpoint delivered them. */
  function Unmerged(games: seq<Doc>): (r: seq<GameEntry>)
    ensures |r| == |games| && forall i :: 0 <= i < |games| ==> r[i] == GameEntry(games[i], None)
  {
    seq(|games|, i requires 0 <= i < |games| => GameEntry(games[i], None))
  }

  /** The `games_raw` collection the script rebuilds. */
  class RawGamesCollection {
    var docs: seq<GameEntry>

    constructor ()
      ensures docs == []
    {
      docs := [];
    }

    /** `fetch_and_merge_all`, given what the endpoints returned: clear the
        collection; with no games, stop and return nothing; otherwise merge
        every game, insert the merged games and return them. */
    method FetchAndMergeAll(games: seq<Doc>, extra: ExtraData) returns (result: seq<GameEntry>, counts: MergeCounts)
      modifies this
      ensures |games| == 0 ==> result == [] && docs == [] && counts == MergeCounts(0, 0, 0)
      ensures |games| > 0 ==> docs == result
      ensures result == MergeEntries(Unmerged(games), BuildIndexes(extra))
      ensures counts == CountsOf(result)
    {
      docs := [];
      if |games| == 0 {
        return [], MergeCounts(0, 0, 0);
      }
      var idx := BuildIndexes(extra);
      var entries := new GameEntry[|games|](i requires 0 <= i < |games| => GameEntry(games[i], None));
      assert entries[..] == Unmerged(games);
      counts := MergeAll(entries, idx);
      docs := docs + entries[..];
      result := entries[..];
    }
  }

  /** After the merge, game `i` keeps the fields the games endpoint
      delivered and carries the merged keys computed from its own team names
      and venue id. */
  lemma MergedGamesCarrySlots(games: seq<Doc>, extra: ExtraData, i: int)
    requires 0 <= i < |games|
    ensures MergeEntries(Unmerged(games), BuildIndexes(extra))[i] ==
      GameEntry(games[i], Some(MergedFor(games[i], BuildIndexes(extra))))
  {
    MergeEntriesAt(Unmerged(games), BuildIndexes(extra), i);
  }
}
