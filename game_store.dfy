/** The backend's game collection and its two routes: the refill, which
    empties the collection, asks the upstream statistics service for the
    season's games and stores the rows that name both teams; and the
    listing, which returns the stored games ordered by week. The collection
    is the sequence `games` of `GameCollection`; the upstream answer is an input. */
module GameStore {
  import opened Common
  import opened Seqs
  import opened Sorting
  import opened Decimal
  import opened Games

  /** What the upstream request comes to: the request or the JSON decoding
      throws (`message` is the error's message), the answer is not OK, or
      the decoded rows. */
  datatype Upstream =
    | Unreachable(message: string)
    | NotOk(statusText: string)
    | Rows(rows: seq<Game>)

  datatype Body = Inserted(message: string) | Failure(error: string, details: string)

  datatype Response = Response(status: int, body: Body)

  const FailedToFetch: string := "Failed to fetch or store games"

  /** `g.homeTeam && g.awayTeam`. */
  predicate ValidRow(g: Game) {
    TruthyText(g.homeTeam) && TruthyText(g.awayTeam)
  }

  /** The document the schema keeps of a row: the betting attributes are not
      in the schema and are dropped. */
  function Stored(g: Game): (d: Game)
    ensures d.id == g.id && d.week == g.week && d.homeTeam == g.homeTeam && d.awayTeam == g.awayTeam
    ensures d.startDate == g.startDate && d.homeConference == g.homeConference && d.awayConference == g.awayConference
    ensures d.spread.None? && d.overUnder.None?
  {
    g.(spread := None, overUnder := None)
  }

  function StoredAll(rows: seq<Game>): (docs: seq<Game>)
    ensures |docs| == |rows| && forall i :: 0 <= i < |rows| ==> docs[i] == Stored(rows[i])
  {
    if |rows| == 0 then [] else [Stored(rows[0])] + StoredAll(rows[1..])
  }

  predicate HasId(store: seq<Game>, id: int) {
    exists g :: g in store && g.id == id
  }

  ghost predicate UniqueIds(store: seq<Game>) {
    forall i, j :: 0 <= i < j < |store| ==> store[i].id != store[j].id
  }

  ghost predicate HasDuplicateId(docs: seq<Game>) {
    exists i, j :: 0 <= i < j < |docs| && docs[i].id == docs[j].id
  }

  /** `insertMany(docs, { ordered: false })` into a collection with a unique
      index on `id`: each document is inserted unless its id is already
      stored, and a refused one does not stop the rest. */
  function InsertUnordered(store: seq<Game>, docs: seq<Game>): (r: seq<Game>)
    decreases |docs|
    ensures |store| <= |r| <= |store| + |docs|
    ensures forall i :: 0 <= i < |store| ==> r[i] == store[i]
  {
    if |docs| == 0 then store
    else if HasId(store, docs[0].id) then InsertUnordered(store, docs[1..])
    else InsertUnordered(store + [docs[0]], docs[1..])
  }

  /** The insert keeps what was stored and only adds documents, keeps ids
      unique, and leaves every document's id stored. */
  lemma {:induction false} InsertUnorderedFacts(store: seq<Game>, docs: seq<Game>)
    requires UniqueIds(store)
    decreases |docs|
    ensures var r := InsertUnordered(store, docs);
      |store| <= |r| && r[..|store|] == store &&
      UniqueIds(r) &&
      (forall g :: g in r ==> g in store || g in docs) &&
      (forall i :: 0 <= i < |docs| ==> HasId(r, docs[i].id))
  {
    if |docs| > 0 {
      var d := docs[0];
      var next := if HasId(store, d.id) then store else store + [d];
      assert UniqueIds(next);
      InsertUnorderedFacts(next, docs[1..]);
      var r := InsertUnordered(store, docs);
      assert r[..|next|] == next;
      assert r[..|store|] == next[..|store|];
      assert HasId(r, d.id) by {
        var g :| g in next && g.id == d.id;
        var k :| 0 <= k < |next| && next[k] == g;
        assert r[k] == g;
      }
      forall i | 0 <= i < |docs|
        ensures HasId(r, docs[i].id)
      {
        if i > 0 {
          assert docs[i] == docs[1..][i - 1];
        }
      }
      forall g | g in r
        ensures g in store || g in docs
      {
        assert g in next || g in docs[1..];
      }
    }
  }

  /** A document whose id is neither stored nor used by an earlier document
      is inserted itself: the first of several rows with one id wins. */
  lemma {:induction false} InsertUnorderedKeepsFirst(store: seq<Game>, docs: seq<Game>, i: int)
    requires 0 <= i < |docs| && !HasId(store, docs[i].id)
    requires forall j :: 0 <= j < i ==> docs[j].id != docs[i].id
    decreases |docs|
    ensures docs[i] in InsertUnordered(store, docs)
  {
    var d := docs[0];
    var next := if HasId(store, d.id) then store else store + [d];
    if i == 0 {
      var r := InsertUnordered(store, docs);
      assert r[|store|] == d;
    } else {
      assert !HasId(next, docs[i].id);
      assert docs[i] == docs[1..][i - 1];
      InsertUnorderedKeepsFirst(next, docs[1..], i - 1);
    }
  }

  /** Every document is inserted exactly when none is refused: no document
      has an id already stored or used by another document. */
  lemma {:induction false} InsertUnorderedCount(store: seq<Game>, docs: seq<Game>)
    decreases |docs|
    ensures |InsertUnordered(store, docs)| <= |store| + |docs|
    ensures |InsertUnordered(store, docs)| == |store| + |docs| <==>
      !HasDuplicateId(docs) && forall i :: 0 <= i < |docs| ==> !HasId(store, docs[i].id)
  {
    if |docs| > 0 {
      var d := docs[0];
      var tail := docs[1..];
      if HasId(store, d.id) {
        InsertUnorderedCount(store, tail);
      } else {
        var next := store + [d];
        InsertUnorderedCount(next, tail);
        assert forall x :: HasId(next, x) <==> HasId(store, x) || x == d.id by {
          assert forall g :: g in next <==> g in store || g == d;
        }
        assert forall i :: 0 <= i < |tail| ==> tail[i] == docs[i + 1];
        DuplicateIdCons(docs);
        if exists k :: 0 <= k < |tail| && HasId(next, tail[k].id) {
          var k :| 0 <= k < |tail| && HasId(next, tail[k].id);
          if !HasId(store, tail[k].id) {
            assert docs[k + 1].id == docs[0].id;
          } else {
            assert HasId(store, docs[k + 1].id);
          }
        }
      }
    }
  }

  /** Two documents share an id when the first shares it with a later one or
      two of the later ones share one. */
  lemma DuplicateIdCons(docs: seq<Game>)
    requires |docs| > 0
    ensures HasDuplicateId(docs) <==>
      HasDuplicateId(docs[1..]) || exists k :: 1 <= k < |docs| && docs[k].id == docs[0].id
  {
    var tail := docs[1..];
    if HasDuplicateId(docs) {
      var i, j :| 0 <= i < j < |docs| && docs[i].id == docs[j].id;
      if i > 0 {
        assert tail[i - 1].id == tail[j - 1].id;
      }
    }
    if HasDuplicateId(tail) {
      var i, j :| 0 <= i < j < |tail| && tail[i].id == tail[j].id;
      assert docs[i + 1].id == docs[j + 1].id;
    }
  }

  /** The number the success message reports: the whole batch when no
      document was refused; a refused one makes the insert reject, and the
      handler then finds no result and reports 0. */
  function InsertedMessage(n: int): string {
    "Inserted " + IntToDecimal(n) + " games into the database"
  }

  class GameCollection {
    var games: seq<Game>

    ghost predicate Valid()
      reads this
    {
      UniqueIds(games)
    }

    constructor ()
      ensures Valid() && games == []
    {
      games := [];
    }

    /** `GET /api/fetch-2025-games`. The collection is emptied before the
        upstream service is asked, so a failed request leaves it empty. */
    method Refill(upstream: Upstream) returns (res: Response)
      modifies this
      ensures Valid()
      ensures upstream.Unreachable? ==>
        games == [] && res == Response(500, Failure(FailedToFetch, upstream.message))
      ensures upstream.NotOk? ==>
        games == [] && res == Response(500, Failure(FailedToFetch, "CFB API request failed: " + upstream.statusText))
      ensures upstream.Rows? ==>
        var docs := StoredAll(Filter(upstream.rows, ValidRow));
        games == InsertUnordered([], docs) &&
        res == Response(200, Inserted(InsertedMessage(if HasDuplicateId(docs) then 0 else |docs|)))
    {
      games := [];
      match upstream {
        case Unreachable(message) =>
          return Response(500, Failure(FailedToFetch, message));
        case NotOk(statusText) =>
          return Response(500, Failure(FailedToFetch, "CFB API request failed: " + statusText));
        case Rows(rows) =>
          var docs := StoredAll(Filter(rows, ValidRow));
          var refused := false;
          var i := 0;
          while i < |docs|
            invariant 0 <= i <= |docs| && |games| <= i
            invariant UniqueIds(games)
            invariant InsertUnordered(games, docs[i..]) == InsertUnordered([], docs)
            invariant refused <==> |games| < i
          {
            assert docs[i..][0] == docs[i] && docs[i..][1..] == docs[i + 1..];
            if HasId(games, docs[i].id) {
              refused := true;
            } else {
              games := games + [docs[i]];
            }
            i := i + 1;
          }
          InsertUnorderedCount([], docs);
          var n := if refused then 0 else |docs|;
          res := Response(200, Inserted(InsertedMessage(n)));
      }
    }

    /** `GET /api/games`: every stored game, ordered by week. */
    function ListGames(): (r: seq<Game>)
      reads this
      ensures multiset(r) == multiset(games)
      ensures SortedBy(r, WeekOf)
    {
      SortBy(games, WeekOf)
    }
  }

  /** A batch with distinct ids, none of them stored, is stored whole and in order. */
  lemma {:induction false} DistinctBatchIsStoredWhole(store: seq<Game>, docs: seq<Game>)
    requires !HasDuplicateId(docs) && forall i :: 0 <= i < |docs| ==> !HasId(store, docs[i].id)
    decreases |docs|
    ensures InsertUnordered(store, docs) == store + docs
  {
    if |docs| == 0 {
      assert store + docs == store;
    } else {
      var d, tail := docs[0], docs[1..];
      DuplicateIdCons(docs);
      forall i | 0 <= i < |tail|
        ensures !HasId(store + [d], tail[i].id)
      {
        assert tail[i] == docs[i + 1];
        assert forall g :: g in store + [d] ==> g in store || g == d;
      }
      DistinctBatchIsStoredWhole(store + [d], tail);
      assert (store + [d]) + tail == store + docs;
    }
  }

  /** The stored rows are exactly the valid ones, each stored as the schema
      keeps it. */
  lemma StoredRowsAreValid(rows: seq<Game>, g: Game)
    requires g in InsertUnordered([], StoredAll(Filter(rows, ValidRow)))
    ensures exists r :: r in rows && ValidRow(r) && g == Stored(r)
  {
    var valid := Filter(rows, ValidRow);
    InsertUnorderedFacts([], StoredAll(valid));
    var k :| 0 <= k < |valid| && StoredAll(valid)[k] == g;
    FilterMembers(rows, ValidRow, valid[k]);
  }
}
