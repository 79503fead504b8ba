/**
 * Ranking snapshots (sante.py `read_ranking_sources`): each row of a
 * group's ranking table gives a known player an age-only state at the
 * capture instant `now`, which must be later than everything already
 * recorded for that player; unknown ids are skipped.
 */
module Rankings {
  import opened Wrappers
  import opened Health
  import opened Model

  /** A ranking row: the player's id and its age, "<years> ans" with optional "et <months> mois". */
  datatype RankingRow = RankingRow(muxxuId: MuxxuId, years: nat, months: Option<nat>)

  /** The age-only state a row records. */
  function Snapshot(row: RankingRow): PlayerState {
    PlayerState(row.years, row.months.GetOr(0), None)
  }

  /**
   * One row at capture instant `now`. An unknown id changes nothing; a known
   * player with no history, or with a state at or after `now`, is fatal;
   * otherwise exactly the snapshot at `now` is added.
   */
  function ApplyRow(players: Players, now: Timestamp, row: RankingRow): (r: Result<Players, Fatal>)
    ensures row.muxxuId !in players ==> r == Ok(players)
    ensures r.Err? <==> (row.muxxuId in players &&
      (players[row.muxxuId].states == map[] || exists u :: u in players[row.muxxuId].states && u >= now))
    ensures r.Ok? && row.muxxuId in players ==>
      && r.value.Keys == players.Keys
      && (forall id :: id in players && id != row.muxxuId ==> r.value[id] == players[id])
      && r.value[row.muxxuId] == players[row.muxxuId].(states := players[row.muxxuId].states[now := Snapshot(row)])
      && now !in players[row.muxxuId].states
  {
    var id := row.muxxuId;
    if id !in players then Ok(players)
    else match Latest(players[id])
      case None => Err(EmptyHistory(id))
      case Some(u) =>
        if u < now then
          Ok(players[id := players[id].(states := players[id].states[now := Snapshot(row)])])
        else Err(FutureData(id))
  }

  /** A second row for the same known player at the same capture instant is fatal. */
  lemma SecondRowFatal(players: Players, now: Timestamp, first: RankingRow, second: RankingRow)
    requires first.muxxuId in players && ApplyRow(players, now, first).Ok?
    requires second.muxxuId == first.muxxuId
    ensures ApplyRow(ApplyRow(players, now, first).value, now, second).Err?
  {
    var next := ApplyRow(players, now, first).value;
    assert now in next[first.muxxuId].states;
  }

  /** The rows in order, stopping at the first fatal one. */
  function ApplyRows(players: Players, now: Timestamp, rows: seq<RankingRow>): Outcome
    decreases |rows|
  {
    if rows == [] then Outcome(players, None)
    else match ApplyRow(players, now, rows[0])
      case Err(e) => Outcome(players, Some(e))
      case Ok(next) => ApplyRows(next, now, rows[1..])
  }

  /** The rows of every ranking page, page after page. */
  function PageRows(pages: seq<seq<RankingRow>>): seq<RankingRow>
    decreases |pages|
  {
    if pages == [] then [] else pages[0] + PageRows(pages[1..])
  }

  /** Rows that do not name a player leave that player as it was. */
  lemma {:induction false} RowsFrame(players: Players, now: Timestamp, rows: seq<RankingRow>, id: MuxxuId)
    requires forall k :: 0 <= k < |rows| ==> rows[k].muxxuId != id
    ensures var r := ApplyRows(players, now, rows).players;
      (id in r <==> id in players) && (id in players ==> r[id] == players[id])
    decreases |rows|
  {
    if rows != [] {
      match ApplyRow(players, now, rows[0])
      case Err(_) =>
      case Ok(next) =>
        assert forall k :: 0 <= k < |rows| - 1 ==> rows[1..][k] == rows[k + 1];
        RowsFrame(next, now, rows[1..], id);
    }
  }

  /** Two rows for the same known player in one run make the run fatal. */
  lemma {:induction false} DuplicateRowsFatal(players: Players, now: Timestamp, rows: seq<RankingRow>, i: nat, j: nat)
    requires i < j < |rows| && rows[i].muxxuId == rows[j].muxxuId && rows[i].muxxuId in players
    ensures ApplyRows(players, now, rows).fatal.Some?
    decreases |rows|
  {
    match ApplyRow(players, now, rows[0])
    case Err(_) =>
    case Ok(next) =>
      var rest := rows[1..];
      if i == 0 {
        var id := rows[0].muxxuId;
        // The earliest later row for the same player meets the snapshot just added.
        var k :| 0 <= k < |rest| && rest[k].muxxuId == id && forall m :: 0 <= m < k ==> rest[m].muxxuId != id by {
          assert rest[j - 1].muxxuId == id;
          FirstIndex(rest, id, j - 1);
        }
        RowsFrame(next, now, rest[..k], id);
        ApplyRowsSplit(next, now, rest, k);
        var mid := ApplyRows(next, now, rest[..k]);
        if mid.fatal.None? {
          assert rest[k..][0] == rest[k];
          SecondRowFatal(players, now, rows[0], rest[k]);
        }
      } else {
        DuplicateRowsFatal(next, now, rest, i - 1, j - 1);
      }
  }

  /** Some row of `rows` names `id` first. */
  lemma {:induction false} FirstIndex(rows: seq<RankingRow>, id: MuxxuId, j: nat)
    requires j < |rows| && rows[j].muxxuId == id
    ensures exists k :: 0 <= k < |rows| && rows[k].muxxuId == id && forall m :: 0 <= m < k ==> rows[m].muxxuId != id
    decreases j
  {
    if exists m :: 0 <= m < j && rows[m].muxxuId == id {
      var m :| 0 <= m < j && rows[m].muxxuId == id;
      FirstIndex(rows, id, m);
    }
  }

  /** Running `rows` is running `rows[..k]` and then, if that did not fail, `rows[k..]`. */
  lemma {:induction false} ApplyRowsSplit(players: Players, now: Timestamp, rows: seq<RankingRow>, k: nat)
    requires k <= |rows|
    ensures var mid := ApplyRows(players, now, rows[..k]);
      ApplyRows(players, now, rows) == if mid.fatal.Some? then mid else ApplyRows(mid.players, now, rows[k..])
    decreases k
  {
    if k > 0 {
      assert rows[..k][0] == rows[0];
      assert rows[..k][1..] == rows[1..][..k - 1];
      assert rows[1..][k - 1..] == rows[k..];
      match ApplyRow(players, now, rows[0])
      case Err(_) =>
      case Ok(next) =>
        ApplyRowsSplit(next, now, rows[1..], k - 1);
    } else {
      assert rows[..0] == [] && rows[0..] == rows;
    }
  }

  /** After a run without failure every row of a known player left its snapshot at `now`. */
  lemma {:induction false} RowsRecordSnapshots(players: Players, now: Timestamp, rows: seq<RankingRow>, k: nat)
    requires k < |rows| && rows[k].muxxuId in players
    requires ApplyRows(players, now, rows).fatal.None?
    ensures var r := ApplyRows(players, now, rows).players;
      rows[k].muxxuId in r && now in r[rows[k].muxxuId].states && r[rows[k].muxxuId].states[now] == Snapshot(rows[k])
    decreases |rows|
  {
    var next := ApplyRow(players, now, rows[0]).value;
    var rest := rows[1..];
    if k == 0 {
      forall m | 0 <= m < |rest| ensures rest[m].muxxuId != rows[0].muxxuId {
        if rest[m].muxxuId == rows[0].muxxuId {
          DuplicateRowsFatal(players, now, rows, 0, m + 1);
        }
      }
      RowsFrame(next, now, rest, rows[0].muxxuId);
    } else {
      assert rest[k - 1] == rows[k];
      RowsRecordSnapshots(next, now, rest, k - 1);
    }
  }
}
