/**
 * The ledger after the forum has been read: the stages that update the
 * `players` dictionary in place (sante.py `get_map_histo` and
 * `read_ranking_sources`), each proved to leave exactly the ledger that
 * its specification in `Births` or `Rankings` describes.
 */
module Ingestion {
  import opened Wrappers
  import opened Health
  import opened Model
  import opened Births
  import opened Rankings

  class Ledger {
    var players: Players

    /** The ledger as the forum reading left it. */
    constructor (players: Players)
      ensures this.players == players
    {
      this.players := players;
    }

    /**
     * The birth events of every group's log (each log read from its oldest
     * entry), inserted in place; on a fatal event the ledger keeps the
     * events before it and the failure is returned.
     */
    method AddBirthEvents(logs: seq<seq<LogEntry>>, lookup: MuxxuId -> Profile) returns (fatal: Option<Fatal>)
      modifies this
      ensures Outcome(players, fatal) == ApplyBirths(old(players), GroupBirths(logs), lookup)
    {
      ghost var target := ApplyBirths(players, GroupBirths(logs), lookup);
      var g := 0;
      while g < |logs|
        invariant 0 <= g <= |logs|
        invariant ApplyBirths(players, GroupBirths(logs[g..]), lookup) == target
      {
        assert logs[g..][1..] == logs[g + 1..];
        assert GroupBirths(logs[g..]) == LogBirths(logs[g]) + GroupBirths(logs[g + 1..]);
        fatal := AddLogBirths(logs[g], lookup, GroupBirths(logs[g + 1..]));
        if fatal.Some? {
          return;
        }
        g := g + 1;
      }
      return None;
    }

    /**
     * The births of one log, oldest first, inserted in place; `later` stands
     * for the events that follow them in the run.
     */
    method AddLogBirths(log: seq<LogEntry>, lookup: MuxxuId -> Profile, ghost later: seq<BirthEvent>)
      returns (fatal: Option<Fatal>)
      modifies this
      ensures ApplyBirths(old(players), LogBirths(log) + later, lookup) ==
        if fatal.Some? then Outcome(players, fatal) else ApplyBirths(players, later, lookup)
    {
      ghost var target := ApplyBirths(players, LogBirths(log) + later, lookup);
      assert log[..|log|] == log;
      var j := |log|;
      while j > 0
        invariant 0 <= j <= |log|
        invariant ApplyBirths(players, LogBirths(log[..j]) + later, lookup) == target
      {
        var entry := log[j - 1];
        LogBirthsPrefix(log, j);
        j := j - 1;
        if entry.OtherEntry? {
          assert LogBirths(log[..j + 1]) == LogBirths(log[..j]);
          continue;
        }
        var ev := BirthEvent(entry.time, entry.muxxuId);
        ghost var rest := LogBirths(log[..j]) + later;
        assert LogBirths(log[..j + 1]) + later == [ev] + rest;
        ApplyBirthsFirst(players, ev, rest, lookup);
        fatal := AddBirth(ev, lookup);
        if fatal.Some? {
          return;
        }
      }
      assert log[..0] == [];
      assert LogBirths([]) + later == later;
      return None;
    }

    /**
     * One birth event, in place: an unknown id is resolved and filed first;
     * an existing state at the event's instant is kept if it is a birth and
     * fatal otherwise; else the birth state is added.
     */
    method AddBirth(ev: BirthEvent, lookup: MuxxuId -> Profile) returns (fatal: Option<Fatal>)
      modifies this
      ensures ApplyBirth(old(players), ev, lookup).Err? ==>
        fatal == Some(ApplyBirth(old(players), ev, lookup).error) && players == old(players)
      ensures ApplyBirth(old(players), ev, lookup).Ok? ==>
        fatal.None? && players == ApplyBirth(old(players), ev, lookup).value
    {
      var id := ev.muxxuId;
      if id !in players {
        var profile := lookup(id);
        players := players[id := Player(id, profile.twinoId, profile.name, map[])];
      }
      var player := players[id];
      if ev.time in player.states {
        if player.states[ev.time].health != Some(BORN) {
          return Some(SimultaneousStates(id, ev.time));
        }
        return None;
      }
      players := players[id := player.(states := player.states[ev.time := BirthState])];
      assert players == old(players)[id := player.(states := player.states[ev.time := BirthState])];
      return None;
    }

    /**
     * Every row of every ranking page at capture instant `now`, inserted in
     * place; on a fatal row the ledger keeps the rows before it and the
     * failure is returned.
     */
    method AddRankings(pages: seq<seq<RankingRow>>, now: Timestamp) returns (fatal: Option<Fatal>)
      modifies this
      ensures Outcome(players, fatal) == ApplyRows(old(players), now, PageRows(pages))
    {
      ghost var target := ApplyRows(players, now, PageRows(pages));
      var g := 0;
      while g < |pages|
        invariant 0 <= g <= |pages|
        invariant ApplyRows(players, now, PageRows(pages[g..])) == target
      {
        assert pages[g..][1..] == pages[g + 1..];
        var rows := pages[g];
        assert rows[0..] + PageRows(pages[g + 1..]) == PageRows(pages[g..]);
        var i := 0;
        while i < |rows|
          invariant 0 <= i <= |rows|
          invariant ApplyRows(players, now, rows[i..] + PageRows(pages[g + 1..])) == target
        {
          ghost var rest := rows[i + 1..] + PageRows(pages[g + 1..]);
          assert (rows[i..] + PageRows(pages[g + 1..]))[0] == rows[i];
          assert (rows[i..] + PageRows(pages[g + 1..]))[1..] == rest;
          var row := rows[i];
          i := i + 1;
          var id := row.muxxuId;
          if id !in players {
            continue;
          }
          var player := players[id];
          if player.states == map[] {
            return Some(EmptyHistory(id));
          }
          var latest := MaxTime(player.states.Keys);
          if !(latest < now) {
            return Some(FutureData(id));
          }
          players := players[id := player.(states := player.states[now := PlayerState(row.years, row.months.GetOr(0), None)])];
        }
        assert rows[|rows|..] + PageRows(pages[g + 1..]) == PageRows(pages[g + 1..]);
        g := g + 1;
      }
      return None;
    }
  }
}
