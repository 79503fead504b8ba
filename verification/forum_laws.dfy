/**
 * What forum ingestion guarantees: excepted messages have no effect
 * whatever they say, a message is committed all-or-nothing, committing
 * touches only the players it names and keeps their history, and the
 * ledger built from the forum holds only classified, non-dead states
 * filed under their players' ids.
 */
module ForumLaws {
  import opened Wrappers
  import opened Health
  import opened Model
  import opened Forum

  /** An excepted message leaves everything as it was. */
  lemma ExceptedBlockInert(st: ForumRead, excepts: seq<MessageExcept>, thread: nat, page: nat, position: nat, b: Block)
    requires MessageExcept(thread, page, position) in excepts
    ensures StepBlock(st, excepts, thread, page, position, b) == st
  {
  }

  /**
   * A message that fails validation adds nothing to the ledger, does not move
   * the last recorded date and is reported by its locator; one that passes
   * writes all of its lines and moves the date to the latest of the two.
   */
  lemma BlockAllOrNothing(st: ForumRead, excepts: seq<MessageExcept>, thread: nat, page: nat, position: nat, b: Block)
    requires MessageExcept(thread, page, position) !in excepts
    ensures var r := StepBlock(st, excepts, thread, page, position, b);
      if CheckBlock(st.players, b).Some? then
        r.players == st.players && r.lastDate == st.lastDate && r.rejected == st.rejected + [Locator(thread, page, position)]
      else
        && b.time.Some? && AllCommittable(b.lines)
        && r.players == CommitLines(st.players, b.time.value, b.lines)
        && r.lastDate == Max(st.lastDate, b.time.value)
        && r.rejected == st.rejected
  {
    if CheckBlock(st.players, b).None? {
      PassedLinesCommittable(st.players, b.time.value, b.lines);
    }
  }

  /** Only `blocks[i..]` matters to the rest of a page. */
  lemma {:induction false} BlocksSuffix(st: ForumRead, excepts: seq<MessageExcept>, thread: nat, page: nat,
                                        blocks: seq<Block>, others: seq<Block>, i: nat)
    requires i <= |blocks| == |others|
    requires forall k :: i <= k < |blocks| ==> blocks[k] == others[k]
    ensures Blocks(st, excepts, thread, page, blocks, i) == Blocks(st, excepts, thread, page, others, i)
    decreases |blocks| - i
  {
    if i < |blocks| {
      BlocksSuffix(StepBlock(st, excepts, thread, page, i, blocks[i]), excepts, thread, page, blocks, others, i + 1);
    }
  }

  /** Replacing an excepted message of a page by any other text changes nothing. */
  lemma {:induction false} ExceptedBlockIgnored(st: ForumRead, excepts: seq<MessageExcept>, thread: nat, page: nat,
                                                blocks: seq<Block>, i: nat, j: nat, other: Block)
    requires i <= j < |blocks|
    requires MessageExcept(thread, page, j) in excepts
    ensures Blocks(st, excepts, thread, page, blocks[j := other], i) == Blocks(st, excepts, thread, page, blocks, i)
    decreases |blocks| - i
  {
    var changed := blocks[j := other];
    if i == j {
      assert StepBlock(st, excepts, thread, page, i, changed[i]) == st;
      assert StepBlock(st, excepts, thread, page, i, blocks[i]) == st;
      BlocksSuffix(st, excepts, thread, page, changed, blocks, i + 1);
    } else {
      assert changed[i] == blocks[i];
      ExceptedBlockIgnored(StepBlock(st, excepts, thread, page, i, blocks[i]), excepts, thread, page, blocks, i + 1, j, other);
    }
  }

  /**
   * Over the whole forum: whatever the text of message `j` of page `k`, when
   * that message is excepted the ledger, the last recorded date and the
   * rejected list are the same.
   */
  lemma {:induction false} ExceptedMessageIgnored(st: ForumRead, excepts: seq<MessageExcept>, sources: seq<ForumSource>,
                                                  k: nat, j: nat, other: Block)
    requires k < |sources| && j < |sources[k].blocks|
    requires MessageExcept(sources[k].thread, sources[k].page, j) in excepts
    ensures var changed := sources[k := sources[k].(blocks := sources[k].blocks[j := other])];
      Sources(st, excepts, changed) == Sources(st, excepts, sources)
    decreases |sources|
  {
    var changed := sources[k := sources[k].(blocks := sources[k].blocks[j := other])];
    if k == 0 {
      ExceptedBlockIgnored(st, excepts, sources[0].thread, sources[0].page, sources[0].blocks, 0, j, other);
      assert changed[1..] == sources[1..];
    } else {
      var next := Blocks(st, excepts, sources[0].thread, sources[0].page, sources[0].blocks, 0);
      assert changed[0] == sources[0];
      assert changed[1..] == sources[1..][k - 1 := sources[k].(blocks := sources[k].blocks[j := other])];
      ExceptedMessageIgnored(next, excepts, sources[1..], k - 1, j, other);
    }
  }

  /** The players a message names. */
  predicate Names(lines: seq<LineText>, id: MuxxuId) {
    exists k :: 0 <= k < |lines| && lines[k].Parsed? && lines[k].line.muxxuId == id
  }

  /** Committing a message leaves every player it does not name exactly as it was. */
  lemma {:induction false} CommitFrame(players: Players, t: Timestamp, lines: seq<LineText>, id: MuxxuId)
    requires AllCommittable(lines)
    requires !Names(lines, id)
    ensures id in CommitLines(players, t, lines) <==> id in players
    ensures id in players ==> CommitLines(players, t, lines)[id] == players[id]
    decreases |lines|
  {
    if lines != [] {
      assert lines[0].line.muxxuId != id by { assert lines[0].Parsed?; }
      assert !Names(lines[1..], id) by {
        forall k | 0 <= k < |lines| - 1 && lines[1..][k].Parsed? ensures lines[1..][k].line.muxxuId != id {
          assert lines[1..][k] == lines[k + 1];
        }
      }
      CommitFrame(CommitLine(players, t, lines[0]), t, lines[1..], id);
    }
  }

  /**
   * The ledger holds what line `l` of a message at `t` writes: the line's age
   * and health at `t` (the birth state when its birth date is `t` itself),
   * and the birth state at the birth date it carries.
   */
  predicate Wrote(r: Players, t: Timestamp, l: Line) {
    && ReportedHealth(l).Ok?
    && l.muxxuId in r
    && t in r[l.muxxuId].states
    && r[l.muxxuId].states[t] ==
         (if l.born == BornOn(t) then BirthState else PlayerState(l.year, l.month, Some(ReportedHealth(l).value)))
    && (l.born.BornOn? ==> l.born.time in r[l.muxxuId].states && r[l.muxxuId].states[l.born.time] == BirthState)
  }

  /** Writing one line leaves the ledger holding what the line writes. */
  lemma CommitLineWrites(players: Players, t: Timestamp, lt: LineText)
    requires Committable(lt)
    ensures Wrote(CommitLine(players, t, lt), t, lt.line)
  {
  }

  /**
   * Writing one line adds only the line's player and, to that player, only
   * the message time and the line's birth date; a known player keeps its
   * identity, a new one takes it from the line.
   */
  lemma CommitLineEffect(players: Players, t: Timestamp, lt: LineText)
    requires Committable(lt)
    ensures var l := lt.line;
      var r := CommitLine(players, t, lt);
      && r.Keys == players.Keys + {l.muxxuId}
      && r[l.muxxuId].states.Keys ==
           (if l.muxxuId in players then players[l.muxxuId].states.Keys else {}) + {t} + (if l.born.BornOn? then {l.born.time} else {})
      && (l.muxxuId in players ==> r[l.muxxuId] == players[l.muxxuId].(states := r[l.muxxuId].states))
      && (l.muxxuId !in players ==> r[l.muxxuId] == Player(l.muxxuId, l.twinoId, l.name, r[l.muxxuId].states))
  {
  }

  /** A birth date carried by a line of the message that names `id`. */
  predicate BornIn(lines: seq<LineText>, id: MuxxuId, u: Timestamp) {
    exists k :: 0 <= k < |lines| && lines[k].Parsed? && lines[k].line.muxxuId == id && lines[k].line.born == BornOn(u)
  }

  /** A line of the tail naming `id`, or carrying its birth date `u`, is a line of the message. */
  lemma TailWitnesses(lines: seq<LineText>, id: MuxxuId, u: Timestamp)
    requires lines != []
    ensures Names(lines[1..], id) ==> Names(lines, id)
    ensures BornIn(lines[1..], id, u) ==> BornIn(lines, id, u)
  {
    var rest := lines[1..];
    if Names(rest, id) {
      var k :| 0 <= k < |rest| && rest[k].Parsed? && rest[k].line.muxxuId == id;
      assert lines[k + 1] == rest[k];
    }
    if BornIn(rest, id, u) {
      var k :| 0 <= k < |rest| && rest[k].Parsed? && rest[k].line.muxxuId == id && rest[k].line.born == BornOn(u);
      assert lines[k + 1] == rest[k];
    }
  }

  /**
   * Committing a message adds no player it does not name, and gives a player
   * no instant other than those it had, the message time and the birth
   * dates carried by the lines that name it.
   */
  lemma {:induction false} CommitLinesAdds(players: Players, t: Timestamp, lines: seq<LineText>, id: MuxxuId, u: Timestamp)
    requires AllCommittable(lines)
    ensures id in CommitLines(players, t, lines) ==> id in players || Names(lines, id)
    ensures var r := CommitLines(players, t, lines);
      id in r && u in r[id].states ==> (id in players && u in players[id].states) || u == t || BornIn(lines, id, u)
    decreases |lines|
  {
    if lines != [] {
      var l := lines[0].line;
      var next := CommitLine(players, t, lines[0]);
      var rest := lines[1..];
      CommitLineEffect(players, t, lines[0]);
      CommitLinesAdds(next, t, rest, id, u);
      assert CommitLines(players, t, lines) == CommitLines(next, t, rest);
      TailWitnesses(lines, id, u);
      if id == l.muxxuId {
        assert lines[0].Parsed?;
      }
    }
  }

  /**
   * Apart from a newborn label, an accepted line never lowers a player's
   * health: it reports the health recorded at the player's latest instant
   * or the rank after it.
   */
  lemma LineNeverLowers(players: Players, t: Timestamp, l: Line)
    requires CheckLine(players, t, Parsed(l)).None?
    requires ReportedHealth(l).Ok? && ReportedHealth(l).value != 1
    ensures Previous(players, l.muxxuId).Some? && Previous(players, l.muxxuId).value.health.Some?
    ensures var ph := Previous(players, l.muxxuId).value.health.value;
      ph <= ReportedHealth(l).value <= ph + 1
  {
    LineAcceptance(players, t, l);
  }

  /**
   * A newborn label is accepted for a player already on the ledger whatever
   * its health: a player last recorded in bad health restarts at 1.
   */
  lemma BornLabelRestarts()
    ensures var players := map[7 := Player(7, 1, "a", map[100 := PlayerState(30, 0, Some(BAD))])];
      var l := Line(1, "a", 7, 20, 0, BornPrefix + "01-01-2001 00:00:00", None, BornOn(200));
      && CheckLine(players, 300, Parsed(l)).None?
      && Committable(Parsed(l))
      && 300 in CommitLine(players, 300, Parsed(l))[7].states
      && CommitLine(players, 300, Parsed(l))[7].states[300].health == Some(1)
  {
    LabelOfBorn("01-01-2001 00:00:00");
  }

  /**
   * A message older than the player's latest instant is accepted and
   * written before that instant: nothing requires forum instants to grow.
   */
  lemma EarlierMessageAccepted()
    ensures var players := map[7 := Player(7, 1, "a", map[500 := PlayerState(21, 0, Some(2))])];
      var l := Line(1, "a", 7, 21, 1, Sante[2], None, NoBornNote);
      && Latest(players[7]) == Some(500)
      && CheckLine(players, 300, Parsed(l)).None?
      && Committable(Parsed(l))
      && 300 in CommitLine(players, 300, Parsed(l))[7].states
  {
    var players := map[7 := Player(7, 1, "a", map[500 := PlayerState(21, 0, Some(2))])];
    var l := Line(1, "a", 7, 21, 1, Sante[2], None, NoBornNote);
    LabelOfSante(2);
    assert players[7].states.Keys == {500};
    assert Latest(players[7]) == Some(500);
    assert ReportedHealth(l) == Ok(3);
    assert Previous(players, 7) == Some(PlayerState(21, 0, Some(2)));
    assert CheckTransition(players, l, 3).None?;
  }

  /** When no later line names the first line's player, the commit keeps what the first line wrote. */
  lemma CommitFirstLine(players: Players, t: Timestamp, lines: seq<LineText>)
    requires AllCommittable(lines) && lines != []
    requires forall j :: 0 < j < |lines| ==> lines[j].line.muxxuId != lines[0].line.muxxuId
    ensures Wrote(CommitLines(players, t, lines), t, lines[0].line)
  {
    var id := lines[0].line.muxxuId;
    var rest := lines[1..];
    var next := CommitLine(players, t, lines[0]);
    assert CommitLines(players, t, lines) == CommitLines(next, t, rest);
    assert !Names(rest, id) by {
      forall j | 0 <= j < |rest| && rest[j].Parsed? ensures rest[j].line.muxxuId != id {
        assert rest[j] == lines[j + 1];
      }
    }
    CommitLineWrites(players, t, lines[0]);
    CommitFrame(next, t, rest, id);
  }

  /** Committing a message is committing its first line, then the rest. */
  lemma CommitLinesStep(players: Players, t: Timestamp, lines: seq<LineText>)
    requires AllCommittable(lines) && lines != []
    ensures AllCommittable(lines[1..])
    ensures CommitLines(players, t, lines) == CommitLines(CommitLine(players, t, lines[0]), t, lines[1..])
  {
    forall j | 0 <= j < |lines| - 1 ensures Committable(lines[1..][j]) {
      assert lines[1..][j] == lines[j + 1];
    }
  }

  /**
   * After a commit, the ledger holds what the last line naming a player
   * writes for that player.
   */
  lemma {:induction false} CommitLastLine(players: Players, t: Timestamp, lines: seq<LineText>, k: nat)
    requires AllCommittable(lines) && k < |lines|
    requires forall j :: k < j < |lines| ==> lines[j].line.muxxuId != lines[k].line.muxxuId
    ensures Wrote(CommitLines(players, t, lines), t, lines[k].line)
    decreases |lines|
  {
    if k == 0 {
      CommitFirstLine(players, t, lines);
    } else {
      var rest := lines[1..];
      var next := CommitLine(players, t, lines[0]);
      CommitLinesStep(players, t, lines);
      assert rest[k - 1] == lines[k];
      forall j | k - 1 < j < |rest| ensures rest[j].line.muxxuId != rest[k - 1].line.muxxuId {
        assert rest[j] == lines[j + 1];
      }
      CommitLastLine(next, t, rest, k - 1);
      assert rest[k - 1].line == lines[k].line;
    }
  }

  /**
   * Committing never removes a player or a recorded instant, and leaves every
   * state alone except those at the message time and at the birth dates the
   * message carries.
   */
  lemma {:induction false} CommitKeepsHistory(players: Players, t: Timestamp, lines: seq<LineText>, id: MuxxuId, u: Timestamp)
    requires AllCommittable(lines)
    requires id in players && u in players[id].states
    ensures var r := CommitLines(players, t, lines);
      id in r && u in r[id].states
    ensures var r := CommitLines(players, t, lines);
      u != t && (forall k :: 0 <= k < |lines| ==> lines[k].line.born != BornOn(u)) ==>
        r[id].states[u] == players[id].states[u]
    decreases |lines|
  {
    if lines != [] {
      var rest := lines[1..];
      assert forall j :: 0 <= j < |rest| ==> rest[j] == lines[j + 1];
      CommitKeepsHistory(CommitLine(players, t, lines[0]), t, rest, id, u);
    }
  }

  /**
   * The ledger built from the forum: every player is filed under its own id,
   * has at least one state, and every state has a known health short of dead.
   */
  ghost predicate ForumLedger(players: Players) {
    && KeyedById(players)
    && forall id :: id in players ==>
         && players[id].states != map[]
         && forall u :: u in players[id].states ==>
              players[id].states[u].health.Some? && players[id].states[u].health.value != DEAD
  }

  lemma CommitLinePreserves(players: Players, t: Timestamp, lt: LineText)
    requires Committable(lt) && ForumLedger(players)
    ensures ForumLedger(CommitLine(players, t, lt))
  {
    var l := lt.line;
    var p := LinePlayer(players, l);
    var r := CommitLine(players, t, lt);
    var h := ReportedHealth(l).value;
    assert h != DEAD;
    forall u | u in r[l.muxxuId].states
      ensures r[l.muxxuId].states[u].health.Some? && r[l.muxxuId].states[u].health.value != DEAD
    {
      if u != t && !(l.born.BornOn? && u == l.born.time) {
        assert u in p.states && r[l.muxxuId].states[u] == p.states[u];
      }
    }
    assert t in r[l.muxxuId].states;
  }

  lemma {:induction false} CommitLinesPreserve(players: Players, t: Timestamp, lines: seq<LineText>)
    requires AllCommittable(lines) && ForumLedger(players)
    ensures ForumLedger(CommitLines(players, t, lines))
    decreases |lines|
  {
    if lines != [] {
      CommitLinePreserves(players, t, lines[0]);
      CommitLinesPreserve(CommitLine(players, t, lines[0]), t, lines[1..]);
    }
  }

  lemma {:induction false} BlocksPreserve(st: ForumRead, excepts: seq<MessageExcept>, thread: nat, page: nat, blocks: seq<Block>, i: nat)
    requires i <= |blocks| && ForumLedger(st.players)
    ensures var r := Blocks(st, excepts, thread, page, blocks, i);
      ForumLedger(r.players) && r.lastDate >= st.lastDate
    decreases |blocks| - i
  {
    if i < |blocks| {
      var b := blocks[i];
      if !IsExcepted(excepts, thread, page, i) && CheckBlock(st.players, b).None? {
        PassedLinesCommittable(st.players, b.time.value, b.lines);
        CommitLinesPreserve(st.players, b.time.value, b.lines);
      }
      BlocksPreserve(StepBlock(st, excepts, thread, page, i, b), excepts, thread, page, blocks, i + 1);
    }
  }

  lemma {:induction false} SourcesPreserve(st: ForumRead, excepts: seq<MessageExcept>, sources: seq<ForumSource>)
    requires ForumLedger(st.players)
    ensures ForumLedger(Sources(st, excepts, sources).players)
    ensures Sources(st, excepts, sources).lastDate >= st.lastDate
    decreases |sources|
  {
    if sources != [] {
      BlocksPreserve(st, excepts, sources[0].thread, sources[0].page, sources[0].blocks, 0);
      SourcesPreserve(Blocks(st, excepts, sources[0].thread, sources[0].page, sources[0].blocks, 0), excepts, sources[1..]);
    }
  }

  /**
   * Reading the forum yields a well-formed ledger with no dead state and no
   * unclassified state, and a last recorded date no earlier than 2000-01-01.
   */
  lemma ReadForumLedger(sources: seq<ForumSource>, excepts: seq<MessageExcept>)
    ensures ForumLedger(ReadForum(sources, excepts).players)
    ensures ReadForum(sources, excepts).lastDate >= InitialLastDate
  {
    SourcesPreserve(ForumRead(map[], InitialLastDate, []), excepts, sources);
  }
}
