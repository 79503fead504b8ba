/**
 * The two reports (sante.py `write_message` and `clean_message`) and the
 * recency check (`checks`). Reports are the lines the generators yield,
 * in order; a generator that would raise yields an error instead, as the
 * caller collects all lines before printing any. Date formatting
 * (`strftime`) is a parameter.
 */
module Reports {
  import opened Wrappers
  import opened Text
  import opened Health
  import opened Model

  const Intro: string := "Liste des joueurs:"
  const FooterPrefix: string := "Programme tourné le: "
  const CleanHeaderPrefix: string := "Etat de santé des différents joueurs le "
  const DiceOpen: string := " + ({d100} <= "

  datatype ReportError =
    | NoClassifiedState(muxxuId: MuxxuId)
    | NoBirthRecorded(muxxuId: MuxxuId)
    | UnclassifiedState(muxxuId: MuxxuId)

  /** The ids of a set in increasing order. */
  function KeysAscending(s: set<MuxxuId>): (r: seq<MuxxuId>)
    ensures |r| == |s|
    ensures forall i :: 0 <= i < |r| ==> r[i] in s
    decreases |s|
  {
    if s == {} then []
    else
      var m := MaxTime(s);
      assert m in s;
      KeysAscending(s - {m}) + [m as MuxxuId]
  }

  /** Every member of the set has its place among the ordered ids. */
  lemma {:induction false} KeyIndex(s: set<MuxxuId>, x: MuxxuId) returns (i: nat)
    requires x in s
    ensures i < |KeysAscending(s)| && KeysAscending(s)[i] == x
    decreases |s|
  {
    var m := MaxTime(s);
    var rest := KeysAscending(s - {m});
    assert KeysAscending(s) == rest + [m];
    if x == m {
      i := |rest|;
    } else {
      i := KeyIndex(s - {m}, x);
    }
  }

  /** The ordered ids hold each member of the set. */
  lemma KeysAscendingCovers(s: set<MuxxuId>)
    ensures forall x :: x in s ==> x in KeysAscending(s)
  {
    forall x | x in s ensures x in KeysAscending(s) {
      var i := KeyIndex(s, x);
    }
  }

  /** The ordered ids are strictly increasing. */
  lemma {:induction false} KeysAscendingIncreasing(s: set<MuxxuId>)
    ensures forall i, j :: 0 <= i < j < |KeysAscending(s)| ==> KeysAscending(s)[i] < KeysAscending(s)[j]
    decreases |s|
  {
    if s != {} {
      var m := MaxTime(s);
      var rest := KeysAscending(s - {m});
      KeysAscendingIncreasing(s - {m});
      assert KeysAscending(s) == rest + [m];
    }
  }

  predicate NameSorted(ps: seq<Player>) {
    forall i :: 0 < i < |ps| ==> LessEq(ps[i - 1].name, ps[i].name)
  }

  /** The tail of a name-sorted list is name-sorted. */
  lemma SortedTail(ps: seq<Player>)
    requires NameSorted(ps) && ps != []
    ensures NameSorted(ps[1..])
  {
    forall i | 0 < i < |ps| - 1 ensures LessEq(ps[1..][i - 1].name, ps[1..][i].name) {
      assert ps[1..][i - 1] == ps[i] && ps[1..][i] == ps[i + 1];
    }
  }

  /** Every name in `ps` is at or after `name`. */
  predicate NamesFrom(name: string, ps: seq<Player>) {
    forall k :: 0 <= k < |ps| ==> LessEq(name, ps[k].name)
  }

  /** In a name-sorted list the first name is the least. */
  lemma {:induction false} SortedHeadLeast(ps: seq<Player>)
    requires NameSorted(ps) && ps != []
    ensures NamesFrom(ps[0].name, ps)
    decreases |ps|
  {
    LessEqRefl(ps[0].name);
    if |ps| > 1 {
      var rest := ps[1..];
      SortedTail(ps);
      SortedHeadLeast(rest);
      forall k | 1 <= k < |ps| ensures LessEq(ps[0].name, ps[k].name) {
        assert ps[k] == rest[k - 1];
        LessEqTrans(ps[0].name, ps[1].name, ps[k].name);
      }
    }
  }

  /** Inserts `p` into a name-sorted list, before the first player whose name is not below its own. */
  function InsertByName(p: Player, sorted: seq<Player>): (r: seq<Player>)
    requires NameSorted(sorted)
    ensures NameSorted(r)
    ensures multiset(r) == multiset(sorted) + multiset{p}
    ensures r != [] && (r[0] == p || (sorted != [] && r[0] == sorted[0]))
    decreases |sorted|
  {
    if sorted == [] || LessEq(p.name, sorted[0].name) then [p] + sorted
    else
      LessEqTotal(p.name, sorted[0].name);
      SortedTail(sorted);
      var tail := InsertByName(p, sorted[1..]);
      assert sorted == [sorted[0]] + sorted[1..];
      assert LessEq(sorted[0].name, tail[0].name);
      [sorted[0]] + tail
  }

  /** `sorted(..., key=name)`: the players ordered by name. */
  function SortByName(ps: seq<Player>): (r: seq<Player>)
    ensures NameSorted(r)
    ensures multiset(r) == multiset(ps)
    decreases |ps|
  {
    if ps == [] then []
    else
      assert ps == [ps[0]] + ps[1..];
      InsertByName(ps[0], SortByName(ps[1..]))
  }

  /** The ledger's players in increasing id order. */
  function LedgerOrder(players: Players): (r: seq<Player>)
    ensures |r| == |players|
  {
    var ids := KeysAscending(players.Keys);
    seq(|ids|, i requires 0 <= i < |ids| => players[ids[i]])
  }

  /** Every player of the ledger, ordered by name (equal names by id). */
  function Roster(players: Players): seq<Player> {
    SortByName(LedgerOrder(players))
  }

  /** The roster is sorted by name and has one entry per player of the ledger. */
  lemma RosterSpec(players: Players)
    ensures NameSorted(Roster(players))
    ensures |Roster(players)| == |players|
  {
    var r := Roster(players);
    assert |r| == |multiset(r)| == |multiset(LedgerOrder(players))| == |players|;
  }

  /** Each player of the ledger appears in the roster. */
  lemma RosterCovers(players: Players)
    ensures forall id :: id in players ==> players[id] in Roster(players)
  {
    var values := LedgerOrder(players);
    forall id | id in players ensures players[id] in Roster(players) {
      var i := KeyIndex(players.Keys, id);
      assert values[i] == players[id];
      assert players[id] in multiset(Roster(players));
    }
  }

  /** Each roster entry is a player of the ledger. */
  lemma RosterFromLedger(players: Players)
    ensures forall p :: p in Roster(players) ==> exists id :: id in players && players[id] == p
  {
    var ids := KeysAscending(players.Keys);
    var values := LedgerOrder(players);
    forall p | p in Roster(players) ensures exists id :: id in players && players[id] == p {
      assert p in multiset(values);
      var i :| 0 <= i < |values| && values[i] == p;
      assert ids[i] in players && players[ids[i]] == p;
    }
  }

  /** The players with a state at `t`, in roster order. */
  function Present(roster: seq<Player>, t: Timestamp): (r: seq<Player>)
    ensures |r| <= |roster|
    ensures forall k :: 0 <= k < |r| ==> t in r[k].states
    decreases |roster|
  {
    if roster == [] then []
    else if t in roster[0].states then [roster[0]] + Present(roster[1..], t)
    else Present(roster[1..], t)
  }

  /** The players kept are exactly the roster's players with a state at `t`. */
  lemma {:induction false} PresentMembers(roster: seq<Player>, t: Timestamp)
    ensures forall p :: p in Present(roster, t) <==> p in roster && t in p.states
    decreases |roster|
  {
    if roster != [] {
      PresentMembers(roster[1..], t);
      assert roster == [roster[0]] + roster[1..];
    }
  }

  /** Putting a player whose name is at or before the first name in front keeps a list name-sorted. */
  lemma ConsSorted(x: Player, ps: seq<Player>)
    requires NameSorted(ps)
    requires ps != [] ==> LessEq(x.name, ps[0].name)
    ensures NameSorted([x] + ps)
  {
    var r := [x] + ps;
    forall i | 1 < i < |r| ensures LessEq(r[i - 1].name, r[i].name) {
      assert r[i - 1] == ps[i - 2] && r[i] == ps[i - 1];
    }
  }

  /** The players present at `t` are taken from the roster, none more often than there. */
  lemma {:induction false} PresentSubset(roster: seq<Player>, t: Timestamp)
    ensures multiset(Present(roster, t)) <= multiset(roster)
    decreases |roster|
  {
    if roster != [] {
      PresentSubset(roster[1..], t);
      assert roster == [roster[0]] + roster[1..];
    }
  }

  /** Keeping the players present at `t` keeps the name order and takes nothing from outside the roster. */
  lemma {:induction false} PresentSorted(roster: seq<Player>, t: Timestamp)
    requires NameSorted(roster)
    ensures NameSorted(Present(roster, t))
    ensures multiset(Present(roster, t)) <= multiset(roster)
    decreases |roster|
  {
    PresentSubset(roster, t);
    if roster != [] {
      var rest := roster[1..];
      SortedTail(roster);
      PresentSorted(rest, t);
      if t in roster[0].states {
        var tail := Present(rest, t);
        assert Present(roster, t) == [roster[0]] + tail;
        if tail != [] {
          PresentMembers(rest, t);
          assert tail[0] in rest;
          var j :| 0 <= j < |rest| && rest[j] == tail[0];
          SortedHeadLeast(roster);
          assert roster[j + 1] == tail[0];
        }
        ConsSorted(roster[0], tail);
      }
    }
  }

  /** One rendered line per player present at `t`, in order; the first failure aborts. */
  function PresentLines(roster: seq<Player>, t: Timestamp, render: (Player, PlayerState) -> Result<string, ReportError>)
    : Result<seq<string>, ReportError>
    decreases |roster|
  {
    if roster == [] then Ok([])
    else
      var rest := PresentLines(roster[1..], t, render);
      if t !in roster[0].states then rest
      else match render(roster[0], roster[0].states[t])
        case Err(e) => Err(e)
        case Ok(line) => if rest.Err? then rest else Ok([line] + rest.value)
  }

  /** Every player of `present` renders without failure at `t`. */
  predicate AllRendered(present: seq<Player>, t: Timestamp, render: (Player, PlayerState) -> Result<string, ReportError>)
    requires forall k :: 0 <= k < |present| ==> t in present[k].states
  {
    forall k :: 0 <= k < |present| ==> render(present[k], present[k].states[t]).Ok?
  }

  /** `lines` are the rendered lines of `present` at `t`, one each, in order. */
  predicate RenderedAs(lines: seq<string>, present: seq<Player>, t: Timestamp, render: (Player, PlayerState) -> Result<string, ReportError>)
    requires forall k :: 0 <= k < |present| ==> t in present[k].states
  {
    && |lines| == |present|
    && forall k :: 0 <= k < |present| ==> render(present[k], present[k].states[t]) == Ok(lines[k])
  }

  /**
   * The rendered lines are exactly one per present player, in roster order,
   * and rendering fails exactly when some present player's line fails.
   */
  lemma {:induction false} PresentLinesSpec(roster: seq<Player>, t: Timestamp, render: (Player, PlayerState) -> Result<string, ReportError>)
    ensures PresentLines(roster, t, render).Ok? <==> AllRendered(Present(roster, t), t, render)
    ensures PresentLines(roster, t, render).Ok? ==> RenderedAs(PresentLines(roster, t, render).value, Present(roster, t), t, render)
    decreases |roster|
  {
    if roster != [] {
      var rest := PresentLines(roster[1..], t, render);
      var tail := Present(roster[1..], t);
      PresentLinesSpec(roster[1..], t, render);
      var present := Present(roster, t);
      if t in roster[0].states {
        var p := roster[0];
        var first := render(p, p.states[t]);
        assert present == [p] + tail;
        if first.Err? {
          assert PresentLines(roster, t, render) == Err(first.error);
          assert !render(present[0], present[0].states[t]).Ok?;
        } else if rest.Err? {
          assert PresentLines(roster, t, render) == rest;
          var k :| 0 <= k < |tail| && !render(tail[k], tail[k].states[t]).Ok?;
          assert present[k + 1] == tail[k];
        } else {
          var lines := [first.value] + rest.value;
          assert PresentLines(roster, t, render) == Ok(lines);
          forall k | 1 <= k < |present| ensures render(present[k], present[k].states[t]) == Ok(lines[k]) {
            assert present[k] == tail[k - 1] && lines[k] == rest.value[k - 1];
          }
        }
      } else {
        assert present == tail;
        assert PresentLines(roster, t, render) == rest;
      }
    }
  }

  /** Lines already produced, in front of what the remaining players produce. */
  function Prepend(done: seq<string>, r: Result<seq<string>, ReportError>): Result<seq<string>, ReportError> {
    if r.Err? then r else Ok(done + r.value)
  }

  /**
   * The generator loop over the roster: each player present at `t` yields
   * its rendered line; the first failing line aborts the report.
   */
  method RenderPresent(roster: seq<Player>, t: Timestamp, render: (Player, PlayerState) -> Result<string, ReportError>)
    returns (r: Result<seq<string>, ReportError>)
    ensures r == PresentLines(roster, t, render)
  {
    var lines: seq<string> := [];
    var i := 0;
    assert roster[0..] == roster;
    var whole := PresentLines(roster, t, render);
    if whole.Ok? {
      assert [] + whole.value == whole.value;
    }
    while i < |roster|
      invariant 0 <= i <= |roster|
      invariant PresentLines(roster, t, render) == Prepend(lines, PresentLines(roster[i..], t, render))
    {
      assert roster[i..][1..] == roster[i + 1..];
      var p := roster[i];
      i := i + 1;
      if t in p.states {
        var line := render(p, p.states[t]);
        if line.Err? {
          return Err(line.error);
        }
        var rest := PresentLines(roster[i..], t, render);
        if rest.Ok? {
          assert lines + ([line.value] + rest.value) == (lines + [line.value]) + rest.value;
        }
        lines := lines + [line.value];
      }
    }
    assert roster[i..] == [];
    assert lines + [] == lines;
    return Ok(lines);
  }

  /** Python's `"{}".format(n)` for any integer. */
  function IntToString(n: int): (s: string)
    ensures n >= 0 ==> s == NatToString(n)
    ensures n < 0 ==> s == "-" + NatToString(-n)
  {
    if n < 0 then "-" + NatToString(-n) else NatToString(n)
  }

  /** A written integer reads back: a minus sign before the digits of its magnitude when negative. */
  lemma IntToStringReadsBack(n: int)
    ensures n >= 0 ==> ParseNat(IntToString(n)) == Some(n)
    ensures n < 0 ==> IntToString(n)[0] == '-' && ParseNat(IntToString(n)[1..]) == Some(-n)
  {
    if n >= 0 {
      ParseNatToString(n);
    } else {
      ParseNatToString(-n);
      assert IntToString(n)[1..] == NatToString(-n);
    }
  }

  /** The health text of a complete-report line: a birth date, or the rank's label. */
  function HealthText(h: Health, at: Timestamp, stamp: Timestamp -> string): string {
    if h == BORN then BornPrefix + stamp(at) else Sante[h]
  }

  /**
   * The health text reads back, through the forum's label rule, as a newborn
   * for a birth and as its own rank otherwise.
   */
  lemma HealthTextReadsBack(h: Health, at: Timestamp, stamp: Timestamp -> string)
    ensures LabelOf(HealthText(h, at, stamp)) == if h == BORN then Some(BornLabel) else Some(RankLabel(h))
  {
    if h == BORN {
      LabelOfBorn(stamp(at));
    } else {
      LabelOfSante(h);
    }
  }

  /** The dice placeholder and the threshold for `days` days since the last birth. */
  function DiceSuffix(days: int): string {
    DiceOpen + IntToString(GetThreshold(days)) + ")"
  }

  /** The whole days from the player's last birth to `now`; none without a birth. */
  function DaysSinceBirth(p: Player, now: Timestamp): Option<int> {
    match LastBorn(p)
    case None => None
    case Some(b) => Some(Day(now) - Day(b))
  }

  /**
   * The regime suffix for health `h`, given the days since the player's last
   * birth: " + 1" in the counting regime, the dice placeholder with the
   * threshold for those days in the probabilistic regime (nothing to write
   * when there is no birth), and no suffix otherwise.
   */
  function RegimeSuffix(h: Health, days: Option<int>): (r: Option<string>)
    ensures BORN < h < EXCELLENT ==> r == Some(" + 1")
    ensures h == BORN || h >= DEATH_PENDING ==> r == Some("")
    ensures r.None? <==> EXCELLENT <= h < DEATH_PENDING && days.None?
    ensures EXCELLENT <= h < DEATH_PENDING && days.Some? ==> r == Some(DiceSuffix(days.value))
  {
    if BORN < h < EXCELLENT then Some(" + 1")
    else if EXCELLENT <= h < DEATH_PENDING then
      match days
      case None => None
      case Some(d) => Some(DiceSuffix(d))
    else Some("")
  }

  /** The identity and age part of a complete-report line, up to the health. */
  function Identity(p: Player, state: PlayerState): string {
    "@" + p.name + ":" + NatToString(p.twinoId) + "-" + NatToString(p.muxxuId) + "-"
      + NatToString(state.year) + "." + Pad2(state.month) + " : "
  }

  /**
   * One complete-report line: identity, the age of the state at `now`, and
   * the latest classified health with its regime suffix.
   */
  function CompleteLine(p: Player, state: PlayerState, now: Timestamp, stamp: Timestamp -> string): Result<string, ReportError> {
    match LastClassified(p)
    case None => Err(NoClassifiedState(p.muxxuId))
    case Some(u) =>
      var h := p.states[u].health.value;
      match RegimeSuffix(h, DaysSinceBirth(p, now))
      case None => Err(NoBirthRecorded(p.muxxuId))
      case Some(suffix) => Ok(Identity(p, state) + HealthText(h, u, stamp) + suffix)
  }

  /**
   * A complete line fails when the player has no classified state, or when
   * the latest classified health is in the dice regime and no birth is
   * recorded. Otherwise it is the identity, the text of that health, and
   * its suffix: " + 1" while counting, the dice placeholder with the
   * threshold for the days since the last birth, or nothing.
   */
  lemma CompleteLineSpec(p: Player, state: PlayerState, now: Timestamp, stamp: Timestamp -> string)
    ensures LastClassified(p).None? ==> CompleteLine(p, state, now, stamp) == Err(NoClassifiedState(p.muxxuId))
    ensures LastClassified(p).Some? ==>
      var u := LastClassified(p).value;
      var h := p.states[u].health.value;
      var line := CompleteLine(p, state, now, stamp);
      && (EXCELLENT <= h < DEATH_PENDING && LastBorn(p).None? <==> line == Err(NoBirthRecorded(p.muxxuId)))
      && (BORN < h < EXCELLENT ==> line == Ok(Identity(p, state) + HealthText(h, u, stamp) + " + 1"))
      && (EXCELLENT <= h < DEATH_PENDING && LastBorn(p).Some? ==>
            line == Ok(Identity(p, state) + HealthText(h, u, stamp) + DiceSuffix(Day(now) - Day(LastBorn(p).value))))
      && (h == BORN || h >= DEATH_PENDING ==> line == Ok(Identity(p, state) + HealthText(h, u, stamp)))
  {
    if LastClassified(p).Some? {
      var u := LastClassified(p).value;
      var h := p.states[u].health.value;
      var text := Identity(p, state) + HealthText(h, u, stamp);
      var days := DaysSinceBirth(p, now);
      if BORN < h < EXCELLENT {
        assert RegimeSuffix(h, days) == Some(" + 1");
      } else if EXCELLENT <= h < DEATH_PENDING {
        if LastBorn(p).None? {
          assert RegimeSuffix(h, days).None?;
        } else {
          assert RegimeSuffix(h, days) == Some(DiceSuffix(Day(now) - Day(LastBorn(p).value)));
        }
      } else {
        assert RegimeSuffix(h, days) == Some("");
        assert text + "" == text;
      }
    }
  }

  /** The complete-report line renderer for the ranking instant `now`. */
  function CompleteRender(now: Timestamp, stamp: Timestamp -> string): (Player, PlayerState) -> Result<string, ReportError> {
    (p, st) => CompleteLine(p, st, now, stamp)
  }

  /** `write_message`: the complete report for the ranking instant `now`. */
  function WriteMessage(players: Players, now: Timestamp, stamp: Timestamp -> string): Result<seq<string>, ReportError> {
    match PresentLines(Roster(players), now, CompleteRender(now, stamp))
    case Err(e) => Err(e)
    case Ok(body) => Ok([Intro] + body + [FooterPrefix + stamp(now)])
  }

  /**
   * The complete report opens with the intro line and closes with the
   * footer, and in between holds one line per player with a state at `now`,
   * in name order; it fails exactly when one of those lines does.
   */
  lemma WriteMessageShape(players: Players, now: Timestamp, stamp: Timestamp -> string)
    ensures var present := Present(Roster(players), now);
      WriteMessage(players, now, stamp).Ok? <==> AllRendered(present, now, CompleteRender(now, stamp))
    ensures var present := Present(Roster(players), now);
      var r := WriteMessage(players, now, stamp);
      r.Ok? ==>
        && |r.value| == |present| + 2
        && r.value[0] == Intro
        && r.value[|r.value| - 1] == FooterPrefix + stamp(now)
        && RenderedAs(r.value[1..|r.value| - 1], present, now, CompleteRender(now, stamp))
    ensures NameSorted(Present(Roster(players), now))
  {
    var roster := Roster(players);
    RosterSpec(players);
    PresentSorted(roster, now);
    var render := CompleteRender(now, stamp);
    PresentLinesSpec(roster, now, render);
    var body := PresentLines(roster, now, render);
    if body.Ok? {
      var r := [Intro] + body.value + [FooterPrefix + stamp(now)];
      assert WriteMessage(players, now, stamp) == Ok(r);
      assert r[1..|r| - 1] == body.value;
    }
  }

  /** `write_message` run to completion: the roster loop, framed by the intro and the footer. */
  method WriteReport(players: Players, now: Timestamp, stamp: Timestamp -> string) returns (r: Result<seq<string>, ReportError>)
    ensures r == WriteMessage(players, now, stamp)
  {
    var body := RenderPresent(Roster(players), now, CompleteRender(now, stamp));
    if body.Err? {
      return Err(body.error);
    }
    return Ok([Intro] + body.value + [FooterPrefix + stamp(now)]);
  }

  /** The mood glyph of a health rank. */
  function Glyph(h: Health): string {
    if h < EXCELLENT then "8)"
    else if h == EXCELLENT then ":D"
    else if h == GOOD then ":)"
    else if h == BAD then "°x°"
    else ":zombie:"
  }

  /**
   * Two ranks share a glyph exactly when they are both counting ranks (or
   * born), both past bad health, or the same rank.
   */
  lemma GlyphBands(h: Health, k: Health)
    ensures Glyph(h) == Glyph(k) <==>
      (h < EXCELLENT && k < EXCELLENT) || (h > BAD && k > BAD) || h == k
  {
    assert "8)" != ":D" && "8)" != ":)" && "8)" != "°x°" && "8)" != ":zombie:";
    assert ":D" != ":)" && ":D" != "°x°" && ":D" != ":zombie:";
    assert ":)" != "°x°" && ":)" != ":zombie:" && "°x°" != ":zombie:";
  }

  /** One clean-report line: name, twinoid id, the label of the health at that date and its glyph. */
  function CleanLine(p: Player, state: PlayerState): (r: Result<string, ReportError>)
    ensures r.Err? <==> state.health.None?
  {
    match state.health
    case None => Err(UnclassifiedState(p.muxxuId))
    case Some(h) => Ok("@" + p.name + ":" + NatToString(p.twinoId) + ": " + Sante[h] + " " + Glyph(h))
  }

  /** `clean_message`: the short report for the last recorded date. */
  function CleanMessage(players: Players, lastDate: Timestamp, dateStamp: Timestamp -> string): Result<seq<string>, ReportError> {
    match PresentLines(Roster(players), lastDate, CleanLine)
    case Err(e) => Err(e)
    case Ok(body) => Ok([CleanHeaderPrefix + dateStamp(lastDate) + ":"] + body)
  }

  /**
   * The clean report opens with the dated header and holds one line per
   * player with a state at that date, in name order; it fails exactly when
   * one of those states has no known health.
   */
  lemma CleanMessageShape(players: Players, lastDate: Timestamp, dateStamp: Timestamp -> string)
    ensures var present := Present(Roster(players), lastDate);
      CleanMessage(players, lastDate, dateStamp).Ok? <==>
        forall k :: 0 <= k < |present| ==> present[k].states[lastDate].health.Some?
    ensures var present := Present(Roster(players), lastDate);
      var r := CleanMessage(players, lastDate, dateStamp);
      r.Ok? ==>
        && |r.value| == |present| + 1
        && r.value[0] == CleanHeaderPrefix + dateStamp(lastDate) + ":"
        && RenderedAs(r.value[1..], present, lastDate, CleanLine)
    ensures NameSorted(Present(Roster(players), lastDate))
  {
    var roster := Roster(players);
    RosterSpec(players);
    PresentSorted(roster, lastDate);
    PresentLinesSpec(roster, lastDate, CleanLine);
    var body := PresentLines(roster, lastDate, CleanLine);
    if body.Ok? {
      var r := [CleanHeaderPrefix + dateStamp(lastDate) + ":"] + body.value;
      assert CleanMessage(players, lastDate, dateStamp) == Ok(r);
      assert r[1..] == body.value;
    }
  }

  /** `clean_message` run to completion: the dated header, then the roster loop. */
  method CleanReport(players: Players, lastDate: Timestamp, dateStamp: Timestamp -> string) returns (r: Result<seq<string>, ReportError>)
    ensures r == CleanMessage(players, lastDate, dateStamp)
  {
    var body := RenderPresent(Roster(players), lastDate, CleanLine);
    if body.Err? {
      return Err(body.error);
    }
    return Ok([CleanHeaderPrefix + dateStamp(lastDate) + ":"] + body.value);
  }

  /** What the recency check reports. */
  datatype Recency = UpToDate | StaleForum | FromFuture

  /** `checks`: compares the calendar days of the ranking instant and of the last forum message. */
  function Checks(now: Timestamp, lastDate: Timestamp): Recency {
    if Day(now) > Day(lastDate) + 1 then StaleForum
    else if Day(now) < Day(lastDate) then FromFuture
    else UpToDate
  }

  /**
   * The check is quiet exactly when the ranking is taken on the day of the
   * last message or the day after; it warns of stale data when later, and of
   * data from the future when earlier; only the days matter.
   */
  lemma ChecksSpec(now: Timestamp, lastDate: Timestamp, now': Timestamp, lastDate': Timestamp)
    ensures Checks(now, lastDate) == UpToDate <==> Day(lastDate) <= Day(now) <= Day(lastDate) + 1
    ensures Checks(now, lastDate) == StaleForum <==> Day(now) >= Day(lastDate) + 2
    ensures Checks(now, lastDate) == FromFuture <==> Day(now) < Day(lastDate)
    ensures Day(now) == Day(now') && Day(lastDate) == Day(lastDate') ==> Checks(now, lastDate) == Checks(now', lastDate')
  {
  }
}
