/**
 * Birth events from a city's log (the insertion part of sante.py
 * `get_map_histo`): each birth gives the player a birth state at the event
 * instant, unless one is already there; a different state at that very
 * instant is a fatal integrity failure.
 */
module Births {
  import opened Wrappers
  import opened Health
  import opened Model

  /** An entry of a city log; the log lists the newest entry first. */
  datatype LogEntry = BirthEntry(time: Timestamp, muxxuId: MuxxuId) | OtherEntry

  datatype BirthEvent = BirthEvent(time: Timestamp, muxxuId: MuxxuId)

  /** What the profile lookup for an unknown id answers (the lookup itself is outside the model). */
  datatype Profile = Profile(twinoId: nat, name: string)

  /** The births of one log in chronological order: the log read backwards, births only. */
  function LogBirths(log: seq<LogEntry>): (r: seq<BirthEvent>)
    ensures |r| <= |log|
    decreases |log|
  {
    if log == [] then []
    else
      var last := log[|log| - 1];
      (if last.BirthEntry? then [BirthEvent(last.time, last.muxxuId)] else []) + LogBirths(log[..|log| - 1])
  }

  /** The first `j` entries of a log yield the birth of entry `j - 1` (if it is one) first. */
  lemma LogBirthsPrefix(log: seq<LogEntry>, j: nat)
    requires 0 < j <= |log|
    ensures LogBirths(log[..j]) ==
      (if log[j - 1].BirthEntry? then [BirthEvent(log[j - 1].time, log[j - 1].muxxuId)] else []) + LogBirths(log[..j - 1])
  {
    assert log[..j][..j - 1] == log[..j - 1];
  }

  /** A single entry yields its birth event, if it is a birth. */
  lemma LogBirthsSingle(e: LogEntry)
    ensures e.BirthEntry? ==> LogBirths([e]) == [BirthEvent(e.time, e.muxxuId)]
    ensures e.OtherEntry? ==> LogBirths([e]) == []
  {
    assert [e][..0] == [];
  }

  /**
   * Reading the log newest-first and reversing it: the births of a later
   * (older) stretch of the log come before those of an earlier (newer) one.
   */
  lemma {:induction false} LogBirthsAppend(a: seq<LogEntry>, b: seq<LogEntry>)
    ensures LogBirths(a + b) == LogBirths(b) + LogBirths(a)
    decreases |b|
  {
    if b == [] {
      assert a + b == a;
    } else {
      var ab := a + b;
      var last := b[|b| - 1];
      var head := if last.BirthEntry? then [BirthEvent(last.time, last.muxxuId)] else [];
      assert ab[|ab| - 1] == last;
      assert ab[..|ab| - 1] == a + b[..|b| - 1];
      LogBirthsAppend(a, b[..|b| - 1]);
      calc {
        LogBirths(ab);
        head + LogBirths(a + b[..|b| - 1]);
        head + (LogBirths(b[..|b| - 1]) + LogBirths(a));
        (head + LogBirths(b[..|b| - 1])) + LogBirths(a);
        LogBirths(b) + LogBirths(a);
      }
    }
  }

  /** An event comes out of a log exactly when the log holds a birth entry for it. */
  lemma {:induction false} LogBirthsMembers(log: seq<LogEntry>, ev: BirthEvent)
    ensures ev in LogBirths(log) <==> exists i :: 0 <= i < |log| && log[i] == BirthEntry(ev.time, ev.muxxuId)
    decreases |log|
  {
    if log != [] {
      var init := log[..|log| - 1];
      var last := log[|log| - 1];
      LogBirthsMembers(init, ev);
      assert LogBirths(log) == (if last.BirthEntry? then [BirthEvent(last.time, last.muxxuId)] else []) + LogBirths(init);
      if exists i :: 0 <= i < |log| && log[i] == BirthEntry(ev.time, ev.muxxuId) {
        var i :| 0 <= i < |log| && log[i] == BirthEntry(ev.time, ev.muxxuId);
        if i < |log| - 1 {
          assert init[i] == log[i];
        }
      }
      if exists i :: 0 <= i < |init| && init[i] == BirthEntry(ev.time, ev.muxxuId) {
        var i :| 0 <= i < |init| && init[i] == BirthEntry(ev.time, ev.muxxuId);
        assert log[i] == init[i];
      }
    }
  }

  /** The births of every group's log, group after group. */
  function GroupBirths(logs: seq<seq<LogEntry>>): seq<BirthEvent>
    decreases |logs|
  {
    if logs == [] then [] else LogBirths(logs[0]) + GroupBirths(logs[1..])
  }

  /** The player has a birth state at the event's instant. */
  predicate HasBirth(players: Players, ev: BirthEvent) {
    ev.muxxuId in players && ev.time in players[ev.muxxuId].states
      && players[ev.muxxuId].states[ev.time].health == Some(BORN)
  }

  /** `after` keeps every player and every recorded state of `before`. */
  ghost predicate Extends(before: Players, after: Players) {
    forall id :: id in before ==>
      && id in after
      && forall u :: u in before[id].states ==> u in after[id].states && after[id].states[u] == before[id].states[u]
  }

  /**
   * One birth event. An unknown id is first resolved through `lookup`. If the
   * player already has a state at that instant, a birth state there is left
   * alone and any other state is fatal; otherwise exactly one birth state is
   * added at that instant and nothing else changes.
   */
  function ApplyBirth(players: Players, ev: BirthEvent, lookup: MuxxuId -> Profile): (r: Result<Players, Fatal>)
    ensures r.Err? <==>
      ev.muxxuId in players && ev.time in players[ev.muxxuId].states && !HasBirth(players, ev)
    ensures r.Err? ==> r.error == SimultaneousStates(ev.muxxuId, ev.time)
  {
    var id := ev.muxxuId;
    if id in players && ev.time in players[id].states then
      if players[id].states[ev.time].health != Some(BORN) then Err(SimultaneousStates(id, ev.time))
      else Ok(players)
    else
      var p := if id in players then players[id] else Player(id, lookup(id).twinoId, lookup(id).name, map[]);
      Ok(players[id := p.(states := p.states[ev.time := BirthState])])
  }

  /**
   * A birth state already at the instant leaves the ledger as it is;
   * otherwise exactly one state, the birth state, is added to the event's
   * player (built from the lookup when unknown) and nothing else changes.
   */
  lemma ApplyBirthEffect(players: Players, ev: BirthEvent, lookup: MuxxuId -> Profile)
    ensures HasBirth(players, ev) ==> ApplyBirth(players, ev, lookup) == Ok(players)
    ensures var r := ApplyBirth(players, ev, lookup);
      r.Ok? ==>
        && HasBirth(r.value, ev) && Extends(players, r.value)
        && r.value.Keys == players.Keys + {ev.muxxuId}
        && (forall id :: id in players && id != ev.muxxuId ==> r.value[id] == players[id])
        && r.value[ev.muxxuId].states.Keys == (if ev.muxxuId in players then players[ev.muxxuId].states.Keys else {}) + {ev.time}
        && (ev.muxxuId !in players ==>
              r.value[ev.muxxuId] == Player(ev.muxxuId, lookup(ev.muxxuId).twinoId, lookup(ev.muxxuId).name, map[ev.time := BirthState]))
        && (ev.muxxuId in players && ev.time !in players[ev.muxxuId].states ==>
              r.value[ev.muxxuId] == players[ev.muxxuId].(states := players[ev.muxxuId].states[ev.time := BirthState]))
  {
  }

  /** Applying the same birth event twice is the same as applying it once. */
  lemma BirthIdempotent(players: Players, ev: BirthEvent, lookup: MuxxuId -> Profile)
    requires ApplyBirth(players, ev, lookup).Ok?
    ensures ApplyBirth(ApplyBirth(players, ev, lookup).value, ev, lookup) == ApplyBirth(players, ev, lookup)
  {
    ApplyBirthEffect(players, ev, lookup);
    ApplyBirthEffect(ApplyBirth(players, ev, lookup).value, ev, lookup);
  }

  /** The events in order, stopping at the first fatal one. */
  function ApplyBirths(players: Players, events: seq<BirthEvent>, lookup: MuxxuId -> Profile): Outcome
    decreases |events|
  {
    if events == [] then Outcome(players, None)
    else match ApplyBirth(players, events[0], lookup)
      case Err(e) => Outcome(players, Some(e))
      case Ok(next) => ApplyBirths(next, events[1..], lookup)
  }

  lemma ApplyBirthsFirst(players: Players, ev: BirthEvent, rest: seq<BirthEvent>, lookup: MuxxuId -> Profile)
    ensures ApplyBirths(players, [ev] + rest, lookup) ==
      if ApplyBirth(players, ev, lookup).Err? then Outcome(players, Some(ApplyBirth(players, ev, lookup).error))
      else ApplyBirths(ApplyBirth(players, ev, lookup).value, rest, lookup)
  {
    assert ([ev] + rest)[0] == ev && ([ev] + rest)[1..] == rest;
  }

  lemma {:induction false} ApplyBirthsExtends(players: Players, events: seq<BirthEvent>, lookup: MuxxuId -> Profile)
    ensures Extends(players, ApplyBirths(players, events, lookup).players)
    decreases |events|
  {
    if events != [] {
      match ApplyBirth(players, events[0], lookup)
      case Err(_) =>
      case Ok(next) =>
        ApplyBirthEffect(players, events[0], lookup);
        ApplyBirthsExtends(next, events[1..], lookup);
    }
  }

  /** After a run without failure every event's player has a birth state at its instant. */
  lemma {:induction false} ApplyBirthsRecords(players: Players, events: seq<BirthEvent>, lookup: MuxxuId -> Profile)
    requires ApplyBirths(players, events, lookup).fatal.None?
    ensures forall k :: 0 <= k < |events| ==> HasBirth(ApplyBirths(players, events, lookup).players, events[k])
    decreases |events|
  {
    if events != [] {
      var next := ApplyBirth(players, events[0], lookup).value;
      ApplyBirthEffect(players, events[0], lookup);
      ApplyBirthsRecords(next, events[1..], lookup);
      ApplyBirthsExtends(next, events[1..], lookup);
      forall k | 0 <= k < |events|
        ensures HasBirth(ApplyBirths(players, events, lookup).players, events[k])
      {
        if k > 0 {
          assert events[k] == events[1..][k - 1];
        }
      }
    }
  }

  /** Events whose birth states are all present change nothing. */
  lemma {:induction false} ApplyBirthsRecorded(players: Players, events: seq<BirthEvent>, lookup: MuxxuId -> Profile)
    requires forall k :: 0 <= k < |events| ==> HasBirth(players, events[k])
    ensures ApplyBirths(players, events, lookup) == Outcome(players, None)
    decreases |events|
  {
    if events != [] {
      assert HasBirth(players, events[0]);
      ApplyBirthEffect(players, events[0], lookup);
      assert forall k :: 0 <= k < |events| - 1 ==> events[1..][k] == events[k + 1];
      ApplyBirthsRecorded(players, events[1..], lookup);
    }
  }

  /** Replaying a whole successful sequence of birth events changes nothing. */
  lemma ApplyBirthsTwice(players: Players, events: seq<BirthEvent>, lookup: MuxxuId -> Profile)
    requires ApplyBirths(players, events, lookup).fatal.None?
    ensures var once := ApplyBirths(players, events, lookup).players;
      ApplyBirths(once, events, lookup) == Outcome(once, None)
  {
    ApplyBirthsRecords(players, events, lookup);
    ApplyBirthsRecorded(ApplyBirths(players, events, lookup).players, events, lookup);
  }

  /** Birth events keep every player filed under its own id. */
  lemma {:induction false} ApplyBirthsKeyed(players: Players, events: seq<BirthEvent>, lookup: MuxxuId -> Profile)
    requires KeyedById(players)
    ensures KeyedById(ApplyBirths(players, events, lookup).players)
    decreases |events|
  {
    if events != [] {
      match ApplyBirth(players, events[0], lookup)
      case Err(_) =>
      case Ok(next) =>
        ApplyBirthEffect(players, events[0], lookup);
        assert KeyedById(next);
        ApplyBirthsKeyed(next, events[1..], lookup);
    }
  }
}
