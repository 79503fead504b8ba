/**
 * The ledger's data (sante.py classes `MessageExcept`, `Player`,
 * `PlayerState`): player identity and its equality, each player's
 * timestamp-keyed history, and the `last_born` accessor.
 */
module Model {
  import opened Wrappers
  import opened Health

  type MuxxuId = nat

  /** The age of majority given to every back-filled birth state. */
  const MajorityYears: nat := 20

  /**
   * One recorded state: the reported age and a health rank, or `None` for a
   * ranking snapshot whose health is not observable. The timestamp is the
   * key under which the state is stored.
   */
  datatype PlayerState = PlayerState(year: nat, month: nat, health: Option<Health>)

  const BirthState: PlayerState := PlayerState(MajorityYears, 0, Some(BORN))

  /** A player and its history, keyed by timestamp (one state per instant). */
  datatype Player = Player(muxxuId: MuxxuId, twinoId: nat, name: string, states: map<Timestamp, PlayerState>)

  /** The ledger: players by muxxu id. */
  type Players = map<MuxxuId, Player>

  /** Every entry of the ledger is filed under its own player's id. */
  ghost predicate KeyedById(players: Players) {
    forall id :: id in players ==> players[id].muxxuId == id
  }

  /** What `Player.__eq__` may be compared with: another player or a bare id. */
  datatype PlayerComparand = OtherPlayer(player: Player) | BareId(id: int)

  function ComparandId(other: PlayerComparand): int {
    match other
    case OtherPlayer(q) => q.muxxuId
    case BareId(id) => id
  }

  /** `Player.__eq__`: players are the same exactly when their muxxu ids are. */
  function PlayerEquals(p: Player, other: PlayerComparand): (r: bool)
    ensures r <==> p.muxxuId == ComparandId(other)
  {
    match other
    case OtherPlayer(q) => p.muxxuId == q.muxxuId
    case BareId(id) => p.muxxuId == id
  }

  /** Player equality is symmetric and transitive, and agrees with comparing to the bare id. */
  lemma PlayerEqualsEquivalence(p: Player, q: Player, r: Player)
    ensures PlayerEquals(p, OtherPlayer(q)) <==> PlayerEquals(q, OtherPlayer(p))
    ensures PlayerEquals(p, OtherPlayer(q)) && PlayerEquals(q, OtherPlayer(r)) ==> PlayerEquals(p, OtherPlayer(r))
    ensures PlayerEquals(p, OtherPlayer(q)) <==> PlayerEquals(p, BareId(q.muxxuId))
  {
  }

  /** A forum message that must not be processed: thread, page, position on the page. */
  datatype MessageExcept = MessageExcept(thread: nat, page: nat, position: nat)

  /** What `MessageExcept.__eq__` may be compared with. */
  datatype ExceptComparand = OtherExcept(except: MessageExcept) | Triple(thread: int, page: int, position: int) | Unsupported

  datatype ComparisonError = ImpossibleComparison

  /**
   * `MessageExcept.__eq__`: equal to another exception or a triple exactly
   * when the three coordinates agree; any other operand is an error.
   */
  function ExceptEquals(e: MessageExcept, other: ExceptComparand): (r: Result<bool, ComparisonError>)
    ensures r.Err? <==> other.Unsupported?
    ensures other.Triple? ==>
      (r == Ok(true) <==> (e.thread, e.page, e.position) == (other.thread, other.page, other.position))
    ensures other.OtherExcept? ==> (r == Ok(true) <==> e == other.except)
  {
    match other
    case OtherExcept(o) => Ok(e.thread == o.thread && e.page == o.page && e.position == o.position)
    case Triple(t, p, q) => Ok(e.thread == t && e.page == p && e.position == q)
    case Unsupported => Err(ImpossibleComparison)
  }

  /** `(thread, page, position) in excepts`. */
  function IsExcepted(excepts: seq<MessageExcept>, thread: nat, page: nat, position: nat): (r: bool)
    ensures r <==> MessageExcept(thread, page, position) in excepts
  {
    if excepts == [] then false
    else (ExceptEquals(excepts[0], Triple(thread, page, position)) == Ok(true)
          || IsExcepted(excepts[1..], thread, page, position))
  }

  /** A maximum of a non-empty set of instants, found by removing one element at a time. */
  lemma {:induction false} MaxWitness(s: set<Timestamp>) returns (m: Timestamp)
    requires s != {}
    ensures m in s && forall t :: t in s ==> t <= m
    decreases |s|
  {
    if forall x :: x !in s {
      assert false;
    }
    var x :| x in s;
    if s == {x} {
      m := x;
    } else {
      var rest := s - {x};
      assert |rest| == |s| - 1;
      var r := MaxWitness(rest);
      m := if x > r then x else r;
      forall t | t in s ensures t <= m {
        if t != x { assert t in rest; }
      }
    }
  }

  lemma MaxExists(s: set<Timestamp>)
    requires s != {}
    ensures exists m :: m in s && forall t :: t in s ==> t <= m
  {
    var m := MaxWitness(s);
  }

  /** Python's `max` over a non-empty set of timestamps. */
  function MaxTime(s: set<Timestamp>): (m: Timestamp)
    requires s != {}
    ensures m in s && forall t :: t in s ==> t <= m
  {
    MaxExists(s);
    var m :| m in s && forall t :: t in s ==> t <= m; m
  }

  /** `max(player.states)`: the latest recorded instant, `None` where `max` raises. */
  function Latest(p: Player): (r: Option<Timestamp>)
    ensures r.None? <==> p.states == map[]
    ensures r.Some? ==> r.value in p.states && forall t :: t in p.states ==> t <= r.value
  {
    if p.states == map[] then None
    else
      assert p.states.Keys != {};
      Some(MaxTime(p.states.Keys))
  }

  /**
   * `Player.last_born`: the latest instant whose state has health 0;
   * `None` where the source's `max` of an empty list raises.
   */
  function LastBorn(p: Player): (r: Option<Timestamp>)
    ensures r.Some? ==> r.value in p.states && p.states[r.value].health == Some(BORN)
    ensures r.Some? ==> forall t :: t in p.states && p.states[t].health == Some(BORN) ==> t <= r.value
    ensures r.None? <==> forall t :: t in p.states ==> p.states[t].health != Some(BORN)
  {
    var births := set t | t in p.states && p.states[t].health == Some(BORN);
    assert forall t :: t in p.states && p.states[t].health == Some(BORN) ==> t in births;
    if births == {} then None else Some(MaxTime(births))
  }

  /** The latest instant whose health is known, `None` where the source's `max` raises. */
  function LastClassified(p: Player): (r: Option<Timestamp>)
    ensures r.Some? ==> r.value in p.states && p.states[r.value].health.Some?
    ensures r.Some? ==> forall t :: t in p.states && p.states[t].health.Some? ==> t <= r.value
    ensures r.None? <==> forall t :: t in p.states ==> p.states[t].health.None?
  {
    var known := set t | t in p.states && p.states[t].health.Some?;
    assert forall t :: t in p.states && p.states[t].health.Some? ==> t in known;
    if known == {} then None else Some(MaxTime(known))
  }

  /** Integrity failures that abort the run. */
  datatype Fatal =
    | SimultaneousStates(muxxuId: MuxxuId, time: Timestamp)
    | EmptyHistory(muxxuId: MuxxuId)
    | FutureData(muxxuId: MuxxuId)

  /** A ledger after a stage, with the failure that aborted it, if any. */
  datatype Outcome = Outcome(players: Players, fatal: Option<Fatal>)
}
