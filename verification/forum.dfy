/**
 * Forum ingestion (sante.py `read_forum_sources`): every status message
 * ("block") is skipped when excepted, validated as a whole against the
 * ledger as it stood before the block, and then either committed entirely
 * or rejected entirely, the run carrying on with the next block.
 *
 * Blocks arrive pre-parsed: the HTML extraction of the player lines, the
 * message time and the birth date is outside the model; what each yields
 * (a value or a failure) is in the records below.
 */
module Forum {
  import opened Wrappers
  import opened Text
  import opened Health
  import opened Model

  /** `datetime(2000, 1, 1)`, the starting value of the last recorded date. */
  const InitialLastDate: Timestamp := 946684800

  /** A dice annotation `+ (<dice> <= <threshold>)`. */
  datatype Roll = Roll(dice: nat, threshold: nat)

  /** The `né le <date>` annotation: absent, a parsed instant, or a date that does not parse. */
  datatype BornNote = NoBornNote | BornOn(time: Timestamp) | BornUnparsable

  /** One player line: identity, reported age, health label and annotations. */
  datatype Line = Line(
    twinoId: nat, name: string, muxxuId: MuxxuId,
    year: nat, month: nat, healthText: string,
    roll: Option<Roll>, born: BornNote)

  /** A player line either matches the line grammar or does not. */
  datatype LineText = Parsed(line: Line) | Malformed

  /** A message: its time (None when it does not parse) and its player lines. */
  datatype Block = Block(time: Option<Timestamp>, lines: seq<LineText>)

  /** One forum page: thread and page numbers and its messages in order. */
  datatype ForumSource = ForumSource(thread: nat, page: nat, blocks: seq<Block>)

  /** Where a rejected message sits, for the operator's follow-up. */
  datatype Locator = Locator(thread: nat, page: nat, position: nat)

  /** Why a message is rejected. */
  datatype Rejection =
    | BadMessageTime
    | MalformedLine
    | UnknownLabel
    | HealthStep(error: StepError)
    | RollForUnknownPlayer
    | RollWithoutBirth
    | WrongThreshold
    | NoHistory
    | UnclassifiedHistory
    | TransitionMismatch
    | BadBirthDate

  function DiceOf(roll: Option<Roll>): Option<int> {
    match roll
    case None => None
    case Some(r) => Some(r.dice)
  }

  function ThresholdOf(roll: Option<Roll>): Option<int> {
    match roll
    case None => None
    case Some(r) => Some(r.threshold)
  }

  /**
   * The health a line reports once read (`PlayerState(s=...)`): 1 for a
   * newborn label, otherwise the step from the label's rank with the line's
   * dice; an unknown label or a failing step is an error.
   */
  function ReportedHealth(l: Line): (r: Result<Health, Rejection>)
    ensures LabelOf(l.healthText) == Some(BornLabel) ==> r == Ok(1)
    ensures LabelOf(l.healthText).None? ==> r == Err(UnknownLabel)
    ensures r.Ok? ==> 1 <= r.value <= DEATH_PENDING
    ensures r.Ok? && LabelOf(l.healthText) != Some(BornLabel) ==>
      LabelOf(l.healthText).Some? &&
      NewHealth(LabelOf(l.healthText).value.rank, DiceOf(l.roll), ThresholdOf(l.roll)) == Ok(r.value)
    ensures LabelOf(l.healthText).Some? && LabelOf(l.healthText).value.RankLabel? ==>
      var step := NewHealth(LabelOf(l.healthText).value.rank, DiceOf(l.roll), ThresholdOf(l.roll));
      && (step.Ok? ==> r == Ok(step.value))
      && (step.Err? ==> r == Err(HealthStep(step.error)))
  {
    match LabelOf(l.healthText)
    case None => Err(UnknownLabel)
    case Some(BornLabel) => Ok(1)
    case Some(RankLabel(rank)) =>
      match NewHealth(rank, DiceOf(l.roll), ThresholdOf(l.roll))
      case Err(e) => Err(HealthStep(e))
      case Ok(h) => Ok(h)
  }

  /** The state recorded at the player's latest instant, if the player has one. */
  function Previous(players: Players, id: MuxxuId): (r: Option<PlayerState>)
    ensures r.Some? <==> id in players && players[id].states != map[]
    ensures r.Some? ==> Latest(players[id]).Some? && r.value == players[id].states[Latest(players[id]).value]
  {
    if id !in players then None
    else match Latest(players[id])
      case None => None
      case Some(u) => Some(players[id].states[u])
  }

  /**
   * The transition check for a reported health other than 1: the health
   * must be the step from the player's latest recorded health.
   */
  function CheckTransition(players: Players, l: Line, h: Health): Option<Rejection> {
    match Previous(players, l.muxxuId)
    case None => Some(NoHistory)
    case Some(prev) =>
      match prev.health
      case None => Some(UnclassifiedHistory)
      case Some(ph) =>
        match NewHealth(ph, DiceOf(l.roll), ThresholdOf(l.roll))
        case Err(e) => Some(HealthStep(e))
        case Ok(expected) => if expected == h then None else Some(TransitionMismatch)
  }

  /**
   * The threshold check for a line carrying a dice annotation: the player
   * must be known, have a birth, and the annotation's threshold must be the
   * one for the whole days between that birth and the message.
   */
  function CheckRoll(players: Players, t: Timestamp, l: Line): Option<Rejection> {
    if l.roll.None? then None
    else if l.muxxuId !in players then Some(RollForUnknownPlayer)
    else match LastBorn(players[l.muxxuId])
      case None => Some(RollWithoutBirth)
      case Some(b) =>
        if l.roll.value.threshold != GetThreshold(Day(t) - Day(b)) then Some(WrongThreshold) else None
  }

  /** Validation of one line of a message sent at `t` against the ledger `players`. */
  function CheckLine(players: Players, t: Timestamp, lt: LineText): Option<Rejection> {
    match lt
    case Malformed => Some(MalformedLine)
    case Parsed(l) =>
      match ReportedHealth(l)
      case Err(e) => Some(e)
      case Ok(h) =>
        if CheckRoll(players, t, l).Some? then CheckRoll(players, t, l)
        else if h != 1 && CheckTransition(players, l, h).Some? then CheckTransition(players, l, h)
        else if l.born.BornUnparsable? then Some(BadBirthDate)
        else None
  }

  /**
   * A line passes exactly when it parses, its label gives a health, a dice
   * annotation (if any) carries the threshold for the days since the
   * player's last birth, a health other than 1 is the step from the
   * player's latest health, and a birth date (if any) parses.
   */
  lemma LineAcceptance(players: Players, t: Timestamp, l: Line)
    ensures CheckLine(players, t, Parsed(l)).None? <==>
      && ReportedHealth(l).Ok?
      && (l.roll.Some? ==>
            && l.muxxuId in players
            && LastBorn(players[l.muxxuId]).Some?
            && l.roll.value.threshold == GetThreshold(Day(t) - Day(LastBorn(players[l.muxxuId]).value)))
      && (ReportedHealth(l).Ok? && ReportedHealth(l).value != 1 ==>
            && Previous(players, l.muxxuId).Some?
            && Previous(players, l.muxxuId).value.health.Some?
            && NewHealth(Previous(players, l.muxxuId).value.health.value, DiceOf(l.roll), ThresholdOf(l.roll))
               == Ok(ReportedHealth(l).value))
      && !l.born.BornUnparsable?
  {
  }

  /** The first failing line of a message, if any. */
  function CheckLines(players: Players, t: Timestamp, lines: seq<LineText>): Option<Rejection> {
    if lines == [] then None
    else if CheckLine(players, t, lines[0]).Some? then CheckLine(players, t, lines[0])
    else CheckLines(players, t, lines[1..])
  }

  lemma CheckLinesFirst(players: Players, t: Timestamp, lines: seq<LineText>)
    requires lines != []
    ensures CheckLines(players, t, lines) ==
      if CheckLine(players, t, lines[0]).Some? then CheckLine(players, t, lines[0]) else CheckLines(players, t, lines[1..])
  {
  }

  /** A message passes exactly when every one of its lines does. */
  lemma {:induction false} CheckLinesAll(players: Players, t: Timestamp, lines: seq<LineText>)
    ensures CheckLines(players, t, lines).None? <==> forall k :: 0 <= k < |lines| ==> CheckLine(players, t, lines[k]).None?
  {
    if lines != [] {
      CheckLinesAll(players, t, lines[1..]);
      assert forall k :: 1 <= k < |lines| ==> lines[k] == lines[1..][k - 1];
    }
  }

  /** Validation of a whole message: its time must parse, then every line must pass. */
  function CheckBlock(players: Players, b: Block): Option<Rejection> {
    match b.time
    case None => Some(BadMessageTime)
    case Some(t) => CheckLines(players, t, b.lines)
  }

  /** A line that passed validation can be written to the ledger. */
  predicate Committable(lt: LineText) {
    lt.Parsed? && ReportedHealth(lt.line).Ok? && !lt.line.born.BornUnparsable?
  }

  predicate AllCommittable(lines: seq<LineText>) {
    forall k :: 0 <= k < |lines| ==> Committable(lines[k])
  }

  lemma {:induction false} PassedLinesCommittable(players: Players, t: Timestamp, lines: seq<LineText>)
    requires CheckLines(players, t, lines).None?
    ensures AllCommittable(lines)
  {
    CheckLinesAll(players, t, lines);
    forall k | 0 <= k < |lines| ensures Committable(lines[k]) {
      PassedLineCommittable(players, t, lines[k]);
    }
  }

  lemma PassedLineCommittable(players: Players, t: Timestamp, lt: LineText)
    requires CheckLine(players, t, lt).None?
    ensures Committable(lt)
  {
  }

  /** The player a line refers to: the ledger's entry, or a new one built from the line. */
  function LinePlayer(players: Players, l: Line): Player {
    if l.muxxuId in players then players[l.muxxuId] else Player(l.muxxuId, l.twinoId, l.name, map[])
  }

  /**
   * Writing one line at `t`: the reported state at `t`, then the birth state
   * at the birth date when the line carries one.
   */
  function CommitLine(players: Players, t: Timestamp, lt: LineText): Players
    requires Committable(lt)
  {
    var l := lt.line;
    var p := LinePlayer(players, l);
    var atT := p.states[t := PlayerState(l.year, l.month, Some(ReportedHealth(l).value))];
    var states := if l.born.BornOn? then atT[l.born.time := BirthState] else atT;
    players[l.muxxuId := p.(states := states)]
  }

  function CommitLines(players: Players, t: Timestamp, lines: seq<LineText>): Players
    requires AllCommittable(lines)
    decreases |lines|
  {
    if lines == [] then players
    else CommitLines(CommitLine(players, t, lines[0]), t, lines[1..])
  }

  /** The ledger, last recorded date and rejected messages after some blocks. */
  datatype ForumRead = ForumRead(players: Players, lastDate: Timestamp, rejected: seq<Locator>)

  function Max(a: int, b: int): int {
    if a < b then b else a
  }

  /** One message of the forum at `position` on page `page` of thread `thread`. */
  function StepBlock(st: ForumRead, excepts: seq<MessageExcept>, thread: nat, page: nat, position: nat, b: Block): ForumRead {
    if IsExcepted(excepts, thread, page, position) then st
    else match CheckBlock(st.players, b)
      case Some(_) => st.(rejected := st.rejected + [Locator(thread, page, position)])
      case None =>
        PassedLinesCommittable(st.players, b.time.value, b.lines);
        ForumRead(CommitLines(st.players, b.time.value, b.lines), Max(st.lastDate, b.time.value), st.rejected)
  }

  /** The messages `blocks[i..]` of one page, in order. */
  function Blocks(st: ForumRead, excepts: seq<MessageExcept>, thread: nat, page: nat, blocks: seq<Block>, i: nat): ForumRead
    requires i <= |blocks|
    decreases |blocks| - i
  {
    if i == |blocks| then st
    else Blocks(StepBlock(st, excepts, thread, page, i, blocks[i]), excepts, thread, page, blocks, i + 1)
  }

  /** The pages `sources`, in order. */
  function Sources(st: ForumRead, excepts: seq<MessageExcept>, sources: seq<ForumSource>): ForumRead
    decreases |sources|
  {
    if sources == [] then st
    else Sources(Blocks(st, excepts, sources[0].thread, sources[0].page, sources[0].blocks, 0), excepts, sources[1..])
  }

  /** What reading the whole forum yields, starting from an empty ledger. */
  function ReadForum(sources: seq<ForumSource>, excepts: seq<MessageExcept>): ForumRead {
    Sources(ForumRead(map[], InitialLastDate, []), excepts, sources)
  }

  /** Validation of one message, line by line, stopping at the first failure. */
  method ValidateBlock(players: Players, b: Block) returns (why: Option<Rejection>)
    ensures why == CheckBlock(players, b)
  {
    if b.time.None? {
      return Some(BadMessageTime);
    }
    var t := b.time.value;
    var i := 0;
    while i < |b.lines|
      invariant 0 <= i <= |b.lines|
      invariant CheckLines(players, t, b.lines[i..]) == CheckBlock(players, b)
    {
      CheckLinesFirst(players, t, b.lines[i..]);
      assert b.lines[i..][1..] == b.lines[i + 1..];
      var failure := CheckLine(players, t, b.lines[i]);
      if failure.Some? {
        return failure;
      }
      i := i + 1;
    }
    return None;
  }

  /** Writing every line of an accepted message at `t`, in order. */
  method CommitBlock(players: Players, t: Timestamp, lines: seq<LineText>) returns (updated: Players)
    requires AllCommittable(lines)
    ensures updated == CommitLines(players, t, lines)
  {
    updated := players;
    var i := 0;
    while i < |lines|
      invariant 0 <= i <= |lines|
      invariant CommitLines(updated, t, lines[i..]) == CommitLines(players, t, lines)
    {
      assert lines[i..][1..] == lines[i + 1..];
      var l := lines[i].line;
      var player := if l.muxxuId in updated then updated[l.muxxuId] else Player(l.muxxuId, l.twinoId, l.name, map[]);
      var states := player.states[t := PlayerState(l.year, l.month, Some(ReportedHealth(l).value))];
      if l.born.BornOn? {
        states := states[l.born.time := BirthState];
      }
      updated := updated[l.muxxuId := player.(states := states)];
      i := i + 1;
    }
  }

  /**
   * Reads the forum pages in order and returns the ledger, the latest
   * accepted message time and the locators of the rejected messages.
   */
  method ReadForumSources(sources: seq<ForumSource>, excepts: seq<MessageExcept>)
    returns (players: Players, lastDate: Timestamp, rejected: seq<Locator>)
    ensures ForumRead(players, lastDate, rejected) == ReadForum(sources, excepts)
  {
    players, lastDate, rejected := map[], InitialLastDate, [];
    var k := 0;
    while k < |sources|
      invariant 0 <= k <= |sources|
      invariant Sources(ForumRead(players, lastDate, rejected), excepts, sources[k..]) == ReadForum(sources, excepts)
    {
      assert sources[k..][1..] == sources[k + 1..];
      var source := sources[k];
      var i := 0;
      while i < |source.blocks|
        invariant 0 <= i <= |source.blocks|
        invariant Sources(Blocks(ForumRead(players, lastDate, rejected), excepts, source.thread, source.page, source.blocks, i),
                          excepts, sources[k + 1..]) == ReadForum(sources, excepts)
      {
        var block := source.blocks[i];
        if !IsExcepted(excepts, source.thread, source.page, i) {
          var why := ValidateBlock(players, block);
          if why.Some? {
            rejected := rejected + [Locator(source.thread, source.page, i)];
          } else {
            var t := block.time.value;
            PassedLinesCommittable(players, t, block.lines);
            players := CommitBlock(players, t, block.lines);
            lastDate := Max(lastDate, t);
          }
        }
        i := i + 1;
      }
      k := k + 1;
    }
  }
}
