/**
 * The health scale and its step rule (sante.py `SANTE`, `new_health`,
 * `get_threshold`), plus the calendar-day function used for every
 * `.date()` difference.
 */
module Health {
  import opened Wrappers
  import opened Text

  /** Seconds since 1970-01-01 00:00:00; the source's naive datetimes. */
  type Timestamp = int

  /** `t.date()`: the whole day a timestamp falls in. */
  function Day(t: Timestamp): int {
    t / 86400
  }

  /** The 14 ranks, an index into `Sante`. */
  type Health = h: int | 0 <= h < 14

  const BORN: Health := 0
  const EXCELLENT: Health := 9
  const GOOD: Health := 10
  const BAD: Health := 11
  const DEATH_PENDING: Health := 12
  const DEAD: Health := 13

  /** The labels of the ranks, in rank order. */
  const Sante: seq<string> := [
    "né le <date>", "1er comptage", "2ème comptage", "3ème comptage", "4ème comptage",
    "5ème comptage", "6ème comptage", "7ème comptage", "8ème comptage",
    "Excellente santé", "Bonne santé", "Mauvaise santé", "Mort à venir", "Mort"]

  const BornPrefix: string := "né le "

  /** How a health label read from the forum is understood. */
  datatype Label = BornLabel | RankLabel(rank: Health)

  /**
   * A label starting with "né le " stands for a newborn; any other label must
   * be one of `Sante` (its position is the rank); anything else is refused,
   * as `SANTE.index` raises.
   */
  function LabelOf(text: string): (r: Option<Label>)
    ensures r == Some(BornLabel) <==> StartsWith(text, BornPrefix)
    ensures r.Some? && r.value.RankLabel? ==> Sante[r.value.rank] == text
    ensures r.None? ==> !StartsWith(text, BornPrefix)
    ensures r.Some? && r.value.RankLabel? ==> r.value.rank != BORN
  {
    SanteBornFirst();
    if StartsWith(text, BornPrefix) then Some(BornLabel)
    else match IndexOf(Sante, text)
      case None => None
      case Some(i) => Some(RankLabel(i))
  }

  lemma SanteBornFirst()
    ensures StartsWith(Sante[0], BornPrefix)
  {
    assert Sante[0][..|BornPrefix|] == BornPrefix;
  }

  /** The rank a label's first character and length point to; they tell the labels apart. */
  function RankOfKey(initial: char, length: nat): int {
    if initial == 'n' then 0
    else if '1' <= initial <= '8' then initial as int - '0' as int
    else if initial == 'E' then 9
    else if initial == 'B' then 10
    else if length == 14 then 11
    else if length == 12 then 12
    else 13
  }

  lemma SanteKey(h: Health)
    ensures |Sante[h]| > 0 && RankOfKey(Sante[h][0], |Sante[h]|) == h
  {
    if h == 0 {} else if h == 1 {} else if h == 2 {} else if h == 3 {} else if h == 4 {}
    else if h == 5 {} else if h == 6 {} else if h == 7 {} else if h == 8 {} else if h == 9 {}
    else if h == 10 {} else if h == 11 {} else if h == 12 {} else {}
  }

  /** Distinct ranks have distinct labels. */
  lemma SanteDistinct(k: Health, h: Health)
    requires k != h
    ensures Sante[k] != Sante[h]
  {
    SanteKey(k);
    SanteKey(h);
  }

  /** Only the first label reads as a birth. */
  lemma SanteNotBorn(h: Health)
    requires h != BORN
    ensures !StartsWith(Sante[h], BornPrefix)
  {
    SanteKey(h);
    assert Sante[h][0] != BornPrefix[0];
  }

  /** Every label but the first reads back as its own rank. */
  lemma LabelOfSante(h: Health)
    requires h != BORN
    ensures LabelOf(Sante[h]) == Some(RankLabel(h))
  {
    SanteNotBorn(h);
    var text := Sante[h];
    forall k | 0 <= k < h ensures Sante[k] != text {
      SanteDistinct(k, h);
    }
    assert IndexOf(Sante, text) == Some(h);
  }

  /** A newborn label, whatever date follows it, reads back as a newborn. */
  lemma LabelOfBorn(date: string)
    ensures LabelOf(BornPrefix + date) == Some(BornLabel)
  {
    assert (BornPrefix + date)[..|BornPrefix|] == BornPrefix;
  }

  datatype StepError = DeadHasNoSuccessor | MissingDice | MissingThreshold

  /**
   * `new_health`: the health that follows `health` given the optional dice
   * roll and threshold. Counting ranks always advance; death pending holds;
   * dead has no successor; the three probabilistic ranks advance exactly when
   * the dice is at most the threshold.
   */
  function NewHealth(health: Health, dice: Option<int>, threshold: Option<int>): (r: Result<Health, StepError>)
    ensures r.Ok? ==> r.value == health || r.value == health + 1
    ensures r.Ok? ==> r.value != DEAD
    ensures r.Err? <==> health == DEAD || (EXCELLENT <= health <= BAD && (dice.None? || threshold.None?))
    ensures health < EXCELLENT ==> r == Ok(health + 1)
    ensures health == DEATH_PENDING ==> r == Ok(DEATH_PENDING)
    ensures EXCELLENT <= health <= BAD && dice.Some? && threshold.Some? ==>
      (r == Ok(health + 1) <==> dice.value <= threshold.value) &&
      (r == Ok(health) <==> dice.value > threshold.value)
  {
    if health < EXCELLENT then Ok(health + 1)
    else if health == DEAD then Err(DeadHasNoSuccessor)
    else if health == DEATH_PENDING then Ok(health)
    else if dice.None? then Err(MissingDice)
    else if threshold.None? then Err(MissingThreshold)
    else Ok(health + (if dice.value <= threshold.value then 1 else 0))
  }

  /** `get_threshold`: the dice cutoff after `days` whole days since the last birth. */
  function GetThreshold(days: int): (r: int)
    ensures r % 3 == 0
    ensures days >= 0 ==> r >= 9
    ensures 0 <= days < 10 ==> r == 9
  {
    9 + 3 * (days / 10)
  }

  lemma ThresholdValues()
    ensures GetThreshold(0) == 9 && GetThreshold(9) == 9
    ensures GetThreshold(10) == 12 && GetThreshold(25) == 15
    ensures GetThreshold(-1) == 6
  {
  }

  /** The cutoff never decreases as the player ages. */
  lemma ThresholdMonotone(d1: int, d2: int)
    requires d1 <= d2
    ensures GetThreshold(d1) <= GetThreshold(d2)
  {
  }

  /** Each further ten days raise the cutoff by exactly 3. */
  lemma ThresholdStep(d: int)
    ensures GetThreshold(d + 10) == GetThreshold(d) + 3
  {
    assert (d + 10) / 10 == d / 10 + 1;
  }
}
