/** The relevance score: resonance boost plus confidence and urgency weights,
    minus an age decay. */
module Scoring {
  import opened MyceliumTypes
  import Fingerprint
  import Resonance

  const CONFIDENCE_WEIGHT: map<string, real> := map[
    "canonical" := 5.0,
    "proven" := 3.0,
    "hypothesis" := 2.0,
    "observation" := 1.0,
    "speculation" := 0.5]

  const URGENCY_WEIGHT: map<string, real> := map[
    "critical" := 4.0,
    "notable" := 2.0,
    "routine" := 0.0]

  /** Points lost per day of age. */
  const DECAY_PER_DAY: real := 0.05
  /** Points gained per recorded taste. */
  const RESONANCE_BOOST: real := 1.5

  /** The confidence weight: a missing key reads as "observation", a value
      outside the table weighs 1.0. */
  function ConfidenceWeight(c: Option<string>): (w: real)
    ensures c.None? ==> w == 1.0
    ensures c.Some? && c.value !in CONFIDENCE_WEIGHT ==> w == 1.0
    ensures c.Some? && c.value in CONFIDENCE_WEIGHT ==> w == CONFIDENCE_WEIGHT[c.value]
    ensures 0.5 <= w <= 5.0
  {
    var k := c.GetOr("observation");
    if k in CONFIDENCE_WEIGHT then CONFIDENCE_WEIGHT[k] else 1.0
  }

  /** The urgency weight: a missing key reads as "routine", a value outside
      the table weighs 0.0. */
  function UrgencyWeight(u: Option<string>): (w: real)
    ensures u.None? ==> w == 0.0
    ensures u.Some? && u.value !in URGENCY_WEIGHT ==> w == 0.0
    ensures u.Some? && u.value in URGENCY_WEIGHT ==> w == URGENCY_WEIGHT[u.value]
    ensures 0.0 <= w <= 4.0
  {
    var k := u.GetOr("routine");
    if k in URGENCY_WEIGHT then URGENCY_WEIGHT[k] else 0.0
  }

  /** Age in days of the entry's timestamp. A missing timestamp reads as the
      empty string, which never parses; a timestamp that does not parse
      (`ageOf` gives None) has age 0. */
  function AgeDays(e: Entry, env: Env): (a: real)
    ensures TsText(e) == "" ==> a == 0.0
    ensures env.ageOf(TsText(e)).None? ==> a == 0.0
    ensures TsText(e) != "" && env.ageOf(TsText(e)).Some? ==> a == env.ageOf(TsText(e)).value
  {
    if TsText(e) == "" then 0.0
    else match env.ageOf(TsText(e))
      case Some(d) => d
      case None => 0.0
  }

  /** The ledger's taste count for the entry's fingerprint, 0 without a row. */
  function TasteCount(e: Entry, ledger: Ledger, env: Env): int {
    Resonance.CountOr0(ledger, Fingerprint.EntryHash(e, env.md5))
  }

  /** `_score`. The part that taste count and age do not explain lies between
      0.5 (speculation, routine) and 9.0 (canonical, critical); an entry with
      neither confidence nor urgency scores 1.5 per taste plus 1.0 minus its
      age decay. */
  function Score(e: Entry, ledger: Ledger, env: Env): (s: real)
    ensures 0.5 <= s - TasteCount(e, ledger, env) as real * 1.5 + AgeDays(e, env) * 0.05 <= 9.0
    ensures e.confidence.None? && e.urgency.None? ==>
      s == TasteCount(e, ledger, env) as real * 1.5 + 1.0 - AgeDays(e, env) * 0.05
  {
    TasteCount(e, ledger, env) as real * RESONANCE_BOOST
    + ConfidenceWeight(e.confidence) + UrgencyWeight(e.urgency)
    - AgeDays(e, env) * DECAY_PER_DAY
  }

  /** More recorded tastes never lower the score. */
  lemma ScoreMonotoneInTastes(e: Entry, fewer: Ledger, more: Ledger, env: Env)
    requires TasteCount(e, fewer, env) <= TasteCount(e, more, env)
    ensures Score(e, fewer, env) <= Score(e, more, env)
    ensures Score(e, more, env) - Score(e, fewer, env)
      == (TasteCount(e, more, env) - TasteCount(e, fewer, env)) as real * 1.5
  {
  }

  /** A greater age never raises the score: each day costs 0.05. */
  lemma ScoreAntitoneInAge(e: Entry, ledger: Ledger, younger: Env, older: Env)
    requires younger.md5 == older.md5
    requires AgeDays(e, younger) <= AgeDays(e, older)
    ensures Score(e, ledger, older) <= Score(e, ledger, younger)
    ensures Score(e, ledger, younger) - Score(e, ledger, older)
      == (AgeDays(e, older) - AgeDays(e, younger)) * 0.05
  {
  }

  /** The score and fingerprint do not read the transient ranking keys, so
      adding or removing them changes neither. */
  lemma ScoreIgnoresRankingKeys(e: Entry, ledger: Ledger, env: Env, s: Option<real>, g: Option<real>)
    ensures Score(e.(internalScore := s, internalGhostScore := g), ledger, env) == Score(e, ledger, env)
    ensures Fingerprint.EntryHash(e.(internalScore := s, internalGhostScore := g), env.md5)
      == Fingerprint.EntryHash(e, env.md5)
  {
  }
}
