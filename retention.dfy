/** `prune`: splits the log into the lines it keeps and the entries it drops.
    An entry is dropped only when it is neither canonical nor critical, its
    score is below the threshold and it is older than the given number of
    days. */
module Retention {
  import opened MyceliumTypes
  import Scoring

  /** A line that survives: an undecodable line is kept as its text, a
      decoded entry as the entry (re-encoded when the log is rewritten). */
  datatype Survivor = Raw(text: string) | Record(entry: Entry)

  /** Canonical and critical memories are never pruned. */
  predicate Exempt(e: Entry)
    ensures Exempt(e) <==>
      Scoring.ConfidenceWeight(e.confidence) == 5.0 || Scoring.UrgencyWeight(e.urgency) == 4.0
  {
    e.confidence == Some("canonical") || e.urgency == Some("critical")
  }

  /** The pruning rule for one decoded entry. A condemned entry weighs less
      than the canonical 5.0 for confidence and less than the critical 4.0 for
      urgency, so its taste count and age alone keep its score below the
      threshold. */
  predicate Condemned(e: Entry, ledger: Ledger, env: Env, minResonance: real, olderThanDays: int)
    ensures Condemned(e, ledger, env, minResonance, olderThanDays) ==>
      Scoring.ConfidenceWeight(e.confidence) < 5.0 && Scoring.UrgencyWeight(e.urgency) < 4.0
      && Scoring.TasteCount(e, ledger, env) as real * 1.5 - Scoring.AgeDays(e, env) * 0.05 < minResonance - 0.5
  {
    !Exempt(e)
    && Scoring.Score(e, ledger, env) < minResonance
    && Scoring.AgeDays(e, env) > olderThanDays as real
  }

  /** An entry whose timestamp is missing, does not parse or has no UTC
      offset counts as 0 days old, so no non-negative day limit prunes it,
      whatever its score. */
  lemma UndatedNeverCondemned(e: Entry, ledger: Ledger, env: Env, minResonance: real, olderThanDays: int)
    requires olderThanDays >= 0
    requires TsText(e) == "" || env.ageOf(TsText(e)).None?
    ensures !Condemned(e, ledger, env, minResonance, olderThanDays)
  {
  }

  /** What one line contributes to the kept list. */
  function KeepLine(line: Line, ledger: Ledger, env: Env, minResonance: real, olderThanDays: int): seq<Survivor> {
    if line.Garbled? then [Raw(line.text)]
    else if line.Decoded? && !Condemned(line.entry, ledger, env, minResonance, olderThanDays) then [Record(line.entry)]
    else []
  }

  /** What one line contributes to the pruned list. */
  function PruneLine(line: Line, ledger: Ledger, env: Env, minResonance: real, olderThanDays: int): seq<Entry> {
    if line.Decoded? && Condemned(line.entry, ledger, env, minResonance, olderThanDays) then [line.entry] else []
  }

  /** The kept list for a log, in log order. */
  function Kept(lines: seq<Line>, ledger: Ledger, env: Env, minResonance: real, olderThanDays: int): seq<Survivor> {
    Scan(lines, l => KeepLine(l, ledger, env, minResonance, olderThanDays))
  }

  /** The pruned list for a log, in log order. */
  function Pruned(lines: seq<Line>, ledger: Ledger, env: Env, minResonance: real, olderThanDays: int): seq<Entry> {
    Scan(lines, l => PruneLine(l, ledger, env, minResonance, olderThanDays))
  }

  /** The number of lines that are not blank. */
  function NonBlank(lines: seq<Line>): nat
    decreases |lines|
  {
    if lines == [] then 0
    else NonBlank(lines[..|lines| - 1]) + (if lines[|lines| - 1].Blank? then 0 else 1)
  }

  lemma KeptStep(lines: seq<Line>, i: nat, ledger: Ledger, env: Env, minResonance: real, olderThanDays: int)
    requires i < |lines|
    ensures Kept(lines[..i + 1], ledger, env, minResonance, olderThanDays)
      == Kept(lines[..i], ledger, env, minResonance, olderThanDays) + KeepLine(lines[i], ledger, env, minResonance, olderThanDays)
    ensures Pruned(lines[..i + 1], ledger, env, minResonance, olderThanDays)
      == Pruned(lines[..i], ledger, env, minResonance, olderThanDays) + PruneLine(lines[i], ledger, env, minResonance, olderThanDays)
  {
    assert lines[..i + 1][..i] == lines[..i];
  }

  /** Every non-blank line lands on exactly one side. */
  lemma {:induction false} PartitionCount(lines: seq<Line>, ledger: Ledger, env: Env, minResonance: real, olderThanDays: int)
    ensures |Kept(lines, ledger, env, minResonance, olderThanDays)| + |Pruned(lines, ledger, env, minResonance, olderThanDays)|
      == NonBlank(lines)
    decreases |lines|
  {
    if lines != [] {
      PartitionCount(lines[..|lines| - 1], ledger, env, minResonance, olderThanDays);
    }
  }

  /** Pruning a log in two pieces gives the pieces' results concatenated:
      both lists keep the log's order. */
  lemma PruneAppend(a: seq<Line>, b: seq<Line>, ledger: Ledger, env: Env, minResonance: real, olderThanDays: int)
    ensures Kept(a + b, ledger, env, minResonance, olderThanDays)
      == Kept(a, ledger, env, minResonance, olderThanDays) + Kept(b, ledger, env, minResonance, olderThanDays)
    ensures Pruned(a + b, ledger, env, minResonance, olderThanDays)
      == Pruned(a, ledger, env, minResonance, olderThanDays) + Pruned(b, ledger, env, minResonance, olderThanDays)
  {
    ScanAppend(a, b, l => KeepLine(l, ledger, env, minResonance, olderThanDays));
    ScanAppend(a, b, l => PruneLine(l, ledger, env, minResonance, olderThanDays));
  }

  /** Everything pruned was decoded from the log and meets the rule, so it is
      neither canonical nor critical, scores below the threshold and is older
      than the limit. */
  lemma {:induction false} PrunedSound(lines: seq<Line>, ledger: Ledger, env: Env, minResonance: real, olderThanDays: int)
    ensures forall e :: e in Pruned(lines, ledger, env, minResonance, olderThanDays) ==>
      Decoded(e) in lines
      && e.confidence != Some("canonical") && e.urgency != Some("critical")
      && Scoring.Score(e, ledger, env) < minResonance
      && Scoring.AgeDays(e, env) > olderThanDays as real
    decreases |lines|
  {
    if lines != [] {
      var init := lines[..|lines| - 1];
      PrunedSound(init, ledger, env, minResonance, olderThanDays);
      assert forall l :: l in init ==> l in lines;
    }
  }

  /** Every decoded entry that meets the rule is pruned; every other decoded
      entry and every undecodable line is kept. */
  lemma {:induction false} PruneComplete(lines: seq<Line>, ledger: Ledger, env: Env, minResonance: real, olderThanDays: int)
    ensures forall i :: 0 <= i < |lines| && lines[i].Decoded? ==>
      if Condemned(lines[i].entry, ledger, env, minResonance, olderThanDays)
      then lines[i].entry in Pruned(lines, ledger, env, minResonance, olderThanDays)
      else Record(lines[i].entry) in Kept(lines, ledger, env, minResonance, olderThanDays)
    ensures forall i :: 0 <= i < |lines| && lines[i].Garbled? ==>
      Raw(lines[i].text) in Kept(lines, ledger, env, minResonance, olderThanDays)
    decreases |lines|
  {
    if lines != [] {
      var n := |lines| - 1;
      var init := lines[..n];
      PruneComplete(init, ledger, env, minResonance, olderThanDays);
      assert forall i :: 0 <= i < n ==> lines[i] == init[i];
    }
  }

  /** A kept line read back as a log line: the raw text still does not
      decode, the re-encoded entry decodes to itself. */
  function Reread(k: Survivor): Line {
    match k
    case Raw(t) => Garbled(t)
    case Record(e) => Decoded(e)
  }

  function RereadAll(ks: seq<Survivor>): seq<Line> {
    seq(|ks|, i requires 0 <= i < |ks| => Reread(ks[i]))
  }

  /** Pruning again with the same ledger, clock and thresholds drops nothing
      and keeps everything. */
  lemma {:induction false} PruneIdempotent(lines: seq<Line>, ledger: Ledger, env: Env, minResonance: real, olderThanDays: int)
    ensures var ks := Kept(lines, ledger, env, minResonance, olderThanDays);
      && Pruned(RereadAll(ks), ledger, env, minResonance, olderThanDays) == []
      && Kept(RereadAll(ks), ledger, env, minResonance, olderThanDays) == ks
    decreases |lines|
  {
    if lines != [] {
      var init := lines[..|lines| - 1];
      var last := lines[|lines| - 1];
      PruneIdempotent(init, ledger, env, minResonance, olderThanDays);
      var ks0 := Kept(init, ledger, env, minResonance, olderThanDays);
      var ks1 := KeepLine(last, ledger, env, minResonance, olderThanDays);
      assert RereadAll(ks0 + ks1) == RereadAll(ks0) + RereadAll(ks1);
      PruneAppend(RereadAll(ks0), RereadAll(ks1), ledger, env, minResonance, olderThanDays);
      if ks1 != [] {
        assert RereadAll(ks1) == [Reread(ks1[0])];
        assert RereadAll(ks1)[..0] == [];
      }
    }
  }

  /** A looser rule prunes a superset: anything pruned with a threshold and
      an age limit is also pruned with a higher threshold or a lower limit. */
  lemma PruneMonotone(lines: seq<Line>, ledger: Ledger, env: Env, m1: real, m2: real, d1: int, d2: int)
    requires m1 <= m2 && d2 <= d1
    ensures forall e :: e in Pruned(lines, ledger, env, m1, d1) ==> e in Pruned(lines, ledger, env, m2, d2)
  {
    PrunedSound(lines, ledger, env, m1, d1);
    forall e | e in Pruned(lines, ledger, env, m1, d1)
      ensures e in Pruned(lines, ledger, env, m2, d2)
    {
      var i :| 0 <= i < |lines| && lines[i] == Decoded(e);
      PruneComplete(lines, ledger, env, m2, d2);
    }
  }

  /** `prune`: one pass over the log. Returns the kept lines, the pruned
      entries and whether the log is rewritten (only on a live run that
      pruned something). A missing log is an empty one. */
  method Prune(lines: seq<Line>, ledger: Ledger, env: Env,
               minResonance: real := 0.5, olderThanDays: int := 30, dryRun: bool := true)
    returns (keep: seq<Survivor>, pruned: seq<Entry>, rewrite: bool)
    ensures keep == Kept(lines, ledger, env, minResonance, olderThanDays)
    ensures pruned == Pruned(lines, ledger, env, minResonance, olderThanDays)
    ensures |keep| + |pruned| == NonBlank(lines)
    ensures forall e :: e in pruned ==> !Exempt(e)
    ensures rewrite <==> !dryRun && pruned != []
  {
    keep := [];
    pruned := [];
    var i := 0;
    while i < |lines|
      invariant 0 <= i <= |lines|
      invariant keep == Kept(lines[..i], ledger, env, minResonance, olderThanDays)
      invariant pruned == Pruned(lines[..i], ledger, env, minResonance, olderThanDays)
    {
      KeptStep(lines, i, ledger, env, minResonance, olderThanDays);
      if lines[i].Garbled? {
        keep := keep + [Raw(lines[i].text)];
      } else if lines[i].Decoded? {
        var e := lines[i].entry;
        if Exempt(e) {
          keep := keep + [Record(e)];
        } else if Scoring.Score(e, ledger, env) < minResonance && Scoring.AgeDays(e, env) > olderThanDays as real {
          pruned := pruned + [e];
        } else {
          keep := keep + [Record(e)];
        }
      }
      i := i + 1;
    }
    assert lines[..i] == lines;
    PartitionCount(lines, ledger, env, minResonance, olderThanDays);
    PrunedSound(lines, ledger, env, minResonance, olderThanDays);
    rewrite := !dryRun && pruned != [];
  }
}
