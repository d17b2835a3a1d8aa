/** `superpose`: branch weights are normalised in place, then a ghost
    record of the deliberation is built. */
module Superposition {
  import opened MyceliumTypes
  import Fingerprint
  import Scoring
  import Ghosts

  // ---------------------------------------------------------------------
  // Weights

  /** `sum(b.get("weight", 1) for b in branches)`: the present weights plus
      1 for each missing one. */
  function WeightTotal(bs: seq<Branch>): (t: real)
    ensures t == PresentTotal(bs) + MissingCount(bs) as real
    decreases |bs|
  {
    if bs == [] then 0.0 else bs[0].weight.GetOr(1.0) + WeightTotal(bs[1..])
  }

  /** The sum of the weights that are present (a missing one counts 0). */
  function PresentTotal(bs: seq<Branch>): real
    decreases |bs|
  {
    if bs == [] then 0.0 else bs[0].weight.GetOr(0.0) + PresentTotal(bs[1..])
  }

  /** How many branches have no weight. */
  function MissingCount(bs: seq<Branch>): nat
    decreases |bs|
  {
    if bs == [] then 0 else (if bs[0].weight.None? then 1 else 0) + MissingCount(bs[1..])
  }

  /** One branch after normalisation: `round(b.get("weight", 0) / total, 3)`. */
  function Share(b: Branch, total: real, round3: real -> real): Branch
    requires total != 0.0
  {
    b.(weight := Some(round3(b.weight.GetOr(0.0) / total)))
  }

  function Shares(bs: seq<Branch>, total: real, round3: real -> real): seq<Branch>
    requires total != 0.0
  {
    seq(|bs|, i requires 0 <= i < |bs| => Share(bs[i], total, round3))
  }

  /** The branches after normalisation. Every branch keeps its label and
      reasoning and the number of branches is unchanged; with a positive
      total every branch ends with its rounded share as weight, otherwise
      nothing changes. */
  function Normalized(bs: seq<Branch>, round3: real -> real): (r: seq<Branch>)
    ensures |r| == |bs|
    ensures forall i :: 0 <= i < |bs| ==>
      r[i].branchLabel == bs[i].branchLabel && r[i].reasoning == bs[i].reasoning
    ensures WeightTotal(bs) > 0.0 ==> forall i :: 0 <= i < |bs| ==>
      r[i].weight == Some(round3(bs[i].weight.GetOr(0.0) / WeightTotal(bs)))
    ensures WeightTotal(bs) <= 0.0 ==> r == bs
  {
    var total := WeightTotal(bs);
    if total > 0.0 then Shares(bs, total, round3) else bs
  }

  /** No rounding: the exact quotient. */
  function Exact(x: real): real { x }

  lemma SharesTail(bs: seq<Branch>, total: real, round3: real -> real)
    requires total != 0.0 && bs != []
    ensures Shares(bs, total, round3)[1..] == Shares(bs[1..], total, round3)
  {
  }

  /** Unrounded shares add up to the present weights over the total. */
  lemma {:induction false} ExactSharesSum(bs: seq<Branch>, total: real)
    requires total != 0.0
    ensures PresentTotal(Shares(bs, total, Exact)) == PresentTotal(bs) / total
    decreases |bs|
  {
    if bs != [] {
      SharesTail(bs, total, Exact);
      ExactSharesSum(bs[1..], total);
      var w := bs[0].weight.GetOr(0.0);
      assert (w + PresentTotal(bs[1..])) / total == w / total + PresentTotal(bs[1..]) / total;
    }
  }

  /** Without rounding, normalised weights sum to 1 when every branch has a
      weight, and to 1 - m / total when m of them have none (a missing
      weight counts 1 in the total but 0 in its own share). */
  lemma NormalizedSum(bs: seq<Branch>)
    requires WeightTotal(bs) > 0.0
    ensures PresentTotal(Normalized(bs, Exact))
      == 1.0 - MissingCount(bs) as real / WeightTotal(bs)
    ensures MissingCount(bs) == 0 ==> PresentTotal(Normalized(bs, Exact)) == 1.0
  {
    var t := WeightTotal(bs);
    ExactSharesSum(bs, t);
    SubtractedShare(PresentTotal(bs), MissingCount(bs) as real, t);
  }

  lemma SubtractedShare(p: real, m: real, t: real)
    requires t > 0.0 && p == t - m
    ensures p / t == 1.0 - m / t
  {
    assert (t - m) / t == t / t - m / t;
  }

  /** Rounding each share to within 0.0005 moves the sum by at most 0.0005
      per branch. */
  lemma {:induction false} RoundingDrift(bs: seq<Branch>, total: real, round3: real -> real)
    requires total != 0.0
    requires forall x :: round3(x) - x <= 0.0005 && x - round3(x) <= 0.0005
    ensures PresentTotal(Shares(bs, total, round3)) - PresentTotal(Shares(bs, total, Exact)) <= |bs| as real * 0.0005
    ensures PresentTotal(Shares(bs, total, Exact)) - PresentTotal(Shares(bs, total, round3)) <= |bs| as real * 0.0005
    decreases |bs|
  {
    if bs != [] {
      SharesTail(bs, total, round3);
      SharesTail(bs, total, Exact);
      RoundingDrift(bs[1..], total, round3);
      var q := bs[0].weight.GetOr(0.0) / total;
      assert Shares(bs, total, round3)[0].weight == Some(round3(q));
      assert Shares(bs, total, Exact)[0].weight == Some(q);
    }
  }

  /** With every weight given and a rounding that is off by at most 0.0005,
      the stored weights sum to 1 within 0.0005 per branch. */
  lemma NormalizedSumNearOne(bs: seq<Branch>, round3: real -> real)
    requires WeightTotal(bs) > 0.0 && MissingCount(bs) == 0
    requires forall x :: round3(x) - x <= 0.0005 && x - round3(x) <= 0.0005
    ensures PresentTotal(Normalized(bs, round3)) - 1.0 <= |bs| as real * 0.0005
    ensures 1.0 - PresentTotal(Normalized(bs, round3)) <= |bs| as real * 0.0005
  {
    NormalizedSum(bs);
    RoundingDrift(bs, WeightTotal(bs), round3);
  }

  /** The normalisation loop of `superpose`, on the caller's branch list. */
  method NormalizeWeights(branches: array<Branch>, round3: real -> real)
    modifies branches
    ensures branches[..] == Normalized(old(branches[..]), round3)
  {
    var total := WeightTotal(branches[..]);
    if total > 0.0 {
      var i := 0;
      while i < branches.Length
        invariant 0 <= i <= branches.Length
        invariant forall j :: 0 <= j < i ==> branches[j] == Share(old(branches[j]), total, round3)
        invariant forall j :: i <= j < branches.Length ==> branches[j] == old(branches[j])
      {
        branches[i] := Share(branches[i], total, round3);
        i := i + 1;
      }
    }
  }

  // ---------------------------------------------------------------------
  // The ghost record

  predicate IsDigit(c: char) { '0' <= c <= '9' }

  function Digit(d: nat): (c: char)
    requires d < 10
    ensures IsDigit(c) && c as int - '0' as int == d
  {
    ('0' as int + d) as char
  }

  /** The number a string of decimal digits denotes. */
  function DecimalValue(s: string): nat
    requires forall i :: 0 <= i < |s| ==> IsDigit(s[i])
    decreases |s|
  {
    if s == [] then 0
    else
      assert IsDigit(s[|s| - 1]);
      DecimalValue(s[..|s| - 1]) * 10 + (s[|s| - 1] as int - '0' as int)
  }

  /** Decimal digits of n, as `str(n)` writes them: at least one digit, no
      leading zero except for 0 itself, and they read back as n. */
  function NatToString(n: nat): (r: string)
    ensures |r| >= 1 && forall i :: 0 <= i < |r| ==> IsDigit(r[i])
    ensures n > 0 ==> r[0] != '0'
    ensures n == 0 ==> r == "0"
    ensures DecimalValue(r) == n
    decreases n
  {
    if n < 10 then
      assert [Digit(n)][..0] == [];
      [Digit(n)]
    else
      var p := NatToString(n / 10);
      assert (p + [Digit(n % 10)])[..|p|] == p;
      p + [Digit(n % 10)]
  }

  const SUMMARY_HEAD: string := "Ghost: "
  const SUMMARY_MIDDLE: string := " branches \U{2192} collapsed to '"

  /** The generated content: "Ghost: N branches → collapsed to 'X'". It
      opens with "Ghost: ", then the branch count in decimal (read back as n,
      and followed by a space, so the digit run ends there), and closes with
      the collapse target in single quotes. */
  function GhostSummary(n: nat, collapsedTo: string): (r: string)
    ensures var k := |SUMMARY_HEAD| + |NatToString(n)|;
      && k < |r| && r[..|SUMMARY_HEAD|] == SUMMARY_HEAD
      && (forall i :: |SUMMARY_HEAD| <= i < k ==> IsDigit(r[i]))
      && DecimalValue(r[|SUMMARY_HEAD|..k]) == n
      && !IsDigit(r[k])
    ensures |r| == |SUMMARY_HEAD| + |NatToString(n)| + |SUMMARY_MIDDLE| + |collapsedTo| + 1
    ensures r[|r| - |collapsedTo| - 1..] == collapsedTo + "'"
  {
    var d := NatToString(n);
    var r := SUMMARY_HEAD + d + SUMMARY_MIDDLE + collapsedTo + "'";
    assert r[|SUMMARY_HEAD|..|SUMMARY_HEAD| + |d|] == d;
    assert r[|SUMMARY_HEAD| + |d|] == SUMMARY_MIDDLE[0];
    assert r[|r| - |collapsedTo| - 1..] == collapsedTo + "'";
    r
  }

  /** The summary determines the branch count and the collapse target. */
  lemma GhostSummaryInjective(n1: nat, c1: string, n2: nat, c2: string)
    requires GhostSummary(n1, c1) == GhostSummary(n2, c2)
    ensures n1 == n2 && c1 == c2
  {
    var r := GhostSummary(n1, c1);
    var h := |SUMMARY_HEAD|;
    var k1 := h + |NatToString(n1)|;
    var k2 := h + |NatToString(n2)|;
    assert k1 == k2;
    assert |c1| == |c2|;
    assert c1 + "'" == c2 + "'";
    assert c1 == (c1 + "'")[..|c1|];
  }

  /** Two ghost records written by the same agent at the same instant,
      with the same number of branches and the same collapse target, share
      a fingerprint, whatever their domains, branches, reasons and
      urgencies. */
  lemma GhostFingerprintsCollide(agent: string, now: string, collapsedTo: string,
                                 d1: seq<string>, b1: seq<Branch>, r1: string, u1: string,
                                 d2: seq<string>, b2: seq<Branch>, r2: string, u2: string,
                                 md5: string -> string)
    requires |b1| == |b2|
    ensures Fingerprint.EntryHash(GhostRecord(agent, d1, b1, collapsedTo, r1, u1, now), md5)
         == Fingerprint.EntryHash(GhostRecord(agent, d2, b2, collapsedTo, r2, u2, now), md5)
  {
    Fingerprint.SameKeySameHash(GhostRecord(agent, d1, b1, collapsedTo, r1, u1, now),
                                GhostRecord(agent, d2, b2, collapsedTo, r2, u2, now), md5);
  }

  /** The record `superpose` writes, given its already normalised branches:
      a ghost entry by the agent, stamped now, with observation confidence
      and the caller's urgency, carrying the branches, the collapse target
      and its reason. */
  function GhostRecord(agent: string, domains: seq<string>, branches: seq<Branch>, collapsedTo: string,
                       collapseReason: string, urgency: string, now: string): (r: Entry)
    ensures r.kind == Some("ghost") && r.confidence == Some("observation")
    ensures r.agent == Some(agent) && TsText(r) == now && DomainTags(r) == domains
    ensures r.urgency == Some(urgency)
    ensures BranchList(r) == branches && r.collapsedTo == Some(collapsedTo)
    ensures r.collapseReason == Some(collapseReason)
    ensures ContentText(r) == GhostSummary(|branches|, collapsedTo)
    ensures Ghosts.GhostAdmits(r, domains)
  {
    assert domains != [] ==> domains[0] in domains;
    Entry(
      ts := Some(now),
      agent := Some(agent),
      domain := Some(domains),
      kind := Some("ghost"),
      urgency := Some(urgency),
      confidence := Some("observation"),
      content := Some(GhostSummary(|branches|, collapsedTo)),
      branches := Some(branches),
      collapsedTo := Some(collapsedTo),
      collapseReason := Some(collapseReason),
      internalScore := None,
      internalGhostScore := None)
  }

  /** A written ghost record is what `taste_ghosts` looks for: it passes the
      ghost filter exactly when the request names no domain or shares one of
      its tags, its confidence weighs 1.0, and every keyword found (case
      aside) in its collapse target is a hit. */
  lemma GhostRecordRetrievable(agent: string, domains: seq<string>, branches: seq<Branch>, collapsedTo: string,
                               collapseReason: string, urgency: string, now: string,
                               requested: seq<string>, kw: string)
    ensures var g := GhostRecord(agent, domains, branches, collapsedTo, collapseReason, urgency, now);
      && (Ghosts.GhostAdmits(g, requested) <==> requested == [] || exists d :: d in requested && d in domains)
      && Scoring.ConfidenceWeight(g.confidence) == 1.0
      && (Ghosts.Contains(Ghosts.Lower(collapsedTo), Ghosts.Lower(kw)) ==> Ghosts.Hits(g, kw))
  {
    var g := GhostRecord(agent, domains, branches, collapsedTo, collapseReason, urgency, now);
    if Ghosts.Contains(Ghosts.Lower(collapsedTo), Ghosts.Lower(kw)) {
      Ghosts.CollapseTargetHits(g, kw);
    }
  }

  /** `superpose`: normalises the caller's branches in place and returns the
      ghost record built from them (appending it to the log is not modelled). */
  method Superpose(agent: string, domains: seq<string>, branches: array<Branch>, collapsedTo: string,
                   now: string, round3: real -> real, collapseReason: string := "", urgency: string := "routine")
    returns (entry: Entry)
    modifies branches
    ensures branches[..] == Normalized(old(branches[..]), round3)
    ensures entry == GhostRecord(agent, domains, branches[..], collapsedTo, collapseReason, urgency, now)
    ensures entry.kind == Some("ghost") && entry.confidence == Some("observation")
  {
    NormalizeWeights(branches, round3);
    entry := GhostRecord(agent, domains, branches[..], collapsedTo, collapseReason, urgency, now);
  }
}
