/** `_ghost_match_score` and `taste_ghosts`: retrieval of deliberation
    records, ranked by how many context keywords their text mentions and by
    their base score. */
module Ghosts {
  import opened MyceliumTypes
  import Fingerprint
  import Resonance
  import Scoring
  import Ranking
  import Retrieval

  /** How many ghost records `taste_ghosts` returns unless told otherwise. */
  const GHOST_LIMIT: int := 5
  /** The match score when no keyword is given. */
  const NEUTRAL_MATCH: real := 0.5

  // ---------------------------------------------------------------------
  // Text

  /** Lower-casing of one character (ASCII letters only). */
  function LowerChar(c: char): char {
    if 'A' <= c <= 'Z' then (c as int + 32) as char else c
  }

  function Lower(s: string): (r: string)
    ensures |r| == |s|
    ensures forall i :: 0 <= i < |s| ==> r[i] == LowerChar(s[i])
  {
    seq(|s|, i requires 0 <= i < |s| => LowerChar(s[i]))
  }

  lemma LowerAppend(a: string, b: string)
    ensures Lower(a + b) == Lower(a) + Lower(b)
  {
  }

  /** `sep.join(parts)`. */
  function Join(sep: string, parts: seq<string>): string
    decreases |parts|
  {
    if parts == [] then ""
    else if |parts| == 1 then parts[0]
    else parts[0] + sep + Join(sep, parts[1..])
  }

  predicate StartsWith(s: string, prefix: string) {
    |prefix| <= |s| && s[..|prefix|] == prefix
  }

  /** Python's `needle in hay` on strings: some position of `hay` starts
      with `needle` (so the empty needle is in every string). */
  predicate Contains(hay: string, needle: string)
    decreases |hay|
  {
    StartsWith(hay, needle) || (hay != [] && Contains(hay[1..], needle))
  }

  lemma {:induction false} ContainsExtendRight(hay: string, needle: string, suffix: string)
    requires Contains(hay, needle)
    ensures Contains(hay + suffix, needle)
    decreases |hay|
  {
    if StartsWith(hay, needle) {
      assert (hay + suffix)[..|needle|] == hay[..|needle|];
    } else {
      assert (hay + suffix)[1..] == hay[1..] + suffix;
      ContainsExtendRight(hay[1..], needle, suffix);
    }
  }

  lemma {:induction false} ContainsExtendLeft(prefix: string, hay: string, needle: string)
    requires Contains(hay, needle)
    ensures Contains(prefix + hay, needle)
    decreases |prefix|
  {
    if prefix == [] {
      assert prefix + hay == hay;
    } else {
      assert (prefix + hay)[1..] == prefix[1..] + hay;
      ContainsExtendLeft(prefix[1..], hay, needle);
    }
  }

  /** A string found in a part of a text is found in the text. */
  lemma ContainsInfix(prefix: string, hay: string, suffix: string, needle: string)
    requires Contains(hay, needle)
    ensures Contains(prefix + hay + suffix, needle)
  {
    ContainsExtendRight(hay, needle, suffix);
    ContainsExtendLeft(prefix, hay + suffix, needle);
    assert prefix + (hay + suffix) == prefix + hay + suffix;
  }

  // ---------------------------------------------------------------------
  // Keyword match

  function Labels(bs: seq<Branch>): seq<string> {
    seq(|bs|, i requires 0 <= i < |bs| => bs[i].branchLabel.GetOr(""))
  }

  function Reasonings(bs: seq<Branch>): seq<string> {
    seq(|bs|, i requires 0 <= i < |bs| => bs[i].reasoning.GetOr(""))
  }

  /** The text a keyword is looked for in, lower-cased: branch labels,
      branch reasonings, collapse target, collapse reason and domain tags,
      joined by single spaces. It holds no upper-case ASCII letter, so
      lower-casing it again changes nothing. */
  function GhostText(g: Entry): (t: string)
    ensures forall i :: 0 <= i < |t| ==> !('A' <= t[i] <= 'Z')
    ensures Lower(t) == t
  {
    Lower(Join(" ", [
      Join(" ", Labels(BranchList(g))),
      Join(" ", Reasonings(BranchList(g))),
      g.collapsedTo.GetOr(""),
      g.collapseReason.GetOr(""),
      Join(" ", DomainTags(g))]))
  }

  /** The keyword, lower-cased, occurs in the ghost's text. */
  predicate Hits(g: Entry, kw: string) {
    Contains(GhostText(g), Lower(kw))
  }

  /** How many of the keywords (repeats counted) hit. */
  function MatchCount(g: Entry, kws: seq<string>): nat
    decreases |kws|
  {
    if kws == [] then 0 else (if Hits(g, kws[0]) then 1 else 0) + MatchCount(g, kws[1..])
  }

  /** `_ghost_match_score`: 0.5 without keywords, otherwise the share of
      keywords that hit. */
  function MatchScore(g: Entry, kws: seq<string>): (m: real)
    ensures kws == [] ==> m == NEUTRAL_MATCH
    ensures kws != [] ==> m * |kws| as real == MatchCount(g, kws) as real
  {
    if kws == [] then NEUTRAL_MATCH
    else MatchCount(g, kws) as real / (if |kws| >= 1 then |kws| else 1) as real
  }

  /** The hit count is at most the number of keywords; it is that number
      exactly when every keyword hits, and 0 exactly when none does. */
  lemma {:induction false} MatchCountSpec(g: Entry, kws: seq<string>)
    ensures MatchCount(g, kws) <= |kws|
    ensures MatchCount(g, kws) == |kws| <==> forall k :: k in kws ==> Hits(g, k)
    ensures MatchCount(g, kws) == 0 <==> forall k :: k in kws ==> !Hits(g, k)
    decreases |kws|
  {
    if kws != [] {
      MatchCountSpec(g, kws[1..]);
      assert forall k :: k in kws <==> k == kws[0] || k in kws[1..];
    }
  }

  /** The match score is 0.5 without keywords and otherwise lies in [0, 1]:
      1 exactly when every keyword hits, 0 exactly when none does. */
  lemma MatchScoreSpec(g: Entry, kws: seq<string>)
    ensures kws == [] ==> MatchScore(g, kws) == 0.5
    ensures kws != [] ==> 0.0 <= MatchScore(g, kws) <= 1.0
    ensures kws != [] ==> (MatchScore(g, kws) == 1.0 <==> forall k :: k in kws ==> Hits(g, k))
    ensures kws != [] ==> (MatchScore(g, kws) == 0.0 <==> forall k :: k in kws ==> !Hits(g, k))
  {
    MatchCountSpec(g, kws);
    if kws != [] {
      Ratio(MatchCount(g, kws), |kws|);
    }
  }

  /** A count out of a positive total, as a share. */
  lemma Ratio(m: nat, n: nat)
    requires 0 < n && m <= n
    ensures 0.0 <= m as real / n as real <= 1.0
    ensures m as real / n as real == 1.0 <==> m == n
    ensures m as real / n as real == 0.0 <==> m == 0
  {
    var q := m as real / n as real;
    assert q * n as real == m as real;
  }

  /** Two records with the same text match the same keywords. */
  lemma {:induction false} MatchCountSameText(g1: Entry, g2: Entry, kws: seq<string>)
    requires GhostText(g1) == GhostText(g2)
    ensures MatchCount(g1, kws) == MatchCount(g2, kws)
    decreases |kws|
  {
    if kws != [] { MatchCountSameText(g1, g2, kws[1..]); }
  }

  /** The ranking key does not read the transient ranking keys. */
  lemma GhostKeyIgnoresRankingKeys(e: Entry, kws: seq<string>, ledger: Ledger, env: Env, s: Option<real>, g: Option<real>)
    ensures GhostKey(e.(internalScore := s, internalGhostScore := g), kws, ledger, env) == GhostKey(e, kws, ledger, env)
  {
    var e' := e.(internalScore := s, internalGhostScore := g);
    assert GhostText(e') == GhostText(e);
    MatchCountSameText(e', e, kws);
    Scoring.ScoreIgnoresRankingKeys(e, ledger, env, s, g);
  }

  /** A keyword found, case aside, in the collapse target is a hit. */
  lemma CollapseTargetHits(g: Entry, kw: string)
    requires Contains(Lower(g.collapsedTo.GetOr("")), Lower(kw))
    ensures Hits(g, kw)
  {
    var a := Join(" ", Labels(BranchList(g)));
    var b := Join(" ", Reasonings(BranchList(g)));
    var c := g.collapsedTo.GetOr("");
    var d := g.collapseReason.GetOr("");
    var e := Join(" ", DomainTags(g));
    var parts := [a, b, c, d, e];
    assert Join(" ", parts) == a + " " + (b + " " + (c + " " + (d + " " + e))) by {
      assert Join(" ", [d, e]) == d + " " + e by { assert [d, e][1..] == [e]; }
      assert Join(" ", [c, d, e]) == c + " " + Join(" ", [d, e]) by { assert [c, d, e][1..] == [d, e]; }
      assert Join(" ", [b, c, d, e]) == b + " " + Join(" ", [c, d, e]) by { assert [b, c, d, e][1..] == [c, d, e]; }
      assert parts[1..] == [b, c, d, e];
    }
    var pre := a + " " + b + " ";
    var post := " " + d + " " + e;
    assert Join(" ", parts) == pre + c + post;
    LowerAppend(pre + c, post);
    LowerAppend(pre, c);
    ContainsInfix(Lower(pre), Lower(c), Lower(post), Lower(kw));
  }

  // ---------------------------------------------------------------------
  // Ranking of ghost records

  /** `context_keywords or domains`: an absent or empty keyword list falls
      back to the requested domains. */
  function EffectiveKeywords(keywords: Option<seq<string>>, domains: seq<string>): (kws: seq<string>)
    ensures keywords.Some? && keywords.value != [] ==> kws == keywords.value
    ensures keywords.None? || keywords.value == [] ==> kws == domains
  {
    match keywords
    case Some(k) => if k != [] then k else domains
    case None => domains
  }

  /** `taste_ghosts` keeps ghost records of the requested domains, whoever
      wrote them. */
  predicate GhostAdmits(e: Entry, domains: seq<string>) {
    e.kind == Some("ghost") && Retrieval.DomainMatch(e, domains)
  }

  /** The ranking key: twice the match score plus 0.3 of the base score.
      Without keywords the match adds a flat 1.0; with keywords it adds
      between 0 and 2, the full 2 exactly when every keyword hits. */
  function GhostKey(e: Entry, kws: seq<string>, ledger: Ledger, env: Env): (k: real)
    ensures kws == [] ==> k == 1.0 + Scoring.Score(e, ledger, env) * 0.3
    ensures kws != [] ==> Scoring.Score(e, ledger, env) * 0.3 <= k <= Scoring.Score(e, ledger, env) * 0.3 + 2.0
    ensures kws != [] ==>
      (k == Scoring.Score(e, ledger, env) * 0.3 + 2.0 <==> forall kw :: kw in kws ==> Hits(e, kw))
  {
    MatchScoreSpec(e, kws);
    MatchScore(e, kws) * 2.0 + Scoring.Score(e, ledger, env) * 0.3
  }

  /** The candidate with its "_ghost_score" key set. */
  function GhostScored(e: Entry, kws: seq<string>, ledger: Ledger, env: Env): Entry {
    e.(internalGhostScore := Some(GhostKey(e, kws, ledger, env)))
  }

  /** What one line contributes to the ghost candidates. */
  function GhostPick(line: Line, domains: seq<string>, kws: seq<string>, ledger: Ledger, env: Env): seq<Entry> {
    if line.Decoded? && GhostAdmits(line.entry, domains) then [GhostScored(line.entry, kws, ledger, env)] else []
  }

  /** The ghost candidates of a log, in file order. */
  function GhostCandidates(lines: seq<Line>, domains: seq<string>, kws: seq<string>, ledger: Ledger, env: Env): seq<Entry> {
    Scan(lines, l => GhostPick(l, domains, kws, ledger, env))
  }

  lemma GhostCandidatesStep(lines: seq<Line>, i: nat, domains: seq<string>, kws: seq<string>, ledger: Ledger, env: Env)
    requires i < |lines|
    ensures GhostCandidates(lines[..i + 1], domains, kws, ledger, env)
      == GhostCandidates(lines[..i], domains, kws, ledger, env) + GhostPick(lines[i], domains, kws, ledger, env)
  {
    assert lines[..i + 1] == lines[..i] + [lines[i]];
    ScanSnoc(lines[..i], lines[i], l => GhostPick(l, domains, kws, ledger, env));
  }

  /** The sort key `g.get("_ghost_score", 0)`. */
  function GhostRankKey(e: Entry): real {
    e.internalGhostScore.GetOr(0.0)
  }

  function StripGhost(s: seq<Entry>): seq<Entry> {
    seq(|s|, i requires 0 <= i < |s| => s[i].(internalGhostScore := None))
  }

  /** What `taste_ghosts` returns. */
  function GhostResult(lines: seq<Line>, domains: seq<string>, keywords: Option<seq<string>>, limit: int, ledger: Ledger, env: Env): seq<Entry> {
    var kws := EffectiveKeywords(keywords, domains);
    StripGhost(PyPrefix(Ranking.SortDesc(GhostCandidates(lines, domains, kws, ledger, env), GhostRankKey), limit))
  }

  /** The ghost record of some decoded line, "_ghost_score" aside. */
  ghost predicate GhostFromLog(e: Entry, lines: seq<Line>) {
    exists p :: 0 <= p < |lines| && lines[p].Decoded? && e == lines[p].entry.(internalGhostScore := None)
  }

  /** Every ghost candidate is the scored record of a decoded ghost line of a
      requested domain. */
  lemma {:induction false} GhostCandidatesSound(lines: seq<Line>, domains: seq<string>, kws: seq<string>, ledger: Ledger, env: Env)
    ensures forall c :: c in GhostCandidates(lines, domains, kws, ledger, env) ==>
      exists p :: 0 <= p < |lines| && lines[p].Decoded? && GhostAdmits(lines[p].entry, domains) &&
        c == GhostScored(lines[p].entry, kws, ledger, env)
    decreases |lines|
  {
    if lines != [] {
      var init := lines[..|lines| - 1];
      var last := lines[|lines| - 1];
      GhostCandidatesSound(init, domains, kws, ledger, env);
      forall c | c in GhostCandidates(lines, domains, kws, ledger, env)
        ensures exists p :: (0 <= p < |lines| && lines[p].Decoded? && GhostAdmits(lines[p].entry, domains) &&
                             c == GhostScored(lines[p].entry, kws, ledger, env))
      {
        if c in GhostCandidates(init, domains, kws, ledger, env) {
          var p :| 0 <= p < |init| && init[p].Decoded? && GhostAdmits(init[p].entry, domains) &&
            c == GhostScored(init[p].entry, kws, ledger, env);
          assert lines[p] == init[p];
        } else {
          assert last.Decoded? && GhostAdmits(last.entry, domains) && c == GhostScored(last.entry, kws, ledger, env);
        }
      }
    }
  }

  /** Every decoded ghost line of a requested domain yields a candidate,
      whichever agent wrote it. */
  lemma {:induction false} GhostCandidatesComplete(lines: seq<Line>, domains: seq<string>, kws: seq<string>, ledger: Ledger, env: Env)
    ensures forall p :: 0 <= p < |lines| && lines[p].Decoded? && GhostAdmits(lines[p].entry, domains) ==>
      GhostScored(lines[p].entry, kws, ledger, env) in GhostCandidates(lines, domains, kws, ledger, env)
    decreases |lines|
  {
    if lines != [] {
      var init := lines[..|lines| - 1];
      GhostCandidatesComplete(init, domains, kws, ledger, env);
      forall p | 0 <= p < |lines| && lines[p].Decoded? && GhostAdmits(lines[p].entry, domains)
        ensures GhostScored(lines[p].entry, kws, ledger, env) in GhostCandidates(lines, domains, kws, ledger, env)
      {
        if p < |init| { assert init[p] == lines[p]; }
      }
    }
  }

  lemma GhostCandidateFacts(lines: seq<Line>, domains: seq<string>, kws: seq<string>, ledger: Ledger, env: Env)
    ensures forall c :: c in GhostCandidates(lines, domains, kws, ledger, env) ==>
      && GhostAdmits(c, domains)
      && c.internalGhostScore == Some(GhostKey(c, kws, ledger, env))
      && GhostFromLog(c.(internalGhostScore := None), lines)
  {
    GhostCandidatesSound(lines, domains, kws, ledger, env);
    forall c | c in GhostCandidates(lines, domains, kws, ledger, env)
      ensures GhostAdmits(c, domains)
      ensures c.internalGhostScore == Some(GhostKey(c, kws, ledger, env))
      ensures GhostFromLog(c.(internalGhostScore := None), lines)
    {
      var p :| 0 <= p < |lines| && lines[p].Decoded? && GhostAdmits(lines[p].entry, domains) &&
        c == GhostScored(lines[p].entry, kws, ledger, env);
      GhostKeyIgnoresRankingKeys(lines[p].entry, kws, ledger, env, c.internalScore, c.internalGhostScore);
      assert c.(internalGhostScore := None) == lines[p].entry.(internalGhostScore := None);
    }
  }

  /** `taste_ghosts` returns at most `limit` records: exactly min(limit,
      number of ghost candidates) for a non-negative limit. */
  lemma GhostResultLength(lines: seq<Line>, domains: seq<string>, keywords: Option<seq<string>>, limit: int, ledger: Ledger, env: Env)
    requires limit >= 0
    ensures var n := |GhostCandidates(lines, domains, EffectiveKeywords(keywords, domains), ledger, env)|;
      |GhostResult(lines, domains, keywords, limit, ledger, env)| == if n <= limit then n else limit
  {
  }

  /** `taste_ghosts` returns ghost records of the requested domains, highest
      key first, none carrying "_ghost_score". */
  lemma GhostResultSpec(lines: seq<Line>, domains: seq<string>, keywords: Option<seq<string>>, limit: int, ledger: Ledger, env: Env)
    ensures var top := GhostResult(lines, domains, keywords, limit, ledger, env);
      var kws := EffectiveKeywords(keywords, domains);
      && (forall i, j :: 0 <= i < j < |top| ==> GhostKey(top[i], kws, ledger, env) >= GhostKey(top[j], kws, ledger, env))
      && (forall e :: e in top ==> e.internalGhostScore.None? && GhostAdmits(e, domains) && GhostFromLog(e, lines))
  {
    var kws := EffectiveKeywords(keywords, domains);
    var cands := GhostCandidates(lines, domains, kws, ledger, env);
    GhostCandidateFacts(lines, domains, kws, ledger, env);
    Retrieval.RankedPrefixMembers(cands, GhostRankKey, limit);
    var sorted := Ranking.SortDesc(cands, GhostRankKey);
    var chosen := PyPrefix(sorted, limit);
    var top := StripGhost(chosen);
    assert forall i :: 0 <= i < |chosen| ==> chosen[i] == sorted[i];
    forall i | 0 <= i < |chosen|
      ensures GhostKey(top[i], kws, ledger, env) == GhostRankKey(chosen[i])
      ensures top[i].internalGhostScore.None? && GhostAdmits(top[i], domains) && GhostFromLog(top[i], lines)
    {
      assert chosen[i] in chosen;
      GhostKeyIgnoresRankingKeys(chosen[i], kws, ledger, env, chosen[i].internalScore, None);
    }
  }

  /** With every keyword hitting one ghost and none hitting another, the
      first outranks the second unless its base score trails by 20/3 or more. */
  lemma MatchingGhostOutranks(g1: Entry, g2: Entry, kws: seq<string>, ledger: Ledger, env: Env)
    requires kws != []
    requires forall k :: k in kws ==> Hits(g1, k)
    requires forall k :: k in kws ==> !Hits(g2, k)
    requires Scoring.Score(g2, ledger, env) - Scoring.Score(g1, ledger, env) < 20.0 / 3.0
    ensures GhostKey(g1, kws, ledger, env) > GhostKey(g2, kws, ledger, env)
  {
    MatchScoreSpec(g1, kws);
    MatchScoreSpec(g2, kws);
  }

  /** `taste_ghosts` returns the top `limit` ghost candidates: every
      candidate it leaves out has a ranking key no higher than every
      candidate it returns. */
  lemma GhostTopK(lines: seq<Line>, domains: seq<string>, keywords: Option<seq<string>>, limit: int, ledger: Ledger, env: Env)
    ensures var cands := GhostCandidates(lines, domains, EffectiveKeywords(keywords, domains), ledger, env);
      var chosen := PyPrefix(Ranking.SortDesc(cands, GhostRankKey), limit);
      forall c, t :: c in cands && c !in chosen && t in chosen ==>
        GhostKey(c, EffectiveKeywords(keywords, domains), ledger, env)
        <= GhostKey(t, EffectiveKeywords(keywords, domains), ledger, env)
  {
    var kws := EffectiveKeywords(keywords, domains);
    var cands := GhostCandidates(lines, domains, kws, ledger, env);
    var chosen := PyPrefix(Ranking.SortDesc(cands, GhostRankKey), limit);
    Retrieval.RankedPrefixBest(cands, GhostRankKey, limit);
    Retrieval.RankedPrefixMembers(cands, GhostRankKey, limit);
    GhostCandidateFacts(lines, domains, kws, ledger, env);
    forall c, t | c in cands && c !in chosen && t in chosen
      ensures GhostKey(c, kws, ledger, env) <= GhostKey(t, kws, ledger, env)
    {
      assert GhostRankKey(c) <= GhostRankKey(t);
      assert t in cands;
    }
  }

  /** Removing "_ghost_score" leaves every fingerprint as it was. */
  lemma HashesIgnoreGhostScores(s: seq<Entry>, md5: string -> string)
    ensures Retrieval.Hashes(StripGhost(s), md5) == Retrieval.Hashes(s, md5)
  {
    forall i | 0 <= i < |s| ensures Retrieval.Hashes(StripGhost(s), md5)[i] == Retrieval.Hashes(s, md5)[i] {
      assert Fingerprint.EntryKey(StripGhost(s)[i]) == Fingerprint.EntryKey(s[i]);
    }
  }

  /** The scan loop of `taste_ghosts`: decoded ghost records of the
      requested domains, each with its key under "_ghost_score", in file
      order. */
  method ScanGhosts(lines: seq<Line>, domains: seq<string>, kws: seq<string>, ledger: Ledger, env: Env)
    returns (ghosts: seq<Entry>)
    ensures ghosts == GhostCandidates(lines, domains, kws, ledger, env)
  {
    ghosts := [];
    var i := 0;
    while i < |lines|
      invariant 0 <= i <= |lines|
      invariant ghosts == GhostCandidates(lines[..i], domains, kws, ledger, env)
    {
      if lines[i].Decoded? {
        var e := lines[i].entry;
        if e.kind == Some("ghost") && Retrieval.DomainMatch(e, domains) {
          ghosts := ghosts + [GhostScored(e, kws, ledger, env)];
        }
      }
      GhostCandidatesStep(lines, i, domains, kws, ledger, env);
      i := i + 1;
    }
    assert lines[..|lines|] == lines;
  }

  /** The loop that pops "_ghost_score" from every returned record. */
  method StripGhostScores(chosen: seq<Entry>) returns (top: seq<Entry>)
    ensures top == StripGhost(chosen)
    ensures forall e :: e in top ==> e.internalGhostScore.None?
  {
    top := chosen;
    var k := 0;
    while k < |top|
      invariant 0 <= k <= |top| == |chosen|
      invariant forall j :: 0 <= j < k ==> top[j] == chosen[j].(internalGhostScore := None)
      invariant forall j :: k <= j < |top| ==> top[j] == chosen[j]
    {
      top := top[k := top[k].(internalGhostScore := None)];
      k := k + 1;
    }
  }

  /** `taste_ghosts`. The requesting agent is accepted and not used: ghost
      records of every author are eligible. The ledger is always recorded
      with the returned batch's fingerprints when the batch is not empty. */
  method TasteGhosts(lines: seq<Line>, ledger: Ledger, env: Env, now: string, agent: string, domains: seq<string>,
                     keywords: Option<seq<string>> := None, limit: int := GHOST_LIMIT)
    returns (top: seq<Entry>, ledger': Ledger)
    ensures top == GhostResult(lines, domains, keywords, limit, ledger, env)
    ensures limit >= 0 ==>
      var n := |GhostCandidates(lines, domains, EffectiveKeywords(keywords, domains), ledger, env)|;
      |top| == if n <= limit then n else limit
    ensures forall i, j :: 0 <= i < j < |top| ==>
      GhostKey(top[i], EffectiveKeywords(keywords, domains), ledger, env) >= GhostKey(top[j], EffectiveKeywords(keywords, domains), ledger, env)
    ensures forall e :: e in top ==> e.internalGhostScore.None? && GhostAdmits(e, domains) && GhostFromLog(e, lines)
    ensures ledger' == if top != [] then Resonance.Tasted(ledger, Retrieval.Hashes(top, env.md5), now) else ledger
  {
    var kws := EffectiveKeywords(keywords, domains);
    var ghosts := ScanGhosts(lines, domains, kws, ledger, env);
    ghosts := Ranking.SortDesc(ghosts, GhostRankKey);
    var chosen := PyPrefix(ghosts, limit);

    ledger' := ledger;
    if |chosen| > 0 {
      ledger' := Resonance.RecordTaste(ledger, Retrieval.Hashes(chosen, env.md5), now);
    }

    top := StripGhostScores(chosen);
    HashesIgnoreGhostScores(chosen, env.md5);
    GhostResultSpec(lines, domains, keywords, limit, ledger, env);
    if limit >= 0 { GhostResultLength(lines, domains, keywords, limit, ledger, env); }
  }
}
