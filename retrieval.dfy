/** `taste`: read the log, keep the entries of the requested domains written
    by other agents, rank them by score, return the best `limit` of them and
    record that they were returned. */
module Retrieval {
  import opened MyceliumTypes
  import Fingerprint
  import Resonance
  import Scoring
  import Ranking

  /** How many entries `taste` returns unless told otherwise. */
  const TASTE_LIMIT: int := 50

  /** With no requested domain everything passes; otherwise at least one
      requested tag must be among the entry's tags. */
  predicate DomainMatch(e: Entry, domains: seq<string>)
    ensures domains == [] ==> DomainMatch(e, domains)
    ensures domains != [] && DomainTags(e) == [] ==> !DomainMatch(e, domains)
  {
    domains == [] || exists d :: d in domains && d in DomainTags(e)
  }

  /** Both filters of `taste`: the domain filter, and the requester's own
      entries are dropped (an entry without an agent is never the requester's). */
  predicate Admits(e: Entry, agent: string, domains: seq<string>)
    ensures e.agent == Some(agent) ==> !Admits(e, agent, domains)
    ensures e.agent.None? ==> (Admits(e, agent, domains) <==> DomainMatch(e, domains))
  {
    DomainMatch(e, domains) && e.agent != Some(agent)
  }

  /** The candidate with its "_score" key set. */
  function Scored(e: Entry, ledger: Ledger, env: Env): Entry {
    e.(internalScore := Some(Scoring.Score(e, ledger, env)))
  }

  /** What one line contributes to the candidates: the scored entry when it
      decodes and passes both filters, nothing otherwise. */
  function Pick(line: Line, agent: string, domains: seq<string>, ledger: Ledger, env: Env): seq<Entry> {
    if line.Decoded? && Admits(line.entry, agent, domains) then [Scored(line.entry, ledger, env)] else []
  }

  /** The candidates of a log, in file order. Blank and undecodable lines
      contribute nothing. */
  function Candidates(lines: seq<Line>, agent: string, domains: seq<string>, ledger: Ledger, env: Env): seq<Entry> {
    Scan(lines, l => Pick(l, agent, domains, ledger, env))
  }

  /** One more line of the scan. */
  lemma CandidatesStep(lines: seq<Line>, i: nat, agent: string, domains: seq<string>, ledger: Ledger, env: Env)
    requires i < |lines|
    ensures Candidates(lines[..i + 1], agent, domains, ledger, env)
      == Candidates(lines[..i], agent, domains, ledger, env) + Pick(lines[i], agent, domains, ledger, env)
  {
    assert lines[..i + 1] == lines[..i] + [lines[i]];
    ScanSnoc(lines[..i], lines[i], l => Pick(l, agent, domains, ledger, env));
  }

  /** The sort key `e.get("_score", 0)`. */
  function RankKey(e: Entry): real {
    e.internalScore.GetOr(0.0)
  }

  /** Every entry with its "_score" key removed. */
  function Strip(s: seq<Entry>): seq<Entry> {
    seq(|s|, i requires 0 <= i < |s| => s[i].(internalScore := None))
  }

  /** The fingerprints of a batch, in order. */
  function Hashes(s: seq<Entry>, md5: string -> string): seq<string> {
    seq(|s|, i requires 0 <= i < |s| => Fingerprint.EntryHash(s[i], md5))
  }

  /** Removing "_score" leaves every fingerprint as it was. */
  lemma HashesIgnoreScores(s: seq<Entry>, md5: string -> string)
    ensures Hashes(Strip(s), md5) == Hashes(s, md5)
  {
    forall i | 0 <= i < |s| ensures Hashes(Strip(s), md5)[i] == Hashes(s, md5)[i] {
      assert Fingerprint.EntryKey(Strip(s)[i]) == Fingerprint.EntryKey(s[i]);
    }
  }

  /** What `taste` returns. */
  function TasteResult(lines: seq<Line>, agent: string, domains: seq<string>, limit: int, ledger: Ledger, env: Env): seq<Entry> {
    Strip(PyPrefix(Ranking.SortDesc(Candidates(lines, agent, domains, ledger, env), RankKey), limit))
  }

  /** Scanning two pieces of a log one after the other gives the candidates
      of the whole log: the scan keeps file order and nothing in one part of
      the log affects what is taken from another. */
  lemma CandidatesAppend(a: seq<Line>, b: seq<Line>, agent: string, domains: seq<string>, ledger: Ledger, env: Env)
    ensures Candidates(a + b, agent, domains, ledger, env)
      == Candidates(a, agent, domains, ledger, env) + Candidates(b, agent, domains, ledger, env)
  {
    ScanAppend(a, b, l => Pick(l, agent, domains, ledger, env));
  }

  /** An undecodable line is skipped; the scan goes on past it. */
  lemma GarbledLineSkipped(a: seq<Line>, text: string, b: seq<Line>, agent: string, domains: seq<string>, ledger: Ledger, env: Env)
    ensures Candidates(a + [Garbled(text)] + b, agent, domains, ledger, env)
      == Candidates(a + b, agent, domains, ledger, env)
  {
    CandidatesAppend(a + [Garbled(text)], b, agent, domains, ledger, env);
    CandidatesAppend(a, [Garbled(text)], agent, domains, ledger, env);
    CandidatesAppend(a, b, agent, domains, ledger, env);
    assert [Garbled(text)][..0] == [];
  }

  /** Every candidate is the scored entry of a decoded line that passes both
      filters. */
  lemma {:induction false} CandidatesSound(lines: seq<Line>, agent: string, domains: seq<string>, ledger: Ledger, env: Env)
    ensures forall c :: c in Candidates(lines, agent, domains, ledger, env) ==>
      exists p :: 0 <= p < |lines| && lines[p].Decoded? && Admits(lines[p].entry, agent, domains) &&
        c == Scored(lines[p].entry, ledger, env)
    decreases |lines|
  {
    if lines != [] {
      var init := lines[..|lines| - 1];
      var last := lines[|lines| - 1];
      CandidatesSound(init, agent, domains, ledger, env);
      forall c | c in Candidates(lines, agent, domains, ledger, env)
        ensures exists p :: (0 <= p < |lines| && lines[p].Decoded? && Admits(lines[p].entry, agent, domains) &&
                             c == Scored(lines[p].entry, ledger, env))
      {
        if c in Candidates(init, agent, domains, ledger, env) {
          var p :| 0 <= p < |init| && init[p].Decoded? && Admits(init[p].entry, agent, domains) &&
            c == Scored(init[p].entry, ledger, env);
          assert lines[p] == init[p];
        } else {
          assert last.Decoded? && Admits(last.entry, agent, domains) && c == Scored(last.entry, ledger, env);
        }
      }
    }
  }

  /** Every decoded line that passes both filters yields a candidate. */
  lemma {:induction false} CandidatesComplete(lines: seq<Line>, agent: string, domains: seq<string>, ledger: Ledger, env: Env)
    ensures forall p :: 0 <= p < |lines| && lines[p].Decoded? && Admits(lines[p].entry, agent, domains) ==>
      Scored(lines[p].entry, ledger, env) in Candidates(lines, agent, domains, ledger, env)
    decreases |lines|
  {
    if lines != [] {
      var init := lines[..|lines| - 1];
      CandidatesComplete(init, agent, domains, ledger, env);
      forall p | 0 <= p < |lines| && lines[p].Decoded? && Admits(lines[p].entry, agent, domains)
        ensures Scored(lines[p].entry, ledger, env) in Candidates(lines, agent, domains, ledger, env)
      {
        if p < |init| { assert init[p] == lines[p]; }
      }
    }
  }

  /** The entry of some decoded line of the log, "_score" aside. */
  ghost predicate FromLog(e: Entry, lines: seq<Line>) {
    exists p :: 0 <= p < |lines| && lines[p].Decoded? && e == lines[p].entry.(internalScore := None)
  }

  /** Each candidate passes both filters, carries its own score under
      "_score", and is a logged entry once that key is removed. */
  lemma CandidateFacts(lines: seq<Line>, agent: string, domains: seq<string>, ledger: Ledger, env: Env)
    ensures forall c :: c in Candidates(lines, agent, domains, ledger, env) ==>
      && Admits(c, agent, domains)
      && c.internalScore == Some(Scoring.Score(c, ledger, env))
      && FromLog(c.(internalScore := None), lines)
  {
    CandidatesSound(lines, agent, domains, ledger, env);
    forall c | c in Candidates(lines, agent, domains, ledger, env)
      ensures Admits(c, agent, domains)
      ensures c.internalScore == Some(Scoring.Score(c, ledger, env))
      ensures FromLog(c.(internalScore := None), lines)
    {
      var p :| 0 <= p < |lines| && lines[p].Decoded? && Admits(lines[p].entry, agent, domains) &&
        c == Scored(lines[p].entry, ledger, env);
      Scoring.ScoreIgnoresRankingKeys(lines[p].entry, ledger, env, c.internalScore, c.internalGhostScore);
      assert c.(internalScore := None) == lines[p].entry.(internalScore := None);
    }
  }

  /** Whatever a prefix of the ranking holds was among the candidates. */
  lemma RankedPrefixMembers(cands: seq<Entry>, key: Entry -> real, limit: int)
    ensures forall e :: e in PyPrefix(Ranking.SortDesc(cands, key), limit) ==> e in cands
  {
    var sorted := Ranking.SortDesc(cands, key);
    forall e | e in PyPrefix(sorted, limit) ensures e in cands {
      assert e in multiset(sorted);
    }
  }

  /** Cutting the ranking of the candidates to `limit` keeps the best: a
      candidate left out has a key no higher than any candidate kept. */
  lemma RankedPrefixBest(cands: seq<Entry>, key: Entry -> real, limit: int)
    ensures var chosen := PyPrefix(Ranking.SortDesc(cands, key), limit);
      forall c, t :: c in cands && c !in chosen && t in chosen ==> key(c) <= key(t)
  {
    var sorted := Ranking.SortDesc(cands, key);
    var chosen := PyPrefix(sorted, limit);
    forall c, t | c in cands && c !in chosen && t in chosen
      ensures key(c) <= key(t)
    {
      assert c in multiset(sorted);
      var j :| 0 <= j < |sorted| && sorted[j] == c;
      var i :| 0 <= i < |chosen| && chosen[i] == t;
      assert chosen == sorted[..|chosen|];
      if j < |chosen| {
        assert chosen[j] == c;
      }
    }
  }

  /** `taste` returns the top `limit` candidates: every candidate it leaves
      out scores no higher than every candidate it returns. */
  lemma TasteTopK(lines: seq<Line>, agent: string, domains: seq<string>, limit: int, ledger: Ledger, env: Env)
    ensures var cands := Candidates(lines, agent, domains, ledger, env);
      var chosen := PyPrefix(Ranking.SortDesc(cands, RankKey), limit);
      forall c, t :: c in cands && c !in chosen && t in chosen ==>
        Scoring.Score(c, ledger, env) <= Scoring.Score(t, ledger, env)
  {
    var cands := Candidates(lines, agent, domains, ledger, env);
    var chosen := PyPrefix(Ranking.SortDesc(cands, RankKey), limit);
    RankedPrefixBest(cands, RankKey, limit);
    RankedPrefixMembers(cands, RankKey, limit);
    CandidateFacts(lines, agent, domains, ledger, env);
    forall c, t | c in cands && c !in chosen && t in chosen
      ensures Scoring.Score(c, ledger, env) <= Scoring.Score(t, ledger, env)
    {
      assert RankKey(c) <= RankKey(t);
      assert t in cands;
    }
  }

  /** `taste` returns at most `limit` entries: exactly min(limit, number of
      candidates) for a non-negative limit. */
  lemma TasteResultLength(lines: seq<Line>, agent: string, domains: seq<string>, limit: int, ledger: Ledger, env: Env)
    requires limit >= 0
    ensures var n := |Candidates(lines, agent, domains, ledger, env)|;
      |TasteResult(lines, agent, domains, limit, ledger, env)| == if n <= limit then n else limit
  {
  }

  /** `taste` returns its entries highest score first, each the entry of a
      decoded line that passes both filters, none carrying "_score". */
  lemma TasteResultSpec(lines: seq<Line>, agent: string, domains: seq<string>, limit: int, ledger: Ledger, env: Env)
    ensures var top := TasteResult(lines, agent, domains, limit, ledger, env);
      && (forall i, j :: 0 <= i < j < |top| ==> Scoring.Score(top[i], ledger, env) >= Scoring.Score(top[j], ledger, env))
      && (forall e :: e in top ==> e.internalScore.None? && Admits(e, agent, domains) && FromLog(e, lines))
  {
    var cands := Candidates(lines, agent, domains, ledger, env);
    CandidateFacts(lines, agent, domains, ledger, env);
    RankedPrefixMembers(cands, RankKey, limit);
    var sorted := Ranking.SortDesc(cands, RankKey);
    var chosen := PyPrefix(sorted, limit);
    var top := Strip(chosen);
    assert forall i :: 0 <= i < |chosen| ==> chosen[i] == sorted[i];
    forall i | 0 <= i < |chosen|
      ensures Scoring.Score(top[i], ledger, env) == RankKey(chosen[i])
      ensures top[i].internalScore.None? && Admits(top[i], agent, domains) && FromLog(top[i], lines)
    {
      assert chosen[i] in chosen;
      Scoring.ScoreIgnoresRankingKeys(chosen[i], ledger, env, None, chosen[i].internalGhostScore);
    }
  }

  /** The scan loop of `taste`: decoded lines that pass both filters, each
      with its score under "_score", in file order. */
  method ScanCandidates(lines: seq<Line>, agent: string, domains: seq<string>, ledger: Ledger, env: Env)
    returns (entries: seq<Entry>)
    ensures entries == Candidates(lines, agent, domains, ledger, env)
  {
    entries := [];
    var i := 0;
    while i < |lines|
      invariant 0 <= i <= |lines|
      invariant entries == Candidates(lines[..i], agent, domains, ledger, env)
    {
      if lines[i].Decoded? {
        var e := lines[i].entry;
        if DomainMatch(e, domains) && e.agent != Some(agent) {
          entries := entries + [Scored(e, ledger, env)];
        }
      }
      CandidatesStep(lines, i, agent, domains, ledger, env);
      i := i + 1;
    }
    assert lines[..|lines|] == lines;
  }

  /** The loop that pops "_score" from every returned entry. */
  method StripScores(chosen: seq<Entry>) returns (top: seq<Entry>)
    ensures top == Strip(chosen)
    ensures forall e :: e in top ==> e.internalScore.None?
  {
    top := chosen;
    var k := 0;
    while k < |top|
      invariant 0 <= k <= |top| == |chosen|
      invariant forall j :: 0 <= j < k ==> top[j] == chosen[j].(internalScore := None)
      invariant forall j :: k <= j < |top| ==> top[j] == chosen[j]
    {
      top := top[k := top[k].(internalScore := None)];
      k := k + 1;
    }
  }

  /** `taste`. The log arrives as its lines and the ledger as its loaded
      contents; `now` is the formatted instant stamped on recorded rows. The
      result is returned with the ledger as it stands afterwards: recorded
      with the returned batch's fingerprints when `record` is set and the
      batch is not empty, untouched otherwise. */
  method Taste(lines: seq<Line>, ledger: Ledger, env: Env, now: string, agent: string, domains: seq<string>,
               limit: int := TASTE_LIMIT, record: bool := true)
    returns (top: seq<Entry>, ledger': Ledger)
    ensures top == TasteResult(lines, agent, domains, limit, ledger, env)
    ensures limit >= 0 ==> |top| == var n := |Candidates(lines, agent, domains, ledger, env)|; if n <= limit then n else limit
    ensures forall i, j :: 0 <= i < j < |top| ==> Scoring.Score(top[i], ledger, env) >= Scoring.Score(top[j], ledger, env)
    ensures forall e :: e in top ==> e.internalScore.None? && Admits(e, agent, domains) && FromLog(e, lines)
    ensures ledger' == if record && top != [] then Resonance.Tasted(ledger, Hashes(top, env.md5), now) else ledger
  {
    var entries := ScanCandidates(lines, agent, domains, ledger, env);
    entries := Ranking.SortDesc(entries, RankKey);
    var chosen := PyPrefix(entries, limit);

    ledger' := ledger;
    if record && |chosen| > 0 {
      ledger' := Resonance.RecordTaste(ledger, Hashes(chosen, env.md5), now);
    }

    top := StripScores(chosen);
    HashesIgnoreScores(chosen, env.md5);
    TasteResultSpec(lines, agent, domains, limit, ledger, env);
    if limit >= 0 { TasteResultLength(lines, agent, domains, limit, ledger, env); }
  }
}
