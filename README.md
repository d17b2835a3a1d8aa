# mycelium: ranking-and-feedback engine, modelled in Dafny

Mycelium is a shared memory for a fleet of agents. Agents append JSON
records ("entries") to one log. A reader asks for the entries of some
domains (`taste`). Entries are ranked by a relevance score, the best `limit`
are returned, and their fingerprints are recorded in a resonance ledger.
Entries returned often score higher the next time. A second record kind,
the ghost trace, keeps the branches an agent weighed before deciding
(`superpose`); `taste_ghosts` retrieves ghost traces by keyword match and
score. `prune` drops old, low-scoring entries unless they are canonical or
critical.

The model covers `src/mycelium.py` as written:

- `types.dfy` (`MyceliumTypes`): entries with every JSON key optional, so a
  missing key is told apart from a present value; branches; log lines
  (blank, undecodable, decoded); ledger rows; the environment. Also Python's
  slice `s[:n]` (`PyPrefix`) and a generic line-by-line scan.
- `fingerprint.dfy` (`Fingerprint`): the key `ts + agent + content[:64]`
  and the 12-character digest prefix. MD5 is a function parameter.
- `resonance.dfy` (`Resonance`): the ledger update, as a loop proved
  against a fold.
- `scoring.dfy` (`Scoring`): the weight tables and the score formula, in
  exact reals.
- `ranking.dfy` (`Ranking`): `list.sort(key=…, reverse=True)`. It is an
  insertion sort proved sorted, a permutation and stable. Stability means
  equal keys keep their input order. Those three properties are proved to
  determine the result.
- `retrieval.dfy` (`Retrieval`): `taste`.
- `ghosts.dfy` (`Ghosts`): `_ghost_match_score` and `taste_ghosts`.
- `superpose.dfy` (`Superposition`): the in-place weight normalisation over
  an array, and the ghost record.
- `retention.dfy` (`Retention`): the keep/prune partition of `prune`.

`taste` drops the requester's own entries outright
(src/mycelium.py:142); they are not down-weighted. The code has no
duplicate suppression and no supersession of older entries, and it reads a
single log file.

The default arguments of the Python functions are Dafny default parameters:
`limit` 50 (`TASTE_LIMIT`) and `record` true for `taste`, no keywords and
`limit` 5 for `taste_ghosts`, an empty collapse reason and "routine" urgency
for `superpose`, and a threshold of 0.5, 30 days and a dry run for `prune`.

Inputs that the code obtains from the outside world are parameters:

- The log arrives as its decoded lines. A missing log file is an empty
  sequence.
- The ledger arrives as its loaded map. A missing or unreadable ledger is
  the empty map.
- `Env.md5` is the hex digest of a key.
- `Env.ageOf` is the age in days of a timestamp string relative to the
  moment of the call (a trailing "Z" is read as "+00:00"). It is `None`
  when the string does not parse, and also when it parses to an instant
  without a UTC offset, such as "2024-01-01T00:00:00" or "2024-01-01".
  Python's subtraction of such an instant from the zoned current time then
  fails, and the age is 0.
- `now` is the formatted instant written into ledger rows and ghost
  records.
- `round3` stands for `round(x, 3)`.

## Model

| member | source | states |
|---|---|---|
| Fingerprint.EntryKey | src/mycelium.py:64 | the key is the timestamp, then the agent, then at most the first 64 characters of the content; missing keys read as empty text |
| Fingerprint.EntryHash | src/mycelium.py:62-65 | the fingerprint is the first 12 characters of the digest of the key: a prefix of the digest, exactly 12 long when the digest has at least 12 characters and the whole digest otherwise |
| Fingerprint.SameKeySameHash | src/mycelium.py:62-65 | entries agreeing on timestamp, agent and first 64 content characters get the same fingerprint, whatever the digest function |
| Fingerprint.ContentTailIgnored | src/mycelium.py:64 | extending content that already has 64 characters leaves the fingerprint unchanged |
| Resonance.Tasted | src/mycelium.py:78-87 | the ledger after recording a hash list has a row for a hash exactly when it had one before or the hash is listed |
| Resonance.TastedSpec | src/mycelium.py:78-87 | after recording a hash list, each listed hash's count is its old count (0 when new) plus the number of times it is listed, and its last-tasted time is `now`; an unlisted hash is present exactly when it was before, with its row unchanged |
| Resonance.TastedOnce | src/mycelium.py:82-86 | a hash listed once gains exactly one taste and is present afterwards |
| Resonance.RecordTaste | src/mycelium.py:78-87 | the loop over the hash list produces the fold `Tasted`, with the per-hash counts and `now` stamps above and every other row untouched |
| Scoring.ConfidenceWeight | src/mycelium.py:100 | a missing confidence weighs 1.0 (read as "observation"); an unknown one weighs 1.0; a known one weighs its table value; the weight lies in [0.5, 5.0] |
| Scoring.UrgencyWeight | src/mycelium.py:101 | a missing urgency weighs 0.0 (read as "routine"); an unknown one weighs 0.0; a known one weighs its table value; the weight lies in [0, 4] |
| Scoring.AgeDays | src/mycelium.py:104-110 | an entry whose timestamp is missing or empty, does not parse, or parses to an instant without a UTC offset (`ageOf` gives None) is 0 days old; otherwise its age is what the clock gives for its timestamp |
| Scoring.Score | src/mycelium.py:91-114 | the score minus 1.5 per taste plus 0.05 per day of age lies in [0.5, 9.0]; with neither confidence nor urgency the score is 1.5 per taste plus 1.0 minus 0.05 per day of age |
| Scoring.ScoreMonotoneInTastes | src/mycelium.py:96-114 | more recorded tastes never lower the score; each extra taste adds exactly 1.5 |
| Scoring.ScoreAntitoneInAge | src/mycelium.py:104-114 | a greater age never raises the score; each day costs exactly 0.05 |
| Scoring.ScoreIgnoresRankingKeys | src/mycelium.py:91-114 | adding or removing the transient `_score`/`_ghost_score` keys changes neither the score nor the fingerprint |
| Ranking.SortDesc | src/mycelium.py:150 | the ranking has the input's length and elements (as a multiset), is non-increasing in the key, and keeps every class of equal keys in input order |
| Ranking.SortDescUnique | src/mycelium.py:150 | any non-increasing sequence with the same classes of equal keys is the ranking: a stable descending sort has exactly one result |
| Ranking.SortedStableUnique | src/mycelium.py:150 | two sequences sorted highest first whose equal-key classes all agree are equal |
| Ranking.InsertSorted | src/mycelium.py:150 | proof step of `Ranking.SortDesc` (helper): inserting into a ranking keeps it non-increasing |
| Ranking.InsertClass | src/mycelium.py:150 | proof step of `Ranking.SortDesc` (helper): the inserted element goes to the front of its own equal-key class and every other class is unchanged |
| Ranking.InsertMultiset | src/mycelium.py:150 | proof step of `Ranking.SortDesc` (helper): insertion adds exactly the inserted element |
| MyceliumTypes.PyPrefix | src/mycelium.py:151 | `s[:n]` is a prefix of `s`; its length is min(n, \|s\|) for n >= 0 and max(\|s\| + n, 0) for n < 0 |
| Retrieval.DomainMatch | src/mycelium.py:139-140 | with no requested domain every entry passes; with some requested, an entry without domain tags never passes |
| Retrieval.Admits | src/mycelium.py:139-143 | the requester's own entries never pass; an entry without an agent passes exactly when its domains match |
| Retrieval.CandidatesSound | src/mycelium.py:131-147 | every candidate is the scored entry of a decoded line whose domains meet the request (or none were requested) and whose agent is not the requester |
| Retrieval.CandidatesComplete | src/mycelium.py:131-147 | every decoded line passing both filters yields a candidate |
| Retrieval.CandidatesAppend | src/mycelium.py:131-147 | scanning two parts of the log in turn gives the candidates of the whole, in file order |
| Retrieval.GarbledLineSkipped | src/mycelium.py:146-147 | an undecodable line contributes nothing and the scan goes on past it |
| Retrieval.CandidateFacts | src/mycelium.py:139-145 | each candidate passes both filters, carries its own score under `_score`, and is a logged entry once that key is removed |
| Retrieval.RankedPrefixMembers | src/mycelium.py:150-151 | whatever a prefix of the ranking holds was among the candidates |
| Retrieval.RankedPrefixBest | src/mycelium.py:150-151 | cutting the descending ranking of a candidate list to `limit` keeps the best: a candidate left out has a key no higher than any candidate kept |
| Retrieval.TasteTopK | src/mycelium.py:150-151 | `taste` returns the top `limit` candidates: every candidate left out scores no higher than every candidate returned |
| Retrieval.TasteResultLength | src/mycelium.py:151 | for limit >= 0, `taste` returns exactly min(limit, number of candidates) entries |
| Retrieval.TasteResultSpec | src/mycelium.py:139-161 | the returned entries are ordered by non-increasing score, none carries `_score`, each passes both filters and is the entry of a decoded line |
| Retrieval.HashesIgnoreScores | src/mycelium.py:155-159 | the fingerprints recorded before `_score` is removed are those of the entries returned after |
| Retrieval.ScanCandidates | src/mycelium.py:131-147 | the scan loop collects exactly the candidates, in file order |
| Retrieval.StripScores | src/mycelium.py:158-159 | the pop loop removes `_score` from every returned entry and changes nothing else |
| Retrieval.Taste | src/mycelium.py:118-161 | the result is the stable descending ranking of the candidates, truncated, with `_score` removed; its length, order and membership are as above; the ledger gains the returned entries' fingerprints exactly when `record` is set and the result is non-empty, and is unchanged otherwise |
| Ghosts.GhostText | src/mycelium.py:238-244 | the searched text holds no upper-case ASCII letter, so lower-casing it again leaves it unchanged |
| Ghosts.MatchScore | src/mycelium.py:229-247 | without keywords the match score is 0.5; with keywords, the score times the number of keywords is the number of keywords that hit |
| Ghosts.MatchCountSpec | src/mycelium.py:246 | the hit count is at most the number of keywords; it equals that number exactly when every keyword occurs in the text, and is 0 exactly when none does |
| Ghosts.MatchScoreSpec | src/mycelium.py:229-247 | the match score is 0.5 without keywords; otherwise it lies in [0, 1], is 1 exactly when every keyword hits and 0 exactly when none does |
| Ghosts.CollapseTargetHits | src/mycelium.py:238-246 | a keyword found, case aside, in the collapse target is a hit: the target is part of the searched text |
| Ghosts.MatchCountSameText | src/mycelium.py:238-247 | two records with the same searched text match the same keywords |
| Ghosts.GhostKey | src/mycelium.py:274-276 | without keywords the ranking key is 1.0 plus 0.3 of the base score; with keywords it lies between 0.3 of the base score and that plus 2, reaching the top exactly when every keyword hits |
| Ghosts.GhostKeyIgnoresRankingKeys | src/mycelium.py:274-276 | the ranking key `match*2 + base*0.3` does not depend on the transient `_score`/`_ghost_score` keys |
| Ghosts.EffectiveKeywords | src/mycelium.py:274 | the given keywords are used when non-empty; otherwise (absent or empty) the requested domains are used |
| Ghosts.MatchingGhostOutranks | src/mycelium.py:274-281 | a ghost that every keyword hits outranks one that no keyword hits unless its base score trails by 20/3 or more |
| Ghosts.GhostCandidatesSound | src/mycelium.py:263-279 | every ghost candidate is the keyed entry of a decoded line of type "ghost" passing the domain filter; no agent filter applies |
| Ghosts.GhostCandidatesComplete | src/mycelium.py:263-279 | every decoded ghost line passing the domain filter yields a candidate |
| Ghosts.GhostCandidateFacts | src/mycelium.py:269-277 | each ghost candidate is a ghost of the requested domains, carries its ranking key under `_ghost_score`, and is a logged entry once that key is removed |
| Ghosts.GhostTopK | src/mycelium.py:281-282 | `taste_ghosts` returns the top `limit` ghost candidates: every candidate left out has a ranking key `match*2 + base*0.3` no higher than every candidate returned |
| Ghosts.GhostResultLength | src/mycelium.py:282 | for limit >= 0, `taste_ghosts` returns exactly min(limit, number of ghost candidates) records |
| Ghosts.GhostResultSpec | src/mycelium.py:269-289 | the returned records are ordered by non-increasing ranking key, none carries `_ghost_score`, each is a ghost of the requested domains read from the log |
| Ghosts.HashesIgnoreGhostScores | src/mycelium.py:284-287 | the fingerprints recorded before `_ghost_score` is removed are those of the records returned after |
| Ghosts.ScanGhosts | src/mycelium.py:263-279 | the scan loop collects exactly the ghost candidates, in file order |
| Ghosts.StripGhostScores | src/mycelium.py:286-287 | the pop loop removes `_ghost_score` from every returned record and changes nothing else |
| Ghosts.TasteGhosts | src/mycelium.py:250-289 | the result is the stable descending ranking of the ghost candidates by `match*2 + base*0.3`, truncated, with `_ghost_score` removed; the ledger always gains the returned fingerprints when the result is non-empty |
| Superposition.Normalized | src/mycelium.py:206-210 | normalisation keeps the number of branches, their labels and reasonings; with a positive total each weight becomes the rounded share weight/total (a missing weight counting 0); otherwise the branches are untouched |
| Superposition.WeightTotal | src/mycelium.py:207 | the total is the sum of the present weights plus 1 for every missing weight |
| Superposition.ExactSharesSum | src/mycelium.py:208-210 | unrounded shares sum to the present weights over the total |
| Superposition.NormalizedSum | src/mycelium.py:206-210 | unrounded, the normalised weights sum to 1 - m/total when m branches lack a weight, and to exactly 1 when all have one |
| Superposition.RoundingDrift | src/mycelium.py:210 | rounding each share to within 0.0005 moves their sum by at most 0.0005 per branch |
| Superposition.NormalizedSumNearOne | src/mycelium.py:206-210 | with every weight given, the stored weights sum to 1 within 0.0005 per branch |
| Superposition.NormalizeWeights | src/mycelium.py:206-210 | the loop rewrites the caller's branch array in place to the normalised branches |
| Superposition.NatToString | src/mycelium.py:220 | `str(n)`: at least one decimal digit, no leading zero except for 0 itself, and the digits read back as n |
| Superposition.GhostSummary | src/mycelium.py:220 | the content opens with "Ghost: ", then the branch count in decimal digits that read back as the count and end at a non-digit, and closes with the collapse target in single quotes |
| Superposition.GhostSummaryInjective | src/mycelium.py:220 | two equal summaries have the same branch count and the same collapse target |
| Superposition.GhostFingerprintsCollide | src/mycelium.py:62-65 | two ghost records by the same agent at the same instant with the same branch count and collapse target have the same fingerprint, whatever their domains, branches, reasons and urgencies, because the fingerprint reads only the timestamp, the agent and the first 64 characters of the content |
| Superposition.GhostRecord | src/mycelium.py:212-223 | the record has type "ghost", confidence "observation", the given agent, timestamp, domains, branches, collapse target and reason, the given urgency, and the generated summary as content; it passes the ghost filter for its own domains |
| Superposition.GhostRecordRetrievable | src/mycelium.py:212-223 | the written record passes the ghost filter exactly when no domain is requested or a requested domain is among its domains; its confidence weighs 1.0; a keyword found in its collapse target is a hit |
| Superposition.Superpose | src/mycelium.py:206-223 | the caller's branches are normalised in place and the returned record has type "ghost", confidence "observation", the given agent, domains, urgency, collapse target and reason, the normalised branches, and the generated summary content |
| Retention.Exempt | src/mycelium.py:450-453 | an entry is exempt exactly when its confidence weighs the canonical 5.0 or its urgency weighs the critical 4.0 |
| Retention.Condemned | src/mycelium.py:450-466 | a condemned entry weighs less than 5.0 for confidence and less than 4.0 for urgency, and 1.5 per taste minus 0.05 per day of age stays below the threshold minus 0.5 |
| Retention.UndatedNeverCondemned | src/mycelium.py:455-463 | an entry whose timestamp is missing, unparseable or without a UTC offset is 0 days old, so no non-negative day limit prunes it, whatever its score |
| Retention.PartitionCount | src/mycelium.py:440-466 | every non-blank line lands on exactly one side: \|keep\| + \|pruned\| is the number of non-blank lines |
| Retention.PruneAppend | src/mycelium.py:440-466 | pruning two parts of the log in turn gives the two results concatenated, so both lists keep file order |
| Retention.PrunedSound | src/mycelium.py:450-464 | every pruned entry was decoded from the log, is neither canonical nor critical, scores below the threshold and is older than the day limit |
| Retention.PruneComplete | src/mycelium.py:444-466 | every decoded entry meeting the rule is pruned; every other decoded entry and every undecodable line is kept |
| Retention.PruneIdempotent | src/mycelium.py:440-466 | pruning the kept lines again with the same ledger, clock and thresholds prunes nothing and keeps them all |
| Retention.PruneMonotone | src/mycelium.py:463 | anything pruned is also pruned under a higher score threshold or a lower day limit |
| Retention.Prune | src/mycelium.py:424-480 | the loop returns the kept lines and pruned entries of the rule above, their sizes add up to the non-blank lines, no exempt entry is pruned, and the log is rewritten exactly on a live run that pruned something |

## Left out

- File I/O is not modelled: opening, reading and rewriting the log and the ledger file, and the existence checks. A missing log is an empty line sequence; a missing or unreadable ledger is the empty map.
- JSON decoding and encoding are not modelled. A line either decodes to an entry or is undecodable. A kept entry re-encodes to itself, which `Retention.Reread` assumes when the kept lines are read back.
- A line that decodes to JSON that is not an object, or a field of the wrong JSON type, is not modelled. Python raises on some of these (a line that is not an object, most non-string content, and non-list branches whenever the keyword list is non-empty) and silently coerces others: list-valued content is sliced and formatted into the fingerprint, a non-string `ts` has age 0 and still enters the fingerprint through the f-string, a string `domain` turns the domain filters into substring tests, a null confidence weighs 1.0 and a null urgency 0.0, and a non-string agent never equals the requester.
- A ledger row without a `taste_count` key is not modelled. Every row has a count.
- MD5, the clock and ISO-8601 parsing are foreign calls and are parameters.
- `Scoring.AgeDays`: one clock instant (`Env.ageOf`) serves every entry of a call. The Python code reads the clock inside `_score` on every call (src/mycelium.py:107), so each entry's age is taken at its own instant, and `prune` reads the clock once more for its own age test; the model ignores that drift.
- `Scoring.Score`, `Scoring.ScoreMonotoneInTastes`, `Scoring.ScoreAntitoneInAge`: scores are exact reals, not Python floats, so the exact 1.5-per-taste and 0.05-per-day steps hold in the model only. Float rounding can split or merge ties, which changes the stable-sort order in `taste` and `taste_ghosts`, and can move an entry across the `score < min_resonance` boundary of `prune`.
- `Superposition.RoundingDrift`, `Superposition.NormalizedSumNearOne`: IEEE float arithmetic and the exact behaviour of `round(x, 3)` are not modelled. Weights are exact reals, and rounding is an abstract function assumed to be within 0.0005 of its argument.
- `Ghosts.Lower` folds ASCII letters only. Python's `str.lower` also folds non-ASCII letters.
- The sort is modelled on sequence values, not in place on the list. Aliasing between the returned entries and the scanned list is not modelled.
- `Superposition.Superpose` returns a copy of the normalised branches in the record. In Python the record holds the caller's list object itself.
- Appending the record to the log (`superpose`, `exude`) is not modelled.
- The printed preview of `prune` is not modelled.
- Keys of an entry other than the ones the core reads are not modelled.
- Not modelled: `digest`, `distill`, `show_resonance`, `format_for_context`, the `dump`/`stats` commands, `main` (including its `label:weight:reasoning` parsing), and `exude`. These are display, text extraction or command-line wiring.
- Concurrent writers of the log or the ledger are not modelled.
