/** The records the substrate stores and reads back, the resonance ledger,
    and the foreign collaborators (MD5, the clock) every operation is handed. */
module MyceliumTypes {

  datatype Option<+T> = None | Some(value: T) {
    function GetOr(default: T): T {
      match this
      case Some(v) => v
      case None => default
    }
  }

  /** One alternative of a deliberation: the keys "label" (`branchLabel`), "weight" and
      "reasoning" of a branch object, each of which may be absent. */
  datatype Branch = Branch(branchLabel: Option<string>, weight: Option<real>, reasoning: Option<string>)

  /** A decoded log record. Every key of the JSON object may be absent, so
      every field is an Option. `kind` is the "type" key; `internalScore` and
      `internalGhostScore` are the "_score" and "_ghost_score" keys that the
      retrieval paths attach while ranking and remove before returning. */
  datatype Entry = Entry(
    ts: Option<string>,
    agent: Option<string>,
    domain: Option<seq<string>>,
    kind: Option<string>,
    urgency: Option<string>,
    confidence: Option<string>,
    content: Option<string>,
    branches: Option<seq<Branch>>,
    collapsedTo: Option<string>,
    collapseReason: Option<string>,
    internalScore: Option<real>,
    internalGhostScore: Option<real>)

  /** One line of the log after stripping: empty, not valid JSON (its
      stripped text), or a decoded object. */
  datatype Line = Blank | Garbled(text: string) | Decoded(entry: Entry)

  /** A ledger row: "taste_count" and "last_tasted". */
  datatype Row = Row(tasteCount: int, lastTasted: Option<string>)

  /** The resonance ledger: entry fingerprint to row. */
  type Ledger = map<string, Row>

  /** What the engine asks of the world: `md5` gives the hex digest of a key
      string, `ageOf` the age in days, at the current instant, of the instant a
      timestamp string denotes (a trailing "Z" read as "+00:00"). `ageOf` gives
      None when the string does not parse, and also when it parses to an
      instant without a UTC offset (such as "2024-01-01T00:00:00"): Python
      cannot subtract such an instant from the zoned current time, and the
      failed subtraction makes the age 0. */
  datatype Env = Env(md5: string -> string, ageOf: string -> Option<real>)

  // `entry.get(key, default)` for the keys the engine reads.
  function TsText(e: Entry): string { e.ts.GetOr("") }
  function AgentText(e: Entry): string { e.agent.GetOr("") }
  function ContentText(e: Entry): string { e.content.GetOr("") }
  function DomainTags(e: Entry): seq<string> { e.domain.GetOr([]) }
  function BranchList(e: Entry): seq<Branch> { e.branches.GetOr([]) }

  /** Python's `s[:n]` for a non-negative n. */
  function Take<T>(s: seq<T>, n: nat): (r: seq<T>)
    ensures |r| == if |s| <= n then |s| else n
    ensures r <= s
  {
    if |s| <= n then s else s[..n]
  }

  /** Python's `s[:n]` for any integer n: a negative n counts from the end. */
  function PyPrefix<T>(s: seq<T>, n: int): (r: seq<T>)
    ensures r <= s
    ensures n >= 0 ==> |r| == if |s| <= n then |s| else n
    ensures n < 0 ==> |r| == if |s| + n <= 0 then 0 else |s| + n
  {
    if n >= 0 then Take(s, n)
    else if |s| + n <= 0 then []
    else s[..|s| + n]
  }

  /** A line-by-line scan: what each element contributes, concatenated in
      order. */
  function Scan<A, B>(s: seq<A>, f: A -> seq<B>): seq<B>
    decreases |s|
  {
    if s == [] then [] else Scan(s[..|s| - 1], f) + f(s[|s| - 1])
  }

  /** One more element at the end. */
  lemma ScanSnoc<A, B>(s: seq<A>, x: A, f: A -> seq<B>)
    ensures Scan(s + [x], f) == Scan(s, f) + f(x)
  {
    assert (s + [x])[..|s|] == s;
  }

  /** Scanning two pieces one after the other scans the whole. */
  lemma {:induction false} ScanAppend<A, B>(a: seq<A>, b: seq<A>, f: A -> seq<B>)
    ensures Scan(a + b, f) == Scan(a, f) + Scan(b, f)
    decreases |b|
  {
    if b == [] {
      assert a + b == a;
    } else {
      var b' := b[..|b| - 1];
      var x := b[|b| - 1];
      assert b == b' + [x];
      assert a + b == (a + b') + [x];
      ScanAppend(a, b', f);
      ScanSnoc(a + b', x, f);
      ScanSnoc(b', x, f);
    }
  }
}
