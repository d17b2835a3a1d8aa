/** The resonance ledger update: every retrieval records the fingerprints it
    returned, and that count feeds back into later scores. */
module Resonance {
  import opened MyceliumTypes

  /** How many times `h` occurs in `hs`. */
  function Occurrences(hs: seq<string>, h: string): nat {
    if hs == [] then 0 else (if hs[0] == h then 1 else 0) + Occurrences(hs[1..], h)
  }

  /** The taste count a ledger holds for `h`, 0 when it has no row. */
  function CountOr0(ledger: Ledger, h: string): int {
    if h in ledger then ledger[h].tasteCount else 0
  }

  /** One step of the loop: a new row starts at count 0 with no last time;
      the row then gains one and is stamped `now`. */
  function Bump(ledger: Ledger, h: string, now: string): Ledger {
    ledger[h := Row(CountOr0(ledger, h) + 1, Some(now))]
  }

  /** The ledger after recording `hs` in order: its rows are the old ones
      and one per listed fingerprint. */
  function Tasted(ledger: Ledger, hs: seq<string>, now: string): (r: Ledger)
    ensures forall h :: h in r <==> h in ledger || h in hs
    decreases |hs|
  {
    if hs == [] then ledger else Tasted(Bump(ledger, hs[0], now), hs[1..], now)
  }

  /** Every listed fingerprint gains exactly its number of occurrences and is
      stamped `now`; every other row is left as it was, and no other row
      appears. */
  lemma {:induction false} TastedSpec(ledger: Ledger, hs: seq<string>, now: string)
    ensures forall h :: h in hs ==>
      h in Tasted(ledger, hs, now) &&
      Tasted(ledger, hs, now)[h] == Row(CountOr0(ledger, h) + Occurrences(hs, h), Some(now))
    ensures forall h :: h !in hs ==> (h in Tasted(ledger, hs, now) <==> h in ledger)
    ensures forall h :: h !in hs && h in ledger ==> Tasted(ledger, hs, now)[h] == ledger[h]
    decreases |hs|
  {
    if hs != [] {
      var l' := Bump(ledger, hs[0], now);
      TastedSpec(l', hs[1..], now);
      forall h | h in hs
        ensures h in Tasted(ledger, hs, now)
        ensures Tasted(ledger, hs, now)[h] == Row(CountOr0(ledger, h) + Occurrences(hs, h), Some(now))
      {
        if h == hs[0] && h !in hs[1..] {
          assert Occurrences(hs[1..], h) == 0 by { OccurrencesAbsent(hs[1..], h); }
        }
      }
    }
  }

  lemma {:induction false} OccurrencesAbsent(hs: seq<string>, h: string)
    requires h !in hs
    ensures Occurrences(hs, h) == 0
  {
    if hs != [] { OccurrencesAbsent(hs[1..], h); }
  }

  /** A fingerprint listed once gains exactly one taste per call. */
  lemma TastedOnce(ledger: Ledger, hs: seq<string>, now: string, h: string)
    requires Occurrences(hs, h) == 1
    ensures h in Tasted(ledger, hs, now)
    ensures Tasted(ledger, hs, now)[h].tasteCount == CountOr0(ledger, h) + 1
  {
    if h !in hs { OccurrencesAbsent(hs, h); }
    TastedSpec(ledger, hs, now);
  }

  /** Recording the rest of the list from position i is recording its
      head, then the rest after it; the head is recorded by setting a
      missing row to zero and then bumping it. */
  lemma TastedStep(ledger: Ledger, hs: seq<string>, i: nat, now: string)
    requires i < |hs|
    ensures Tasted(ledger, hs[i..], now) == Tasted(Bump(ledger, hs[i], now), hs[i + 1..], now)
    ensures var l := if hs[i] in ledger then ledger else ledger[hs[i] := Row(0, None)];
      Bump(ledger, hs[i], now) == l[hs[i] := Row(l[hs[i]].tasteCount + 1, Some(now))]
  {
    assert hs[i..][1..] == hs[i + 1..];
  }

  /** `_record_taste` on a loaded ledger: the loop over the listed
      fingerprints, returning the ledger that is then saved. */
  method RecordTaste(ledger: Ledger, hashes: seq<string>, now: string) returns (res: Ledger)
    ensures res == Tasted(ledger, hashes, now)
    ensures forall h :: h in hashes ==>
      h in res && res[h] == Row(CountOr0(ledger, h) + Occurrences(hashes, h), Some(now))
    ensures forall h :: h !in hashes ==> (h in res <==> h in ledger)
    ensures forall h :: h !in hashes && h in ledger ==> res[h] == ledger[h]
  {
    res := ledger;
    var i := 0;
    while i < |hashes|
      invariant 0 <= i <= |hashes|
      invariant Tasted(res, hashes[i..], now) == Tasted(ledger, hashes, now)
    {
      var h := hashes[i];
      TastedStep(res, hashes, i, now);
      if h !in res {
        res := res[h := Row(0, None)];
      }
      res := res[h := Row(res[h].tasteCount + 1, Some(now))];
      i := i + 1;
    }
    TastedSpec(ledger, hashes, now);
  }
}
