/** The entry fingerprint that keys the resonance ledger. */
module Fingerprint {
  import opened MyceliumTypes

  /** How many characters of the content take part in the key. */
  const CONTENT_PREFIX := 64
  /** How many hex digits of the digest are kept. */
  const HASH_LENGTH := 12

  /** The string that is digested: timestamp, agent and the first 64
      characters of the content, run together. */
  function EntryKey(e: Entry): (k: string)
    ensures |k| == |TsText(e)| + |AgentText(e)| + (if |ContentText(e)| <= CONTENT_PREFIX then |ContentText(e)| else CONTENT_PREFIX)
    ensures k[..|TsText(e)|] == TsText(e)
    ensures k[|TsText(e)|..|TsText(e)| + |AgentText(e)|] == AgentText(e)
    ensures k[|TsText(e)| + |AgentText(e)|..] <= ContentText(e)
  {
    TsText(e) + AgentText(e) + Take(ContentText(e), CONTENT_PREFIX)
  }

  /** The first 12 characters of the digest of the key (all of it when the
      digest is shorter). */
  function EntryHash(e: Entry, md5: string -> string): (h: string)
    ensures |h| == if |md5(EntryKey(e))| <= HASH_LENGTH then |md5(EntryKey(e))| else HASH_LENGTH
    ensures |h| <= HASH_LENGTH
    ensures h <= md5(EntryKey(e))
  {
    Take(md5(EntryKey(e)), HASH_LENGTH)
  }

  /** Two entries with the same timestamp, agent and first 64 characters of
      content share a fingerprint whatever else differs, whatever the digest. */
  lemma SameKeySameHash(a: Entry, b: Entry, md5: string -> string)
    requires TsText(a) == TsText(b) && AgentText(a) == AgentText(b)
    requires Take(ContentText(a), CONTENT_PREFIX) == Take(ContentText(b), CONTENT_PREFIX)
    ensures EntryKey(a) == EntryKey(b)
    ensures EntryHash(a, md5) == EntryHash(b, md5)
  {
  }

  /** Content beyond the 64th character does not reach the fingerprint. */
  lemma ContentTailIgnored(e: Entry, tail: string, md5: string -> string)
    requires |ContentText(e)| >= CONTENT_PREFIX
    ensures EntryHash(e.(content := Some(ContentText(e) + tail)), md5) == EntryHash(e, md5)
  {
    var e' := e.(content := Some(ContentText(e) + tail));
    assert Take(ContentText(e'), CONTENT_PREFIX) == Take(ContentText(e), CONTENT_PREFIX);
  }
}
