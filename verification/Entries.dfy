/** Cache keys and entries. */
module Entries {
  import opened Wrappers

  datatype CacheKey = CacheKey(group: Option<string>, domain: string, qtype: string)

  datatype CacheAnswer = CacheAnswer(value: string, ttl: real, rtype: nat, name: Option<string>)

  /** Times are in seconds; `seqNo` is the journal number of the last change. */
  datatype CacheEntry = CacheEntry(
    domain: string, qtype: string, answers: seq<CacheAnswer>, chosen: string,
    ttl: real, rcode: nat, expiresAt: real, ruleGen: nat, seqNo: nat)

  type Items = seq<(CacheKey, CacheEntry)>

  /** Expired, and not inside the stale window `sw` (0 means there is none). */
  predicate Removable(e: CacheEntry, now: real, sw: real) {
    e.expiresAt <= now && !(sw > 0.0 && now - e.expiresAt <= sw)
  }

  /** What is left of a lookup once expired entries are disregarded. */
  function Unexpired(e: Option<CacheEntry>, now: real): Option<CacheEntry> {
    if e.Some? && e.value.expiresAt > now then e else None
  }

  function ClampCapacity(n: nat): nat {
    if n < 16 then 16 else n
  }
}
