/**
 * The `clear-rate-limits` maintenance script: it deletes the rate-limit
 * counters of one client address from the key-value store.  The store is
 * the class `KeyStore` holding the set of key names; `KEYS` with a pattern
 * `<prefix>*` is the subset of names starting with the prefix.
 */
module ClearRateLimits {
  import opened Wrappers
  import opened JsString
  import RateLimiter

  /** The address used when no argument, or an empty one, is given. */
  const DefaultIp := "127.0.0.1"

  /** The prefixes of the three `KEYS` patterns; each pattern is its prefix followed by `*`. */
  const KeyPrefixes: seq<string> := ["auth_rate_limit", "api_rate_limit", "custom_rate_limit"]

  /** The address whose counters are cleared: the first command-line argument unless it is absent or empty. */
  function TargetIp(arg: Option<string>): (ip: string)
    ensures ip != []
    ensures arg.Some? && arg.value != [] ==> ip == arg.value
    ensures arg.None? || arg.value == [] ==> ip == DefaultIp
  {
    if arg.Some? && arg.value != [] then arg.value else DefaultIp
  }

  /** The three spellings of the local machine; the default address is one of them. */
  predicate IsLocalhost(ip: string)
    ensures ip == DefaultIp ==> IsLocalhost(ip)
    ensures IsLocalhost(ip) ==> ip != []
  {
    ip == "127.0.0.1" || ip == "::1" || ip == "localhost"
  }

  /**
   * A key names the address literally, with its dots as underscores, or with
   * its dots as dashes; for an address without dots that is the literal test alone.
   */
  predicate MentionsIp(key: string, ip: string)
    ensures Contains(key, ip) ==> MentionsIp(key, ip)
    ensures '.' !in ip ==> (MentionsIp(key, ip) <==> Contains(key, ip))
  {
    assert '.' !in ip ==> ReplaceChar(ip, '.', '_') == ip && ReplaceChar(ip, '.', '-') == ip;
    || Contains(key, ip)
    || Contains(key, ReplaceChar(ip, '.', '_'))
    || Contains(key, ReplaceChar(ip, '.', '-'))
  }

  /** The filter applied to the keys of each pattern: every key for a local address, otherwise the keys that mention it. */
  predicate SelectedFor(key: string, ip: string)
    ensures IsLocalhost(ip) ==> SelectedFor(key, ip)
    ensures Contains(key, ip) ==> SelectedFor(key, ip)
  {
    IsLocalhost(ip) || MentionsIp(key, ip)
  }

  /** The filter of the final sweep: the key contains the address, both lower-cased; a literal occurrence always passes. */
  predicate MentionsIgnoringCase(key: string, ip: string)
    ensures Contains(key, ip) ==> MentionsIgnoringCase(key, ip)
  {
    LowerKeepsContains(key, ip);
    Contains(Lower(key), Lower(ip))
  }

  /** The key matches one of the first `n` patterns. */
  predicate UnderPattern(key: string, n: nat)
    requires n <= |KeyPrefixes|
  {
    exists j :: 0 <= j < n && StartsWith(key, KeyPrefixes[j])
  }

  /** The keys among `keys` that the first `n` pattern passes delete. */
  ghost function PatternCleared(keys: set<string>, ip: string, n: nat): set<string>
    requires n <= |KeyPrefixes|
  {
    set k | k in keys && UnderPattern(k, n) && SelectedFor(k, ip)
  }

  /** Every key the script deletes from a store holding `keys`. */
  ghost function Cleared(keys: set<string>, ip: string): (r: set<string>)
    ensures r <= keys
  {
    set k | k in keys && ((UnderPattern(k, |KeyPrefixes|) && SelectedFor(k, ip)) || MentionsIgnoringCase(k, ip))
  }

  /** The closing message: how many keys were cleared, or that none were found. */
  datatype Message = ClearedKeys(count: nat) | NoKeysFound

  datatype Report = Report(ip: string, total: nat, message: Message)

  /** The key-value store, reduced to the names of its keys. */
  class KeyStore {
    var keys: set<string>

    constructor (keys: set<string>)
      ensures this.keys == keys
    {
      this.keys := keys;
    }

    /** `KEYS <prefix>*`: the stored keys that start with the prefix, and all of them. */
    function KeysMatching(prefix: string): (r: set<string>)
      reads this
      ensures r <= keys
      ensures forall k :: k in r ==> StartsWith(k, prefix)
      ensures forall k :: k in keys && StartsWith(k, prefix) ==> k in r
    {
      set k | k in keys && StartsWith(k, prefix)
    }

    /** `DEL` of a list of keys. */
    method Del(doomed: set<string>)
      modifies this
      ensures keys == old(keys) - doomed
    {
      keys := keys - doomed;
    }
  }

  /**
   * `clearRateLimits()`: it deletes every key of the three patterns that the
   * filter selects, then every remaining key that mentions the address in any
   * case, and reports how many keys it deleted.
   */
  method Clear(store: KeyStore, arg: Option<string>) returns (report: Report)
    modifies store
    ensures report.ip == TargetIp(arg)
    ensures store.keys == old(store.keys) - Cleared(old(store.keys), report.ip)
    ensures report.total == |old(store.keys) - store.keys|
    ensures forall k :: k in store.keys ==> !MentionsIgnoringCase(k, report.ip)
    ensures report.message == NoKeysFound <==> report.total == 0
    ensures report.message.ClearedKeys? ==> report.message.count == report.total
  {
    var ip := TargetIp(arg);
    ghost var start := store.keys;
    var total := ClearPatterns(store, ip);
    ghost var before := store.keys;
    var n := Sweep(store, ip);
    SweepStep(start, before, store.keys, ip, n);
    total := total + n;
    report := Report(ip, total, if total > 0 then ClearedKeys(total) else NoKeysFound);
  }

  /** The loop over the three patterns: it deletes the selected keys of each and counts them. */
  method ClearPatterns(store: KeyStore, ip: string) returns (total: nat)
    modifies store
    ensures store.keys == old(store.keys) - PatternCleared(old(store.keys), ip, |KeyPrefixes|)
    ensures total == |old(store.keys) - store.keys|
  {
    total := 0;
    ghost var start := store.keys;
    for i := 0 to |KeyPrefixes|
      invariant store.keys == start - PatternCleared(start, ip, i)
      invariant total == |start - store.keys|
    {
      ghost var before := store.keys;
      var n := ClearPattern(store, ip, KeyPrefixes[i]);
      PatternStep(start, before, store.keys, ip, i, n);
      total := total + n;
    }
  }

  /** The keys of `keys` under the pattern of `prefix` that the filter selects for `ip`. */
  ghost function Selected(keys: set<string>, ip: string, prefix: string): set<string> {
    set k | k in keys && StartsWith(k, prefix) && SelectedFor(k, ip)
  }

  /** The keys of `keys` that mention `ip` in any case. */
  ghost function Mentioning(keys: set<string>, ip: string): set<string> {
    set k | k in keys && MentionsIgnoringCase(k, ip)
  }

  /** One pass of the loop over the patterns: it deletes the selected keys of one pattern and counts them. */
  method ClearPattern(store: KeyStore, ip: string, prefix: string) returns (n: nat)
    modifies store
    ensures store.keys == old(store.keys) - Selected(old(store.keys), ip, prefix)
    ensures n == |Selected(old(store.keys), ip, prefix)|
  {
    var found := store.KeysMatching(prefix);
    n := 0;
    if found != {} {
      var isLocalhost := IsLocalhost(ip);
      var ipKeys := set k | k in found && (isLocalhost || MentionsIp(k, ip));
      assert ipKeys == Selected(store.keys, ip, prefix);
      if ipKeys != {} {
        store.Del(ipKeys);
        n := |ipKeys|;
      }
    } else {
      assert Selected(store.keys, ip, prefix) == {};
    }
  }

  /** The final sweep over all keys: it deletes those that mention the address in any case and counts them. */
  method Sweep(store: KeyStore, ip: string) returns (n: nat)
    modifies store
    ensures store.keys == old(store.keys) - Mentioning(old(store.keys), ip)
    ensures n == |Mentioning(old(store.keys), ip)|
  {
    var allKeys := store.keys;
    var remaining := set k | k in allKeys && Contains(Lower(k), Lower(ip));
    assert remaining == Mentioning(allKeys, ip);
    n := 0;
    if remaining != {} {
      store.Del(remaining);
      n := |remaining|;
    }
  }

  /** One pattern pass takes the store from the deletions of `i` patterns to those of `i + 1`, and counts what it deletes. */
  lemma PatternStep(start: set<string>, before: set<string>, after: set<string>, ip: string, i: nat, n: nat)
    requires i < |KeyPrefixes|
    requires before == start - PatternCleared(start, ip, i)
    requires after == before - Selected(before, ip, KeyPrefixes[i]) && n == |Selected(before, ip, KeyPrefixes[i])|
    ensures after == start - PatternCleared(start, ip, i + 1)
    ensures |start - after| == |start - before| + n
  {
    forall k | k in start
      ensures UnderPattern(k, i + 1) <==> UnderPattern(k, i) || StartsWith(k, KeyPrefixes[i])
    {
      if UnderPattern(k, i + 1) && !StartsWith(k, KeyPrefixes[i]) {
        var j :| 0 <= j < i + 1 && StartsWith(k, KeyPrefixes[j]);
        assert j < i;
      }
    }
    RemoveMore(start, before, Selected(before, ip, KeyPrefixes[i]));
  }

  /** The final sweep completes the deletions of `Cleared`, and counts what it deletes. */
  lemma SweepStep(start: set<string>, before: set<string>, after: set<string>, ip: string, n: nat)
    requires before == start - PatternCleared(start, ip, |KeyPrefixes|)
    requires after == before - Mentioning(before, ip) && n == |Mentioning(before, ip)|
    ensures after == start - Cleared(start, ip)
    ensures |start - after| == |start - before| + n
    ensures forall k :: k in after ==> !MentionsIgnoringCase(k, ip)
  {
    RemoveMore(start, before, Mentioning(before, ip));
  }

  /** Deleting a further subset `doomed` of what is left adds its size to the count of deleted keys. */
  lemma RemoveMore(start: set<string>, keys: set<string>, doomed: set<string>)
    requires keys <= start && doomed <= keys
    ensures |start - (keys - doomed)| == |start - keys| + |doomed|
  {
    assert start - (keys - doomed) == (start - keys) + doomed;
    assert (start - keys) * doomed == {};
  }

  /** For a local address every key of the three patterns is deleted, whatever it contains. */
  lemma LocalhostClearsEveryPattern(keys: set<string>, ip: string, key: string, j: nat)
    requires IsLocalhost(ip) && key in keys
    requires j < |KeyPrefixes| && StartsWith(key, KeyPrefixes[j])
    ensures key in Cleared(keys, ip)
  {
  }

  /**
   * For an address other than the local machine, the script deletes only keys
   * that name the address: literally, with its dots as underscores or dashes, or
   * in another letter case.  Whatever pattern a key matches, a key that does not
   * name the address stays.
   */
  lemma ForeignAddressClearsOnlyMentions(keys: set<string>, ip: string, key: string)
    requires !IsLocalhost(ip) && key in Cleared(keys, ip)
    ensures MentionsIp(key, ip) || MentionsIgnoringCase(key, ip)
  {
  }

  /** A stored key that names the address literally is deleted, whatever its prefix. */
  lemma SweepCatchesLiteral(keys: set<string>, key: string, ip: string)
    requires key in keys && Contains(key, ip)
    ensures key in Cleared(keys, ip)
  {
  }

  /** The patterns are pairwise exclusive: no key starts with two of the prefixes. */
  lemma PatternsExclusive(key: string, i: nat, j: nat)
    requires i < |KeyPrefixes| && j < |KeyPrefixes|
    requires StartsWith(key, KeyPrefixes[i]) && StartsWith(key, KeyPrefixes[j])
    ensures i == j
  {
    assert KeyPrefixes[0][..2] == "au" && KeyPrefixes[1][..2] == "ap" && KeyPrefixes[2][..2] == "cu";
    assert KeyPrefixes[i][..2] == key[..2] == KeyPrefixes[j][..2];
  }

  /**
   * The counter of a `checkRateLimit` call whose key names the address is
   * deleted: it lies under the `custom_rate_limit*` pattern and mentions the address.
   */
  lemma {:induction false} CustomCounterCleared(keys: set<string>, ip: string, key: string, now: nat, windowMs: nat)
    requires RateLimiter.StoreKey(key, now, windowMs) in keys
    requires Contains(key, ip)
    ensures RateLimiter.StoreKey(key, now, windowMs) in Cleared(keys, ip)
  {
    var sk := RateLimiter.StoreKey(key, now, windowMs);
    var p, rest := RateLimiter.CustomPrefix, ":" + RateLimiter.WindowLabel(now, windowMs);
    assert sk == p + key + rest;
    ContainsInside(p, key, rest, ip);
    CustomKeyUnderPattern(key, now, windowMs);
    assert UnderPattern(sk, |KeyPrefixes|) && SelectedFor(sk, ip);
  }

  /** A `checkRateLimit` counter lies under the `custom_rate_limit*` pattern. */
  lemma CustomKeyUnderPattern(key: string, now: nat, windowMs: nat)
    ensures UnderPattern(RateLimiter.StoreKey(key, now, windowMs), |KeyPrefixes|)
  {
    var sk := RateLimiter.StoreKey(key, now, windowMs);
    assert sk == RateLimiter.CustomPrefix + (key + ":" + RateLimiter.WindowLabel(now, windowMs));
    assert StartsWith(sk, KeyPrefixes[2]);
  }
}
