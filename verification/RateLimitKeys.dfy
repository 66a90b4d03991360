/**
 * The keys the middleware counts under (middleware/ratelimit.go): never empty, of bounded length,
 * and with a bounded choice of methods.
 */
module RateLimitKeys {
  import opened RateLimitStore
  import opened RateLimitBounds

  const MAX_PATTERN: nat := 256
  const OTHER_METHOD := "OTHER"

  function NormalizeMethod(method_: string): (r: string)
    ensures r in METHODS
  {
    if method_ in METHODS[..9] then method_ else OTHER_METHOD
  }

  const METHODS := ["GET", "HEAD", "POST", "PUT", "PATCH", "DELETE", "CONNECT", "OPTIONS", "TRACE", OTHER_METHOD]

  /** The first eight bytes of a digest, in hexadecimal. */
  type Digest = f: string -> string | forall s :: |f(s)| == 16 witness (s => "0123456789abcdef")

  function KeyPattern(digest: Digest, pattern: string): string {
    if |pattern| > MAX_PATTERN then pattern[..MAX_PATTERN] + "#" + digest(pattern) else pattern
  }

  function Joined(name: string, pattern: string, ip: string): string { name + " " + pattern + ":" + ip }

  function RateLimitKey(digest: Digest, method_: string, pattern: string, ip: string): string {
    Joined(NormalizeMethod(method_), KeyPattern(digest, pattern), ip)
  }

  lemma MethodShape(name: string)
    requires name in METHODS
    ensures |name| <= 7 && ' ' !in name
  {}

  lemma JoinedParts(name: string, pattern: string, ip: string)
    ensures var key := Joined(name, pattern, ip);
      && |key| == |name| + |pattern| + |ip| + 2
      && key[..|name|] == name && key[|name|] == ' '
      && key[|name| + 1..|name| + 1 + |pattern|] == pattern
  {}

  lemma KeyPatternLength(digest: Digest, pattern: string)
    ensures |KeyPattern(digest, pattern)| <= MAX_PATTERN + 17
    ensures |pattern| > MAX_PATTERN ==> |KeyPattern(digest, pattern)| == MAX_PATTERN + 17
  {}

  /** Keys are never empty and no longer than the address plus a constant, whatever method was sent. */
  lemma KeyBounded(digest: Digest, method_: string, pattern: string, ip: string)
    ensures var key := RateLimitKey(digest, method_, pattern, ip);
      key != "" && |key| <= MAX_PATTERN + 26 + |ip|
  {
    MethodShape(NormalizeMethod(method_));
    KeyPatternLength(digest, pattern);
    JoinedParts(NormalizeMethod(method_), KeyPattern(digest, pattern), ip);
  }

  /** Two spellings of one key with the same address: a name without spaces ends at the first space. */
  lemma JoinedApart(name1: string, pattern1: string, name2: string, pattern2: string, ip: string)
    requires ' ' !in name1 && ' ' !in name2 && Joined(name1, pattern1, ip) == Joined(name2, pattern2, ip)
    ensures name1 == name2 && pattern1 == pattern2
  {
    var key := Joined(name1, pattern1, ip);
    JoinedParts(name1, pattern1, ip);
    JoinedParts(name2, pattern2, ip);
    EndsAtSpace(name1, key, |name2|);
    EndsAtSpace(name2, key, |name1|);
  }

  lemma EndsAtSpace(name: string, key: string, n: nat)
    requires name <= key && ' ' !in name && n < |key| && key[n] == ' '
    ensures |name| <= n
  {}

  /** A shortened pattern is longer than any that is kept whole. */
  lemma PatternsApart(digest: Digest, p: string, q: string)
    requires KeyPattern(digest, p) == KeyPattern(digest, q)
    ensures p == q || (|p| > MAX_PATTERN && |q| > MAX_PATTERN && p[..MAX_PATTERN] == q[..MAX_PATTERN] && digest(p) == digest(q))
  {
    if |p| > MAX_PATTERN && |q| > MAX_PATTERN {
      assert KeyPattern(digest, p)[..MAX_PATTERN] == p[..MAX_PATTERN];
      assert KeyPattern(digest, q)[..MAX_PATTERN] == q[..MAX_PATTERN];
      assert KeyPattern(digest, p)[MAX_PATTERN + 1..] == digest(p);
      assert KeyPattern(digest, q)[MAX_PATTERN + 1..] == digest(q);
    }
  }

  /**
   * For one address two requests share a counter only under the same method, up to folding, and
   * the same pattern, up to a digest collision of long patterns.
   */
  lemma SharedKey(digest: Digest, method1: string, pattern1: string, method2: string, pattern2: string, ip: string)
    requires RateLimitKey(digest, method1, pattern1, ip) == RateLimitKey(digest, method2, pattern2, ip)
    ensures NormalizeMethod(method1) == NormalizeMethod(method2)
    ensures pattern1 == pattern2 || (&& |pattern1| > MAX_PATTERN && |pattern2| > MAX_PATTERN
                                     && pattern1[..MAX_PATTERN] == pattern2[..MAX_PATTERN] && digest(pattern1) == digest(pattern2))
  {
    MethodShape(NormalizeMethod(method1));
    MethodShape(NormalizeMethod(method2));
    JoinedApart(NormalizeMethod(method1), KeyPattern(digest, pattern1), NormalizeMethod(method2), KeyPattern(digest, pattern2), ip);
    PatternsApart(digest, pattern1, pattern2);
  }

  /** Requests as the middleware makes them. */
  ghost predicate FromMiddleware(digest: Digest, events: seq<Event>) {
    forall i {:trigger events[i].Allow?} :: 0 <= i < |events| && events[i].Allow? ==>
      exists request: (string, string, string) {:trigger RateLimitKey(digest, request.0, request.1, request.2)} ::
        events[i].key == RateLimitKey(digest, request.0, request.1, request.2)
  }

  /** So under the middleware the store's memory bound always holds. */
  lemma MiddlewareKeepsCapacity(digest: Digest, perShard: nat, events: seq<Event>)
    requires Possible(EmptyStore(perShard), events) && FromMiddleware(digest, events)
    ensures perShard > 0 ==> Entries(Final(EmptyStore(perShard), events).shards) <= perShard * SHARDS
  {
    forall i | 0 <= i < |events| && events[i].Allow?
      ensures events[i].key != ""
    {
      var request: (string, string, string) :| events[i].key == RateLimitKey(digest, request.0, request.1, request.2);
      KeyBounded(digest, request.0, request.1, request.2);
    }
    CapacityHolds(perShard, events);
  }
}
