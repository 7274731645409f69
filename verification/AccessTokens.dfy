/** The access-token cache: one token per base URL that intake resolved, looked up by longest
    path prefix, with a bounded record of mint failures beside it. */
module AccessTokens {
  import opened Options
  import opened JsonValues
  import opened OrderedDict

  type Url = string

  // Microseconds, as Python's datetime counts them.
  type Instant = int

  const SECOND: int := 1_000_000
  const REFRESH_BUFFER: int := 120 * SECOND
  const DEFAULT_TTL: int := 3600 * SECOND
  const FAILURE_CAP: nat := 64

  // ---- What a mint answers ----

  datatype Outcome = Success | CredentialRejected | RequestRejected | ServerError | TransportError

  datatype TokenResult = TokenResult(outcome: Outcome, status: Option<int>, payload: Option<Json>)

  // Intake's HTTP answer; no body when it could not be parsed.
  datatype Reply = Reply(status: int, body: Option<Json>)

  predicate Present(field: Option<Json>) {
    field.Some? && field.value.Str? && field.value.s != ""
  }

  predicate UsablePayload(payload: Option<Json>) {
    Present(MemberOf(payload, "token")) && Present(MemberOf(payload, "base_url"))
  }

  function OutcomeOf(status: int): Outcome {
    if 200 <= status < 300 then Success
    else if status == 401 then CredentialRejected
    else if 400 <= status < 500 then RequestRejected
    else ServerError
  }

  /** Status first, body second; the body only decides whether a 2xx minted a token. */
  function Classify(reply: Option<Reply>): TokenResult {
    match reply
    case None => TokenResult(TransportError, None, None)
    case Some(Reply(status, body)) =>
      if OutcomeOf(status) == Success && !UsablePayload(body) then TokenResult(ServerError, Some(status), body)
      else TokenResult(OutcomeOf(status), Some(status), body)
  }

  /** The reply carries text, and not nothing, under this name. */
  predicate Says(reply: Option<Reply>, name: string) {
    reply.Some? &&
    match MemberOf(reply.value.body, name)
    case Some(Str(text)) => text != ""
    case _ => false
  }

  /** SUCCESS is exactly a 2xx with a token and a base URL; a rejected credential is exactly
      a 401, readable or not; a rejected request any other 4xx; and only a missing answer is a
      transport error. Status and body are reported as they came. */
  lemma ClassifyMeaning(reply: Option<Reply>)
    ensures var r := Classify(reply);
      && (r.outcome == Success <==>
            reply.Some? && 200 <= reply.value.status <= 299 && Says(reply, "token") && Says(reply, "base_url"))
      && (r.outcome == Success ==> UsablePayload(r.payload))
      && (r.outcome == CredentialRejected <==> reply.Some? && reply.value.status == 401)
      && (r.outcome == RequestRejected <==> reply.Some? && 400 <= reply.value.status <= 499 && reply.value.status != 401)
      && (r.outcome == TransportError <==> reply.None?)
      && r.status == (if reply.Some? then Some(reply.value.status) else None)
      && r.payload == (if reply.Some? then reply.value.body else None)
  {
  }

  // ---- The cache as a value ----

  // When a token expires: an instant, or a datetime without an offset, which Python refuses to
  // compare with the current time.
  datatype Expiry = Aware(at: Instant) | Naive

  datatype Token = Token(token: string, expiredAt: Expiry)

  type Entries = Dict<Url, Token>
  type Failures = Dict<Url, TokenResult>

  datatype Store = Store(entries: Entries, failures: Failures)

  ghost predicate Valid(s: Store) {
    Distinct(s.entries) && Distinct(s.failures) && |s.failures| <= 64
  }

  /** Exact match or path prefix, with no normalization on either side. */
  predicate Covers(key: Url, url: Url): (covers: bool)
    ensures covers <==> key <= url && (|url| == |key| || url[|key|] == '/')
  {
    url == key || key + "/" <= url
  }

  /** One pass over the keys in dict order, keeping a strictly longer one. */
  function MatchFrom<V>(url: Url, d: Dict<Url, V>, best: Option<Url>): Option<Url>
    decreases |d|
  {
    if d == [] then best
    else
      var key := d[0].key;
      MatchFrom(url, d[1..], if Covers(key, url) && (best.None? || |key| > |best.value|) then Some(key) else best)
  }

  function MatchKey<V>(url: Url, d: Dict<Url, V>): Option<Url> {
    if url == "" then None else MatchFrom(url, d, None)
  }

  predicate Usable(t: Token, now: Instant) {
    t.expiredAt.Aware? && t.expiredAt.at > now + REFRESH_BUFFER
  }

  /** Asking whether the match is usable raises a TypeError. */
  predicate Incomparable(entries: Entries, url: Url) {
    var matched := MatchKey(url, entries);
    matched.Some? &&
      var held := Get(entries, matched.value);
      held.Some? && held.value.expiredAt.Naive?
  }

  // A usable entry found for a URL.
  datatype Hit = Hit(key: Url, held: Token)

  function CachedHit(entries: Entries, url: Url, now: Instant): Option<Hit> {
    match MatchKey(url, entries)
    case None => None
    case Some(key) =>
      match Get(entries, key)
      case Some(held) => if Usable(held, now) then Some(Hit(key, held)) else None
      case None => None
  }

  // What a caller of token_result gets.
  datatype Answer = BadUrl | Cached(hit: Hit) | Fresh(result: TokenResult) | Raised

  function Text(payload: Option<Json>, name: string): string
    requires Present(MemberOf(payload, name))
  {
    MemberOf(payload, name).value.s
  }

  /** The entries a successful mint publishes: the refreshed entry goes when intake resolved
      the URL to another key, so that it cannot shadow the new one. */
  function Refreshed(entries: Entries, matched: Option<Url>, key: Url, held: Token): Entries {
    Put(if matched.Some? && matched.value != key then Without(entries, matched.value) else entries, key, held)
  }

  function Dropped(entries: Entries, matched: Option<Url>): Entries {
    if matched.Some? then Without(entries, matched.value) else entries
  }

  /** The URL itself, and whatever the key covers. */
  predicate Answered(url: Url, key: Url, failed: Url): (answered: bool)
    ensures answered <==> failed == url || Covers(key, failed)
  {
    failed == url || failed == key || key + "/" <= failed
  }

  /** The failures left once a mint for `url` was answered under `key`. */
  function Forget(failures: Failures, url: Url, key: Url): Failures {
    Filter(failures, (p: Pair<Url, TokenResult>) => !Answered(url, key, p.key))
  }

  function Trim(failures: Failures): Failures {
    if |failures| > FAILURE_CAP then Trim(failures[1..]) else failures
  }

  function Record(failures: Failures, url: Url, result: TokenResult): Failures {
    Trim(Put(failures, url, result))
  }

  function AfterMint(s: Store, url: Url, matched: Option<Url>, result: TokenResult, expiry: Expiry): Store
    requires result.outcome == Success ==> UsablePayload(result.payload)
  {
    if result.outcome == Success then
      var key := Text(result.payload, "base_url");
      var held := Token(Text(result.payload, "token"), expiry);
      Store(Refreshed(s.entries, matched, key, held), Forget(s.failures, url, key))
    else Store(Dropped(s.entries, matched), Record(s.failures, url, result))
  }

  // The outside world during one call: three clock readings, and intake's answer or an
  // exception that is not a transport error.
  datatype World = World(atFastRead: Instant, atLockedRead: Instant, atStore: Instant, raises: bool, reply: Option<Reply>)

  /** The expiry intake sent, or an hour from now when it sent none that can be read. */
  function ParseExpiry(payload: Option<Json>, iso: string -> Option<Expiry>, now: Instant): Expiry {
    var field := MemberOf(payload, "expired_at");
    if field.Some? && field.value.Str? && iso(field.value.s).Some? then iso(field.value.s).value
    else Aware(now + DEFAULT_TTL)
  }

  function TokenCall(s: Store, url: Url, iso: string -> Option<Expiry>, w: World): (Store, Answer) {
    if Incomparable(s.entries, url) then (s, Raised)
    else match CachedHit(s.entries, url, w.atFastRead)
    case Some(hit) => (s, Cached(hit))
    case None =>
      match CachedHit(s.entries, url, w.atLockedRead)
      case Some(hit) => (s, Cached(hit))
      case None =>
        if w.raises then (s, Raised)
        else
          var result := Classify(w.reply);
          (AfterMint(s, url, MatchKey(url, s.entries), result, ParseExpiry(result.payload, iso, w.atStore)), Fresh(result))
  }

  function LastFailure(s: Store, url: Url): Option<TokenResult> {
    match MatchKey(url, s.failures)
    case Some(key) => Get(s.failures, key)
    case None => None
  }

  // ---- The singleton ----

  class AccessTokens {
    const iso: string -> Option<Expiry>
    var entries: Entries
    var failures: Failures

    ghost function Contents(): Store
      reads this
    {
      Store(entries, failures)
    }

    constructor (iso: string -> Option<Expiry>)
      ensures Contents() == Store([], []) && this.iso == iso
    {
      this.iso := iso;
      entries, failures := [], [];
    }

    static method Longest<V>(url: Url, d: Dict<Url, V>) returns (best: Option<Url>)
      ensures best == MatchKey(url, d)
    {
      if url == "" {
        return None;
      }
      best := None;
      assert d[0..] == d;
      for i := 0 to |d|
        invariant MatchFrom(url, d[i..], best) == MatchFrom(url, d, None)
      {
        assert d[i..][1..] == d[i + 1..];
        if Covers(d[i].key, url) && (best.None? || |d[i].key| > |best.value|) {
          best := Some(d[i].key);
        }
      }
    }

    /** `url` is the caller's URL without userinfo, query and fragment, or None when it is
        not an http or https URL with a host. */
    method TokenResultFor(url: Option<Url>, w: World) returns (answer: Answer)
      modifies this
      ensures url.None? ==> answer == BadUrl && Contents() == old(Contents())
      ensures url.Some? ==> (Contents(), answer) == TokenCall(old(Contents()), url.value, iso, w)
    {
      if url.None? {
        return BadUrl;
      }
      var base := url.value;
      if Incomparable(entries, base) {
        return Raised;
      }
      var cached := CachedHit(entries, base, w.atFastRead);
      if cached.Some? {
        return Cached(cached.value);
      }
      cached := CachedHit(entries, base, w.atLockedRead);
      if cached.Some? {
        return Cached(cached.value);
      }
      var matched := Longest(base, entries);
      if w.raises {
        return Raised;
      }
      var result := Classify(w.reply);
      if result.outcome == Success {
        var key := Text(result.payload, "base_url");
        var kept := entries;
        if matched.Some? && matched.value != key {
          kept := Without(kept, matched.value);
        }
        entries := Put(kept, key, Token(Text(result.payload, "token"), ParseExpiry(result.payload, iso, w.atStore)));
        failures := Forget(failures, base, key);
        return Fresh(result);
      }
      if matched.Some? {
        entries := Without(entries, matched.value);
      }
      RecordFailure(base, result);
      return Fresh(result);
    }

    method RecordFailure(url: Url, result: TokenResult)
      modifies this`failures
      ensures failures == Record(old(failures), url, result)
    {
      var recorded := Put(failures, url, result);
      while |recorded| > FAILURE_CAP
        invariant Trim(recorded) == Record(failures, url, result)
        decreases |recorded|
      {
        recorded := recorded[1..];
      }
      failures := recorded;
    }

    method LastFailureFor(url: Option<Url>) returns (failure: Option<TokenResult>)
      ensures failure == if url.Some? then LastFailure(Contents(), url.value) else None
    {
      if url.None? {
        return None;
      }
      var key := Longest(url.value, failures);
      return if key.Some? then Get(failures, key.value) else None;
    }

    /** Drops the token the caller was rejected with, if it is still held. */
    method Invalidate(stale: Option<string>)
      modifies this`entries
      ensures entries == Invalidated(old(entries), stale)
      // Key by key: an entry goes exactly if it holds the stale token.
      ensures Distinct(old(entries)) ==> Distinct(entries) && forall k ::
        Get(entries, k) == if stale.Some? && Holds(old(entries), k, stale.value) then None else Get(old(entries), k)
    {
      if Distinct(entries) {
        InvalidatedGet(entries, stale);
      }
      if stale.Some? {
        entries := Filter(entries, (p: Pair<Url, Token>) => p.value.token != stale.value);
      }
    }

    method Clear()
      modifies this
      ensures Contents() == Store([], [])
    {
      entries, failures := [], [];
    }
  }

  function Invalidated(entries: Entries, stale: Option<string>): Entries {
    if stale.None? then entries
    else Filter(entries, (p: Pair<Url, Token>) => p.value.token != stale.value)
  }

  predicate Holds(entries: Entries, key: Url, token: string) {
    var held := Get(entries, key);
    held.Some? && held.value.token == token
  }

  lemma InvalidatedGet(entries: Entries, stale: Option<string>)
    requires Distinct(entries)
    ensures var kept := Invalidated(entries, stale);
      Distinct(kept) && forall k ::
        Get(kept, k) == if stale.Some? && Holds(entries, k, stale.value) then None else Get(entries, k)
  {
    if stale.Some? {
      FilterLaws(entries, (p: Pair<Url, Token>) => p.value.token != stale.value);
      var kept := Invalidated(entries, stale);
      forall k
        ensures Get(kept, k) == if Holds(entries, k, stale.value) then None else Get(entries, k)
      {
        assert k in KeySet(kept) <==> k in KeySet(entries) && entries[Find(entries, k)].value.token != stale.value;
      }
    }
  }

  // ---- Lookup ----

  /** `k` is the longest key that covers the URL. */
  ghost predicate LongestCover(url: Url, keys: set<Url>, k: Option<Url>) {
    match k
    case None => url == "" || forall key :: key in keys ==> !Covers(key, url)
    case Some(b) => url != "" && b in keys && Covers(b, url) && forall key :: key in keys && Covers(key, url) ==> |key| <= |b|
  }

  lemma FirstKey<V>(d: Dict<Url, V>)
    requires d != []
    ensures KeySet(d) == {d[0].key} + KeySet(d[1..])
  {
    assert d == [d[0]] + d[1..];
  }

  lemma {:induction false} MatchFromLongest<V>(url: Url, d: Dict<Url, V>, seen: set<Url>, best: Option<Url>)
    requires url != "" && LongestCover(url, seen, best)
    ensures LongestCover(url, seen + KeySet(d), MatchFrom(url, d, best))
    decreases |d|
  {
    if d == [] {
      assert seen + KeySet(d) == seen;
    } else {
      var key := d[0].key;
      var better := if Covers(key, url) && (best.None? || |key| > |best.value|) then Some(key) else best;
      assert LongestCover(url, seen + {key}, better);
      MatchFromLongest(url, d[1..], seen + {key}, better);
      FirstKey(d);
      assert seen + KeySet(d) == seen + {key} + KeySet(d[1..]);
    }
  }

  lemma MatchKeyLongest<V>(url: Url, d: Dict<Url, V>)
    ensures LongestCover(url, KeySet(d), MatchKey(url, d))
  {
    if url != "" {
      MatchFromLongest(url, d, {}, None);
      assert {} + KeySet(d) == KeySet(d);
    }
  }

  /** Two keys of one length that cover the same URL are the same prefix of it. */
  lemma LongestUnique(url: Url, keys: set<Url>, a: Option<Url>, b: Option<Url>)
    requires LongestCover(url, keys, a) && LongestCover(url, keys, b)
    ensures a == b
  {
    if a.Some? && b.Some? {
      assert |a.value| == |b.value|;
      assert a.value == url[..|a.value|] && b.value == url[..|b.value|];
    }
  }

  /** The order in which a dict lists its keys does not decide a lookup. */
  lemma LookupIgnoresOrder<V, W>(url: Url, d: Dict<Url, V>, e: Dict<Url, W>)
    requires KeySet(d) == KeySet(e)
    ensures MatchKey(url, d) == MatchKey(url, e)
  {
    MatchKeyLongest(url, d);
    MatchKeyLongest(url, e);
    LongestUnique(url, KeySet(d), MatchKey(url, d), MatchKey(url, e));
  }

  // ---- What a call answers ----

  /** In instants: this entry is held under the longest key that covers the URL, and expires more
      than two minutes after the clock reading. */
  ghost predicate HeldBeyond(entries: Entries, url: Url, hit: Hit, now: Instant) {
    && LongestCover(url, KeySet(entries), Some(hit.key)) && Get(entries, hit.key) == Some(hit.held)
    && hit.held.expiredAt.Aware? && hit.held.expiredAt.at - now > 120_000_000
  }

  lemma HitIsHeldBeyond(entries: Entries, url: Url, hit: Hit, now: Instant)
    ensures CachedHit(entries, url, now) == Some(hit) <==> HeldBeyond(entries, url, hit, now)
  {
    MatchKeyLongest(url, entries);
    if HeldBeyond(entries, url, hit, now) {
      LongestUnique(url, KeySet(entries), MatchKey(url, entries), Some(hit.key));
    }
  }

  /** A call is answered from the cache exactly with an entry that has more than two minutes left at
      one of the call's two readings of the clock, and then leaves the store alone. */
  lemma CachedExactly(s: Store, url: Url, iso: string -> Option<Expiry>, w: World, hit: Hit)
    ensures TokenCall(s, url, iso, w) == (s, Cached(hit)) <==>
      HeldBeyond(s.entries, url, hit, w.atFastRead) || HeldBeyond(s.entries, url, hit, w.atLockedRead)
    ensures TokenCall(s, url, iso, w).1.Cached? ==> TokenCall(s, url, iso, w).0 == s
  {
    HitIsHeldBeyond(s.entries, url, hit, w.atFastRead);
    HitIsHeldBeyond(s.entries, url, hit, w.atLockedRead);
  }

  /** When the token that intake sent expires: at the time it sent, if that can be read, else an hour
      from now. */
  lemma ExpiryMeaning(payload: Option<Json>, iso: string -> Option<Expiry>, now: Instant)
    ensures var expiry := ParseExpiry(payload, iso, now);
      match MemberOf(payload, "expired_at")
      case Some(Str(text)) =>
        (forall e :: iso(text) == Some(e) ==> expiry == e) && (iso(text) == None ==> expiry == Aware(now + 3_600_000_000))
      case _ => expiry == Aware(now + 3_600_000_000)
  {
  }

  /** A successful mint stores intake's token under intake's base URL; of the other entries only the
      one it refreshed goes. */
  lemma SuccessStores(s: Store, url: Url, iso: string -> Option<Expiry>, w: World, key: Url, token: string)
    requires Valid(s)
    requires var a := TokenCall(s, url, iso, w).1;
      && a.Fresh? && a.result.outcome == Success
      && MemberOf(a.result.payload, "base_url") == Some(Str(key)) && MemberOf(a.result.payload, "token") == Some(Str(token))
    ensures var (t, a) := TokenCall(s, url, iso, w);
      && Get(t.entries, key) == Some(Token(token, ParseExpiry(a.result.payload, iso, w.atStore)))
      && forall k :: k != key ==>
           Get(t.entries, k) == if LongestCover(url, KeySet(s.entries), Some(k)) then None else Get(s.entries, k)
  {
    var matched := MatchKey(url, s.entries);
    MatchKeyLongest(url, s.entries);
    forall k | LongestCover(url, KeySet(s.entries), Some(k)) ensures matched == Some(k) {
      LongestUnique(url, KeySet(s.entries), matched, Some(k));
    }
    var a := TokenCall(s, url, iso, w).1;
    var held := Token(token, ParseExpiry(a.result.payload, iso, w.atStore));
    assert TokenCall(s, url, iso, w).0.entries == Refreshed(s.entries, matched, key, held);
    RefreshedGet(s.entries, matched, key, held);
  }

  lemma RefreshedGet(entries: Entries, matched: Option<Url>, key: Url, held: Token)
    requires Distinct(entries)
    ensures var after := Refreshed(entries, matched, key, held);
      && Get(after, key) == Some(held)
      && (forall k :: k != key ==> Get(after, k) == if matched == Some(k) then None else Get(entries, k))
      && KeySet(after) == (if matched.Some? then KeySet(entries) - {matched.value} else KeySet(entries)) + {key}
  {
    var kept := if matched.Some? && matched.value != key then Without(entries, matched.value) else entries;
    if matched.Some? {
      WithoutLaws(entries, matched.value);
    }
    PutLaws(kept, key, held);
  }

  // ---- Failures ----

  /** Recording a failure writes over the URL's own record in place; a new one goes to the end, and
      with 64 there already the oldest goes. */
  lemma RecordExactly(failures: Failures, url: Url, result: TokenResult)
    requires Distinct(failures) && |failures| <= 64
    ensures var i, entry := Find(failures, url), Pair(url, result);
      Record(failures, url, result) ==
        if url in KeySet(failures) then failures[i := entry]
        else if |failures| < 64 then failures + [entry]
        else failures[1..] + [entry]
  {
    var put := Put(failures, url, result);
    if |put| > 64 {
      assert Trim(put) == Trim(put[1..]) == put[1..];
    }
  }

  lemma {:induction false} TrimLaws(failures: Failures)
    requires Distinct(failures)
    ensures Distinct(Trim(failures)) && |Trim(failures)| <= FAILURE_CAP
    ensures |failures| <= FAILURE_CAP ==> Trim(failures) == failures
    ensures |failures| > 0 ==> Trim(failures) != [] && Trim(failures)[|Trim(failures)| - 1] == failures[|failures| - 1]
    decreases |failures|
  {
    if |failures| > FAILURE_CAP {
      TrimLaws(failures[1..]);
    }
  }

  lemma RecordLaws(failures: Failures, url: Url, result: TokenResult)
    requires Distinct(failures) && |failures| <= FAILURE_CAP
    ensures Distinct(Record(failures, url, result)) && |Record(failures, url, result)| <= FAILURE_CAP
    ensures Get(Record(failures, url, result), url) == Some(result)
  {
    var put := Put(failures, url, result);
    PutLaws(failures, url, result);
    TrimLaws(put);
    if url !in KeySet(failures) {
      var kept := Trim(put);
      GetAt(kept, |kept| - 1);
    }
  }

  /** Every operation keeps the store well-formed, the failure cap included. */
  lemma CallKeepsValid(s: Store, url: Url, iso: string -> Option<Expiry>, w: World)
    requires Valid(s)
    ensures Valid(TokenCall(s, url, iso, w).0)
  {
    var (t, _) := TokenCall(s, url, iso, w);
    if t != s {
      var result := Classify(w.reply);
      AfterMintKeepsValid(s, url, MatchKey(url, s.entries), result, ParseExpiry(result.payload, iso, w.atStore));
    }
  }

  lemma AfterMintKeepsValid(s: Store, url: Url, matched: Option<Url>, result: TokenResult, expiry: Expiry)
    requires Valid(s)
    requires result.outcome == Success ==> UsablePayload(result.payload)
    ensures Valid(AfterMint(s, url, matched, result, expiry))
  {
    if matched.Some? {
      WithoutLaws(s.entries, matched.value);
    }
    if result.outcome == Success {
      var key := Text(result.payload, "base_url");
      var kept := if matched.Some? && matched.value != key then Without(s.entries, matched.value) else s.entries;
      PutLaws(kept, key, Token(Text(result.payload, "token"), expiry));
      FilterDistinct(s.failures, (p: Pair<Url, TokenResult>) => !Answered(url, key, p.key));
      FilterShorter(s.failures, (p: Pair<Url, TokenResult>) => !Answered(url, key, p.key));
    } else {
      RecordLaws(s.failures, url, result);
    }
  }

  lemma {:induction false} FilterShorter<K, V>(d: Dict<K, V>, keep: Pair<K, V> -> bool)
    ensures |Filter(d, keep)| <= |d|
    decreases |d|
  {
    if d != [] {
      FilterShorter(d[1..], keep);
    }
  }

  /** A failed mint removes exactly the longest match, keeps every other entry, and is what
      last_failure answers next. */
  lemma FailedMint(s: Store, url: Url, iso: string -> Option<Expiry>, w: World)
    requires Valid(s) && url != ""
    requires var (_, a) := TokenCall(s, url, iso, w); a.Fresh? && a.result.outcome != Success
    ensures var (t, a) := TokenCall(s, url, iso, w);
      && (match MatchKey(url, s.entries)
          case None => t.entries == s.entries
          case Some(stale) =>
            && KeySet(t.entries) == KeySet(s.entries) - {stale}
            && forall k :: k != stale ==> Get(t.entries, k) == Get(s.entries, k))
      && LastFailure(t, url) == Some(a.result)
  {
    var (t, a) := TokenCall(s, url, iso, w);
    var matched := MatchKey(url, s.entries);
    if matched.Some? {
      WithoutLaws(s.entries, matched.value);
    }
    RecordLaws(s.failures, url, a.result);
    MatchKeyLongest(url, t.failures);
    ExactMatch(url, t.failures);
  }

  /** A URL's own record is its longest match. */
  lemma ExactMatch<V>(url: Url, d: Dict<Url, V>)
    requires url != "" && url in KeySet(d)
    ensures MatchKey(url, d) == Some(url)
  {
    MatchKeyLongest(url, d);
    LongestUnique(url, KeySet(d), MatchKey(url, d), Some(url));
  }

  /** After a successful mint for `url` under `key`, no record is left at the URL, at the key
      or under the key, and every other record stays. */
  lemma SuccessForgets(s: Store, url: Url, iso: string -> Option<Expiry>, w: World)
    requires Valid(s)
    requires var (_, a) := TokenCall(s, url, iso, w); a.Fresh? && a.result.outcome == Success
    ensures var (t, a) := TokenCall(s, url, iso, w);
      var key := Text(a.result.payload, "base_url");
      && (forall f :: f in KeySet(t.failures) <==> f in KeySet(s.failures) && !Answered(url, key, f))
      && (forall f :: f in KeySet(t.failures) ==> Get(t.failures, f) == Get(s.failures, f))
  {
    var (t, a) := TokenCall(s, url, iso, w);
    var key := Text(a.result.payload, "base_url");
    FilterLaws(s.failures, (p: Pair<Url, TokenResult>) => !Answered(url, key, p.key));
  }

  /** So last_failure is None after a success exactly when no proper prefix of the URL had a
      record outside the key: a failure of a shorter URL survives. */
  lemma FailureAfterSuccess(s: Store, url: Url, iso: string -> Option<Expiry>, w: World)
    requires Valid(s) && url != ""
    requires var (_, a) := TokenCall(s, url, iso, w); a.Fresh? && a.result.outcome == Success
    ensures var (t, a) := TokenCall(s, url, iso, w);
      var key := Text(a.result.payload, "base_url");
      LastFailure(t, url).None? <==>
        forall f :: f in KeySet(s.failures) && f != url && Covers(f, url) ==> f == key || key + "/" <= f
  {
    var (t, a) := TokenCall(s, url, iso, w);
    var key := Text(a.result.payload, "base_url");
    SuccessForgets(s, url, iso, w);
    MatchKeyLongest(url, t.failures);
    forall f | f in KeySet(s.failures) && f != url && Covers(f, url) && !Answered(url, key, f)
      ensures LastFailure(t, url).Some?
    {
      assert f in KeySet(t.failures);
    }
  }

  function MintBody(token: string, key: Url): Json {
    Obj([Member("token", Str(token)), Member("base_url", Str(key))])
  }

  lemma MintBodyUsable(token: string, key: Url)
    requires token != "" && key != ""
    ensures var body := Some(MintBody(token, key));
      UsablePayload(body) && Text(body, "token") == token && Text(body, "base_url") == key
  {
    var ms := MintBody(token, key).members;
    assert |"token"| != |"base_url"|;
    assert KeyIndex(ms, "token") == 0;
    assert ms[1..][0] == ms[1] && KeyIndex(ms, "base_url") == 1;
  }

  /** The surviving record, in a run of two calls from the start: the host's mint is never answered,
      then a resource below it is minted under its own key, and the host's failure is still what
      last_failure answers for the resource. */
  lemma ShorterFailureSurvives(iso: string -> Option<Expiry>)
    ensures var host, resource := "https://h", "https://h/b";
      var unanswered := World(0, 0, 0, false, None);
      var minted := World(0, 0, 0, false, Some(Reply(200, Some(MintBody("t", resource)))));
      var (s, failed) := TokenCall(Store([], []), host, iso, unanswered);
      var (t, answer) := TokenCall(s, resource, iso, minted);
      && failed == Fresh(TokenResult(TransportError, None, None))
      && answer.Fresh? && answer.result.outcome == Success
      && LastFailure(t, resource) == Some(failed.result)
  {
    var host, resource := "https://h", "https://h/b";
    var failure := TokenResult(TransportError, None, None);
    var (s, failed) := TokenCall(Store([], []), host, iso, World(0, 0, 0, false, None));
    assert s == Store([], [Pair(host, failure)]) && failed == Fresh(failure);
    assert |host| == 9 && resource[..10] == host + "/";
    SurvivesMint(s, host, resource, iso, failure);
  }

  lemma SurvivesMint(s: Store, host: Url, resource: Url, iso: string -> Option<Expiry>, failure: TokenResult)
    requires s == Store([], [Pair(host, failure)])
    requires host != "" && host != resource && Covers(host, resource)
    ensures var w := World(0, 0, 0, false, Some(Reply(200, Some(MintBody("t", resource)))));
      var (t, a) := TokenCall(s, resource, iso, w);
      a.Fresh? && a.result.outcome == Success && LastFailure(t, resource) == Some(failure)
  {
    var w := World(0, 0, 0, false, Some(Reply(200, Some(MintBody("t", resource)))));
    MintBodyUsable("t", resource);
    var (t, a) := TokenCall(s, resource, iso, w);
    assert a == Fresh(Classify(w.reply));
    assert s.failures[0] in s.failures;
    SuccessForgets(s, resource, iso, w);
    assert !Answered(resource, resource, host);
    assert KeySet(s.failures) == {host} == KeySet(t.failures);
    MatchKeyLongest(resource, t.failures);
    assert MatchKey(resource, t.failures) == Some(host);
  }
}
