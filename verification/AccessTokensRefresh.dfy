/** Repeated calls for one URL settle: entries of more specific keys that went stale are
    refreshed away one per mint, and then the cache answers. */
module AccessTokensRefresh {
  import opened Options
  import opened OrderedDict
  import opened AccessTokens

  /** How many of the calls asked intake for a token. */
  function Mints(s: Store, url: Url, iso: string -> Option<Expiry>, calls: seq<World>): nat
    decreases |calls|
  {
    if calls == [] then 0
    else
      var (t, a) := TokenCall(s, url, iso, calls[0]);
      (if a.Fresh? then 1 else 0) + Mints(t, url, iso, calls[1..])
  }

  predicate UsableThroughout(held: Token, calls: seq<World>) {
    forall i :: 0 <= i < |calls| ==> Usable(held, calls[i].atFastRead) && Usable(held, calls[i].atLockedRead)
  }

  function TokenFrom(iso: string -> Option<Expiry>, w: World): Token
    requires UsablePayload(Classify(w.reply).payload)
  {
    var payload := Classify(w.reply).payload;
    Token(Text(payload, "token"), ParseExpiry(payload, iso, w.atStore))
  }

  /** Intake answers every call with a token under `key`, good for all the calls after it. */
  predicate Steady(key: Url, iso: string -> Option<Expiry>, calls: seq<World>) {
    forall i :: 0 <= i < |calls| ==> Grants(key, iso, calls[i], calls[i + 1..])
  }

  predicate Grants(key: Url, iso: string -> Option<Expiry>, w: World, later: seq<World>) {
    var result := Classify(w.reply);
    && !w.raises
    && result.outcome == Success && UsablePayload(result.payload)
    && Text(result.payload, "base_url") == key
    && UsableThroughout(TokenFrom(iso, w), later)
  }

  /** Stored keys that cover the URL and are longer than `key`: each can shadow it. */
  ghost function Shadowing(entries: Entries, url: Url, key: Url): set<Url> {
    set k | k in KeySet(entries) && Covers(k, url) && |k| > |key|
  }

  ghost predicate Settled(s: Store, key: Url, calls: seq<World>) {
    var held := Get(s.entries, key);
    held.Some? && UsableThroughout(held.value, calls)
  }

  lemma ShadowingIs(entries: Entries, url: Url, key: Url, keys: set<Url>)
    requires keys == KeySet(entries)
    ensures Shadowing(entries, url, key) == set k | k in keys && Covers(k, url) && |k| > |key|
  {
  }

  /** Refreshing the longest match takes away one shadowing key, the longest, if there is any. */
  lemma RefreshedShadowing(entries: Entries, url: Url, key: Url, held: Token)
    requires Distinct(entries) && url != "" && Covers(key, url)
    ensures var after := Refreshed(entries, MatchKey(url, entries), key, held);
      && Get(after, key) == Some(held)
      && |Shadowing(after, url, key)| ==
           (if Shadowing(entries, url, key) == {} then 0 else |Shadowing(entries, url, key)| - 1)
  {
    var matched := MatchKey(url, entries);
    var after := Refreshed(entries, matched, key, held);
    MatchKeyLongest(url, entries);
    RefreshedGet(entries, matched, key, held);
    ShadowingIs(entries, url, key, KeySet(entries));
    ShadowingIs(after, url, key, KeySet(after));
    OneShadowLess(url, key, KeySet(entries), matched, Shadowing(entries, url, key), Shadowing(after, url, key));
  }

  lemma OneShadowLess(url: Url, key: Url, keys: set<Url>, matched: Option<Url>, before: set<Url>, after: set<Url>)
    requires url != "" && LongestCover(url, keys, matched)
    requires before == set k | k in keys && Covers(k, url) && |k| > |key|
    requires after == set k | k in (if matched.Some? then keys - {matched.value} else keys) + {key} && Covers(k, url) && |k| > |key|
    ensures |after| == if before == {} then 0 else |before| - 1
  {
    if k :| k in before {
      assert matched.Some? && matched.value in before;
      assert after == before - {matched.value};
    } else {
      assert forall k :: k in after ==> k in before;
    }
  }

  /** With nothing longer stored, a stored key that covers the URL is its match. */
  lemma UnshadowedMatch(entries: Entries, url: Url, key: Url)
    requires url != "" && Covers(key, url) && key in KeySet(entries) && Shadowing(entries, url, key) == {}
    ensures MatchKey(url, entries) == Some(key)
  {
    MatchKeyLongest(url, entries);
    forall k | k in KeySet(entries) && Covers(k, url) ensures |k| <= |key| {
      assert k !in Shadowing(entries, url, key);
    }
    LongestUnique(url, KeySet(entries), MatchKey(url, entries), Some(key));
  }

  /** What a successful mint stores. */
  lemma MintStores(s: Store, url: Url, iso: string -> Option<Expiry>, w: World)
    requires var a := TokenCall(s, url, iso, w).1; a.Fresh? && a.result.outcome == Success
    ensures !w.raises && Classify(w.reply).outcome == Success && UsablePayload(Classify(w.reply).payload)
    ensures TokenCall(s, url, iso, w).1.result == Classify(w.reply)
    ensures TokenCall(s, url, iso, w).0.entries
         == Refreshed(s.entries, MatchKey(url, s.entries), Text(Classify(w.reply).payload, "base_url"), TokenFrom(iso, w))
  {
  }

  lemma MintsWhenUnusable(s: Store, url: Url, iso: string -> Option<Expiry>, w: World)
    requires TokenCall(s, url, iso, w).1.Fresh?
    ensures TokenCall(s, url, iso, w).1.result == Classify(w.reply)
    ensures CachedHit(s.entries, url, w.atFastRead) == None
  {
  }

  lemma SettledHits(s: Store, url: Url, key: Url, calls: seq<World>)
    requires url != "" && Covers(key, url) && calls != [] && Settled(s, key, calls)
    requires Shadowing(s.entries, url, key) == {}
    ensures CachedHit(s.entries, url, calls[0].atFastRead).Some?
  {
    UnshadowedMatch(s.entries, url, key);
  }

  /** One mint stores a lasting token under `key` and removes one shadowing key if there is one;
      once `key` is settled, only a shadowing key can cause a mint. */
  lemma MintStep(s: Store, url: Url, key: Url, iso: string -> Option<Expiry>, calls: seq<World>)
    requires Valid(s) && url != "" && Covers(key, url)
    requires calls != [] && Steady(key, iso, calls)
    requires TokenCall(s, url, iso, calls[0]).1.Fresh?
    ensures var t := TokenCall(s, url, iso, calls[0]).0;
      && Settled(t, key, calls[1..])
      && |Shadowing(t.entries, url, key)| ==
           (if Shadowing(s.entries, url, key) == {} then 0 else |Shadowing(s.entries, url, key)| - 1)
      && (Settled(s, key, calls) ==> Shadowing(s.entries, url, key) != {})
  {
    assert Grants(key, iso, calls[0], calls[1..]);
    MintsWhenUnusable(s, url, iso, calls[0]);
    MintStores(s, url, iso, calls[0]);
    RefreshedShadowing(s.entries, url, key, TokenFrom(iso, calls[0]));
    if Settled(s, key, calls) && Shadowing(s.entries, url, key) == {} {
      SettledHits(s, url, key, calls);
    }
  }

  lemma SettledStays(s: Store, key: Url, calls: seq<World>)
    requires calls != [] && Settled(s, key, calls)
    ensures Settled(s, key, calls[1..])
  {
    assert forall i :: 0 <= i < |calls| - 1 ==> calls[1..][i] == calls[i + 1];
  }

  lemma SteadyStays(key: Url, iso: string -> Option<Expiry>, calls: seq<World>)
    requires calls != [] && Steady(key, iso, calls)
    ensures Steady(key, iso, calls[1..])
  {
    var later := calls[1..];
    forall i | 0 <= i < |later| ensures Grants(key, iso, later[i], later[i + 1..]) {
      assert later[i] == calls[i + 1] && later[i + 1..] == calls[i + 2..];
      assert Grants(key, iso, calls[i + 1], calls[i + 2..]);
    }
  }

  /** However many calls follow, at most one mint per shadowing key is made -- one in all when
      there is none -- and every other call is served from the cache. */
  lemma {:induction false} RefreshConverges(s: Store, url: Url, key: Url, iso: string -> Option<Expiry>, calls: seq<World>)
    requires Valid(s) && url != "" && Covers(key, url)
    requires Steady(key, iso, calls)
    ensures var n := |Shadowing(s.entries, url, key)|;
      Mints(s, url, iso, calls) <= if n > 0 || Settled(s, key, calls) then n else 1
    decreases |calls|
  {
    if calls != [] {
      var (t, a) := TokenCall(s, url, iso, calls[0]);
      SteadyStays(key, iso, calls);
      CallKeepsValid(s, url, iso, calls[0]);
      if a.Fresh? {
        MintStep(s, url, key, iso, calls);
      } else {
        assert !calls[0].raises && t == s;
        if Settled(s, key, calls) {
          SettledStays(s, key, calls);
        }
      }
      RefreshConverges(t, url, key, iso, calls[1..]);
    }
  }

  /** Meanwhile each call is answered from the cache or by the token just minted, unless a longer
      match has an expiry that cannot be compared. */
  lemma SteadyAnswers(s: Store, url: Url, key: Url, iso: string -> Option<Expiry>, w: World)
    requires Steady(key, iso, [w])
    ensures var a := TokenCall(s, url, iso, w).1;
      if Incomparable(s.entries, url) then a == Raised
      else a.Cached? || (a.Fresh? && a.result.outcome == Success)
  {
    assert [w][0] == w;
  }

  // ---- Expiries without an offset ----

  /** After a successful mint whose entry is now the match for the URL, the token can never be served
      -- every call for the URL raises, whatever the clock and intake say -- exactly if the expiry
      that intake sent has no offset. */
  lemma NaiveMintBlocks(s: Store, t: Store, url: Url, key: Url, iso: string -> Option<Expiry>, w: World)
    requires Valid(s) && TokenCall(s, url, iso, w) == (t, Fresh(Classify(w.reply)))
    requires Classify(w.reply).outcome == Success && Text(Classify(w.reply).payload, "base_url") == key
    requires MatchKey(url, t.entries) == Some(key)
    ensures (forall later :: TokenCall(t, url, iso, later) == (t, Raised))
       <==> ParseExpiry(Classify(w.reply).payload, iso, w.atStore).Naive?
  {
    MintStores(s, url, iso, w);
    RefreshedGet(s.entries, MatchKey(url, s.entries), key, TokenFrom(iso, w));
    AlwaysRaises(t, url, key, TokenFrom(iso, w), iso);
  }

  lemma AlwaysRaises(s: Store, url: Url, key: Url, held: Token, iso: string -> Option<Expiry>)
    requires MatchKey(url, s.entries) == Some(key) && Get(s.entries, key) == Some(held)
    ensures (forall later :: TokenCall(s, url, iso, later) == (s, Raised)) <==> held.expiredAt.Naive?
  {
    if held.expiredAt.Aware? {
      var later := World(0, 0, 0, false, None);
      assert TokenCall(s, url, iso, later).1 != Raised;
    }
  }

  /** And that lasts: no call for this or any other URL takes the entry away, but for a successful
      mint under its key for a URL that matched another one. */
  lemma NaiveEntryStays(s: Store, key: Url, held: Token, url: Url, iso: string -> Option<Expiry>, w: World)
    requires Valid(s) && Get(s.entries, key) == Some(held) && held.expiredAt.Naive?
    ensures var (t, a) := TokenCall(s, url, iso, w);
      && (MatchKey(url, s.entries) == Some(key) ==> t == s && a == Raised)
      && (Get(t.entries, key) == Some(held) ||
          (a.Fresh? && a.result.outcome == Success && Text(a.result.payload, "base_url") == key))
  {
    var (t, a) := TokenCall(s, url, iso, w);
    var matched := MatchKey(url, s.entries);
    if matched != Some(key) && a.Fresh? {
      MintsWhenUnusable(s, url, iso, w);
      if a.result.outcome != Success || Text(a.result.payload, "base_url") != key {
        StillHeld(s, key, held, url, matched, a.result, ParseExpiry(a.result.payload, iso, w.atStore));
      }
    }
  }

  lemma StillHeld(s: Store, key: Url, held: Token, url: Url, matched: Option<Url>, result: TokenResult, expiry: Expiry)
    requires Valid(s) && Get(s.entries, key) == Some(held) && matched != Some(key)
    requires result.outcome == Success ==> UsablePayload(result.payload) && Text(result.payload, "base_url") != key
    ensures Get(AfterMint(s, url, matched, result, expiry).entries, key) == Some(held)
  {
    if matched.Some? {
      WithoutLaws(s.entries, matched.value);
    }
    if result.outcome == Success {
      var k := Text(result.payload, "base_url");
      var kept := if matched.Some? && matched.value != k then Without(s.entries, matched.value) else s.entries;
      PutLaws(kept, k, Token(Text(result.payload, "token"), expiry));
    }
  }
}
