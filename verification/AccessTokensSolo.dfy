/** A call of the threaded token cache that nothing interleaves with: its atomic steps come to what
    the sequential call does. */
module AccessTokensSolo {
  import opened Options
  import opened AccessTokens
  import opened AccessTokensThreads

  /** The store the sequential model keeps. */
  function StoreOf(s: State): Store
    requires s.history != []
  {
    Store(Current(s), s.failures)
  }

  function Steps(t: Tid, clock: Instant, w: World, expiry: Expiry, n: nat): seq<Action> {
    seq(n, _ => Advance(t, clock, w.raises, w.reply, expiry))
  }

  /** A call's steps outside the lock, then those up to the check under it, then the rest. */
  function LoneSteps(t: Tid, w: World, expiry: Expiry): seq<Action> {
    Steps(t, w.atFastRead, w, expiry, 2) + (Steps(t, w.atLockedRead, w, expiry, 3) + Steps(t, w.atStore, w, expiry, 4))
  }

  lemma RunsThree(s: State, t: Tid, w: World, expiry: Expiry)
    requires Inv(s)
    ensures var s1 := Runs(s, Steps(t, w.atFastRead, w, expiry, 2));
      && Inv(s1) && Inv(Runs(s1, Steps(t, w.atLockedRead, w, expiry, 3)))
      && Runs(s, LoneSteps(t, w, expiry))
         == Runs(Runs(s1, Steps(t, w.atLockedRead, w, expiry, 3)), Steps(t, w.atStore, w, expiry, 4))
  {
    var first, second, third :=
      Steps(t, w.atFastRead, w, expiry, 2), Steps(t, w.atLockedRead, w, expiry, 3), Steps(t, w.atStore, w, expiry, 4);
    RunsConcat(s, first, second + third);
    RunsConcat(Runs(s, first), second, third);
  }

  lemma StepsOnce(s: State, t: Tid, clock: Instant, w: World, expiry: Expiry, n: nat)
    requires Inv(s) && n > 0
    ensures var a := Advance(t, clock, w.raises, w.reply, expiry);
      Inv(Act(s, a)) && Runs(s, Steps(t, clock, w, expiry, n)) == Runs(Act(s, a), Steps(t, clock, w, expiry, n - 1))
  {
    var a := Advance(t, clock, w.raises, w.reply, expiry);
    ActKeepsInv(s, a);
    assert Steps(t, clock, w, expiry, n)[1..] == Steps(t, clock, w, expiry, n - 1);
  }

  lemma {:induction false} IdleStays(s: State, t: Tid, clock: Instant, w: World, expiry: Expiry, n: nat)
    requires Inv(s) && PcOf(s, t) == Idle
    ensures Runs(s, Steps(t, clock, w, expiry, n)) == s
    decreases n
  {
    if n > 0 {
      StepsOnce(s, t, clock, w, expiry, n);
      IdleStays(s, t, clock, w, expiry, n - 1);
    }
  }

  /** Doing `a` in `s` leads to `s'`, and the remaining steps go on from there. */
  lemma StepsTo(s: State, s': State, t: Tid, clock: Instant, w: World, expiry: Expiry, n: nat)
    requires Inv(s) && n > 0
    requires Act(s, Advance(t, clock, w.raises, w.reply, expiry)) == s'
    ensures Inv(s') && Runs(s, Steps(t, clock, w, expiry, n)) == Runs(s', Steps(t, clock, w, expiry, n - 1))
  {
    StepsOnce(s, t, clock, w, expiry, n);
  }

  // Where the steps of a lone call lead, one after the other.

  lemma AtFastRead(s: State, t: Tid, url: Url, w: World, expiry: Expiry)
    requires Inv(s) && PcOf(s, t) == FastRead(url, |s.history| - 1)
    ensures Act(s, Advance(t, w.atFastRead, w.raises, w.reply, expiry))
         == Goto(s, t, FastCheck(url, |s.history| - 1, |s.history| - 1))
  {
  }

  /** The state after a check that found `found` in the newest map. */
  function Decided(s: State, t: Tid, found: Option<Hit>, url: Url, began: nat, at: Instant, hit: Pc, miss: Pc): State
    requires s.history != []
  {
    match found
    case Some(h) => Goto(s.(served := s.served + [Served(url, began, |s.history| - 1, |s.history| - 1, h, at)]), t, hit)
    case None => Goto(s, t, miss)
  }

  lemma AtFastCheck(s: State, t: Tid, found: Option<Hit>, url: Url, w: World, expiry: Expiry)
    requires Inv(s) && PcOf(s, t) == FastCheck(url, |s.history| - 1, |s.history| - 1)
    requires found == CachedHit(Current(s), url, w.atFastRead) && !Incomparable(Current(s), url)
    ensures Act(s, Advance(t, w.atFastRead, w.raises, w.reply, expiry))
         == Decided(s, t, found, url, |s.history| - 1, w.atFastRead, Idle, Waiting(Lookup(url), |s.history| - 1))
  {
  }

  lemma AtWaiting(s: State, t: Tid, url: Url, began: nat, w: World, expiry: Expiry)
    requires Inv(s) && PcOf(s, t) == Waiting(Lookup(url), began) && s.lock.None?
    ensures Act(s, Advance(t, w.atLockedRead, w.raises, w.reply, expiry)) == Goto(s.(lock := Some(t)), t, LockedRead(url, began))
  {
  }

  lemma AtLockedRead(s: State, t: Tid, url: Url, began: nat, w: World, expiry: Expiry)
    requires Inv(s) && PcOf(s, t) == LockedRead(url, began)
    ensures Act(s, Advance(t, w.atLockedRead, w.raises, w.reply, expiry))
         == Goto(s, t, LockedCheck(url, began, |s.history| - 1))
  {
  }

  lemma AtLockedCheck(s: State, t: Tid, found: Option<Hit>, url: Url, began: nat, w: World, expiry: Expiry)
    requires Inv(s) && PcOf(s, t) == LockedCheck(url, began, |s.history| - 1)
    requires found == CachedHit(Current(s), url, w.atLockedRead) && !Incomparable(Current(s), url)
    ensures Act(s, Advance(t, w.atLockedRead, w.raises, w.reply, expiry))
         == Decided(s, t, found, url, began, w.atLockedRead, Unlocking, Minting(url, began, MatchKey(url, Current(s)), w.atLockedRead))
  {
  }

  lemma SoloBegin(s: State, t: Tid, url: Url, rest: seq<Action>)
    requires Inv(s) && PcOf(s, t) == Idle
    ensures var s1 := Goto(s, t, FastRead(url, |s.history| - 1));
      Inv(s1) && Runs(s, [Begin(t, Lookup(url))] + rest) == Runs(s1, rest)
  {
    var begin := Begin(t, Lookup(url));
    RunsOne(s, begin);
    assert ([begin] + rest)[1..] == rest;
  }

  function FastChecking(s: State, t: Tid, url: Url): State
    requires s.history != []
  {
    Goto(s, t, FastCheck(url, |s.history| - 1, |s.history| - 1))
  }

  lemma SoloFast(s: State, t: Tid, found: Option<Hit>, url: Url, w: World, expiry: Expiry)
    requires Inv(s) && PcOf(s, t) == FastRead(url, |s.history| - 1)
    requires found == CachedHit(Current(s), url, w.atFastRead) && !Incomparable(Current(s), url)
    ensures Runs(s, Steps(t, w.atFastRead, w, expiry, 2))
         == Decided(FastChecking(s, t, url), t, found, url, |s.history| - 1, w.atFastRead, Idle, Waiting(Lookup(url), |s.history| - 1))
  {
    var n := |s.history| - 1;
    var s1 := FastChecking(s, t, url);
    assert Inv(s1) && Runs(s, Steps(t, w.atFastRead, w, expiry, 2)) == Runs(s1, Steps(t, w.atFastRead, w, expiry, 1)) by {
      AtFastRead(s, t, url, w, expiry);
      StepsTo(s, s1, t, w.atFastRead, w, expiry, 2);
    }
    AtFastCheck(s1, t, found, url, w, expiry);
    StepsTo(s1, Decided(s1, t, found, url, n, w.atFastRead, Idle, Waiting(Lookup(url), n)), t, w.atFastRead, w, expiry, 1);
  }

  function LockedChecking(s: State, t: Tid, url: Url, began: nat): State
    requires s.history != []
  {
    Goto(Goto(s.(lock := Some(t)), t, LockedRead(url, began)), t, LockedCheck(url, began, |s.history| - 1))
  }

  lemma SoloLocked(s: State, t: Tid, found: Option<Hit>, url: Url, began: nat, w: World, expiry: Expiry)
    requires Inv(s) && PcOf(s, t) == Waiting(Lookup(url), began) && s.lock.None?
    requires found == CachedHit(Current(s), url, w.atLockedRead) && !Incomparable(Current(s), url)
    ensures Runs(s, Steps(t, w.atLockedRead, w, expiry, 3))
         == Decided(LockedChecking(s, t, url, began), t, found, url, began, w.atLockedRead,
                    Unlocking, Minting(url, began, MatchKey(url, Current(s)), w.atLockedRead))
  {
    var s1, s2 := Goto(s.(lock := Some(t)), t, LockedRead(url, began)), LockedChecking(s, t, url, began);
    assert Inv(s1) && Runs(s, Steps(t, w.atLockedRead, w, expiry, 3)) == Runs(s1, Steps(t, w.atLockedRead, w, expiry, 2)) by {
      AtWaiting(s, t, url, began, w, expiry);
      StepsTo(s, s1, t, w.atLockedRead, w, expiry, 3);
    }
    assert Inv(s2) && Runs(s1, Steps(t, w.atLockedRead, w, expiry, 2)) == Runs(s2, Steps(t, w.atLockedRead, w, expiry, 1)) by {
      AtLockedRead(s1, t, url, began, w, expiry);
      StepsTo(s1, s2, t, w.atLockedRead, w, expiry, 2);
    }
    AtLockedCheck(s2, t, found, url, began, w, expiry);
    StepsTo(s2, Decided(s2, t, found, url, began, w.atLockedRead, Unlocking,
      Minting(url, began, MatchKey(url, Current(s)), w.atLockedRead)), t, w.atLockedRead, w, expiry, 1);
  }

  /** Releasing the lock ends the call. */
  lemma SoloUnlock(s: State, t: Tid, w: World, expiry: Expiry, n: nat)
    requires Inv(s) && PcOf(s, t) == Unlocking && n > 0
    ensures Runs(s, Steps(t, w.atStore, w, expiry, n)) == Goto(s.(lock := None), t, Idle)
  {
    var s1 := Goto(s.(lock := None), t, Idle);
    StepsTo(s, s1, t, w.atStore, w, expiry, n);
    IdleStays(s1, t, w.atStore, w, expiry, n - 1);
  }

  // The answer of intake, stored and reported.

  lemma SoloMint(s: State, t: Tid, url: Url, began: nat, at: Instant, w: World, expiry: Expiry)
    requires Inv(s) && PcOf(s, t) == Minting(url, began, MatchKey(url, Current(s)), at)
    ensures var result := Classify(w.reply);
      var e := Runs(s, Steps(t, w.atStore, w, expiry, 4));
      && e.history != [] && PcOf(e, t) == Idle && e.lock.None? && e.served == s.served
      && StoreOf(e) == (if w.raises then StoreOf(s) else AfterMint(StoreOf(s), url, MatchKey(url, Current(s)), result, expiry))
      && e.minted == s.minted + (if w.raises then [] else [Mint(url, result, expiry)])
  {
    var mint := Mint(url, Classify(w.reply), expiry);
    if w.raises {
      var s1 := Goto(s, t, Unlocking);
      StepsTo(s, s1, t, w.atStore, w, expiry, 4);
      SoloUnlock(s1, t, w, expiry, 3);
    } else {
      var s1 := Goto(s.(minted := s.minted + [mint]), t, Publishing(url, MatchKey(url, Current(s)), mint));
      StepsTo(s, s1, t, w.atStore, w, expiry, 4);
      SoloPublish(s1, t, url, MatchKey(url, Current(s)), mint, w, expiry);
    }
  }

  /** Publishing: the map is rebound only if the mint changed it. */
  function Published(s: State, matched: Option<Url>, mint: Mint, after: Entries): State {
    if mint.result.outcome == Success || matched.Some? then Publish(s, after) else s
  }

  lemma AtPublishing(s: State, t: Tid, url: Url, matched: Option<Url>, mint: Mint, w: World, expiry: Expiry)
    requires Inv(s) && PcOf(s, t) == Publishing(url, matched, mint)
    ensures ThreadOk(s, PcOf(s, t))
    ensures Act(s, Advance(t, w.atStore, w.raises, w.reply, expiry))
         == Goto(Published(s, matched, mint, AfterMint(StoreOf(s), url, matched, mint.result, mint.expiry).entries), t, Reporting(url, mint))
  {
    assert ThreadOk(s, PcOf(s, t));
  }

  /** The two parts of the store are those of the sequential model, though stored one by one. */
  lemma PublishedThenReported(s: State, url: Url, matched: Option<Url>, mint: Mint, e: State)
    requires s.history != [] && (mint.result.outcome == Success ==> UsablePayload(mint.result.payload))
    requires var after := AfterMint(StoreOf(s), url, matched, mint.result, mint.expiry);
      var published := Published(s, matched, mint, after.entries);
      && e.history == published.history
      && e.failures == AfterMint(StoreOf(published), url, None, mint.result, mint.expiry).failures
    ensures StoreOf(e) == AfterMint(StoreOf(s), url, matched, mint.result, mint.expiry)
  {
  }

  lemma SoloPublish(s: State, t: Tid, url: Url, matched: Option<Url>, mint: Mint, w: World, expiry: Expiry)
    requires Inv(s) && PcOf(s, t) == Publishing(url, matched, mint)
    ensures ThreadOk(s, PcOf(s, t))
    ensures var e := Runs(s, Steps(t, w.atStore, w, expiry, 3));
      && e.history != [] && PcOf(e, t) == Idle && e.lock.None? && e.served == s.served && e.minted == s.minted
      && StoreOf(e) == AfterMint(StoreOf(s), url, matched, mint.result, mint.expiry)
  {
    assert ThreadOk(s, PcOf(s, t));
    var after := AfterMint(StoreOf(s), url, matched, mint.result, mint.expiry);
    var s1 := Goto(Published(s, matched, mint, after.entries), t, Reporting(url, mint));
    assert Inv(s1) && Runs(s, Steps(t, w.atStore, w, expiry, 3)) == Runs(s1, Steps(t, w.atStore, w, expiry, 2)) by {
      AtPublishing(s, t, url, matched, mint, w, expiry);
      StepsTo(s, s1, t, w.atStore, w, expiry, 3);
    }
    SoloReport(s1, t, url, mint, w, expiry);
    var e := Runs(s1, Steps(t, w.atStore, w, expiry, 2));
    assert StoreOf(e) == after by {
      PublishedThenReported(s, url, matched, mint, e);
    }
  }

  lemma SoloReport(s: State, t: Tid, url: Url, mint: Mint, w: World, expiry: Expiry)
    requires Inv(s) && PcOf(s, t) == Reporting(url, mint)
    ensures ThreadOk(s, PcOf(s, t))
    ensures var e := Runs(s, Steps(t, w.atStore, w, expiry, 2));
      && e.history == s.history && PcOf(e, t) == Idle && e.lock.None? && e.served == s.served && e.minted == s.minted
      && e.failures == AfterMint(StoreOf(s), url, None, mint.result, mint.expiry).failures
  {
    assert ThreadOk(s, PcOf(s, t));
    var s1 := Goto(s.(failures := AfterMint(StoreOf(s), url, None, mint.result, mint.expiry).failures), t, Unlocking);
    StepsTo(s, s1, t, w.atStore, w, expiry, 2);
    SoloUnlock(s1, t, w, expiry, 1);
  }

  /** The thread is idle again, the store is `store`, and `answer` is what it was served or minted. */
  predicate CameTo(s: State, e: State, t: Tid, url: Url, expiry: Expiry, store: Store, answer: Answer) {
    && e.history != [] && PcOf(e, t) == Idle && e.lock.None? && StoreOf(e) == store
    && |e.served| == |s.served| + (if answer.Cached? then 1 else 0)
    && (answer.Cached? ==> e.served[|s.served|].url == url && e.served[|s.served|].hit == answer.hit)
    && e.minted == s.minted + (if answer.Fresh? then [Mint(url, answer.result, expiry)] else [])
  }

  lemma DecidedCameTo(s: State, e: State, t: Tid, url: Url, at: Instant, expiry: Expiry, hit: Hit, miss: Pc)
    requires s.history != [] && s.lock.None?
    requires e == Decided(FastChecking(s, t, url), t, Some(hit), url, |s.history| - 1, at, Idle, miss)
    ensures CameTo(s, e, t, url, expiry, StoreOf(s), Cached(hit))
  {
  }

  lemma SoloServedFast(s: State, t: Tid, url: Url, w: World, expiry: Expiry, hit: Hit)
    requires Inv(s) && PcOf(s, t) == FastRead(url, |s.history| - 1) && s.lock.None?
    requires CachedHit(Current(s), url, w.atFastRead) == Some(hit) && !Incomparable(Current(s), url)
    ensures CameTo(s, Runs(s, LoneSteps(t, w, expiry)), t, url, expiry, StoreOf(s), Cached(hit))
  {
    var n := |s.history| - 1;
    var e := Decided(FastChecking(s, t, url), t, Some(hit), url, n, w.atFastRead, Idle, Waiting(Lookup(url), n));
    ServedFastEnds(s, e, t, url, w, expiry, hit);
    DecidedCameTo(s, e, t, url, w.atFastRead, expiry, hit, Waiting(Lookup(url), n));
  }

  lemma ServedFastEnds(s: State, s1: State, t: Tid, url: Url, w: World, expiry: Expiry, hit: Hit)
    requires Inv(s) && PcOf(s, t) == FastRead(url, |s.history| - 1)
    requires CachedHit(Current(s), url, w.atFastRead) == Some(hit) && !Incomparable(Current(s), url)
    requires var n := |s.history| - 1;
      s1 == Decided(FastChecking(s, t, url), t, Some(hit), url, n, w.atFastRead, Idle, Waiting(Lookup(url), n))
    ensures Runs(s, LoneSteps(t, w, expiry)) == s1
  {
    assert Inv(s1) && Runs(s, LoneSteps(t, w, expiry))
        == Runs(Runs(s1, Steps(t, w.atLockedRead, w, expiry, 3)), Steps(t, w.atStore, w, expiry, 4)) by {
      SoloFast(s, t, Some(hit), url, w, expiry);
      RunsThree(s, t, w, expiry);
    }
    IdleStays(s1, t, w.atLockedRead, w, expiry, 3);
    IdleStays(s1, t, w.atStore, w, expiry, 4);
  }

  lemma SoloServedLocked(s: State, t: Tid, url: Url, began: nat, w: World, expiry: Expiry, hit: Hit)
    requires Inv(s) && PcOf(s, t) == Waiting(Lookup(url), began) && s.lock.None?
    requires CachedHit(Current(s), url, w.atLockedRead) == Some(hit) && !Incomparable(Current(s), url)
    requires Inv(Runs(s, Steps(t, w.atLockedRead, w, expiry, 3)))
    ensures CameTo(s, Runs(Runs(s, Steps(t, w.atLockedRead, w, expiry, 3)), Steps(t, w.atStore, w, expiry, 4)),
      t, url, expiry, StoreOf(s), Cached(hit))
  {
    SoloLocked(s, t, Some(hit), url, began, w, expiry);
    SoloUnlock(Runs(s, Steps(t, w.atLockedRead, w, expiry, 3)), t, w, expiry, 4);
  }

  lemma SoloMinted(s: State, t: Tid, url: Url, began: nat, w: World, expiry: Expiry)
    requires Inv(s) && PcOf(s, t) == Waiting(Lookup(url), began) && s.lock.None?
    requires CachedHit(Current(s), url, w.atLockedRead) == None && !Incomparable(Current(s), url)
    requires Inv(Runs(s, Steps(t, w.atLockedRead, w, expiry, 3)))
    ensures var result := Classify(w.reply);
      CameTo(s, Runs(Runs(s, Steps(t, w.atLockedRead, w, expiry, 3)), Steps(t, w.atStore, w, expiry, 4)), t, url, expiry,
        if w.raises then StoreOf(s) else AfterMint(StoreOf(s), url, MatchKey(url, Current(s)), result, expiry),
        if w.raises then Raised else Fresh(result))
  {
    SoloLocked(s, t, None, url, began, w, expiry);
    SoloMint(Runs(s, Steps(t, w.atLockedRead, w, expiry, 3)), t, url, began, w.atLockedRead, w, expiry);
  }

  lemma QueuedState(s: State, s1: State, t: Tid, url: Url)
    requires s.history != []
    requires s1 == Goto(FastChecking(s, t, url), t, Waiting(Lookup(url), |s.history| - 1))
    ensures PcOf(s1, t) == Waiting(Lookup(url), |s.history| - 1)
    ensures s1.history == s.history && s1.failures == s.failures && s1.lock == s.lock
    ensures s1.served == s.served && s1.minted == s.minted
  {
  }

  lemma SoloNotServedFast(s: State, s1: State, t: Tid, url: Url, w: World, expiry: Expiry)
    requires Inv(s) && PcOf(s, t) == FastRead(url, |s.history| - 1)
    requires CachedHit(Current(s), url, w.atFastRead) == None && !Incomparable(Current(s), url)
    requires s1 == Goto(FastChecking(s, t, url), t, Waiting(Lookup(url), |s.history| - 1))
    ensures Inv(s1) && Inv(Runs(s1, Steps(t, w.atLockedRead, w, expiry, 3)))
    ensures Runs(s, LoneSteps(t, w, expiry))
         == Runs(Runs(s1, Steps(t, w.atLockedRead, w, expiry, 3)), Steps(t, w.atStore, w, expiry, 4))
  {
    SoloFast(s, t, None, url, w, expiry);
    RunsThree(s, t, w, expiry);
  }

  lemma CameToFrom(s: State, s1: State, e: State, t: Tid, url: Url, expiry: Expiry, store: Store, answer: Answer)
    requires CameTo(s1, e, t, url, expiry, store, answer)
    requires s1.served == s.served && s1.minted == s.minted
    ensures CameTo(s, e, t, url, expiry, store, answer)
  {
  }

  lemma QueuedThenServed(s: State, s1: State, t: Tid, url: Url, w: World, expiry: Expiry, hit: Hit)
    requires s.history != [] && s.lock.None? && CachedHit(Current(s), url, w.atLockedRead) == Some(hit)
    requires !Incomparable(Current(s), url)
    requires s1 == Goto(FastChecking(s, t, url), t, Waiting(Lookup(url), |s.history| - 1))
    requires Inv(s1) && Inv(Runs(s1, Steps(t, w.atLockedRead, w, expiry, 3)))
    ensures CameTo(s, Runs(Runs(s1, Steps(t, w.atLockedRead, w, expiry, 3)), Steps(t, w.atStore, w, expiry, 4)),
      t, url, expiry, StoreOf(s), Cached(hit))
  {
    QueuedState(s, s1, t, url);
    SoloServedLocked(s1, t, url, |s.history| - 1, w, expiry, hit);
    CameToFrom(s, s1, Runs(Runs(s1, Steps(t, w.atLockedRead, w, expiry, 3)), Steps(t, w.atStore, w, expiry, 4)),
      t, url, expiry, StoreOf(s), Cached(hit));
  }

  lemma QueuedThenMinted(s: State, s1: State, t: Tid, url: Url, w: World, expiry: Expiry, store: Store, answer: Answer)
    requires s.history != [] && s.lock.None? && CachedHit(Current(s), url, w.atLockedRead) == None
    requires !Incomparable(Current(s), url)
    requires s1 == Goto(FastChecking(s, t, url), t, Waiting(Lookup(url), |s.history| - 1))
    requires Inv(s1) && Inv(Runs(s1, Steps(t, w.atLockedRead, w, expiry, 3)))
    requires answer == if w.raises then Raised else Fresh(Classify(w.reply))
    requires store == if w.raises then StoreOf(s)
      else AfterMint(StoreOf(s), url, MatchKey(url, Current(s)), Classify(w.reply), expiry)
    ensures CameTo(s, Runs(Runs(s1, Steps(t, w.atLockedRead, w, expiry, 3)), Steps(t, w.atStore, w, expiry, 4)),
      t, url, expiry, store, answer)
  {
    QueuedState(s, s1, t, url);
    SoloMinted(s1, t, url, |s.history| - 1, w, expiry);
    CameToFrom(s, s1, Runs(Runs(s1, Steps(t, w.atLockedRead, w, expiry, 3)), Steps(t, w.atStore, w, expiry, 4)),
      t, url, expiry, store, answer);
  }

  lemma AtIncomparable(s: State, t: Tid, url: Url, w: World, expiry: Expiry)
    requires Inv(s) && PcOf(s, t) == FastCheck(url, |s.history| - 1, |s.history| - 1)
    requires Incomparable(Current(s), url)
    ensures Act(s, Advance(t, w.atFastRead, w.raises, w.reply, expiry)) == Goto(s, t, Idle)
  {
  }

  /** A match whose expiry cannot be compared ends the call at its first check. */
  lemma SoloIncomparable(s: State, t: Tid, url: Url, w: World, expiry: Expiry)
    requires Inv(s) && PcOf(s, t) == FastRead(url, |s.history| - 1) && s.lock.None?
    requires Incomparable(Current(s), url)
    ensures CameTo(s, Runs(s, LoneSteps(t, w, expiry)), t, url, expiry, StoreOf(s), Raised)
  {
    var s1 := FastChecking(s, t, url);
    var s2 := Goto(s1, t, Idle);
    assert Inv(s1) && Runs(s, Steps(t, w.atFastRead, w, expiry, 2)) == Runs(s1, Steps(t, w.atFastRead, w, expiry, 1)) by {
      AtFastRead(s, t, url, w, expiry);
      StepsTo(s, s1, t, w.atFastRead, w, expiry, 2);
    }
    assert Inv(s2) && Runs(s, Steps(t, w.atFastRead, w, expiry, 2)) == s2 by {
      AtIncomparable(s1, t, url, w, expiry);
      StepsTo(s1, s2, t, w.atFastRead, w, expiry, 1);
    }
    RunsThree(s, t, w, expiry);
    IdleStays(s2, t, w.atLockedRead, w, expiry, 3);
    IdleStays(s2, t, w.atStore, w, expiry, 4);
  }

  /** A call the first check did not serve is decided under the lock. */
  lemma SoloQueued(s: State, t: Tid, url: Url, w: World, expiry: Expiry, store: Store, answer: Answer)
    requires Inv(s) && PcOf(s, t) == FastRead(url, |s.history| - 1) && s.lock.None?
    requires CachedHit(Current(s), url, w.atFastRead) == None && !Incomparable(Current(s), url)
    requires match CachedHit(Current(s), url, w.atLockedRead)
      case Some(hit) => store == StoreOf(s) && answer == Cached(hit)
      case None =>
        && answer == (if w.raises then Raised else Fresh(Classify(w.reply)))
        && store == (if w.raises then StoreOf(s)
                     else AfterMint(StoreOf(s), url, MatchKey(url, Current(s)), Classify(w.reply), expiry))
    ensures CameTo(s, Runs(s, LoneSteps(t, w, expiry)), t, url, expiry, store, answer)
  {
    var s1 := Goto(FastChecking(s, t, url), t, Waiting(Lookup(url), |s.history| - 1));
    SoloNotServedFast(s, s1, t, url, w, expiry);
    match CachedHit(Current(s), url, w.atLockedRead)
    case Some(hit) => QueuedThenServed(s, s1, t, url, w, expiry, hit);
    case None => QueuedThenMinted(s, s1, t, url, w, expiry, store, answer);
  }

  /** From its first read on, a lone call comes to the sequential one. */
  lemma SoloFromRead(s: State, t: Tid, url: Url, iso: string -> Option<Expiry>, w: World, expiry: Expiry)
    requires Inv(s) && PcOf(s, t) == FastRead(url, |s.history| - 1) && s.lock.None?
    requires expiry == ParseExpiry(Classify(w.reply).payload, iso, w.atStore)
    ensures var (store, answer) := TokenCall(StoreOf(s), url, iso, w);
      CameTo(s, Runs(s, LoneSteps(t, w, expiry)), t, url, expiry, store, answer)
  {
    var (store, answer) := TokenCall(StoreOf(s), url, iso, w);
    if Incomparable(Current(s), url) {
      SoloIncomparable(s, t, url, w, expiry);
    } else {
      match CachedHit(Current(s), url, w.atFastRead)
      case Some(hit) => SoloServedFast(s, t, url, w, expiry, hit);
      case None => SoloQueued(s, t, url, w, expiry, store, answer);
    }
  }

  lemma BegunState(s: State, t: Tid, url: Url)
    requires s.history != []
    ensures var s1 := Goto(s, t, FastRead(url, |s.history| - 1));
      && PcOf(s1, t) == FastRead(url, |s.history| - 1)
      && s1.history == s.history && s1.lock == s.lock && StoreOf(s1) == StoreOf(s)
      && s1.served == s.served && s1.minted == s.minted
  {
  }

  /** With no other thread in between, the steps of a call come to what the sequential call
      does: the same store afterwards, and the same answer. */
  lemma SoloCallIsTokenCall(s: State, t: Tid, url: Url, iso: string -> Option<Expiry>, w: World)
    requires Inv(s) && PcOf(s, t) == Idle && s.lock.None?
    ensures var expiry := ParseExpiry(Classify(w.reply).payload, iso, w.atStore);
      var (store, answer) := TokenCall(StoreOf(s), url, iso, w);
      CameTo(s, Runs(s, [Begin(t, Lookup(url))] + LoneSteps(t, w, expiry)), t, url, expiry, store, answer)
  {
    var expiry := ParseExpiry(Classify(w.reply).payload, iso, w.atStore);
    var (store, answer) := TokenCall(StoreOf(s), url, iso, w);
    var s1 := Goto(s, t, FastRead(url, |s.history| - 1));
    SoloBegin(s, t, url, LoneSteps(t, w, expiry));
    BegunState(s, t, url);
    SoloFromRead(s1, t, url, iso, w, expiry);
    CameToFrom(s, s1, Runs(s1, LoneSteps(t, w, expiry)), t, url, expiry, store, answer);
  }

  // ---- The other operations, alone ----

  lemma BeginWaits(s: State, t: Tid, op: Op, rest: seq<Action>)
    requires Inv(s) && PcOf(s, t) == Idle && !op.Lookup?
    ensures var s1 := Goto(s, t, Waiting(op, |s.history| - 1));
      Inv(s1) && Runs(s, [Begin(t, op)] + rest) == Runs(s1, rest)
  {
    RunsOne(s, Begin(t, op));
    assert ([Begin(t, op)] + rest)[1..] == rest;
  }

  lemma AtLock(s: State, t: Tid, op: Op, began: nat, w: World, expiry: Expiry, n: nat)
    requires Inv(s) && PcOf(s, t) == Waiting(op, began) && s.lock.None? && !op.Lookup? && n > 0
    ensures var s1 := Goto(s.(lock := Some(t)), t, if op.Clear? then ClearingEntries else Invalidating(op.stale));
      Inv(s1) && Runs(s, Steps(t, w.atStore, w, expiry, n)) == Runs(s1, Steps(t, w.atStore, w, expiry, n - 1))
  {
    StepsTo(s, Goto(s.(lock := Some(t)), t, if op.Clear? then ClearingEntries else Invalidating(op.stale)),
      t, w.atStore, w, expiry, n);
  }

  lemma AtInvalidating(s: State, t: Tid, stale: string, w: World, expiry: Expiry)
    requires Inv(s) && PcOf(s, t) == Invalidating(stale)
    ensures Act(s, Advance(t, w.atStore, w.raises, w.reply, expiry))
         == Goto(Publish(s, Invalidated(Current(s), Some(stale))), t, Unlocking)
  {
  }

  /** Waiting for a lock that is free, a thread gets it. */
  lemma WaitsThenIn(s: State, t: Tid, op: Op, w: World, expiry: Expiry, n: nat) returns (s2: State)
    requires Inv(s) && PcOf(s, t) == Idle && s.lock.None? && !op.Lookup?
    ensures Inv(s2) && PcOf(s2, t) == if op.Clear? then ClearingEntries else Invalidating(op.stale)
    ensures s2.history == s.history && s2.failures == s.failures
    ensures Runs(s, [Begin(t, op)] + Steps(t, w.atStore, w, expiry, n + 1)) == Runs(s2, Steps(t, w.atStore, w, expiry, n))
  {
    var s1 := Goto(s, t, Waiting(op, |s.history| - 1));
    s2 := Goto(s1.(lock := Some(t)), t, if op.Clear? then ClearingEntries else Invalidating(op.stale));
    BeginWaits(s, t, op, Steps(t, w.atStore, w, expiry, n + 1));
    AtLock(s1, t, op, |s.history| - 1, w, expiry, n + 1);
  }

  lemma InvalidateEnds(s: State, t: Tid, stale: string, entries: Entries, w: World, expiry: Expiry)
    requires Inv(s) && PcOf(s, t) == Invalidating(stale) && entries == Invalidated(Current(s), Some(stale))
    ensures var e := Runs(s, Steps(t, w.atStore, w, expiry, 2));
      e.history != [] && PcOf(e, t) == Idle && e.lock.None? && StoreOf(e) == Store(entries, s.failures)
  {
    var s1 := Goto(Publish(s, entries), t, Unlocking);
    AtInvalidating(s, t, stale, w, expiry);
    StepsTo(s, s1, t, w.atStore, w, expiry, 2);
    SoloUnlock(s1, t, w, expiry, 1);
    PublishedStore(s, t, entries, Runs(s, Steps(t, w.atStore, w, expiry, 2)));
  }

  /** Without interference `invalidate` comes to what the sequential one does ... */
  lemma SoloInvalidate(s: State, t: Tid, stale: string, w: World, expiry: Expiry)
    requires Inv(s) && PcOf(s, t) == Idle && s.lock.None?
    ensures var e := Runs(s, [Begin(t, Invalidate(stale))] + Steps(t, w.atStore, w, expiry, 3));
      && e.history != [] && PcOf(e, t) == Idle && e.lock.None?
      && StoreOf(e) == Store(Invalidated(Current(s), Some(stale)), s.failures)
  {
    var s2 := WaitsThenIn(s, t, Invalidate(stale), w, expiry, 2);
    InvalidateEnds(s2, t, stale, Invalidated(Current(s), Some(stale)), w, expiry);
  }

  lemma PublishedStore(s: State, t: Tid, entries: Entries, e: State)
    requires e == Goto(Goto(Publish(s, entries), t, Unlocking).(lock := None), t, Idle)
    ensures e.history != [] && PcOf(e, t) == Idle && e.lock.None? && StoreOf(e) == Store(entries, s.failures)
  {
  }

  lemma ClearEnds(s: State, t: Tid, w: World, expiry: Expiry)
    requires Inv(s) && PcOf(s, t) == ClearingEntries
    ensures Runs(s, Steps(t, w.atStore, w, expiry, 3))
         == Goto(Goto(Goto(Publish(s, []), t, ClearingFailures).(failures := []), t, Unlocking).(lock := None), t, Idle)
  {
    var s1 := Goto(Publish(s, []), t, ClearingFailures);
    StepsTo(s, s1, t, w.atStore, w, expiry, 3);
    var s2 := Goto(s1.(failures := []), t, Unlocking);
    StepsTo(s1, s2, t, w.atStore, w, expiry, 2);
    SoloUnlock(s2, t, w, expiry, 1);
  }

  /** ... and so does `clear`. */
  lemma SoloClear(s: State, t: Tid, w: World, expiry: Expiry)
    requires Inv(s) && PcOf(s, t) == Idle && s.lock.None?
    ensures var e := Runs(s, [Begin(t, Op.Clear)] + Steps(t, w.atStore, w, expiry, 4));
      e.history != [] && PcOf(e, t) == Idle && e.lock.None? && StoreOf(e) == Store([], [])
  {
    var s2 := WaitsThenIn(s, t, Op.Clear, w, expiry, 3);
    ClearEnds(s2, t, w, expiry);
  }
}
