/** The token cache under threads. Every read and every rebinding of a shared field is one
    atomic step, and a run is any interleaving of the steps of any number of threads. */
module AccessTokensThreads {
  import opened Options
  import opened OrderedDict
  import opened AccessTokens

  type Tid = nat

  datatype Op = Lookup(url: Url) | Invalidate(stale: string) | Clear

  // Where a thread stands. `began` is the newest published map when its call began.
  datatype Pc =
    | Idle
    | FastRead(url: Url, began: nat)
    | FastCheck(url: Url, began: nat, snap: nat)
    | Waiting(op: Op, began: nat)
    | LockedRead(url: Url, began: nat)
    | LockedCheck(url: Url, began: nat, snap: nat)
    | Minting(url: Url, began: nat, matched: Option<Url>, checkedAt: Instant)
    | Publishing(url: Url, matched: Option<Url>, mint: Mint)
    | Reporting(url: Url, mint: Mint)
    | Invalidating(stale: string)
    | ClearingEntries
    | ClearingFailures
    | Unlocking

  // A finished mint: what intake answered for `url`, and the expiry read from the answer.
  datatype Mint = Mint(url: Url, result: TokenResult, expiry: Expiry)

  // A call answered from the cache: map number `snap`, read between `began` and `ended`.
  datatype Served = Served(url: Url, began: nat, snap: nat, ended: nat, hit: Hit, at: Instant)

  datatype State = State(
    history: seq<Entries>,      // every map published so far; the last one is current
    failures: Failures,
    lock: Option<Tid>,
    pcs: map<Tid, Pc>,
    minted: seq<Mint>,
    served: seq<Served>)

  // A thread begins an operation, or takes its next step; the clock and intake's answer, an
  // exception included, are whatever the environment makes them.
  datatype Action =
    | Begin(t: Tid, op: Op)
    | Advance(t: Tid, clock: Instant, raises: bool, reply: Option<Reply>, expiry: Expiry)

  const INITIAL: State := State([[]], [], None, map[], [], [])

  function PcOf(s: State, t: Tid): Pc {
    if t in s.pcs then s.pcs[t] else Idle
  }

  function Goto(s: State, t: Tid, pc: Pc): State {
    s.(pcs := s.pcs[t := pc])
  }

  function Current(s: State): Entries
    requires s.history != []
  {
    s.history[|s.history| - 1]
  }

  /** Rebinding `_entries`. */
  function Publish(s: State, entries: Entries): State {
    s.(history := s.history + [entries])
  }

  /** Reading the clock against a snapshot: a usable match ends the call, one whose expiry cannot be
      compared ends it with an exception, else it moves on. */
  function Check(s: State, t: Tid, url: Url, began: nat, snap: nat, clock: Instant, hit: Pc, miss: Pc): State
    requires snap < |s.history|
  {
    if Incomparable(s.history[snap], url) then Goto(s, t, hit)
    else match CachedHit(s.history[snap], url, clock)
    case Some(found) =>
      Goto(s.(served := s.served + [Served(url, began, snap, |s.history| - 1, found, clock)]), t, hit)
    case None => Goto(s, t, miss)
  }

  function Start(s: State, t: Tid, op: Op): State
    requires Consistent(s)
  {
    if PcOf(s, t) != Idle then s
    else if op.Lookup? then Goto(s, t, FastRead(op.url, |s.history| - 1))
    else Goto(s, t, Waiting(op, |s.history| - 1))
  }

  /** Without the lock: read a snapshot, check it, queue for the lock, take it when it is free. */
  function StepOutside(s: State, t: Tid, clock: Instant): State
    requires Consistent(s)
  {
    match PcOf(s, t)
    case FastRead(url, began) => Goto(s, t, FastCheck(url, began, |s.history| - 1))
    case FastCheck(url, began, snap) =>
      assert ThreadOk(s, PcOf(s, t));
      Check(s, t, url, began, snap, clock, Idle, Waiting(Lookup(url), began))
    case Waiting(op, began) =>
      if s.lock.Some? then s
      else
        Goto(s.(lock := Some(t)), t,
          match op
          case Lookup(url) => LockedRead(url, began)
          case Invalidate(stale) => Invalidating(stale)
          case Clear => ClearingEntries)
    case _ => s
  }

  /** Under the lock: re-read, re-check, mint, publish, release. */
  function StepInside(s: State, t: Tid, clock: Instant, raises: bool, reply: Option<Reply>, expiry: Expiry): State
    requires Consistent(s)
  {
    match PcOf(s, t)
    case LockedRead(url, began) => Goto(s, t, LockedCheck(url, began, |s.history| - 1))
    case LockedCheck(url, began, snap) =>
      assert ThreadOk(s, PcOf(s, t));
      Check(s, t, url, began, snap, clock, Unlocking, Minting(url, began, MatchKey(url, Current(s)), clock))
    case Minting(url, began, matched, _) =>
      if raises then Goto(s, t, Unlocking)
      else
        var mint := Mint(url, Classify(reply), expiry);
        Goto(s.(minted := s.minted + [mint]), t, Publishing(url, matched, mint))
    case Publishing(url, matched, mint) =>
      assert ThreadOk(s, PcOf(s, t));
      var after := AfterMint(Store(Current(s), s.failures), url, matched, mint.result, mint.expiry);
      if mint.result.outcome == Success || matched.Some? then
        Goto(Publish(s, after.entries), t, Reporting(url, mint))
      else Goto(s, t, Reporting(url, mint))
    case Reporting(url, mint) =>
      assert ThreadOk(s, PcOf(s, t));
      Goto(s.(failures := AfterMint(Store(Current(s), s.failures), url, None, mint.result, mint.expiry).failures), t, Unlocking)
    case Invalidating(stale) => Goto(Publish(s, Invalidated(Current(s), Some(stale))), t, Unlocking)
    case ClearingEntries => Goto(Publish(s, []), t, ClearingFailures)
    case ClearingFailures => Goto(s.(failures := []), t, Unlocking)
    case Unlocking => Goto(s.(lock := None), t, Idle)
    case _ => s
  }

  /** One step; a step that is not possible -- a lock that is taken, a thread that is busy --
      changes nothing. */
  function Act(s: State, a: Action): State
    requires Consistent(s)
  {
    match a
    case Begin(t, op) => Start(s, t, op)
    case Advance(t, clock, raises, reply, expiry) =>
      if InLock(PcOf(s, t)) then StepInside(s, t, clock, raises, reply, expiry) else StepOutside(s, t, clock)
  }

  // ---- The invariant ----

  predicate InLock(pc: Pc) {
    !pc.Idle? && !pc.FastRead? && !pc.FastCheck? && !pc.Waiting?
  }

  ghost predicate WasMinted(minted: seq<Mint>, key: Url, held: Token) {
    exists m :: m in minted && m.result.outcome == Success && UsablePayload(m.result.payload)
      && Text(m.result.payload, "base_url") == key
      && held == Token(Text(m.result.payload, "token"), m.expiry)
  }

  predicate MintNeeded(current: Entries, url: Url, matched: Option<Url>, at: Instant) {
    !Incomparable(current, url) && CachedHit(current, url, at) == None && matched == MatchKey(url, current)
  }

  predicate ThreadOk(s: State, pc: Pc)
    requires s.history != []
  {
    match pc
    case FastRead(_, began) => began < |s.history|
    case FastCheck(_, began, snap) => began <= snap < |s.history|
    case Waiting(_, began) => began < |s.history|
    case LockedRead(_, began) => began < |s.history|
    case LockedCheck(_, began, snap) => began <= snap == |s.history| - 1
    case Minting(url, began, matched, at) => MintNeeded(Current(s), url, matched, at)
    case Publishing(url, matched, mint) =>
      && mint in s.minted && mint == Mint(url, mint.result, mint.expiry)
      && matched == MatchKey(url, Current(s))
      && (mint.result.outcome == Success ==> UsablePayload(mint.result.payload))
    case Reporting(url, mint) => mint.result.outcome == Success ==> UsablePayload(mint.result.payload)
    case _ => true
  }

  /** The lock is held by exactly the threads inside it, and each thread's own knowledge of
      the shared state is right. */
  ghost predicate Consistent(s: State) {
    && s.history != []
    && (forall t: Tid :: InLock(PcOf(s, t)) <==> s.lock == Some(t))
    && (forall t: Tid :: ThreadOk(s, PcOf(s, t)))
  }

  ghost predicate EntriesOk(minted: seq<Mint>, entries: Entries) {
    && Distinct(entries)
    && forall p :: p in entries ==> WasMinted(minted, p.key, p.value)
  }

  ghost predicate ServedOk(s: State, a: Served) {
    && a.began <= a.snap <= a.ended < |s.history|
    && CachedHit(s.history[a.snap], a.url, a.at) == Some(a.hit)
  }

  ghost predicate Inv(s: State) {
    && Consistent(s)
    && (forall i {:trigger EntriesOk(s.minted, s.history[i])} :: 0 <= i < |s.history| ==> EntriesOk(s.minted, s.history[i]))
    && (forall i {:trigger ServedOk(s, s.served[i])} :: 0 <= i < |s.served| ==> ServedOk(s, s.served[i]))
    && Distinct(s.failures) && |s.failures| <= FAILURE_CAP
  }

  // ---- Every step keeps it ----

  /** A step of thread `t` to `pc`: it touches no other thread, only adds to the logs, and
      publishes only under the lock. */
  ghost predicate StepTo(s: State, s': State, t: Tid, pc: Pc) {
    && s'.pcs == s.pcs[t := pc]
    && s.history <= s'.history && s.minted <= s'.minted && s.served <= s'.served
    && (s'.history == s.history || s.lock == Some(t))
    && (s'.lock == s.lock || (s.lock == None && s'.lock == Some(t)) || (s.lock == Some(t) && s'.lock == None))
  }

  lemma StepConsistent(s: State, s': State, t: Tid, pc: Pc)
    requires Consistent(s) && StepTo(s, s', t, pc)
    requires (InLock(pc) <==> s'.lock == Some(t)) && s'.history != [] && ThreadOk(s', pc)
    ensures Consistent(s')
  {
    forall u: Tid
      ensures InLock(PcOf(s', u)) <==> s'.lock == Some(u)
      ensures ThreadOk(s', PcOf(s', u))
    {
      if u != t {
        assert PcOf(s', u) == PcOf(s, u);
        assert ThreadOk(s, PcOf(s, u)) && (InLock(PcOf(s, u)) <==> s.lock == Some(u));
      }
    }
  }

  /** What such a step has to bring along for the invariant to hold again. */
  lemma StepKeepsInv(s: State, s': State, t: Tid, pc: Pc)
    requires Inv(s) && StepTo(s, s', t, pc)
    requires (InLock(pc) <==> s'.lock == Some(t)) && s'.history != [] && ThreadOk(s', pc)
    requires forall i :: |s.history| <= i < |s'.history| ==> EntriesOk(s'.minted, s'.history[i])
    requires forall i :: |s.served| <= i < |s'.served| ==> ServedOk(s', s'.served[i])
    requires Distinct(s'.failures) && |s'.failures| <= FAILURE_CAP
    ensures Inv(s')
  {
    StepConsistent(s, s', t, pc);
    forall i | 0 <= i < |s.history| ensures EntriesOk(s'.minted, s'.history[i]) {
      MintedGrows(s.minted, s'.minted, s.history[i]);
    }
    forall i | 0 <= i < |s.served| ensures ServedOk(s', s'.served[i]) {
      assert ServedOk(s, s.served[i]);
    }
  }

  lemma MintedGrows(minted: seq<Mint>, more: seq<Mint>, entries: Entries)
    requires EntriesOk(minted, entries) && minted <= more
    ensures EntriesOk(more, entries)
  {
    forall p | p in entries ensures WasMinted(more, p.key, p.value) {
      var m :| m in minted && m.result.outcome == Success && UsablePayload(m.result.payload)
        && Text(m.result.payload, "base_url") == p.key
        && p.value == Token(Text(m.result.payload, "token"), m.expiry);
      assert m in more;
    }
  }

  lemma FilteredOk(minted: seq<Mint>, entries: Entries, keep: Pair<Url, Token> -> bool)
    requires EntriesOk(minted, entries)
    ensures EntriesOk(minted, Filter(entries, keep))
  {
    FilterDistinct(entries, keep);
    forall p | p in Filter(entries, keep) ensures WasMinted(minted, p.key, p.value) {
      FilterMember(entries, keep, p);
    }
  }

  lemma WithoutOk(minted: seq<Mint>, entries: Entries, key: Url)
    requires EntriesOk(minted, entries)
    ensures EntriesOk(minted, Without(entries, key))
  {
    WithoutLaws(entries, key);
    forall p | p in Without(entries, key) ensures WasMinted(minted, p.key, p.value) {
      WithoutMember(entries, key, p);
    }
  }

  lemma PutOk(minted: seq<Mint>, entries: Entries, key: Url, held: Token)
    requires EntriesOk(minted, entries) && WasMinted(minted, key, held)
    ensures EntriesOk(minted, Put(entries, key, held))
  {
    var put := Put(entries, key, held);
    PutLaws(entries, key, held);
    forall p | p in put ensures WasMinted(minted, p.key, p.value) {
      var i :| 0 <= i < |put| && put[i] == p;
      assert p == Pair(key, held) || (i < |entries| && p == entries[i]);
    }
  }

  lemma MintedOk(s: State, url: Url, matched: Option<Url>, mint: Mint)
    requires s.history != [] && EntriesOk(s.minted, Current(s)) && mint in s.minted
    requires mint.result.outcome == Success ==> UsablePayload(mint.result.payload)
    ensures EntriesOk(s.minted,
      AfterMint(Store(Current(s), s.failures), url, matched, mint.result, mint.expiry).entries)
  {
    var entries := Current(s);
    if matched.Some? {
      WithoutOk(s.minted, entries, matched.value);
    }
    if mint.result.outcome == Success {
      var key := Text(mint.result.payload, "base_url");
      var held := Token(Text(mint.result.payload, "token"), mint.expiry);
      var kept := if matched.Some? && matched.value != key then Without(entries, matched.value) else entries;
      assert WasMinted(s.minted, key, held);
      assert Refreshed(entries, matched, key, held) == Put(kept, key, held);
      PutOk(s.minted, kept, key, held);
    }
  }

  lemma StartKeepsInv(s: State, t: Tid, op: Op)
    requires Inv(s)
    ensures Inv(Start(s, t, op))
  {
    var s' := Start(s, t, op);
    if PcOf(s, t) == Idle {
      assert InLock(PcOf(s, t)) <==> s.lock == Some(t);
      StepKeepsInv(s, s', t, PcOf(s', t));
    }
  }

  lemma OutsideKeepsInv(s: State, t: Tid, clock: Instant)
    requires Inv(s) && !InLock(PcOf(s, t))
    ensures Inv(StepOutside(s, t, clock))
  {
    var s' := StepOutside(s, t, clock);
    assert ThreadOk(s, PcOf(s, t)) && (InLock(PcOf(s, t)) <==> s.lock == Some(t));
    if s' != s {
      StepKeepsInv(s, s', t, PcOf(s', t));
    }
  }

  /** The re-check under the lock: either the call is served, or a mint is needed. */
  lemma LockedCheckKeepsInv(s: State, t: Tid, clock: Instant, raises: bool, reply: Option<Reply>, expiry: Expiry)
    requires Inv(s) && PcOf(s, t).LockedCheck?
    ensures Inv(StepInside(s, t, clock, raises, reply, expiry))
  {
    var s' := StepInside(s, t, clock, raises, reply, expiry);
    assert ThreadOk(s, PcOf(s, t)) && (InLock(PcOf(s, t)) <==> s.lock == Some(t));
    StepKeepsInv(s, s', t, PcOf(s', t));
  }

  lemma MintingKeepsInv(s: State, t: Tid, clock: Instant, raises: bool, reply: Option<Reply>, expiry: Expiry)
    requires Inv(s)
    requires PcOf(s, t).LockedRead? || PcOf(s, t).Minting?
    ensures Inv(StepInside(s, t, clock, raises, reply, expiry))
  {
    var s' := StepInside(s, t, clock, raises, reply, expiry);
    assert ThreadOk(s, PcOf(s, t)) && (InLock(PcOf(s, t)) <==> s.lock == Some(t));
    ClassifyMeaning(reply);
    StepKeepsInv(s, s', t, PcOf(s', t));
  }

  /** Publishing under the lock, and releasing it. */
  lemma PublishingKeepsInv(s: State, t: Tid, clock: Instant, raises: bool, reply: Option<Reply>, expiry: Expiry)
    requires Inv(s) && InLock(PcOf(s, t))
    requires !PcOf(s, t).LockedRead? && !PcOf(s, t).LockedCheck? && !PcOf(s, t).Minting?
    ensures Inv(StepInside(s, t, clock, raises, reply, expiry))
  {
    var s' := StepInside(s, t, clock, raises, reply, expiry);
    assert ThreadOk(s, PcOf(s, t)) && (InLock(PcOf(s, t)) <==> s.lock == Some(t));
    match PcOf(s, t) {
      case Publishing(url, matched, mint) =>
        MintedOk(s, url, matched, mint);
      case Reporting(url, mint) =>
        AfterMintKeepsValid(Store([], s.failures), url, None, mint.result, mint.expiry);
      case Invalidating(stale) =>
        FilteredOk(s.minted, Current(s), (p: Pair<Url, Token>) => p.value.token != Some(stale).value);
      case _ =>
    }
    StepKeepsInv(s, s', t, PcOf(s', t));
  }

  lemma ActKeepsInv(s: State, a: Action)
    requires Inv(s)
    ensures Inv(Act(s, a))
  {
    match a
    case Begin(t, op) => StartKeepsInv(s, t, op);
    case Advance(t, clock, raises, reply, expiry) =>
      var pc := PcOf(s, t);
      if !InLock(pc) {
        OutsideKeepsInv(s, t, clock);
      } else if pc.LockedCheck? {
        LockedCheckKeepsInv(s, t, clock, raises, reply, expiry);
      } else if pc.LockedRead? || pc.Minting? {
        MintingKeepsInv(s, t, clock, raises, reply, expiry);
      } else {
        PublishingKeepsInv(s, t, clock, raises, reply, expiry);
      }
  }

  // ---- All runs ----

  ghost predicate Next(s: State, a: Action, s': State) {
    Consistent(s) && s' == Act(s, a)
  }

  lemma InitialInv()
    ensures Inv(INITIAL)
  {
  }

  lemma NextKeepsInv(s: State, a: Action, s': State)
    requires Inv(s) && Next(s, a, s')
    ensures Inv(s')
  {
    ActKeepsInv(s, a);
  }

  /** The run of an action sequence, as the states it goes through. */
  ghost predicate IsRun(states: seq<State>, actions: seq<Action>) {
    && |states| == |actions| + 1
    && states[0] == INITIAL
    && forall i :: 0 <= i < |actions| ==> Next(states[i], actions[i], states[i + 1])
  }

  lemma {:induction false} ReachableInv(states: seq<State>, actions: seq<Action>, i: nat)
    requires IsRun(states, actions) && i < |states|
    ensures Inv(states[i])
    decreases i
  {
    if i == 0 {
      InitialInv();
    } else {
      ReachableInv(states, actions, i - 1);
      NextKeepsInv(states[i - 1], actions[i - 1], states[i]);
    }
  }

  /** Every action sequence has a run. */
  lemma {:induction false} RunExists(actions: seq<Action>) returns (states: seq<State>)
    ensures IsRun(states, actions)
    decreases |actions|
  {
    if actions == [] {
      states := [INITIAL];
    } else {
      var n := |actions| - 1;
      var before := RunExists(actions[..n]);
      ReachableInv(before, actions[..n], n);
      states := before + [Act(before[n], actions[n])];
      assert Next(states[n], actions[n], states[n + 1]);
    }
  }

  /** At most one mint is in flight, and it is in flight only because the newest map -- the
      one re-read under the lock -- had no usable longest match for its URL. */
  lemma OneMintAndOnlyWhenNeeded(states: seq<State>, actions: seq<Action>, i: nat, t: Tid, u: Tid)
    requires IsRun(states, actions) && i < |states|
    requires PcOf(states[i], t).Minting?
    ensures PcOf(states[i], u).Minting? ==> u == t
    ensures var m := PcOf(states[i], t);
      && states[i].history != []
      && LongestCover(m.url, KeySet(Current(states[i])), m.matched)
      && (m.matched.Some? ==> var held := Get(Current(states[i]), m.matched.value);
            held.Some? && held.value.expiredAt.Aware? && held.value.expiredAt.at - m.checkedAt <= 120_000_000)
  {
    ReachableInv(states, actions, i);
    var s := states[i];
    assert InLock(PcOf(s, t)) && ThreadOk(s, PcOf(s, t));
    MatchKeyLongest(PcOf(s, t).url, Current(s));
    assert InLock(PcOf(s, u)) <==> s.lock == Some(u);
  }

  /** A call answered from the cache got the usable longest match of a map that was published
      when the call began or while it ran. */
  lemma CachedAnswerWasPublished(states: seq<State>, actions: seq<Action>, i: nat, a: Served)
    requires IsRun(states, actions) && i < |states| && a in states[i].served
    ensures a.began <= a.snap <= a.ended < |states[i].history|
    ensures var map' := states[i].history[a.snap];
      && LongestCover(a.url, KeySet(map'), Some(a.hit.key))
      && Get(map', a.hit.key) == Some(a.hit.held)
      && a.hit.held.expiredAt.Aware? && a.hit.held.expiredAt.at - a.at > 120_000_000
  {
    ReachableInv(states, actions, i);
    var k :| 0 <= k < |states[i].served| && states[i].served[k] == a;
    assert ServedOk(states[i], a);
    MatchKeyLongest(a.url, states[i].history[a.snap]);
  }

  /** Every token in any map ever published came from a successful mint and is stored under
      the base URL that this mint's answer named. */
  lemma StoredTokenWasMinted(states: seq<State>, actions: seq<Action>, i: nat, version: nat, key: Url)
    requires IsRun(states, actions) && i < |states|
    requires version < |states[i].history| && key in KeySet(states[i].history[version])
    ensures WasMinted(states[i].minted, key, Get(states[i].history[version], key).value)
    ensures |states[i].failures| <= 64
  {
    ReachableInv(states, actions, i);
    var entries := states[i].history[version];
    assert EntriesOk(states[i].minted, entries);
    assert entries[Find(entries, key)] in entries;
  }

  // ---- Actions one after the other ----

  /** The state after the actions, one after the other. */
  ghost function Runs(s: State, actions: seq<Action>): State
    requires Inv(s)
    decreases |actions|
  {
    if actions == [] then s
    else
      ActKeepsInv(s, actions[0]);
      Runs(Act(s, actions[0]), actions[1..])
  }

  lemma {:induction false} RunsConcat(s: State, a: seq<Action>, b: seq<Action>)
    requires Inv(s)
    ensures Inv(Runs(s, a)) && Runs(s, a + b) == Runs(Runs(s, a), b)
    decreases |a|
  {
    if a == [] {
      assert a + b == b;
    } else {
      ActKeepsInv(s, a[0]);
      RunsConcat(Act(s, a[0]), a[1..], b);
      assert (a + b)[1..] == a[1..] + b;
    }
  }

  lemma RunsOne(s: State, a: Action)
    requires Inv(s)
    ensures Inv(Act(s, a)) && Runs(s, [a]) == Act(s, a)
  {
    ActKeepsInv(s, a);
    assert [a][1..] == [];
  }

  // ---- A mint that raises ----

  predicate ByOthers(actions: seq<Action>, t: Tid) {
    forall i :: 0 <= i < |actions| ==> actions[i].t != t
  }

  predicate SameMaps(s: State, e: State) {
    e.history == s.history && e.failures == s.failures && e.minted == s.minted
  }

  /** While one thread holds the lock, no step of another changes a map, the lock or that thread. */
  lemma OtherKeepsMaps(s: State, a: Action, t: Tid)
    requires Inv(s) && s.lock == Some(t) && a.t != t
    ensures Inv(Act(s, a)) && SameMaps(s, Act(s, a)) && Act(s, a).lock == Some(t) && PcOf(Act(s, a), t) == PcOf(s, t)
  {
    ActKeepsInv(s, a);
    assert !InLock(PcOf(s, a.t));
  }

  lemma {:induction false} OthersKeepMaps(s: State, others: seq<Action>, t: Tid)
    requires Inv(s) && s.lock == Some(t) && ByOthers(others, t)
    ensures var e := Runs(s, others);
      Inv(e) && SameMaps(s, e) && e.lock == Some(t) && PcOf(e, t) == PcOf(s, t)
    decreases |others|
  {
    if others != [] {
      OtherKeepsMaps(s, others[0], t);
      OthersKeepMaps(Act(s, others[0]), others[1..], t);
    }
  }

  /** From a mint that raises, whatever other threads do meanwhile, both maps stay what they were
      up to and including this thread's next step, which frees the lock and ends the call. */
  lemma RaisingMintChangesNothing(s: State, t: Tid, raising: Action, others: seq<Action>, next: Action)
    requires Inv(s) && PcOf(s, t).Minting?
    requires raising.Advance? && raising.t == t && raising.raises
    requires ByOthers(others, t) && next.Advance? && next.t == t
    ensures var before := Runs(s, [raising] + others);
      var after := Runs(s, [raising] + others + [next]);
      && SameMaps(s, before) && before.lock == Some(t)
      && SameMaps(s, after) && after.lock == None && PcOf(after, t) == Idle
  {
    var s1 := Goto(s, t, Unlocking);
    RunsOne(s, raising);
    assert Act(s, raising) == s1;
    RunsConcat(s, [raising], others);
    assert InLock(PcOf(s, t)) && s.lock == Some(t);
    OthersKeepMaps(s1, others, t);
    var e := Runs(s1, others);
    RunsConcat(s, [raising] + others, [next]);
    RunsOne(e, next);
    assert Act(e, next) == Goto(e.(lock := None), t, Idle);
  }
}
