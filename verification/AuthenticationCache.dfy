/** The authorization cache: entries age under the TTL they were written with and under the one
    configured now, the oldest key makes room, and whoever finds the cache disabled empties it. */
module AuthenticationCache {
  import opened Options
  import opened OrderedDict

  // Microseconds, as Python's datetime counts them.
  type Instant = int

  const SECOND: int := 1_000_000
  const MAX_SIZE: nat := 1000

  datatype Entry<V> = Entry(credentials: V, writtenAt: Instant, expiresAt: Instant)

  type Cache<V> = Dict<string, Entry<V>>

  predicate Disabled(ttl: int) {
    ttl <= 0
  }

  predicate IsValid<V>(e: Entry<V>, now: Instant, ttl: int) {
    now < e.expiresAt && now - e.writtenAt < ttl * SECOND
  }

  function NewEntry<V>(credentials: V, now: Instant, ttl: int): Entry<V> {
    Entry(credentials, now, now + ttl * SECOND)
  }

  // One call, with the TTL and the clock it observed.
  datatype Event<V> =
    | Store(key: string, credentials: Option<V>, ttl: int, now: Instant)
    | Retrieve(key: string, ttl: int, now: Instant)
    | Exists(key: string, ttl: int, now: Instant)
    | Remove(key: string)
    | Clear

  function Sweep<V>(cache: Cache<V>, now: Instant, ttl: int): Cache<V> {
    if cache == [] then []
    else (if IsValid(cache[0].value, now, ttl) then [cache[0]] else []) + Sweep(cache[1..], now, ttl)
  }

  /** Oldest keys out until there is room for one more. */
  function MakeRoom<V>(cache: Cache<V>): Cache<V> {
    if |cache| >= MAX_SIZE then MakeRoom(cache[1..]) else cache
  }

  function Read<V>(cache: Cache<V>, key: string, ttl: int, now: Instant): Cache<V> {
    if Disabled(ttl) then []
    else
      var found := Get(cache, key);
      if found.Some? && !IsValid(found.value, now, ttl) then Without(cache, key) else cache
  }

  /** What a read answers. */
  function Hit<V>(cache: Cache<V>, key: string, ttl: int, now: Instant): Option<V> {
    var found := Get(cache, key);
    if !Disabled(ttl) && found.Some? && IsValid(found.value, now, ttl) then Some(found.value.credentials) else None
  }

  function After<V>(cache: Cache<V>, e: Event<V>): Cache<V> {
    match e
    case Store(key, credentials, ttl, now) =>
      if credentials.None? then cache
      else if Disabled(ttl) then []
      else Put(MakeRoom(Sweep(cache, now, ttl)), key, NewEntry(credentials.value, now, ttl))
    case Retrieve(key, ttl, now) => Read(cache, key, ttl, now)
    case Exists(key, ttl, now) => Read(cache, key, ttl, now)
    case Remove(key) => Without(cache, key)
    case Clear => []
  }

  /** The cache after a sequence of calls, starting empty. */
  function Run<V>(es: seq<Event<V>>): Cache<V> {
    if es == [] then [] else After(Run(es[..|es| - 1]), es[|es| - 1])
  }

  /** What a sweep that has come to place i will leave. */
  function Swept<V>(cache: Cache<V>, i: nat, now: Instant, ttl: int): Cache<V>
    requires i <= |cache|
  {
    cache[..i] + Sweep(cache[i..], now, ttl)
  }

  lemma SweptEnds<V>(cache: Cache<V>, now: Instant, ttl: int)
    ensures Swept(cache, 0, now, ttl) == Sweep(cache, now, ttl) && Swept(cache, |cache|, now, ttl) == cache
  {
    assert cache[0..] == cache && cache[|cache|..] == [];
  }

  lemma SweptKeeps<V>(cache: Cache<V>, i: nat, now: Instant, ttl: int)
    requires i < |cache| && IsValid(cache[i].value, now, ttl)
    ensures Swept(cache, i + 1, now, ttl) == Swept(cache, i, now, ttl)
  {
    assert cache[i..][1..] == cache[i + 1..] && cache[..i + 1] == cache[..i] + [cache[i]];
  }

  lemma SweptDrops<V>(cache: Cache<V>, i: nat, now: Instant, ttl: int, without: Cache<V>)
    requires i < |cache| && !IsValid(cache[i].value, now, ttl) && without == cache[..i] + cache[i + 1..]
    ensures Swept(without, i, now, ttl) == Swept(cache, i, now, ttl)
  {
    assert cache[i..][1..] == cache[i + 1..];
    assert without[..i] == cache[..i] && without[i..] == cache[i + 1..];
  }

  // ---- The singleton ----

  class AuthenticationCache<V> {
    var cache: Cache<V>

    constructor ()
      ensures cache == []
    {
      cache := [];
    }

    /** None when caching is off, and then nothing is left cached. */
    method CurrentTtlOrClear(configured: int) returns (ttl: Option<int>)
      modifies this
      ensures ttl == if configured > 0 then Some(configured) else None
      ensures cache == if configured > 0 then old(cache) else []
    {
      if Disabled(configured) {
        cache := [];
        return None;
      }
      return Some(configured);
    }

    method StoreCredentials(key: string, credentials: Option<V>, configured: int, now: Instant)
      modifies this
      ensures cache == After(old(cache), Store(key, credentials, configured, now))
    {
      if credentials.None? {
        return;
      }
      var ttl := CurrentTtlOrClear(configured);
      if ttl.None? {
        return;
      }
      var i := 0;
      SweptEnds(cache, now, configured);
      while i < |cache|
        invariant i <= |cache|
        invariant Swept(cache, i, now, configured) == Sweep(old(cache), now, configured)
        decreases |cache| - i
      {
        if IsValid(cache[i].value, now, configured) {
          SweptKeeps(cache, i, now, configured);
          i := i + 1;
        } else {
          SweptDrops(cache, i, now, configured, cache[..i] + cache[i + 1..]);
          cache := cache[..i] + cache[i + 1..];
        }
      }
      SweptEnds(cache, now, configured);
      while |cache| >= MAX_SIZE
        invariant MakeRoom(cache) == MakeRoom(Sweep(old(cache), now, configured))
        decreases |cache|
      {
        cache := cache[1..];
      }
      cache := Put(cache, key, NewEntry(credentials.value, now, configured));
    }

    method RetrieveCredentials(key: string, configured: int, now: Instant) returns (found: Option<V>)
      modifies this
      ensures cache == After(old(cache), Retrieve(key, configured, now))
      ensures found == Hit(old(cache), key, configured, now)
    {
      var ttl := CurrentTtlOrClear(configured);
      if ttl.None? {
        return None;
      }
      var entry := Get(cache, key);
      if entry.None? {
        return None;
      }
      if IsValid(entry.value, now, configured) {
        return Some(entry.value.credentials);
      }
      cache := Without(cache, key);
      return None;
    }

    method ExistsValid(key: string, configured: int, now: Instant) returns (found: bool)
      modifies this
      ensures cache == After(old(cache), Exists(key, configured, now))
      ensures found == Hit(old(cache), key, configured, now).Some?
    {
      var credentials := RetrieveCredentials(key, configured, now);
      found := credentials.Some?;
    }

    method RemoveCredentials(key: string) returns (removed: Option<V>)
      modifies this
      ensures cache == After(old(cache), Remove(key))
      ensures removed == match Get(old(cache), key) case Some(e) => Some(e.credentials) case None => None
    {
      var entry := Get(cache, key);
      cache := Without(cache, key);
      return if entry.Some? then Some(entry.value.credentials) else None;
    }

    method ClearAll()
      modifies this
      ensures cache == After(old(cache), Clear)
    {
      cache := [];
    }
  }

  // ---- One call, seen from one key ----

  predicate StoresEnabled<V>(e: Event<V>) {
    e.Store? && e.credentials.Some? && e.ttl > 0
  }

  /** The call writes this very entry under `key`. */
  ghost predicate Writes<V>(e: Event<V>, key: string, entry: Entry<V>) {
    StoresEnabled(e) && e.key == key && entry == Entry(e.credentials.value, e.now, e.now + e.ttl * 1_000_000)
  }

  /** The call neither replaces nor discards an entry held under `key`: caching is on as far as
      it sees, it is no clear, no removal and no store of the key, and if it looks at the entry
      -- to read it, or to sweep before a store -- the entry is valid then. */
  predicate Spares<V>(e: Event<V>, key: string, entry: Entry<V>) {
    match e
    case Store(k, credentials, ttl, now) =>
      credentials.None? || (ttl > 0 && k != key && now < entry.expiresAt && now - entry.writtenAt < ttl * 1_000_000)
    case Retrieve(k, ttl, now) =>
      ttl > 0 && (k == key ==> now < entry.expiresAt && now - entry.writtenAt < ttl * 1_000_000)
    case Exists(k, ttl, now) =>
      ttl > 0 && (k == key ==> now < entry.expiresAt && now - entry.writtenAt < ttl * 1_000_000)
    case Remove(k) => k != key
    case Clear => false
  }

  /** How many keys were added after `key`. */
  function Behind<V>(cache: Cache<V>, key: string): int {
    |cache| - 1 - Find(cache, key)
  }

  ghost predicate Sound<V>(cache: Cache<V>) {
    Distinct(cache) && |cache| <= 1000
  }

  lemma {:induction false} SweepGet<V>(cache: Cache<V>, now: Instant, ttl: int, key: string)
    requires Distinct(cache)
    ensures var found := Get(cache, key);
      Get(Sweep(cache, now, ttl), key) == if found.Some? && IsValid(found.value, now, ttl) then found else None
    decreases |cache|
  {
    if cache != [] {
      var first, rest := cache[0], cache[1..];
      assert cache == [first] + rest;
      SweepGet(rest, now, ttl, key);
      SweepCons(first, rest, now, ttl);
      ConsGet(first, rest, key);
      ConsGet(first, Sweep(rest, now, ttl), key);
      OnlyFirst(first, rest, key);
    }
  }

  lemma SweepCons<V>(first: Pair<string, Entry<V>>, rest: Cache<V>, now: Instant, ttl: int)
    ensures Sweep([first] + rest, now, ttl)
         == if IsValid(first.value, now, ttl) then [first] + Sweep(rest, now, ttl) else Sweep(rest, now, ttl)
  {
    assert ([first] + rest)[1..] == rest;
  }

  lemma OnlyFirst<V>(first: Pair<string, Entry<V>>, rest: Cache<V>, key: string)
    requires Distinct([first] + rest)
    ensures Distinct(rest) && (first.key == key ==> Get(rest, key).None?)
  {
    var cache := [first] + rest;
    forall i | 0 <= i < |rest| ensures rest[i].key != first.key {
      assert cache[i + 1] == rest[i] && cache[0] == first;
    }
    forall i, j | 0 <= i < j < |rest| ensures rest[i].key != rest[j].key {
      assert cache[i + 1] == rest[i] && cache[j + 1] == rest[j];
    }
  }

  lemma {:induction false} SweepBehind<V>(cache: Cache<V>, now: Instant, ttl: int, key: string)
    requires Distinct(cache) && Get(Sweep(cache, now, ttl), key).Some?
    ensures Behind(Sweep(cache, now, ttl), key) <= Behind(cache, key)
    decreases |cache|
  {
    SweepShrinks(cache, now, ttl);
    if cache != [] {
      var first, rest := cache[0], cache[1..];
      assert cache == [first] + rest;
      SweepGet(cache, now, ttl, key);
      ConsGet(first, Sweep(rest, now, ttl), key);
      if first.key != key {
        SweepBehind(rest, now, ttl, key);
      }
    }
  }

  lemma {:induction false} SweepShrinks<V>(cache: Cache<V>, now: Instant, ttl: int)
    ensures |Sweep(cache, now, ttl)| <= |cache|
    decreases |cache|
  {
    if cache != [] {
      SweepShrinks(cache[1..], now, ttl);
    }
  }

  lemma {:induction false} SweepDistinct<V>(cache: Cache<V>, now: Instant, ttl: int)
    requires Distinct(cache)
    ensures Distinct(Sweep(cache, now, ttl))
    decreases |cache|
  {
    if cache != [] {
      var rest := Sweep(cache[1..], now, ttl);
      SweepDistinct(cache[1..], now, ttl);
      forall j | 0 <= j < |rest| ensures rest[j].key != cache[0].key {
        SweepGet(cache[1..], now, ttl, rest[j].key);
        GetAt(rest, j);
        assert rest[j].key in KeySet(cache[1..]);
      }
    }
  }

  /** With at most MAX_SIZE keys, making room drops at most the oldest one. */
  lemma MakeRoomDropsOne<V>(cache: Cache<V>)
    requires |cache| <= MAX_SIZE
    ensures MakeRoom(cache) == if |cache| == MAX_SIZE then cache[1..] else cache
  {
    if |cache| == MAX_SIZE {
      assert MakeRoom(cache) == MakeRoom(cache[1..]);
    }
  }

  lemma TailGet<V>(cache: Cache<V>, key: string)
    requires Distinct(cache) && cache != []
    ensures Distinct(cache[1..])
    ensures Get(cache[1..], key) == if cache[0].key == key then None else Get(cache, key)
    ensures Get(cache[1..], key).Some? ==> Behind(cache[1..], key) == Behind(cache, key)
  {
    if cache[0].key == key {
      assert forall p :: p in cache[1..] ==> p.key != key;
    }
  }

  /** After a call the key holds what the call wrote, or what it held before if the call
      spares it and capacity does; and at most one key is added behind it. */
  lemma StepGet<V>(cache: Cache<V>, e: Event<V>, key: string)
    requires Sound(cache)
    ensures Sound(After(cache, e))
    ensures var before, after := Get(cache, key), Get(After(cache, e), key);
      && (after.Some? ==> Writes(e, key, after.value) || (after == before && Spares(e, key, before.value)))
      && (StoresEnabled(e) && e.key == key ==> after.Some? && Writes(e, key, after.value))
      && (before.Some? && Spares(e, key, before.value) && Behind(cache, key) < MAX_SIZE - 1 ==> after == before)
      && (before.Some? && Spares(e, key, before.value) && after.Some? ==>
            Behind(After(cache, e), key) <= Behind(cache, key) + if StoresEnabled(e) then 1 else 0)
  {
    if StoresEnabled(e) {
      StoreGet(cache, e, key);
    } else {
      ReadGet(cache, e, key);
    }
  }

  lemma ReadGet<V>(cache: Cache<V>, e: Event<V>, key: string)
    requires Sound(cache) && !StoresEnabled(e)
    ensures Sound(After(cache, e))
    ensures var before, after := Get(cache, key), Get(After(cache, e), key);
      && (after.Some? ==> after == before && Spares(e, key, before.value))
      && (before.Some? && Spares(e, key, before.value) ==> after == before && Behind(After(cache, e), key) <= Behind(cache, key))
  {
    match e
    case Retrieve(k, ttl, now) => LookGet(cache, k, ttl, now, key);
    case Exists(k, ttl, now) => LookGet(cache, k, ttl, now, key);
    case Remove(k) => WithoutGet(cache, k, key);
    case _ =>
  }

  lemma LookGet<V>(cache: Cache<V>, k: string, ttl: int, now: Instant, key: string)
    requires Sound(cache)
    ensures var after := Read(cache, k, ttl, now);
      && Sound(after)
      && (Get(after, key).Some? ==> Get(after, key) == Get(cache, key) && Behind(after, key) <= Behind(cache, key))
      && (Get(after, key).Some? <==> Get(cache, key).Some? && ttl > 0 && (k == key ==> IsValid(Get(cache, key).value, now, ttl)))
  {
    WithoutGet(cache, k, key);
  }

  lemma WithoutGet<V>(cache: Cache<V>, gone: string, key: string)
    requires Sound(cache)
    ensures Sound(Without(cache, gone))
    ensures Get(Without(cache, gone), key) == if key == gone then None else Get(cache, key)
    ensures Get(Without(cache, gone), key).Some? ==> Behind(Without(cache, gone), key) <= Behind(cache, key)
  {
    WithoutLaws(cache, gone);
    if gone != key && key in KeySet(cache) {
      WithoutBehind(cache, gone, key);
    }
  }

  lemma {:induction false} WithoutBehind<V>(cache: Cache<V>, gone: string, key: string)
    requires Distinct(cache) && gone != key && key in KeySet(cache)
    ensures Behind(Without(cache, gone), key) <= Behind(cache, key)
    decreases |cache|
  {
    var rest := cache[1..];
    assert cache == [cache[0]] + rest;
    WithoutLaws(rest, gone);
    if cache[0].key == key {
      assert ([cache[0]] + Without(rest, gone))[0] == cache[0];
    } else {
      assert key in KeySet(rest);
      WithoutBehind(rest, gone, key);
      assert ([cache[0]] + Without(rest, gone))[1..] == Without(rest, gone);
    }
  }

  /** What a store finds when it has swept and made room. */
  lemma RoomGet<V>(cache: Cache<V>, now: Instant, ttl: int, key: string, room: Cache<V>)
    requires Sound(cache) && room == MakeRoom(Sweep(cache, now, ttl))
    ensures Distinct(room) && |room| <= 999
    ensures var before, after := Get(cache, key), Get(room, key);
      && (after.Some? ==> after == before && IsValid(before.value, now, ttl) && Behind(room, key) <= Behind(cache, key))
      && (before.Some? && IsValid(before.value, now, ttl) && Behind(cache, key) < 999 ==> after == before)
  {
    var swept := Sweep(cache, now, ttl);
    SweepDistinct(cache, now, ttl);
    SweepGet(cache, now, ttl, key);
    SweepShrinks(cache, now, ttl);
    if Get(swept, key).Some? {
      SweepBehind(cache, now, ttl, key);
    }
    MakeRoomDropsOne(swept);
    if |swept| == MAX_SIZE {
      TailGet(swept, key);
    }
  }

  lemma StoreGet<V>(cache: Cache<V>, e: Event<V>, key: string)
    requires Sound(cache) && StoresEnabled(e)
    ensures Sound(After(cache, e))
    ensures var before, after := Get(cache, key), Get(After(cache, e), key);
      && (after.Some? ==> Writes(e, key, after.value) || (after == before && Spares(e, key, before.value)))
      && (e.key == key ==> after.Some? && Writes(e, key, after.value))
      && (before.Some? && Spares(e, key, before.value) && Behind(cache, key) < MAX_SIZE - 1 ==> after == before)
      && (before.Some? && Spares(e, key, before.value) && after.Some? ==>
            Behind(After(cache, e), key) <= Behind(cache, key) + 1)
  {
    var room := MakeRoom(Sweep(cache, e.now, e.ttl));
    var entry := NewEntry(e.credentials.value, e.now, e.ttl);
    RoomGet(cache, e.now, e.ttl, key, room);
    PutLaws(room, e.key, entry);
    if e.key != key && key in KeySet(room) {
      PutBehind(room, e.key, entry, key);
    }
  }

  lemma PutBehind<V>(cache: Cache<V>, written: string, entry: Entry<V>, key: string)
    requires Distinct(cache) && written != key && key in KeySet(cache)
    ensures Behind(Put(cache, written, entry), key) <= Behind(cache, key) + 1
  {
    PutLaws(cache, written, entry);
    var put, i := Put(cache, written, entry), Find(cache, key);
    assert put[i] == cache[i];
    GetAt(put, i);
  }

  // ---- The whole history ----

  lemma {:induction false} RunSound<V>(es: seq<Event<V>>)
    ensures Sound(Run(es))
    decreases |es|
  {
    if es != [] {
      RunSound(es[..|es| - 1]);
      StepGet(Run(es[..|es| - 1]), es[|es| - 1], "");
    }
  }

  /** Call number i wrote this entry and every call since spared it. */
  ghost predicate LiveSince<V>(es: seq<Event<V>>, i: nat, key: string, entry: Entry<V>) {
    && i < |es|
    && Writes(es[i], key, entry)
    && forall j :: i < j < |es| ==> Spares(es[j], key, entry)
  }

  lemma {:induction false} CachedMeansLive<V>(es: seq<Event<V>>, key: string) returns (i: nat)
    requires Get(Run(es), key).Some?
    ensures LiveSince(es, i, key, Get(Run(es), key).value)
    decreases |es|
  {
    var n := |es| - 1;
    var before := es[..n];
    RunSound(before);
    StepGet(Run(before), es[n], key);
    var entry := Get(Run(es), key).value;
    if Writes(es[n], key, entry) {
      i := n;
    } else {
      i := CachedMeansLive(before, key);
      assert before[i] == es[i];
      assert forall j :: i < j < n ==> before[j] == es[j];
    }
  }

  /** A hit is the value of the latest enabled store of the key, inside the lifetime that
      store gave it and inside the TTL of the read; and nothing since has disabled, removed,
      cleared, swept or missed it. So neither raising the TTL nor re-enabling brings back an
      entry that was once seen expired, removed or disabled. */
  lemma HitIsLatestStore<V>(es: seq<Event<V>>, key: string, ttl: int, now: Instant) returns (i: nat)
    requires Hit(Run(es), key, ttl, now).Some?
    ensures i < |es| && StoresEnabled(es[i]) && es[i].key == key
    ensures Hit(Run(es), key, ttl, now) == es[i].credentials
    ensures ttl > 0 && now < es[i].now + es[i].ttl * 1_000_000 && now - es[i].now < ttl * 1_000_000
    ensures forall j :: i < j < |es| ==> !(StoresEnabled(es[j]) && es[j].key == key)
    ensures forall j :: i < j < |es| ==> Spares(es[j], key, NewEntry(es[i].credentials.value, es[i].now, es[i].ttl))
  {
    i := CachedMeansLive(es, key);
  }

  function Stores<V>(es: seq<Event<V>>): nat {
    if es == [] then 0
    else Stores(es[..|es| - 1]) + if StoresEnabled(es[|es| - 1]) then 1 else 0
  }

  predicate Rewrites<V>(e: Event<V>, key: string) {
    StoresEnabled(e) && e.key == key
  }

  /** Storing a key again never moves it back: it keeps its place, or goes to the end if the old
      entry was swept or evicted first. */
  lemma RewriteKeepsPlace<V>(cache: Cache<V>, e: Event<V>, key: string)
    requires Sound(cache) && StoresEnabled(e) && e.key == key && key in KeySet(cache)
    ensures Behind(After(cache, e), key) <= Behind(cache, key)
  {
    var room := MakeRoom(Sweep(cache, e.now, e.ttl));
    var entry := NewEntry(e.credentials.value, e.now, e.ttl);
    RoomGet(cache, e.now, e.ttl, key, room);
    PutLaws(room, key, entry);
    GetAt(Put(room, key, entry), if key in KeySet(room) then Find(room, key) else |room|);
  }

  /** One call that stores the key again or spares what it holds, with few enough stores so far. */
  lemma KeptStep<V>(cache: Cache<V>, e: Event<V>, key: string, held: Entry<V>, stores: nat)
    requires Sound(cache) && Get(cache, key) == Some(held) && Behind(cache, key) <= stores
    requires Rewrites(e, key) || Spares(e, key, held)
    requires stores + (if StoresEnabled(e) then 1 else 0) <= MAX_SIZE - 1
    ensures Get(After(cache, e), key)
         == Some(if Rewrites(e, key) then NewEntry(e.credentials.value, e.now, e.ttl) else held)
    ensures Behind(After(cache, e), key) <= stores + if StoresEnabled(e) then 1 else 0
  {
    if Rewrites(e, key) {
      StepGet(cache, e, key);
      RewriteKeepsPlace(cache, e, key);
    } else if StoresEnabled(e) {
      StoreGet(cache, e, key);
    } else {
      ReadGet(cache, e, key);
    }
  }

  lemma StoresSplit<V>(es: seq<Event<V>>, from: nat)
    requires from < |es|
    ensures Stores(es[from..]) == Stores(es[..|es| - 1][from..]) + if StoresEnabled(es[|es| - 1]) then 1 else 0
  {
    assert es[from..][..|es| - 1 - from] == es[..|es| - 1][from..];
  }

  lemma LiveBefore<V>(es: seq<Event<V>>, i: nat, key: string, entry: Entry<V>)
    requires LiveSince(es, i, key, entry) && i < |es| - 1
    ensures LiveSince(es[..|es| - 1], i, key, entry) && Spares(es[|es| - 1], key, entry)
    ensures es[..|es| - 1][..i + 1] == es[..i + 1]
  {
    var before := es[..|es| - 1];
    assert forall j :: i <= j < |before| ==> before[j] == es[j];
  }

  /** Conversely the entry is there, as long as too few keys can have come behind it to push
      it out: the keys behind it after its store and the stores since make less than a thousand. */
  lemma {:induction false} LiveMeansCached<V>(es: seq<Event<V>>, i: nat, key: string, entry: Entry<V>)
    requires LiveSince(es, i, key, entry)
    requires Behind(Run(es[..i + 1]), key) + Stores(es[i + 1..]) < 1000
    ensures Get(Run(es), key) == Some(entry)
    ensures Behind(Run(es), key) <= Behind(Run(es[..i + 1]), key) + Stores(es[i + 1..])
    decreases |es|
  {
    var n := |es| - 1;
    var before := es[..n];
    RunSound(before);
    if i == n {
      assert es[..i + 1] == es;
      StepGet(Run(before), es[n], key);
    } else {
      LiveBefore(es, i, key, entry);
      StoresSplit(es, i + 1);
      LiveMeansCached(before, i, key, entry);
      KeptStep(Run(before), es[n], key, entry, Behind(Run(es[..i + 1]), key) + Stores(before[i + 1..]));
    }
  }

  /** Call number i stored these credentials, every call since spared them, and a read under this TTL
      at this time falls inside both lifetimes. */
  ghost predicate Answers<V>(es: seq<Event<V>>, i: nat, key: string, credentials: V, ttl: int, now: Instant) {
    && i < |es| && StoresEnabled(es[i]) && es[i].key == key && es[i].credentials == Some(credentials)
    && LiveSince(es, i, key, Entry(credentials, es[i].now, es[i].now + es[i].ttl * 1_000_000))
    && ttl > 0 && now < es[i].now + es[i].ttl * 1_000_000 && now - es[i].now < ttl * 1_000_000
  }

  /** No store of the key has had a thousand keys come behind it. */
  ghost predicate Roomy<V>(es: seq<Event<V>>, key: string) {
    forall i :: 0 <= i < |es| && Rewrites(es[i], key) ==> Behind(Run(es[..i + 1]), key) + Stores(es[i + 1..]) < 1000
  }

  /**
   * While there is room a read hits exactly what was stored last, at w under TTL T, if no call since
   * removed, replaced or cleared it, or saw caching disabled; if every sweep and every read of the
   * key since fell at some n with n < w + T and n - w below the TTL of that call; and if this read
   * does too.
   */
  lemma HitExactly<V>(es: seq<Event<V>>, key: string, ttl: int, now: Instant, credentials: V)
    requires Roomy(es, key)
    ensures Hit(Run(es), key, ttl, now) == Some(credentials) <==>
      exists i: nat :: Answers(es, i, key, credentials, ttl, now)
  {
    if Hit(Run(es), key, ttl, now) == Some(credentials) {
      var i := HitIsLatestStore(es, key, ttl, now);
      CachedMeansWritten(es, key, i);
      assert Answers(es, i, key, credentials, ttl, now);
    }
    forall i: nat | Answers(es, i, key, credentials, ttl, now)
      ensures Hit(Run(es), key, ttl, now) == Some(credentials)
    {
      LiveMeansCached(es, i, key, Entry(credentials, es[i].now, es[i].now + es[i].ttl * 1_000_000));
    }
  }

  lemma {:induction false} StoresParts<V>(es: seq<Event<V>>, k: nat)
    requires k <= |es|
    ensures Stores(es) == Stores(es[..k]) + Stores(es[k..])
    decreases |es|
  {
    if k == |es| {
      assert es[..k] == es;
    } else {
      StoresSplit(es, k);
      StoresParts(es[..|es| - 1], k);
      assert es[..|es| - 1][..k] == es[..k];
    }
  }

  lemma {:induction false} NoMoreKeysThanStores<V>(es: seq<Event<V>>)
    ensures |Run(es)| <= Stores(es)
    decreases |es|
  {
    if es != [] {
      var before, e := es[..|es| - 1], es[|es| - 1];
      NoMoreKeysThanStores(before);
      RunSound(before);
      GrowsByOne(Run(before), e);
    }
  }

  lemma GrowsByOne<V>(cache: Cache<V>, e: Event<V>)
    requires Sound(cache)
    ensures |After(cache, e)| <= |cache| + if StoresEnabled(e) then 1 else 0
  {
    match e
    case Store(key, credentials, ttl, now) =>
      SweepShrinks(cache, now, ttl);
      MakeRoomDropsOne(Sweep(cache, now, ttl));
    case Retrieve(key, _, _) => WithoutLaws(cache, key);
    case Exists(key, _, _) => WithoutLaws(cache, key);
    case Remove(key) => WithoutLaws(cache, key);
    case Clear =>
  }

  /** A thousand stores in all leave room. */
  lemma FewStoresLeaveRoom<V>(es: seq<Event<V>>, key: string)
    requires Stores(es) <= 1000
    ensures Roomy(es, key)
  {
    forall i | 0 <= i < |es| && Rewrites(es[i], key)
      ensures Behind(Run(es[..i + 1]), key) + Stores(es[i + 1..]) < 1000
    {
      StoresParts(es, i + 1);
      NoMoreKeysThanStores(es[..i + 1]);
    }
  }

  lemma CachedMeansWritten<V>(es: seq<Event<V>>, key: string, i: nat)
    requires i < |es| && Rewrites(es[i], key)
    requires forall j :: i < j < |es| ==> Spares(es[j], key, NewEntry(es[i].credentials.value, es[i].now, es[i].ttl))
    ensures LiveSince(es, i, key, Entry(es[i].credentials.value, es[i].now, es[i].now + es[i].ttl * 1_000_000))
  {
  }

  /** A key stored as new is followed by no other. */
  lemma AppendedLast<V>(es: seq<Event<V>>, key: string)
    requires es != [] && StoresEnabled(es[|es| - 1]) && es[|es| - 1].key == key
    requires Get(Run(es[..|es| - 1]), key).None?
    ensures Behind(Run(es), key) == 0
  {
    var before, e := Run(es[..|es| - 1]), es[|es| - 1];
    var room, entry := MakeRoom(Sweep(before, e.now, e.ttl)), NewEntry(e.credentials.value, e.now, e.ttl);
    RunSound(es[..|es| - 1]);
    RoomGet(before, e.now, e.ttl, key, room);
    PutLaws(room, key, entry);
    var put := Put(room, key, entry);
    GetAt(put, |put| - 1);
  }

  /** What the latest enabled store of the key wrote. */
  function LatestWrite<V>(es: seq<Event<V>>, key: string): Option<Entry<V>> {
    if es == [] then None
    else
      var e := es[|es| - 1];
      if StoresEnabled(e) && e.key == key then Some(NewEntry(e.credentials.value, e.now, e.ttl))
      else LatestWrite(es[..|es| - 1], key)
  }

  /** Call number j stores the key again or spares what was stored last. */
  predicate Keeps<V>(es: seq<Event<V>>, j: nat, key: string)
    requires j < |es|
  {
    var held := LatestWrite(es[..j], key);
    Rewrites(es[j], key) || (held.Some? && Spares(es[j], key, held.value))
  }

  /** Call number i stored the key, and every call since keeps it. */
  ghost predicate KeptSince<V>(es: seq<Event<V>>, i: nat, key: string) {
    && i < |es|
    && Rewrites(es[i], key)
    && forall j :: i < j < |es| ==> Keeps(es, j, key)
  }

  lemma KeptBefore<V>(es: seq<Event<V>>, i: nat, key: string)
    requires KeptSince(es, i, key) && i < |es| - 1
    ensures KeptSince(es[..|es| - 1], i, key) && es[..|es| - 1][..i] == es[..i]
    ensures var e := es[|es| - 1];
      Rewrites(e, key) || (LatestWrite(es[..|es| - 1], key).Some? && Spares(e, key, LatestWrite(es[..|es| - 1], key).value))
  {
    var n := |es| - 1;
    var before := es[..n];
    forall j | i < j < n ensures Keeps(before, j, key) {
      assert Keeps(es, j, key);
      assert before[j] == es[j] && before[..j] == es[..j];
    }
    assert Keeps(es, n, key);
  }

  lemma AppendedAsNew<V>(es: seq<Event<V>>, key: string)
    requires es != [] && Rewrites(es[|es| - 1], key)
    requires Get(Run(es[..|es| - 1]), key).None?
    ensures Get(Run(es), key) == LatestWrite(es, key) && Behind(Run(es), key) == 0
  {
    RunSound(es[..|es| - 1]);
    StepGet(Run(es[..|es| - 1]), es[|es| - 1], key);
    AppendedLast(es, key);
  }

  /** A key appended as new survives the next 999 stores of anything, itself included, whatever
      reads and sweeps happen in between: capacity alone never takes it before the thousandth. The
      keys behind it never outnumber the stores since. */
  lemma {:induction false} NewKeySurvives<V>(es: seq<Event<V>>, i: nat, key: string)
    requires KeptSince(es, i, key)
    requires Get(Run(es[..i]), key).None?
    requires Stores(es[i + 1..]) <= 999
    ensures Get(Run(es), key) == LatestWrite(es, key) && LatestWrite(es, key).Some?
    ensures Behind(Run(es), key) <= Stores(es[i + 1..]) && |Run(es)| <= 1000
    decreases |es|
  {
    var n := |es| - 1;
    var before := es[..n];
    RunSound(es);
    if i == n {
      AppendedAsNew(es, key);
    } else {
      RunSound(before);
      KeptBefore(es, i, key);
      StoresSplit(es, i + 1);
      NewKeySurvives(before, i, key);
      KeptStep(Run(before), es[n], key, LatestWrite(before, key).value, Stores(before[i + 1..]));
    }
  }
}
