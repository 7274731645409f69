/** Authorizing a request and remembering who called: the per-thread request store, which keeps
    everything inside the request's own environ, and the grants cached per client and route. */
module EndpointAuthorize {
  import opened Options
  import opened JsonValues
  import opened AuthenticationCache

  const UUID_KEY := "end_point_blank.uuid"
  const SOURCE_ENV_ID_KEY := "end_point_blank.source_application_environment_id"
  const SOURCE_ORGANIZATION_ID_KEY := "end_point_blank.source_organization_id"
  const DEPRECATION_KEY := "end_point_blank.deprecation"

  lemma KeysDiffer()
    ensures SOURCE_ENV_ID_KEY != SOURCE_ORGANIZATION_ID_KEY && SOURCE_ENV_ID_KEY != DEPRECATION_KEY
    ensures SOURCE_ORGANIZATION_ID_KEY != DEPRECATION_KEY
    ensures UUID_KEY !in {SOURCE_ENV_ID_KEY, SOURCE_ORGANIZATION_ID_KEY, DEPRECATION_KEY}
  {
    assert |UUID_KEY| == 20 && |SOURCE_ENV_ID_KEY| == 49;
    assert |SOURCE_ORGANIZATION_ID_KEY| == 38 && |DEPRECATION_KEY| == 27;
  }

  // ---- Grants ----

  datatype Grant = Grant(sourceEnvironmentId: Option<string>, sourceOrganizationId: Option<string>, deprecation: Option<Json>)

  const NO_GRANT := Grant(None, None, None)

  // A cache entry: a grant, one of the shape used up to 0.13.x, or anything else.
  datatype CachedValue = Current(grant: Grant) | Legacy(environmentId: Option<string>, deprecation: Option<Json>) | Other

  function CachedGrant(cached: CachedValue): Grant {
    match cached
    case Current(grant) => grant
    case Legacy(environmentId, deprecation) => Grant(environmentId, None, deprecation)
    case Other => NO_GRANT
  }

  /** The first element of the list under `data`. */
  function FirstGranted(payload: Option<Json>): Option<Json> {
    match MemberOf(payload, "data")
    case Some(Arr(items)) => if items != [] then Some(items[0]) else None
    case _ => None
  }

  function NonEmptyText(field: Option<Json>): Option<string> {
    match field
    case Some(Str(s)) => if s != "" then Some(s) else None
    case _ => None
  }

  function GrantFrom(payload: Option<Json>): Grant {
    var block := MemberOf(payload, "deprecation");
    Grant(
      NonEmptyText(MemberOf(FirstGranted(payload), "source_application_environment_id")),
      NonEmptyText(MemberOf(FirstGranted(payload), "source_organization_id")),
      if block.Some? && block.value.Obj? then block else None)
  }

  // What intake's answer says, read at fixed positions of its body.

  const DATA_0: Path := [Key("data"), At(0)]

  /** The text at this position, Null if there is none or it is empty. */
  function TextAt(body: Option<Json>, p: Path): Json {
    if body.None? then Null
    else match Locate(body.value, p)
      case Some(Str(s)) => if s == "" then Null else Str(s)
      case _ => Null
  }

  function DictAt(body: Option<Json>, p: Path): Json {
    if body.None? then Null
    else match Locate(body.value, p)
      case Some(Obj(members)) => Obj(members)
      case _ => Null
  }

  /** The grant names the environment and the organization found in the first element under `data`,
      each under its own name, and the deprecation block if it is an object. */
  ghost predicate Describes(grant: Grant, body: Option<Json>) {
    && TextValue(grant.sourceEnvironmentId) == TextAt(body, DATA_0 + [Key("source_application_environment_id")])
    && TextValue(grant.sourceOrganizationId) == TextAt(body, DATA_0 + [Key("source_organization_id")])
    && BlockValue(grant.deprecation) == DictAt(body, [Key("deprecation")])
  }

  lemma MemberIsLocated(body: Option<Json>, name: string)
    ensures MemberOf(body, name) == if body.Some? then Locate(body.value, [Key(name)]) else None
  {
    if body.Some? && body.value.Obj? && HasKey(body.value.members, name) {
      assert [Key(name)][1..] == [];
    }
  }

  lemma {:induction false} LocateParts(v: Json, p: Path, q: Path)
    ensures Locate(v, p + q) == if Locate(v, p).Some? then Locate(Locate(v, p).value, q) else None
    decreases |p|
  {
    if p == [] {
      assert p + q == q;
    } else {
      assert (p + q)[1..] == p[1..] + q;
      var i := KidIndex(v, p[0]);
      if i < Size(v) {
        LocateParts(Kid(v, i), p[1..], q);
      }
    }
  }

  lemma FirstIsLocated(body: Option<Json>)
    ensures FirstGranted(body) == if body.Some? then Locate(body.value, DATA_0) else None
  {
    MemberIsLocated(body, "data");
    if body.Some? {
      LocateParts(body.value, [Key("data")], [At(0)]);
      assert DATA_0 == [Key("data")] + [At(0)] && [At(0)][1..] == [];
    }
  }

  lemma FieldIsLocated(body: Option<Json>, name: string)
    ensures TextValue(NonEmptyText(MemberOf(FirstGranted(body), name))) == TextAt(body, DATA_0 + [Key(name)])
  {
    FirstIsLocated(body);
    MemberIsLocated(FirstGranted(body), name);
    if body.Some? {
      LocateParts(body.value, DATA_0, [Key(name)]);
    }
  }

  lemma GrantDescribes(body: Option<Json>)
    ensures Describes(GrantFrom(body), body)
  {
    FieldIsLocated(body, "source_application_environment_id");
    FieldIsLocated(body, "source_organization_id");
    MemberIsLocated(body, "deprecation");
  }

  // ---- The request store of one thread ----

  function TextValue(t: Option<string>): Json {
    match t case Some(s) => Str(s) case None => Null
  }

  function BlockValue(b: Option<Json>): Json {
    match b case Some(v) => v case None => Null
  }

  // A WSGI environ: one mutable dict per request, Null standing for None.
  class Environ {
    var vars: map<string, Json>

    function Fetch(key: string): Json
      reads this
    {
      if key in vars then vars[key] else Null
    }

    /** The three caller fields say what the grant says. */
    ghost predicate Names(grant: Grant)
      reads this
    {
      && Fetch("end_point_blank.source_application_environment_id") == TextValue(grant.sourceEnvironmentId)
      && Fetch("end_point_blank.source_organization_id") == TextValue(grant.sourceOrganizationId)
      && Fetch("end_point_blank.deprecation") == BlockValue(grant.deprecation)
    }

    twostate predicate OnlyCallerFieldsChanged()
      reads this
    {
      forall k :: k !in {SOURCE_ENV_ID_KEY, SOURCE_ORGANIZATION_ID_KEY, DEPRECATION_KEY} ==>
        Fetch(k) == old(Fetch(k))
    }
  }

  class RequestStore {
    var environ: Environ?

    constructor ()
      ensures environ == null
    {
      environ := null;
    }

    /** Makes `incoming` the thread's current request, whatever it carried from an earlier one. */
    method Set(incoming: Environ?, freshUuid: string)
      modifies this, if incoming == null then {} else {incoming}
      ensures environ == incoming
      ensures incoming != null ==>
        && incoming.Names(NO_GRANT)
        && incoming.Fetch("end_point_blank.uuid") ==
             (var sent := old(incoming.Fetch("HTTP_X_REQUEST_ID"));
              if sent == Null || sent == Str("") then Str(freshUuid) else sent)
        && forall k :: k !in {UUID_KEY, SOURCE_ENV_ID_KEY, SOURCE_ORGANIZATION_ID_KEY, DEPRECATION_KEY} ==>
             incoming.Fetch(k) == old(incoming.Fetch(k))
    {
      KeysDiffer();
      environ := incoming;
      if incoming != null {
        incoming.vars := incoming.vars - {SOURCE_ENV_ID_KEY, SOURCE_ORGANIZATION_ID_KEY, DEPRECATION_KEY};
        assert |"HTTP_X_REQUEST_ID"| == 17;
        var sent := incoming.Fetch("HTTP_X_REQUEST_ID");
        incoming.vars := incoming.vars[UUID_KEY := if sent == Null || sent == Str("") then Str(freshUuid) else sent];
      }
    }

    method Clear()
      modifies this
      ensures environ == null
    {
      environ := null;
    }

    method Put(key: string, value: Json)
      modifies environ
      ensures environ != null ==> environ.vars == old(environ.vars)[key := value]
    {
      if environ != null {
        environ.vars := environ.vars[key := value];
      }
    }

    method Record(grant: Grant)
      modifies environ
      ensures environ != null ==> environ.Names(grant) && environ.OnlyCallerFieldsChanged()
    {
      KeysDiffer();
      Put(SOURCE_ENV_ID_KEY, TextValue(grant.sourceEnvironmentId));
      Put(SOURCE_ORGANIZATION_ID_KEY, TextValue(grant.sourceOrganizationId));
      Put(DEPRECATION_KEY, BlockValue(grant.deprecation));
    }
  }

  // ---- One authorization ----

  // What decides a call: its cache key, the TTL and clock at the lookup and at the store, and
  // intake's answer -- None when the request raised or was never answered.
  datatype Call = Call(key: string, ttlAtRead: int, readAt: Instant, ttlAtStore: int, storedAt: Instant, answer: Option<Response>)

  datatype Response = Response(status: int, body: Option<Json>)

  datatype Verdict = CacheHit | Unanswered | Answered(status: int)

  /** A live grant answers the call without asking intake. */
  function Served(cache: Cache<CachedValue>, c: Call): Option<CachedValue> {
    Hit(cache, c.key, c.ttlAtRead, c.readAt)
  }

  predicate Granted(cache: Cache<CachedValue>, c: Call) {
    Served(cache, c).None? && c.answer.Some? && c.answer.value.status == 201
  }

  function VerdictOf(cache: Cache<CachedValue>, c: Call): Verdict {
    if Served(cache, c).Some? then CacheHit
    else match c.answer
      case None => Unanswered
      case Some(r) => Answered(r.status)
  }

  /** Who the request is said to come from afterwards. */
  function RecordedGrant(cache: Cache<CachedValue>, c: Call): Grant {
    if Served(cache, c).Some? then CachedGrant(Served(cache, c).value)
    else if Granted(cache, c) then GrantFrom(c.answer.value.body)
    else NO_GRANT
  }

  function AfterCall(cache: Cache<CachedValue>, c: Call): Cache<CachedValue> {
    var read := After(cache, Retrieve(c.key, c.ttlAtRead, c.readAt));
    if Granted(cache, c) then
      After(read, Store(c.key, Some(Current(GrantFrom(c.answer.value.body))), c.ttlAtStore, c.storedAt))
    else read
  }

  method Authorize(store: RequestStore, cache: AuthenticationCache<CachedValue>, c: Call) returns (verdict: Verdict)
    modifies cache, store.environ
    ensures cache.cache == AfterCall(old(cache.cache), c)
    ensures verdict == VerdictOf(old(cache.cache), c)
    ensures store.environ != null ==>
      store.environ.Names(RecordedGrant(old(cache.cache), c)) && store.environ.OnlyCallerFieldsChanged()
    ensures verdict == Unanswered || (verdict.Answered? && verdict.status != 201) ==>
      store.environ != null ==> store.environ.Names(NO_GRANT)
    ensures verdict == Answered(201) && store.environ != null ==>
      && store.environ.Fetch("end_point_blank.source_application_environment_id")
         == TextAt(c.answer.value.body, DATA_0 + [Key("source_application_environment_id")])
      && store.environ.Fetch("end_point_blank.source_organization_id")
         == TextAt(c.answer.value.body, DATA_0 + [Key("source_organization_id")])
      && store.environ.Fetch("end_point_blank.deprecation") == DictAt(c.answer.value.body, [Key("deprecation")])
  {
    store.Record(NO_GRANT);
    var cached := cache.RetrieveCredentials(c.key, c.ttlAtRead, c.readAt);
    if cached.Some? {
      store.Record(CachedGrant(cached.value));
      return CacheHit;
    }
    if c.answer.None? {
      return Unanswered;
    }
    var response := c.answer.value;
    if response.status == 201 {
      var grant := GrantFrom(response.body);
      GrantDescribes(response.body);
      store.Record(grant);
      cache.StoreCredentials(c.key, Some(Current(grant)), c.ttlAtStore, c.storedAt);
    }
    return Answered(response.status);
  }

  /** A call that hits what an earlier call was granted names the same caller. */
  lemma HitNamesTheSame(cache: Cache<CachedValue>, first: Call, second: Call)
    requires Sound(cache) && Granted(cache, first) && second.key == first.key
    requires Served(AfterCall(cache, first), second).Some?
    ensures RecordedGrant(AfterCall(cache, first), second) == RecordedGrant(cache, first)
    ensures Describes(RecordedGrant(AfterCall(cache, first), second), first.answer.value.body)
  {
    var read: Event<CachedValue> := Retrieve(first.key, first.ttlAtRead, first.readAt);
    var store := Store(first.key, Some(Current(GrantFrom(first.answer.value.body))), first.ttlAtStore, first.storedAt);
    StepGet(cache, read, first.key);
    StepGet(After(cache, read), store, first.key);
    GrantDescribes(first.answer.value.body);
  }

  /** An entry of the old shape names its environment and block and no organization; one of no known
      shape names nobody. */
  lemma OldEntries(environmentId: Option<string>, deprecation: Option<Json>)
    ensures CachedGrant(Legacy(environmentId, deprecation)) == Grant(environmentId, None, deprecation)
    ensures CachedGrant(Other) == NO_GRANT
  {
  }

  // ---- All authorizations of a process ----
  //
  // Many threads authorize at once. A call looks the cache up in one critical section and stores
  // in another, and any other thread's may fall between. Between its calls a thread moves on to its
  // next request, or to none, and anything else that has the singleton may ask it whether a key
  // exists, remove one or clear it.

  type Tid = nat

  datatype Step =
    | Look(t: Tid, key: string, ttl: int, now: Instant)
    | Reply(t: Tid, answer: Option<Response>, ttl: int, now: Instant)
    | Begin(t: Tid)
    | End(t: Tid)
    | Maintain(event: Event<CachedValue>)

  // The cache, the key of every call that waits for intake, and whom each thread's request names.
  datatype World = World(cache: Cache<CachedValue>, pending: map<Tid, string>, named: map<Tid, Grant>)

  predicate Grants(pending: map<Tid, string>, s: Step) {
    s.Reply? && s.t in pending && s.answer.Some? && s.answer.value.status == 201
  }

  /** What others than `authorize` do to the cache. */
  predicate Maintains(s: Step) {
    s.Maintain? && (s.event.Exists? || s.event.Remove? || s.event.Clear?)
  }

  function Act(w: World, s: Step): World {
    match s
    case Begin(t) => if t in w.pending then w else w.(named := w.named[t := NO_GRANT])
    case End(t) => if t in w.pending then w else w.(named := w.named - {t})
    case Maintain(event) => if Maintains(s) then w.(cache := After(w.cache, event)) else w
    case Look(t, key, ttl, now) =>
      if t in w.pending then w
      else
        var read := After(w.cache, Retrieve(key, ttl, now));
        (match Hit(w.cache, key, ttl, now)
         case Some(cached) => World(read, w.pending, w.named[t := CachedGrant(cached)])
         case None => World(read, w.pending[t := key], w.named[t := NO_GRANT]))
    case Reply(t, answer, ttl, now) =>
      if t !in w.pending then w
      else if !Grants(w.pending, s) then World(w.cache, w.pending - {t}, w.named)
      else
        var grant := GrantFrom(answer.value.body);
        World(After(w.cache, Store(w.pending[t], Some(Current(grant)), ttl, now)), w.pending - {t}, w.named[t := grant])
  }

  function Reach(steps: seq<Step>): World {
    if steps == [] then World([], map[], map[]) else Act(Reach(steps[..|steps| - 1]), steps[|steps| - 1])
  }

  /** Alone, a look and a reply come to what one call does. */
  lemma AloneIsAuthorize(w: World, t: Tid, c: Call)
    requires t !in w.pending
    ensures var looked := Act(w, Look(t, c.key, c.ttlAtRead, c.readAt));
      var done := Act(looked, Reply(t, c.answer, c.ttlAtStore, c.storedAt));
      && done.cache == AfterCall(w.cache, c)
      && t in done.named && done.named[t] == RecordedGrant(w.cache, c)
      && t !in done.pending
  {
  }

  // A step that does nothing to the cache.
  const NO_EVENT: Event<CachedValue> := Store("", None, 0, 0)

  /** What a step is to the cache. */
  function EventOf(w: World, s: Step): Event<CachedValue> {
    if s.Look? && s.t !in w.pending then Retrieve(s.key, s.ttl, s.now)
    else if Grants(w.pending, s) then Store(w.pending[s.t], Some(Current(GrantFrom(s.answer.value.body))), s.ttl, s.now)
    else if Maintains(s) then s.event
    else NO_EVENT
  }

  function EventsOf(steps: seq<Step>): (es: seq<Event<CachedValue>>)
    ensures |es| == |steps|
  {
    if steps == [] then []
    else
      var before := steps[..|steps| - 1];
      EventsOf(before) + [EventOf(Reach(before), steps[|steps| - 1])]
  }

  lemma StepIsEvent(w: World, s: Step)
    ensures Act(w, s).cache == After(w.cache, EventOf(w, s))
  {
  }

  lemma RunSteps(es: seq<Event<CachedValue>>, e: Event<CachedValue>)
    ensures Run(es + [e]) == After(Run(es), e)
  {
    assert (es + [e])[..|es|] == es;
  }

  lemma {:induction false} CacheIsRun(steps: seq<Step>, w: World)
    requires w == Reach(steps)
    ensures w.cache == Run(EventsOf(steps))
    decreases |steps|
  {
    if steps != [] {
      var before, s := steps[..|steps| - 1], steps[|steps| - 1];
      CacheIsRun(before, Reach(before));
      StepIsEvent(Reach(before), s);
      RunSteps(EventsOf(before), EventOf(Reach(before), s));
    }
  }

  lemma {:induction false} EventAt(steps: seq<Step>, i: nat)
    requires i < |steps|
    ensures EventsOf(steps)[i] == EventOf(Reach(steps[..i]), steps[i])
    decreases |steps|
  {
    var before := steps[..|steps| - 1];
    if i < |before| {
      EventAt(before, i);
      assert before[..i] == steps[..i];
    }
  }

  /** Step number i stores, under this key, the grant of a 201. */
  predicate StoresGrant(steps: seq<Step>, i: nat, key: string)
    requires i < |steps|
  {
    var pending := Reach(steps[..i]).pending;
    Grants(pending, steps[i]) && pending[steps[i].t] == key && !Disabled(steps[i].ttl)
  }

  lemma StoreEventIsGrant(steps: seq<Step>, i: nat, key: string)
    requires i < |steps|
    ensures var e := EventsOf(steps)[i];
      && (StoresEnabled(e) && e.key == key <==> StoresGrant(steps, i, key))
      && (StoresGrant(steps, i, key) ==>
            && e.ttl == steps[i].ttl && e.now == steps[i].now
            && e.credentials == Some(Current(GrantFrom(steps[i].answer.value.body))))
  {
    EventAt(steps, i);
    GrantIsEvent(Reach(steps[..i]), steps[i]);
  }

  lemma GrantIsEvent(w: World, s: Step)
    ensures StoresEnabled(EventOf(w, s)) <==> Grants(w.pending, s) && !Disabled(s.ttl)
    ensures Grants(w.pending, s) ==>
      EventOf(w, s) == Store(w.pending[s.t], Some(Current(GrantFrom(s.answer.value.body))), s.ttl, s.now)
  {
  }

  predicate Forgets(s: Step, key: string) {
    Maintains(s) && (s.event.Clear? || (s.event.Remove? && s.event.key == key))
  }

  lemma SparedNotForgotten(w: World, s: Step, key: string, entry: Entry<CachedValue>)
    requires Spares(EventOf(w, s), key, entry)
    ensures !Forgets(s, key)
  {
  }

  lemma HitNames(w: World, t: Tid, key: string, ttl: int, now: Instant, grant: Grant)
    requires t !in w.pending && Hit(w.cache, key, ttl, now) == Some(Current(grant))
    ensures t in Act(w, Look(t, key, ttl, now)).named && Act(w, Look(t, key, ttl, now)).named[t] == grant
  {
  }

  /** In every interleaving a look-up that hits names the caller of the latest stored 201 under its
      key, within the lifetime that store gave it and within the TTL of the look-up; nothing since
      has removed the key or cleared the cache. */
  lemma LookNamesLatestGrant(steps: seq<Step>, t: Tid, key: string, ttl: int, now: Instant) returns (i: nat)
    requires t !in Reach(steps).pending && Hit(Reach(steps).cache, key, ttl, now).Some?
    ensures i < |steps| && StoresGrant(steps, i, key)
    ensures forall j :: i < j < |steps| ==> !StoresGrant(steps, j, key) && !Forgets(steps[j], key)
    ensures var w := Act(Reach(steps), Look(t, key, ttl, now));
      t in w.named && Describes(w.named[t], steps[i].answer.value.body)
    ensures ttl > 0 && now < steps[i].now + steps[i].ttl * 1_000_000 && now - steps[i].now < ttl * 1_000_000
  {
    CacheIsRun(steps, Reach(steps));
    i := HitIsLatestStore(EventsOf(steps), key, ttl, now);
    StoreEventIsGrant(steps, i, key);
    GrantDescribes(steps[i].answer.value.body);
    HitNames(Reach(steps), t, key, ttl, now, GrantFrom(steps[i].answer.value.body));
    var e := EventsOf(steps)[i];
    forall j | i < j < |steps| ensures !StoresGrant(steps, j, key) && !Forgets(steps[j], key) {
      StoreEventIsGrant(steps, j, key);
      EventAt(steps, j);
      SparedNotForgotten(Reach(steps[..j]), steps[j], key, NewEntry(e.credentials.value, e.now, e.ttl));
    }
  }

  predicate NamesNobody(w: World, t: Tid) {
    t in w.named && w.named[t] == NO_GRANT
  }

  lemma StillWaiting(w: World, s: Step, t: Tid)
    requires t in w.pending ==> NamesNobody(w, t)
    ensures t in Act(w, s).pending ==> NamesNobody(Act(w, s), t)
  {
  }

  /** In every interleaving a thread whose call waits for intake, or was last refused or left
      unanswered, names no caller. */
  lemma {:induction false} WaitingNamesNobody(steps: seq<Step>, t: Tid)
    requires t in Reach(steps).pending
    ensures NamesNobody(Reach(steps), t)
    decreases |steps|
  {
    if steps != [] {
      var before := steps[..|steps| - 1];
      if t in Reach(before).pending {
        WaitingNamesNobody(before, t);
      }
      StillWaiting(Reach(before), steps[|steps| - 1], t);
    }
  }

  /** A thread's next request names nobody until it is authorized, and no step of one thread changes whom
      another's request names. */
  lemma RequestsStayApart(w: World, s: Step, t: Tid)
    ensures s == Begin(t) && t !in w.pending ==> NamesNobody(Act(w, s), t)
    ensures s == End(t) && t !in w.pending ==> t !in Act(w, s).named
    ensures s.Maintain? || s.t != t ==>
      && (t in Act(w, s).named <==> t in w.named) && (t in w.named ==> Act(w, s).named[t] == w.named[t])
      && (t in Act(w, s).pending <==> t in w.pending) && (t in w.pending ==> Act(w, s).pending[t] == w.pending[t])
  {
  }

  lemma RefusedNamesNobody(steps: seq<Step>, s: Step)
    requires s.Reply? && s.t in Reach(steps).pending && !Grants(Reach(steps).pending, s)
    ensures var w := Act(Reach(steps), s);
      s.t !in w.pending && NamesNobody(w, s.t)
  {
    WaitingNamesNobody(steps, s.t);
  }

  // ---- Which requests share a cache entry ----

  // The five texts a cache key is made of; a version that is None is spelled "None".
  function KeyFields(clientAuth: string, path: string, method': string, app: string, version: Option<string>): seq<string> {
    [clientAuth, path, method', app, if version.Some? then version.value else "None"]
  }

  function Join(fields: seq<string>): string
    requires fields != []
  {
    if |fields| == 1 then fields[0] else fields[0] + ":" + Join(fields[1..])
  }

  function CacheKey(fields: seq<string>): string
    requires fields != []
  {
    "epb_auth:" + Join(fields)
  }

  lemma KeySpelling(clientAuth: string, path: string, method': string, app: string, version: Option<string>)
    ensures CacheKey(KeyFields(clientAuth, path, method', app, version))
         == "epb_auth:" + (clientAuth + ":" + (path + ":" + (method' + ":" + (app + ":" +
              (if version.Some? then version.value else "None")))))
  {
    var v := if version.Some? then version.value else "None";
    assert KeyFields(clientAuth, path, method', app, version)
        == [clientAuth] + ([path] + ([method'] + ([app] + [v])));
    JoinCons(app, [v]);
    JoinCons(method', [app] + [v]);
    JoinCons(path, [method'] + ([app] + [v]));
    JoinCons(clientAuth, [path] + ([method'] + ([app] + [v])));
  }

  /** Colons occur, if anywhere, in the fields at these places. */
  ghost predicate ColonsOnlyIn(fields: seq<string>, places: set<nat>) {
    forall i :: 0 <= i < |fields| && i !in places ==> ':' !in fields[i]
  }

  ghost predicate Injective(n: nat, places: set<nat>)
    requires n > 0
  {
    forall a: seq<string>, b: seq<string> ::
      |a| == |b| == n && ColonsOnlyIn(a, places) && ColonsOnlyIn(b, places) && CacheKey(a) == CacheKey(b) ==> a == b
  }

  lemma FirstColon(a: string, x: string)
    requires ':' !in a
    ensures var s := a + ":" + x; s[|a|] == ':' && forall i :: 0 <= i < |a| ==> s[i] != ':'
  {
  }

  lemma LastColon(x: string, a: string)
    requires ':' !in a
    ensures var s := x + ":" + a; s[|x|] == ':' && forall i :: |x| < i < |s| ==> s[i] != ':'
  {
    var s := x + ":" + a;
    assert forall i :: |x| < i < |s| ==> s[i] == a[i - |x| - 1];
  }

  /** Two texts joined by a colon come apart at the first one if neither head holds any. */
  lemma HeadsAgree(a: string, b: string, x: string, y: string)
    requires ':' !in a && ':' !in b && a + ":" + x == b + ":" + y
    ensures a == b && x == y
  {
    var s := a + ":" + x;
    FirstColon(a, x);
    FirstColon(b, y);
    assert |a| == |b|;
    assert s[..|a|] == a && (b + ":" + y)[..|b|] == b;
    assert s[|a| + 1..] == x && (b + ":" + y)[|b| + 1..] == y;
  }

  /** And at the last one if neither tail holds any. */
  lemma TailsAgree(x: string, y: string, a: string, b: string)
    requires ':' !in a && ':' !in b && x + ":" + a == y + ":" + b
    ensures a == b && x == y
  {
    var s, t := x + ":" + a, y + ":" + b;
    LastColon(x, a);
    LastColon(y, b);
    assert |x| == |y|;
    assert s[..|x|] == x && t[..|y|] == y;
    assert s[|x| + 1..] == a && t[|y| + 1..] == b;
  }

  lemma JoinCons(head: string, more: seq<string>)
    requires more != []
    ensures Join([head] + more) == head + ":" + Join(more)
  {
    assert ([head] + more)[1..] == more;
  }

  lemma ColonsRegroup(a: string, b: string, c: string)
    ensures a + ":" + (b + ":" + c) == (a + ":" + b) + ":" + c
  {
  }

  lemma {:induction false} JoinAppend(front: seq<string>, last: string)
    requires front != []
    ensures Join(front + [last]) == Join(front) + ":" + last
    decreases |front|
  {
    var head, more := front[0], front[1..];
    assert front == [head] + more;
    if more == [] {
      JoinCons(head, [last]);
    } else {
      assert front + [last] == [head] + (more + [last]);
      JoinAppend(more, last);
      JoinCons(head, more + [last]);
      JoinCons(head, more);
      ColonsRegroup(head, Join(more), last);
    }
  }

  lemma JoinLast(fields: seq<string>)
    requires |fields| > 1
    ensures Join(fields) == Join(fields[..|fields| - 1]) + ":" + fields[|fields| - 1]
  {
    var n := |fields| - 1;
    assert fields == fields[..n] + [fields[n]];
    JoinAppend(fields[..n], fields[n]);
  }

  /** If all fields but one are free of colons, the key determines them all. */
  lemma {:induction false} KeyDetermines(a: seq<string>, b: seq<string>, k: nat)
    requires |a| == |b| > 0 && Join(a) == Join(b)
    requires forall i :: 0 <= i < |a| && i != k ==> ':' !in a[i] && ':' !in b[i]
    ensures a == b
    decreases |a|
  {
    if |a| > 1 {
      var n := |a| - 1;
      if k == 0 {
        JoinLast(a);
        JoinLast(b);
        TailsAgree(Join(a[..n]), Join(b[..n]), a[n], b[n]);
        KeyDetermines(a[..n], b[..n], 0);
        assert a == a[..n] + [a[n]] && b == b[..n] + [b[n]];
      } else {
        HeadsAgree(a[0], b[0], Join(a[1..]), Join(b[1..]));
        KeyDetermines(a[1..], b[1..], k - 1);
        assert a == [a[0]] + a[1..] && b == [b[0]] + b[1..];
      }
    }
  }

  predicate OnlyColons(s: string) {
    forall i :: 0 <= i < |s| ==> s[i] == ':'
  }

  /** Empty fields but for one that is a colon. */
  function OneColon(n: nat, k: nat): seq<string> {
    seq(n, i => if i == k then ":" else "")
  }

  lemma ColonInFront(head: string, s: string)
    requires OnlyColons(head) && OnlyColons(s)
    ensures OnlyColons(head + ":" + s)
  {
  }

  lemma {:induction false} OneColonJoined(n: nat, k: nat)
    requires n > 0
    ensures OnlyColons(Join(OneColon(n, k))) && |Join(OneColon(n, k))| == n - 1 + if k < n then 1 else 0
    decreases n
  {
    if n > 1 {
      var rest := if k > 0 then k - 1 else n - 1;
      OneColonJoined(n - 1, rest);
      var head := if k == 0 then ":" else "";
      assert OneColon(n, k) == [head] + OneColon(n - 1, rest);
      JoinCons(head, OneColon(n - 1, rest));
      ColonInFront(head, Join(OneColon(n - 1, rest)));
    }
  }

  /** Keys tell requests apart exactly when at most one of the fields may hold a colon. */
  lemma KeyInjective(n: nat, places: set<nat>)
    requires n > 0
    ensures Injective(n, places) <==> forall i, j :: i in places && j in places && i < n && j < n ==> i == j
  {
    if i, j :| i in places && j in places && i < n && j < n && i != j {
      var a, b := OneColon(n, i), OneColon(n, j);
      OneColonJoined(n, i);
      OneColonJoined(n, j);
      assert Join(a) == Join(b);
      assert ColonsOnlyIn(a, places) && ColonsOnlyIn(b, places);
      assert a[i] == ":" && b[i] == "";
    } else {
      forall a: seq<string>, b: seq<string>
        | |a| == |b| == n && ColonsOnlyIn(a, places) && ColonsOnlyIn(b, places) && CacheKey(a) == CacheKey(b)
        ensures a == b
      {
        assert CacheKey(a)[9..] == Join(a) && CacheKey(b)[9..] == Join(b);
        if k :| k in places && k < n {
          KeyDetermines(a, b, k);
        } else {
          KeyDetermines(a, b, n);
        }
      }
    }
  }

  /** A colon in the application's name or in the version: two requests, one entry. So also for
      no version and the version "None". */
  lemma KeysCollide(clientAuth: string, path: string, method': string, app: string, x: string, version: string)
    ensures var a := KeyFields(clientAuth, path, method', app + ":" + x, Some(version));
      var b := KeyFields(clientAuth, path, method', app, Some(x + ":" + version));
      a != b && CacheKey(a) == CacheKey(b)
    ensures KeyFields(clientAuth, path, method', app, None) == KeyFields(clientAuth, path, method', app, Some("None"))
  {
    var a := KeyFields(clientAuth, path, method', app + ":" + x, Some(version));
    var b := KeyFields(clientAuth, path, method', app, Some(x + ":" + version));
    var tail := [app + ":" + x, version];
    var tail' := [app, x + ":" + version];
    assert a[3] != b[3] by {
      assert |a[3]| != |b[3]|;
    }
    assert (app + ":" + x) + ":" + version == app + ":" + (x + ":" + version);
    assert Join(tail) == Join(tail') by {
      assert tail[1..] == [version] && tail'[1..] == [x + ":" + version];
    }
    SamePrefixJoins([clientAuth, path, method'], tail, tail');
    assert a == [clientAuth, path, method'] + tail && b == [clientAuth, path, method'] + tail';
  }

  lemma {:induction false} SamePrefixJoins(front: seq<string>, a: seq<string>, b: seq<string>)
    requires a != [] && b != [] && Join(a) == Join(b)
    ensures Join(front + a) == Join(front + b)
    decreases |front|
  {
    if front == [] {
      assert front + a == a && front + b == b;
    } else {
      assert (front + a)[1..] == front[1..] + a && (front + b)[1..] == front[1..] + b;
      SamePrefixJoins(front[1..], a, b);
    }
  }
}
