/** The retry loop of the management client against a lossy network and a server that honours
    idempotency keys. */
module ManagementRetry {
  import opened Options

  datatype Verb = GET | POST | PATCH | DELETE

  // Seconds, as the client counts them.
  type Seconds = real

  datatype Config = Config(maxRetries: nat, maxRetryWait: Seconds)

  const BACKOFF_BASE: Seconds := 0.5
  const BACKOFF_CAP: Seconds := 8.0

  // What one attempt meets. `runs` says that the server would run the request if its key does
  // not forbid it; a lost request or a lost answer both look like NoAnswer to the client. Any other
  // request error, such as a header that cannot be sent or a body that cannot be decoded, may
  // come before or after the server ran the request.
  datatype Turn =
    | RequestError(runs: bool)
    | NoAnswer(runs: bool)
    | Answer(status: int, inProgress: bool, retryAfter: Option<Seconds>, runs: bool)

  // The keys already used, and how many requests took effect.
  datatype Server = Server(usedKeys: set<string>, effects: nat)

  /** The documented contract: nothing runs on a 429. A Retry-After is never negative. */
  predicate Honest(t: Turn) {
    && (t.Answer? && t.status == 429 ==> !t.runs)
    && (t.Answer? && t.retryAfter.Some? ==> t.retryAfter.value >= 0.0)
  }

  /** One request handled: a key runs at most once, however often it arrives. */
  function Handle(server: Server, key: Option<string>, t: Turn): Server {
    if !t.runs || (key.Some? && key.value in server.usedKeys) then server
    else Server(server.usedKeys + (if key.Some? then {key.value} else {}), server.effects + 1)
  }

  // ---- The client's decisions ----

  function Doubled(attempt: nat): Seconds {
    if attempt == 0 then BACKOFF_BASE else 2.0 * Doubled(attempt - 1)
  }

  function Least(a: Seconds, b: Seconds): Seconds {
    if b < a then b else a
  }

  function Backoff(c: Config, attempt: nat): Option<Seconds> {
    if attempt >= c.maxRetries then None else Some(Least(BACKOFF_CAP, Doubled(attempt)))
  }

  predicate RetriedAfterFailure(verb: Verb) {
    verb == GET || verb == DELETE || verb == POST
  }

  function RetryDelay(c: Config, verb: Verb, t: Turn, attempt: nat): Option<Seconds>
    requires t.Answer?
  {
    if attempt >= c.maxRetries then None
    else if t.status == 429 then
      var delay := if t.retryAfter.Some? then t.retryAfter.value else Least(BACKOFF_CAP, Doubled(attempt));
      if delay <= c.maxRetryWait then Some(delay) else None
    else if !RetriedAfterFailure(verb) then None
    else if t.inProgress then Backoff(c, attempt)
    else if t.status >= 500 then Backoff(c, attempt)
    else None
  }

  predicate Succeeds(t: Turn) {
    t.Answer? && 200 <= t.status < 300
  }

  /** How long the client sleeps after this attempt; None when the call ends with it. */
  function Pause(c: Config, verb: Verb, t: Turn, attempt: nat): Option<Seconds> {
    match t
    case RequestError(_) => None
    case NoAnswer(_) => if RetriedAfterFailure(verb) then Backoff(c, attempt) else None
    case Answer(_, _, _, _) => if Succeeds(t) then None else RetryDelay(c, verb, t, attempt)
  }

  function LongestWait(c: Config): Seconds {
    if c.maxRetryWait > BACKOFF_CAP then c.maxRetryWait else BACKOFF_CAP
  }

  lemma {:induction false} DoubledPositive(attempt: nat)
    ensures Doubled(attempt) >= BACKOFF_BASE
    decreases attempt
  {
    if attempt > 0 {
      DoubledPositive(attempt - 1);
    }
  }

  /** A pause means a retry is left and its length is bounded; after a failure that may have
      run, only a call that carries a key or changes nothing twice is sent again. */
  lemma PauseMeaning(c: Config, verb: Verb, t: Turn, attempt: nat)
    requires Honest(t) && Pause(c, verb, t, attempt).Some?
    ensures attempt < c.maxRetries
    ensures 0.0 <= Pause(c, verb, t, attempt).value <= LongestWait(c)
    ensures verb == PATCH ==> t.Answer? && t.status == 429 && !t.runs
  {
    DoubledPositive(attempt);
  }

  /** Half a second, doubled each time, and never more than eight. */
  function Wait(attempt: nat): Seconds {
    match attempt
    case 0 => 0.5
    case 1 => 1.0
    case 2 => 2.0
    case 3 => 4.0
    case _ => 8.0
  }

  lemma {:induction false} WaitIsBackoff(attempt: nat)
    ensures Least(BACKOFF_CAP, Doubled(attempt)) == Wait(attempt)
    ensures attempt >= 4 ==> Doubled(attempt) >= 8.0
    decreases attempt
  {
    if attempt > 0 {
      WaitIsBackoff(attempt - 1);
    }
  }

  /** The server is in trouble, or is still at work on the request with this key. */
  predicate Failing(t: Turn) {
    t.Answer? && !(200 <= t.status <= 299) && t.status != 429 && (t.status >= 500 || t.inProgress)
  }

  /**
   * When a request is sent again, and after how long. A retry must be left; then a lost or failing
   * answer to anything but a PATCH is waited out for half a second, doubled each time up to eight,
   * and a 429, whatever the verb, for its Retry-After or else as long, if that is not too long.
   */
  lemma PauseExactly(c: Config, verb: Verb, t: Turn, attempt: nat, delay: Seconds)
    ensures Pause(c, verb, t, attempt) == Some(delay) <==>
      && attempt < c.maxRetries
      && ((verb != PATCH && (t.NoAnswer? || Failing(t)) && delay == Wait(attempt))
          || (t.Answer? && t.status == 429 && delay <= c.maxRetryWait
              && delay == if t.retryAfter.Some? then t.retryAfter.value else Wait(attempt)))
  {
    WaitIsBackoff(attempt);
  }

  // ---- The loop ----

  // One request on the wire.
  datatype Sent = Sent(verb: Verb, key: Option<string>)

  /** `turns(i)` is what attempt i meets; `key` is the one generated or given before the first
      attempt. The call ends with the turn it returns. */
  method Request(c: Config, verb: Verb, key: string, turns: nat -> Turn, server: Server)
    returns (end: Turn, log: seq<Sent>, waited: Seconds, after: Server)
    requires forall i :: Honest(turns(i))
    // The loop stops at the first turn without a pause, and sleeps all the pauses before it.
    ensures log != [] && end == turns(|log| - 1)
    ensures Pause(c, verb, end, |log| - 1).None?
    ensures forall i :: 0 <= i < |log| - 1 ==> Pause(c, verb, turns(i), i).Some?
    ensures waited == TotalPause(c, verb, turns, |log| - 1)
    ensures |log| <= c.maxRetries + 1
    ensures 0.0 <= waited <= (|log| - 1) as real * LongestWait(c)
    // Every request is the same one, under one key if it is a POST.
    ensures forall i :: 0 <= i < |log| ==> log[i] == Sent(verb, if verb == POST then Some(key) else None)
    ensures after == HandleAll(server, if verb == POST then Some(key) else None, turns, |log|)
    // It takes effect at most once; a POST not even that if its key was used before.
    ensures verb == POST || verb == PATCH ==> server.effects <= after.effects <= server.effects + 1
    ensures verb == POST && key in server.usedKeys ==> after == server
  {
    var header := if verb == POST then Some(key) else None;
    var attempt := 0;
    log, waited, after := [], 0.0, server;
    while true
      invariant attempt == |log| <= c.maxRetries
      invariant waited == TotalPause(c, verb, turns, attempt)
      invariant forall i :: 0 <= i < attempt ==> Pause(c, verb, turns(i), i).Some?
      invariant forall i :: 0 <= i < |log| ==> log[i] == Sent(verb, header)
      invariant after == HandleAll(server, header, turns, attempt)
      decreases c.maxRetries - attempt
    {
      var turn := turns(attempt);
      log := log + [Sent(verb, header)];
      after := Handle(after, header, turn);
      var delay: Option<Seconds>;
      match turn {
        case RequestError(_) => delay := None;
        case NoAnswer(_) =>
          delay := if RetriedAfterFailure(verb) then Backoff(c, attempt) else None;
        case Answer(_, _, _, _) =>
          if Succeeds(turn) {
            CallBounds(c, verb, key, turns, server, attempt);
            return turn, log, waited, after;
          }
          delay := RetryDelay(c, verb, turn, attempt);
      }
      assert delay == Pause(c, verb, turn, attempt);
      if delay.None? {
        CallBounds(c, verb, key, turns, server, attempt);
        return turn, log, waited, after;
      }
      PauseMeaning(c, verb, turn, attempt);
      waited := waited + delay.value;
      attempt := attempt + 1;
    }
  }

  function TotalPause(c: Config, verb: Verb, turns: nat -> Turn, n: nat): Seconds {
    if n == 0 then 0.0
    else
      var last := Pause(c, verb, turns(n - 1), n - 1);
      TotalPause(c, verb, turns, n - 1) + if last.Some? then last.value else 0.0
  }

  function HandleAll(server: Server, key: Option<string>, turns: nat -> Turn, n: nat): Server {
    if n == 0 then server else Handle(HandleAll(server, key, turns, n - 1), key, turns(n - 1))
  }

  /** Under one key the attempts take effect exactly once, if one of them runs and the key is new. */
  lemma {:induction false} OneKeyOnce(server: Server, key: string, turns: nat -> Turn, n: nat)
    ensures HandleAll(server, Some(key), turns, n) ==
      if key !in server.usedKeys && exists i :: 0 <= i < n && turns(i).runs
      then Server(server.usedKeys + {key}, server.effects + 1)
      else server
    decreases n
  {
    if n > 0 {
      OneKeyOnce(server, key, turns, n - 1);
    }
  }

  function Times(n: nat, wait: Seconds): Seconds {
    if n == 0 then 0.0 else Times(n - 1, wait) + wait
  }

  lemma {:induction false} TimesIsProduct(n: nat, wait: Seconds)
    ensures Times(n, wait) == n as real * wait
    decreases n
  {
    if n > 0 {
      TimesIsProduct(n - 1, wait);
      assert n as real == (n - 1) as real + 1.0;
    }
  }

  lemma {:induction false} WaitBound(c: Config, verb: Verb, turns: nat -> Turn, n: nat)
    requires forall i :: Honest(turns(i))
    requires forall i :: 0 <= i < n ==> Pause(c, verb, turns(i), i).Some?
    ensures 0.0 <= TotalPause(c, verb, turns, n) <= Times(n, LongestWait(c))
    decreases n
  {
    if n > 0 {
      WaitBound(c, verb, turns, n - 1);
      PauseMeaning(c, verb, turns(n - 1), n - 1);
    }
  }

  /** A PATCH is only sent again after attempts that ran nothing. */
  lemma {:induction false} RetriedPatchRanNothing(c: Config, turns: nat -> Turn, server: Server, n: nat)
    requires forall i :: Honest(turns(i))
    requires forall i :: 0 <= i < n ==> Pause(c, PATCH, turns(i), i).Some?
    ensures HandleAll(server, None, turns, n) == server
    decreases n
  {
    if n > 0 {
      RetriedPatchRanNothing(c, turns, server, n - 1);
      PauseMeaning(c, PATCH, turns(n - 1), n - 1);
    }
  }

  /** What a call of n retried attempts and one last attempt has waited and caused. */
  lemma CallBounds(c: Config, verb: Verb, key: string, turns: nat -> Turn, server: Server, n: nat)
    requires forall i :: Honest(turns(i))
    requires forall i :: 0 <= i < n ==> Pause(c, verb, turns(i), i).Some?
    ensures 0.0 <= TotalPause(c, verb, turns, n) <= n as real * LongestWait(c)
    ensures var after := HandleAll(server, if verb == POST then Some(key) else None, turns, n + 1);
      && (verb == POST || verb == PATCH ==> server.effects <= after.effects <= server.effects + 1)
      && (verb == POST && key in server.usedKeys ==> after == server)
  {
    WaitBound(c, verb, turns, n);
    TimesIsProduct(n, LongestWait(c));
    if verb == POST {
      OneKeyOnce(server, key, turns, n + 1);
    } else if verb == PATCH {
      RetriedPatchRanNothing(c, turns, server, n);
    }
  }

  // ---- Many calls ----

  // A finished call: the requests it sent, as the server met them.
  datatype Call = Call(key: string, turns: nat -> Turn, attempts: nat)

  function AfterCalls(server: Server, calls: seq<Call>): Server
    decreases |calls|
  {
    if calls == [] then server
    else
      var c := calls[0];
      AfterCalls(HandleAll(server, Some(c.key), c.turns, c.attempts), calls[1..])
  }

  ghost function KeysOf(calls: seq<Call>): set<string> {
    set c | c in calls :: c.key
  }

  /** However often POSTs are repeated, within a call or by calling again with the same key,
      each key takes effect at most once. */
  lemma {:induction false} EachKeyOnce(server: Server, calls: seq<Call>)
    ensures var after := AfterCalls(server, calls);
      && server.usedKeys <= after.usedKeys <= server.usedKeys + KeysOf(calls)
      && after.effects - server.effects == |after.usedKeys| - |server.usedKeys|
    decreases |calls|
  {
    if calls != [] {
      var c := calls[0];
      var next := HandleAll(server, Some(c.key), c.turns, c.attempts);
      OneKeyOnce(server, c.key, c.turns, c.attempts);
      EachKeyOnce(next, calls[1..]);
      assert calls == [c] + calls[1..];
      assert c.key in KeysOf(calls);
    }
  }

  /** Why a PATCH is not sent again after a failure: without a key a lost answer followed by a
      retry could run twice. The same turns under the retry policy of a POST but with no key
      have two effects. */
  lemma KeylessRetryRunsTwice(c: Config, server: Server)
    requires c.maxRetries >= 1
    ensures var turns: nat -> Turn := _ => NoAnswer(true);
      && Pause(c, POST, turns(0), 0).Some? && Pause(c, PATCH, turns(0), 0).None?
      && HandleAll(server, None, turns, 2).effects == server.effects + 2
      && forall key :: HandleAll(server, Some(key), turns, 2).effects <= server.effects + 1
  {
    var turns: nat -> Turn := _ => NoAnswer(true);
    var once := HandleAll(server, None, turns, 1);
    assert once == Handle(HandleAll(server, None, turns, 0), None, turns(0));
    forall key ensures HandleAll(server, Some(key), turns, 2).effects <= server.effects + 1 {
      OneKeyOnce(server, key, turns, 2);
    }
  }
}
