/** Producers and workers that nothing interleaves with: their atomic steps come to what the writer's
    own methods do. */
module DelayedWriterSolo {
  import opened DelayedWriter

  ghost function Runs<P>(s: State<P>, actions: seq<Action<P>>): State<P>
    requires Inv(s)
    decreases |actions|
  {
    if actions == [] then s
    else
      ActKeepsInv(s, actions[0]);
      Runs(Act(s, actions[0]), actions[1..])
  }

  lemma RunsFirst<P>(s: State<P>, a: Action<P>, rest: seq<Action<P>>)
    requires Inv(s)
    ensures Inv(Act(s, a)) && Runs(s, [a] + rest) == Runs(Act(s, a), rest)
  {
    ActKeepsInv(s, a);
    assert ([a] + rest)[1..] == rest;
  }

  function Writes<P>(payloads: seq<P>): seq<Action<P>> {
    if payloads == [] then [] else [Write(payloads[0])] + Writes(payloads[1..])
  }

  /** From `s` to `e` the first `room` payloads were queued in order and the others dropped. */
  ghost predicate Filled<P>(s: State<P>, payloads: seq<P>, room: nat, e: State<P>)
    requires room <= |payloads|
  {
    && e.queue == s.queue + payloads[..room] && e.unfinished == s.unfinished + room
    && Accepted(e.submitted) == Accepted(s.submitted) + payloads[..room]
    && Dropped(e.submitted) == Dropped(s.submitted) + payloads[room..]
    && e.taken == s.taken && e.slots == s.slots && e.batches == s.batches && e.busy == s.busy
  }

  /** Written one after the other, payloads are queued in order until five hundred wait. */
  lemma {:induction false} WritesAlone<P>(s: State<P>, payloads: seq<P>)
    requires Inv(s)
    ensures var room := if |s.queue| + |payloads| <= 500 then |payloads| else 500 - |s.queue|;
      Filled(s, payloads, room, Runs(s, Writes(payloads)))
    decreases |payloads|
  {
    if payloads == [] {
      FilledNone(s);
    } else {
      var n, s1 := WriteFirst(s, payloads);
      WritesAlone(s1, payloads[1..]);
      var room := if |s1.queue| + |payloads[1..]| <= 500 then |payloads[1..]| else 500 - |s1.queue|;
      FilledMore(s, s1, payloads, n, room, Runs(s1, Writes(payloads[1..])));
    }
  }

  lemma FilledNone<P>(s: State<P>)
    ensures Filled(s, [], 0, s)
  {
  }

  lemma WriteFirst<P>(s: State<P>, payloads: seq<P>) returns (n: nat, s1: State<P>)
    requires Inv(s) && payloads != []
    ensures n == (if |s.queue| < 500 then 1 else 0) && Filled(s, payloads[..1], n, s1)
    ensures Inv(s1) && Runs(s, Writes(payloads)) == Runs(s1, Writes(payloads[1..]))
    ensures |s.queue| <= 500 && |s1.queue| == |s.queue| + n
  {
    var p := payloads[0];
    n, s1 := if |s.queue| < 500 then 1 else 0, Act(s, Write(p));
    WriteOne(s, p, n, s1);
    RunsFirst(s, Write(p), Writes(payloads[1..]));
    assert payloads[..1] == [p];
  }

  lemma WriteOne<P>(s: State<P>, p: P, n: nat, s1: State<P>)
    requires Inv(s) && n == (if |s.queue| < 500 then 1 else 0) && s1 == Act(s, Write(p))
    ensures |s1.queue| == |s.queue| + n && Filled(s, [p], n, s1)
  {
    AcceptedAppend(s.submitted, Submission(p, n == 1));
    DroppedAppend(s.submitted, Submission(p, n == 1));
  }

  lemma FilledMore<P>(s: State<P>, s1: State<P>, payloads: seq<P>, n: nat, room: nat, e: State<P>)
    requires payloads != [] && n <= 1 && room <= |payloads| - 1 && (n == 0 ==> room == 0)
    requires Filled(s, payloads[..1], n, s1) && Filled(s1, payloads[1..], room, e)
    ensures Filled(s, payloads, n + room, e)
  {
    JoinedOnto(s.queue, payloads[..1][..n], payloads[1..][..room], payloads[..n + room]);
    JoinedOnto(Accepted(s.submitted), payloads[..1][..n], payloads[1..][..room], payloads[..n + room]);
    JoinedOnto(Dropped(s.submitted), payloads[..1][n..], payloads[1..][room..], payloads[n + room..]);
  }

  lemma JoinedOnto<P>(xs: seq<P>, ys: seq<P>, zs: seq<P>, whole: seq<P>)
    requires whole == ys + zs
    ensures (xs + ys) + zs == xs + whole
  {
  }

  lemma DroppedAppend<P>(submitted: seq<Submission<P>>, x: Submission<P>)
    ensures Dropped(submitted + [x]) == Dropped(submitted) + if x.accepted then [] else [x.payload]
  {
    assert (submitted + [x])[..|submitted|] == submitted;
  }

  function Again<P>(a: Action<P>, n: nat): seq<Action<P>> {
    if n == 0 then [] else [a] + Again(a, n - 1)
  }

  function Tickets(from: nat, n: nat): seq<nat> {
    seq(n, i => from + i)
  }

  /** A round of a worker: take the first payload, collect more, flush, acknowledge. */
  function Round<P>(w: Wid, n: nat, fails: bool): seq<Action<P>> {
    [Take(w)] + (Again(Collect(w), n) + ([Flush(w, fails)] + Again(TaskDone(w), n)))
  }

  /** What a batch is taken from: `n` payloads off the front of the queue, under the next tickets. */
  function Taken<P>(s: State<P>, n: nat, b: nat): State<P>
    requires n <= |s.queue|
  {
    s.(queue := s.queue[n..], taken := s.taken + s.queue[..n], slots := s.slots + seq(n, _ => b))
  }

  /** Worker `w` holds batch number `at`, which is `b`. */
  ghost predicate Holds<P>(s: State<P>, w: Wid, at: nat, b: Batch) {
    Inv(s) && w in s.busy && s.busy[w] == at < |s.batches| && s.batches[at] == b && b.worker == w && b.phase != Finished
  }

  lemma AtCollect<P>(s: State<P>, w: Wid, at: nat, b: Batch)
    requires Holds(s, w, at, b) && b.phase == Collecting && |b.tickets| < 4 && s.queue != []
    ensures var more := b.(tickets := b.tickets + [|s.taken|]);
      Act(s, Collect(w)) == Dequeue(s, at).(batches := s.batches[at := more]) && Holds(Act(s, Collect(w)), w, at, more)
  {
    ActKeepsInv(s, Collect(w));
  }

  lemma AtStop<P>(s: State<P>, w: Wid, at: nat, b: Batch)
    requires Holds(s, w, at, b) && b.phase == Collecting && (|b.tickets| >= 4 || s.queue == [])
    ensures Act(s, Collect(w)) == s.(batches := s.batches[at := b.(phase := Flushing)])
  {
  }

  function Collected<P>(s: State<P>, at: nat, b: Batch, n: nat): State<P>
    requires n <= |s.queue| && at < |s.batches|
  {
    Taken(s, n, at).(batches := s.batches[at := b.(tickets := b.tickets + Tickets(|s.taken|, n), phase := Flushing)])
  }

  lemma CollectedNone<P>(s: State<P>, at: nat, b: Batch)
    requires at < |s.batches|
    ensures Collected(s, at, b, 0) == s.(batches := s.batches[at := b.(phase := Flushing)])
  {
    assert b.tickets + Tickets(|s.taken|, 0) == b.tickets;
    assert s.queue[0..] == s.queue && s.taken + s.queue[..0] == s.taken && s.slots + seq(0, _ => at) == s.slots;
  }

  lemma CollectedMore<P>(s: State<P>, at: nat, b: Batch, n: nat)
    requires 0 < n <= |s.queue| && at < |s.batches|
    ensures var more := b.(tickets := b.tickets + [|s.taken|]);
      Collected(Dequeue(s, at).(batches := s.batches[at := more]), at, more, n - 1) == Collected(s, at, b, n)
  {
    assert s.queue[1..][n - 1..] == s.queue[n..];
    assert (s.taken + [s.queue[0]]) + s.queue[1..][..n - 1] == s.taken + s.queue[..n];
    assert (s.slots + [at]) + seq(n - 1, _ => at) == s.slots + seq(n, _ => at);
    assert (b.tickets + [|s.taken|]) + Tickets(|s.taken| + 1, n - 1) == b.tickets + Tickets(|s.taken|, n);
    var x, y := b.(tickets := b.tickets + [|s.taken|]), b.(tickets := b.tickets + Tickets(|s.taken|, n), phase := Flushing);
    assert s.batches[at := x][at := y] == s.batches[at := y];
  }

  /** After `actions` the state is `e`, whatever comes next. */
  ghost predicate LeadsTo<P>(s: State<P>, actions: seq<Action<P>>, e: State<P>, rest: seq<Action<P>>) {
    Inv(s) && Inv(e) && Runs(s, actions + rest) == Runs(e, rest)
  }

  ghost predicate Follows<P>(s: State<P>, a: Action<P>, s1: State<P>) {
    Inv(s) && s1 == Act(s, a)
  }

  lemma LeadsOn<P>(s: State<P>, a: Action<P>, s1: State<P>, n: nat, e: State<P>, rest: seq<Action<P>>)
    requires Follows(s, a, s1) && LeadsTo(s1, Again(a, n), e, rest)
    ensures LeadsTo(s, Again(a, n + 1), e, rest)
  {
    AgainFirst(a, n, rest);
    RunsFirst(s, a, Again(a, n) + rest);
  }

  lemma CollectLast<P>(s: State<P>, w: Wid, at: nat, b: Batch, rest: seq<Action<P>>)
    requires Holds(s, w, at, b) && b.phase == Collecting && (|b.tickets| >= 4 || s.queue == [])
    ensures LeadsTo(s, Again(Collect(w), 1), Collected(s, at, b, 0), rest)
  {
    AtStop(s, w, at, b);
    CollectedNone(s, at, b);
    ActKeepsInv(s, Collect(w));
    assert Again<P>(Collect(w), 0) + rest == rest;
    LeadsOn(s, Collect(w), Collected(s, at, b, 0), 0, Collected(s, at, b, 0), rest);
  }

  /** One more payload joins the batch; what collecting the others comes to stays the same. */
  lemma CollectOne<P>(s: State<P>, w: Wid, at: nat, b: Batch, n: nat) returns (s1: State<P>, more: Batch)
    requires Holds(s, w, at, b) && b.phase == Collecting && |b.tickets| < 4 && 0 < n <= |s.queue|
    ensures Follows(s, Collect(w), s1) && Holds(s1, w, at, more) && |s1.queue| == |s.queue| - 1
    ensures more.phase == Collecting && |more.tickets| == |b.tickets| + 1
    ensures Collected(s1, at, more, n - 1) == Collected(s, at, b, n)
  {
    more := b.(tickets := b.tickets + [|s.taken|]);
    s1 := Act(s, Collect(w));
    AtCollect(s, w, at, b);
    CollectedMore(s, at, b, n);
  }

  lemma {:induction false} CollectAlone<P>(s: State<P>, w: Wid, at: nat, b: Batch, n: nat, e: State<P>, rest: seq<Action<P>>)
    requires Holds(s, w, at, b) && b.phase == Collecting
    requires |b.tickets| + n <= 4 && n <= |s.queue| && (|b.tickets| + n == 4 || n == |s.queue|)
    requires e == Collected(s, at, b, n)
    ensures LeadsTo(s, Again(Collect(w), n + 1), e, rest)
    decreases n
  {
    if n == 0 {
      CollectLast(s, w, at, b, rest);
    } else {
      var s1, more := CollectOne(s, w, at, b, n);
      CollectAlone(s1, w, at, more, n - 1, e, rest);
      LeadsOn(s, Collect(w), s1, n, e, rest);
    }
  }

  lemma AgainFirst<P>(a: Action<P>, n: nat, rest: seq<Action<P>>)
    ensures Again(a, n + 1) + rest == [a] + (Again(a, n) + rest)
  {
  }

  lemma AtTaskDone<P>(s: State<P>, w: Wid, at: nat, b: Batch, n: nat)
    requires Holds(s, w, at, b) && b.phase == Acknowledging(n) && n > 0
    ensures Act(s, TaskDone(w)) ==
      if n > 1 then s.(batches := s.batches[at := b.(phase := Acknowledging(n - 1))], unfinished := s.unfinished - 1)
      else s.(batches := s.batches[at := b.(phase := Finished)], unfinished := s.unfinished - 1, busy := s.busy - {w})
  {
  }

  lemma {:induction false} DoneAlone<P>(s: State<P>, w: Wid, at: nat, b: Batch, n: nat)
    requires Holds(s, w, at, b) && b.phase == Acknowledging(n) && n > 0
    ensures Runs(s, Again(TaskDone(w), n))
         == s.(batches := s.batches[at := b.(phase := Finished)], unfinished := s.unfinished - n, busy := s.busy - {w})
    decreases n
  {
    var a: Action<P> := TaskDone(w);
    AtTaskDone(s, w, at, b, n);
    RunsFirst(s, a, Again(a, n - 1));
    if n > 1 {
      var less := b.(phase := Acknowledging(n - 1));
      DoneAlone(Act(s, a), w, at, less, n - 1);
      assert s.batches[at := less][at := b.(phase := Finished)] == s.batches[at := b.(phase := Finished)];
    }
  }

  lemma TakeAlone<P>(s: State<P>, w: Wid)
    requires Inv(s) && w !in s.busy && s.queue != []
    ensures var at, b := |s.batches|, Batch(w, Tickets(|s.taken|, 1), Collecting, false);
      && Act(s, Take(w)) == Taken(s, 1, at).(batches := s.batches + [b], busy := s.busy[w := at])
      && Holds(Act(s, Take(w)), w, at, b)
  {
    assert Tickets(|s.taken|, 1) == [|s.taken|] && s.queue[..1] == [s.queue[0]];
    assert seq(1, _ => |s.batches|) == [|s.batches|];
    ActKeepsInv(s, Take(w));
  }

  lemma TakenTwice<P>(s: State<P>, n: nat, b: nat)
    requires 0 < n <= |s.queue|
    ensures Taken(Taken(s, 1, b), n - 1, b) == Taken(s, n, b)
    ensures Tickets(|s.taken|, 1) + Tickets(|s.taken| + 1, n - 1) == Tickets(|s.taken|, n)
  {
    assert s.queue[1..][n - 1..] == s.queue[n..];
    assert (s.taken + s.queue[..1]) + s.queue[1..][..n - 1] == s.taken + s.queue[..n];
    assert (s.slots + seq(1, _ => b)) + seq(n - 1, _ => b) == s.slots + seq(n, _ => b);
  }

  /** The state with `n` payloads taken into a last batch that stands at this phase. */
  function WithBatch<P>(s: State<P>, w: Wid, n: nat, phase: Phase, failed: bool): State<P>
    requires n <= |s.queue|
  {
    Taken(s, n, |s.batches|).(
      batches := s.batches + [Batch(w, Tickets(|s.taken|, n), phase, failed)], busy := s.busy[w := |s.batches|])
  }

  lemma CollectedIsWithBatch<P>(s: State<P>, w: Wid, n: nat)
    requires 0 < n <= |s.queue|
    ensures var at, b := |s.batches|, Batch(w, Tickets(|s.taken|, 1), Collecting, false);
      var s1 := Taken(s, 1, at).(batches := s.batches + [b], busy := s.busy[w := at]);
      Collected(s1, at, b, n - 1) == WithBatch(s, w, n, Flushing, false)
  {
    var at, b := |s.batches|, Batch(w, Tickets(|s.taken|, 1), Collecting, false);
    TakenTwice(s, n, at);
    var full := Batch(w, Tickets(|s.taken|, n), Flushing, false);
    assert (s.batches + [b])[at := full] == s.batches + [full];
  }

  lemma FlushAlone<P>(s: State<P>, w: Wid, n: nat, fails: bool)
    requires 0 < n <= |s.queue| && Inv(WithBatch(s, w, n, Flushing, false))
    ensures var e := WithBatch(s, w, n, Acknowledging(n), fails);
      && Act(WithBatch(s, w, n, Flushing, false), Flush(w, fails)) == e
      && Holds(e, w, |s.batches|, Batch(w, Tickets(|s.taken|, n), Acknowledging(n), fails))
  {
    var s2, e := WithBatch(s, w, n, Flushing, false), WithBatch(s, w, n, Acknowledging(n), fails);
    assert s2.batches[|s.batches| := e.batches[|s.batches|]] == e.batches;
    ActKeepsInv(s2, Flush(w, fails));
  }

  /**
   * A round of one worker: up to four payloads leave the front of the queue in order, make one batch
   * that is flushed and finished, and are acknowledged, whether or not the flush fails.
   */
  lemma RoundAlone<P>(s: State<P>, w: Wid, n: nat, fails: bool)
    requires Inv(s) && w !in s.busy && s.queue != []
    requires n == if |s.queue| < 4 then |s.queue| else 4
    ensures Runs(s, Round(w, n, fails)) ==
      Taken(s, n, |s.batches|).(
        batches := s.batches + [Batch(w, Tickets(|s.taken|, n), Finished, fails)], unfinished := s.unfinished - n)
  {
    var at, b := |s.batches|, Batch(w, Tickets(|s.taken|, 1), Collecting, false);
    var flush: Action<P> := Flush(w, fails);
    var acknowledge := Again(TaskDone(w), n);
    var s1, s2 := Act(s, Take(w)), WithBatch(s, w, n, Flushing, false);
    assert Holds(s1, w, at, b) && Runs(s, Round(w, n, fails)) == Runs(s1, Again(Collect(w), n) + ([flush] + acknowledge)) by {
      TakeAlone(s, w);
      RunsFirst(s, Take(w), Again(Collect(w), n) + ([flush] + acknowledge));
    }
    assert LeadsTo(s1, Again(Collect(w), n), s2, [flush] + acknowledge) by {
      CollectRest(s, s1, w, n, s2, [flush] + acknowledge);
    }
    var s3 := WithBatch(s, w, n, Acknowledging(n), fails);
    FlushAlone(s, w, n, fails);
    RunsFirst(s2, flush, acknowledge);
    RoundEnds(s, s3, w, n, fails);
  }

  lemma CollectRest<P>(s: State<P>, s1: State<P>, w: Wid, n: nat, e: State<P>, rest: seq<Action<P>>)
    requires Inv(s) && w !in s.busy && s.queue != [] && s1 == Act(s, Take(w))
    requires n == if |s.queue| < 4 then |s.queue| else 4
    requires e == WithBatch(s, w, n, Flushing, false)
    ensures LeadsTo(s1, Again(Collect(w), n), e, rest)
  {
    var at, b := |s.batches|, Batch(w, Tickets(|s.taken|, 1), Collecting, false);
    TakeAlone(s, w);
    CollectedIsWithBatch(s, w, n);
    CollectAlone(s1, w, at, b, n - 1, e, rest);
  }

  lemma RoundEnds<P>(s: State<P>, s3: State<P>, w: Wid, n: nat, fails: bool)
    requires 0 < n <= |s.queue| && w !in s.busy && s3 == WithBatch(s, w, n, Acknowledging(n), fails)
    requires Holds(s3, w, |s.batches|, Batch(w, Tickets(|s.taken|, n), Acknowledging(n), fails))
    ensures Runs(s3, Again(TaskDone(w), n)) ==
      Taken(s, n, |s.batches|).(
        batches := s.batches + [Batch(w, Tickets(|s.taken|, n), Finished, fails)], unfinished := s.unfinished - n)
  {
    var b := Batch(w, Tickets(|s.taken|, n), Acknowledging(n), fails);
    DoneAlone(s3, w, |s.batches|, b, n);
    assert s3.batches[|s.batches| := b.(phase := Finished)] == s.batches + [b.(phase := Finished)];
    assert s3.busy - {w} == s.busy;
  }
}
