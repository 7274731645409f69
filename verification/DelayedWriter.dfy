/** The background writer: any number of producers put payloads on a bounded queue, any number
    of workers take them off in batches, in any interleaving of their atomic steps. */
module DelayedWriter {

  const BATCH_SIZE: nat := 4
  const CAPACITY: nat := 500

  type Wid = nat

  // A batch by the tickets of its payloads: ticket k is the k-th payload taken off the queue.
  datatype Phase = Collecting | Flushing | Acknowledging(left: nat) | Finished

  datatype Batch = Batch(worker: Wid, tickets: seq<nat>, phase: Phase, failed: bool)

  datatype Submission<P> = Submission(payload: P, accepted: bool)

  datatype State<P> = State(
    submitted: seq<Submission<P>>,   // every write, and whether the queue took it
    queue: seq<P>,
    taken: seq<P>,                   // payloads in the order workers took them
    slots: seq<nat>,                 // the batch each ticket went to
    batches: seq<Batch>,             // every batch begun so far
    busy: map<Wid, nat>,             // the batch each working worker holds
    unfinished: int)                 // the queue's count of tasks not done

  datatype Action<P> =
    | Write(payload: P)
    | Take(w: Wid)
    | Collect(w: Wid)
    | Flush(w: Wid, fails: bool)
    | TaskDone(w: Wid)

  function Initial<P>(): State<P> {
    State([], [], [], [], [], map[], 0)
  }

  predicate WorkerOk(batches: seq<Batch>, busy: map<Wid, nat>, w: Wid)
    requires w in busy
  {
    busy[w] < |batches| && batches[busy[w]].worker == w && batches[busy[w]].phase != Finished
  }

  predicate Held(batches: seq<Batch>, busy: map<Wid, nat>, i: nat)
    requires i < |batches|
  {
    batches[i].phase != Finished ==> batches[i].worker in busy && busy[batches[i].worker] == i
  }

  /** A working worker holds an unfinished batch of its own, and every unfinished batch is held. */
  ghost predicate WorkersOk(batches: seq<Batch>, busy: map<Wid, nat>) {
    && (forall w :: w in busy ==> WorkerOk(batches, busy, w))
    && (forall i :: 0 <= i < |batches| ==> Held(batches, busy, i))
  }

  /** One step; a step its thread is not ready for changes nothing. */
  function Act<P>(s: State<P>, a: Action<P>): State<P>
    requires WorkersOk(s.batches, s.busy)
  {
    match a
    case Write(payload) =>
      if |s.queue| < CAPACITY then
        s.(submitted := s.submitted + [Submission(payload, true)], queue := s.queue + [payload], unfinished := s.unfinished + 1)
      else s.(submitted := s.submitted + [Submission(payload, false)])
    case Take(w) =>
      if w in s.busy || s.queue == [] then s
      else
        Dequeue(s, |s.batches|).(
          batches := s.batches + [Batch(w, [|s.taken|], Collecting, false)],
          busy := s.busy[w := |s.batches|])
    case Collect(w) =>
      if w !in s.busy then s
      else if assert WorkerOk(s.batches, s.busy, w); s.batches[s.busy[w]].phase != Collecting then s
      else
        var b := s.batches[s.busy[w]];
        if |b.tickets| < BATCH_SIZE && s.queue != [] then
          Dequeue(s, s.busy[w]).(batches := s.batches[s.busy[w] := b.(tickets := b.tickets + [|s.taken|])])
        else s.(batches := s.batches[s.busy[w] := b.(phase := Flushing)])
    case Flush(w, fails) =>
      if w !in s.busy then s
      else if assert WorkerOk(s.batches, s.busy, w); s.batches[s.busy[w]].phase != Flushing then s
      else
        var b := s.batches[s.busy[w]];
        s.(batches := s.batches[s.busy[w] := b.(phase := Acknowledging(|b.tickets|), failed := fails)])
    case TaskDone(w) =>
      if w !in s.busy then s
      else if assert WorkerOk(s.batches, s.busy, w); !s.batches[s.busy[w]].phase.Acknowledging? then s
      else
        var b := s.batches[s.busy[w]];
        if b.phase.left > 1 then
          s.(batches := s.batches[s.busy[w] := b.(phase := Acknowledging(b.phase.left - 1))], unfinished := s.unfinished - 1)
        else
          s.(batches := s.batches[s.busy[w] := b.(phase := Finished)], unfinished := s.unfinished - 1, busy := s.busy - {w})
  }

  /** The front payload goes to batch `b` under the next ticket. */
  function Dequeue<P>(s: State<P>, b: nat): State<P>
    requires s.queue != []
  {
    s.(queue := s.queue[1..], taken := s.taken + [s.queue[0]], slots := s.slots + [b])
  }

  // ---- What holds in every reachable state ----

  function Accepted<P>(submitted: seq<Submission<P>>): seq<P> {
    if submitted == [] then []
    else
      var last := submitted[|submitted| - 1];
      Accepted(submitted[..|submitted| - 1]) + if last.accepted then [last.payload] else []
  }

  function Dropped<P>(submitted: seq<Submission<P>>): seq<P> {
    if submitted == [] then []
    else
      var last := submitted[|submitted| - 1];
      Dropped(submitted[..|submitted| - 1]) + if last.accepted then [] else [last.payload]
  }

  /** Payloads of a batch still to be acknowledged. */
  function Owed(b: Batch): nat {
    match b.phase
    case Acknowledging(left) => left
    case Finished => 0
    case _ => |b.tickets|
  }

  function OwedBy(batches: seq<Batch>): nat {
    if batches == [] then 0 else OwedBy(batches[..|batches| - 1]) + Owed(batches[|batches| - 1])
  }

  ghost predicate BatchOk(b: Batch, index: nat, slots: seq<nat>) {
    && 1 <= |b.tickets| <= 4
    && (forall i :: 0 <= i < |b.tickets| ==> b.tickets[i] < |slots| && slots[b.tickets[i]] == index)
    && (forall i, j :: 0 <= i < j < |b.tickets| ==> b.tickets[i] < b.tickets[j])
    && (b.phase.Acknowledging? ==> 1 <= b.phase.left <= |b.tickets|)
  }

  predicate TicketOk(batches: seq<Batch>, slots: seq<nat>, k: nat)
    requires k < |slots|
  {
    slots[k] < |batches| && k in batches[slots[k]].tickets
  }

  /** Batches and tickets point at each other. */
  ghost predicate TicketsOk(batches: seq<Batch>, slots: seq<nat>) {
    && (forall i :: 0 <= i < |batches| ==> BatchOk(batches[i], i, slots))
    && (forall k :: 0 <= k < |slots| ==> TicketOk(batches, slots, k))
  }

  ghost predicate CountsOk<P>(s: State<P>) {
    && |s.slots| == |s.taken|
    && Accepted(s.submitted) == s.taken + s.queue
    && |s.queue| <= 500
    && s.unfinished == |s.queue| + OwedBy(s.batches)
  }

  ghost predicate Inv<P>(s: State<P>) {
    WorkersOk(s.batches, s.busy) && TicketsOk(s.batches, s.slots) && CountsOk(s)
  }

  lemma {:induction false} OwedUpdate(batches: seq<Batch>, i: nat, b: Batch)
    requires i < |batches|
    ensures OwedBy(batches[i := b]) == OwedBy(batches) - Owed(batches[i]) + Owed(b)
    decreases |batches|
  {
    var n := |batches| - 1;
    if i == n {
      assert batches[i := b][..n] == batches[..n];
    } else {
      OwedUpdate(batches[..n], i, b);
      assert batches[i := b][..n] == batches[..n][i := b];
    }
  }

  lemma OwedAppend(batches: seq<Batch>, b: Batch)
    ensures OwedBy(batches + [b]) == OwedBy(batches) + Owed(b)
  {
    assert (batches + [b])[..|batches|] == batches;
  }

  lemma AcceptedAppend<P>(submitted: seq<Submission<P>>, x: Submission<P>)
    ensures Accepted(submitted + [x]) == Accepted(submitted) + if x.accepted then [x.payload] else []
  {
    assert (submitted + [x])[..|submitted|] == submitted;
  }

  lemma WriteKeepsCounts<P>(s: State<P>, payload: P)
    requires CountsOk(s) && WorkersOk(s.batches, s.busy)
    ensures CountsOk(Act(s, Write(payload)))
  {
    AcceptedAppend(s.submitted, Submission(payload, |s.queue| < CAPACITY));
    assert s.taken + (s.queue + [payload]) == (s.taken + s.queue) + [payload];
    assert (s.taken + s.queue) + [] == s.taken + s.queue;
  }

  lemma WriteKeepsInv<P>(s: State<P>, payload: P)
    requires Inv(s)
    ensures Inv(Act(s, Write(payload)))
  {
    var s' := Act(s, Write(payload));
    assert s'.batches == s.batches && s'.busy == s.busy && s'.slots == s.slots;
    WriteKeepsCounts(s, payload);
  }

  lemma TicketsBegin(batches: seq<Batch>, slots: seq<nat>, w: Wid)
    requires TicketsOk(batches, slots)
    ensures TicketsOk(batches + [Batch(w, [|slots|], Collecting, false)], slots + [|batches|])
  {
    var b := Batch(w, [|slots|], Collecting, false);
    var batches', slots' := batches + [b], slots + [|batches|];
    forall i | 0 <= i < |batches'| ensures BatchOk(batches'[i], i, slots') {
      assert i < |batches| ==> BatchOk(batches[i], i, slots);
    }
    forall k | 0 <= k < |slots'| ensures TicketOk(batches', slots', k) {
      assert k < |slots| ==> TicketOk(batches, slots, k);
      assert b.tickets[0] == |slots|;
    }
  }

  lemma TicketsGrow(batches: seq<Batch>, slots: seq<nat>, at: nat)
    requires TicketsOk(batches, slots) && at < |batches|
    requires batches[at].phase == Collecting && |batches[at].tickets| < BATCH_SIZE
    ensures TicketsOk(batches[at := batches[at].(tickets := batches[at].tickets + [|slots|])], slots + [at])
  {
    var b := batches[at];
    var more := b.(tickets := b.tickets + [|slots|]);
    var batches', slots' := batches[at := more], slots + [at];
    forall i | 0 <= i < |batches'| ensures BatchOk(batches'[i], i, slots') {
      assert BatchOk(batches[i], i, slots);
    }
    assert more.tickets[|b.tickets|] == |slots|;
    forall k | 0 <= k < |slots'| ensures TicketOk(batches', slots', k) {
      if k < |slots| {
        assert TicketOk(batches, slots, k);
        assert k in b.tickets ==> k in more.tickets;
      }
    }
  }

  lemma TicketsKept(batches: seq<Batch>, slots: seq<nat>, at: nat, b: Batch)
    requires TicketsOk(batches, slots) && at < |batches| && b.tickets == batches[at].tickets
    requires b.phase.Acknowledging? ==> 1 <= b.phase.left <= |b.tickets|
    ensures TicketsOk(batches[at := b], slots)
  {
    var batches' := batches[at := b];
    forall i | 0 <= i < |batches'| ensures BatchOk(batches'[i], i, slots) {
      assert BatchOk(batches[i], i, slots);
    }
    forall k | 0 <= k < |slots| ensures TicketOk(batches', slots, k) {
      assert TicketOk(batches, slots, k);
    }
  }

  lemma WorkersBegin(batches: seq<Batch>, busy: map<Wid, nat>, b: Batch)
    requires WorkersOk(batches, busy) && b.worker !in busy && b.phase != Finished
    ensures WorkersOk(batches + [b], busy[b.worker := |batches|])
  {
    var batches', busy' := batches + [b], busy[b.worker := |batches|];
    forall w | w in busy' ensures WorkerOk(batches', busy', w) {
      assert w != b.worker ==> WorkerOk(batches, busy, w);
    }
    forall i | 0 <= i < |batches'| ensures Held(batches', busy', i) {
      assert i < |batches| ==> Held(batches, busy, i);
    }
  }

  lemma WorkersMove(batches: seq<Batch>, busy: map<Wid, nat>, w: Wid, b: Batch)
    requires WorkersOk(batches, busy) && w in busy && b.worker == w
    ensures WorkerOk(batches, busy, w)
    ensures WorkersOk(batches[busy[w] := b], if b.phase == Finished then busy - {w} else busy)
  {
    assert WorkerOk(batches, busy, w);
    var batches', busy' := batches[busy[w] := b], if b.phase == Finished then busy - {w} else busy;
    forall v | v in busy' ensures WorkerOk(batches', busy', v) {
      assert WorkerOk(batches, busy, v);
    }
    forall i | 0 <= i < |batches'| ensures Held(batches', busy', i) {
      assert Held(batches, busy, i);
    }
  }

  lemma TakeKeepsInv<P>(s: State<P>, w: Wid)
    requires Inv(s) && w !in s.busy && s.queue != []
    ensures Inv(Act(s, Take(w)))
  {
    var s' := Act(s, Take(w));
    OwedAppend(s.batches, Batch(w, [|s.taken|], Collecting, false));
    TicketsBegin(s.batches, s.slots, w);
    WorkersBegin(s.batches, s.busy, Batch(w, [|s.taken|], Collecting, false));
    assert s'.taken + s'.queue == s.taken + s.queue;
  }

  lemma CollectKeepsInv<P>(s: State<P>, w: Wid)
    requires Inv(s) && w in s.busy && WorkerOk(s.batches, s.busy, w) && s.batches[s.busy[w]].phase == Collecting
    requires |s.batches[s.busy[w]].tickets| < BATCH_SIZE && s.queue != []
    ensures Inv(Act(s, Collect(w)))
  {
    var s' := Act(s, Collect(w));
    var more := s.batches[s.busy[w]].(tickets := s.batches[s.busy[w]].tickets + [|s.taken|]);
    assert s' == Dequeue(s, s.busy[w]).(batches := s.batches[s.busy[w] := more]);
    assert CountsOk(s') by {
      OwedUpdate(s.batches, s.busy[w], more);
      assert s'.taken + s'.queue == s.taken + s.queue;
    }
    assert TicketsOk(s'.batches, s'.slots) by {
      TicketsGrow(s.batches, s.slots, s.busy[w]);
    }
    assert WorkersOk(s'.batches, s'.busy) by {
      WorkersMove(s.batches, s.busy, w, more);
    }
  }

  /** Steps that only move one batch to its next phase. */
  lemma PhaseKeepsInv<P>(s: State<P>, w: Wid, b: Batch, unfinished: int, busy: map<Wid, nat>)
    requires Inv(s) && w in s.busy && WorkerOk(s.batches, s.busy, w)
    requires var was := s.batches[s.busy[w]];
      && b.worker == was.worker && b.tickets == was.tickets
      && (b.phase.Acknowledging? ==> 1 <= b.phase.left <= |b.tickets|)
      && unfinished == s.unfinished - Owed(was) + Owed(b)
      && busy == (if b.phase == Finished then s.busy - {w} else s.busy)
    ensures Inv(s.(batches := s.batches[s.busy[w] := b], unfinished := unfinished, busy := busy))
  {
    OwedUpdate(s.batches, s.busy[w], b);
    TicketsKept(s.batches, s.slots, s.busy[w], b);
    WorkersMove(s.batches, s.busy, w, b);
  }

  lemma StopCollectingKeepsInv<P>(s: State<P>, w: Wid)
    requires Inv(s) && w in s.busy && WorkerOk(s.batches, s.busy, w) && s.batches[s.busy[w]].phase == Collecting
    requires !(|s.batches[s.busy[w]].tickets| < BATCH_SIZE && s.queue != [])
    ensures Inv(Act(s, Collect(w)))
  {
    PhaseKeepsInv(s, w, s.batches[s.busy[w]].(phase := Flushing), s.unfinished, s.busy);
  }

  lemma FlushKeepsInv<P>(s: State<P>, w: Wid, fails: bool)
    requires Inv(s) && w in s.busy && WorkerOk(s.batches, s.busy, w) && s.batches[s.busy[w]].phase == Flushing
    ensures Inv(Act(s, Flush(w, fails)))
  {
    var b := s.batches[s.busy[w]];
    assert BatchOk(b, s.busy[w], s.slots);
    PhaseKeepsInv(s, w, b.(phase := Acknowledging(|b.tickets|), failed := fails), s.unfinished, s.busy);
  }

  lemma TaskDoneKeepsInv<P>(s: State<P>, w: Wid)
    requires Inv(s) && w in s.busy && WorkerOk(s.batches, s.busy, w) && s.batches[s.busy[w]].phase.Acknowledging?
    ensures Inv(Act(s, TaskDone(w)))
  {
    var b := s.batches[s.busy[w]];
    assert BatchOk(b, s.busy[w], s.slots);
    if b.phase.left > 1 {
      PhaseKeepsInv(s, w, b.(phase := Acknowledging(b.phase.left - 1)), s.unfinished - 1, s.busy);
    } else {
      PhaseKeepsInv(s, w, b.(phase := Finished), s.unfinished - 1, s.busy - {w});
    }
  }

  lemma ActKeepsInv<P>(s: State<P>, a: Action<P>)
    requires Inv(s)
    ensures Inv(Act(s, a))
  {
    if a.Write? {
      WriteKeepsInv(s, a.payload);
    } else if a.Take? {
      if a.w !in s.busy && s.queue != [] {
        TakeKeepsInv(s, a.w);
      }
    } else if a.w in s.busy {
      assert WorkerOk(s.batches, s.busy, a.w);
      var b := s.batches[s.busy[a.w]];
      if a.Collect? && b.phase == Collecting {
        if |b.tickets| < BATCH_SIZE && s.queue != [] {
          CollectKeepsInv(s, a.w);
        } else {
          StopCollectingKeepsInv(s, a.w);
        }
      } else if a.Flush? && b.phase == Flushing {
        FlushKeepsInv(s, a.w, a.fails);
      } else if a.TaskDone? && b.phase.Acknowledging? {
        TaskDoneKeepsInv(s, a.w);
      }
    }
  }

  // ---- All runs ----

  ghost predicate Next<P>(s: State<P>, a: Action<P>, s': State<P>) {
    WorkersOk(s.batches, s.busy) && s' == Act(s, a)
  }

  ghost predicate IsRun<P>(states: seq<State<P>>, actions: seq<Action<P>>) {
    && |states| == |actions| + 1
    && states[0] == Initial()
    && forall i :: 0 <= i < |actions| ==> Next(states[i], actions[i], states[i + 1])
  }

  lemma {:induction false} ReachableInv<P>(states: seq<State<P>>, actions: seq<Action<P>>, i: nat)
    requires IsRun(states, actions) && i < |states|
    ensures Inv(states[i])
    decreases i
  {
    if i > 0 {
      ReachableInv(states, actions, i - 1);
      ActKeepsInv(states[i - 1], actions[i - 1]);
    }
  }

  lemma {:induction false} RunExists<P>(actions: seq<Action<P>>) returns (states: seq<State<P>>)
    ensures IsRun(states, actions)
    decreases |actions|
  {
    if actions == [] {
      states := [Initial()];
    } else {
      var n := |actions| - 1;
      var before := RunExists(actions[..n]);
      ReachableInv(before, actions[..n], n);
      states := before + [Act(before[n], actions[n])];
      assert Next(states[n], actions[n], states[n + 1]);
    }
  }

  /** Writes split into accepted and dropped; the accepted ones, in order, are those taken so
      far followed by those still queued; and the queue stays within its capacity. */
  lemma AcceptedAreTakenThenQueued<P>(states: seq<State<P>>, actions: seq<Action<P>>, i: nat)
    requires IsRun(states, actions) && i < |states|
    ensures var s := states[i];
      && Accepted(s.submitted) == s.taken + s.queue
      && |Accepted(s.submitted)| + |Dropped(s.submitted)| == |s.submitted|
      && |s.queue| <= 500
  {
    ReachableInv(states, actions, i);
    SplitCount(states[i].submitted);
  }

  lemma {:induction false} SplitCount<P>(submitted: seq<Submission<P>>)
    ensures |Accepted(submitted)| + |Dropped(submitted)| == |submitted|
    decreases |submitted|
  {
    if submitted != [] {
      SplitCount(submitted[..|submitted| - 1]);
    }
  }

  /** A payload that left the queue is in exactly one batch, at one place in it, and batches
      hold one to four payloads in the order they were taken. */
  lemma TakenIsInOneBatch<P>(states: seq<State<P>>, actions: seq<Action<P>>, i: nat, k: nat) returns (b: nat, at: nat)
    requires IsRun(states, actions) && i < |states| && k < |states[i].taken|
    ensures b < |states[i].batches| && at < |states[i].batches[b].tickets| && states[i].batches[b].tickets[at] == k
    ensures forall c, j :: 0 <= c < |states[i].batches| && 0 <= j < |states[i].batches[c].tickets| ==>
              (states[i].batches[c].tickets[j] == k <==> c == b && j == at)
    ensures forall c :: 0 <= c < |states[i].batches| ==> 1 <= |states[i].batches[c].tickets| <= 4
  {
    ReachableInv(states, actions, i);
    var s := states[i];
    b := s.slots[k];
    assert TicketOk(s.batches, s.slots, k);
    at :| 0 <= at < |s.batches[b].tickets| && s.batches[b].tickets[at] == k;
    forall c, j | 0 <= c < |s.batches| && 0 <= j < |s.batches[c].tickets|
      ensures s.batches[c].tickets[j] == k <==> c == b && j == at
    {
      assert BatchOk(s.batches[c], c, s.slots) && BatchOk(s.batches[b], b, s.slots);
    }
    assert forall c :: 0 <= c < |s.batches| ==> BatchOk(s.batches[c], c, s.slots);
  }

  lemma {:induction false} NothingOwed(batches: seq<Batch>)
    ensures OwedBy(batches) == 0 <==> forall i :: 0 <= i < |batches| ==> Owed(batches[i]) == 0
    decreases |batches|
  {
    if batches != [] {
      NothingOwed(batches[..|batches| - 1]);
      assert forall i :: 0 <= i < |batches| - 1 ==> batches[..|batches| - 1][i] == batches[i];
    }
  }

  /** The queue's unfinished count is what is queued plus what unfinished batches owe, whether
      or not their flushes failed; it is zero exactly when the queue is empty and every batch
      has been flushed and acknowledged. */
  lemma UnfinishedMeaning<P>(states: seq<State<P>>, actions: seq<Action<P>>, i: nat)
    requires IsRun(states, actions) && i < |states|
    ensures var s := states[i];
      && s.unfinished == |s.queue| + OwedBy(s.batches)
      && (s.unfinished == 0 <==> s.queue == [] && forall b :: 0 <= b < |s.batches| ==> s.batches[b].phase == Finished)
  {
    ReachableInv(states, actions, i);
    var s := states[i];
    NothingOwed(s.batches);
    forall b | 0 <= b < |s.batches| ensures Owed(s.batches[b]) == 0 <==> s.batches[b].phase == Finished {
      assert BatchOk(s.batches[b], b, s.slots);
    }
  }

  // ---- Every accepted payload gets out ----

  /** Steps a batch has ahead of it besides its acknowledgements. */
  function Ahead(b: Batch): nat {
    match b.phase
    case Collecting => 2
    case Flushing => 1
    case _ => 0
  }

  function AheadOf(batches: seq<Batch>): nat {
    if batches == [] then 0 else AheadOf(batches[..|batches| - 1]) + Ahead(batches[|batches| - 1])
  }

  /** No fewer than the steps the workers can still make before another write. */
  function Work<P>(s: State<P>): int {
    3 * |s.queue| + s.unfinished + AheadOf(s.batches)
  }

  lemma {:induction false} AheadUpdate(batches: seq<Batch>, i: nat, b: Batch)
    requires i < |batches|
    ensures AheadOf(batches[i := b]) == AheadOf(batches) - Ahead(batches[i]) + Ahead(b)
    decreases |batches|
  {
    var n := |batches| - 1;
    if i == n {
      assert batches[i := b][..n] == batches[..n];
    } else {
      AheadUpdate(batches[..n], i, b);
      assert batches[i := b][..n] == batches[..n][i := b];
    }
  }

  lemma AheadAppend(batches: seq<Batch>, b: Batch)
    ensures AheadOf(batches + [b]) == AheadOf(batches) + Ahead(b)
  {
    assert (batches + [b])[..|batches|] == batches;
  }

  /** A step inside a batch changes that batch alone, for less work. */
  lemma BatchStep<P>(s: State<P>, a: Action<P>) returns (at: nat, b: Batch)
    requires WorkersOk(s.batches, s.busy) && !a.Write? && !a.Take? && Act(s, a) != s
    ensures at < |s.batches| && Act(s, a).batches == s.batches[at := b] && Act(s, a).submitted == s.submitted
    ensures 3 * |Act(s, a).queue| + Act(s, a).unfinished + Ahead(b)
          < 3 * |s.queue| + s.unfinished + Ahead(s.batches[at])
  {
    assert WorkerOk(s.batches, s.busy, a.w);
    at := s.busy[a.w];
    b := Act(s, a).batches[at];
  }

  lemma TakeLowersWork<P>(s: State<P>, w: Wid)
    requires WorkersOk(s.batches, s.busy) && w !in s.busy && s.queue != []
    ensures Work(Act(s, Take(w))) < Work(s) && Act(s, Take(w)).submitted == s.submitted
  {
    AheadAppend(s.batches, Batch(w, [|s.taken|], Collecting, false));
  }

  /** A step of a worker that does something leaves less work. */
  lemma StepLowersWork<P>(s: State<P>, a: Action<P>)
    requires Inv(s) && !a.Write? && Act(s, a) != s
    ensures Work(Act(s, a)) < Work(s) && Act(s, a).submitted == s.submitted
  {
    if a.Take? {
      TakeLowersWork(s, a.w);
    } else {
      var at, b := BatchStep(s, a);
      AheadUpdate(s.batches, at, b);
    }
  }

  ghost predicate Drained<P>(s: State<P>) {
    && s.unfinished == 0 && s.queue == [] && s.taken == Accepted(s.submitted)
    && (forall k :: 0 <= k < |s.taken| ==> InFinishedBatch(s, k))
  }

  ghost predicate InFinishedBatch<P>(s: State<P>, k: nat) {
    exists b :: 0 <= b < |s.batches| && s.batches[b].phase == Finished && k in s.batches[b].tickets
  }

  lemma NothingUnfinished<P>(s: State<P>)
    requires Inv(s) && s.unfinished == 0
    ensures Drained(s)
  {
    NothingOwed(s.batches);
    assert s.taken + [] == s.taken;
    forall k | 0 <= k < |s.taken| ensures InFinishedBatch(s, k) {
      assert TicketOk(s.batches, s.slots, k);
      assert BatchOk(s.batches[s.slots[k]], s.slots[k], s.slots);
      assert Owed(s.batches[s.slots[k]]) == 0;
    }
  }

  /** The next step of a worker that holds a batch. */
  function Onward<P>(s: State<P>, w: Wid): Action<P>
    requires WorkersOk(s.batches, s.busy) && w in s.busy
  {
    assert WorkerOk(s.batches, s.busy, w);
    match s.batches[s.busy[w]].phase
    case Collecting => Collect(w)
    case Flushing => Flush(w, false)
    case _ => TaskDone(w)
  }

  lemma OnwardMoves<P>(s: State<P>, w: Wid)
    requires Inv(s) && w in s.busy
    ensures Act(s, Onward(s, w)) != s
  {
    assert WorkerOk(s.batches, s.busy, w);
    var at, s' := s.busy[w], Act(s, Onward(s, w));
    assert s'.batches[at] != s.batches[at];
  }

  /** While anything is unfinished somebody can go on: worker `w`, or one that holds a batch. */
  lemma SomebodyMoves<P>(s: State<P>, w: Wid) returns (a: Action<P>)
    requires Inv(s) && s.unfinished > 0
    ensures !a.Write? && Act(s, a) != s && (a.w == w || (a.w in s.busy && !a.Take?))
  {
    if w in s.busy {
      a := Onward(s, w);
      OnwardMoves(s, w);
    } else if s.queue != [] {
      a := Take(w);
      assert |Act(s, a).batches| == |s.batches| + 1;
    } else {
      NothingOwed(s.batches);
      var i :| 0 <= i < |s.batches| && Owed(s.batches[i]) != 0;
      assert Held(s.batches, s.busy, i);
      a := Onward(s, s.batches[i].worker);
      OnwardMoves(s, s.batches[i].worker);
    }
  }

  /** A stretch of workers' steps that all do something. */
  ghost predicate Working<P>(s: State<P>, steps: seq<Action<P>>, s': State<P>)
    decreases |steps|
  {
    if steps == [] then s' == s
    else
      && !steps[0].Write? && WorkersOk(s.batches, s.busy) && Act(s, steps[0]) != s
      && Working(Act(s, steps[0]), steps[1..], s')
  }

  /** However the workers are scheduled: without another write they stop within `Work(s)` steps, and
      where none of them can go on every accepted payload is in a finished batch. */
  lemma {:induction false} EveryScheduleDrains<P>(s: State<P>, steps: seq<Action<P>>, s': State<P>)
    requires Inv(s) && Working(s, steps, s')
    ensures Inv(s') && s'.submitted == s.submitted && |steps| + Work(s') <= Work(s) && Work(s') >= 0
    ensures (forall a: Action<P> :: !a.Write? ==> Act(s', a) == s') ==> Drained(s')
    decreases |steps|
  {
    if steps == [] {
      if s.unfinished == 0 {
        NothingUnfinished(s);
      } else {
        var a := SomebodyMoves(s, 0);
      }
    } else {
      ActKeepsInv(s, steps[0]);
      StepLowersWork(s, steps[0]);
      EveryScheduleDrains(Act(s, steps[0]), steps[1..], s');
    }
  }

  /** From every reachable state one worker of our choice, and those that hold a batch, can bring
      that about: no other worker needs to take anything. */
  lemma AcceptedGetsOut<P>(states: seq<State<P>>, actions: seq<Action<P>>, i: nat, w: Wid)
    returns (steps: seq<Action<P>>, s': State<P>)
    requires IsRun(states, actions) && i < |states|
    ensures Working(states[i], steps, s') && forall a :: a in steps && a.Take? ==> a.w == w
    ensures Drained(s') && s'.submitted == states[i].submitted
  {
    ReachableInv(states, actions, i);
    steps, s' := Drain(states[i], w);
  }

  lemma {:induction false} Drain<P>(s: State<P>, w: Wid) returns (steps: seq<Action<P>>, s': State<P>)
    requires Inv(s)
    ensures Working(s, steps, s') && forall a :: a in steps && a.Take? ==> a.w == w
    ensures Drained(s') && s'.submitted == s.submitted
    decreases Work(s)
  {
    if s.unfinished == 0 {
      steps, s' := [], s;
      NothingUnfinished(s);
    } else {
      var a := SomebodyMoves(s, w);
      ActKeepsInv(s, a);
      StepLowersWork(s, a);
      var more;
      more, s' := Drain(Act(s, a), w);
      steps := [a] + more;
      assert steps[1..] == more;
    }
  }

  // ---- The writer's own methods, run without interference ----

  class DelayedWriter<P> {
    var queue: seq<P>
    var unfinished: int

    constructor ()
      ensures queue == [] && unfinished == 0
    {
      queue, unfinished := [], 0;
    }

    /** Puts what fits on the queue and drops the rest. */
    method WriteAll(payloads: seq<P>) returns (dropped: seq<P>)
      requires |queue| <= 500
      modifies this
      ensures |queue| <= 500 && (dropped != [] ==> |queue| == 500)
      ensures queue + dropped == old(queue) + payloads
      ensures unfinished - |queue| == old(unfinished) - |old(queue)|
    {
      dropped := [];
      for i := 0 to |payloads|
        invariant |queue| <= CAPACITY && (dropped != [] ==> |queue| == CAPACITY)
        invariant queue + dropped == old(queue) + payloads[..i]
        invariant unfinished - |queue| == old(unfinished) - |old(queue)|
      {
        assert old(queue) + payloads[..i + 1] == old(queue) + payloads[..i] + [payloads[i]];
        if |queue| < CAPACITY {
          assert queue == old(queue) + payloads[..i];
          queue := queue + [payloads[i]];
          unfinished := unfinished + 1;
        } else {
          assert queue + (dropped + [payloads[i]]) == old(queue) + payloads[..i] + [payloads[i]];
          dropped := dropped + [payloads[i]];
        }
      }
    }

    /** One round of a worker: a batch of what is there, flushed, and acknowledged even if the
        flush fails, when what it held is lost. */
    method ProcessBatch(fails: bool) returns (batch: seq<P>, flushed: seq<P>)
      requires queue != []
      modifies this
      ensures batch + queue == old(queue)
      ensures |batch| == if |old(queue)| < 4 then |old(queue)| else 4
      ensures flushed == if fails then [] else batch
      ensures unfinished == old(unfinished) - |batch|
    {
      batch := [queue[0]];
      queue := queue[1..];
      var i := 0;
      while i < BATCH_SIZE - 1 && queue != []
        invariant 0 <= i <= BATCH_SIZE - 1 && |batch| == i + 1
        invariant batch + queue == old(queue) && unfinished == old(unfinished)
      {
        batch := batch + [queue[0]];
        queue := queue[1..];
        i := i + 1;
      }
      if fails {
        flushed := [];
      } else {
        flushed := batch;
      }
      for k := 0 to |batch|
        invariant batch + queue == old(queue)
        invariant unfinished == old(unfinished) - k
      {
        unfinished := unfinished - 1;
      }
    }
  }
}
