/**
 The generic memory controller: read, write and other queues, the list of reads and the
 list of writes under way, the switch between draining reads and writes, and the log of
 requests that it counts in and out of service.
 */
module Controller {
  import Scheduler
  import Serving

  const QUEUE_MAX: nat := 32
  const HIGH_MARK: nat := 25  // int(0.8 * 32)
  const LOW_MARK: nat := 6    // int(0.2 * 32)

  datatype Spec = Spec(readLatency: int, writeLatency: int)

  /** `id` numbers the accepted reads and writes in order; `started` once a command was issued for the request. */
  datatype Req = Req(id: nat, write: bool, addr: int, path: Serving.Path, arrive: int, depart: int, started: bool)

  /** The requests of one kind: queued, under way, and those whose callback ran, in order. */
  datatype Lane = Lane(queue: seq<Req>, pending: seq<Req>, done: seq<Req>)

  /** `log` has the calls of `update_serving_requests`, in order. */
  datatype State = State(clk: int, next: nat, writeMode: bool, otherq: nat, loads: Lane, stores: Lane, log: seq<Serving.Event>)

  /** What is done for the request that the scheduler picked: nothing, a preparing command, or its own command. */
  datatype Pick = Idle | Prepare(index: nat) | Finish(index: nat)

  /** A request of the processor, or a cycle in which refresh adds requests of its own to the third queue. */
  datatype Event = Arrive(write: bool, addr: int, path: Serving.Path) | Cycle(refreshes: nat, pick: Pick)

  predicate WriteTo(q: seq<Req>, addr: int) {
    exists i :: 0 <= i < |q| && q[i].addr == addr
  }

  predicate Full(s: State, write: bool) {
    |(if write then s.stores else s.loads).queue| == QUEUE_MAX
  }

  /** A read of an address that a queued write is about to change is answered from that write. */
  function Enqueue(s: State, write: bool, addr: int, path: Serving.Path): (t: State) {
    if Full(s, write) then s else
    var r := Req(s.next, write, addr, path, s.clk, 0, false);
    if write then s.(next := s.next + 1, stores := s.stores.(queue := s.stores.queue + [r]))
    else if WriteTo(s.stores.queue, addr) then
      s.(next := s.next + 1, loads := s.loads.(pending := s.loads.pending + [r.(depart := s.clk + 1)]))
    else s.(next := s.next + 1, loads := s.loads.(queue := s.loads.queue + [r]))
  }

  predicate Leaves(l: Lane, clk: int) {
    l.pending != [] && l.pending[0].depart <= clk
  }

  /** At most one request of a kind completes per cycle, oldest first. */
  function Complete(l: Lane, clk: int): (m: Lane) {
    if Leaves(l, clk) then l.(pending := l.pending[1..], done := l.done + [l.pending[0]]) else l
  }

  function CountIn(r: Req, clk: int): (e: Serving.Event) {
    Serving.Event(r.id, r.path, 1, clk)
  }

  function CountOut(r: Req, clk: int): (e: Serving.Event) {
    Serving.Event(r.id, r.path, -1, clk)
  }

  /** A completed read is taken for one that went to the memory by the time it took. */
  predicate Slow(r: Req) {
    r.depart - r.arrive > 1
  }

  function CompleteLog(l: Lane, clk: int, log: seq<Serving.Event>): (g: seq<Serving.Event>) {
    if Leaves(l, clk) && Slow(l.pending[0]) then log + [CountOut(l.pending[0], clk)] else log
  }

  /** Writes start when they pile up or there is nothing to read; they stop when few are left and there is. */
  function NextMode(writeMode: bool, loads: nat, stores: nat): (m: bool) {
    if !writeMode then stores >= HIGH_MARK || loads == 0 else !(stores <= LOW_MARK && loads != 0)
  }

  datatype Source = Reads | Writes | Others

  /** The queue that is served. */
  function Turn(s: State): (q: Source) {
    if s.otherq > 0 then Others else if s.writeMode then Writes else Reads
  }

  function Remove(q: seq<Req>, i: nat): (r: seq<Req>)
    requires i < |q|
    ensures |r| == |q| - 1
  {
    q[..i] + q[i + 1..]
  }

  /** The first command on behalf of a request marks it and counts it in. */
  function Begun(l: Lane, i: nat): (m: Lane)
    requires i < |l.queue|
  {
    l.(queue := l.queue[i := l.queue[i].(started := true)])
  }

  function BegunLog(l: Lane, i: nat, clk: int, log: seq<Serving.Event>): (g: seq<Serving.Event>)
    requires i < |l.queue|
  {
    if l.queue[i].started then log else log + [CountIn(l.queue[i], clk)]
  }

  /** The request's own command is out: it leaves its queue and gets a time of completion. */
  function Finished(l: Lane, i: nat, depart: int): (m: Lane)
    requires i < |l.queue|
  {
    l.(queue := Remove(l.queue, i), pending := l.pending + [l.queue[i].(depart := depart)])
  }

  predicate PickFits(s: State, p: Pick) {
    p.Idle? ||
      match Turn(s)
      case Reads => p.index < |s.loads.queue|
      case Writes => p.index < |s.stores.queue|
      case Others => true
  }

  /** The bookkeeping before the command of the pick is issued. */
  function Begin(s: State, p: Pick): (t: State)
    requires PickFits(s, p)
  {
    if p.Idle? then s else
    match Turn(s)
    case Reads => s.(loads := Begun(s.loads, p.index), log := BegunLog(s.loads, p.index, s.clk, s.log))
    case Writes => s.(stores := Begun(s.stores, p.index), log := BegunLog(s.stores, p.index, s.clk, s.log))
    case Others => s
  }

  /** What the request's own command does; a write is counted out at once. */
  function End(spec: Spec, s: State, p: Pick): (t: State)
    requires PickFits(s, p)
  {
    if !p.Finish? then s else
    match Turn(s)
    case Reads => s.(loads := Finished(s.loads, p.index, s.clk + spec.readLatency))
    case Writes => s.(stores := Finished(s.stores, p.index, s.clk + spec.writeLatency), log := s.log + [CountOut(s.stores.queue[p.index], s.clk)])
    case Others => s.(otherq := s.otherq - 1)
  }

  function Issue(spec: Spec, s: State, p: Pick): (t: State)
    requires PickFits(s, p)
  {
    End(spec, Begin(s, p), p)
  }

  /** The state in which the scheduler picks: after completions, refresh and the mode switch. */
  function Prepared(s: State, refreshes: nat): (t: State) {
    State(s.clk + 1, s.next, NextMode(s.writeMode, |s.loads.queue|, |s.stores.queue|), s.otherq + refreshes,
          Complete(s.loads, s.clk + 1), Complete(s.stores, s.clk + 1), CompleteLog(s.loads, s.clk + 1, s.log))
  }

  predicate Enabled(s: State, e: Event) {
    e.Cycle? ==> PickFits(Prepared(s, e.refreshes), e.pick)
  }

  function Step(spec: Spec, s: State, e: Event): (t: State)
    requires Enabled(s, e)
  {
    match e
    case Arrive(write, addr, path) => Enqueue(s, write, addr, path)
    case Cycle(n, p) => Issue(spec, Prepared(s, n), p)
  }

  // ----- where a request is -----

  ghost function In(q: seq<Req>, id: nat): (n: nat) {
    if q == [] then 0 else In(q[1..], id) + if q[0].id == id then 1 else 0
  }

  ghost function InLane(l: Lane, id: nat): (n: nat) {
    In(l.queue, id) + In(l.pending, id) + In(l.done, id)
  }

  /** In how many of the two queues, the two lists and the two logs of callbacks a request is. */
  ghost function Places(s: State, id: nat): (n: nat) {
    InLane(s.loads, id) + InLane(s.stores, id)
  }

  lemma {:induction false} InConcat(a: seq<Req>, b: seq<Req>, id: nat)
    ensures In(a + b, id) == In(a, id) + In(b, id)
    decreases |a|
  {
    if a == [] {
      assert a + b == b;
    } else {
      InConcat(a[1..], b, id);
      assert (a + b)[1..] == a[1..] + b;
    }
  }

  lemma InPush(q: seq<Req>, r: Req, id: nat)
    ensures In(q + [r], id) == In(q, id) + if r.id == id then 1 else 0
  {
    InConcat(q, [r], id);
    assert [r][1..] == [];
  }

  lemma InRemove(q: seq<Req>, i: nat, id: nat)
    requires i < |q|
    ensures In(q, id) == In(Remove(q, i), id) + if q[i].id == id then 1 else 0
  {
    assert q == (q[..i] + [q[i]]) + q[i + 1..];
    InConcat(q[..i] + [q[i]], q[i + 1..], id);
    InPush(q[..i], q[i], id);
    InConcat(q[..i], q[i + 1..], id);
  }

  lemma InReplace(q: seq<Req>, i: nat, r: Req, id: nat)
    requires i < |q| && r.id == q[i].id
    ensures In(q[i := r], id) == In(q, id)
  {
    InRemove(q, i, id);
    InRemove(q[i := r], i, id);
    assert Remove(q[i := r], i) == Remove(q, i);
  }

  lemma NotIn(q: seq<Req>, id: nat)
    requires In(q, id) == 0
    ensures forall r :: r in q ==> r.id != id
  {
    forall i | 0 <= i < |q| ensures q[i].id != id {
      InRemove(q, i, id);
    }
  }

  lemma CompleteHolds(l: Lane, clk: int, id: nat)
    ensures InLane(Complete(l, clk), id) == InLane(l, id)
  {
    if l.pending != [] {
      InPush(l.done, l.pending[0], id);
    }
  }

  lemma BegunHolds(l: Lane, i: nat, id: nat)
    requires i < |l.queue|
    ensures InLane(Begun(l, i), id) == InLane(l, id)
  {
    InReplace(l.queue, i, l.queue[i].(started := true), id);
  }

  lemma FinishedHolds(l: Lane, i: nat, depart: int, id: nat)
    requires i < |l.queue|
    ensures InLane(Finished(l, i, depart), id) == InLane(l, id)
  {
    InRemove(l.queue, i, id);
    InPush(l.pending, l.queue[i].(depart := depart), id);
  }

  lemma EnqueuePlaces(s: State, write: bool, addr: int, path: Serving.Path, id: nat)
    ensures Places(Enqueue(s, write, addr, path), id) == Places(s, id) + if !Full(s, write) && id == s.next then 1 else 0
  {
    var r := Req(s.next, write, addr, path, s.clk, 0, false);
    if write {
      InPush(s.stores.queue, r, id);
    } else if WriteTo(s.stores.queue, addr) {
      InPush(s.loads.pending, r.(depart := s.clk + 1), id);
    } else {
      InPush(s.loads.queue, r, id);
    }
  }

  lemma PreparedPlaces(s: State, n: nat, id: nat)
    ensures Places(Prepared(s, n), id) == Places(s, id)
  {
    CompleteHolds(s.loads, s.clk + 1, id);
    CompleteHolds(s.stores, s.clk + 1, id);
  }

  lemma BeginPlaces(s: State, p: Pick, id: nat)
    requires PickFits(s, p)
    ensures Places(Begin(s, p), id) == Places(s, id) && PickFits(Begin(s, p), p)
  {
    if !p.Idle? {
      match Turn(s)
      case Reads => BegunHolds(s.loads, p.index, id);
      case Writes => BegunHolds(s.stores, p.index, id);
      case Others =>
    }
  }

  lemma EndPlaces(spec: Spec, s: State, p: Pick, id: nat)
    requires PickFits(s, p)
    ensures Places(End(spec, s, p), id) == Places(s, id)
  {
    if p.Finish? {
      match Turn(s)
      case Reads => FinishedHolds(s.loads, p.index, s.clk + spec.readLatency, id);
      case Writes => FinishedHolds(s.stores, p.index, s.clk + spec.writeLatency, id);
      case Others =>
    }
  }

  // ----- what every run keeps -----

  /** Every accepted read or write is in exactly one place. */
  ghost predicate Once(s: State) {
    forall id: nat :: Places(s, id) == if id < s.next then 1 else 0
  }

  lemma EnqueueOnce(s: State, write: bool, addr: int, path: Serving.Path)
    requires Once(s)
    ensures Once(Enqueue(s, write, addr, path))
  {
    var t := Enqueue(s, write, addr, path);
    forall id: nat ensures Places(t, id) == if id < t.next then 1 else 0 {
      EnqueuePlaces(s, write, addr, path, id);
      assert Places(s, id) == if id < s.next then 1 else 0;
    }
  }

  lemma PreparedOnce(s: State, n: nat)
    requires Once(s)
    ensures Once(Prepared(s, n))
  {
    var t := Prepared(s, n);
    forall id: nat ensures Places(t, id) == if id < t.next then 1 else 0 {
      PreparedPlaces(s, n, id);
      assert Places(s, id) == if id < s.next then 1 else 0;
    }
  }

  lemma BeginOnce(s: State, p: Pick)
    requires Once(s) && PickFits(s, p)
    ensures Once(Begin(s, p)) && PickFits(Begin(s, p), p)
  {
    var t := Begin(s, p);
    forall id: nat ensures Places(t, id) == if id < t.next then 1 else 0 {
      BeginPlaces(s, p, id);
      assert Places(s, id) == if id < s.next then 1 else 0;
    }
  }

  lemma EndOnce(spec: Spec, s: State, p: Pick)
    requires Once(s) && PickFits(s, p)
    ensures Once(End(spec, s, p))
  {
    var t := End(spec, s, p);
    forall id: nat ensures Places(t, id) == if id < t.next then 1 else 0 {
      EndPlaces(spec, s, p, id);
      assert Places(s, id) == if id < s.next then 1 else 0;
    }
  }

  /** A queue holds requests of its kind, in order of arrival. */
  predicate QueueOk(q: seq<Req>, write: bool, clk: int, next: nat) {
    && |q| <= QUEUE_MAX
    && (forall i :: 0 <= i < |q| ==> q[i].write == write && q[i].id < next && q[i].arrive <= clk)
    && (forall i, j :: 0 <= i < j < |q| ==> q[i].arrive <= q[j].arrive)
  }

  /** No queued read has a queued write to its address that is older than it. */
  predicate NoOlderWrite(loads: seq<Req>, stores: seq<Req>) {
    forall i, j :: 0 <= i < |loads| && 0 <= j < |stores| && loads[i].addr == stores[j].addr ==> loads[i].id < stores[j].id
  }

  predicate Sound(s: State) {
    && QueueOk(s.loads.queue, false, s.clk, s.next) && QueueOk(s.stores.queue, true, s.clk, s.next)
    && NoOlderWrite(s.loads.queue, s.stores.queue)
  }

  ghost predicate Inv(s: State) {
    Once(s) && Sound(s)
  }

  lemma BeginSound(s: State, p: Pick)
    requires Sound(s) && PickFits(s, p)
    ensures Sound(Begin(s, p)) && PickFits(Begin(s, p), p)
  {
  }

  lemma FinishedOk(l: Lane, i: nat, depart: int, write: bool, clk: int, next: nat)
    requires QueueOk(l.queue, write, clk, next) && i < |l.queue|
    ensures QueueOk(Finished(l, i, depart).queue, write, clk, next)
    ensures forall j :: 0 <= j < |Remove(l.queue, i)| ==> Remove(l.queue, i)[j] == l.queue[if j < i then j else j + 1]
  {
  }

  lemma EndSound(spec: Spec, s: State, p: Pick)
    requires Sound(s) && PickFits(s, p)
    ensures Sound(End(spec, s, p))
  {
    if p.Finish? {
      match Turn(s)
      case Reads => FinishedOk(s.loads, p.index, s.clk + spec.readLatency, false, s.clk, s.next);
      case Writes => FinishedOk(s.stores, p.index, s.clk + spec.writeLatency, true, s.clk, s.next);
      case Others =>
    }
  }

  lemma EnqueueKeepsInv(s: State, write: bool, addr: int, path: Serving.Path)
    requires Inv(s)
    ensures Inv(Enqueue(s, write, addr, path))
  {
    EnqueueOnce(s, write, addr, path);
    EnqueueSound(s, write, addr, path);
  }

  lemma EnqueueSound(s: State, write: bool, addr: int, path: Serving.Path)
    requires Sound(s)
    ensures Sound(Enqueue(s, write, addr, path))
  {
    var r := Req(s.next, write, addr, path, s.clk, 0, false);
    if write {
      QueuePush(s.stores.queue, r, s.clk, s.next);
    } else {
      QueuePush(s.loads.queue, r, s.clk, s.next);
    }
  }

  lemma QueuePush(q: seq<Req>, r: Req, clk: int, next: nat)
    requires QueueOk(q, r.write, clk, next) && r.id == next && r.arrive == clk
    ensures |q| < QUEUE_MAX ==> QueueOk(q + [r], r.write, clk, next + 1)
  {
  }

  lemma PreparedKeepsInv(s: State, n: nat)
    requires Inv(s)
    ensures Inv(Prepared(s, n))
  {
    PreparedOnce(s, n);
  }

  lemma IssueKeepsInv(spec: Spec, s: State, p: Pick)
    requires Inv(s) && PickFits(s, p)
    ensures Inv(Begin(s, p)) && PickFits(Begin(s, p), p) && Inv(Issue(spec, s, p))
  {
    BeginOnce(s, p);
    BeginSound(s, p);
    EndOnce(spec, Begin(s, p), p);
    EndSound(spec, Begin(s, p), p);
  }

  lemma StepKeepsInv(spec: Spec, s: State, e: Event)
    requires Inv(s) && Enabled(s, e)
    ensures Inv(Step(spec, s, e))
  {
    match e
    case Arrive(write, addr, path) => EnqueueKeepsInv(s, write, addr, path);
    case Cycle(n, p) =>
      PreparedKeepsInv(s, n);
      IssueKeepsInv(spec, Prepared(s, n), p);
  }

  const RESET := State(0, 0, false, 0, Lane([], [], []), Lane([], [], []), [])

  /** Any arrivals and cycles, with any request of the served queue picked. */
  ghost predicate IsRun(spec: Spec, s: State, es: seq<Event>)
    decreases |es|
  {
    es == [] || (Enabled(s, es[0]) && IsRun(spec, Step(spec, s, es[0]), es[1..]))
  }

  ghost function Run(spec: Spec, s: State, es: seq<Event>): (t: State)
    requires IsRun(spec, s, es)
    decreases |es|
  {
    if es == [] then s else Run(spec, Step(spec, s, es[0]), es[1..])
  }

  lemma {:induction false} RunKeepsInv(spec: Spec, s: State, es: seq<Event>)
    requires Inv(s) && IsRun(spec, s, es)
    ensures Inv(Run(spec, s, es))
    decreases |es|
  {
    if es == [] {
    } else {
      StepKeepsInv(spec, s, es[0]);
      RunKeepsInv(spec, Step(spec, s, es[0]), es[1..]);
    }
  }

  /** After every run from reset, each accepted request is queued, under way or completed: in exactly one of these, once. */
  lemma EveryRequestOnce(spec: Spec, es: seq<Event>)
    requires IsRun(spec, RESET, es)
    ensures var s := Run(spec, RESET, es);
            forall id: nat :: Places(s, id) == if id < s.next then 1 else 0
  {
    RunKeepsInv(spec, RESET, es);
  }

  /** When a run issues a read, no write to its address that was accepted before it is still queued. */
  lemma ReadsSeeOlderWrites(spec: Spec, es: seq<Event>, refreshes: nat, index: nat)
    requires IsRun(spec, RESET, es)
    requires var u := Prepared(Run(spec, RESET, es), refreshes); Turn(u) == Reads && index < |u.loads.queue|
    ensures var u := Prepared(Run(spec, RESET, es), refreshes);
            forall j :: 0 <= j < |u.stores.queue| && u.stores.queue[j].addr == u.loads.queue[index].addr ==>
              u.stores.queue[j].id > u.loads.queue[index].id
  {
    RunKeepsInv(spec, RESET, es);
    PreparedKeepsInv(Run(spec, RESET, es), refreshes);
  }

  // ----- when writes are served -----

  /** The lengths of the two queues at the start of a cycle. */
  datatype Lengths = Lengths(loads: nat, stores: nat)

  function LengthsOf(s: State): (q: Lengths) {
    Lengths(|s.loads.queue|, |s.stores.queue|)
  }

  /** The lengths at the start of each cycle of a run. */
  ghost function Seen(spec: Spec, s: State, es: seq<Event>): (qs: seq<Lengths>)
    requires IsRun(spec, s, es)
    decreases |es|
  {
    if es == [] then [] else
    (if es[0].Cycle? then [LengthsOf(s)] else []) + Seen(spec, Step(spec, s, es[0]), es[1..])
  }

  /** Writes take over when 25 of them are queued or no read is; reads do when at most 6 writes are queued and a read is. */
  predicate ToWrites(q: Lengths) {
    q.stores >= 25 || q.loads == 0
  }

  predicate ToReads(q: Lengths) {
    q.stores <= 6 && q.loads != 0
  }

  /** Since writes last took over, or since the start if it was with writes, reads have not. */
  ghost predicate WritesHold(start: bool, qs: seq<Lengths>) {
    || (start && forall j :: 0 <= j < |qs| ==> !ToReads(qs[j]))
    || exists m :: 0 <= m < |qs| && ToWrites(qs[m]) && forall j :: m < j < |qs| ==> !ToReads(qs[j])
  }

  lemma HoldAfter(start: bool, q: Lengths, qs: seq<Lengths>)
    requires WritesHold(NextMode(start, q.loads, q.stores), qs)
    ensures WritesHold(start, [q] + qs)
  {
    var all := [q] + qs;
    assert forall j :: 0 < j < |all| ==> all[j] == qs[j - 1];
    if m :| 0 <= m < |qs| && ToWrites(qs[m]) && forall j :: m < j < |qs| ==> !ToReads(qs[j]) {
      assert ToWrites(all[m + 1]) && forall j :: m + 1 < j < |all| ==> !ToReads(all[j]);
    } else if !start {
      assert ToWrites(all[0]) && forall j :: 0 < j < |all| ==> !ToReads(all[j]);
    }
  }

  lemma HoldBefore(start: bool, q: Lengths, qs: seq<Lengths>)
    requires WritesHold(start, [q] + qs)
    ensures WritesHold(NextMode(start, q.loads, q.stores), qs)
  {
    var all := [q] + qs;
    assert all[0] == q && forall j :: 0 <= j < |qs| ==> all[j + 1] == qs[j];
    if m :| 0 < m < |all| && ToWrites(all[m]) && forall j :: m < j < |all| ==> !ToReads(all[j]) {
      assert ToWrites(qs[m - 1]) && forall j :: m - 1 < j < |qs| ==> !ToReads(qs[j]);
    } else {
      assert NextMode(start, q.loads, q.stores);
      assert forall j :: 0 <= j < |qs| ==> !ToReads(qs[j]);
    }
  }

  lemma HoldStep(start: bool, q: Lengths, qs: seq<Lengths>)
    ensures WritesHold(start, [q] + qs) <==> WritesHold(NextMode(start, q.loads, q.stores), qs)
  {
    if WritesHold(start, [q] + qs) {
      HoldBefore(start, q, qs);
    }
    if WritesHold(NextMode(start, q.loads, q.stores), qs) {
      HoldAfter(start, q, qs);
    }
  }

  lemma {:induction false} ModeIsHeld(spec: Spec, s: State, es: seq<Event>)
    requires IsRun(spec, s, es)
    ensures Run(spec, s, es).writeMode <==> WritesHold(s.writeMode, Seen(spec, s, es))
    decreases |es|
  {
    if es == [] {
    } else {
      var t := Step(spec, s, es[0]);
      ModeIsHeld(spec, t, es[1..]);
      if es[0].Cycle? {
        HoldStep(s.writeMode, LengthsOf(s), Seen(spec, t, es[1..]));
      } else {
        assert Seen(spec, s, es) == Seen(spec, t, es[1..]);
      }
    }
  }

  lemma {:induction false} HoldPush(start: bool, qs: seq<Lengths>, q: Lengths)
    ensures WritesHold(start, qs + [q]) <==> NextMode(WritesHold(start, qs), q.loads, q.stores)
    decreases |qs|
  {
    if qs == [] {
      assert [] + [q] == [q] + [];
      HoldStep(start, q, []);
    } else {
      var next := NextMode(start, qs[0].loads, qs[0].stores);
      HoldPush(next, qs[1..], q);
      HoldStep(start, qs[0], qs[1..] + [q]);
      HoldStep(start, qs[0], qs[1..]);
      assert [qs[0]] + (qs[1..] + [q]) == qs + [q] && [qs[0]] + qs[1..] == qs;
    }
  }

  /**
   In every cycle of every run from reset without requests of the refresh, the write queue is served exactly
   when writes took over in this or an earlier cycle and reads have not since.
   */
  lemma WritesAreServed(spec: Spec, es: seq<Event>, refreshes: nat)
    requires IsRun(spec, RESET, es)
    ensures var s := Run(spec, RESET, es);
            var u, qs := Prepared(s, refreshes), Seen(spec, RESET, es) + [LengthsOf(s)];
            u.otherq == 0 ==>
              (Turn(u) == Writes
               <==> exists m :: 0 <= m < |qs| && ToWrites(qs[m]) && forall j :: m < j < |qs| ==> !ToReads(qs[j]))
  {
    ModeIsHeld(spec, RESET, es);
    HoldPush(false, Seen(spec, RESET, es), LengthsOf(Run(spec, RESET, es)));
  }

  // ----- the order of writes -----

  /** Nothing in front of the request has its address. */
  predicate OldestOfAddress(q: seq<Req>, i: nat) {
    i < |q| && forall j :: 0 <= j < i ==> q[j].addr != q[i].addr
  }

  /** If the event finishes a write, it is the oldest queued one of its address. */
  predicate InTurn(s: State, e: Event) {
    e.Cycle? && e.pick.Finish? ==>
      var u := Prepared(s, e.refreshes); Turn(u) == Writes ==> OldestOfAddress(u.stores.queue, e.pick.index)
  }

  ghost predicate AllInTurn(spec: Spec, s: State, es: seq<Event>)
    requires IsRun(spec, s, es)
    decreases |es|
  {
    es == [] || (InTurn(s, es[0]) && AllInTurn(spec, Step(spec, s, es[0]), es[1..]))
  }

  /** All requests of a kind, the completed first, then those under way, then the queued. */
  function Trail(l: Lane): (w: seq<Req>) {
    l.done + l.pending + l.queue
  }

  /** Requests for one address keep the order in which they were accepted. */
  predicate InOrder(w: seq<Req>) {
    forall i, j :: 0 <= i < j < |w| && w[i].addr == w[j].addr ==> w[i].id < w[j].id
  }

  predicate Below(w: seq<Req>, n: nat) {
    forall i :: 0 <= i < |w| ==> w[i].id < n
  }

  predicate Ordered(s: State) {
    InOrder(Trail(s.stores)) && Below(Trail(s.stores), s.next)
  }

  lemma TrailPush(w: seq<Req>, r: Req)
    requires InOrder(w) && Below(w, r.id)
    ensures InOrder(w + [r]) && Below(w + [r], r.id + 1)
  {
  }

  /** Moving a write in front of queued writes to other addresses keeps the order. */
  lemma TrailMove(a: seq<Req>, q: seq<Req>, i: nat, r: Req, n: nat)
    requires InOrder(a + q) && Below(a + q, n) && OldestOfAddress(q, i) && r.addr == q[i].addr && r.id == q[i].id
    ensures InOrder(a + [r] + Remove(q, i)) && Below(a + [r] + Remove(q, i), n)
  {
    var w, v := a + q, a + [r] + Remove(q, i);
    forall x | 0 <= x < |v| ensures v[x].id == w[From(|a|, i, x)].id && v[x].addr == w[From(|a|, i, x)].addr {
    }
    forall y | |a| < y <= |a| + i ensures v[y].addr != r.addr {
      assert v[y] == q[y - |a| - 1];
    }
  }

  /** Where the element at place `x` was before element `i` of the part from `n` on moved to its front. */
  function From(n: nat, i: nat, x: nat): (y: nat) {
    if x < n || x > n + i then x else if x == n then n + i else x - 1
  }

  lemma BegunOrdered(l: Lane, i: nat, n: nat)
    requires i < |l.queue| && InOrder(Trail(l)) && Below(Trail(l), n)
    ensures InOrder(Trail(Begun(l, i))) && Below(Trail(Begun(l, i)), n)
    ensures OldestOfAddress(l.queue, i) ==> OldestOfAddress(Begun(l, i).queue, i)
  {
    var w, v := Trail(l), Trail(Begun(l, i));
    forall x | 0 <= x < |v| ensures v[x].id == w[x].id && v[x].addr == w[x].addr {
    }
  }

  lemma FinishedOrdered(l: Lane, i: nat, depart: int, n: nat)
    requires OldestOfAddress(l.queue, i) && InOrder(Trail(l)) && Below(Trail(l), n)
    ensures InOrder(Trail(Finished(l, i, depart))) && Below(Trail(Finished(l, i, depart)), n)
  {
    var r := l.queue[i].(depart := depart);
    TrailMove(l.done + l.pending, l.queue, i, r, n);
    assert Trail(Finished(l, i, depart)) == l.done + l.pending + [r] + Remove(l.queue, i);
  }

  lemma StepOrdered(spec: Spec, s: State, e: Event)
    requires Ordered(s) && Enabled(s, e) && InTurn(s, e)
    ensures Ordered(Step(spec, s, e))
  {
    match e
    case Arrive(write, addr, path) =>
      if !Full(s, write) && write {
        var r := Req(s.next, write, addr, path, s.clk, 0, false);
        TrailPush(Trail(s.stores), r);
        assert Trail(Enqueue(s, write, addr, path).stores) == Trail(s.stores) + [r];
      }
    case Cycle(n, p) =>
      var u := Prepared(s, n);
      assert Trail(u.stores) == Trail(s.stores);
      if !p.Idle? && Turn(u) == Writes {
        BegunOrdered(u.stores, p.index, s.next);
        if p.Finish? {
          FinishedOrdered(Begun(u.stores, p.index), p.index, u.clk + spec.writeLatency, s.next);
        }
      }
  }

  lemma {:induction false} RunOrdered(spec: Spec, s: State, es: seq<Event>)
    requires Ordered(s) && IsRun(spec, s, es) && AllInTurn(spec, s, es)
    ensures Ordered(Run(spec, s, es))
    decreases |es|
  {
    if es == [] {
    } else {
      StepOrdered(spec, s, es[0]);
      RunOrdered(spec, Step(spec, s, es[0]), es[1..]);
    }
  }

  /** When writes are finished in turn, writes to one address complete in the order they were accepted. */
  lemma WritesInOrder(spec: Spec, es: seq<Event>)
    requires IsRun(spec, RESET, es) && AllInTurn(spec, RESET, es)
    ensures InOrder(Run(spec, RESET, es).stores.done)
  {
    RunOrdered(spec, RESET, es);
    var l := Run(spec, RESET, es).stores;
    forall i | 0 <= i < |l.done| ensures Trail(l)[i] == l.done[i] {
    }
  }

  /** The scheduler sees when a request arrived, and one address looks the same wherever it stands. */
  ghost predicate Shown(q: seq<Req>, vs: seq<Scheduler.View>) {
    && |vs| == |q|
    && (forall i :: 0 <= i < |q| ==> vs[i].arrive == q[i].arrive)
    && (forall i, j :: 0 <= i < |q| && 0 <= j < |q| && q[i].addr == q[j].addr ==>
          vs[i].ready == vs[j].ready && vs[i].hit == vs[j].hit && vs[i].open == vs[j].open && vs[i].group == vs[j].group)
  }

  /** The default scheduler never takes a request past an older one of the same address. */
  lemma HeadIsOldestOfAddress(q: seq<Req>, vs: seq<Scheduler.View>, h: nat, write: bool, clk: int, next: nat)
    requires Shown(q, vs) && QueueOk(q, write, clk, next) && Scheduler.IsHead(vs, h)
    ensures OldestOfAddress(q, h)
  {
    forall j | 0 <= j < h ensures q[j].addr != q[h].addr {
      assert vs[j].arrive <= vs[h].arrive;
      assert q[j].addr == q[h].addr ==> Scheduler.Violates(vs, vs[j]) == Scheduler.Violates(vs, vs[h]);
      assert Scheduler.Before(Scheduler.FRFCFS, vs, h, j) ==> q[j].addr != q[h].addr;
    }
  }

  /** So whatever write the default scheduler finishes, it is in turn. */
  lemma DefaultSchedulerInTurn(spec: Spec, es: seq<Event>, refreshes: nat, vs: seq<Scheduler.View>, h: nat)
    requires IsRun(spec, RESET, es)
    requires var u := Prepared(Run(spec, RESET, es), refreshes);
             Turn(u) == Writes && Shown(u.stores.queue, vs) && Scheduler.IsHead(vs, h)
    ensures Enabled(Run(spec, RESET, es), Cycle(refreshes, Finish(h)))
    ensures InTurn(Run(spec, RESET, es), Cycle(refreshes, Finish(h)))
  {
    var s := Run(spec, RESET, es);
    RunKeepsInv(spec, RESET, es);
    PreparedKeepsInv(s, refreshes);
    var u := Prepared(s, refreshes);
    HeadIsOldestOfAddress(u.stores.queue, vs, h, true, u.clk, u.next);
  }
}
