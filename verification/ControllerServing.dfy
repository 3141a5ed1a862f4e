/**
 What the controller's own bookkeeping makes of the serving counters: its log is legal in every
 run, so the results about legal logs hold for the memory as it is driven.
 */
module ControllerServing {
  import opened Controller
  import opened Serving

  // ----- the log of every run is legal -----

  /** A started request is in service according to the log, any other is unknown to it. */
  ghost predicate Tracked(q: seq<Req>, log: seq<Serving.Event>) {
    forall r :: r in q ==> if r.started then Running(log, r.id, r.path) else !Started(log, r.id)
  }

  ghost predicate LogOk(s: State) {
    && Legal(s.log) && Before(s.log, s.clk) && 0 <= s.clk
    && (forall i :: 0 <= i < |s.log| ==> s.log[i].id < s.next)
    && Tracked(s.loads.queue, s.log) && Tracked(s.loads.pending, s.log) && Tracked(s.stores.queue, s.log)
    && (forall r :: r in s.loads.pending && Slow(r) ==> r.started)
  }

  lemma TrackedStays(q: seq<Req>, log: seq<Serving.Event>, e: Serving.Event)
    requires Tracked(q, log) && forall r :: r in q ==> r.id != e.id
    ensures Tracked(q, log + [e])
  {
    forall r | r in q ensures if r.started then Running(log + [e], r.id, r.path) else !Started(log + [e], r.id) {
      OthersStay(log, e, r.id, r.path);
    }
  }

  /** The request at the head of the pending reads is nowhere else. */
  lemma PendingAlone(s: State)
    requires Once(s) && s.loads.pending != []
    ensures var id := s.loads.pending[0].id;
            && (forall r :: r in s.loads.pending[1..] ==> r.id != id)
            && (forall r :: r in s.loads.queue ==> r.id != id) && (forall r :: r in s.stores.queue ==> r.id != id)
  {
    var id := s.loads.pending[0].id;
    assert Places(s, id) <= 1;
    NotIn(s.loads.pending[1..], id);
    NotIn(s.loads.queue, id);
    NotIn(s.stores.queue, id);
  }

  /** A queued request is nowhere else. */
  lemma QueuedAlone(s: State, write: bool, i: nat)
    requires Once(s) && i < |(if write then s.stores else s.loads).queue|
    ensures var q := (if write then s.stores else s.loads).queue; var id := q[i].id;
            && (forall r :: r in Remove(q, i) ==> r.id != id)
            && (forall r :: r in s.loads.pending ==> r.id != id)
            && (forall r :: r in (if write then s.loads else s.stores).queue ==> r.id != id)
  {
    var q := (if write then s.stores else s.loads).queue;
    var id := q[i].id;
    assert Places(s, id) <= 1;
    InRemove(q, i, id);
    NotIn(Remove(q, i), id);
    NotIn(s.loads.pending, id);
    NotIn((if write then s.loads else s.stores).queue, id);
  }

  lemma EnqueueLog(s: State, write: bool, addr: int, path: Path)
    requires LogOk(s)
    ensures LogOk(Enqueue(s, write, addr, path))
  {
    assert !Started(s.log, s.next);
  }

  lemma PreparedLog(s: State, n: nat)
    requires Once(s) && LogOk(s)
    ensures LogOk(Prepared(s, n))
  {
    var l, clk := s.loads, s.clk + 1;
    if Leaves(l, clk) {
      var r := l.pending[0];
      if Slow(r) {
        PendingAlone(s);
        assert Running(s.log, r.id, r.path);
        LegalOut(s.log, r.id, r.path, clk);
        TrackedStays(l.queue, s.log, CountOut(r, clk));
        TrackedStays(l.pending[1..], s.log, CountOut(r, clk));
        TrackedStays(s.stores.queue, s.log, CountOut(r, clk));
      }
    }
  }

  /** Marking a queued request and counting it in. */
  lemma BegunTracked(q: seq<Req>, i: nat, log: seq<Serving.Event>, clk: int)
    requires i < |q| && Tracked(q, log) && Legal(log) && Before(log, clk) && !q[i].started
    requires forall r :: r in Remove(q, i) ==> r.id != q[i].id
    ensures Legal(log + [CountIn(q[i], clk)])
    ensures Tracked(q[i := q[i].(started := true)], log + [CountIn(q[i], clk)])
  {
    LegalIn(log, q[i].id, q[i].path, clk);
    TrackedStays(Remove(q, i), log, CountIn(q[i], clk));
    var q' := q[i := q[i].(started := true)];
    forall r | r in q' && r != q'[i] ensures r in Remove(q, i) {
      var j :| 0 <= j < |q'| && q'[j] == r;
      assert r == Remove(q, i)[if j < i then j else j - 1];
    }
  }

  lemma BeginLog(s: State, p: Pick)
    requires Once(s) && LogOk(s) && PickFits(s, p)
    ensures LogOk(Begin(s, p))
  {
    if !p.Idle? && Turn(s) != Others {
      var write := Turn(s) == Writes;
      var l := if write then s.stores else s.loads;
      if l.queue[p.index].started {
        assert Begun(l, p.index) == l;
      } else {
        QueuedAlone(s, write, p.index);
        var e := CountIn(l.queue[p.index], s.clk);
        NotNew(s, l.queue, p.index);
        BegunTracked(l.queue, p.index, s.log, s.clk);
        TrackedStays(s.loads.pending, s.log, e);
        TrackedStays((if write then s.loads else s.stores).queue, s.log, e);
      }
    }
  }

  /** Queued requests have numbers that were given out. */
  lemma NotNew(s: State, q: seq<Req>, i: nat)
    requires Once(s) && i < |q| && (q == s.loads.queue || q == s.stores.queue)
    ensures q[i].id < s.next
  {
    InRemove(q, i, q[i].id);
    assert Places(s, q[i].id) >= 1;
  }

  /** What `Begin` leaves for the pick. */
  predicate PickStarted(s: State, p: Pick) {
    p.Idle? ||
      match Turn(s)
      case Reads => p.index < |s.loads.queue| && s.loads.queue[p.index].started
      case Writes => p.index < |s.stores.queue| && s.stores.queue[p.index].started
      case Others => true
  }

  lemma EndLog(spec: Spec, s: State, p: Pick)
    requires Once(s) && LogOk(s) && PickFits(s, p) && PickStarted(s, p)
    ensures LogOk(End(spec, s, p))
  {
    if p.Finish? && Turn(s) != Others {
      var write := Turn(s) == Writes;
      var q := (if write then s.stores else s.loads).queue;
      var r := q[p.index];
      assert r in q && Running(s.log, r.id, r.path);
      forall x | x in Remove(q, p.index) ensures x in q {
      }
      if write {
        QueuedAlone(s, true, p.index);
        NotNew(s, q, p.index);
        LegalOut(s.log, r.id, r.path, s.clk);
        TrackedStays(Remove(q, p.index), s.log, CountOut(r, s.clk));
        TrackedStays(s.loads.pending, s.log, CountOut(r, s.clk));
        TrackedStays(s.loads.queue, s.log, CountOut(r, s.clk));
      }
    }
  }

  lemma StepLog(spec: Spec, s: State, e: Controller.Event)
    requires Inv(s) && LogOk(s) && Enabled(s, e)
    ensures LogOk(Controller.Step(spec, s, e))
  {
    match e
    case Arrive(write, addr, path) => EnqueueLog(s, write, addr, path);
    case Cycle(n, p) =>
      var u := Prepared(s, n);
      PreparedKeepsInv(s, n);
      PreparedLog(s, n);
      IssueKeepsInv(spec, u, p);
      BeginLog(u, p);
      EndLog(spec, Begin(u, p), p);
  }

  lemma {:induction false} RunLog(spec: Spec, s: State, es: seq<Controller.Event>)
    requires Inv(s) && LogOk(s) && IsRun(spec, s, es)
    ensures LogOk(Run(spec, s, es))
    decreases |es|
  {
    if es == [] {
    } else {
      StepKeepsInv(spec, s, es[0]);
      StepLog(spec, s, es[0]);
      RunLog(spec, Controller.Step(spec, s, es[0]), es[1..]);
    }
  }

  /** Whatever arrives, whatever is picked and however long reads take, requests are counted in once and out at most once. */
  lemma LogIsLegal(spec: Spec, es: seq<Controller.Event>)
    requires IsRun(spec, RESET, es)
    ensures Legal(Run(spec, RESET, es).log)
  {
    RunLog(spec, RESET, es);
  }

  /** None of the assertions of `update_serving_requests` fires, at any node, for any event of a run. */
  lemma CountersNeverAssert(spec: Spec, es: seq<Controller.Event>, k: nat, p: Path)
    requires IsRun(spec, RESET, es) && k < |Run(spec, RESET, es).log| && Under(p, Run(spec, RESET, es).log[k].path)
    ensures Allows(Metered(Run(spec, RESET, es).log[..k], p), Run(spec, RESET, es).log[k].delta)
  {
    LogIsLegal(spec, es);
    var h := Run(spec, RESET, es).log;
    LegalPrefix(h, k + 1);
    assert h[..k + 1] == h[..k] + [h[k]];
    NeverAsserts(h[..k], h[k], p);
  }

  /** Over any run the sums of a node are totals over the past clocks, and its count is never negative. */
  lemma CountersAreTotals(spec: Spec, es: seq<Controller.Event>, p: Path)
    requires IsRun(spec, RESET, es)
    ensures var h := Run(spec, RESET, es).log; var m := Metered(h, p);
            0 <= m.cur && (m.begin >= 0 ==> m.serving == Total(h, p, m.begin) && m.active == Busy(h, p, m.begin))
  {
    LogIsLegal(spec, es);
    SumsAreTotals(Run(spec, RESET, es).log, p);
    CurCountsOpen(Run(spec, RESET, es).log, p);
  }

  // ----- what the count counts -----

  predicate Serves(r: Req, p: Path, id: nat) {
    r.id == id && r.started && Under(p, r.path)
  }

  /** The request is queued or, if it is a read, under way, and a command was issued for it. */
  ghost predicate IsInService(s: State, p: Path, id: nat) {
    || (exists r :: r in s.loads.queue && Serves(r, p, id))
    || (exists r :: r in s.loads.pending && Serves(r, p, id))
    || (exists r :: r in s.stores.queue && Serves(r, p, id))
  }

  /** The log has nothing open under `p` but requests in service. */
  ghost predicate OnlyService(s: State, p: Path) {
    forall id :: id in Open(s.log, p) ==> IsInService(s, p, id)
  }

  /** The log has open under `p` exactly the requests in service. */
  ghost predicate Exact(s: State, p: Path) {
    forall id: nat :: id in Open(s.log, p) <==> IsInService(s, p, id)
  }

  /** Reads that went to the memory took more than a clock. */
  predicate StartedAreSlow(s: State) {
    forall r :: r in s.loads.pending && r.started ==> Slow(r)
  }

  lemma TrackedIsOpen(q: seq<Req>, log: seq<Serving.Event>, p: Path, id: nat)
    requires Tracked(q, log) && exists r :: r in q && Serves(r, p, id)
    ensures id in Open(log, p)
  {
    var r :| r in q && Serves(r, p, id);
    RunningIsOpen(log, r.id, r.path, p);
  }

  lemma OnlyServiceIsExact(s: State, p: Path)
    requires LogOk(s) && OnlyService(s, p)
    ensures Exact(s, p)
  {
    forall id: nat | IsInService(s, p, id) ensures id in Open(s.log, p) {
      if exists r :: r in s.loads.queue && Serves(r, p, id) {
        TrackedIsOpen(s.loads.queue, s.log, p, id);
      } else if exists r :: r in s.loads.pending && Serves(r, p, id) {
        TrackedIsOpen(s.loads.pending, s.log, p, id);
      } else {
        TrackedIsOpen(s.stores.queue, s.log, p, id);
      }
    }
  }

  lemma EnqueueService(s: State, write: bool, addr: int, path: Path, p: Path)
    requires OnlyService(s, p)
    ensures OnlyService(Enqueue(s, write, addr, path), p)
  {
    var t := Enqueue(s, write, addr, path);
    forall id | id in Open(t.log, p) ensures IsInService(t, p, id) {
      assert IsInService(s, p, id);
      assert forall r :: r in s.loads.queue ==> r in t.loads.queue;
      assert forall r :: r in s.loads.pending ==> r in t.loads.pending;
      assert forall r :: r in s.stores.queue ==> r in t.stores.queue;
    }
  }

  /** A running request that is counted out is no longer open, whether the node is on its path or not. */
  lemma NoLongerOpen(log: seq<Serving.Event>, r: Req, clk: int, p: Path)
    requires Running(log, r.id, r.path)
    ensures Open(log + [CountOut(r, clk)], p) == Open(log, p) - {r.id}
  {
    OpenPush(log, CountOut(r, clk), p);
    RunningIsOpen(log, r.id, r.path, p);
  }

  lemma PreparedService(s: State, n: nat, p: Path)
    requires Once(s) && LogOk(s) && OnlyService(s, p) && StartedAreSlow(s)
    ensures OnlyService(Prepared(s, n), p) && StartedAreSlow(Prepared(s, n))
  {
    var l, clk, t := s.loads, s.clk + 1, Prepared(s, n);
    if Leaves(l, clk) {
      var r := l.pending[0];
      assert l.pending == [r] + l.pending[1..];
      if Slow(r) {
        assert r in l.pending;
        NoLongerOpen(s.log, r, clk, p);
      }
      forall id | id in Open(t.log, p) ensures IsInService(t, p, id) {
        assert IsInService(s, p, id);
        assert !Serves(r, p, id);
      }
    }
  }

  lemma BeginService(s: State, q: Pick, p: Path)
    requires LogOk(s) && PickFits(s, q) && OnlyService(s, p)
    ensures OnlyService(Begin(s, q), p)
  {
    if !q.Idle? && Turn(s) != Others {
      var write := Turn(s) == Writes;
      var l, i := if write then s.stores else s.loads, q.index;
      var t := Begin(s, q);
      var r := l.queue[i].(started := true);
      var after := Begun(l, i).queue;
      if l.queue[i].started {
        assert after == l.queue;
      } else {
        OpenPush(s.log, CountIn(l.queue[i], s.clk), p);
        assert after[i] == r && r in after;
        forall x | x in l.queue && x.started ensures x in after {
          var j :| 0 <= j < |l.queue| && l.queue[j] == x;
          assert after[j] == x;
        }
        forall id | id in Open(t.log, p) ensures IsInService(t, p, id) {
          if id in Open(s.log, p) {
            assert IsInService(s, p, id);
          } else {
            assert Serves(r, p, id);
          }
        }
      }
    }
  }

  lemma InRest(q: seq<Req>, i: nat, r: Req)
    requires i < |q| && r in q && r != q[i]
    ensures r in Remove(q, i)
  {
    var j :| 0 <= j < |q| && q[j] == r;
    assert Remove(q, i)[if j < i then j else j - 1] == r;
  }

  lemma EndService(spec: Spec, s: State, q: Pick, p: Path)
    requires Once(s) && LogOk(s) && PickFits(s, q) && PickStarted(s, q) && OnlyService(s, p) && StartedAreSlow(s)
    requires 1 <= spec.readLatency && forall r :: r in s.loads.queue ==> r.arrive < s.clk
    ensures OnlyService(End(spec, s, q), p) && StartedAreSlow(End(spec, s, q))
  {
    if q.Finish? && Turn(s) == Reads {
      var r, t := s.loads.queue[q.index], End(spec, s, q);
      var moved := r.(depart := s.clk + spec.readLatency);
      assert moved == t.loads.pending[|s.loads.pending|] && moved in t.loads.pending;
      forall id | id in Open(t.log, p) ensures IsInService(t, p, id) {
        assert IsInService(s, p, id);
        if Serves(r, p, id) {
          assert Serves(moved, p, id);
        } else if exists x :: x in s.loads.queue && Serves(x, p, id) {
          var x :| x in s.loads.queue && Serves(x, p, id);
          InRest(s.loads.queue, q.index, x);
        }
      }
    } else if q.Finish? && Turn(s) == Writes {
      var r, t := s.stores.queue[q.index], End(spec, s, q);
      assert r in s.stores.queue;
      NoLongerOpen(s.log, r, s.clk, p);
      forall id | id in Open(t.log, p) ensures IsInService(t, p, id) {
        assert IsInService(s, p, id) && id != r.id;
        if exists x :: x in s.stores.queue && Serves(x, p, id) {
          var x :| x in s.stores.queue && Serves(x, p, id);
          InRest(s.stores.queue, q.index, x);
        }
      }
    }
  }

  lemma StepService(spec: Spec, s: State, e: Controller.Event, p: Path)
    requires Inv(s) && LogOk(s) && Enabled(s, e) && OnlyService(s, p) && StartedAreSlow(s) && 1 <= spec.readLatency
    ensures OnlyService(Controller.Step(spec, s, e), p) && StartedAreSlow(Controller.Step(spec, s, e))
  {
    match e
    case Arrive(write, addr, path) => EnqueueService(s, write, addr, path, p);
    case Cycle(n, q) =>
      var u := Prepared(s, n);
      PreparedKeepsInv(s, n);
      PreparedLog(s, n);
      PreparedService(s, n, p);
      IssueKeepsInv(spec, u, q);
      BeginLog(u, q);
      BeginService(u, q, p);
      ArrivedEarlier(s, n, q);
      EndService(spec, Begin(u, q), q, p);
  }

  /** What is in the read queue when a command is picked arrived before this clock. */
  lemma ArrivedEarlier(s: State, n: nat, q: Pick)
    requires Sound(s) && PickFits(Prepared(s, n), q)
    ensures var t := Begin(Prepared(s, n), q); StartedAreSlow(Prepared(s, n)) ==> StartedAreSlow(t)
    ensures var t := Begin(Prepared(s, n), q); forall r :: r in t.loads.queue ==> r.arrive < t.clk
  {
    var t := Begin(Prepared(s, n), q);
    forall i | 0 <= i < |t.loads.queue| ensures t.loads.queue[i].arrive < t.clk {
      assert t.loads.queue[i].arrive == s.loads.queue[i].arrive;
    }
  }

  lemma {:induction false} RunService(spec: Spec, s: State, es: seq<Controller.Event>, p: Path)
    requires Inv(s) && LogOk(s) && IsRun(spec, s, es) && OnlyService(s, p) && StartedAreSlow(s) && 1 <= spec.readLatency
    ensures Exact(Run(spec, s, es), p)
    decreases |es|
  {
    if es == [] {
      OnlyServiceIsExact(s, p);
    } else {
      StepKeepsInv(spec, s, es[0]);
      StepLog(spec, s, es[0]);
      StepService(spec, s, es[0], p);
      RunService(spec, Controller.Step(spec, s, es[0]), es[1..], p);
    }
  }

  ghost predicate ExactAfter(spec: Spec, es: seq<Controller.Event>, p: Path) {
    IsRun(spec, RESET, es) ==> Exact(Run(spec, RESET, es), p)
  }

  /**
   At every node and after every run the count is that of the requests in service, those for which a
   command was issued and that did not complete, if and only if the read latency is positive.
   */
  lemma CountsService(spec: Spec)
    ensures 1 <= spec.readLatency <==> forall es: seq<Controller.Event>, p: Path :: ExactAfter(spec, es, p)
  {
    if 1 <= spec.readLatency {
      forall es: seq<Controller.Event>, p: Path ensures ExactAfter(spec, es, p) {
        if IsRun(spec, RESET, es) {
          RunService(spec, RESET, es, p);
        }
      }
    } else {
      ReadNeverCountedOut(spec);
    }
  }

  /** The states of that run: the read arrives, is issued, and completes unnoticed. */
  lemma FastRead(spec: Spec)
    requires spec.readLatency < 1
    ensures var s1 := Enqueue(RESET, false, 7, []); var u := Prepared(s1, 0);
            && PickFits(u, Finish(0))
            && var s2 := Issue(spec, u, Finish(0)); var s3 := Prepared(s2, 0);
            && s3.loads.queue == [] && s3.loads.pending == [] && s3.stores.queue == [] && s3.log == [Serving.Event(0, [], 1, 1)]
  {
    var s1 := Enqueue(RESET, false, 7, []);
    var u := Prepared(s1, 0);
    assert Turn(u) == Reads;
    var v := Begin(u, Finish(0));
    assert v.loads.queue == [Req(0, false, 7, [], 0, 0, true)] && v.log == [Serving.Event(0, [], 1, 1)];
    var s2 := End(spec, v, Finish(0));
    assert s2.loads.queue == [] && s2.loads.pending == [Req(0, false, 7, [], 0, 1 + spec.readLatency, true)];
  }

  /** A read that completes one clock after it arrived stays counted for ever. */
  lemma ReadNeverCountedOut(spec: Spec)
    requires spec.readLatency < 1
    ensures !ExactAfter(spec, [Arrive(false, 7, []), Cycle(0, Finish(0)), Cycle(0, Idle)], [])
  {
    FastRead(spec);
    var es := [Arrive(false, 7, []), Cycle(0, Finish(0)), Cycle(0, Idle)];
    var s1 := Enqueue(RESET, false, 7, []);
    var s2 := Issue(spec, Prepared(s1, 0), Finish(0));
    var s3 := Prepared(s2, 0);
    TwoMore(spec, s1, es[1], es[2]);
    assert es[1..] == [es[1], es[2]];
    assert IsRun(spec, RESET, es) && Run(spec, RESET, es) == s3;
    OpenPush([], s3.log[0], []);
    assert s3.log == [] + [s3.log[0]];
    assert 0 in Open(s3.log, []) && !IsInService(s3, [], 0);
  }

  lemma TwoMore(spec: Spec, s: State, e: Controller.Event, f: Controller.Event)
    requires Enabled(s, e) && Enabled(Controller.Step(spec, s, e), f)
    ensures IsRun(spec, s, [e, f]) && Run(spec, s, [e, f]) == Controller.Step(spec, Controller.Step(spec, s, e), f)
  {
    var t := Controller.Step(spec, s, e);
    assert [e, f][1..] == [f] && [f][1..] == [];
    assert IsRun(spec, Controller.Step(spec, t, f), []);
    assert IsRun(spec, t, [f]) && Run(spec, t, [f]) == Controller.Step(spec, t, f);
  }

  // ----- sums after a run -----

  /** A node under which nothing is in service has summed exactly the service times of the requests that went through it. */
  lemma IdleSum(spec: Spec, es: seq<Controller.Event>, p: Path)
    requires IsRun(spec, RESET, es) && 1 <= spec.readLatency
    requires forall id: nat :: !IsInService(Run(spec, RESET, es), p, id)
    ensures var s := Run(spec, RESET, es);
            Metered(s.log, p).cur == 0 && Metered(s.log, p).serving == SumOf(s.log, p, s.next)
  {
    var s := Run(spec, RESET, es);
    RunLog(spec, RESET, es);
    RunService(spec, RESET, es, p);
    CurCountsOpen(s.log, p);
    assert Open(s.log, p) == {};
    QuiescentSum(s.log, p, s.next);
  }

  predicate ToChild(path: Path, p: Path, k: nat) {
    Under(p, path) ==> |p| < |path| && 0 <= path[|p|] < k
  }

  /** All requests and events of the state go to one of the `k` children, if they come to the node at all. */
  ghost predicate ToChildren(s: State, p: Path, k: nat) {
    && (forall r :: r in s.loads.queue ==> ToChild(r.path, p, k))
    && (forall r :: r in s.loads.pending ==> ToChild(r.path, p, k))
    && (forall r :: r in s.stores.queue ==> ToChild(r.path, p, k))
    && Branches(s.log, p, k)
  }

  lemma PreparedToChildren(s: State, n: nat, p: Path, k: nat)
    requires ToChildren(s, p, k)
    ensures ToChildren(Prepared(s, n), p, k)
  {
    if Leaves(s.loads, s.clk + 1) {
      assert s.loads.pending[0] in s.loads.pending;
    }
  }

  lemma BeginToChildren(s: State, q: Pick, p: Path, k: nat)
    requires ToChildren(s, p, k) && PickFits(s, q)
    ensures ToChildren(Begin(s, q), p, k)
  {
    if !q.Idle? && Turn(s) != Others {
      var l := if Turn(s) == Writes then s.stores else s.loads;
      var after := Begun(l, q.index).queue;
      assert l.queue[q.index] in l.queue;
      forall r | r in after ensures ToChild(r.path, p, k) {
        var j :| 0 <= j < |after| && after[j] == r;
        assert l.queue[j] in l.queue && l.queue[j].path == r.path;
      }
    }
  }

  lemma EndToChildren(spec: Spec, s: State, q: Pick, p: Path, k: nat)
    requires ToChildren(s, p, k) && PickFits(s, q)
    ensures ToChildren(End(spec, s, q), p, k)
  {
    if q.Finish? && Turn(s) != Others {
      var l := if Turn(s) == Writes then s.stores else s.loads;
      assert l.queue[q.index] in l.queue;
      assert forall r :: r in Remove(l.queue, q.index) ==> r in l.queue;
    }
  }

  lemma {:induction false} RunToChildren(spec: Spec, s: State, es: seq<Controller.Event>, p: Path, k: nat)
    requires ToChildren(s, p, k) && IsRun(spec, s, es)
    requires forall i :: 0 <= i < |es| && es[i].Arrive? ==> ToChild(es[i].path, p, k)
    ensures ToChildren(Run(spec, s, es), p, k)
    decreases |es|
  {
    if es == [] {
    } else {
      match es[0] {
        case Arrive(_, _, _) =>
        case Cycle(n, q) =>
          PreparedToChildren(s, n, p, k);
          BeginToChildren(Prepared(s, n), q, p, k);
          EndToChildren(spec, Begin(Prepared(s, n), q), q, p, k);
      }
      RunToChildren(spec, Controller.Step(spec, s, es[0]), es[1..], p, k);
    }
  }

  /** After every run a node counts what its children count and, when that is nothing, has summed what they have. */
  lemma ParentSums(spec: Spec, es: seq<Controller.Event>, p: Path, k: nat)
    requires IsRun(spec, RESET, es) && forall i :: 0 <= i < |es| && es[i].Arrive? ==> ToChild(es[i].path, p, k)
    ensures var h := Run(spec, RESET, es).log;
            && Metered(h, p).cur == ChildrenCur(h, p, k)
            && (Metered(h, p).cur == 0 ==> Metered(h, p).serving == ChildrenServing(h, p, k))
  {
    LogIsLegal(spec, es);
    RunToChildren(spec, RESET, es, p, k);
    var h := Run(spec, RESET, es).log;
    ParentCountsChildren(h, p, k);
    if Metered(h, p).cur == 0 {
      QuiescentParent(h, p, k);
    }
  }
}
