/** The event bus with its two locks: `publish` and `subscribe` as the steps
    between their lock operations, in any interleaving. Each publisher publishes
    one event, named by the publisher itself. */
module EventBusSteps {
  import opened Basics
  import EventBus

  datatype Pc =
    // publish: log lock, push, subscribers lock, forward
    | PubWantsLog | PubHoldsLog | PubWantsSubs | PubHoldsSubs | PubDone
    // subscribe: subscribers lock, log lock, replay, register
    | SubWantsSubs | SubWantsLog | SubHoldsBoth | SubReplayed | SubDone

  predicate HasLog(pc: Pc) { pc.PubHoldsLog? || pc.SubHoldsBoth? }

  predicate HasSubs(pc: Pc) { pc.PubHoldsSubs? || pc.SubWantsLog? || pc.SubHoldsBoth? || pc.SubReplayed? }

  predicate Pushed(pc: Pc) { pc.PubWantsSubs? || pc.PubHoldsSubs? || pc.PubDone? }

  predicate Replayed(pc: Pc) { pc.SubReplayed? || pc.SubDone? }

  predicate Finished(pc: Pc) { pc.PubDone? || pc.SubDone? }

  /** The shared state, and what the claims need to remember: all events pushed,
      the events pushed when each subscriber replayed, everything offered to each
      subscriber and whom each event was forwarded to. */
  datatype State = State(
    pcs: seq<Pc>,
    logLock: Option<nat>,
    subsLock: Option<nat>,
    log: seq<nat>,
    registered: seq<nat>,
    history: seq<nat>,
    seen: seq<seq<nat>>,
    offered: seq<seq<nat>>,
    forwardedTo: seq<seq<nat>>)

  predicate Shape(s: State) {
    |s.seen| == |s.offered| == |s.forwardedTo| == |s.pcs|
  }

  /** A thread can move unless it waits for a lock another one holds. */
  predicate Enabled(s: State, t: nat) {
    && t < |s.pcs|
    && match s.pcs[t]
       case PubWantsLog => s.logLock.None?
       case SubWantsLog => s.logLock.None?
       case PubWantsSubs => s.subsLock.None?
       case SubWantsSubs => s.subsLock.None?
       case PubDone => false
       case SubDone => false
       case _ => true
  }

  function Forward(offered: seq<seq<nat>>, to: seq<nat>, e: nat): (r: seq<seq<nat>>)
    ensures |r| == |offered|
  {
    seq(|offered|, u requires 0 <= u < |offered| => if u in to then offered[u] + [e] else offered[u])
  }

  /** One step of thread `t`; a thread that cannot move stays where it is. */
  function Step(s: State, t: nat): (s': State)
    requires Shape(s)
    ensures Shape(s') && |s'.pcs| == |s.pcs|
  {
    if !Enabled(s, t) then s
    else match s.pcs[t]
      case PubWantsLog => s.(pcs := s.pcs[t := PubHoldsLog], logLock := Some(t))
      case PubHoldsLog =>
        s.(pcs := s.pcs[t := PubWantsSubs], logLock := None,
           log := EventBus.Pushed(s.log, t), history := s.history + [t])
      case PubWantsSubs => s.(pcs := s.pcs[t := PubHoldsSubs], subsLock := Some(t))
      case PubHoldsSubs =>
        s.(pcs := s.pcs[t := PubDone], subsLock := None,
           offered := Forward(s.offered, s.registered, t),
           forwardedTo := s.forwardedTo[t := s.registered])
      case SubWantsSubs => s.(pcs := s.pcs[t := SubWantsLog], subsLock := Some(t))
      case SubWantsLog => s.(pcs := s.pcs[t := SubHoldsBoth], logLock := Some(t))
      case SubHoldsBoth =>
        s.(pcs := s.pcs[t := SubReplayed], logLock := None,
           seen := s.seen[t := s.history],
           offered := s.offered[t := s.offered[t] + s.log])
      case SubReplayed =>
        s.(pcs := s.pcs[t := SubDone], subsLock := None, registered := s.registered + [t])
      case _ => s
  }

  predicate Initial(pc: Pc) { pc.PubWantsLog? || pc.SubWantsSubs? }

  function Start(pcs: seq<Pc>): (s: State)
    ensures Shape(s)
  {
    var none := seq(|pcs|, _ => []);
    State(pcs, None, None, [], [], [], none, none, none)
  }

  /** Any schedule of any threads. */
  function Exec(pcs: seq<Pc>, schedule: seq<nat>): (s: State)
    ensures Shape(s) && |s.pcs| == |pcs|
  {
    if schedule == [] then Start(pcs)
    else Step(Exec(pcs, schedule[..|schedule| - 1]), schedule[|schedule| - 1])
  }

  // ----- invariant -----

  predicate Locks(s: State) {
    && (forall t :: 0 <= t < |s.pcs| ==> (HasLog(s.pcs[t]) <==> s.logLock == Some(t)))
    && (forall t :: 0 <= t < |s.pcs| ==> (HasSubs(s.pcs[t]) <==> s.subsLock == Some(t)))
    && (s.logLock.Some? ==> s.logLock.value < |s.pcs|)
    && (s.subsLock.Some? ==> s.subsLock.value < |s.pcs|)
  }

  predicate Last20(log: seq<nat>, history: seq<nat>) {
    log == history[SatSub(|history|, 20)..]
  }

  ghost predicate Books(s: State) {
    && (forall t :: 0 <= t < |s.pcs| ==> (t in s.history <==> Pushed(s.pcs[t])))
    && (forall t :: 0 <= t < |s.pcs| ==> (t in s.registered <==> s.pcs[t].SubDone?))
    && EventBus.Distinct(s.history) && Last20(s.log, s.history)
  }

  /** The events replayed to `u`: the last twenty of those pushed by then. */
  function ReplayedTo(s: State, u: nat): seq<nat>
    requires Shape(s) && u < |s.pcs|
  {
    if Replayed(s.pcs[u]) then s.seen[u][SatSub(|s.seen[u]|, 20)..] else []
  }

  function Times(u: nat, e: nat, s: State): nat
    requires Shape(s) && u < |s.pcs|
  {
    multiset(s.offered[u])[e]
  }

  /** What subscriber `u` has been offered of event `e`. */
  ghost predicate Delivery(s: State, u: nat, e: nat)
    requires Shape(s) && u < |s.pcs| && e < |s.pcs|
  {
    && Times(u, e, s) == (if e in ReplayedTo(s, u) then 1 else 0) + (if u in s.forwardedTo[e] then 1 else 0)
    && (!Replayed(s.pcs[u]) ==> s.offered[u] == [])
    && (u in s.forwardedTo[e] ==> s.pcs[e].PubDone? && s.pcs[u].SubDone?)
    && (Replayed(s.pcs[u]) ==> s.seen[u] <= s.history)
    && (Replayed(s.pcs[u]) && s.pcs[e].PubDone? && e !in s.seen[u] ==> u in s.forwardedTo[e])
  }

  ghost predicate Deliveries(s: State)
    requires Shape(s)
  {
    forall u, e :: 0 <= u < |s.pcs| && 0 <= e < |s.pcs| ==> Delivery(s, u, e)
  }

  ghost predicate Inv(s: State) {
    Shape(s) && Locks(s) && Books(s) && Deliveries(s)
  }

  lemma LocksStep(s: State, t: nat)
    requires Shape(s) && Locks(s)
    ensures Locks(Step(s, t))
  {
  }

  lemma Last20Pushed(log: seq<nat>, history: seq<nat>, e: nat)
    requires Last20(log, history)
    ensures Last20(EventBus.Pushed(log, e), history + [e])
  {
  }

  lemma BooksStep(s: State, t: nat)
    requires Shape(s) && Books(s)
    ensures Books(Step(s, t))
  {
    hide Last20, EventBus.Pushed;
    if Enabled(s, t) && s.pcs[t].PubHoldsLog? {
      Last20Pushed(s.log, s.history, t);
    }
  }

  lemma {:induction false} DistinctCounts(xs: seq<nat>, x: nat)
    requires EventBus.Distinct(xs)
    ensures multiset(xs)[x] == if x in xs then 1 else 0
  {
    if xs == [] {
    } else {
      var n := |xs| - 1;
      DistinctCounts(xs[..n], x);
      assert xs == xs[..n] + [xs[n]];
    }
  }

  /** The replay step of `u` itself. */
  lemma ReplayStep(s: State, u: nat, e: nat)
    requires Inv(s) && u < |s.pcs| && e < |s.pcs| && s.pcs[u].SubHoldsBoth?
    ensures Delivery(Step(s, u), u, e)
  {
    assert Delivery(s, u, e);
    DistinctCounts(s.log, e);
    assert [] + s.log == s.log;
  }

  lemma ForwardStep(s: State, t: nat, u: nat, e: nat)
    requires Inv(s) && t < |s.pcs| && u < |s.pcs| && e < |s.pcs| && s.pcs[t].PubHoldsSubs?
    ensures Delivery(Step(s, t), u, e)
  {
    assert Delivery(s, u, e);
    if e == t && Replayed(s.pcs[u]) {
      assert s.pcs[u].SubDone?;
    }
  }

  lemma QuietStep(s: State, t: nat, u: nat, e: nat)
    requires Inv(s) && u < |s.pcs| && e < |s.pcs| && Enabled(s, t)
    requires !s.pcs[t].PubHoldsSubs? && !(s.pcs[t].SubHoldsBoth? && t == u)
    ensures Delivery(Step(s, t), u, e)
  {
    assert Delivery(s, u, e);
  }

  lemma InvStep(s: State, t: nat)
    requires Inv(s)
    ensures Inv(Step(s, t))
  {
    hide Locks, Books, Delivery;
    LocksStep(s, t);
    BooksStep(s, t);
    if Enabled(s, t) {
      forall u, e | 0 <= u < |s.pcs| && 0 <= e < |s.pcs| ensures Delivery(Step(s, t), u, e) {
        if s.pcs[t].PubHoldsSubs? {
          ForwardStep(s, t, u, e);
        } else if s.pcs[t].SubHoldsBoth? && t == u {
          ReplayStep(s, u, e);
        } else {
          QuietStep(s, t, u, e);
        }
      }
    }
  }

  ghost predicate Threads(pcs: seq<Pc>) {
    forall t :: 0 <= t < |pcs| ==> Initial(pcs[t])
  }

  lemma StartInv(pcs: seq<Pc>)
    requires Threads(pcs)
    ensures Inv(Start(pcs))
  {
    hide Delivery, Locks, Books, Start;
    StartLocks(pcs);
    StartBooks(pcs);
    forall u, e | 0 <= u < |Start(pcs).pcs| && 0 <= e < |Start(pcs).pcs| ensures Delivery(Start(pcs), u, e) {
      StartDelivery(pcs, u, e);
    }
  }

  lemma StartLocks(pcs: seq<Pc>)
    requires Threads(pcs)
    ensures Locks(Start(pcs)) && Start(pcs).pcs == pcs
  {
    forall t | 0 <= t < |pcs| ensures !HasLog(pcs[t]) && !HasSubs(pcs[t]) {
      assert Initial(pcs[t]);
    }
  }

  lemma StartBooks(pcs: seq<Pc>)
    requires Threads(pcs)
    ensures Books(Start(pcs))
  {
    forall t | 0 <= t < |pcs| ensures !Pushed(pcs[t]) && !pcs[t].SubDone? {
      assert Initial(pcs[t]);
    }
  }

  lemma StartDelivery(pcs: seq<Pc>, u: nat, e: nat)
    requires Threads(pcs) && u < |pcs| && e < |pcs|
    ensures Delivery(Start(pcs), u, e)
  {
    var s := Start(pcs);
    assert s.offered[u] == [] && s.forwardedTo[e] == [];
    assert Initial(pcs[u]);
  }

  lemma {:induction false} Reachable(pcs: seq<Pc>, schedule: seq<nat>)
    requires Threads(pcs)
    ensures Inv(Exec(pcs, schedule))
  {
    hide Inv, Step, Start, Threads;
    if schedule == [] {
      StartInv(pcs);
    } else {
      Reachable(pcs, schedule[..|schedule| - 1]);
      InvStep(Exec(pcs, schedule[..|schedule| - 1]), schedule[|schedule| - 1]);
    }
  }
}
