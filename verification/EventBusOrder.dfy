/** In which order a subscriber is offered the events of concurrent publishes. */
module EventBusOrder {
  import opened Basics
  import opened EventBusSteps
  import EventBus

  /** What `u` was offered behind its replay. */
  function Live(s: State, u: nat): seq<nat>
    requires Shape(s) && u < |s.pcs|
  {
    s.offered[u][Min(|ReplayedTo(s, u)|, |s.offered[u]|)..]
  }

  /** Somewhere in `xs`, `a` stands in front of `b`. */
  ghost predicate Before(xs: seq<nat>, a: nat, b: nat) {
    exists i, j :: 0 <= i < j < |xs| && xs[i] == a && xs[j] == b
  }

  /** The live offers are behind the replay, each event once, and exactly the
      events forwarded to `u`. */
  ghost predicate LiveInv(s: State, u: nat)
    requires Shape(s) && u < |s.pcs|
  {
    && ReplayedTo(s, u) <= s.offered[u]
    && EventBus.Distinct(Live(s, u))
    && forall e :: 0 <= e < |s.pcs| ==> (e in Live(s, u) <==> u in s.forwardedTo[e])
  }

  lemma LiveReplay(s: State, u: nat)
    requires Inv(s) && u < |s.pcs| && s.pcs[u].SubHoldsBoth?
    ensures LiveInv(Step(s, u), u)
  {
    hide Locks;
    assert Delivery(s, u, u);
    var s' := Step(s, u);
    assert [] + s.log == s.log;
    assert ReplayedTo(s', u) == s.log == s'.offered[u];
    forall e | 0 <= e < |s.pcs| ensures u !in s'.forwardedTo[e] {
      assert Delivery(s, u, e);
    }
  }

  lemma LiveForward(s: State, t: nat, u: nat)
    requires Inv(s) && t < |s.pcs| && u < |s.pcs| && s.pcs[t].PubHoldsSubs? && LiveInv(s, u)
    ensures LiveInv(Step(s, t), u)
    ensures Live(Step(s, t), u) == Live(s, u) + if s.pcs[u].SubDone? then [t] else []
  {
    OfferedByForward(s, t, u);
    hide Inv, ReplayedTo, Step;
    var s' := Step(s, t);
    assert t !in Live(s, u);
    assert Live(s', u) == Live(s, u) + if s.pcs[u].SubDone? then [t] else [];
    hide Live;
    forall e | 0 <= e < |s.pcs| ensures e in Live(s', u) <==> u in s'.forwardedTo[e] {
      if e != t { assert s'.forwardedTo[e] == s.forwardedTo[e]; }
    }
  }

  lemma OfferedByForward(s: State, t: nat, u: nat)
    requires Inv(s) && t < |s.pcs| && u < |s.pcs| && s.pcs[t].PubHoldsSubs?
    ensures var s' := Step(s, t);
            && s'.offered[u] == s.offered[u] + (if s.pcs[u].SubDone? then [t] else [])
            && ReplayedTo(s', u) == ReplayedTo(s, u)
            && s'.forwardedTo == s.forwardedTo[t := s.registered]
            && u !in s.forwardedTo[t] && (u in s.registered <==> s.pcs[u].SubDone?)
  {
    hide Locks, Last20;
    assert Delivery(s, u, t);
  }

  lemma LiveQuiet(s: State, t: nat, u: nat)
    requires Inv(s) && u < |s.pcs| && LiveInv(s, u)
    requires Enabled(s, t) ==> !s.pcs[t].PubHoldsSubs? && !(s.pcs[t].SubHoldsBoth? && t == u)
    ensures LiveInv(Step(s, t), u) && Live(Step(s, t), u) == Live(s, u)
    ensures Step(s, t).forwardedTo == s.forwardedTo
  {
    if Enabled(s, t) {
      NotReplayedNothing(s, t, u);
    }
  }

  lemma NotReplayedNothing(s: State, t: nat, u: nat)
    requires Inv(s) && u < |s.pcs| && Enabled(s, t)
    requires !s.pcs[t].PubHoldsSubs? && !(s.pcs[t].SubHoldsBoth? && t == u)
    ensures var s' := Step(s, t);
            s'.offered[u] == s.offered[u] && ReplayedTo(s', u) == ReplayedTo(s, u) && s'.forwardedTo == s.forwardedTo
  {
    hide Locks, Books, Deliveries;
  }

  lemma {:induction false} LiveReachable(pcs: seq<Pc>, schedule: seq<nat>, u: nat)
    requires Threads(pcs) && u < |pcs|
    ensures Inv(Exec(pcs, schedule)) && LiveInv(Exec(pcs, schedule), u)
  {
    Reachable(pcs, schedule);
    if schedule == [] {
      StartLive(pcs, u);
    } else {
      hide Inv, LiveInv, Step, Start;
      var before, t := schedule[..|schedule| - 1], schedule[|schedule| - 1];
      var s := Exec(pcs, before);
      LiveReachable(pcs, before, u);
      if Enabled(s, t) && s.pcs[t].PubHoldsSubs? {
        LiveForward(s, t, u);
      } else if Enabled(s, t) && s.pcs[t].SubHoldsBoth? && t == u {
        LiveReplay(s, u);
      } else {
        LiveQuiet(s, t, u);
      }
    }
  }

  lemma StartLive(pcs: seq<Pc>, u: nat)
    requires Threads(pcs) && u < |pcs|
    ensures LiveInv(Start(pcs), u)
  {
    assert Initial(pcs[u]);
  }

  // ----- who is done first -----

  /** At some time in the run `a` had been forwarded and `b` had not. */
  ghost predicate DoneFirst(pcs: seq<Pc>, schedule: seq<nat>, a: nat, b: nat)
    requires a < |pcs| && b < |pcs|
  {
    exists k :: 0 <= k <= |schedule| && AheadAt(Exec(pcs, schedule[..k]), a, b)
  }

  predicate AheadAt(s: State, a: nat, b: nat)
    requires a < |s.pcs| && b < |s.pcs|
  {
    s.pcs[a].PubDone? && !s.pcs[b].PubDone?
  }

  lemma {:induction false} DoneStays(pcs: seq<Pc>, schedule: seq<nat>, k: nat, e: nat)
    requires k <= |schedule| && e < |pcs| && Exec(pcs, schedule[..k]).pcs[e].PubDone?
    ensures Exec(pcs, schedule).pcs[e].PubDone?
  {
    if k == |schedule| {
      assert schedule[..k] == schedule;
    } else {
      var before := schedule[..|schedule| - 1];
      assert before[..k] == schedule[..k];
      DoneStays(pcs, before, k, e);
    }
  }

  /** What one more step adds to the question. */
  lemma DoneFirstNext(pcs: seq<Pc>, schedule: seq<nat>, a: nat, b: nat)
    requires a < |pcs| && b < |pcs| && schedule != []
    ensures DoneFirst(pcs, schedule, a, b)
       <==> DoneFirst(pcs, schedule[..|schedule| - 1], a, b) || AheadAt(Exec(pcs, schedule), a, b)
  {
    hide Exec, AheadAt;
    var before := schedule[..|schedule| - 1];
    assert schedule[..|schedule|] == schedule;
    assert forall k :: 0 <= k < |schedule| ==> before[..k] == schedule[..k];
  }

  lemma NotDoneNotFirst(pcs: seq<Pc>, schedule: seq<nat>, a: nat, b: nat)
    requires a < |pcs| && b < |pcs| && !Exec(pcs, schedule).pcs[a].PubDone?
    ensures !DoneFirst(pcs, schedule, a, b)
  {
    hide Exec;
    forall k | 0 <= k <= |schedule| && Exec(pcs, schedule[..k]).pcs[a].PubDone? ensures false {
      DoneStays(pcs, schedule, k, a);
    }
  }

  lemma NotBothFirst(pcs: seq<Pc>, schedule: seq<nat>, a: nat, b: nat)
    requires a < |pcs| && b < |pcs| && DoneFirst(pcs, schedule, a, b)
    ensures !DoneFirst(pcs, schedule, b, a)
  {
    hide Exec;
    var i :| 0 <= i <= |schedule| && AheadAt(Exec(pcs, schedule[..i]), a, b);
    forall j | 0 <= j <= |schedule| ensures !AheadAt(Exec(pcs, schedule[..j]), b, a) {
      if i <= j && AheadAt(Exec(pcs, schedule[..j]), b, a) {
        assert schedule[..j][..i] == schedule[..i];
        DoneStays(pcs, schedule[..j], i, a);
      } else if j < i && AheadAt(Exec(pcs, schedule[..j]), b, a) {
        assert schedule[..i][..j] == schedule[..j];
        DoneStays(pcs, schedule[..i], j, b);
      }
    }
  }

  // ----- the order -----

  lemma BeforeSnoc(xs: seq<nat>, x: nat, a: nat, b: nat)
    ensures b != x ==> (Before(xs + [x], a, b) <==> Before(xs, a, b))
    ensures b == x && a in xs ==> Before(xs + [x], a, b)
  {
    var ys := xs + [x];
    if Before(xs, a, b) {
      var i, j :| 0 <= i < j < |xs| && xs[i] == a && xs[j] == b;
      assert ys[i] == a && ys[j] == b;
    }
    if b != x && Before(ys, a, b) {
      var i, j :| 0 <= i < j < |ys| && ys[i] == a && ys[j] == b;
      assert xs[i] == a && xs[j] == b;
    }
    if b == x && a in xs {
      var i :| 0 <= i < |xs| && xs[i] == a;
      assert ys[i] == a && ys[|xs|] == b;
    }
  }

  lemma BeforeMembers(xs: seq<nat>, a: nat, b: nat)
    ensures Before(xs, a, b) ==> a in xs && b in xs
  {
  }

  /** Forwarded to `u` means done. */
  lemma LiveIsDone(s: State, u: nat, e: nat)
    requires Inv(s) && u < |s.pcs| && e < |s.pcs| && u in s.forwardedTo[e]
    ensures s.pcs[e].PubDone? && s.pcs[u].SubDone?
  {
    assert Delivery(s, u, e);
  }

  /** In every interleaving, two events forwarded to a subscriber reach it in the
      order in which their forwards ended. */
  lemma {:induction false} LiveOrderIff(pcs: seq<Pc>, schedule: seq<nat>, u: nat, a: nat, b: nat)
    requires Threads(pcs) && u < |pcs| && a < |pcs| && b < |pcs| && a != b
    requires u in Exec(pcs, schedule).forwardedTo[a] && u in Exec(pcs, schedule).forwardedTo[b]
    ensures Before(Live(Exec(pcs, schedule), u), a, b) <==> DoneFirst(pcs, schedule, a, b)
    decreases |schedule|, 1
  {
    if schedule == [] {
      assert false;
    } else {
      var before, t := schedule[..|schedule| - 1], schedule[|schedule| - 1];
      var s := Exec(pcs, before);
      LiveReachable(pcs, before, u);
      LiveReachable(pcs, schedule, u);
      LiveIsDone(Exec(pcs, schedule), u, a);
      LiveIsDone(Exec(pcs, schedule), u, b);
      DoneFirstNext(pcs, schedule, a, b);
      if Enabled(s, t) && s.pcs[t].PubHoldsSubs? {
        LiveForward(s, t, u);
        OrderAfterForward(pcs, schedule, u, a, b);
      } else if Enabled(s, t) && s.pcs[t].SubHoldsBoth? && t == u {
        LiveIsDone(s, u, a);
      } else {
        LiveQuiet(s, t, u);
        LiveOrderIff(pcs, before, u, a, b);
      }
    }
  }

  lemma ExecLast(pcs: seq<Pc>, schedule: seq<nat>)
    requires schedule != []
    ensures Exec(pcs, schedule) == Step(Exec(pcs, schedule[..|schedule| - 1]), schedule[|schedule| - 1])
  {
  }

  lemma ForwardFacts(s: State, t: nat)
    requires Shape(s) && Enabled(s, t) && s.pcs[t].PubHoldsSubs?
    ensures var s' := Step(s, t);
            && s'.pcs == s.pcs[t := PubDone] && s'.forwardedTo == s.forwardedTo[t := s.registered]
  {
  }

  lemma AheadNow(pcs: seq<Pc>, schedule: seq<nat>, a: nat, b: nat)
    requires a < |pcs| && b < |pcs| && AheadAt(Exec(pcs, schedule), a, b)
    ensures DoneFirst(pcs, schedule, a, b)
  {
    assert schedule[..|schedule|] == schedule;
  }

  /** The step that ends the forward of `t`. */
  lemma {:induction false} OrderAfterForward(pcs: seq<Pc>, schedule: seq<nat>, u: nat, a: nat, b: nat)
    requires Threads(pcs) && u < |pcs| && a < |pcs| && b < |pcs| && a != b && schedule != []
    requires u in Exec(pcs, schedule).forwardedTo[a] && u in Exec(pcs, schedule).forwardedTo[b]
    requires var s, t := Exec(pcs, schedule[..|schedule| - 1]), schedule[|schedule| - 1];
             Enabled(s, t) && s.pcs[t].PubHoldsSubs?
    ensures Before(Live(Exec(pcs, schedule), u), a, b) <==> DoneFirst(pcs, schedule, a, b)
    decreases |schedule|, 0
  {
    hide Exec, Inv, Step, Live, Before, DoneFirst;
    var before, t := schedule[..|schedule| - 1], schedule[|schedule| - 1];
    var s, s' := Exec(pcs, before), Exec(pcs, schedule);
    ExecLast(pcs, schedule);
    LiveReachable(pcs, before, u);
    LiveReachable(pcs, schedule, u);
    LiveForward(s, t, u);
    LiveIsDone(s', u, a);
    LiveIsDone(s', u, b);
    DoneFirstNext(pcs, schedule, a, b);
    ForwardFacts(s, t);
    BeforeSnoc(Live(s, u), t, a, b);
    if t == a {
      NotDoneNotFirst(pcs, before, a, b);
      if u in s.forwardedTo[a] { LiveIsDone(s, u, a); }
      BeforeMembers(Live(s, u), a, b);
    } else if t == b {
      LiveIsDone(s, u, a);
      AheadNow(pcs, before, a, b);
    } else {
      LiveOrderIff(pcs, before, u, a, b);
    }
  }

  // ----- one publish at a time -----

  predicate InFlight(pc: Pc) {
    pc.PubWantsSubs? || pc.PubHoldsSubs?
  }

  /** No two publishers are ever between their push and the end of their forward. */
  ghost predicate OneAtATime(pcs: seq<Pc>, schedule: seq<nat>) {
    forall k :: 0 <= k <= |schedule| ==> OneInFlight(Exec(pcs, schedule[..k]))
  }

  ghost predicate OneInFlight(s: State) {
    forall a, b :: 0 <= a < |s.pcs| && 0 <= b < |s.pcs| && InFlight(s.pcs[a]) && InFlight(s.pcs[b]) ==> a == b
  }

  lemma OneAtATimeBefore(pcs: seq<Pc>, schedule: seq<nat>)
    requires schedule != [] && OneAtATime(pcs, schedule)
    ensures OneAtATime(pcs, schedule[..|schedule| - 1]) && OneInFlight(Exec(pcs, schedule))
  {
    hide Exec, OneInFlight;
    var before := schedule[..|schedule| - 1];
    assert schedule[..|schedule|] == schedule;
    assert forall k :: 0 <= k <= |before| ==> before[..k] == schedule[..k];
  }

  /** What a step does to the history: nothing, or it pushes its own thread. */
  lemma HistoryStep(s: State, t: nat)
    requires Shape(s)
    ensures Step(s, t).history == s.history
         || (Enabled(s, t) && Step(s, t).history == s.history + [t] && Step(s, t).pcs == s.pcs[t := PubWantsSubs])
  {
  }

  /** Then whoever is pushed later is pushed after the earlier one was done. */
  lemma {:induction false} PushedAfterDone(pcs: seq<Pc>, schedule: seq<nat>, a: nat, b: nat)
    requires Threads(pcs) && a < |pcs| && b < |pcs| && a != b && OneAtATime(pcs, schedule)
    requires Before(Exec(pcs, schedule).history, a, b)
    ensures DoneFirst(pcs, schedule, a, b)
    decreases |schedule|
  {
    hide Step, Before, DoneFirst, Locks, Deliveries, Last20;
    if schedule == [] {
      BeforeMembers(Exec(pcs, schedule).history, a, b);
    } else {
      var before, t := schedule[..|schedule| - 1], schedule[|schedule| - 1];
      var s, s' := Exec(pcs, before), Exec(pcs, schedule);
      OneAtATimeBefore(pcs, schedule);
      Reachable(pcs, schedule);
      DoneFirstNext(pcs, schedule, a, b);
      HistoryStep(s, t);
      BeforeSnoc(s.history, t, a, b);
      if Before(s.history, a, b) {
        PushedAfterDone(pcs, before, a, b);
      } else {
        BeforeMembers(s'.history, a, b);
        assert t == b && Pushed(s'.pcs[a]) && InFlight(s'.pcs[b]);
        assert AheadAt(s', a, b);
      }
    }
  }

  lemma BeforeOneWay(xs: seq<nat>, a: nat, b: nat)
    requires a in xs && b in xs && a != b
    ensures Before(xs, a, b) || Before(xs, b, a)
  {
    var i :| 0 <= i < |xs| && xs[i] == a;
    var j :| 0 <= j < |xs| && xs[j] == b;
    assert i < j || j < i;
  }

  /** When publishes do not overlap, a subscriber is offered live events in the
      order of the log. */
  lemma LiveInLogOrder(pcs: seq<Pc>, schedule: seq<nat>, u: nat, a: nat, b: nat)
    requires Threads(pcs) && OneAtATime(pcs, schedule) && u < |pcs| && a < |pcs| && b < |pcs| && a != b
    requires u in Exec(pcs, schedule).forwardedTo[a] && u in Exec(pcs, schedule).forwardedTo[b]
    ensures Before(Live(Exec(pcs, schedule), u), a, b) <==> Before(Exec(pcs, schedule).history, a, b)
  {
    hide Exec, Before, DoneFirst, Locks, Deliveries, Last20, Live, OneAtATime;
    var s := Exec(pcs, schedule);
    Reachable(pcs, schedule);
    LiveIsDone(s, u, a);
    LiveIsDone(s, u, b);
    LiveOrderIff(pcs, schedule, u, a, b);
    BeforeOneWay(s.history, a, b);
    if Before(s.history, a, b) {
      PushedAfterDone(pcs, schedule, a, b);
    } else {
      PushedAfterDone(pcs, schedule, b, a);
      NotBothFirst(pcs, schedule, b, a);
    }
  }
}
