/** What the interleaved steps guarantee: no gap, at most one duplicate, no deadlock. */
module EventBusInterleaving {
  import opened Basics
  import opened EventBusSteps

  // ----- delivery -----

  /** Some time during the run, `u` had replayed an event log with `e` in it and
      not registered yet, while `e` was pushed and not forwarded yet. */
  ghost predicate SubscribedBetween(pcs: seq<Pc>, schedule: seq<nat>, u: nat, e: nat)
    requires u < |pcs| && e < |pcs|
  {
    exists k :: 0 <= k <= |schedule| && Between(Exec(pcs, schedule[..k]), u, e)
  }

  predicate Between(s: State, u: nat, e: nat)
    requires Shape(s) && u < |s.pcs| && e < |s.pcs|
  {
    s.pcs[u].SubReplayed? && s.pcs[e].PubWantsSubs? && e in ReplayedTo(s, u)
  }

  /** What having subscribed between the two steps leaves behind. */
  predicate Straddles(s: State, u: nat, e: nat)
    requires Shape(s) && u < |s.pcs| && e < |s.pcs|
  {
    e in ReplayedTo(s, u) && (!s.pcs[e].PubDone? || u in s.forwardedTo[e])
  }

  lemma StraddleOwnReplay(s: State, u: nat, e: nat)
    requires Inv(s) && u < |s.pcs| && e < |s.pcs| && s.pcs[u].SubHoldsBoth?
    ensures Straddles(Step(s, u), u, e) <==> Straddles(s, u, e) || Between(Step(s, u), u, e)
  {
    hide Last20;
    assert ReplayedTo(s, u) == [];
    assert Delivery(s, u, e);
    if Straddles(Step(s, u), u, e) {
      assert e in s.history;
      assert !HasSubs(s.pcs[e]);
    }
  }

  lemma StraddleForward(s: State, u: nat, e: nat)
    requires Inv(s) && u < |s.pcs| && e < |s.pcs| && s.pcs[e].PubHoldsSubs?
    ensures Straddles(Step(s, e), u, e) <==> Straddles(s, u, e) || Between(Step(s, e), u, e)
  {
    hide Deliveries, Last20;
    assert HasSubs(s.pcs[e]);
    if Straddles(s, u, e) {
      assert !HasSubs(s.pcs[u]);
    }
  }

  lemma StraddleQuiet(s: State, t: nat, u: nat, e: nat)
    requires Inv(s) && u < |s.pcs| && e < |s.pcs| && Enabled(s, t)
    requires !(s.pcs[t].SubHoldsBoth? && t == u) && !(s.pcs[t].PubHoldsSubs? && t == e)
    ensures Straddles(Step(s, t), u, e) == Straddles(s, u, e)
    ensures Between(Step(s, t), u, e) ==> Straddles(Step(s, t), u, e)
  {
    QuietFields(s, t, u, e);
    hide Inv, Step, Enabled;
    assert ReplayedTo(Step(s, t), u) == ReplayedTo(s, u);
  }

  /** The fields the claim is about, over any other step. */
  lemma QuietFields(s: State, t: nat, u: nat, e: nat)
    requires Shape(s) && u < |s.pcs| && e < |s.pcs| && Enabled(s, t)
    requires !(s.pcs[t].SubHoldsBoth? && t == u) && !(s.pcs[t].PubHoldsSubs? && t == e)
    ensures var s' := Step(s, t);
            && s'.seen[u] == s.seen[u] && s'.forwardedTo[e] == s.forwardedTo[e]
            && Replayed(s'.pcs[u]) == Replayed(s.pcs[u]) && s'.pcs[e].PubDone? == s.pcs[e].PubDone?
  {
  }

  lemma StraddleStep(s: State, t: nat, u: nat, e: nat)
    requires Inv(s) && u < |s.pcs| && e < |s.pcs|
    ensures Straddles(Step(s, t), u, e) <==> Straddles(s, u, e) || Between(Step(s, t), u, e)
  {
    if !Enabled(s, t) {
    } else if s.pcs[t].SubHoldsBoth? && t == u {
      hide *;
      StraddleOwnReplay(s, u, e);
    } else if s.pcs[t].PubHoldsSubs? && t == e {
      hide *;
      StraddleForward(s, u, e);
    } else {
      hide *;
      StraddleQuiet(s, t, u, e);
    }
  }

  lemma {:induction false} StraddlesIff(pcs: seq<Pc>, schedule: seq<nat>, u: nat, e: nat)
    requires Threads(pcs) && u < |pcs| && e < |pcs|
    ensures SubscribedBetween(pcs, schedule, u, e) <==> Straddles(Exec(pcs, schedule), u, e)
  {
    hide Inv, Between, Straddles, Step;
    var n := |schedule|;
    assert schedule[..n] == schedule;
    if n == 0 {
      StraddlesAtStart(pcs, u, e);
    } else {
      var before := schedule[..n - 1];
      StraddlesIff(pcs, before, u, e);
      Reachable(pcs, before);
      StraddleStep(Exec(pcs, before), schedule[n - 1], u, e);
      assert forall k :: 0 <= k < n ==> before[..k] == schedule[..k];
    }
  }

  lemma StraddlesAtStart(pcs: seq<Pc>, u: nat, e: nat)
    requires Threads(pcs) && u < |pcs| && e < |pcs|
    ensures !Straddles(Start(pcs), u, e) && !Between(Start(pcs), u, e)
  {
  }

  /** No gap and at most one duplicate, in every interleaving: an event among
      the last twenty when `u` replayed, or pushed later and forwarded, is
      offered to `u` once or twice, and an event pushed after the replay never
      twice; twice exactly when it has been forwarded and the subscribe fell
      between its two steps. An event forwarded before and no longer in the log
      is not offered at all. */
  lemma NoGapOneDuplicate(pcs: seq<Pc>, schedule: seq<nat>, u: nat, e: nat)
    requires Threads(pcs) && u < |pcs| && e < |pcs|
    ensures var s := Exec(pcs, schedule);
            && Times(u, e, s) <= 2
            && (Replayed(s.pcs[u]) && e in ReplayedTo(s, u) ==> 1 <= Times(u, e, s))
            && (Replayed(s.pcs[u]) && e !in s.seen[u] && s.pcs[e].PubDone? ==> Times(u, e, s) == 1)
            && (Times(u, e, s) == 2 <==> s.pcs[e].PubDone? && SubscribedBetween(pcs, schedule, u, e))
  {
    var s := Exec(pcs, schedule);
    Reachable(pcs, schedule);
    StraddlesIff(pcs, schedule, u, e);
    assert Delivery(s, u, e);
  }

  lemma ExecNext(pcs: seq<Pc>, before: seq<nat>, t: nat)
    ensures Exec(pcs, before + [t]) == Step(Exec(pcs, before), t)
  {
    assert (before + [t])[..|before|] == before;
  }

  /** A subscriber that missed nothing can still see two concurrent events in
      the opposite order to the log: order is only kept when publishes do not
      overlap. */
  lemma ForwardingCanReorder()
    ensures exists pcs: seq<Pc>, schedule: seq<nat> ::
              Threads(pcs) && |pcs| == 3
              && Exec(pcs, schedule).history == [1, 2] && Exec(pcs, schedule).offered[0] == [2, 1]
  {
    hide Exec, Step;
    var pcs := [SubWantsSubs, PubWantsLog, PubWantsLog];
    var schedule := [] + [0] + [0] + [0] + [0];
    OneSubscribes();
    TwoPushes(pcs, schedule);
    SwappedForwards(pcs, schedule + [1] + [1] + [2] + [2]);
  }

  lemma OneSubscribes()
    ensures var s := Exec([SubWantsSubs, PubWantsLog, PubWantsLog], [] + [0] + [0] + [0] + [0]);
            s.pcs == [SubDone, PubWantsLog, PubWantsLog] && s.log == s.history == [] && s.registered == [0]
            && s.logLock == s.subsLock == None && s.offered == [[], [], []]
  {
    hide Exec;
    var pcs := [SubWantsSubs, PubWantsLog, PubWantsLog];
    assert Exec(pcs, []) == Start(pcs) by { AtStart(pcs); }
    ExecNext(pcs, [], 0);
    ExecNext(pcs, [] + [0], 0);
    ExecNext(pcs, [] + [0] + [0], 0);
    ExecNext(pcs, [] + [0] + [0] + [0], 0);
  }

  lemma AtStart(pcs: seq<Pc>)
    ensures Exec(pcs, []) == Start(pcs)
  {
  }

  lemma TwoPushes(pcs: seq<Pc>, schedule: seq<nat>)
    requires var s := Exec(pcs, schedule);
             s.pcs == [SubDone, PubWantsLog, PubWantsLog] && s.log == s.history == [] && s.registered == [0]
             && s.logLock == s.subsLock == None && s.offered == [[], [], []]
    ensures var s := Exec(pcs, schedule + [1] + [1] + [2] + [2]);
            s.pcs == [SubDone, PubWantsSubs, PubWantsSubs] && s.history == [1, 2] && s.registered == [0]
            && s.subsLock == None && s.offered == [[], [], []]
  {
    ExecNext(pcs, schedule, 1);
    ExecNext(pcs, schedule + [1], 1);
    ExecNext(pcs, schedule + [1] + [1], 2);
    ExecNext(pcs, schedule + [1] + [1] + [2], 2);
  }

  lemma SwappedForwards(pcs: seq<Pc>, schedule: seq<nat>)
    requires var s := Exec(pcs, schedule);
             s.pcs == [SubDone, PubWantsSubs, PubWantsSubs] && s.history == [1, 2] && s.registered == [0]
             && s.subsLock == None && s.offered == [[], [], []]
    ensures var s := Exec(pcs, schedule + [2] + [2] + [1] + [1]);
            s.history == [1, 2] && s.offered[0] == [2, 1]
  {
    ExecNext(pcs, schedule, 2);
    ExecNext(pcs, schedule + [2], 2);
    ExecNext(pcs, schedule + [2] + [2], 1);
    ExecNext(pcs, schedule + [2] + [2] + [1], 1);
  }

  // ----- no deadlock -----

  /** The holder of the log lock never waits, and as long as any thread is
      unfinished some unfinished thread can move. */
  lemma NeverStuck(pcs: seq<Pc>, schedule: seq<nat>)
    requires Threads(pcs)
    ensures var s := Exec(pcs, schedule);
            && (s.logLock.Some? ==> Enabled(s, s.logLock.value))
            && ((exists t :: 0 <= t < |pcs| && !Finished(s.pcs[t])) ==> (exists t :: Enabled(s, t)))
  {
    var s := Exec(pcs, schedule);
    Reachable(pcs, schedule);
    hide Books, Deliveries, Exec;
    if t :| 0 <= t < |pcs| && !Finished(s.pcs[t]) {
      if s.logLock.Some? {
        assert Enabled(s, s.logLock.value);
      } else if s.subsLock.Some? {
        assert Enabled(s, s.subsLock.value);
      } else {
        assert Enabled(s, t);
      }
    }
  }

  function StepsLeft(pc: Pc): nat {
    match pc
    case PubWantsLog => 4
    case PubHoldsLog => 3
    case PubWantsSubs => 2
    case PubHoldsSubs => 1
    case SubWantsSubs => 4
    case SubWantsLog => 3
    case SubHoldsBoth => 2
    case SubReplayed => 1
    case _ => 0
  }

  function Remaining(pcs: seq<Pc>): nat {
    if pcs == [] then 0 else StepsLeft(pcs[0]) + Remaining(pcs[1..])
  }

  lemma {:induction false} RemainingUpdate(pcs: seq<Pc>, t: nat, pc: Pc)
    requires t < |pcs|
    ensures Remaining(pcs[t := pc]) + StepsLeft(pcs[t]) == Remaining(pcs) + StepsLeft(pc)
  {
    if t == 0 {
      assert pcs[t := pc][1..] == pcs[1..];
    } else {
      RemainingUpdate(pcs[1..], t - 1, pc);
      assert pcs[t := pc][1..] == pcs[1..][t - 1 := pc];
    }
  }

  /** How many steps of a schedule found their thread able to move. */
  function Moves(pcs: seq<Pc>, schedule: seq<nat>): nat {
    if schedule == [] then 0
    else
      var before := schedule[..|schedule| - 1];
      Moves(pcs, before) + if Enabled(Exec(pcs, before), schedule[|schedule| - 1]) then 1 else 0
  }

  /** Every call takes four steps: with `NeverStuck`, a schedule that keeps
      choosing threads that can move finishes every call. */
  lemma {:induction false} EveryMoveCounts(pcs: seq<Pc>, schedule: seq<nat>)
    requires Threads(pcs)
    ensures Moves(pcs, schedule) + Remaining(Exec(pcs, schedule).pcs) == 4 * |pcs|
  {
    hide Step, Enabled, Remaining, Threads;
    if schedule == [] {
      AllRemaining(pcs);
    } else {
      var before, t := schedule[..|schedule| - 1], schedule[|schedule| - 1];
      var s := Exec(pcs, before);
      EveryMoveCounts(pcs, before);
      MoveCounts(s, t);
    }
  }

  lemma MoveCounts(s: State, t: nat)
    requires Shape(s)
    ensures Remaining(s.pcs) == Remaining(Step(s, t).pcs) + if Enabled(s, t) then 1 else 0
  {
    hide Remaining;
    if Enabled(s, t) {
      RemainingUpdate(s.pcs, t, Step(s, t).pcs[t]);
      assert Step(s, t).pcs == s.pcs[t := Step(s, t).pcs[t]];
    }
  }

  lemma {:induction false} AllRemaining(pcs: seq<Pc>)
    requires Threads(pcs)
    ensures Remaining(pcs) == 4 * |pcs|
  {
    if pcs == [] {
    } else {
      assert Initial(pcs[0]);
      AllRemaining(pcs[1..]);
    }
  }
}
