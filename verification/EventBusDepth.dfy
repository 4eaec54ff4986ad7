/** How deep a subscriber's channel is: which events it is sure to get, over all
    runs of the bus. */
module EventBusDepth {
  import opened Basics
  import opened EventBus

  lemma RunNext<E>(ops: seq<Op<E>>, op: Op<E>)
    ensures RunOps(ops + [op]) == Apply(RunOps(ops), op)
  {
    assert (ops + [op])[..|ops|] == ops;
  }

  /** What one operation does to a channel that is already there. */
  function After<E>(ch: Channel<E>, i: nat, op: Op<E>): Channel<E> {
    match op
    case DoPublish(e) => if ch.closed || Unread(ch) >= 40 then ch else ch.(accepted := ch.accepted + [e])
    case DoSubscribe => ch
    case DoTake(j) => if j == i && Unread(ch) > 0 then ch.(taken := ch.taken + 1) else ch
    case DoClose(j) => if j == i then ch.(closed := true) else ch
  }

  /** An event reaches an open subscriber exactly when fewer than forty others
      wait for it; nobody else's reading or leaving touches its channel. */
  lemma ChannelStep<E>(ops: seq<Op<E>>, op: Op<E>, i: nat)
    requires i < |RunOps(ops).bus.channels|
    ensures i < |RunOps(ops + [op]).bus.channels|
    ensures RunOps(ops + [op]).bus.channels[i] == After(RunOps(ops).bus.channels[i], i, op)
  {
    RunNext(ops, op);
    RunKeepsInv(ops);
    var r := RunOps(ops);
    if op.DoPublish? {
      hide RunOps, Apply, RunInv, IsFull;
      PublishEffect(r, op.event, i);
      SentIff(r.bus.channels[i], op.event);
    } else {
      QuietStep(r, op, i);
    }
  }

  /** A channel takes an event exactly when fewer than forty wait in it. */
  lemma SentIff<E>(ch: Channel<E>, e: E)
    ensures TrySend(ch, e) == if ch.closed || Unread(ch) >= 40 then ch else ch.(accepted := ch.accepted + [e])
  {
  }

  lemma QuietStep<E>(r: Run<E>, op: Op<E>, i: nat)
    requires Consistent(r) && !op.DoPublish? && i < |r.bus.channels|
    ensures var r' := Apply(r, op); i < |r'.bus.channels| && r'.bus.channels[i] == After(r.bus.channels[i], i, op)
  {
  }

  /** A new subscriber starts with the last twenty events and nothing read. */
  lemma ChannelOpens<E>(ops: seq<Op<E>>)
    ensures var before, after := RunOps(ops), RunOps(ops + [DoSubscribe]);
            && after.bus.channels == before.bus.channels + [Channel(before.bus.log, 0, false)]
            && before.bus.log == before.history[SatSub(|before.history|, 20)..]
  {
    RunNext(ops, DoSubscribe);
    RunKeepsInv(ops);
    var log := RunOps(ops).bus.log;
    hide Replayed;
    ReplayKeepsAll(log, Channel([], 0, false));
    assert [] + log == log;
  }

  /** No channel ever holds more than forty unread events. */
  lemma {:induction false} NeverDeeper<E>(ops: seq<Op<E>>, i: nat)
    requires i < |RunOps(ops).bus.channels|
    ensures 0 <= Unread(RunOps(ops).bus.channels[i]) <= 40
  {
    hide Apply, RunOps;
    if ops == [] {
      NoChannels<E>();
    } else {
      var before, op := ops[..|ops| - 1], ops[|ops| - 1];
      assert ops == before + [op];
      if i < |RunOps(before).bus.channels| {
        NeverDeeper(before, i);
        ChannelStep(before, op, i);
      } else {
        OnlySubscribeAdds(before, op);
        ChannelOpens(before);
      }
    }
  }

  lemma NoChannels<E>()
    ensures RunOps<E>([]).bus.channels == []
  {
  }

  lemma OnlySubscribeAdds<E>(ops: seq<Op<E>>, op: Op<E>)
    ensures |RunOps(ops + [op]).bus.channels| == |RunOps(ops).bus.channels| + if op.DoSubscribe? then 1 else 0
  {
    RunNext(ops, op);
  }

  /** The events published by `ops`. */
  function Events<E>(ops: seq<Op<E>>): seq<E> {
    if ops == [] then []
    else
      var last := ops[|ops| - 1];
      Events(ops[..|ops| - 1]) + if last.DoPublish? then [last.event] else []
  }

  /** The first twenty events behind a subscribe all arrive, behind the replay and
      in order, even if the subscriber has read nothing yet, whatever others do. */
  lemma {:induction false} FirstTwentyArrive<E>(ops: seq<Op<E>>, more: seq<Op<E>>)
    requires |Events(more)| <= 20
    requires DoClose(|RunOps(ops).bus.channels|) !in more
    ensures var id := |RunOps(ops).bus.channels|;
            var r := RunOps(ops + [DoSubscribe] + more);
            && id < |r.bus.channels| && !r.bus.channels[id].closed
            && r.bus.channels[id].accepted == RunOps(ops).bus.log + Events(more)
    decreases |more|
  {
    hide Apply, RunOps;
    var id, log, start := |RunOps(ops).bus.channels|, RunOps(ops).bus.log, ops + [DoSubscribe];
    ChannelOpens(ops);
    if more == [] {
      assert start + more == start && log + [] == log;
    } else {
      var before, op := more[..|more| - 1], more[|more| - 1];
      assert start + more == (start + before) + [op];
      assert forall x :: x in before ==> x in more;
      FirstTwentyArrive(ops, before);
      ChannelStep(start + before, op, id);
      LogIsShort(ops);
      NeverDeeper(start + before, id);
      assert op in more;
      if op.DoPublish? {
        assert log + Events(before) + [op.event] == log + (Events(before) + [op.event]);
        TakenIsCounted(start + before, id);
      } else {
        assert Events(before) + [] == Events(before);
      }
    }
  }

  lemma LogIsShort<E>(ops: seq<Op<E>>)
    ensures |RunOps(ops).bus.log| <= 20
  {
    RunKeepsInv(ops);
  }

  lemma TakenIsCounted<E>(ops: seq<Op<E>>, i: nat)
    requires i < |RunOps(ops).bus.channels|
    ensures Unread(RunOps(ops).bus.channels[i]) <= |RunOps(ops).bus.channels[i].accepted|
  {
  }

  /** A subscriber that left gets nothing any more. */
  lemma {:induction false} ClosedGetsNothing<E>(ops: seq<Op<E>>, more: seq<Op<E>>, i: nat)
    requires i < |RunOps(ops).bus.channels|
    ensures var r := RunOps(ops + [DoClose(i)] + more);
            && i < |r.bus.channels| && r.bus.channels[i].closed
            && r.bus.channels[i].accepted == RunOps(ops).bus.channels[i].accepted
    decreases |more|
  {
    hide Apply, RunOps;
    var left: seq<Op<E>> := ops + [DoClose(i)];
    if more == [] {
      assert left + more == left;
      ChannelStep(ops, DoClose(i), i);
    } else {
      var before, op := more[..|more| - 1], more[|more| - 1];
      assert left + more == (left + before) + [op];
      ClosedGetsNothing(ops, before, i);
      ChannelStep(left + before, op, i);
    }
  }
}
