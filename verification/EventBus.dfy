/** A topic's event bus with its operations taken as atomic steps. */
module EventBus {
  import opened Basics

  const EVENT_LOG_CAPACITY: nat := 20
  const CHANNEL_CAPACITY: nat := EVENT_LOG_CAPACITY * 2

  /** A subscriber's bounded channel: everything it ever accepted, how much of
      that was received, and whether the receiver is gone. */
  datatype Channel<E> = Channel(accepted: seq<E>, taken: nat, closed: bool)

  predicate IsFull<E>(ch: Channel<E>) {
    |ch.accepted| >= ch.taken + CHANNEL_CAPACITY
  }

  /** How many events wait for the receiver. */
  function Unread<E>(ch: Channel<E>): int {
    |ch.accepted| - ch.taken
  }

  /** `try_send`: never blocks; a full or closed channel drops the event. */
  function TrySend<E>(ch: Channel<E>, e: E): Channel<E> {
    if ch.closed || IsFull(ch) then ch else ch.(accepted := ch.accepted + [e])
  }

  /** The bus: the event log, every channel ever handed out, and which of them
      are in the subscriber list. */
  datatype Bus<E> = Bus(log: seq<E>, channels: seq<Channel<E>>, subscribers: seq<nat>)

  function Pushed<E>(log: seq<E>, e: E): seq<E> {
    (if |log| >= EVENT_LOG_CAPACITY then log[1..] else log) + [e]
  }

  function Open<E>(channels: seq<Channel<E>>, subscribers: seq<nat>): (r: seq<nat>)
    requires forall k :: 0 <= k < |subscribers| ==> subscribers[k] < |channels|
    ensures forall k :: 0 <= k < |r| ==> r[k] < |channels| && r[k] in subscribers && !channels[r[k]].closed
    ensures forall i :: i in subscribers && !channels[i].closed ==> i in r
    ensures Distinct(subscribers) ==> Distinct(r)
  {
    if subscribers == [] then []
    else
      var rest := Open(channels, subscribers[1..]);
      (if channels[subscribers[0]].closed then [] else [subscribers[0]]) + rest
  }

  predicate Distinct(xs: seq<nat>) {
    forall i, j :: 0 <= i < j < |xs| ==> xs[i] != xs[j]
  }

  /** The event offered to every listed channel. */
  function Offered<E>(channels: seq<Channel<E>>, to: seq<nat>, e: E): seq<Channel<E>> {
    seq(|channels|, i requires 0 <= i < |channels| => if i in to then TrySend(channels[i], e) else channels[i])
  }

  lemma NoneOffered<E>(channels: seq<Channel<E>>, e: E)
    ensures Offered(channels, [], e) == channels
  {
  }

  lemma OfferedNext<E>(channels: seq<Channel<E>>, to: seq<nat>, i: nat, e: E)
    requires Distinct(to) && i < |to| && to[i] < |channels|
    ensures var part := Offered(channels, to[..i], e);
            && |part| == |channels|
            && Offered(channels, to[..i + 1], e) == part[to[i] := TrySend(part[to[i]], e)]
  {
    assert to[..i + 1] == to[..i] + [to[i]];
    assert to[i] !in to[..i];
  }

  /** The channels a subscriber list names exist, each at most once. */
  predicate ValidBus<E>(b: Bus<E>) {
    && (forall k :: 0 <= k < |b.subscribers| ==> b.subscribers[k] < |b.channels|)
    && Distinct(b.subscribers)
  }

  /** `publish`: into the log, then to every open subscriber. */
  function Publish<E>(b: Bus<E>, e: E): Bus<E>
    requires ValidBus(b)
  {
    var live := Open(b.channels, b.subscribers);
    Bus(Pushed(b.log, e), Offered(b.channels, live, e), live)
  }

  function Replayed<E>(log: seq<E>, ch: Channel<E>): Channel<E>
    decreases |log|
  {
    if log == [] then ch else Replayed(log[1..], TrySend(ch, log[0]))
  }

  /** `subscribe`: a new channel with the log replayed into it. */
  function Subscribe<E>(b: Bus<E>): Bus<E> {
    Bus(b.log, b.channels + [Replayed(b.log, Channel([], 0, false))], b.subscribers + [|b.channels|])
  }

  /** The receiver of channel `i` takes one event, if there is one. */
  function Take<E>(b: Bus<E>, i: nat): Bus<E> {
    if i < |b.channels| && b.channels[i].taken < |b.channels[i].accepted| then
      b.(channels := b.channels[i := b.channels[i].(taken := b.channels[i].taken + 1)])
    else b
  }

  /** The receiver of channel `i` goes away. */
  function Close<E>(b: Bus<E>, i: nat): Bus<E> {
    if i < |b.channels| then b.(channels := b.channels[i := b.channels[i].(closed := true)]) else b
  }

  // ----- in place -----

  class SimpleThreadEventBus<E> {
    var eventLog: seq<E>
    var channels: seq<Channel<E>>
    var subscribers: seq<nat>

    function Value(): Bus<E>
      reads this
    {
      Bus(eventLog, channels, subscribers)
    }

    constructor ()
      ensures Value() == Bus([], [], []) && ValidBus(Value())
    {
      eventLog, channels, subscribers := [], [], [];
    }

    method PublishEvent(e: E)
      requires ValidBus(Value())
      modifies this
      ensures Value() == Publish(old(Value()), e) && ValidBus(Value())
    {
      if |eventLog| >= EVENT_LOG_CAPACITY {
        eventLog := eventLog[1..];
      }
      eventLog := eventLog + [e];
      ForwardToSubscribers(e);
    }

    method ForwardToSubscribers(e: E)
      requires ValidBus(Value())
      modifies this
      ensures eventLog == old(eventLog)
      ensures subscribers == Open(old(channels), old(subscribers))
      ensures channels == Offered(old(channels), subscribers, e)
    {
      hide Offered, TrySend, Open;
      subscribers := Open(channels, subscribers);
      ghost var before := channels;
      NoneOffered(channels, e);
      var i := 0;
      while i < |subscribers|
        invariant i <= |subscribers| && subscribers == Open(before, old(subscribers))
        invariant eventLog == old(eventLog) && |channels| == |before|
        invariant channels == Offered(before, subscribers[..i], e)
      {
        OfferedNext(before, subscribers, i, e);
        channels := channels[subscribers[i] := TrySend(channels[subscribers[i]], e)];
        i := i + 1;
      }
      assert subscribers[..i] == subscribers;
    }

    method SubscribeChannel() returns (id: nat)
      requires ValidBus(Value())
      modifies this
      ensures Value() == Subscribe(old(Value())) && ValidBus(Value()) && id == |old(channels)|
    {
      id := |channels|;
      var tx := Channel([], 0, false);
      var i := 0;
      while i < |eventLog|
        invariant i <= |eventLog| && Value() == old(Value())
        invariant Replayed(eventLog[i..], tx) == Replayed(eventLog, Channel([], 0, false))
      {
        assert eventLog[i..][1..] == eventLog[i + 1..];
        tx := TrySend(tx, eventLog[i]);
        i := i + 1;
      }
      channels := channels + [tx];
      subscribers := subscribers + [id];
    }
  }

  // ----- runs -----

  datatype Op<E> = DoPublish(event: E) | DoSubscribe | DoTake(id: nat) | DoClose(id: nat)

  /** The bus after a run, with what the claims are about: everything published,
      and for each channel how much was published before it subscribed and
      whether a publish ever found it full. */
  datatype Run<E> = Run(bus: Bus<E>, history: seq<E>, since: seq<nat>, lagged: seq<bool>)

  predicate Consistent<E>(r: Run<E>) {
    ValidBus(r.bus) && |r.bus.channels| == |r.since| == |r.lagged|
  }

  function Apply<E>(r: Run<E>, op: Op<E>): (r': Run<E>)
    requires Consistent(r)
    ensures Consistent(r')
  {
    match op
    case DoPublish(e) =>
      var live := Open(r.bus.channels, r.bus.subscribers);
      Run(Publish(r.bus, e), r.history + [e], r.since,
          seq(|r.lagged|, i requires 0 <= i < |r.lagged| =>
            r.lagged[i] || (i in live && Unread(r.bus.channels[i]) >= 40)))
    case DoSubscribe => Run(Subscribe(r.bus), r.history, r.since + [|r.history|], r.lagged + [false])
    case DoTake(i) => r.(bus := Take(r.bus, i))
    case DoClose(i) => r.(bus := Close(r.bus, i))
  }

  /** Where the history a channel is entitled to begins. */
  function From<E>(r: Run<E>, i: nat): (from: nat)
    requires i < |r.since|
  {
    SatSub(r.since[i], 20)
  }

  /** `xs` are elements of `ys` in order, each position used at most once. */
  ghost predicate Subsequence<E>(xs: seq<E>, ys: seq<E>) {
    xs == [] ||
    (ys != [] &&
     ((xs[|xs| - 1] == ys[|ys| - 1] && Subsequence(xs[..|xs| - 1], ys[..|ys| - 1])) || Subsequence(xs, ys[..|ys| - 1])))
  }

  ghost predicate ChannelInv<E>(r: Run<E>, i: nat)
    requires i < |r.bus.channels| == |r.since| == |r.lagged|
  {
    var ch := r.bus.channels[i];
    && r.since[i] <= |r.history| && ch.taken <= |ch.accepted|
    && (i in r.bus.subscribers || ch.closed)
    && Subsequence(ch.accepted, r.history[From(r, i)..])
    && (!r.lagged[i] && !ch.closed ==> ch.accepted == r.history[From(r, i)..])
    && (!r.lagged[i] ==> ch.accepted <= r.history[From(r, i)..])
  }

  ghost predicate RunInv<E>(r: Run<E>) {
    && Consistent(r)
    && r.bus.log == r.history[SatSub(|r.history|, 20)..]
    && forall i :: 0 <= i < |r.bus.channels| ==> ChannelInv(r, i)
  }

  lemma SubsequenceGrows<E>(xs: seq<E>, ys: seq<E>, e: E)
    requires Subsequence(xs, ys)
    ensures Subsequence(xs, ys + [e]) && Subsequence(xs + [e], ys + [e])
  {
    assert (ys + [e])[..|ys|] == ys && (xs + [e])[..|xs|] == xs;
  }

  lemma {:induction false} SubsequenceOfItself<E>(xs: seq<E>)
    ensures Subsequence(xs, xs)
  {
    if xs == [] {
    } else {
      SubsequenceOfItself(xs[..|xs| - 1]);
    }
  }

  /** Replay never drops: the log is shorter than the channel is deep. */
  lemma {:induction false} ReplayKeepsAll<E>(log: seq<E>, ch: Channel<E>)
    requires !ch.closed && ch.taken == 0 && |ch.accepted| + |log| <= 40
    ensures Replayed(log, ch) == Channel(ch.accepted + log, 0, false)
    decreases |log|
  {
    if log == [] {
      assert ch.accepted + log == ch.accepted;
    } else {
      ReplayKeepsAll(log[1..], TrySend(ch, log[0]));
      assert ch.accepted + [log[0]] + log[1..] == ch.accepted + log;
    }
  }

  /** What a publish does to one channel and its records. */
  lemma PublishEffect<E>(r: Run<E>, e: E, i: nat)
    requires RunInv(r) && i < |r.bus.channels|
    ensures var r', ch := Apply(r, DoPublish(e)), r.bus.channels[i];
            && |r'.bus.channels| == |r'.since| == |r'.lagged| == |r.bus.channels|
            && r'.history == r.history + [e] && r'.since == r.since
            && r'.bus.channels[i] == (if ch.closed then ch else TrySend(ch, e))
            && r'.lagged[i] == (r.lagged[i] || (!ch.closed && Unread(ch) >= 40))
            && (i in r'.bus.subscribers || ch.closed)
  {
    hide Subsequence;
    assert ChannelInv(r, i);
    var live := Open(r.bus.channels, r.bus.subscribers);
    assert i in live <==> !r.bus.channels[i].closed;
  }

  /** Offering one more event keeps what a channel got in step with the history. */
  lemma OfferKeeps<E>(ch: Channel<E>, before: seq<E>, e: E, lagged: bool)
    requires Subsequence(ch.accepted, before)
    requires !lagged ==> ch.accepted <= before && (!ch.closed ==> ch.accepted == before)
    ensures var ch' := if ch.closed then ch else TrySend(ch, e);
            && Subsequence(ch'.accepted, before + [e])
            && (!lagged && (ch.closed || Unread(ch) < 40) ==>
                  ch'.accepted <= before + [e] && (!ch.closed ==> ch'.accepted == before + [e]))
  {
    SubsequenceGrows(ch.accepted, before, e);
    hide Subsequence;
  }

  lemma PublishChannel<E>(r: Run<E>, e: E, i: nat)
    requires RunInv(r) && i < |r.bus.channels|
    ensures var r' := Apply(r, DoPublish(e));
            |r'.bus.channels| == |r'.since| == |r'.lagged| == |r.bus.channels| && ChannelInv(r', i)
  {
    var ch, from := r.bus.channels[i], From(r, i);
    assert ChannelInv(r, i);
    PublishEffect(r, e, i);
    hide Subsequence, Apply, RunInv;
    var before, after := r.history[from..], (r.history + [e])[from..];
    assert after == before + [e];
    OfferKeeps(ch, before, e, r.lagged[i]);
  }

  lemma InvPublish<E>(r: Run<E>, e: E)
    requires RunInv(r)
    ensures RunInv(Apply(r, DoPublish(e)))
  {
    hide Subsequence, ChannelInv;
    forall i | 0 <= i < |r.bus.channels| ensures ChannelInv(Apply(r, DoPublish(e)), i) {
      PublishChannel(r, e, i);
    }
    var n := SatSub(|r.history|, 20);
    assert (r.history + [e])[n..] == r.history[n..] + [e];
    if |r.bus.log| >= EVENT_LOG_CAPACITY {
      assert (r.history + [e])[n + 1..] == r.history[n..][1..] + [e];
    }
  }

  lemma InvSubscribe<E>(r: Run<E>)
    requires RunInv(r)
    ensures RunInv(Apply(r, DoSubscribe))
  {
    hide Subsequence, Replayed;
    var r' := Apply(r, DoSubscribe);
    var empty: Channel<E> := Channel([], 0, false);
    ReplayKeepsAll(r.bus.log, empty);
    assert empty.accepted + r.bus.log == r.bus.log;
    SubsequenceOfItself(r.bus.log);
    forall i | 0 <= i < |r'.bus.channels| ensures ChannelInv(r', i) {
      if i < |r.bus.channels| {
        assert ChannelInv(r, i);
      }
    }
  }

  lemma InvOwn<E>(r: Run<E>, op: Op<E>)
    requires RunInv(r) && (op.DoTake? || op.DoClose?)
    ensures RunInv(Apply(r, op))
  {
    hide Subsequence;
    var r' := Apply(r, op);
    forall i | 0 <= i < |r'.bus.channels| ensures ChannelInv(r', i) {
      assert ChannelInv(r, i);
    }
  }

  lemma InvApply<E>(r: Run<E>, op: Op<E>)
    requires RunInv(r)
    ensures RunInv(Apply(r, op))
  {
    match op
    case DoPublish(e) => InvPublish(r, e);
    case DoSubscribe => InvSubscribe(r);
    case _ => InvOwn(r, op);
  }

  function Start<E>(): Run<E> {
    Run(Bus([], [], []), [], [], [])
  }

  /** A run of operations from an empty bus. */
  function RunOps<E>(ops: seq<Op<E>>): (r: Run<E>)
    ensures Consistent(r)
  {
    if ops == [] then Start() else Apply(RunOps(ops[..|ops| - 1]), ops[|ops| - 1])
  }

  lemma {:induction false} RunKeepsInv<E>(ops: seq<Op<E>>)
    ensures RunInv(RunOps(ops))
  {
    hide Apply, ChannelInv;
    if ops == [] {
    } else {
      RunKeepsInv(ops[..|ops| - 1]);
      InvApply(RunOps(ops[..|ops| - 1]), ops[|ops| - 1]);
    }
  }

  /** In every run: the log holds the last twenty events; what a subscriber was
      sent is a subsequence of the history from twenty events before it
      subscribed; and if no publish ever found its channel full it is exactly
      that history, up to where its receiver left. */
  lemma DeliveryInRuns<E>(ops: seq<Op<E>>, i: nat)
    requires i < |RunOps(ops).bus.channels|
    ensures var r := RunOps(ops);
            && |r.since| == |r.lagged| == |r.bus.channels| && r.since[i] <= |r.history|
            && r.bus.log == r.history[SatSub(|r.history|, 20)..]
            && Subsequence(r.bus.channels[i].accepted, r.history[From(r, i)..])
            && (!r.lagged[i] ==> r.bus.channels[i].accepted <= r.history[From(r, i)..])
            && (!r.lagged[i] && !r.bus.channels[i].closed ==> r.bus.channels[i].accepted == r.history[From(r, i)..])
  {
    RunKeepsInv(ops);
    assert ChannelInv(RunOps(ops), i);
  }

  // ----- one subscriber never affects another -----

  /** The run without what the receivers of other channels do. */
  function OnlyFor<E>(ops: seq<Op<E>>, j: nat): seq<Op<E>> {
    if ops == [] then []
    else
      var last := ops[|ops| - 1];
      OnlyFor(ops[..|ops| - 1], j)
      + if (last.DoTake? || last.DoClose?) && last.id != j then [] else [last]
  }

  /** Two buses that agree on channel `j` and on everything all channels share. */
  ghost predicate AgreeOn<E>(a: Bus<E>, b: Bus<E>, j: nat) {
    && a.log == b.log && |a.channels| == |b.channels|
    && (j < |a.channels| ==> a.channels[j] == b.channels[j])
    && ((j in a.subscribers && !(j < |a.channels| && a.channels[j].closed))
        <==> (j in b.subscribers && !(j < |b.channels| && b.channels[j].closed)))
  }

  lemma AgreeStep<E>(a: Run<E>, b: Run<E>, op: Op<E>, j: nat)
    requires RunInv(a) && RunInv(b) && AgreeOn(a.bus, b.bus, j)
    ensures AgreeOn(Apply(a, op).bus, Apply(b, op).bus, j)
  {
    hide ChannelInv;
    if op.DoPublish? {
      assert j in Open(a.bus.channels, a.bus.subscribers) <==> j in Open(b.bus.channels, b.bus.subscribers);
    }
  }

  lemma IgnoreStep<E>(a: Run<E>, b: Run<E>, op: Op<E>, j: nat)
    requires RunInv(a) && AgreeOn(a.bus, b.bus, j) && (op.DoTake? || op.DoClose?) && op.id != j
    ensures AgreeOn(Apply(a, op).bus, b.bus, j)
  {
    hide ChannelInv;
  }

  /** What a subscriber gets does not depend on how any other one receives, lags
      or leaves: leaving all of that out changes nothing for it. */
  lemma {:induction false} SubscribersAreIndependent<E>(ops: seq<Op<E>>, j: nat)
    ensures AgreeOn(RunOps(ops).bus, RunOps(OnlyFor(ops, j)).bus, j)
  {
    hide RunInv, Apply, AgreeOn, Consistent;
    if ops != [] {
      var before, last := ops[..|ops| - 1], ops[|ops| - 1];
      SubscribersAreIndependent(before, j);
      var a, b := RunOps(before), RunOps(OnlyFor(before, j));
      RunKeepsInv(before);
      RunKeepsInv(OnlyFor(before, j));
      if (last.DoTake? || last.DoClose?) && last.id != j {
        IgnoreStep(a, b, last, j);
        assert OnlyFor(ops, j) == OnlyFor(before, j);
      } else {
        AgreeStep(a, b, last, j);
        var kept := OnlyFor(before, j);
        assert OnlyFor(ops, j) == kept + [last];
        assert (kept + [last])[..|kept|] == kept;
      }
    } else {
      assert AgreeOn(RunOps(ops).bus, RunOps(OnlyFor(ops, j)).bus, j) by { AgreeWithItself(RunOps(ops).bus, j); }
    }
  }

  lemma AgreeWithItself<E>(a: Bus<E>, j: nat)
    ensures AgreeOn(a, a, j)
  {
  }
}
