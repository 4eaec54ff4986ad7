/** One day's billing ledger: the one-pass totals and the per-topic query. */
module Billing {
  import opened Basics

  const MIXED_CURRENCY: Bytes := Ascii("mixed")

  datatype Entry = Entry(topic: Bytes, currency: Bytes, cost: real)

  function Total(entries: seq<Entry>): real {
    if entries == [] then 0.0 else entries[0].cost + Total(entries[1..])
  }

  function OfTopic(entries: seq<Entry>, topic: Bytes): (r: seq<Entry>)
    ensures forall k :: 0 <= k < |r| ==> r[k].topic == topic && r[k] in entries
    ensures forall e :: e in entries && e.topic == topic ==> e in r
  {
    if entries == [] then []
    else (if entries[0].topic == topic then [entries[0]] else []) + OfTopic(entries[1..], topic)
  }

  function OfCurrency(entries: seq<Entry>, currency: Bytes): (r: seq<Entry>)
    ensures forall k :: 0 <= k < |r| ==> r[k].currency == currency && r[k] in entries
    ensures forall e :: e in entries && e.currency == currency ==> e in r
  {
    if entries == [] then []
    else (if entries[0].currency == currency then [entries[0]] else []) + OfCurrency(entries[1..], currency)
  }

  predicate AllIn(entries: seq<Entry>, currency: Bytes) {
    forall k :: 0 <= k < |entries| ==> entries[k].currency == currency
  }

  function Label(entries: seq<Entry>): Bytes
    requires entries != []
  {
    if AllIn(entries, entries[0].currency) then entries[0].currency else MIXED_CURRENCY
  }

  /** `date_total`: one topic's sum and currency label, nothing when it spent nothing. */
  function DateTotal(entries: seq<Entry>, topic: Bytes): Option<(real, Bytes)> {
    var own := OfTopic(entries, topic);
    if own == [] then None else Some((Total(own), Label(own)))
  }

  lemma {:induction false} TotalAppend(a: seq<Entry>, b: seq<Entry>)
    ensures Total(a + b) == Total(a) + Total(b)
  {
    if a == [] {
      assert a + b == b;
    } else {
      assert (a + b)[1..] == a[1..] + b;
      TotalAppend(a[1..], b);
    }
  }

  lemma {:induction false} OfTopicNext(entries: seq<Entry>, e: Entry, topic: Bytes)
    ensures OfTopic(entries + [e], topic) == OfTopic(entries, topic) + if e.topic == topic then [e] else []
  {
    if entries == [] {
      assert entries + [e] == [e] && [e][1..] == [];
    } else {
      OfTopicNext(entries[1..], e, topic);
      assert (entries + [e])[1..] == entries[1..] + [e];
    }
  }

  lemma {:induction false} OfCurrencyNext(entries: seq<Entry>, e: Entry, currency: Bytes)
    ensures OfCurrency(entries + [e], currency)
         == OfCurrency(entries, currency) + if e.currency == currency then [e] else []
  {
    if entries == [] {
      assert entries + [e] == [e] && [e][1..] == [];
    } else {
      OfCurrencyNext(entries[1..], e, currency);
      assert (entries + [e])[1..] == entries[1..] + [e];
    }
  }

  lemma TotalNext(entries: seq<Entry>, e: Entry)
    ensures Total(entries + [e]) == Total(entries) + e.cost
  {
    TotalAppend(entries, [e]);
    assert [e][1..] == [];
  }

  /** How one more entry changes the query's answer for its own topic. */
  function WithEntry(before: Option<(real, Bytes)>, e: Entry): (real, Bytes) {
    match before
    case None => (0.0 + e.cost, e.currency)
    case Some(b) => (b.0 + e.cost, if e.currency != b.1 then MIXED_CURRENCY else b.1)
  }

  lemma LabelNext(own: seq<Entry>, e: Entry)
    requires own != []
    ensures Label(own + [e]) == if e.currency != Label(own) then MIXED_CURRENCY else Label(own)
  {
    var more := own + [e];
    assert more[0] == own[0] && more[|own|] == e;
    if !AllIn(own, own[0].currency) {
      var k :| 0 <= k < |own| && own[k].currency != own[0].currency;
      assert more[k] == own[k];
    }
  }

  lemma DateTotalNext(entries: seq<Entry>, e: Entry, topic: Bytes)
    ensures DateTotal(entries + [e], topic)
         == if e.topic == topic then Some(WithEntry(DateTotal(entries, topic), e)) else DateTotal(entries, topic)
  {
    hide OfTopic, Label;
    var own := OfTopic(entries, topic);
    OfTopicNext(entries, e, topic);
    if e.topic == topic {
      TotalNext(own, e);
      if own != [] {
        LabelNext(own, e);
      } else {
        assert own + [e] == [e];
        OneLabel(e);
      }
    } else {
      assert own + [] == own;
    }
  }

  lemma OneLabel(e: Entry)
    ensures Label([e]) == e.currency
  {
  }

  // ----- sums over maps -----

  ghost function SumOf(m: map<Bytes, real>): real {
    if m == map[] then 0.0
    else
      var k :| k in m;
      m[k] + SumOf(m - {k})
  }

  /** The sum does not depend on which key comes first. */
  lemma {:induction false} SumTakesAny(m: map<Bytes, real>, k: Bytes)
    requires k in m
    ensures SumOf(m) == m[k] + SumOf(m - {k})
    decreases |m|
  {
    assert m != map[];
    var first :| first in m && SumOf(m) == m[first] + SumOf(m - {first});
    if first != k {
      SumTakesAny(m - {first}, k);
      SumTakesAny(m - {k}, first);
      assert m - {first} - {k} == m - {k} - {first};
    }
  }

  lemma SumUpdate(m: map<Bytes, real>, k: Bytes, v: real)
    ensures SumOf(m[k := v]) == SumOf(m) - (if k in m then m[k] else 0.0) + v
  {
    SumTakesAny(m[k := v], k);
    if k in m {
      SumTakesAny(m, k);
      assert m[k := v] - {k} == m - {k};
    } else {
      assert m[k := v] - {k} == m;
    }
  }

  function Costs(byTopic: map<Bytes, (real, Bytes)>): map<Bytes, real> {
    map t | t in byTopic :: byTopic[t].0
  }

  // ----- one pass -----

  ghost predicate MatchesQuery(byTopic: map<Bytes, (real, Bytes)>, entries: seq<Entry>) {
    forall t: Bytes :: (if t in byTopic then Some(byTopic[t]) else None) == DateTotal(entries, t)
  }

  ghost predicate MatchesCurrencies(byCurrency: map<Bytes, real>, entries: seq<Entry>) {
    && (forall c: Bytes :: c in byCurrency <==> OfCurrency(entries, c) != [])
    && (forall c: Bytes :: c in byCurrency ==> byCurrency[c] == Total(OfCurrency(entries, c)))
  }

  lemma TopicStep(byTopic: map<Bytes, (real, Bytes)>, entries: seq<Entry>, e: Entry)
    requires MatchesQuery(byTopic, entries)
    ensures MatchesQuery(byTopic[e.topic := WithEntry(DateTotal(entries, e.topic), e)], entries + [e])
  {
    hide DateTotal, WithEntry;
    forall t: Bytes { DateTotalNext(entries, e, t); }
  }

  lemma CurrencyStep(byCurrency: map<Bytes, real>, entries: seq<Entry>, e: Entry)
    requires MatchesCurrencies(byCurrency, entries)
    ensures var before := if e.currency in byCurrency then byCurrency[e.currency] else 0.0;
            MatchesCurrencies(byCurrency[e.currency := before + e.cost], entries + [e])
  {
    hide OfCurrency, Total;
    var own := OfCurrency(entries, e.currency);
    forall c: Bytes
      ensures OfCurrency(entries + [e], c) == if e.currency == c then own + [e] else OfCurrency(entries, c)
    {
      OfCurrencyNext(entries, e, c);
      assert OfCurrency(entries, c) + [] == OfCurrency(entries, c);
    }
    TotalNext(own, e);
    EmptyTotal();
    assert own + [e] != [];
    assert e.currency !in byCurrency ==> own == [];
  }

  lemma EmptyTotal()
    ensures Total([]) == 0.0
  {
  }

  /** Every topic's row is what the query gives for it, mixed label included and
      absent exactly when the query finds nothing; every currency's row is the
      sum of its entries; both columns add up to the whole ledger. */
  method TodayTotals(entries: seq<Entry>)
    returns (byTopic: map<Bytes, (real, Bytes)>, byCurrency: map<Bytes, real>)
    ensures MatchesQuery(byTopic, entries) && MatchesCurrencies(byCurrency, entries)
    ensures SumOf(Costs(byTopic)) == SumOf(byCurrency) == Total(entries)
  {
    hide OfTopic, OfCurrency, Total, SumOf, MatchesQuery, MatchesCurrencies;
    byTopic, byCurrency := map[], map[];
    StartTotals();
    var i := 0;
    while i < |entries|
      invariant i <= |entries|
      invariant MatchesQuery(byTopic, entries[..i]) && MatchesCurrencies(byCurrency, entries[..i])
      invariant SumOf(Costs(byTopic)) == SumOf(byCurrency) == Total(entries[..i])
    {
      var e := entries[i];
      assert entries[..i + 1] == entries[..i] + [e];
      TopicStep(byTopic, entries[..i], e);
      CurrencyStep(byCurrency, entries[..i], e);
      TotalNext(entries[..i], e);
      QueryAt(byTopic, entries[..i], e.topic);

      var spent := if e.currency in byCurrency then byCurrency[e.currency] else 0.0;
      SumUpdate(byCurrency, e.currency, spent + e.cost);
      byCurrency := byCurrency[e.currency := spent + e.cost];

      var (total, currency) := if e.topic in byTopic then byTopic[e.topic] else (0.0, e.currency);
      total := total + e.cost;
      if e.currency != currency {
        currency := MIXED_CURRENCY;
      }
      SumUpdate(Costs(byTopic), e.topic, total);
      assert Costs(byTopic[e.topic := (total, currency)]) == Costs(byTopic)[e.topic := total];
      byTopic := byTopic[e.topic := (total, currency)];
      i := i + 1;
    }
    assert entries[..i] == entries;
  }

  lemma QueryAt(byTopic: map<Bytes, (real, Bytes)>, entries: seq<Entry>, topic: Bytes)
    requires MatchesQuery(byTopic, entries)
    ensures DateTotal(entries, topic) == if topic in byTopic then Some(byTopic[topic]) else None
  {
  }

  lemma StartTotals()
    ensures MatchesQuery(map[], []) && MatchesCurrencies(map[], [])
    ensures SumOf(Costs(map[])) == SumOf(map[]) == Total([])
  {
    assert Costs(map[]) == map[];
  }

  /** What the label tells: a real currency exactly when all the topic's entries
      are in it, and the mixed marker exactly when two of them differ (or the
      entries themselves carry the marker's text). */
  lemma LabelMeans(entries: seq<Entry>, topic: Bytes, shown: Bytes)
    requires DateTotal(entries, topic).Some?
    ensures shown != Ascii("mixed") ==>
              (DateTotal(entries, topic).value.1 == shown
               <==> forall e :: e in entries && e.topic == topic ==> e.currency == shown)
    ensures DateTotal(entries, topic).value.1 == Ascii("mixed")
            <==> (exists a, b ::
                    a in entries && b in entries && a.topic == b.topic == topic && a.currency != b.currency)
                 || (forall e :: e in entries && e.topic == topic ==> e.currency == Ascii("mixed"))
  {
    var own := OfTopic(entries, topic);
    assert own[0] in entries;
    if AllIn(own, own[0].currency) {
      forall e | e in entries && e.topic == topic ensures e.currency == own[0].currency {
        assert e in own;
      }
    } else {
      var k :| 0 <= k < |own| && own[k].currency != own[0].currency;
      assert own[k] in entries;
    }
  }
}
