/** Processed-comment and seen-issue keys (`PersistentKeySet`): the caller's
    set, the append-only file behind it, and the cut to the newest keys. */
module KeySets {
  import opened Basics
  import opened Lines
  import opened Decimal
  import opened RecordFiles

  type Key = Bytes

  function ParseKey(line: Bytes): Option<Key> {
    if Trim(line) == [] then None else Some(Trim(line))
  }

  /** A line is a key when anything is left of it without the blanks around it. */
  lemma ParseKeyIff(line: Bytes, key: Key)
    ensures ParseKey(line) == Some(key) <==> key != [] && Trimmed(line, key)
  {
    TrimIff(line, key);
  }

  function KeyLine(key: Key): Bytes {
    key
  }

  /** A key that is a line of its own: not blank, no newline, no blanks around it. */
  ghost predicate Clean(key: Key) {
    key != [] && NoNewline(key) && !IsSpace(key[0]) && !IsSpace(key[|key| - 1])
  }

  /** The text in front of the first colon. */
  function BeforeColon(key: Key): Bytes {
    if key == [] || key[0] == 58 then [] else [key[0]] + BeforeColon(key[1..])
  }

  /** The numeric id a key starts with, 0 when it has none. */
  function KeyId(key: Key): nat {
    match ParseBelow(BeforeColon(key), 0x1_0000_0000_0000_0000)
    case Some(v) => v
    case None => 0
  }

  /** `head` is the key up to its first colon, or all of it. */
  ghost predicate IsHead(key: Key, head: Bytes) {
    head <= key && ':' as byte !in head && (|head| == |key| || key[|head|] == ':' as byte)
  }

  lemma {:induction false} BeforeColonIs(key: Key)
    ensures IsHead(key, BeforeColon(key))
  {
    if key == [] || key[0] == 58 {
    } else {
      BeforeColonIs(key[1..]);
      var head := BeforeColon(key[1..]);
      assert ([key[0]] + head)[1..] == head;
      assert key == [key[0]] + key[1..];
    }
  }

  lemma OneHead(key: Key, a: Bytes, b: Bytes)
    requires IsHead(key, a) && IsHead(key, b)
    ensures a == b
  {
  }

  /** A key's id is the number in front of its first colon if that is one below
      2^64, and 0 otherwise. */
  lemma KeyIdIs(key: Key, head: Bytes)
    requires IsHead(key, head)
    ensures forall v: nat :: Numeral(head, v) && v < 0x1_0000_0000_0000_0000 ==> KeyId(key) == v
    ensures (forall v: nat :: Numeral(head, v) ==> v >= 0x1_0000_0000_0000_0000) ==> KeyId(key) == 0
  {
    hide Numeral, ParseBelow, BeforeColon;
    BeforeColonIs(key);
    OneHead(key, head, BeforeColon(key));
    forall v: nat
      ensures ParseBelow(head, 0x1_0000_0000_0000_0000) == Some(v)
         <==> Numeral(head, v) && v < 0x1_0000_0000_0000_0000
    {
      ParseBelowIff(head, 0x1_0000_0000_0000_0000, v);
    }
  }

  /** So a key written as number, colon and anything has that number for its id. */
  lemma KeyIdOfNumber(n: nat, rest: Bytes)
    requires n < 0x1_0000_0000_0000_0000
    ensures KeyId(Dec(n) + [':' as byte] + rest) == n && KeyId(Dec(n)) == n
  {
    hide KeyId;
    DecRoundTrip(n);
    assert Numeral(Dec(n), n);
    assert IsHead(Dec(n), Dec(n));
    KeyIdIs(Dec(n), Dec(n));
    KeyIdIs(Dec(n) + [':' as byte] + rest, Dec(n));
  }

  /** `kept` are `max` of `keys`, and no dropped key has a higher id. */
  ghost predicate Newest(keys: set<Key>, max: nat, kept: set<Key>) {
    && kept <= keys && |kept| == max
    && forall k, d :: k in kept && d in keys - kept ==> KeyId(k) >= KeyId(d)
  }

  datatype Store = Store(keys: set<Key>, file: Bytes)

  datatype Op = Insert(key: Key) | Compact(max: nat) | Load

  ghost predicate Next(s: Store, op: Op, s': Store) {
    match op
    case Insert(key) =>
      s' == if key in s.keys then s else Store(s.keys + {key}, s.file + (KeyLine(key) + [NL]))
    case Compact(max) =>
      if |s.keys| <= max then s' == s
      else Newest(s.keys, max, s'.keys) && ListingOf(s'.file, s'.keys, KeyLine)
    case Load => s' == s.(keys := Parsed(s.file, ParseKey))
  }

  // ----- in place -----

  class PersistentKeySet {
    var file: Bytes

    constructor (file: Bytes)
      ensures this.file == file
    {
      this.file := file;
    }

    method LoadKeys() returns (keys: set<Key>)
      ensures Next(Store({}, file), Load, Store(keys, file))
    {
      keys := Parsed(file, ParseKey);
    }

    method InsertKey(key: Key, keys: set<Key>) returns (keys': set<Key>)
      modifies this
      ensures Next(Store(keys, old(file)), Insert(key), Store(keys', file))
    {
      keys' := keys + {key};
      if key !in keys {
        file := file + (KeyLine(key) + [NL]);
      } else {
        assert keys' == keys;
      }
    }

    method CompactKeys(keys: set<Key>, max: nat) returns (keys': set<Key>)
      modifies this
      ensures Next(Store(keys, old(file)), Compact(max), Store(keys', file))
    {
      if |keys| <= max {
        return keys;
      }
      var entries := Entries(keys);
      var sorted := SortById(entries);
      SameSize(sorted, keys);
      keys' := NewestOf(sorted, keys, max);
      file := Rewritten(keys', KeyLine);
    }
  }

  type Entry = (nat, Key)

  function KeysOf(entries: seq<Entry>): seq<Key> {
    seq(|entries|, i requires 0 <= i < |entries| => entries[i].1)
  }

  ghost predicate Labelled(entries: seq<Entry>) {
    forall i :: 0 <= i < |entries| ==> entries[i].0 == KeyId(entries[i].1)
  }

  ghost predicate Sorted(entries: seq<Entry>) {
    forall i, j :: 0 <= i < j < |entries| ==> entries[i].0 <= entries[j].0
  }

  /** The set's keys with their ids, in the order the set happens to give. */
  method Entries(keys: set<Key>) returns (entries: seq<Entry>)
    ensures Labelled(entries) && multiset(KeysOf(entries)) == multiset(keys)
  {
    entries := [];
    var rest := keys;
    while rest != {}
      invariant rest <= keys && Labelled(entries) && multiset(KeysOf(entries)) == multiset(keys - rest)
      decreases |rest|
    {
      var key: Key :| key in rest;
      assert KeysOf(entries + [(KeyId(key), key)]) == KeysOf(entries) + [key];
      entries := entries + [(KeyId(key), key)];
      assert keys - (rest - {key}) == (keys - rest) + {key};
      rest := rest - {key};
    }
    assert keys - rest == keys;
  }

  /** Sorting by id; which of several equal ids comes first is left open. */
  method SortById(entries: seq<Entry>) returns (sorted: seq<Entry>)
    requires Labelled(entries)
    ensures Labelled(sorted) && Sorted(sorted)
    ensures multiset(KeysOf(sorted)) == multiset(KeysOf(entries))
  {
    hide KeyId;
    sorted := [];
    var i := 0;
    while i < |entries|
      invariant i <= |entries| && Labelled(sorted) && Sorted(sorted)
      invariant multiset(KeysOf(sorted)) == multiset(KeysOf(entries)[..i])
    {
      var e := entries[i];
      var at := |sorted|;
      while at > 0 && sorted[at - 1].0 > e.0
        invariant 0 <= at <= |sorted|
        invariant forall j :: at <= j < |sorted| ==> sorted[j].0 > e.0
      {
        at := at - 1;
      }
      Inserted(sorted, at, e);
      assert KeysOf(entries)[..i + 1] == KeysOf(entries)[..i] + [e.1];
      sorted := sorted[..at] + [e] + sorted[at..];
      i := i + 1;
    }
    assert KeysOf(entries)[..i] == KeysOf(entries);
  }

  lemma Inserted(sorted: seq<Entry>, at: nat, e: Entry)
    requires at <= |sorted| && Labelled(sorted) && Sorted(sorted) && e.0 == KeyId(e.1)
    requires at > 0 ==> sorted[at - 1].0 <= e.0
    requires forall j :: at <= j < |sorted| ==> sorted[j].0 > e.0
    ensures var with := sorted[..at] + [e] + sorted[at..];
            Labelled(with) && Sorted(with) && multiset(KeysOf(with)) == multiset(KeysOf(sorted) + [e.1])
  {
    hide KeyId;
    InsertedKeys(sorted, at, e);
  }

  lemma InsertedKeys(sorted: seq<Entry>, at: nat, e: Entry)
    requires at <= |sorted|
    ensures multiset(KeysOf(sorted[..at] + [e] + sorted[at..])) == multiset(KeysOf(sorted) + [e.1])
  {
    var keys := KeysOf(sorted);
    assert KeysOf(sorted[..at] + [e] + sorted[at..]) == keys[..at] + [e.1] + keys[at..];
    assert keys == keys[..at] + keys[at..];
  }

  lemma SameSize(entries: seq<Entry>, keys: set<Key>)
    requires multiset(KeysOf(entries)) == multiset(keys)
    ensures |entries| == |keys|
  {
    assert |multiset(KeysOf(entries))| == |entries|;
  }

  /** The keys of the last `max` entries. */
  method NewestOf(sorted: seq<Entry>, keys: set<Key>, max: nat) returns (kept: set<Key>)
    requires Labelled(sorted) && Sorted(sorted) && multiset(KeysOf(sorted)) == multiset(keys) && max <= |sorted|
    ensures Newest(keys, max, kept)
  {
    var from := |sorted| - max;
    var all := KeysOf(sorted);
    hide KeyId, Sorted;
    kept := {};
    var i := from;
    NoDuplicates(all, keys);
    while i < |sorted|
      invariant from <= i <= |sorted| && |kept| == i - from
      invariant forall k :: k in kept <==> exists j :: from <= j < i && all[j] == k
    {
      assert all[i] == sorted[i].1 && all[i] !in kept;
      kept := kept + {sorted[i].1};
      i := i + 1;
    }
    LastAreNewest(sorted, keys, from, kept);
  }

  lemma LastAreNewest(sorted: seq<Entry>, keys: set<Key>, from: nat, kept: set<Key>)
    requires Labelled(sorted) && Sorted(sorted) && multiset(KeysOf(sorted)) == multiset(keys) && from <= |sorted|
    requires |kept| == |sorted| - from
    requires forall k :: k in kept <==> exists j :: from <= j < |sorted| && KeysOf(sorted)[j] == k
    ensures Newest(keys, |sorted| - from, kept)
  {
    hide KeyId;
    var all := KeysOf(sorted);
    forall k | k in keys ensures k in all { assert k in multiset(all); }
    forall k | k in kept ensures k in keys { assert k in multiset(all); }
    forall k, d | k in kept && d in keys - kept ensures KeyId(k) >= KeyId(d) {
      var i :| from <= i < |sorted| && all[i] == k;
      var j :| 0 <= j < |sorted| && all[j] == d;
      assert j < from;
      assert sorted[j].0 <= sorted[i].0;
    }
  }

  lemma NoDuplicates(all: seq<Key>, keys: set<Key>)
    requires multiset(all) == multiset(keys)
    ensures forall i, j :: 0 <= i < j < |all| ==> all[i] != all[j]
  {
    forall i, j | 0 <= i < j < |all| && all[i] == all[j] ensures false {
      CountedTwice(all, i, j);
    }
  }

  lemma CountedTwice(all: seq<Key>, i: nat, j: nat)
    requires i < j < |all| && all[i] == all[j]
    ensures multiset(all)[all[i]] >= 2
  {
    assert all == all[..i] + [all[i]] + all[i + 1..j] + [all[j]] + all[j + 1..];
  }

  // ----- memory and disk -----

  ghost predicate Agrees(s: Store) {
    WholeLines(s.file) && Parsed(s.file, ParseKey) == s.keys
  }

  lemma CleanParses(key: Key)
    requires Clean(key)
    ensures NoNewline(KeyLine(key)) && ParseKey(KeyLine(key)) == Some(key)
  {
  }

  /** A key that comes back from its own text is clean. */
  lemma ReadsBackOnlyIfClean(key: Key)
    requires key in Parsed(key + [NL], ParseKey)
    ensures Clean(key)
  {
    hide Split, Collect, Trim;
    SplitTerminated(key);
    CollectAppend(Split(key), [[]], ParseKey);
    BlankCollectsNothing();
    CollectHas(Split(key), ParseKey, key);
    var k :| 0 <= k < |Split(key)| && ParseKey(Split(key)[k]) == Some(key);
    PiecesAreShort(key, k);
  }

  lemma BlankCollectsNothing()
    ensures Collect([[]], ParseKey) == {}
  {
  }

  /** Inserting keeps memory and disk in agreement exactly for a key already
      known or one that is a line of its own. */
  lemma InsertAgreesIff(s: Store, key: Key, s': Store)
    requires Agrees(s) && Next(s, Insert(key), s')
    ensures Agrees(s') <==> key in s.keys || Clean(key)
  {
    hide Parsed, Clean;
    if key !in s.keys {
      ParsedAppend(s.file, KeyLine(key) + [NL], ParseKey);
      if Clean(key) {
        CleanParses(key);
        ParsedLine(KeyLine(key), ParseKey, key);
      } else if Agrees(s') {
        ReadsBackOnlyIfClean(key);
      }
    }
  }

  lemma {:induction false} CollectedAreClean(lines: seq<Bytes>, key: Key)
    requires forall k :: 0 <= k < |lines| ==> NoNewline(lines[k])
    requires key in Collect(lines, ParseKey)
    ensures Clean(key)
  {
    CollectHas(lines, ParseKey, key);
    var k :| 0 <= k < |lines| && ParseKey(lines[k]) == Some(key);
    TrimIsWindow(lines[k]);
  }

  lemma TrimIsWindow(b: Bytes)
    ensures forall x :: x in Trim(b) ==> x in b
  {
    TrimStartIsWindow(b);
  }

  lemma {:induction false} TrimStartIsWindow(b: Bytes)
    ensures forall x :: x in TrimStart(b) ==> x in b
  {
    if b != [] && IsSpace(b[0]) { TrimStartIsWindow(b[1..]); }
  }

  lemma AgreeingKeysAreClean(s: Store, key: Key)
    requires Agrees(s) && key in s.keys
    ensures Clean(key)
  {
    hide Split;
    forall k | 0 <= k < |Split(s.file)| ensures NoNewline(Split(s.file)[k]) {
      PiecesAreShort(s.file, k);
    }
    CollectedAreClean(Split(s.file), key);
  }

  lemma CompactAgrees(s: Store, max: nat, s': Store)
    requires Agrees(s) && Next(s, Compact(max), s')
    ensures Agrees(s')
  {
    hide Clean, Parsed, ListingOf;
    if |s.keys| > max {
      forall key | key in s'.keys ensures NoNewline(KeyLine(key)) && ParseKey(KeyLine(key)) == Some(key) {
        AgreeingKeysAreClean(s, key);
        CleanParses(key);
      }
      ListingReadsBack(s'.file, s'.keys, KeyLine, ParseKey);
    }
  }

  // ----- runs -----

  ghost predicate IsRun(states: seq<Store>, ops: seq<Op>) {
    && |states| == |ops| + 1
    && states[0] == Store({}, [])
    && (forall k :: 0 <= k < |ops| ==> Next(states[k], ops[k], states[k + 1]))
    && (forall k :: 0 <= k < |ops| && ops[k].Insert? ==> Clean(ops[k].key))
  }

  lemma StartAgrees()
    ensures Agrees(Store({}, []))
  {
    SplitEmpty();
    assert Collect([[]], ParseKey) == {};
  }

  /** In every run over clean keys the file parses to the set in memory. */
  lemma {:induction false} DiskMatchesMemory(states: seq<Store>, ops: seq<Op>, k: nat)
    requires IsRun(states, ops) && k < |states|
    ensures Agrees(states[k])
  {
    hide Agrees, Clean;
    if k == 0 {
      StartAgrees();
    } else {
      DiskMatchesMemory(states, ops, k - 1);
      AgreesNext(states[k - 1], ops[k - 1], states[k]);
    }
  }

  lemma AgreesNext(s: Store, op: Op, s': Store)
    requires Agrees(s) && Next(s, op, s') && (op.Insert? ==> Clean(op.key))
    ensures Agrees(s')
  {
    match op
    case Insert(key) => InsertAgreesIff(s, key, s');
    case Compact(max) => CompactAgrees(s, max, s');
    case Load =>
  }

  /** A compaction that kept `max` keys, each with an id at least that of `key`. */
  ghost predicate Displaced(s: Store, op: Op, s': Store, key: Key) {
    && op.Compact? && |s.keys| > op.max && |s'.keys| == op.max
    && forall kept :: kept in s'.keys ==> KeyId(kept) >= KeyId(key)
  }

  ghost predicate DisplacedAt(states: seq<Store>, ops: seq<Op>, m: nat, key: Key)
    requires m < |ops| < |states|
  {
    Displaced(states[m], ops[m], states[m + 1], key)
  }

  lemma DisplacedStep(s: Store, op: Op, s': Store, key: Key)
    requires Agrees(s) && Next(s, op, s') && key in s.keys && key !in s'.keys
    ensures Displaced(s, op, s', key)
  {
    hide KeyId, Parsed, ListingOf;
    assert op.Compact?;
    assert key in s.keys - s'.keys;
  }

  /** A key once in the set is missing later only if a compaction in between
      displaced it; inserting and reloading never lose one. */
  lemma {:induction false} ForgottenOnlyForNewer(states: seq<Store>, ops: seq<Op>, i: nat, j: nat, key: Key)
    requires IsRun(states, ops) && i <= j < |states|
    requires key in states[i].keys && key !in states[j].keys
    ensures exists m :: i <= m < j && DisplacedAt(states, ops, m, key)
    decreases j - i
  {
    hide Agrees, Clean, Next, Displaced;
    if key in states[i + 1].keys {
      ForgottenOnlyForNewer(states, ops, i + 1, j, key);
    } else {
      DiskMatchesMemory(states, ops, i);
      DisplacedStep(states[i], ops[i], states[i + 1], key);
      assert DisplacedAt(states, ops, i, key);
    }
  }
}
