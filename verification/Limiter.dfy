/** Admission buckets (crates/noxide-authority/src/limiter.rs, `Buckets`, `RateWindow`): a bounded
    table of buckets kept in two maps and a tick counter. */
module Limiter {
  import opened Prelude
  import opened LimiterRefill

  const TABLE_CAPACITY: nat := 65_536

  // ----- the simple form: a recency list, least recently charged first -----

  datatype Slot<K> = Slot(key: K, bucket: Bucket)

  datatype Limits = Limits(rate: Rate, start: nat)

  predicate ValidLimits(l: Limits) {
    ValidRate(l.rate) && l.start <= l.rate.capacity
  }

  function Position<K(==)>(list: seq<Slot<K>>, key: K): (r: Option<nat>)
    ensures r.Some? ==> r.value < |list| && list[r.value].key == key
    ensures r.None? ==> forall i :: 0 <= i < |list| ==> list[i].key != key
  {
    if list == [] then None
    else if list[0].key == key then Some(0)
    else
      var rest := Position(list[1..], key);
      if rest.None? then None else Some(rest.value + 1)
  }

  /** Make room for a new key by dropping the least recently charged one. */
  function Room<K(==)>(list: seq<Slot<K>>, key: K): seq<Slot<K>> {
    if Position(list, key).None? && |list| == TABLE_CAPACITY then list[1..] else list
  }

  /** Everything but the key's own slot. */
  function Others<K(==)>(list: seq<Slot<K>>, key: K): seq<Slot<K>> {
    var at := Position(list, key);
    if at.Some? then Cut(list, at.value) else Room(list, key)
  }

  /** The bucket a charge starts from. */
  function Prior<K(==)>(l: Limits, list: seq<Slot<K>>, key: K, now: nat): Bucket {
    var at := Position(list, key);
    if at.Some? then list[at.value].bucket else Bucket(l.start, now)
  }

  /** What one charge means: the key's bucket is charged and becomes the most recent. Draining an
      absent key does nothing. */
  function ChargeList<K(==)>(l: Limits, list: seq<Slot<K>>, key: K, cost: nat, drain: bool, now: nat): (seq<Slot<K>>, bool)
    requires ValidLimits(l)
  {
    if drain && Position(list, key).None? then (list, false)
    else
      var (bucket, allowed) := Charge(l.rate, Prior(l, list, key, now), cost, drain, now);
      (Others(list, key) + [Slot(key, bucket)], allowed)
  }

  ghost predicate Distinct<K>(list: seq<Slot<K>>) {
    forall i, j :: 0 <= i < j < |list| ==> list[i].key != list[j].key
  }

  lemma PositionOf<K>(list: seq<Slot<K>>, i: nat)
    requires i < |list| && Distinct(list)
    ensures Position(list, list[i].key) == Some(i)
  {
  }

  /** The list form keeps its keys distinct and its size bounded. */
  lemma ListKeeps<K>(l: Limits, list: seq<Slot<K>>, key: K, cost: nat, drain: bool, now: nat)
    requires ValidLimits(l) && Distinct(list) && |list| <= TABLE_CAPACITY
    ensures var after := ChargeList(l, list, key, cost, drain, now).0; Distinct(after) && |after| <= TABLE_CAPACITY
  {
  }

  /** A charge leaves every other bucket alone, except that a new key arriving at a full table
      evicts the least recently charged one. */
  lemma OthersKeep<K>(l: Limits, list: seq<Slot<K>>, key: K, cost: nat, drain: bool, now: nat, i: nat)
    requires ValidLimits(l) && Distinct(list) && |list| <= TABLE_CAPACITY && i < |list| && list[i].key != key
    ensures var after := ChargeList(l, list, key, cost, drain, now).0;
            var evicted := i == 0 && |list| == TABLE_CAPACITY && Position(list, key).None? && !drain;
            if evicted then Position(after, list[i].key).None?
            else list[i] in after
  {
    if drain && Position(list, key).None? {
      assert list[i] in list;
    } else {
      OthersHold(list, key, Charge(l.rate, Prior(l, list, key, now), cost, drain, now).0, i);
    }
  }

  lemma OthersHold<K>(list: seq<Slot<K>>, key: K, bucket: Bucket, i: nat)
    requires Distinct(list) && |list| <= TABLE_CAPACITY && i < |list| && list[i].key != key
    ensures var after := Others(list, key) + [Slot(key, bucket)];
            if i == 0 && |list| == TABLE_CAPACITY && Position(list, key).None? then Position(after, list[i].key).None?
            else list[i] in after
  {
    var at := Position(list, key);
    var after := Others(list, key) + [Slot(key, bucket)];
    if at.Some? {
      assert after[if i < at.value then i else i - 1] == list[i];
    } else if |list| < TABLE_CAPACITY {
      assert after[i] == list[i];
    } else if i > 0 {
      assert after[i - 1] == list[i];
    } else {
      assert forall j :: 0 <= j < |list| - 1 ==> after[j] == list[j + 1];
    }
  }

  /** A key not in the table starts with the starting balance and is then charged; draining it
      changes nothing. */
  lemma NewKeyStarts<K>(l: Limits, list: seq<Slot<K>>, key: K, cost: nat, drain: bool, now: nat)
    requires ValidLimits(l) && Position(list, key).None?
    ensures var r := ChargeList(l, list, key, cost, drain, now);
            if drain then r == (list, false)
            else r.0 != [] && r.0[|r.0| - 1] == Slot(key, Bucket(if cost <= l.start then l.start - cost else l.start, now))
                 && (r.1 <==> cost <= l.start)
  {
    if !drain {
      NothingEarned(l.rate, Bucket(l.start, now));
    }
  }

  /** No time, no tokens. */
  lemma NothingEarned(r: Rate, b: Bucket)
    requires ValidRate(r) && b.tokens <= r.capacity
    ensures Refill(r, b, b.last) == b
  {
    assert Times(0, r.perSecond) == 0;
    assert Nanos(r, 0) == 0;
  }

  // ----- one key over a whole run -----

  datatype Call<K> = Call(key: K, op: Op)

  function BucketOf<K(==)>(list: seq<Slot<K>>, key: K): Bucket
    requires Position(list, key).Some?
  {
    list[Position(list, key).value].bucket
  }

  function CallList<K(==)>(l: Limits, list: seq<Slot<K>>, c: Call<K>): (seq<Slot<K>>, bool)
    requires ValidLimits(l)
  {
    ChargeList(l, list, c.key, c.op.cost, c.op.drain, c.op.now)
  }

  /** The key is in the table before and after every call. */
  predicate Resident<K(==)>(l: Limits, list: seq<Slot<K>>, calls: seq<Call<K>>, key: K)
    requires ValidLimits(l)
    decreases |calls|
  {
    Position(list, key).Some? && (calls == [] || Resident(l, CallList(l, list, calls[0]).0, calls[1..], key))
  }

  function ListAfter<K(==)>(l: Limits, list: seq<Slot<K>>, calls: seq<Call<K>>): seq<Slot<K>>
    requires ValidLimits(l)
    decreases |calls|
  {
    if calls == [] then list else ListAfter(l, CallList(l, list, calls[0]).0, calls[1..])
  }

  /** What the run allowed the key to spend. */
  function Spent<K(==)>(l: Limits, list: seq<Slot<K>>, calls: seq<Call<K>>, key: K): nat
    requires ValidLimits(l)
    decreases |calls|
  {
    if calls == [] then 0
    else
      var step := CallList(l, list, calls[0]);
      (if calls[0].key == key && step.1 then calls[0].op.cost else 0) + Spent(l, step.0, calls[1..], key)
  }

  function OpsOf<K(==)>(calls: seq<Call<K>>, key: K): seq<Op> {
    if calls == [] then []
    else (if calls[0].key == key then [calls[0].op] else []) + OpsOf(calls[1..], key)
  }

  lemma LastPosition<K>(others: seq<Slot<K>>, slot: Slot<K>)
    requires Distinct(others + [slot])
    ensures Position(others + [slot], slot.key) == Some(|others|)
  {
    PositionOf(others + [slot], |others|);
  }

  /** A call charges its own key's bucket and leaves a resident other one as it was. */
  lemma OneCall<K>(l: Limits, list: seq<Slot<K>>, c: Call<K>, key: K)
    requires ValidLimits(l) && Distinct(list) && |list| <= TABLE_CAPACITY && Position(list, key).Some?
    requires Position(CallList(l, list, c).0, key).Some?
    ensures var step := CallList(l, list, c);
            if c.key == key
            then (BucketOf(step.0, key), step.1) == Charge(l.rate, BucketOf(list, key), c.op.cost, c.op.drain, c.op.now)
            else BucketOf(step.0, key) == BucketOf(list, key)
  {
    ListKeeps(l, list, c.key, c.op.cost, c.op.drain, c.op.now);
    var after := CallList(l, list, c).0;
    if c.key == key {
      var charged := Charge(l.rate, BucketOf(list, key), c.op.cost, c.op.drain, c.op.now);
      assert after == Others(list, key) + [Slot(key, charged.0)];
      LastPosition(Others(list, key), Slot(key, charged.0));
    } else {
      var i := Position(list, key).value;
      OthersKeep(l, list, c.key, c.op.cost, c.op.drain, c.op.now, i);
      var j :| 0 <= j < |after| && after[j] == list[i];
      PositionOf(after, j);
    }
  }

  /** While a key stays resident, its bucket sees exactly its own charges, in order, whatever the
      other keys do. */
  lemma {:induction false} ResidentBucket<K>(l: Limits, list: seq<Slot<K>>, calls: seq<Call<K>>, key: K)
    requires ValidLimits(l) && Distinct(list) && |list| <= TABLE_CAPACITY && Resident(l, list, calls, key)
    ensures Position(ListAfter(l, list, calls), key).Some?
    ensures BucketOf(ListAfter(l, list, calls), key) == After(l.rate, BucketOf(list, key), OpsOf(calls, key))
    ensures Spent(l, list, calls, key) == AllowedCost(l.rate, BucketOf(list, key), OpsOf(calls, key))
    decreases |calls|
  {
    if calls != [] {
      var c := calls[0];
      ListKeeps(l, list, c.key, c.op.cost, c.op.drain, c.op.now);
      OneCall(l, list, c, key);
      ResidentBucket(l, CallList(l, list, c).0, calls[1..], key);
      OpsSplit(l.rate, BucketOf(list, key), calls, key);
    }
  }

  lemma OpsSplit<K>(r: Rate, b: Bucket, calls: seq<Call<K>>, key: K)
    requires ValidRate(r) && calls != []
    ensures var c, rest := calls[0], OpsOf(calls[1..], key);
            if c.key == key
            then var step := Charge(r, b, c.op.cost, c.op.drain, c.op.now);
                 && After(r, b, OpsOf(calls, key)) == After(r, step.0, rest)
                 && AllowedCost(r, b, OpsOf(calls, key)) == (if step.1 then c.op.cost else 0) + AllowedCost(r, step.0, rest)
            else OpsOf(calls, key) == rest
  {
    var c, rest := calls[0], OpsOf(calls[1..], key);
    if c.key == key {
      assert OpsOf(calls, key)[0] == c.op && OpsOf(calls, key)[1..] == rest;
    }
  }

  /** A resident key's allowed cost never exceeds its balance plus the refill of the elapsed time. */
  lemma ResidentIsBounded<K>(l: Limits, list: seq<Slot<K>>, calls: seq<Call<K>>, key: K)
    requires ValidLimits(l) && Even(l.rate.perSecond) && Distinct(list) && |list| <= TABLE_CAPACITY
    requires Resident(l, list, calls, key) && Timely(BucketOf(list, key), OpsOf(calls, key))
    ensures var b := BucketOf(list, key);
            var end := LastTime(OpsOf(calls, key), b.last);
            b.last <= end && Spent(l, list, calls, key) <= b.tokens + Exact(l.rate.perSecond, end - b.last)
  {
    ResidentSpends(l, list, calls, key);
    AllowedIsBounded(l.rate, BucketOf(list, key), OpsOf(calls, key));
  }

  lemma ResidentSpends<K>(l: Limits, list: seq<Slot<K>>, calls: seq<Call<K>>, key: K)
    requires ValidLimits(l) && Distinct(list) && |list| <= TABLE_CAPACITY && Resident(l, list, calls, key)
    ensures Spent(l, list, calls, key) == AllowedCost(l.rate, BucketOf(list, key), OpsOf(calls, key))
  {
    ResidentBucket(l, list, calls, key);
  }

  /** What one charge does to a resident key: the answer and the balance it leaves, and the
      recency it gains. */
  lemma ResidentCharge<K>(l: Limits, list: seq<Slot<K>>, key: K, cost: nat, drain: bool, now: nat)
    requires ValidLimits(l) && Distinct(list) && |list| <= TABLE_CAPACITY && Position(list, key).Some?
    ensures var b := BucketOf(list, key);
            var held := Min(b.tokens + Times(Since(now, b.last), l.rate.perSecond) / BILLION, l.rate.capacity);
            var (after, allowed) := ChargeList(l, list, key, cost, drain, now);
            && after != [] && after[|after| - 1].key == key && |after| == |list|
            && (allowed <==> cost <= held)
            && after[|after| - 1].bucket.tokens == if cost <= held then held - cost else if drain then 0 else held
  {
    ChargeSays(l.rate, BucketOf(list, key), cost, drain, now);
  }

  /** After a resident key's drain was refused, whatever other keys do it is allowed nothing but what
      it earns from then on, and the one token whose time had begun. */
  lemma DrainedKeyEarnsAnew<K>(l: Limits, list: seq<Slot<K>>, key: K, cost: nat, now: nat, after: seq<Slot<K>>, calls: seq<Call<K>>)
    requires ValidLimits(l) && Even(l.rate.perSecond) && Distinct(list) && |list| <= TABLE_CAPACITY && Position(list, key).Some?
    requires BucketOf(list, key).last <= now <= U64_MAX && ChargeList(l, list, key, cost, true, now) == (after, false)
    requires Resident(l, after, calls, key)
    requires Ordered(OpsOf(calls, key), now) && LastTime(OpsOf(calls, key), now) <= U64_MAX
    ensures now <= LastTime(OpsOf(calls, key), now)
    ensures Spent(l, after, calls, key) <= Exact(l.rate.perSecond, LastTime(OpsOf(calls, key), now) - now) + 1
  {
    DrainedBucket(l, list, key, cost, now, after);
    DrainedSpends(l, BucketOf(list, key), cost, now, after, calls, key);
  }

  lemma DrainedSpends<K>(l: Limits, before: Bucket, cost: nat, now: nat, after: seq<Slot<K>>, calls: seq<Call<K>>, key: K)
    requires ValidLimits(l) && Even(l.rate.perSecond) && Distinct(after) && |after| <= TABLE_CAPACITY && Resident(l, after, calls, key)
    requires before.last <= now <= U64_MAX && Charge(l.rate, before, cost, true, now) == (BucketOf(after, key), false)
    requires Ordered(OpsOf(calls, key), now) && LastTime(OpsOf(calls, key), now) <= U64_MAX
    ensures now <= LastTime(OpsOf(calls, key), now)
    ensures Spent(l, after, calls, key) <= Exact(l.rate.perSecond, LastTime(OpsOf(calls, key), now) - now) + 1
  {
    var ops, spent, bucket := OpsOf(calls, key), Spent(l, after, calls, key), BucketOf(after, key);
    ResidentSpends(l, after, calls, key);
    OrderedEnds(ops, now);
    AnewAtMost(l.rate, before, cost, now, bucket, ops, spent);
  }

  lemma AnewAtMost(r: Rate, before: Bucket, cost: nat, now: nat, after: Bucket, ops: seq<Op>, spent: nat)
    requires ValidRate(r) && Even(r.perSecond) && before.last <= now <= U64_MAX
    requires (after, false) == Charge(r, before, cost, true, now) && spent == AllowedCost(r, after, ops)
    requires Ordered(ops, now) && now <= LastTime(ops, now) <= U64_MAX
    ensures spent <= Exact(r.perSecond, LastTime(ops, now) - now) + 1
  {
    DrainedEarnsAnew(r, before, Op(cost, true, now), ops);
  }

  lemma DrainedBucket<K>(l: Limits, list: seq<Slot<K>>, key: K, cost: nat, now: nat, after: seq<Slot<K>>)
    requires ValidLimits(l) && Distinct(list) && |list| <= TABLE_CAPACITY && Position(list, key).Some?
    requires ChargeList(l, list, key, cost, true, now) == (after, false)
    ensures Distinct(after) && |after| <= TABLE_CAPACITY && Position(after, key).Some?
    ensures Charge(l.rate, BucketOf(list, key), cost, true, now) == (BucketOf(after, key), false)
  {
    ListKeeps(l, list, key, cost, true, now);
    var charged := Charge(l.rate, BucketOf(list, key), cost, true, now);
    assert after == Others(list, key) + [Slot(key, charged.0)];
    LastPosition(Others(list, key), Slot(key, charged.0));
  }

  // ----- the table -----

  datatype Entry = Entry(bucket: Bucket, tick: nat)

  /** Entries and index are each other's inverse, and ticks are below the counter. */
  ghost predicate Indexed<K>(entries: map<K, Entry>, lru: map<nat, K>, tick: nat) {
    && (forall k :: k in entries ==> entries[k].tick in lru && lru[entries[k].tick] == k)
    && (forall t :: t in lru ==> t < tick && lru[t] in entries && entries[lru[t]].tick == t)
  }

  predicate Sorted(ticks: seq<nat>) {
    forall i, j :: 0 <= i < j < |ticks| ==> ticks[i] < ticks[j]
  }

  /** `ticks` are the index's keys in order. */
  ghost predicate Listed<K>(lru: map<nat, K>, ticks: seq<nat>) {
    && Sorted(ticks)
    && (forall i :: 0 <= i < |ticks| ==> ticks[i] in lru)
    && (forall t :: t in lru ==> t in ticks)
  }

  ghost function Slots<K>(entries: map<K, Entry>, lru: map<nat, K>, ticks: seq<nat>): (slots: seq<Slot<K>>)
    requires forall i :: 0 <= i < |ticks| ==> ticks[i] in lru && lru[ticks[i]] in entries
    ensures |slots| == |ticks|
    ensures forall i :: 0 <= i < |slots| ==> slots[i] == Slot(lru[ticks[i]], entries[lru[ticks[i]]].bucket)
  {
    seq(|ticks|, i requires 0 <= i < |ticks| => Slot(lru[ticks[i]], entries[lru[ticks[i]]].bucket))
  }

  function Without<A, B>(m: map<A, B>, a: A): (r: map<A, B>)
    ensures r.Keys == m.Keys - {a}
    ensures forall x :: x in r ==> r[x] == m[x]
    ensures a in m ==> |r| == |m| - 1
  {
    m - {a}
  }

  lemma PutBack<A, B>(m: map<A, B>, a: A, b: B)
    ensures Without(m, a)[a := b] == m[a := b]
  {
  }

  lemma WithoutAbsent<A, B>(m: map<A, B>, a: A)
    requires a !in m
    ensures Without(m, a) == m
  {
  }

  lemma ListedFirst<K>(lru: map<nat, K>, ticks: seq<nat>)
    requires Listed(lru, ticks) && ticks != []
    ensures ticks[0] in lru && forall u :: u in lru ==> ticks[0] <= u
    ensures Listed(Without(lru, ticks[0]), ticks[1..])
  {
    forall u | u in lru && u != ticks[0] ensures u in ticks[1..] {
      var i :| 0 <= i < |ticks| && ticks[i] == u;
      assert ticks[1..][i - 1] == u;
    }
  }

  lemma IndexedWithout<K>(entries: map<K, Entry>, lru: map<nat, K>, tick: nat, t: nat)
    requires Indexed(entries, lru, tick) && t in lru
    ensures Indexed(Without(entries, lru[t]), Without(lru, t), tick)
  {
  }

  class Buckets<K(==)> {
    const limits: Limits
    var entries: map<K, Entry>
    var lru: map<nat, K>
    var tick: nat
    /** The ticks in use, smallest first. */
    ghost var ticks: seq<nat>

    ghost predicate Valid()
      reads this
    {
      && ValidLimits(limits) && tick <= U64_MAX
      && Indexed(entries, lru, tick)
      && Listed(lru, ticks)
      && |entries| == |ticks| <= TABLE_CAPACITY
    }

    /** The table as a recency list. */
    ghost function View(): seq<Slot<K>>
      reads this
      requires Valid()
    {
      Slots(entries, lru, ticks)
    }

    constructor (limits: Limits)
      requires ValidLimits(limits)
      ensures Valid() && this.limits == limits && View() == []
    {
      this.limits := limits;
      entries, lru, tick, ticks := map[], map[], 0, [];
    }

    /** `pop_first`: the smallest tick is the least recently charged key's. */
    method PopFirst()
      requires Valid() && ticks != []
      modifies this`entries, this`lru, this`ticks
      ensures Valid() && View() == old(View())[1..]
    {
      ListedFirst(lru, ticks);
      var t := FirstKey(lru, ticks[0]);
      var oldest := lru[t];
      Removed(entries, lru, tick, ticks, 0);
      CutFirst(ticks);
      CutFirst(View());
      lru := Without(lru, t);
      entries := Without(entries, oldest);
      ticks := ticks[1..];
    }

    /** Charge the key's bucket, creating it if needed, and give it the newest tick. */
    method Touch(key: K, cost: nat, drain: bool, now: nat) returns (allowed: bool)
      requires Valid() && tick < U64_MAX && (key in entries || |entries| < TABLE_CAPACITY)
      modifies this`entries, this`lru, this`tick, this`ticks
      ensures Valid()
      ensures var charged := Charge(limits.rate, Prior(limits, old(View()), key, now), cost, drain, now);
              allowed == charged.1 && View() == Others(old(View()), key) + [Slot(key, charged.0)]
    {
      ghost var list := View();
      var t := tick;
      var prior := if key in entries then entries[key] else Entry(Bucket(limits.start, now), t);
      PriorIs(limits, entries, lru, t, ticks, key, now);
      var charged := Charge(limits.rate, prior.bucket, cost, drain, now);
      allowed := charged.1;
      Place(list, key, Entry(charged.0, t), prior.tick);
    }

    /** Store the entry under the newest tick, dropping the key's old one. */
    method Place(ghost list: seq<Slot<K>>, key: K, entry: Entry, stale: nat)
      requires Valid() && tick < U64_MAX && (key in entries || |entries| < TABLE_CAPACITY)
      requires list == View() && entry.tick == tick && stale == (if key in entries then entries[key].tick else tick)
      modifies this`entries, this`lru, this`tick, this`ticks
      ensures Valid() && View() == Others(list, key) + [Slot(key, entry.bucket)]
    {
      ghost var left := Touched(entries, lru, tick, ticks, list, key, entry.bucket);
      entries := entries[key := entry];
      lru := Without(lru, stale)[tick := key];
      ticks := left + [tick];
      tick := tick + 1;
    }

    /** `charge`: the table behaves as the recency list. */
    method TakeCharge(key: K, cost: nat, drain: bool, now: nat) returns (allowed: bool)
      requires Valid()
      modifies this`entries, this`lru, this`tick, this`ticks
      ensures Valid()
      ensures (View(), allowed) == ChargeList(limits, old(View()), key, cost, drain, now)
    {
      if key in entries {
        ghost var p := ResidentAt(entries, lru, tick, ticks, key);
      } else {
        AbsentFrom(entries, lru, tick, ticks, key);
      }
      if drain && key !in entries {
        return false;
      }
      PriorIs(limits, entries, lru, tick, ticks, key, now);
      if key !in entries && |entries| == TABLE_CAPACITY {
        RoomMade(View(), key);
        PopFirst();
        PriorIs(limits, entries, lru, tick, ticks, key, now);
      }
      if tick == U64_MAX {
        Renumber();
      }
      allowed := Touch(key, cost, drain, now);
    }

    /** Fresh ticks from zero in the same order; nothing else changes. */
    method Renumber()
      requires Valid()
      modifies this`entries, this`lru, this`tick, this`ticks
      ensures Valid() && View() == old(View()) && tick == |entries| && entries.Keys == old(entries.Keys)
    {
      var keys := KeysByTick(lru, ticks, tick);
      KeysAreDistinct(entries, lru, tick, ticks, keys);
      ghost var before, index := entries, lru;
      entries, lru := Numbered(entries, keys);
      NumberedIsIndexed(before, entries, lru, keys);
      NumberedSlots(before, index, ticks, entries, lru, keys);
      ticks := Upto(|keys|);
      tick := |entries|;
    }
  }

  /** Where a resident key is in the list. */
  lemma ResidentAt<K>(entries: map<K, Entry>, lru: map<nat, K>, tick: nat, ticks: seq<nat>, key: K) returns (p: nat)
    requires Indexed(entries, lru, tick) && Listed(lru, ticks) && key in entries
    ensures p < |ticks| && ticks[p] == entries[key].tick && Position(Slots(entries, lru, ticks), key) == Some(p)
  {
    p :| 0 <= p < |ticks| && ticks[p] == entries[key].tick;
    var list := Slots(entries, lru, ticks);
    forall i | 0 <= i < |list| && list[i].key == key ensures i == p {
      assert entries[lru[ticks[i]]].tick == ticks[i];
    }
    assert list[p].key == key;
  }

  lemma AbsentFrom<K>(entries: map<K, Entry>, lru: map<nat, K>, tick: nat, ticks: seq<nat>, key: K)
    requires Indexed(entries, lru, tick) && Listed(lru, ticks) && key !in entries
    ensures Position(Slots(entries, lru, ticks), key).None?
  {
  }

  /** A new key goes to the end. */
  lemma Appended<K>(entries: map<K, Entry>, lru: map<nat, K>, tick: nat, ticks: seq<nat>, key: K, bucket: Bucket)
    requires Indexed(entries, lru, tick) && Listed(lru, ticks) && key !in entries
    ensures var after, index := entries[key := Entry(bucket, tick)], lru[tick := key];
            && Indexed(after, index, tick + 1) && Listed(index, ticks + [tick])
            && Slots(after, index, ticks + [tick]) == Slots(entries, lru, ticks) + [Slot(key, bucket)]
  {
    var after, index := entries[key := Entry(bucket, tick)], lru[tick := key];
    var more := ticks + [tick];
    assert more[|ticks|] == tick;
    forall t | t in index ensures t in more {
      if t in lru {
        var i :| 0 <= i < |ticks| && ticks[i] == t;
        assert more[i] == t;
      }
    }
    assert Indexed(after, index, tick + 1);
    assert Listed(index, more);
    assert Slots(after, index, more) == Slots(entries, lru, ticks) + [Slot(key, bucket)];
  }

  function Cut<T>(s: seq<T>, p: nat): (r: seq<T>)
    requires p < |s|
    ensures |r| == |s| - 1
    ensures forall i :: 0 <= i < p ==> r[i] == s[i]
    ensures forall i :: p <= i < |r| ==> r[i] == s[i + 1]
  {
    s[..p] + s[p + 1..]
  }

  lemma CutFirst<T>(s: seq<T>)
    requires s != []
    ensures Cut(s, 0) == s[1..]
  {
  }

  lemma CutListed<K>(lru: map<nat, K>, ticks: seq<nat>, p: nat)
    requires Listed(lru, ticks) && p < |ticks|
    ensures Listed(Without(lru, ticks[p]), Cut(ticks, p))
  {
    var left := Cut(ticks, p);
    CutSorted(ticks, p);
    forall t | t in lru && t != ticks[p] ensures t in left {
      var i :| 0 <= i < |ticks| && ticks[i] == t;
      assert left[if i < p then i else i - 1] == t;
    }
  }

  lemma CutSorted(ticks: seq<nat>, p: nat)
    requires Sorted(ticks) && p < |ticks|
    ensures Sorted(Cut(ticks, p))
    ensures forall i :: 0 <= i < |Cut(ticks, p)| ==> Cut(ticks, p)[i] in ticks && Cut(ticks, p)[i] != ticks[p]
  {
    var left := Cut(ticks, p);
    forall i | 0 <= i < |left| ensures left[i] in ticks && left[i] != ticks[p] {
      var j := if i < p then i else i + 1;
      assert left[i] == ticks[j];
      assert j < p ==> ticks[j] < ticks[p];
    }
  }

  lemma CutSlots<K>(entries: map<K, Entry>, lru: map<nat, K>, tick: nat, ticks: seq<nat>, p: nat)
    requires Indexed(entries, lru, tick) && Listed(lru, ticks) && p < |ticks|
    requires var fewer, index := Without(entries, lru[ticks[p]]), Without(lru, ticks[p]);
             Indexed(fewer, index, tick) && Listed(index, Cut(ticks, p))
    ensures Slots(Without(entries, lru[ticks[p]]), Without(lru, ticks[p]), Cut(ticks, p)) == Cut(Slots(entries, lru, ticks), p)
  {
    var all, some := Slots(entries, lru, ticks), Slots(Without(entries, lru[ticks[p]]), Without(lru, ticks[p]), Cut(ticks, p));
    forall i | 0 <= i < |some| ensures some[i] == Cut(all, p)[i] {
      assert Cut(ticks, p)[i] == ticks[if i < p then i else i + 1];
    }
  }

  /** Taking a resident key's slot out. */
  lemma Removed<K>(entries: map<K, Entry>, lru: map<nat, K>, tick: nat, ticks: seq<nat>, p: nat)
    requires Indexed(entries, lru, tick) && Listed(lru, ticks) && p < |ticks|
    ensures var fewer, index := Without(entries, lru[ticks[p]]), Without(lru, ticks[p]);
            && Indexed(fewer, index, tick) && Listed(index, Cut(ticks, p))
            && Slots(fewer, index, Cut(ticks, p)) == Cut(Slots(entries, lru, ticks), p)
  {
    IndexedWithout(entries, lru, tick, ticks[p]);
    CutListed(lru, ticks, p);
    CutSlots(entries, lru, tick, ticks, p);
  }

  lemma PriorIs<K>(l: Limits, entries: map<K, Entry>, lru: map<nat, K>, tick: nat, ticks: seq<nat>, key: K, now: nat)
    requires Indexed(entries, lru, tick) && Listed(lru, ticks)
    ensures Prior(l, Slots(entries, lru, ticks), key, now) == if key in entries then entries[key].bucket else Bucket(l.start, now)
  {
    if key in entries {
      var p := ResidentAt(entries, lru, tick, ticks, key);
    } else {
      AbsentFrom(entries, lru, tick, ticks, key);
    }
  }

  /** The table stands for the list. */
  ghost predicate Stands<K>(entries: map<K, Entry>, lru: map<nat, K>, tick: nat, ticks: seq<nat>, list: seq<Slot<K>>) {
    Indexed(entries, lru, tick) && Listed(lru, ticks) && |entries| == |ticks| && Slots(entries, lru, ticks) == list
  }

  lemma StandsWithout<K>(entries: map<K, Entry>, lru: map<nat, K>, tick: nat, ticks: seq<nat>, list: seq<Slot<K>>, key: K)
    returns (left: seq<nat>)
    requires Stands(entries, lru, tick, ticks, list) && key in entries
    ensures Position(list, key).Some?
    ensures Stands(Without(entries, key), Without(lru, entries[key].tick), tick, left, Others(list, key))
  {
    var p := ResidentAt(entries, lru, tick, ticks, key);
    Removed(entries, lru, tick, ticks, p);
    left := Cut(ticks, p);
  }

  lemma StandsWith<K>(entries: map<K, Entry>, lru: map<nat, K>, tick: nat, ticks: seq<nat>, list: seq<Slot<K>>, key: K, bucket: Bucket)
    requires Stands(entries, lru, tick, ticks, list) && key !in entries
    ensures Stands(entries[key := Entry(bucket, tick)], lru[tick := key], tick + 1, ticks + [tick], list + [Slot(key, bucket)])
  {
    Appended(entries, lru, tick, ticks, key, bucket);
  }

  /** The table after the key got the newest tick; `left` are the other ticks. */
  lemma Touched<K>(entries: map<K, Entry>, lru: map<nat, K>, tick: nat, ticks: seq<nat>, list: seq<Slot<K>>, key: K, bucket: Bucket)
    returns (left: seq<nat>)
    requires Stands(entries, lru, tick, ticks, list) && (key in entries || |ticks| < TABLE_CAPACITY)
    ensures Stands(entries[key := Entry(bucket, tick)],
                   Without(lru, if key in entries then entries[key].tick else tick)[tick := key],
                   tick + 1, left + [tick], Others(list, key) + [Slot(key, bucket)])
    ensures |left| == (if key in entries then |ticks| - 1 else |ticks|)
  {
    if key in entries {
      left := StandsWithout(entries, lru, tick, ticks, list, key);
      StandsWith(Without(entries, key), Without(lru, entries[key].tick), tick, left, Others(list, key), key, bucket);
      PutBack(entries, key, Entry(bucket, tick));
    } else {
      AbsentFrom(entries, lru, tick, ticks, key);
      left := ticks;
      StandsWith(entries, lru, tick, ticks, list, key, bucket);
      WithoutAbsent(lru, tick);
    }
  }

  /** A full list makes room for a new key by dropping its first. */
  lemma RoomMade<K>(list: seq<Slot<K>>, key: K)
    requires Position(list, key).None? && |list| == TABLE_CAPACITY
    ensures Position(list[1..], key).None? && Others(list[1..], key) == Others(list, key)
  {
  }

  function Upto(n: nat): (s: seq<nat>)
    ensures |s| == n && forall i :: 0 <= i < n ==> s[i] == i
  {
    seq(n, i requires 0 <= i => i)
  }

  ghost predicate KeysOf<K>(entries: map<K, Entry>, keys: seq<K>) {
    && |keys| == |entries|
    && (forall i :: 0 <= i < |keys| ==> keys[i] in entries)
    && (forall k :: k in entries ==> k in keys)
    && (forall i, j :: 0 <= i < j < |keys| ==> keys[i] != keys[j])
  }

  lemma KeysAreDistinct<K>(entries: map<K, Entry>, lru: map<nat, K>, tick: nat, ticks: seq<nat>, keys: seq<K>)
    requires Indexed(entries, lru, tick) && Listed(lru, ticks) && |entries| == |ticks|
    requires |keys| == |ticks| && forall i :: 0 <= i < |keys| ==> keys[i] == lru[ticks[i]]
    ensures KeysOf(entries, keys)
  {
    forall k | k in entries ensures k in keys {
      var i :| 0 <= i < |ticks| && ticks[i] == entries[k].tick;
      assert keys[i] == k;
    }
    forall i, j | 0 <= i < j < |keys| ensures keys[i] != keys[j] {
      assert entries[keys[i]].tick == ticks[i] && entries[keys[j]].tick == ticks[j];
    }
  }

  /** Each key in turn gets its place as its tick. */
  method Numbered<K(==)>(before: map<K, Entry>, keys: seq<K>) returns (entries: map<K, Entry>, lru: map<nat, K>)
    requires KeysOf(before, keys)
    ensures entries.Keys == before.Keys
    ensures forall i :: 0 <= i < |keys| ==> keys[i] in entries && entries[keys[i]] == Entry(before[keys[i]].bucket, i)
    ensures (forall t: nat :: t in lru <==> t < |keys|) && forall i :: 0 <= i < |keys| ==> lru[i] == keys[i]
  {
    entries, lru := before, map[];
    for i := 0 to |keys|
      invariant entries.Keys == before.Keys
      invariant forall j :: 0 <= j < i ==> entries[keys[j]] == Entry(before[keys[j]].bucket, j)
      invariant forall j :: i <= j < |keys| ==> entries[keys[j]] == before[keys[j]]
      invariant (forall t: nat :: t in lru <==> t < i) && forall j :: 0 <= j < i ==> lru[j] == keys[j]
    {
      entries := entries[keys[i] := entries[keys[i]].(tick := i)];
      lru := lru[i := keys[i]];
    }
  }

  lemma NumberedIsIndexed<K>(before: map<K, Entry>, entries: map<K, Entry>, lru: map<nat, K>, keys: seq<K>)
    requires KeysOf(before, keys) && entries.Keys == before.Keys
    requires forall i :: 0 <= i < |keys| ==> keys[i] in entries && entries[keys[i]] == Entry(before[keys[i]].bucket, i)
    requires (forall t: nat :: t in lru <==> t < |keys|) && forall i :: 0 <= i < |keys| ==> lru[i] == keys[i]
    ensures Indexed(entries, lru, |entries|) && Listed(lru, Upto(|keys|)) && |entries| == |keys|
  {
    assert |entries.Keys| == |entries| && |before.Keys| == |before|;
    forall k | k in entries ensures entries[k].tick in lru && lru[entries[k].tick] == k {
      var i :| 0 <= i < |keys| && keys[i] == k;
    }
    forall t | t in lru ensures t in Upto(|keys|) {
      assert Upto(|keys|)[t] == t;
    }
  }

  /** Renumbering is invisible. */
  lemma NumberedSlots<K>(before: map<K, Entry>, index: map<nat, K>, ticks: seq<nat>, entries: map<K, Entry>, lru: map<nat, K>, keys: seq<K>)
    requires |keys| == |ticks| && forall i :: 0 <= i < |ticks| ==> ticks[i] in index && index[ticks[i]] == keys[i] && keys[i] in before
    requires forall i :: 0 <= i < |keys| ==> keys[i] in entries && entries[keys[i]].bucket == before[keys[i]].bucket
    requires forall i :: 0 <= i < |keys| ==> i in lru && lru[i] == keys[i]
    ensures Slots(entries, lru, Upto(|keys|)) == Slots(before, index, ticks)
  {
  }

  /** The smallest key of an ordered map. */
  method FirstKey<K>(m: map<nat, K>, ghost least: nat) returns (t: nat)
    requires least in m && forall u :: u in m ==> least <= u
    ensures t == least
  {
    t := 0;
    while t !in m
      invariant t <= least
      decreases least - t
    {
      t := t + 1;
    }
  }

  /** The index's keys in tick order, as iterating the ordered map gives them. */
  method KeysByTick<K>(lru: map<nat, K>, ghost ticks: seq<nat>, end: nat) returns (keys: seq<K>)
    requires Listed(lru, ticks) && forall t :: t in lru ==> t < end
    ensures |keys| == |ticks| && forall i :: 0 <= i < |keys| ==> keys[i] == lru[ticks[i]]
  {
    keys := [];
    for t := 0 to end
      invariant |keys| <= |ticks|
      invariant forall i :: 0 <= i < |keys| ==> ticks[i] < t && keys[i] == lru[ticks[i]]
      invariant forall i :: |keys| <= i < |ticks| ==> t <= ticks[i]
      invariant |keys| < |ticks| ==> t <= ticks[|keys|]
    {
      if t in lru {
        ghost var i :| 0 <= i < |ticks| && ticks[i] == t;
        assert forall a :: 0 <= a < i ==> ticks[a] < t;
        assert i == |keys|;
        keys := keys + [lru[t]];
      }
    }
    assert forall i :: 0 <= i < |ticks| ==> ticks[i] in lru;
  }

  // ----- the rate window -----

  class RateWindow {
    const perMinute: nat
    var credit: nat
    var last: nat
    /** Attempts allowed, and time credited, since the window was made. */
    ghost var granted: nat
    ghost var counted: nat

    /** Every attempt allowed so far was paid for by the starting minute or by time since. */
    ghost predicate Paid()
      reads this
    {
      && credit <= perMinute * TOKEN
      && granted * TOKEN + credit <= perMinute * TOKEN + counted * perMinute
    }

    constructor (perMinute: nat, now: nat)
      ensures this.perMinute == perMinute && State() == Window(perMinute * TOKEN, now)
      ensures Paid() && granted == 0 && counted == 0
    {
      this.perMinute := perMinute;
      credit, last := perMinute * TOKEN, now;
      granted, counted := 0, 0;
    }

    function State(): Window
      reads this
    {
      Window(credit, last)
    }

    /** Allowed exactly when the capped credit covers a token, which is then spent. */
    method At(now: nat) returns (allowed: bool)
      requires Paid()
      modifies this
      ensures Paid() && last == now
      ensures granted == old(granted) + (if allowed then 1 else 0)
      ensures counted == old(counted) + Since(now, old(last))
      ensures var held := Min(old(credit) + Times(Since(now, old(last)), perMinute), perMinute * TOKEN);
              (allowed <==> held >= TOKEN) && credit + (if allowed then TOKEN else 0) == held
      ensures (State(), allowed) == WindowAt(perMinute, old(State()), now)
    {
      ghost var elapsed := Since(now, last);
      Distribute(counted, elapsed, perMinute);
      counted := counted + elapsed;
      credit := credit + Times(Since(now, last), perMinute);
      if credit > perMinute * TOKEN {
        credit := perMinute * TOKEN;
      }
      last := now;
      if credit < TOKEN {
        return false;
      }
      credit := credit - TOKEN;
      granted := granted + 1;
      allowed := true;
    }
  }
}
