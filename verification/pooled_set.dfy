/**
 * The pooled hash set that generated code uses for de-duplication
 * (LinqGen/Core/Collections/Managed/PooledSetManaged.cs).
 *
 * A chained hash set stored in two arrays: `buckets[b]` is the 1-based index
 * of the first slot of bucket b's chain (0: empty bucket) and each slot holds
 * the cached hash, the value and the 0-based index of the next slot in the
 * same chain (-1: end of chain). Slots are filled in order, so slots
 * `0 .. count-1` are exactly the stored entries.
 */
module PooledSet {
  import opened Wrappers
  import opened Int32

  /** One entry of `_slots`. */
  datatype Slot<T> = Slot(hashCode: int32, value: T, next: int)

  /**
   * The set's `TComparer` (hash and equality), together with the run-time
   * null test that `GetHashCode` performs before it asks the comparer.
   */
  datatype Comparer<!T> = Comparer(hash: T -> int32, equals: (T, T) -> bool, isNull: T -> bool)

  /** The two `InvalidOperationException`s that `Add` can throw. */
  datatype SetError = CapacityOverflow | ConcurrentOperations

  /** `Reduce`: the bucket of a hash code, `(uint)hashCode % (uint)size`. */
  function Reduce(hashCode: int32, size: int): (b: nat)
    requires 0 < size <= MaxInt32
    ensures b < size
  {
    ToUnsigned(hashCode) % size
  }

  /**
   * `c` is the chain that bucket `b` heads with the 1-based index `head`: it
   * follows `next` through `ss`, visits only slots below `n` whose hash
   * reduces to `b`, never visits a slot twice and ends with -1.
   */
  ghost predicate IsChain<T>(head: int, ss: seq<Slot<T>>, n: nat, size: int, b: nat, c: seq<nat>)
    requires 0 < size <= MaxInt32
  {
    && n <= |ss|
    && head == (if c == [] then 0 else c[0] + 1)
    && (forall k :: 0 <= k < |c| ==> c[k] < n && Reduce(ss[c[k]].hashCode, size) == b)
    && (forall k {:trigger ss[c[k]].next} :: 0 <= k < |c| ==>
          ss[c[k]].next == if k + 1 < |c| then c[k + 1] else -1)
    && (forall k, m :: 0 <= k < m < |c| ==> c[k] != c[m])
  }

  /**
   * The bucket table `bs` over the first `n` slots of `ss`: every bucket below
   * `size` heads a well-formed chain, and every stored slot lies on the chain
   * of the bucket its hash reduces to.
   */
  ghost predicate IsTable<T>(bs: seq<int>, ss: seq<Slot<T>>, n: nat, size: int, chains: seq<seq<nat>>)
    requires 0 < size <= MaxInt32
  {
    && size <= |bs|
    && n <= |ss|
    && |chains| == size
    && (forall b :: 0 <= b < size ==> IsChain(bs[b], ss, n, size, b, chains[b]))
    && (forall j :: 0 <= j < n ==> j in chains[Reduce(ss[j].hashCode, size)])
  }

  /** An empty table: all buckets 0, no chains. */
  lemma EmptyTable<T>(bs: seq<int>, ss: seq<Slot<T>>, size: int)
    requires 0 < size <= MaxInt32
    requires size <= |bs|
    requires forall b :: 0 <= b < size ==> bs[b] == 0
    ensures IsTable(bs, ss, 0, size, seq(size, _ => []))
  {
  }

  /** Adding slot `n` to the table leaves a chain that does not gain it intact. */
  lemma KeepChain<T>(head: int, ss: seq<Slot<T>>, n: nat, size: int, d: nat, c: seq<nat>, s: Slot<T>)
    requires 0 < size <= MaxInt32
    requires IsChain(head, ss, n, size, d, c) && n < |ss|
    ensures IsChain(head, ss[n := s], n + 1, size, d, c)
  {
    forall k | 0 <= k < |c| ensures ss[n := s][c[k]] == ss[c[k]] {
      assert c[k] < n;
    }
  }

  /** Slot `n`, linked in front of bucket `b`'s chain, becomes that chain's head. */
  lemma {:induction false} ConsChain<T>(head: int, ss: seq<Slot<T>>, n: nat, size: int, b: nat,
                                        c: seq<nat>, s: Slot<T>)
    requires 0 < size <= MaxInt32
    requires IsChain(head, ss, n, size, b, c) && n < |ss|
    requires Reduce(s.hashCode, size) == b && s.next == head - 1
    ensures IsChain(n + 1, ss[n := s], n + 1, size, b, [n] + c)
  {
    ConsLinks(head, ss, n, size, b, c, s);
    ConsDistinct(c, n);
  }

  /** The links of the extended chain: slot `n` first, then the old chain unchanged. */
  lemma ConsLinks<T>(head: int, ss: seq<Slot<T>>, n: nat, size: int, b: nat, c: seq<nat>, s: Slot<T>)
    requires 0 < size <= MaxInt32
    requires IsChain(head, ss, n, size, b, c) && n < |ss|
    requires Reduce(s.hashCode, size) == b && s.next == head - 1
    ensures var ss', c' := ss[n := s], [n] + c;
            forall k {:trigger c'[k]} :: 0 <= k < |c'| ==>
              && c'[k] < n + 1 && Reduce(ss'[c'[k]].hashCode, size) == b
              && ss'[c'[k]].next == if k + 1 < |c'| then c'[k + 1] else -1
  {
    var ss', c' := ss[n := s], [n] + c;
    forall k | 0 <= k < |c'|
      ensures c'[k] < n + 1 && Reduce(ss'[c'[k]].hashCode, size) == b
      ensures ss'[c'[k]].next == if k + 1 < |c'| then c'[k + 1] else -1
    {
      if k == 0 {
        assert ss'[c'[0]] == s;
        if |c| > 0 {
          assert c'[1] == c[0];
        }
      } else {
        var i := c[k - 1];
        assert c'[k] == i && i < n;
        assert ss'[i] == ss[i];
        assert ss[c[k - 1]].next == if k < |c| then c[k] else -1;
        if k < |c| {
          assert c'[k + 1] == c[k];
        }
      }
    }
  }

  /** Putting a slot index above every index of a duplicate-free chain in front keeps it duplicate-free. */
  lemma ConsDistinct(c: seq<nat>, n: nat)
    requires forall k :: 0 <= k < |c| ==> c[k] < n
    requires forall k, m :: 0 <= k < m < |c| ==> c[k] != c[m]
    ensures forall k, m :: 0 <= k < m < |[n] + c| ==> ([n] + c)[k] != ([n] + c)[m]
  {
    var c' := [n] + c;
    forall k, m | 0 <= k < m < |c'| ensures c'[k] != c'[m] {
      assert c'[m] == c[m - 1] && c[m - 1] < n;
      if k > 0 {
        assert c'[k] == c[k - 1];
      }
    }
  }

  /**
   * Storing slot `n` as the new head of its bucket (what `Add` does with a
   * new value and what `SetCapacity` does with each re-threaded slot) keeps
   * the table well formed over `n + 1` slots.
   */
  lemma {:induction false} PushHead<T>(bs: seq<int>, ss: seq<Slot<T>>, n: nat, size: int,
                                       chains: seq<seq<nat>>, s: Slot<T>)
    requires 0 < size <= MaxInt32
    requires IsTable(bs, ss, n, size, chains)
    requires n < |ss|
    requires s.next == bs[Reduce(s.hashCode, size)] - 1
    ensures var b := Reduce(s.hashCode, size);
            IsTable(bs[b := n + 1], ss[n := s], n + 1, size, chains[b := [n] + chains[b]])
  {
    var b := Reduce(s.hashCode, size);
    var bs', ss', chains' := bs[b := n + 1], ss[n := s], chains[b := [n] + chains[b]];
    forall d | 0 <= d < size
      ensures IsChain(bs'[d], ss', n + 1, size, d, chains'[d])
    {
      if d == b {
        ConsChain(bs[d], ss, n, size, d, chains[d], s);
      } else {
        KeepChain(bs[d], ss, n, size, d, chains[d], s);
      }
    }
    forall j | 0 <= j < n + 1
      ensures j in chains'[Reduce(ss'[j].hashCode, size)]
    {
      if j < n {
        assert ss'[j] == ss[j];
        var e := Reduce(ss[j].hashCode, size);
        assert j in chains[e];
        if e == b {
          assert chains'[e] == [n] + chains[e];
        }
      } else {
        assert chains'[b][0] == n;
      }
    }
  }

  /** A chain of distinct slot indices below `n` has at most `n` entries. */
  lemma {:induction false} ChainBound(c: seq<nat>, n: nat)
    requires forall k :: 0 <= k < |c| ==> c[k] < n
    requires forall k, m :: 0 <= k < m < |c| ==> c[k] != c[m]
    ensures |c| <= n
  {
    if |c| == 0 {
    } else if p :| 0 <= p < |c| && c[p] == n - 1 {
      var c' := c[..p] + c[p + 1..];
      forall k | 0 <= k < |c'| ensures c'[k] < n - 1 {
        var k0 := if k < p then k else k + 1;
        assert c'[k] == c[k0] && k0 != p;
      }
      forall k, m | 0 <= k < m < |c'| ensures c'[k] != c'[m] {
        var k0, m0 := if k < p then k else k + 1, if m < p then m else m + 1;
        assert c'[k] == c[k0] && c'[m] == c[m0] && k0 < m0;
      }
      ChainBound(c', n - 1);
    } else {
      assert c[0] < n;
      forall k | 0 <= k < |c| ensures c[k] < n - 1 {
        assert c[k] != n - 1;
      }
      ChainBound(c, n - 1);
    }
  }

  /** The values of a run of slots, in order. */
  function Values<T>(ss: seq<Slot<T>>): (vs: seq<T>)
    ensures |vs| == |ss| && forall j :: 0 <= j < |ss| ==> vs[j] == ss[j].value
  {
    seq(|ss|, j requires 0 <= j < |ss| => ss[j].value)
  }

  /** `GetHashCode`: a null item hashes to 0, anything else by the comparer. */
  function HashOf<T>(cmp: Comparer<T>, item: T): int32
  {
    if cmp.isNull(item) then 0 else cmp.hash(item)
  }

  /** Slot `s` has `v`'s hash code and is comparer-equal to `v`: the test of `Add` and `Contains`. */
  predicate SlotMatches<T>(cmp: Comparer<T>, s: Slot<T>, v: T)
  {
    s.hashCode == HashOf(cmp, v) && cmp.equals(s.value, v)
  }

  /** Some slot among the first `n` of `ss` matches `v`. */
  ghost predicate Present<T>(cmp: Comparer<T>, ss: seq<Slot<T>>, n: int, v: T)
  {
    exists j :: 0 <= j < n && j < |ss| && SlotMatches(cmp, ss[j], v)
  }

  /**
   * Only the chain of `v`'s bucket can hold a slot matching `v`, so a walk
   * that finds no match there has shown that no stored slot matches.
   */
  lemma AbsentWhenChainHasNoMatch<T>(cmp: Comparer<T>, bs: seq<int>, ss: seq<Slot<T>>, n: nat,
                                     size: int, chains: seq<seq<nat>>, v: T)
    requires 0 < size <= MaxInt32
    requires IsTable(bs, ss, n, size, chains)
    requires var c := chains[Reduce(HashOf(cmp, v), size)];
             forall m :: 0 <= m < |c| ==> !SlotMatches(cmp, ss[c[m]], v)
    ensures !Present(cmp, ss, n, v)
  {
    forall j | 0 <= j < n ensures !SlotMatches(cmp, ss[j], v) {
      assert j in chains[Reduce(ss[j].hashCode, size)];
    }
  }

  /** The first `n` slots of `ss` and `ss'` hold the same hash codes and values. */
  ghost predicate SameEntries<T>(ss: seq<Slot<T>>, ss': seq<Slot<T>>, n: nat)
  {
    && n <= |ss| && n <= |ss'|
    && forall j :: 0 <= j < n ==> ss'[j].hashCode == ss[j].hashCode && ss'[j].value == ss[j].value
  }

  /**
   * Re-threading changes only `next` links: with the same hash codes and
   * values in the first `n` slots, exactly the same values are present.
   */
  lemma PresentKept<T>(cmp: Comparer<T>, ss: seq<Slot<T>>, ss': seq<Slot<T>>, n: nat)
    requires SameEntries(ss, ss', n)
    ensures forall v :: Present(cmp, ss', n, v) <==> Present(cmp, ss, n, v)
  {
    forall v ensures Present(cmp, ss', n, v) <==> Present(cmp, ss, n, v) {
      if Present(cmp, ss, n, v) {
        var j :| 0 <= j < n && j < |ss| && SlotMatches(cmp, ss[j], v);
        assert SlotMatches(cmp, ss'[j], v);
      }
      if Present(cmp, ss', n, v) {
        var j :| 0 <= j < n && j < |ss'| && SlotMatches(cmp, ss'[j], v);
        assert SlotMatches(cmp, ss[j], v);
      }
    }
  }

  /** Every one of the first `n` slots caches the hash code of its own value. */
  ghost predicate HashesCached<T>(cmp: Comparer<T>, ss: seq<Slot<T>>, n: nat)
    requires n <= |ss|
  {
    forall j :: 0 <= j < n ==> ss[j].hashCode == HashOf(cmp, ss[j].value)
  }

  /** No stored slot matches the value of a later one: `Add` never stores a duplicate. */
  ghost predicate Unique<T>(cmp: Comparer<T>, ss: seq<Slot<T>>, n: nat)
    requires n <= |ss|
  {
    forall i, j :: 0 <= i < j < n ==> !SlotMatches(cmp, ss[i], ss[j].value)
  }

  /**
   * Storing a slot for a value that no stored slot matches, with its hash
   * cached, as entry `n`: the values gain it at the end, hashes stay cached,
   * no duplicate appears, and the value is present when it equals itself.
   */
  lemma StoreEntry<T>(cmp: Comparer<T>, ss: seq<Slot<T>>, n: nat, s: Slot<T>)
    requires n < |ss| && HashesCached(cmp, ss, n) && Unique(cmp, ss, n)
    requires !Present(cmp, ss, n, s.value) && s.hashCode == HashOf(cmp, s.value)
    ensures var ss' := ss[n := s];
            && Values(ss'[..n + 1]) == Values(ss[..n]) + [s.value]
            && HashesCached(cmp, ss', n + 1) && Unique(cmp, ss', n + 1)
            && (cmp.equals(s.value, s.value) ==> Present(cmp, ss', n + 1, s.value))
  {
    var ss' := ss[n := s];
    assert Values(ss'[..n + 1]) == Values(ss[..n]) + [s.value];
    assert cmp.equals(s.value, s.value) ==> SlotMatches(cmp, ss'[n], s.value);
    forall i | 0 <= i < n ensures !SlotMatches(cmp, ss'[i], s.value) {
      assert ss'[i] == ss[i];
    }
  }

  /** The stored values, the cached hashes and uniqueness depend only on the entries. */
  lemma EntriesKept<T>(cmp: Comparer<T>, ss: seq<Slot<T>>, ss': seq<Slot<T>>, n: nat)
    requires SameEntries(ss, ss', n)
    requires HashesCached(cmp, ss, n) && Unique(cmp, ss, n)
    ensures HashesCached(cmp, ss', n) && Unique(cmp, ss', n)
    ensures Values(ss'[..n]) == Values(ss[..n])
  {
  }

  class PooledSetManaged<T(0)> {
    const comparer: Comparer<T>

    var buckets: array<int>
    var slots: array<Slot<T>>
    var size: int
    var count: int

    /** `chains[b]`: the slot indices on bucket b's chain, head first. */
    ghost var chains: seq<seq<nat>>

    /** The set's invariant. Pooled arrays may be longer than `size`. */
    ghost predicate Valid()
      reads this, buckets, slots
    {
      && 0 < size <= MaxInt32
      && 0 <= count <= size <= slots.Length
      && IsTable(buckets[..], slots[..], count, size, chains)
      && HashesCached(comparer, slots[..], count)
      && Unique(comparer, slots[..], count)
    }

    /** The stored values, in slot order. */
    ghost function Elements(): seq<T>
      reads this, slots
      requires 0 <= count <= slots.Length
    {
      Values(slots[..count])
    }

    /** Some stored slot matches `v`. */
    ghost predicate Has(v: T)
      reads this, slots
    {
      Present(comparer, slots[..], count, v)
    }

    /**
     * `PooledSetManaged(capacity, comparer)`. `primeSize` stands for the
     * result of `HashHelpers.GetPrime(capacity)`, which is not part of this
     * model; it throws for a negative capacity.
     */
    constructor (capacity: int32, comparer: Comparer<T>, primeSize: int32)
      requires 0 <= capacity <= primeSize && 0 < primeSize
      ensures Valid() && fresh(buckets) && fresh(slots)
      ensures this.comparer == comparer && size == primeSize as int && count == 0
      ensures forall b :: 0 <= b < buckets.Length ==> buckets[b] == 0
      ensures Elements() == []
      ensures forall v :: !Has(v)
    {
      this.comparer := comparer;
      size := primeSize as int;
      count := 0;
      buckets := new int[primeSize](_ => 0);
      slots := new Slot<T>[primeSize];
      chains := seq(primeSize, _ => []);
      new;
      EmptyTable(buckets[..], slots[..], size);
    }

    /**
     * `Contains`: walks the chain of `value`'s bucket and reports whether a
     * slot on it has the same hash code and is comparer-equal to `value`;
     * because every stored slot is on its own bucket's chain, that is the same
     * as asking whether any stored slot matches.
     */
    method Contains(value: T) returns (found: bool)
      requires Valid()
      ensures found <==> Has(value)
    {
      var hashCode := HashOf(comparer, value);
      var bucket := Reduce(hashCode, size);
      ghost var ss := slots[..];
      ghost var c := chains[bucket];
      assert IsChain(buckets[bucket], ss, count, size, bucket, c);
      var i := buckets[bucket] - 1;
      ghost var k := 0;
      while i >= 0
        invariant 0 <= k <= |c|
        invariant i == if k < |c| then c[k] else -1
        invariant forall m :: 0 <= m < k ==> !SlotMatches(comparer, ss[c[m]], value)
        decreases |c| - k
      {
        var slot := slots[i];
        assert slot == ss[c[k]];
        if slot.hashCode == hashCode && comparer.equals(slot.value, value) {
          return true;
        }
        i := slot.next;
        k := k + 1;
      }
      AbsentWhenChainHasNoMatch(comparer, buckets[..], ss, count, size, chains, value);
      return false;
    }

    /**
     * `Add`: returns false and changes nothing when a matching slot exists;
     * otherwise grows the table when it is full, stores `value` in slot
     * `count` as the new head of its bucket's chain and returns true.
     * `expandedSize` stands for `HashHelpers.ExpandPrime(count)`, which is not
     * part of this model; a result not above `count` is "Capacity overflow".
     * The "concurrent operations" failure needs a chain longer than `size`,
     * which a valid table never has.
     */
    method Add(value: T, expandedSize: int32) returns (r: Result<bool, SetError>)
      requires Valid()
      modifies this, buckets, slots
      ensures Valid()
      ensures r.Failure? ==> r.error == CapacityOverflow
      ensures r == Success(false) <==> old(Has(value))
      ensures r.Failure? <==> !old(Has(value)) && old(count) == old(size) && expandedSize as int <= old(count)
      ensures r != Success(true) ==>
        && buckets == old(buckets) && slots == old(slots) && unchanged(buckets, slots)
        && size == old(size) && count == old(count) && chains == old(chains)
      ensures r.Success? && comparer.equals(value, value) ==> Has(value)
      ensures r == Success(true) ==>
        && count == old(count) + 1
        && size == (if old(count) == old(size) then expandedSize as int else old(size))
        && Elements() == old(Elements()) + [value]
        && slots[old(count)].hashCode == HashOf(comparer, value)
        && chains[Reduce(HashOf(comparer, value), size)][0] == old(count)
      ensures (buckets == old(buckets) || fresh(buckets)) && (slots == old(slots) || fresh(slots))
    {
      var hashCode := HashOf(comparer, value);
      var bucket := Reduce(hashCode, size);
      var collisionCount := 0;
      ghost var ss := slots[..];
      ghost var c := chains[bucket];
      assert IsChain(buckets[bucket], ss, count, size, bucket, c);
      ChainBound(c, count);
      var i := buckets[bucket] - 1;
      ghost var k := 0;
      while i >= 0
        invariant 0 <= k <= |c|
        invariant collisionCount == k
        invariant i == if k < |c| then c[k] else -1
        invariant forall m :: 0 <= m < k ==> !SlotMatches(comparer, ss[c[m]], value)
        decreases |c| - k
      {
        var slot := slots[i];
        assert slot == ss[c[k]];
        if slot.hashCode == hashCode && comparer.equals(slot.value, value) {
          return Success(false);
        }
        if collisionCount >= size {
          return Failure(ConcurrentOperations);
        }
        collisionCount := collisionCount + 1;
        i := slot.next;
        k := k + 1;
      }
      AbsentWhenChainHasNoMatch(comparer, buckets[..], ss, count, size, chains, value);

      if count == size {
        var grown := IncreaseCapacity(expandedSize);
        if grown.Failure? {
          return Failure(grown.error);
        }
        PresentKept(comparer, ss, slots[..], count);
        bucket := Reduce(hashCode, size);
      }
      Insert(value, hashCode, bucket);
      return Success(true);
    }

    /**
     * The tail of `Add` once the table has room: slot `count` receives the
     * value and becomes the head of `bucket`'s chain.
     */
    method Insert(value: T, hashCode: int32, bucket: nat)
      requires Valid() && count < size
      requires hashCode == HashOf(comparer, value) && bucket == Reduce(hashCode, size)
      requires !Has(value)
      modifies this, buckets, slots
      ensures Valid()
      ensures buckets == old(buckets) && slots == old(slots) && size == old(size)
      ensures count == old(count) + 1
      ensures Elements() == old(Elements()) + [value]
      ensures slots[old(count)].hashCode == hashCode
      ensures chains == old(chains)[bucket := [old(count)] + old(chains)[bucket]]
      ensures comparer.equals(value, value) ==> Has(value)
    {
      var index := count;
      ghost var bs, ss := buckets[..], slots[..];
      var slot := Slot(hashCode, value, buckets[bucket] - 1);
      slots[index] := slot;
      buckets[bucket] := index + 1;
      PushHead(bs, ss, count, size, chains, slot);
      assert buckets[..] == bs[bucket := index + 1] && slots[..] == ss[index := slot];
      chains := chains[bucket := [index] + chains[bucket]];
      count := count + 1;
      StoreEntry(comparer, ss, index, slot);
    }

    /**
     * `IncreaseCapacity`: rehashes into `newSize` slots, or fails with
     * "Capacity overflow" when `newSize` is not above `count`.
     */
    method IncreaseCapacity(newSize: int32) returns (r: Result<(), SetError>)
      requires Valid()
      modifies this, buckets, slots
      ensures Valid() && count == old(count)
      ensures r.Failure? <==> newSize as int <= old(count)
      ensures r.Failure? ==>
        && r.error == CapacityOverflow && size == old(size) && chains == old(chains)
        && buckets == old(buckets) && slots == old(slots) && unchanged(buckets, slots)
      ensures r.Success? ==> size == newSize as int
      ensures Elements() == old(Elements())
      ensures SameEntries(old(slots[..]), slots[..], count)
      ensures (buckets == old(buckets) || fresh(buckets)) && (slots == old(slots) || fresh(slots))
    {
      if newSize as int <= count {
        return Failure(CapacityOverflow);
      }
      SetCapacity(newSize);
      return Success(());
    }

    /**
     * `SetCapacity`: re-threads every stored slot into the bucket its hash
     * reduces to under `newSize`, reusing the current arrays when they are
     * long enough and replacing them otherwise. Slot values and hash codes
     * are unchanged, so the stored values are unchanged.
     */
    method SetCapacity(newSize: int32)
      requires Valid()
      requires count < newSize as int
      modifies this, buckets, slots
      ensures Valid()
      ensures size == newSize as int && count == old(count)
      ensures Elements() == old(Elements())
      ensures SameEntries(old(slots[..]), slots[..], count)
      ensures (buckets == old(buckets) || fresh(buckets)) && (slots == old(slots) || fresh(slots))
    {
      ghost var was := slots[..];
      var newBuckets: array<int>;
      var replaceBucket: bool;
      if buckets.Length >= newSize as int && slots.Length >= newSize as int {
        forall b | 0 <= b < buckets.Length {
          buckets[b] := 0;
        }
        newBuckets := buckets;
        replaceBucket := false;
      } else {
        newBuckets := new int[newSize](_ => 0);
        replaceBucket := true;
        // the pooled slot array grows to newSize, keeping the first count slots
        var newSlots := new Slot<T>[newSize];
        forall j | 0 <= j < count {
          newSlots[j] := slots[j];
        }
        slots := newSlots;
      }
      assert SameEntries(was, slots[..], count);
      Rethread(newBuckets, newSize as int);
      if replaceBucket {
        buckets := newBuckets;
      }
      size := newSize as int;
      EntriesKept(comparer, was, slots[..], count);
    }

    /**
     * The loop of `SetCapacity`: every stored slot, in index order, is linked
     * in front of the chain of the bucket its hash reduces to under `newSize`.
     */
    method Rethread(newBuckets: array<int>, newSize: int)
      requires 0 <= count < newSize <= MaxInt32
      requires newSize <= newBuckets.Length && newSize <= slots.Length
      requires forall b :: 0 <= b < newSize ==> newBuckets[b] == 0
      modifies this, newBuckets, slots
      ensures buckets == old(buckets) && slots == old(slots) && count == old(count) && size == old(size)
      ensures IsTable(newBuckets[..], slots[..], count, newSize, chains)
      ensures SameEntries(old(slots[..]), slots[..], count)
    {
      ghost var was := slots[..];
      chains := seq(newSize, _ => []);
      EmptyTable(newBuckets[..], slots[..], newSize);
      for i := 0 to count
        invariant buckets == old(buckets) && slots == old(slots) && count == old(count) && size == old(size)
        invariant IsTable(newBuckets[..], slots[..], i, newSize, chains)
        invariant SameEntries(was, slots[..], count)
      {
        Link(newBuckets, newSize, i);
      }
    }

    /** One step of the `SetCapacity` loop: slot `i` becomes the head of its bucket's chain. */
    method Link(newBuckets: array<int>, newSize: int, i: nat)
      requires 0 < newSize <= MaxInt32 && i < slots.Length
      requires IsTable(newBuckets[..], slots[..], i, newSize, chains)
      modifies this`chains, newBuckets, slots
      ensures IsTable(newBuckets[..], slots[..], i + 1, newSize, chains)
      ensures forall j :: 0 <= j < slots.Length ==>
        slots[j] == if j == i then old(slots[i]).(next := slots[i].next) else old(slots[j])
    {
      var bucket := Reduce(slots[i].hashCode, newSize);
      ghost var bs, ss := newBuckets[..], slots[..];
      var slot := slots[i].(next := newBuckets[bucket] - 1);
      slots[i] := slot;
      newBuckets[bucket] := i + 1;
      PushHead(bs, ss, i, newSize, chains, slot);
      assert newBuckets[..] == bs[bucket := i + 1] && slots[..] == ss[i := slot];
      chains := chains[bucket := [i] + chains[bucket]];
    }

    /** `Dispose`: returns both arrays to their pools; size and count become 0. */
    method Dispose()
      modifies this
      ensures size == 0 && count == 0
      ensures buckets == old(buckets) && slots == old(slots)
    {
      size := 0;
      count := 0;
    }
  }
}
