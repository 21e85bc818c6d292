/**
 * The predefined `Range` source (LinqGen/Predefined/RangeEnumerable.cs): an
 * immutable `(start, count)` pair with an O(1) `Count`, a plain enumerator
 * and a `(skip, take)` slice enumerator. All arithmetic is C#'s unchecked
 * 32-bit arithmetic.
 */
module Range {
  import opened Wrappers
  import opened Int32
  import Linq

  /** The integers a range stands for: `start, start + 1, ...`, `count` of them (none for a negative count). */
  function RangeValues(start: int32, count: int32): (xs: seq<int32>)
    ensures |xs| == if count < 0 then 0 else count as int
  {
    seq<int32>(if count < 0 then 0 else count as int, k => Wrap(start as int + k))
  }

  /** `NotSupportedException`, the only outcome of `Reset`. */
  datatype EnumeratorError = NotSupported

  datatype RangeEnumerable = RangeEnumerable(start: int32, count: int32)
  {
    /** `Count`: the number of elements, read without enumerating. */
    function Count(): (n: int32)
      ensures n == count
      ensures 0 <= count ==> n as int == |RangeValues(start, count)|
    {
      count
    }

    /** The bounds `GetSliceEnumerator(skip, take)` hands to its enumerator. */
    function SliceBounds(skip: int32, take: Option<int32>): (b: (int32, int32))
      ensures b.0 == Wrap(start as int + skip as int)
      ensures take.None? ==> b.1 == Wrap(count as int - skip as int)
      ensures take.Some? ==> b.1 <= take.value && b.1 <= Wrap(count as int - skip as int)
      ensures take.Some? ==> b.1 == take.value || b.1 == Wrap(count as int - skip as int)
    {
      var rest := Wrap(count as int - skip as int);
      (Wrap(start as int + skip as int),
       match take
       case Some(t) => if rest < t then rest else t
       case None => rest)
    }

    /** `GetEnumerator`: an enumerator over the stored bounds. */
    method GetEnumerator() returns (e: Enumerator)
      ensures fresh(e) && e.start == start && e.count == count && e.index == -1
    {
      e := new Enumerator(start, count);
    }

    /** `GetSliceEnumerator`: an enumerator over `SliceBounds(skip, take)`. */
    method GetSliceEnumerator(skip: int32, take: Option<int32>) returns (e: Enumerator)
      ensures fresh(e) && (e.start, e.count) == SliceBounds(skip, take) && e.index == -1
    {
      var rest := count - skip;
      e := new Enumerator(Wrap(start as int + skip as int),
                          match take
                          case Some(t) => if Wrap(rest) < t then Wrap(rest) else t
                          case None => Wrap(rest));
    }
  }

  /**
   * For a non-negative count and skip, the slice enumerator's bounds describe
   * exactly `Range(start, count).Skip(skip).Take(take)` (or `.Skip(skip)`
   * alone when no take is given).
   */
  lemma {:induction false} SliceIsSkipTake(r: RangeEnumerable, skip: int32, take: Option<int32>)
    requires 0 <= r.count && 0 <= skip
    ensures var b := r.SliceBounds(skip, take);
            var rest := Linq.Skip(RangeValues(r.start, r.count), skip as int);
            RangeValues(b.0, b.1) == (if take.Some? then Linq.Take(rest, take.value as int) else rest)
  {
    var b := r.SliceBounds(skip, take);
    var rest := Linq.Skip(RangeValues(r.start, r.count), skip as int);
    var want := if take.Some? then Linq.Take(rest, take.value as int) else rest;
    var got := RangeValues(b.0, b.1);
    SliceLength(r, skip, take);
    forall k | 0 <= k < |got| ensures got[k] == want[k] {
      SliceElement(r, skip, take, k);
    }
  }

  /** The slice has as many elements as skipping and then taking leaves. */
  lemma SliceLength(r: RangeEnumerable, skip: int32, take: Option<int32>)
    requires 0 <= r.count && 0 <= skip
    ensures var b := r.SliceBounds(skip, take);
            var rest := Linq.Skip(RangeValues(r.start, r.count), skip as int);
            |RangeValues(b.0, b.1)| == |if take.Some? then Linq.Take(rest, take.value as int) else rest|
  {
    assert Wrap(r.count as int - skip as int) == r.count as int - skip as int;
  }

  /** Element k of the slice is element `skip + k` of the whole range. */
  lemma SliceElement(r: RangeEnumerable, skip: int32, take: Option<int32>, k: nat)
    requires 0 <= r.count && 0 <= skip
    requires k < |RangeValues(r.SliceBounds(skip, take).0, r.SliceBounds(skip, take).1)|
    requires var rest := Linq.Skip(RangeValues(r.start, r.count), skip as int);
             k < |if take.Some? then Linq.Take(rest, take.value as int) else rest|
    ensures var b := r.SliceBounds(skip, take);
            var rest := Linq.Skip(RangeValues(r.start, r.count), skip as int);
            RangeValues(b.0, b.1)[k] == (if take.Some? then Linq.Take(rest, take.value as int) else rest)[k]
  {
    var b := r.SliceBounds(skip, take);
    var full := RangeValues(r.start, r.count);
    var rest := Linq.Skip(full, skip as int);
    var want := if take.Some? then Linq.Take(rest, take.value as int) else rest;
    calc {
      RangeValues(b.0, b.1)[k];
      Wrap(Wrap(r.start as int + skip as int) + k);
      { WrapAdd(r.start as int + skip as int, k); }
      Wrap(r.start as int + skip as int + k);
      { assert r.start as int + skip as int + k == r.start as int + (skip as int + k); }
      Wrap(r.start as int + (skip as int + k));
      full[skip as int + k];
      want[k];
    }
  }


  /**
   * `RangeEnumerable.Enumerator`: `index` starts at -1, `MoveNext`
   * pre-increments it and `Current` is `start + index`.
   */
  class Enumerator {
    const start: int32
    const count: int32
    var index: int32

    constructor (start: int32, count: int32)
      ensures this.start == start && this.count == count && index == -1
    {
      this.start := start;
      this.count := count;
      index := -1;
    }

    /** `MoveNext`: `++index < count`. */
    method MoveNext() returns (more: bool)
      modifies this
      ensures index == Wrap(old(index) as int + 1)
      ensures more <==> index < count
    {
      index := Wrap(index as int + 1);
      more := index < count;
    }

    /** `Current`: while the enumerator is on an element, the range's element at `index`. */
    function Current(): (c: int32)
      reads this
      ensures 0 <= index < count ==> c == RangeValues(start, count)[index]
    {
      Wrap(start as int + index as int)
    }

    /** `Reset` is not supported. */
    function Reset(): (r: Result<(), EnumeratorError>)
      ensures r == Failure(NotSupported)
    {
      Failure(NotSupported)
    }

    /** `Dispose` does nothing: the enumerator stays where it is. */
    method Dispose()
      ensures index == old(index)
    {
    }
  }

  /**
   * The loop generated code runs over an enumerator,
   * `while (e.MoveNext()) use(e.Current);`, collecting what it sees: from a
   * fresh enumerator with a non-negative count, `MoveNext` returns true
   * exactly `count` times and the values seen are the range's values, in order.
   */
  method Drain(e: Enumerator) returns (xs: seq<int32>)
    requires e.index == -1 && 0 <= e.count
    modifies e
    ensures xs == RangeValues(e.start, e.count)
    ensures e.index == e.count
  {
    xs := [];
    var more := e.MoveNext();
    while more
      invariant -1 <= e.index as int - 1 < e.count && more == (e.index < e.count)
      invariant xs == RangeValues(e.start, e.index)
      decreases e.count - e.index
    {
      xs := xs + [e.Current()];
      more := e.MoveNext();
    }
  }
}
