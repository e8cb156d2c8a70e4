/**
 * A growable vector of integers. The Go slice that holds the elements is
 * modelled by the logical sequence `arr`; its capacity and growth are not
 * observable through the operations and are not part of the model.
 */
module DynamicArrays {
  import opened SeqSpec

  /** The two ways an operation can fail. */
  datatype Error = OutOfBounds | NotFound

  /** The value-and-error pair returned by `Get`. */
  datatype Result<T> = Ok(value: T) | Err(error: Error)

  /** The error-only return of `Set`, `RemoveAt` and `Remove`. */
  datatype Outcome = Done | Failed(error: Error)

  class IntArray {
    /** The elements, in order; indices run from 0 to |arr| - 1. */
    var arr: seq<int>

    /** A new, empty array. */
    constructor ()
      ensures arr == []
    {
      arr := [];
    }

    /** The number of elements. */
    function Size(): (n: nat)
      reads this
      ensures n == |arr|
    {
      |arr|
    }

    /** Whether the array holds no element. */
    function IsEmpty(): (b: bool)
      reads this
      ensures b <==> Size() == 0
      ensures b <==> arr == []
    {
      |arr| == 0
    }

    /** The element at `index`, or `OutOfBounds` when there is none. */
    function Get(index: int): (r: Result<int>)
      reads this
      ensures r.Ok? <==> 0 <= index < |arr|
      ensures r.Ok? ==> r.value == arr[index]
      ensures r.Err? ==> r.error == OutOfBounds
    {
      if index < 0 || index >= |arr| then Err(OutOfBounds) else Ok(arr[index])
    }

    /** Overwrites slot `index` with `elem`; fails with no change when `index` is out of bounds. */
    method Set(index: int, elem: int) returns (outcome: Outcome)
      modifies this
      ensures outcome == Done <==> 0 <= index < |old(arr)|
      ensures outcome.Failed? ==> outcome.error == OutOfBounds && arr == old(arr)
      ensures outcome == Done ==> arr == old(arr)[index := elem] && Get(index) == Ok(elem)
      ensures |arr| == |old(arr)|
    {
      if index < 0 || index >= |arr| {
        return Failed(OutOfBounds);
      }
      arr := arr[index := elem];
      return Done;
    }

    /** Appends `elem` at the end. */
    method Add(elem: int)
      modifies this
      ensures arr == old(arr) + [elem]
      ensures |arr| == |old(arr)| + 1 && arr[|arr| - 1] == elem
      ensures arr[..|old(arr)|] == old(arr)
    {
      arr := arr + [elem];
    }

    /**
     * Removes the element at `index`, shifting the later ones down by one;
     * fails with no change when `index` is out of bounds.
     */
    method RemoveAt(index: int) returns (outcome: Outcome)
      modifies this
      ensures outcome == Done <==> 0 <= index < |old(arr)|
      ensures outcome.Failed? ==> outcome.error == OutOfBounds && arr == old(arr)
      ensures outcome == Done ==> arr == RemovedAt(old(arr), index)
    {
      if index < 0 || index >= |arr| {
        return Failed(OutOfBounds);
      }
      arr := arr[..index] + arr[index + 1..];
      return Done;
    }

    /**
     * Removes the first occurrence of `elem`, scanning from the front; fails
     * with `NotFound` and no change when `elem` does not occur.
     */
    method Remove(elem: int) returns (outcome: Outcome)
      modifies this
      ensures outcome == Done <==> elem in old(arr)
      ensures elem in old(arr) ==> arr == RemovedAt(old(arr), FirstIndex(old(arr), elem))
      ensures elem !in old(arr) ==> outcome == Failed(NotFound) && arr == old(arr)
    {
      var i := 0;
      while i < |arr|
        invariant 0 <= i <= |arr|
        invariant arr == old(arr)
        invariant forall k :: 0 <= k < i ==> arr[k] != elem
      {
        if arr[i] == elem {
          assert FirstIndex(arr, elem) == i;
          var _ := RemoveAt(i);
          return Done;
        }
        i := i + 1;
      }
      return Failed(NotFound);
    }

    /** Reverses the order of the elements in place, swapping from both ends inward. */
    method Reverse()
      modifies this
      ensures arr == Reversed(old(arr))
      ensures |arr| == |old(arr)|
      ensures forall k :: 0 <= k < |arr| ==> arr[k] == old(arr)[|arr| - 1 - k]
      ensures |old(arr)| <= 1 ==> arr == old(arr)
    {
      ghost var n := |arr|;
      var i, j := 0, |arr| - 1;
      while i < j
        invariant |arr| == n
        invariant 0 <= i <= j + 1 <= n && j == n - 1 - i
        invariant forall k :: 0 <= k < i ==> arr[k] == old(arr)[n - 1 - k] && arr[n - 1 - k] == old(arr)[k]
        invariant forall k :: i <= k <= j ==> arr[k] == old(arr)[k]
      {
        arr := arr[i := arr[j]][j := arr[i]];
        i, j := i + 1, j - 1;
      }
      forall k | 0 <= k < n
        ensures arr[k] == Reversed(old(arr))[k]
      {
        ReversedAt(old(arr), k);
      }
      if n <= 1 {
        ReversedShort(old(arr));
      }
    }

    /**
     * The smallest index in [0, |arr|] at which `arr[index] >= key` holds,
     * found by halving the range as the library search does. The predicate
     * is monotone only on sorted contents; on any contents the result is a
     * boundary: the element at it is at least `key` and the one before it
     * is smaller.
     */
    method SearchAtLeast(key: int) returns (index: nat)
      ensures index <= |arr|
      ensures index < |arr| ==> arr[index] >= key
      ensures 0 < index ==> arr[index - 1] < key
      ensures Sorted(arr) ==> forall k :: 0 <= k < index ==> arr[k] < key
      ensures Sorted(arr) ==> forall k :: index <= k < |arr| ==> arr[k] >= key
    {
      var i, j := 0, |arr|;
      while i < j
        invariant 0 <= i <= j <= |arr|
        invariant j < |arr| ==> arr[j] >= key
        invariant 0 < i ==> arr[i - 1] < key
        invariant Sorted(arr) ==> forall k :: 0 <= k < i ==> arr[k] < key
        invariant Sorted(arr) ==> forall k :: j <= k < |arr| ==> arr[k] >= key
      {
        var h := (i + j) / 2;
        if arr[h] < key {
          i := h + 1;
        } else {
          j := h;
        }
      }
      return i;
    }

    /**
     * The index of `key`, or -1. Any index returned holds `key`; on sorted
     * contents the result is the first occurrence of `key`, and -1 exactly
     * when `key` does not occur. Sortedness is the caller's obligation and
     * is not checked.
     */
    method BinarySearch(key: int) returns (r: int)
      ensures r == -1 || (0 <= r < |arr| && arr[r] == key)
      ensures Sorted(arr) ==> (r == -1 <==> key !in arr)
      ensures Sorted(arr) && key in arr ==> r == FirstIndex(arr, key)
    {
      var index := SearchAtLeast(key);
      if index < |arr| && arr[index] == key {
        return index;
      }
      return -1;
    }

    /**
     * Sorts the elements into non-decreasing order in place (insertion sort
     * by adjacent swaps). The result is the unique sorted arrangement of the
     * old values, so sorting sorted contents changes nothing.
     */
    method Sort()
      modifies this
      ensures Sorted(arr)
      ensures multiset(arr) == multiset(old(arr))
      ensures Sorted(old(arr)) ==> arr == old(arr)
    {
      var i := 0;
      while i < |arr|
        invariant |arr| == |old(arr)|
        invariant 0 <= i <= |arr|
        invariant Sorted(arr[..i])
        invariant multiset(arr) == multiset(old(arr))
        decreases |arr| - i
      {
        var j := i;
        while j > 0 && arr[j - 1] > arr[j]
          invariant |arr| == |old(arr)|
          invariant 0 <= j <= i < |arr|
          invariant forall p, q :: 0 <= p < q <= i && p != j && q != j ==> arr[p] <= arr[q]
          invariant forall q :: j < q <= i ==> arr[j] <= arr[q]
          invariant multiset(arr) == multiset(old(arr))
        {
          arr := Swapped(arr, j - 1, j);
          j := j - 1;
        }
        i := i + 1;
      }
      if Sorted(old(arr)) {
        SortedUnique(arr, old(arr));
      }
    }
  }
}
