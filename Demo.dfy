/**
 * The demonstration program: build an array from four values, sort it and
 * read every slot back by index. The console output is replaced by the
 * sequence of values that would be printed, one per line.
 */
module Demo {
  import opened SeqSpec
  import opened DynamicArrays

  /** The only sorted arrangement of the four demonstration values. */
  lemma SortedDemoValues(s: seq<int>)
    requires Sorted(s) && multiset(s) == multiset([3, 7, 6, -2])
    ensures s == [-2, 3, 6, 7]
  {
    SortedUnique(s, [-2, 3, 6, 7]);
  }

  /**
   * Reads every slot of `ar` by index, from 0 up to its size, and collects
   * what would be printed; a failed read would contribute the zero value.
   */
  method ReadAll(ar: IntArray) returns (printed: seq<int>)
    ensures printed == ar.arr
  {
    printed := [];
    var i := 0;
    while i < ar.Size()
      invariant 0 <= i <= |ar.arr|
      invariant printed == ar.arr[..i]
    {
      var val := match ar.Get(i) case Ok(v) => v case Err(_) => 0;
      printed := printed + [val];
      i := i + 1;
    }
  }

  /** Adds 3, 7, 6 and -2 to a new array, sorts it and reads it back. */
  method SortAndReadBack() returns (printed: seq<int>)
    ensures printed == [-2, 3, 6, 7]
  {
    var ar := new IntArray();
    ar.Add(3);
    ar.Add(7);
    ar.Add(6);
    ar.Add(-2);
    assert ar.arr == [3, 7, 6, -2];
    ar.Sort();
    SortedDemoValues(ar.arr);
    printed := ReadAll(ar);
  }
}
