# IntArray: a verified model of a growable integer vector

The modelled component is `IntArray` from `data_structures/arrays/dynamic_arrays/IntArray.go`.
It is a dynamic array of integers whose state is one Go slice, `arr`. It offers these operations:

- size and emptiness queries;
- bounds-checked `Get` and `Set`;
- append (`Add`);
- positional removal (`RemoveAt`) and removal of the first matching value (`Remove`);
- in-place reversal (`Reverse`);
- a lower-bound binary search (`BinarySearch`);
- an ascending sort (`Sort`).

The model has three modules:

- `SeqSpec` (`SeqSpec.dfy`) holds reference definitions on plain `seq<int>`: `Sorted`, `RemovedAt`, `FirstIndex`, `Reversed` and `Swapped`. It also holds the lemmas about them: mirror indices, the mirror is its own inverse, and a sorted arrangement of a multiset is unique.
- `DynamicArrays` (`IntArray.dfy`) holds the class `IntArray`. Its field `arr: seq<int>` stands for the slice.
  - Methods that change the slice have `modifies this`. Their postconditions give the new `arr` in terms of `old(arr)`.
  - Read-only queries are functions that read `this`. `SearchAtLeast` is a loop method and `BinarySearch` calls it; neither has a `modifies` clause.
  - Go's `error` returns become the datatypes `Result<int>` (for `Get`) and `Outcome` (for `Set`, `RemoveAt` and `Remove`). Both carry an `Error`, which is `OutOfBounds` or `NotFound`.
- `Demo` (`Demo.dfy`) models the demonstration program: four `Add`s, a `Sort`, then reading every slot back with `Get`. The printed lines become a returned sequence.

The source delegates two operations to Go's standard library, and the model writes both out as verified loops:

- `BinarySearch` calls `sort.Search`. This is modelled by `SearchAtLeast`, the same halving loop over `[0, len)` with the predicate `arr[i] >= key`.
  - On any contents, the index it returns is a boundary: the element there is at least `key`, and the element before it is smaller.
  - On sorted contents, the index is the first position whose value is `>= key`.
  - `BinarySearch` does not require sorted input, because the source does not check it. Its sorted-only guarantees are stated as implications.
- `Sort` calls `sort.Ints`. This is modelled by an insertion sort with adjacent swaps, proved to give a sorted permutation of the old contents.
  - `SeqSpec.SortedUnique` proves that a sorted permutation is unique. So the result is the same as the library's, even though the algorithm differs.
  - For the same reason, sorting already sorted contents changes nothing.

## Model

| member | source | states |
|---|---|---|
| `DynamicArrays.IntArray.constructor` | data_structures/arrays/dynamic_arrays/IntArray.go:20-24 | a new array is empty |
| `DynamicArrays.IntArray.Size` | data_structures/arrays/dynamic_arrays/IntArray.go:27-29 | the size is the number of elements |
| `DynamicArrays.IntArray.IsEmpty` | data_structures/arrays/dynamic_arrays/IntArray.go:32-34 | true exactly when `Size()` is 0, i.e. when there are no elements; being a function, it cannot change the array |
| `DynamicArrays.IntArray.Get` | data_structures/arrays/dynamic_arrays/IntArray.go:37-42 | succeeds exactly when `0 <= index < Size()`, and then yields `arr[index]`; otherwise it fails with `OutOfBounds`; the array is never changed |
| `DynamicArrays.IntArray.Set` | data_structures/arrays/dynamic_arrays/IntArray.go:45-51 | succeeds exactly when the index is in bounds; on failure it reports `OutOfBounds` and nothing changes; on success only slot `index` changes, to `elem`, the length is kept, and a following `Get(index)` yields `elem` |
| `DynamicArrays.IntArray.Add` | data_structures/arrays/dynamic_arrays/IntArray.go:54-56 | the length grows by exactly one, the last element is `elem`, and every earlier element is unchanged |
| `DynamicArrays.IntArray.RemoveAt` | data_structures/arrays/dynamic_arrays/IntArray.go:59-66 | succeeds exactly when the index is in bounds; on failure it reports `OutOfBounds` and nothing changes; on success the new contents are the old ones with that position removed (`RemovedAt`) |
| `DynamicArrays.IntArray.Remove` | data_structures/arrays/dynamic_arrays/IntArray.go:69-77 | succeeds exactly when `elem` occurs; it then removes only its first occurrence (position `FirstIndex`); otherwise it fails with `NotFound` and leaves the array unchanged |
| `DynamicArrays.IntArray.Reverse` | data_structures/arrays/dynamic_arrays/IntArray.go:80-85 | the swap loop keeps the length and leaves `arr[k] == old(arr)[n-1-k]` for every `k`, i.e. `Reversed(old(arr))`; arrays of length 0 or 1 are unchanged |
| `DynamicArrays.IntArray.SearchAtLeast` | data_structures/arrays/dynamic_arrays/IntArray.go:91 | the index found by the halving search is in `[0, Size()]`; the element at it is `>= key` and the one before it is `< key`; on sorted contents every element before it is `< key` and every element from it on is `>= key` |
| `DynamicArrays.IntArray.BinarySearch` | data_structures/arrays/dynamic_arrays/IntArray.go:89-96 | the result is -1 or an index holding `key`, on any contents; on sorted contents it is -1 exactly when `key` is absent, and otherwise it is the first index holding `key`; the array is not changed |
| `DynamicArrays.IntArray.Sort` | data_structures/arrays/dynamic_arrays/IntArray.go:99-101 | the new contents are non-decreasing and have the same multiset as the old ones; already sorted contents are left as they are, so sorting twice is the same as sorting once |
| `SeqSpec.RemovedAt` | data_structures/arrays/dynamic_arrays/IntArray.go:64 | removing position `i` shortens the sequence by one; earlier elements keep their positions and later ones move down by one, so relative order is kept; exactly one copy of `s[i]` leaves the multiset |
| `SeqSpec.FirstIndex` | data_structures/arrays/dynamic_arrays/IntArray.go:70-72 | the position where the front-to-back scan stops: it holds `x`, and no earlier position holds `x` |
| `SeqSpec.Swapped` | data_structures/arrays/dynamic_arrays/IntArray.go:83 | exchanging two positions swaps those two values, leaves every other position alone and keeps the multiset |
| `SeqSpec.Reversed` | data_structures/arrays/dynamic_arrays/IntArray.go:80-85 | the mirror image has the same length as the original |
| `SeqSpec.ReversedAt` | data_structures/arrays/dynamic_arrays/IntArray.go:82-84 | position `k` of the mirror image holds position `n-1-k` of the original |
| `SeqSpec.ReversedInvolutive` | data_structures/arrays/dynamic_arrays/IntArray.go:80-85 | mirroring twice restores the original, so two `Reverse` calls cancel |
| `SeqSpec.ReversedShort` | data_structures/arrays/dynamic_arrays/IntArray.go:82 | the loop guard `i < j` never holds on 0 or 1 elements, and the mirror of such a sequence is the sequence itself |
| `SeqSpec.SortedHeadIsLeast` | data_structures/arrays/dynamic_arrays/IntArray.go:99-101 | the first element of sorted contents is at most every value they contain |
| `SeqSpec.SortedUnique` | data_structures/arrays/dynamic_arrays/IntArray.go:99-101 | two sorted sequences with the same multiset are equal, so a sort's result depends only on the values it sorts |
| `Demo.SortedDemoValues` | data_structures/arrays/dynamic_arrays/IntArray.go:111-116 | the only sorted arrangement of 3, 7, 6, -2 is -2, 3, 6, 7 |
| `Demo.ReadAll` | data_structures/arrays/dynamic_arrays/IntArray.go:119-122 | the loop from 0 to `Size()` that calls `Get` reads back exactly the contents, in order |
| `Demo.SortAndReadBack` | data_structures/arrays/dynamic_arrays/IntArray.go:109-122 | adding 3, 7, 6 and -2 to a new array, then sorting it and reading it back, yields -2, 3, 6, 7 |

## Left out

- `String` (lines 104-106) and the final print in `main` (line 125) are left out. They produce a display form through `%v` formatting, and nothing is promised about that form. The comment on line 125 shows commas, but `%v` separates slice elements with spaces.
- Console output in `main` is left out: `fmt.Println` becomes the returned sequence of `Demo.SortAndReadBack`.
- Error messages are reduced to the two kinds `OutOfBounds` and `NotFound`. The message text is not modelled.
- DynamicArrays.IntArray.Get: the zero value that the source returns together with its error (line 39) is not carried by `Err(OutOfBounds)`. A caller that ignores the error, as `main` does, reads 0; `Demo.ReadAll` substitutes that 0 itself.
- Slice capacity, the growth policy of `append`, and the backing array are not modelled. This includes the in-place compaction that `append(arr[:index], arr[index+1:]...)` does in `RemoveAt`. The slice is private, so none of these is observable through the operations. The state is the logical sequence `arr`.
- Element and index values use unbounded `int`, where Go uses its platform-sized `int` (32 or 64 bits). No operation does arithmetic on element values, and index arithmetic never exceeds the length. The halving step is written as `(i + j) / 2` on non-negative numbers, which is what the library's overflow-safe unsigned shift computes.
- The algorithm of `sort.Ints` is not modelled. An insertion sort stands in for it. Because sorted permutations are unique, the result is the same. Running time and the library's internal steps are not modelled.
- Concurrency is not modelled: the type has no locking and is not meant for concurrent use.
