# Sort visualiser engine, modelled in Dafny

SortVisualization draws a sequence of integers as white columns on an SDL
window and bubble-sorts the sequence in place, redrawing after every outer
pass, until the user closes the window. This project models the engine class
`SortVis::Engine` of `src/Engine.cpp`:

- its state: `numbers`, `columnWidth`, `maxValue`, `running`, `sorted` and the
  window size, as the fields of the class `SortVis.Engine`;
- construction from a count (`0..n-1`, shuffled) and from a numbers file (the
  lines already parsed to integers), each followed by the display metadata
  (`calculateNumbers`);
- the in-place bubble sort with its poll for a quit request before every
  comparison, and the frame loop `run` that sorts only while not yet sorted;
- the integer geometry of each drawn column, with C++ truncating division.

Modules:

- `Sequences` (sequences.dfy): the range `0..n-1`, permutations of it,
  maxima, and `MaxElement`, the first-maximum search of `std::max_element`.
- `Sorting` (sorting.dfy): the bubble sort as pure functions. `CompareSwap` is
  one comparison, `Pass` one inner pass and `Passes` the first `i` outer
  passes. Here it is proved that the sort returns a non-decreasing permutation
  of its input, that the suffix behind the inner bound is already placed, and
  that sorting twice is sorting once.
- `Geometry` (geometry.dfy): `Rect`, truncating division, column height,
  column rectangle, and the bounds that keep each column inside the window.
- `SortVis` (engine.dfy): the class `Engine`. Its methods change the fields
  in place and are proved against the functions above.

Event polling is an oracle: `HandleEvents` may clear `running` and never sets
it. Every early return of the sort is therefore covered by the proofs. The
generator's draws are the parameter `draw` of `FromCount` and `GenerateRandom`.

`sorted` is read at `src/Engine.cpp:100` and set at `src/Engine.cpp:128`, but it
is not declared in `src/Engine.h`. The model declares it as a field that is
false at construction.

## Model

| member | source | states |
|---|---|---|
| Sequences.Iota | src/Engine.cpp:179 | `std::iota` over a vector of size `n` writes `k` at each position `k`. |
| Sequences.SwapPermutes | src/Engine.cpp:121 | Exchanging two positions (`std::swap`) keeps the multiset of values. |
| Sequences.PermutationOfRangeValues | src/Engine.cpp:178-180 | A shuffled `0..n-1` has length `n`, and a value occurs in it exactly when it lies in `[0, n)`. |
| Sequences.PermutationOfRangeMaximum | src/Engine.cpp:178-180 | For `n >= 1` the maximum of a shuffled `0..n-1` is `n - 1`. |
| Sequences.MaximumOfPermutation | src/Engine.cpp:190 | Reordering a sequence keeps its maximum, so `maxValue` stays the maximum while the sort runs. |
| Sequences.MaxElement | src/Engine.cpp:190 | `std::max_element` on a non-empty range returns an index whose element is at least every element, and no earlier element equals it. |
| Sorting.AdjacentSortedIffSorted | src/Engine.cpp:119 | Every adjacent pair in order holds if and only if every pair is in order, in both directions. |
| Sorting.CompareSwap | src/Engine.cpp:119-122 | One comparison leaves `s[j] <= s[j+1]`, either keeping or exchanging the pair, and changes no other position. |
| Sorting.Pass | src/Engine.cpp:111-123 | An inner pass makes the comparisons `j, j+1, ..., b-1` from left to right, each a CompareSwap that swaps only on a strict `>`. It keeps the length and changes no position before `j` or after `b`. |
| Sorting.PassSnoc | src/Engine.cpp:111 | Comparisons are made from left to right: extending a pass's bound by one adds one CompareSwap at the old bound, after all earlier ones. |
| Sorting.Passes | src/Engine.cpp:109-126 | The state after the first `i` outer passes. For a sequence of length `n`, pass `k` (counted from 0) stops at bound `n - k - 1`. The length is kept. |
| Sorting.BubbleSorted | src/Engine.cpp:107-129 | For a sequence of length `n >= 1`, the whole sort is `n - 1` outer passes. The length is kept. A sequence shorter than 2 is returned unchanged, because the outer loop does not run. |
| Sorting.PassPermutes | src/Engine.cpp:111-123 | An inner pass keeps the multiset of values. |
| Sorting.PassesPermute | src/Engine.cpp:109-126 | Any number of outer passes keeps the multiset of values. |
| Sorting.PassCarriesMaximum | src/Engine.cpp:111-123 | An inner pass with bound `b` leaves the largest of positions `0..b` at position `b`. |
| Sorting.PassKeepsPartition | src/Engine.cpp:111 | If nothing at or before `b` exceeds anything after it, the same holds after a pass with bound `b`. |
| Sorting.PassExtendsSortedSuffix | src/Engine.cpp:109-111 | A pass with bound `b` extends a sorted, dominating suffix from `b + 1` down to `b`. |
| Sorting.PassesPlaceSuffix | src/Engine.cpp:109-111 | After `i` outer passes, the last `i` positions are non-decreasing and no earlier element exceeds any of them. This is why pass `i` can stop at `Size - i - 1`. |
| Sorting.BubbleSortSorts | src/Engine.cpp:107-129 | A complete bubble sort returns a non-decreasing sequence with the same length and multiset as its input. |
| Sorting.PassKeepsSorted | src/Engine.cpp:111-123 | An inner pass over a sorted sequence swaps nothing. |
| Sorting.PassesKeepSorted | src/Engine.cpp:109-126 | Outer passes over a sorted sequence swap nothing. |
| Sorting.BubbleSortIdempotent | src/Engine.cpp:107-129 | Sorting an already sorted result changes nothing. |
| Sorting.FirstPassExample | src/Engine.cpp:111-123 | The first pass over `[5, 4, 3, 2, 1]` yields `[4, 3, 2, 1, 5]`. |
| Geometry.TruncDiv | src/Engine.cpp:149 | C++ `int` division agrees with Euclidean division when the dividend is non-negative and the divisor positive. |
| Geometry.TruncDivRoundsTowardZero | src/Engine.cpp:149 | C++ `int` division rounds toward zero. The magnitude of the result is the exact quotient's magnitude rounded down, and it is negative only for operands of opposite sign. |
| Geometry.ScaledWithin | src/Engine.cpp:149 | With `0 <= v <= maxValue` and `maxValue > 0`, `v * Y / maxValue` lies in `[0, Y]`. |
| Geometry.ColumnHeight | src/Engine.cpp:149 | The height as written, `v * Y / maxValue`. It needs `maxValue != 0` and lies in `[0, Y]` for `0 <= v <= maxValue`. |
| Geometry.SingleNumberMaximumIsZero | src/Engine.cpp:178-180 | A generated sequence of one number is `[0]`, so its maximum, and hence `maxValue`, is `0`. |
| Geometry.SafeColumnHeight | src/Engine.cpp:149-150 | The height with a zero maximum guarded. It equals the written formula whenever `maxValue != 0` and always lies in `[0, Y]` for `0 <= v <= maxValue`. |
| Geometry.Column | src/Engine.cpp:147-150 | The rectangle for position `i-1` is `x == (i-1) * columnWidth`, `w == columnWidth`, standing on the bottom edge (`y + h == Y`). Its height is the written `v * Y / maxValue` wherever `maxValue != 0`, and 0 where `maxValue == 0` (the corrected height). For `0 <= v <= maxValue` both `h` and `y` lie in `[0, Y]`. |
| Geometry.ColumnsFitWindow | src/Engine.cpp:145-148 | With `columnWidth == X / n`, column `k < n` starts at or after `0`, and `x + columnWidth <= n * columnWidth <= X`. |
| SortVis.Engine.Init | src/Engine.h:31-34 | The member initialisers give no numbers, zero width and maximum, `running` true and `sorted` false. |
| SortVis.Engine.FromCount | src/Engine.cpp:11-14 | A negative count fails with a length error. Any other count gives a permutation of `0..n-1` with `maxValue == n - 1`, current metadata, running and not sorted. |
| SortVis.Engine.FromFile | src/Engine.cpp:39-50 | Construction fails with "empty file" exactly when there are no lines. Otherwise `numbers` is the lines in file order and the metadata is current. |
| SortVis.Engine.GenerateRandom | src/Engine.cpp:175-185 | Returns a sequence of length `n` that is a permutation of `0..n-1`, whatever the generator draws. |
| SortVis.Engine.LoadFile | src/Engine.cpp:193-215 | Appends the values in input order. It fails with "empty file" exactly when `numbers` is still empty afterwards. |
| SortVis.Engine.CalculateNumbers | src/Engine.cpp:187-191 | For non-empty `numbers`, sets `columnWidth` to `X` divided by the count (`X / numbers.size()`) and `maxValue` to an element at least every element. |
| SortVis.Engine.HandleEvents | src/Engine.cpp:157-173 | Polling may clear `running` and never sets it. |
| SortVis.Engine.BubblePass | src/Engine.cpp:111-123 | One inner pass with a quit poll before each comparison. It reports a quit exactly when `running` is false. Without a quit the result is `Pass` of the old numbers. After a quit, the comparisons made so far are kept: `numbers` is a prefix of that pass, `Pass(old, 0, j)` for some `j <= bound`. It always keeps length and multiset. |
| SortVis.Engine.BubbleSort | src/Engine.cpp:107-129 | Without a quit, `numbers` becomes `BubbleSorted` of the old numbers, is non-decreasing, and `sorted` is set. On a quit it returns with `sorted` still false. Sequences shorter than 2 are left unchanged and marked sorted. Length and multiset are kept either way. |
| SortVis.Engine.Run | src/Engine.cpp:91-105 | The frame loop keeps `sorted ==> numbers is non-decreasing`, the multiset of values and current metadata. It sorts only while not sorted, and a sorted sequence is left untouched. After a frame, a still-running engine holds a sorted sequence. |
| SortVis.Engine.DrawColumns | src/Engine.cpp:140-155 | It draws one rectangle per number, from the last position down to the first, each `Column(i-1, numbers[i-1])`. Where `maxValue != 0` each height is the written `v * Y / maxValue`. Where `maxValue == 0` it draws flat columns with the corrected height of the finding below, instead of dividing by zero. With current metadata every rectangle lies within `[0, X]` horizontally, and a non-negative value stands on the bottom edge with its height in `[0, Y]`. |

## Left out

- SDL initialisation, window and renderer creation, and teardown (`src/Engine.cpp:16-22`, `83-89`, `217-246`) are calls into SDL.
- Rendering is not modelled: `SDL_RenderClear`, `SDL_RenderFillRect`, `SDL_RenderPresent` and the colour calls. The `draw()` calls in `run` and after each outer pass are left out too. Only the rectangles `drawColumns` computes are modelled.
- The internals of `SDL_PollEvent` are not modelled. `HandleEvents` is an oracle that may clear `running`.
- `std::random_device`, `mt19937` and `std::shuffle` are not modelled. The draws are a parameter, and only "some permutation" is stated, not a distribution.
- `std::filesystem::exists`, opening the file, `getline` and `std::stoi` are not modelled, nor are their exceptions. `FromFile` and `LoadFile` take the lines already parsed.
- The `std::cout` logging is left out.
- `src/main.cpp` is left out: it only constructs an engine and calls `Run()`, a name that does not match `run()` in `src/Engine.h:23`.
- The constructor overloads that only add a window title are not modelled separately.
- `stepBubbleSort`, `stepInsertionSort` and `stepSelectionSort` (`src/Engine.h:45-47`) are declared without bodies.
- SortVis.Engine.FromCount: requires a nonzero count. With a count of zero, `calculateNumbers` divides by `numbers.size() == 0` and dereferences `max_element` of an empty range, which is undefined behaviour rather than an error path.
- SortVis.Engine.CalculateNumbers: requires non-empty `numbers`, for the same reason.
- SortVis.Engine.BubbleSort: requires `sorted` to be false, because its only caller (`src/Engine.cpp:100-102`) guards it so. Calling it on a sorted engine is not modelled.
- SortVis.Engine.BubbleSort: the placed-suffix loop invariant is stated over `Passes` by the lemma `Sorting.PassesPlaceSuffix`, not repeated as a loop invariant of the method.
- SortVis.Engine.Run: the source loops until a quit arrives. The model runs at most `ticks` frames.
- Geometry.ColumnHeight: the product `v * Y` is taken over unbounded integers. A 32-bit overflow for large values is not modelled.
- SortVis.Engine.DrawColumns: draws with the guarded SafeColumnHeight, not the bare division of `src/Engine.cpp:149`. When `maxValue == 0`, for example after constructing with a count of 1, the source divides by zero, while the model draws flat columns (height 0, top edge `Y`). That is the corrected behaviour of the finding below.
- SortVis.Engine.DrawColumns: height bounds hold only for `maxValue > 0` and `0 <= v <= maxValue`. If the file has a negative value but the maximum is positive, that value gets a height of at most 0. The height is negative only when `|v| * Y >= maxValue`; otherwise truncation makes it 0. If every value in the file is negative, `maxValue < 0`: the truncating division then gives positive heights that can exceed `Y`, with a top edge `y < 0`. For example, `ColumnHeight(-2, 768, -1) == 1536`. The model computes these values and claims no bounds for them.
- The window size is two natural numbers. `Coord` is not part of this model.

## Findings

| source | as written | input that shows it | evidently intended | confidence | as-written member | corrected member |
|---|---|---|---|---|---|---|
| src/Engine.cpp:149 | `column.h = (numbers[i - 1] * windowSize.Y) / maxValue` divides by the maximum element | `Engine(windowSize, 1)`: `numbers == [0]`, so `maxValue == 0`; likewise a numbers file whose largest value is `0` | a sequence whose maximum is `0` draws flat columns instead of dividing by zero | high; not executed | Geometry.ColumnHeight, Geometry.SingleNumberMaximumIsZero | Geometry.SafeColumnHeight |
