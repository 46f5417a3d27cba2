# Loop packing: a Dafny model of `bin_packing_loops.py`

The program packs jobs (durations in seconds) onto fixed-length machine
loops. It treats this as bin packing:

- `first_fit` puts each job, in input order, into the first loop whose load
  plus the job stays within `capacity + 1e-9`, opening a new loop when none
  fits.
- `first_fit_decreasing` does the same after a stable sort by descending
  duration.
- `lower_bound` reports `ceil(sum / capacity)`.
- `load_durations` reads the durations from a CSV file. It picks the column
  (one asked for; else a header called `duration` in any case; else the
  first column whose first-row value parses as a number; else the first
  column). It cleans every field (strip, delete double quotes and commas) and
  reads it as a float, or as `m:s` or `h:m:s` when it has a colon, 0
  otherwise. It converts from `ms` or `min` to seconds.

The model has six modules:

- `Wrappers` (`wrappers.dfy`): `Option` and `Result`.
- `Text` (`text.dfy`): the Python string operations the reader uses, and
  the decimal part of `int()` and `float()`.
- `Durations` (`durations.dfy`): the column choice, the value parsing, and
  `load_durations` once the file is read, with an error result where
  `bin_packing_loops.py` raises.
- `Bounds` (`bound.dfy`): `sum`, `math.ceil` and `lower_bound`.
- `GreedyInsertion` (`insertion.dfy`): the insertion loop both packers share.
  It is an imperative method with the `placed` flag and the `break`, proved
  equal to a fold `Pack` of one-step function `Place`.
- `Packers` (`packers.dfy`): the two packers as methods, the stable sort,
  and the properties and worked examples.

Numbers are exact reals; the fit tolerance `1e-9` is the constant
`Packers.Tolerance`. The specification functions take a general tolerance `eps`.

## Model

| member | source | states |
|---|---|---|
| Text.Strip | code/bin_packing_loops.py:72 | `str.strip()`: no longer than the input, no whitespace at either end, and the input unchanged when it has none there |
| Text.StripIsTrim | code/bin_packing_loops.py:72 | `str.strip()` returns a slice of its input, and everything it cuts off before and after that slice is whitespace |
| Text.RemoveAllCounts | code/bin_packing_loops.py:72 | `replace(c, '')` leaves no `c`, and changes nothing when there was no `c` |
| Text.RemoveAllKeeps | code/bin_packing_loops.py:72 | `replace(c, '')` keeps the number of occurrences of every other character |
| Text.RemoveAllAppend | code/bin_packing_loops.py:72 | deleting from a concatenation deletes from each part |
| Text.SplitFields | code/bin_packing_loops.py:79 | `split(':')` yields at least one field, none holding the separator, and a single field exactly when there is no separator |
| Text.JoinSplit | code/bin_packing_loops.py:79 | joining the fields of a split with the separator gives back the string |
| Text.SplitJoin | code/bin_packing_loops.py:79 | splitting a join of separator-free fields gives back the fields |
| Text.SplitAtSeparator | code/bin_packing_loops.py:79 | a separator-free field followed by the separator splits off as the first field |
| Text.AllDigitsMeans | code/bin_packing_loops.py:75 | the recursive digit test holds exactly when every character is a digit |
| Text.IntIsFloat | code/bin_packing_loops.py:82 | whatever `int()` accepts, `float()` accepts with the same value |
| Text.ForeignIsNotNumeric | code/bin_packing_loops.py:74-76 | a character that is no digit, point, sign or whitespace (a colon, a double quote, or any character outside the modelled numeral grammar) makes both `int()` and `float()` fail |
| Text.DigitsRead | code/bin_packing_loops.py:82 | a non-empty digit string reads as its decimal value under `int()` and `float()` |
| Text.ShowNatRoundTrip | code/bin_packing_loops.py:75 | the printed decimal of a natural reads back as that natural under `int()` and `float()` |
| Durations.CleanDeletes | code/bin_packing_loops.py:72 | the cleaned field holds no double quote and no comma |
| Durations.CleanKeeps | code/bin_packing_loops.py:72 | the cleaned field keeps every other character of the stripped field, as often as it occurs there |
| Durations.CleanIsIdentity | code/bin_packing_loops.py:72 | a field without surrounding whitespace, quotes or commas is unchanged by the cleaning |
| Durations.ToSecondsMonotone | code/bin_packing_loops.py:91-97 | the unit conversion keeps the order of values and keeps non-negative values non-negative |
| Durations.NumberRoundTrip | code/bin_packing_loops.py:72-75 | a printed natural `n` reads as `n` in the file's unit, converted to seconds |
| Durations.MissingFieldIsZero | code/bin_packing_loops.py:71-90 | a row lacking the column, or with an empty field there, contributes 0 |
| Durations.ValueOfClean | code/bin_packing_loops.py:72-75 | unfolding step: a field that cleaning keeps is read as its duration, then converted |
| Durations.DurationOfClock | code/bin_packing_loops.py:76-79 | unfolding step: a cleaned field that is no float but has a colon is read as a clock value |
| Durations.ValueOfClock | code/bin_packing_loops.py:72-97 | unfolding step: the two steps above combined, with the unit conversion |
| Durations.ClockOfTwo | code/bin_packing_loops.py:81-82 | unfolding step: two parts, an integer and a float, give `60 m + s` |
| Durations.ClockOfThree | code/bin_packing_loops.py:83-84 | unfolding step: three parts, two integers and a float, give `3600 h + 60 m + s` |
| Durations.ClockFallsBack | code/bin_packing_loops.py:81-88 | a part count other than 2 or 3, or any part that `int()` or `float()` refuses in the two- or three-part form, gives 0 |
| Durations.NoNumberNoColon | code/bin_packing_loops.py:74-90 | a cleaned field that is no float and has no colon contributes 0 seconds, whatever the unit |
| Durations.WordIsZero | code/bin_packing_loops.py:74-90 | the word `abc` contributes 0 seconds |
| Durations.ClockOfTwoDigits | code/bin_packing_loops.py:81-82 | two digit-string parts give `60 m + s` |
| Durations.ClockOfThreeDigits | code/bin_packing_loops.py:83-84 | three digit-string parts give `3600 h + 60 m + s` |
| Durations.TwoFieldsSplit | code/bin_packing_loops.py:79 | colon-free `a` and `b` joined by a colon split back into `[a, b]` |
| Durations.ThreeFieldsSplit | code/bin_packing_loops.py:79 | colon-free `a`, `b`, `c` joined by colons split back into `[a, b, c]` |
| Durations.TwoFieldsAreClean | code/bin_packing_loops.py:72-78 | a field splitting into two digit strings survives cleaning, is no float, and has a colon |
| Durations.ThreeFieldsAreClean | code/bin_packing_loops.py:72-78 | the same for three digit strings |
| Durations.MinutesSecondsSplit | code/bin_packing_loops.py:72-97 | any field whose colon split is two digit strings `m`, `s` reads as `60 m + s` in the file's unit, converted to seconds |
| Durations.HoursMinutesSecondsSplit | code/bin_packing_loops.py:72-97 | any field whose colon split is three digit strings reads as `3600 h + 60 m + s`, converted |
| Durations.MinutesSecondsRead | code/bin_packing_loops.py:77-82 | digits `m:s`, leading zeros allowed, read back as `60 m + s`, converted |
| Durations.HoursMinutesSecondsRead | code/bin_packing_loops.py:77-84 | digits `h:m:s` read back as `3600 h + 60 m + s`, converted |
| Durations.ClockExample | code/bin_packing_loops.py:77-97 | `1:30` is 90 seconds, 5400 when the unit is `min`, 0.09 when it is `ms` |
| Durations.QuotedDigitsPlain | code/bin_packing_loops.py:60-62 | stripping and deleting commas keep a quoted digit string as it is |
| Durations.QuotedDigitsUnquote | code/bin_packing_loops.py:72 | deleting double quotes from a quoted digit string leaves the digits |
| Durations.QuotedNumber | code/bin_packing_loops.py:60-62 | a quoted number is read as the number by the value cleaning but refused by the column search's numeric test, which deletes commas and not quotes |
| Durations.QuotedRowFields | code/bin_packing_loops.py:60-62 | in the row `name = x`, `dur = "90"` neither field looks numeric, yet `dur` reads as 90 |
| Durations.KeyedByLastWins | code/bin_packing_loops.py:53 | in `{h.lower(): h for h in headers}` every header's key is present, and each key maps to the last header having it |
| Durations.FirstWhere | code/bin_packing_loops.py:59-66 | the search position is the first header satisfying the test, or the end when none does |
| Durations.FirstWhereIsFirst | code/bin_packing_loops.py:59-66 | the search stops exactly at any header that satisfies the test when no earlier one does |
| Durations.ChosenColumnExists | code/bin_packing_loops.py:51-67 | no column exactly when none is asked for and there are no headers; a column asked for is used as given; otherwise the choice is one of the headers |
| Durations.DurationHeaderWins | code/bin_packing_loops.py:53-55 | with a header called `duration` in any case, the last such header is chosen |
| Durations.FirstNumericColumnWins | code/bin_packing_loops.py:56-67 | without one, the first header whose first-row value looks numeric is chosen, else the first header |
| Durations.NameDurFallsBack | code/bin_packing_loops.py:67 | with headers `name`, `dur` and no numeric-looking field, `name` is chosen |
| Durations.QuotedColumnExample | code/bin_packing_loops.py:56-67 | with that quoted row the search falls back to `name`, though `dur` would read as 90 |
| Durations.FindFirst | code/bin_packing_loops.py:58-66 | the loop with its `break` yields exactly the header `FirstWhere` finds, or nothing when there is none |
| Durations.SelectColumn | code/bin_packing_loops.py:51-67 | the column choice as statements gives `ChosenColumn` |
| Durations.ConvertRows | code/bin_packing_loops.py:69-98 | one value per row, in row order |
| Durations.LoadDurations | code/bin_packing_loops.py:47-99 | fails with `NoDataRows` exactly when there are no rows, and with `NoColumn` exactly when there are rows but neither a column asked for nor headers; otherwise returns the chosen column and, for every row, its field parsed and converted |
| Bounds.Ceiling | code/bin_packing_loops.py:141 | `math.ceil`: the least integer not below its argument |
| Bounds.LowerBound | code/bin_packing_loops.py:140-141 | `ceil(sum / capacity)`: one bin fewer could not hold the total, this many can |
| Bounds.JointCapacityIsProduct | code/bin_packing_loops.py:141 | `n` bins of `capacity` hold `n * capacity` |
| Bounds.BinsCoverTotal | code/bin_packing_loops.py:140-141 | any `n` bins whose joint capacity covers the total are at least `lower_bound` |
| Bounds.SumAtMost | code/bin_packing_loops.py:141 | a list whose every element is at most `m` sums to at most `|s| * m` |
| GreedyInsertion.FirstAdmitting | code/bin_packing_loops.py:108-109 | the lowest-numbered bin that admits the item, no earlier one admitting it, or the bin count when none does |
| GreedyInsertion.PlaceIsFirstFit | code/bin_packing_loops.py:107-116 | a new bin `[i]` with load `w` exactly when no bin admits the item; otherwise the first admitting bin gets `i` appended and `w` added, and nothing else changes |
| GreedyInsertion.Insert | code/bin_packing_loops.py:104-117 | the nested loops with the `placed` flag and `break` build exactly the fold of `Place` over the items |
| GreedyInsertion.FlattenUpdate | code/bin_packing_loops.py:110 | appending an index to one bin adds exactly that index to the bins' contents |
| GreedyInsertion.PackPartition | code/bin_packing_loops.py:104-116 | the bins hold, as a multiset, exactly the items' indices |
| GreedyInsertion.PlaceBookkept | code/bin_packing_loops.py:109-116 | one step keeps as many loads as bins, no bin empty, each load the sum of its items, and bins of two or more items within `capacity + eps` |
| GreedyInsertion.PackBookkept | code/bin_packing_loops.py:104-116 | the whole loop keeps that bookkeeping invariant |
| GreedyInsertion.OverfullBinsAreSingletons | code/bin_packing_loops.py:114-116 | a bin loaded beyond `capacity + eps` holds a single item, too heavy alone, and its load is that item's weight |
| GreedyInsertion.PlaceTotal | code/bin_packing_loops.py:110-116 | one placement adds exactly the item's weight to the sum of the loads, whether it joins a bin or opens one |
| GreedyInsertion.PackTotal | code/bin_packing_loops.py:111 | the loads add up to the total weight of the items |
| GreedyInsertion.BookkeptWithin | code/bin_packing_loops.py:109 | when no weight exceeds the capacity, every load is within `capacity + eps` |
| GreedyInsertion.BinsHoldTotal | code/bin_packing_loops.py:104-116 | when no weight exceeds the capacity, the bins' joint capacity `capacity + eps` covers the total weight |
| GreedyInsertion.PlaceOnlyGrows | code/bin_packing_loops.py:110-116 | one placement keeps every existing bin as a prefix of its new contents and removes no bin |
| GreedyInsertion.PackOnlyGrows | code/bin_packing_loops.py:110-116 | later items only append bins or extend existing ones: earlier bins stay prefixes |
| GreedyInsertion.BinMemberIsItem | code/bin_packing_loops.py:110-115 | every index in a bin is the index of one of the items |
| GreedyInsertion.BinsFollowOrder | code/bin_packing_loops.py:106-110 | each bin lists its indices in processing order |
| Packers.Enumerate | code/bin_packing_loops.py:122 | `enumerate(durations)`: item `k` is `(k, durations[k])` |
| Packers.InsertByWeight | code/bin_packing_loops.py:123 | inserting into a sorted list adds exactly the item |
| Packers.SortByWeightDesc | code/bin_packing_loops.py:123 | the sort is a permutation of the items |
| Packers.InsertByWeightOrdered | code/bin_packing_loops.py:123 | inserting a later item keeps the list descending and stable |
| Packers.SortOrder | code/bin_packing_loops.py:123 | the sorted items are by non-increasing weight, equal weights by ascending index |
| Packers.SortKeepsIndices | code/bin_packing_loops.py:123 | sorting keeps the multiset of indices |
| Packers.SortKeepsTotal | code/bin_packing_loops.py:123 | sorting keeps the total weight |
| Packers.SortKeepsSorted | code/bin_packing_loops.py:123 | a list already in non-increasing weight order is unchanged by the stable sort |
| Packers.RangeCount | code/bin_packing_loops.py:106 | each index below `n` occurs once among `0 .. n-1`, no other index occurs |
| Packers.PartitionFromCount | code/bin_packing_loops.py:104-116 | bins holding exactly `0 .. n-1` as a multiset hold every index in exactly one bin, exactly once, and nothing else |
| Packers.FirstFitProperties | code/bin_packing_loops.py:102-117 | first-fit's bins partition the indices, the loads are bookkept with soft capacity, and indices increase within each bin |
| Packers.FirstFitDecreasingProperties | code/bin_packing_loops.py:120-137 | the same for first-fit-decreasing, with every bin heavier-first and equal weights by ascending index |
| Packers.FirstFitMeetsLowerBound | code/bin_packing_loops.py:102-117 | when no weight exceeds the capacity, first-fit uses at least `ceil(sum / (capacity + eps))` bins: at least `lower_bound` when `eps` is 0 |
| Packers.FirstFitDecreasingMeetsLowerBound | code/bin_packing_loops.py:120-137 | the same bound for first-fit-decreasing |
| Packers.FirstFit | code/bin_packing_loops.py:102-117 | the method returns the specification packing with tolerance `1e-9`, with the partition, bookkeeping, in-bin order and bound above |
| Packers.FirstFitDecreasing | code/bin_packing_loops.py:120-137 | the method returns the specification packing of the sorted items, with the partition, bookkeeping, heavier-first order and bound above |
| Packers.PlaceOpens | code/bin_packing_loops.py:114-116 | unfolding step: an item no bin admits opens a new bin |
| Packers.PlaceJoins | code/bin_packing_loops.py:108-113 | unfolding step: an item joins the first bin that admits it |
| Packers.FourJobsExample | code/bin_packing_loops.py:102-141 | 60, 40, 20, 20 on 60-second loops: both packers give `[[0], [1, 2], [3]]` with loads 60, 60, 20, and the bound is 3 |
| Packers.PairShareBin | code/bin_packing_loops.py:105-116 | two equal jobs whose sum is within `capacity + eps` end up together in the first bin |
| Packers.ToleranceExample | code/bin_packing_loops.py:109 | two jobs of 30.0000000005 share one 60-second loop through the tolerance, while `lower_bound` is 2 |
| Packers.OversizedJobExample | code/bin_packing_loops.py:114-116 | a 70-second job on 60-second loops gets a bin of its own in both packers |

## Left out

- Reading the file is not modelled: the existence check, `open` and the CSV
  parsing. The header list and the rows as a map from header to field are
  inputs. The `FileNotFoundError` path is therefore absent.
- Rows shorter than the header line are not modelled. The reader gives them
  a `None` field, which the column search's `.strip()` would fail on and
  which the value loop reads as the text `None`, hence 0. Extra fields
  under `restkey` are not modelled either.
- `float()` is modelled on plain decimal numerals only: an optional sign, digits, and
  an optional point, with surrounding whitespace. These are not modelled:
  exponents, `inf` and `nan`, digit-group underscores, and non-ASCII digits.
  Any of them would change only which fields parse. `int()` likewise.
- Text.Lower: `str.lower()` is modelled on ASCII letters only.
- Reals are exact: IEEE rounding in `sum`, in `loads[b] += w` and in the fit
  test is not modelled.
- Packers.FirstFitDecreasing: `list.sort` sorts in place; the model computes
  the sorted list with a pure stable insertion sort `SortByWeightDesc`.
  Only its result is modelled, not the in-place update.
- Packers.FirstFit: the bound is stated for `capacity + 1e-9`. The exact
  `ceil(sum / capacity)` only follows for a zero tolerance, and
  `Packers.ToleranceExample` shows that it can fail otherwise.
- The bound lemmas require `capacity > 0`, since `lower_bound` divides by
  it. They also require that no job be longer than the capacity: such a job
  gets a bin of its own (`Packers.OversizedJobExample`), and one job of 200
  on 60-second loops takes one bin where `lower_bound` says 4.
- `pretty_print`, `save_bins_csv`, `main`, argument parsing, timing and all
  printing are not part of this model.
