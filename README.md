# Warehouse packing groups

A Dafny model of the packing-group pipeline of the warehouse packing-report app
(`app.py`, lines 23-97). The pipeline starts from the rows of an uploaded purchase-order
sheet (PO Number, Material Description, Style Code, Size, Article Qty) and ends with the
list of report rows handed to the spreadsheet writer:

1. **ColorStyle key** (`color_style.dfy`). Each sheet row gets the key
   `COLOR - DIGITS`:
   - The colour is the last `_`-part of the description that, once stripped, is
     alphabetic and at least three letters long, upper-cased.
   - Failing that, it is the first such `,`-segment.
   - Failing that, it is `UNKNOWN`.
   - The digits are group 1 of `re.search(r'(\d+)$', style)`.
2. **Quantity pivot** (`pivot.dfy`):
   - Line items are summed per (PO Number, ColorStyle) and size label.
   - The seven configured sizes (`6-12M`, `12-18M`, `18-24M`, `2-3Y`, `3-4Y`, `5-6Y`,
     `7-8Y`) are zero-filled where absent.
   - The columns `Infant Total` and `Toddler Total` are added.
   - The `PivotTable` class is the DataFrame that lines 60-65 change in place.
3. **Signatures** (`signature.dfy`). A PO's signature is the sorted tuple of its pivot
   rows. Each row is reduced to `(ColorStyle, q_6-12M, …, q_7-8Y)`.
4. **Grouping** (`grouping.dfy`):
   - The `SignatureIndex` class is `po_group_map`, a `defaultdict(list)` with Python's
     insertion-ordered keys.
   - It is filled by `BuildIndex`, one PO at a time in `groupby` order.
   - Its items are then sorted by signature.
5. **Report rows** (`report.dfy`). `Materialize` expands group number `idx` (from 1)
   into one row per signature entry. Each row carries:
   - the band values and their two subtotals;
   - the group's distinct POs, sorted and joined with `", "`;
   - the PO count.

   `GroupNumber` is line 97's sort key, read back from a `Group <n>` label.
6. **Pipeline** (`pipeline.dfy`). The whole chain, from sheet rows to report rows, as
   one method. It is proved equal to the function `PackingReport`, and the end-to-end
   properties are proved about that function.

Supporting modules:
- `text.dfy`: Python's `split`, `join`, `strip`, `isalpha`, `upper`, `str(n)` and `int(s)`.
- `orders.dfy`: Python's ordering of strings and tuples, proved to be a strict total
  order.
- `sorting.dfy`: `sorted`, `sorted(set(...))` and list comprehensions.
- `wrappers.dfy`: `Option`.

Python semantics the model keeps:
- Slices clamp to the list (`Take`, `Drop`).
- Dictionaries keep insertion order.
- `sorted` on tuples compares lexicographically.
- `$` also matches just before one final newline. The style digits are therefore the
  digit run that ends either at the end of the code or just before a final `'\n'`.
  This follows the regular expression as written. A plain "trailing digits" reading
  would say otherwise.

## Model

| member | source | states |
|---|---|---|
| ColorStyle.LastColorWord | app.py:26-30 | the index found is a colour word (stripped, alphabetic, length ≥ 3) and no later part is; `None` only when no part is |
| ColorStyle.FirstColorWord | app.py:31-35 | the index found is a colour word and no earlier segment is; `None` only when no segment is |
| ColorStyle.ExtractColor | app.py:23-36 | the backward scan over `_`-parts, then the forward scan over `,`-segments, with early returns, returns exactly `Color(desc)` |
| ColorStyle.ColorFromLastPart | app.py:26-30 | first priority: when part `i` is the last colour word, the colour is that part stripped and upper-cased |
| ColorStyle.ColorFromFirstSegment | app.py:31-35 | second priority: with no colour word among the `_`-parts, the colour is the first colour-word `,`-segment, upper-cased; the `',' in desc` guard never changes this |
| ColorStyle.NoCommaNoSegmentWord | app.py:31 | without a comma no `,`-segment is a colour word once no `_`-part is, which is why the guard is redundant |
| ColorStyle.UnderscoreNotColorWord | app.py:26-29 | a piece containing `_` is never a colour word |
| ColorStyle.ColorFallback | app.py:36 | with no colour word in either scan the colour is `UNKNOWN` |
| ColorStyle.ColorShape | app.py:23-36 | a missing description (and only that) gives `''`; any other description gives at least three capital letters |
| ColorStyle.DigitRunEnd | app.py:41 | the greedy `\d+` from position `i`: digits up to the returned end, and a non-digit (or the end of the string) there |
| ColorStyle.RunStart | app.py:41 | the start of the maximal digit run that ends at `e`: digits inside and a non-digit (or the start) just before |
| ColorStyle.MatchEnd | app.py:41 | the position where `$` matches: the end of the string, or just before a final newline |
| ColorStyle.SearchSkipsToRun | app.py:41 | the search from any earlier start finds what the search from the start of the trailing run finds |
| ColorStyle.StyleDigitsTrailingRun | app.py:38-42 | `extract_style_digits` returns exactly the maximal digit run that ends where `$` matches, is all digits, and is `''` exactly when no digit stands there |
| ColorStyle.KeyParts | app.py:46 | `c + " - " + d` with `c` made of capital letters determines `c` and `d` |
| ColorStyle.ColorStyleKeyInjective | app.py:44-46 | two rows get the same ColorStyle key exactly when their colours and their style digits are equal |
| Text.UpperOfAlpha | app.py:30 | `upper` on letters gives capital letters of the same length |
| Text.Split | app.py:26 | `split` always returns at least one piece |
| Text.SplitPiecesAvoidSeparator | app.py:26 | no piece of a split contains the separator |
| Text.JoinSplit | app.py:26 | joining the pieces of a split with the separator gives back the string |
| Text.SplitJoin | app.py:91 | splitting a join of separator-free pieces gives back the pieces |
| Text.SplitWithoutSeparator | app.py:32 | a string without the separator splits into itself |
| Text.StripSlice | app.py:28 | `strip` keeps a middle slice that neither starts nor ends with whitespace, and only whitespace is removed |
| Text.StripKeeps | app.py:28 | a non-whitespace character survives `strip` |
| Text.DecimalString | app.py:91 | `str(n)` is a non-empty run of digits without a leading zero |
| Text.ParseNat | app.py:97 | `int(s)` succeeds exactly on a non-empty run of digits |
| Text.DecimalRoundTrip | app.py:91 | `int(str(n)) == n` |
| Pivot.SizesDistinct | app.py:48-50 | the seven configured sizes are distinct and differ from both total columns |
| Pivot.RowKeysFacts | app.py:52-58 | the pivot has one row per distinct (PO Number, ColorStyle) of the line items, in increasing index order |
| Pivot.SumQtyAppend | app.py:56 | the summed quantity of a concatenation is the sum of the two parts |
| Pivot.SumQtyRemove | app.py:56 | taking out one line item takes away exactly its own share |
| Pivot.SumQtyPermutation | app.py:52-58 | the summed quantity does not depend on the order of the line items |
| Pivot.SumQtyNoMatch | app.py:57 | with no line item for the PO, ColorStyle and size the cell is 0 |
| Pivot.SumQtyMergesDuplicates | app.py:56 | two rows for the same PO, ColorStyle and size add up rather than overwrite |
| Pivot.MissingSizes | app.py:60-61 | the sizes added are exactly the configured sizes that are not yet columns |
| Pivot.MissingSizesStep | app.py:60-62 | one more configured size is added exactly when it is not a column, and never twice |
| Pivot.FillStepPresent | app.py:61 | in the loop, size `k` is a column exactly when the data had it, and then nothing changes |
| Pivot.FillStepAbsent | app.py:61-62 | otherwise adding size `k` as a zero column extends the added sizes by it and keeps every row holding exactly the table's columns |
| Pivot.ZeroFillShaped | app.py:62 | `pivot[col] = 0` gives every row a value for the new column and keeps the others |
| Pivot.ZeroFillStep | app.py:62 | adding zero columns one at a time equals adding them as one batch |
| Pivot.ZeroFillNothing | app.py:60-62 | adding no zero columns changes nothing |
| Pivot.ZeroFillAppend | app.py:62 | one more zero column, on the table's values |
| Pivot.ZeroFilled | app.py:60-62 | after the zero-fill every row holds all seven configured sizes |
| Pivot.ZeroFilledCell | app.py:52-62 | after the zero-fill, a configured size holds the summed quantity whether or not it was in the data |
| Pivot.AbsentSizeSumsToZero | app.py:57 | a size label that is no column of the data sums to 0 for every (PO, ColorStyle) |
| Pivot.ZeroFilledCells | app.py:52-62 | every zero-filled row keeps its (PO, ColorStyle) and holds the summed quantity for every configured size |
| Pivot.TotalRowsCells | app.py:64-65 | a total column keeps the row's index and other cells and holds the band sum |
| Pivot.InfantSum | app.py:64 | the infant band sum is `6-12M + 12-18M + 18-24M` |
| Pivot.ToddlerSum | app.py:65 | the toddler band sum is `2-3Y + 3-4Y + 5-6Y + 7-8Y` |
| Pivot.BandTotalsCells | app.py:64-65 | the two total columns keep each row's index and size cells and make Infant Total and Toddler Total equal their band sums |
| Pivot.PivotCells | app.py:52-65 | the finished pivot: one row per distinct (PO, ColorStyle) in index order; each configured size holds the summed quantity (0 when absent); both totals hold |
| Pivot.PivotEmptyIff | app.py:52-65 | the pivot has no rows exactly when there are no line items |
| Pivot.PivotKeysDistinct | app.py:52-58 | no two rows of the finished pivot share their (PO Number, ColorStyle) |
| Pivot.PivotRowCell | app.py:52-65 | any row of the finished pivot holds the summed quantity for each configured size |
| Pivot.PivotAxesPermutation | app.py:52-58 | reordering line items keeps the row index and the size columns |
| Pivot.CellsPermutation | app.py:52-58 | reordering line items keeps every row's cells |
| Pivot.PivotPermutationInvariant | app.py:52-65 | the finished pivot depends only on which line items there are, not on their order |
| Pivot.MapSameElements | app.py:53-54 | mapping two permutations collects the same values |
| Pivot.PivotTable.FromLineItems | app.py:52-58 | the new table has the sorted distinct size labels as columns and the summed rows, and every row holds exactly those columns |
| Pivot.PivotTable.FillMissingSizes | app.py:60-62 | the columns gain exactly the missing configured sizes in configured order, every row gets 0 in each of them, and rows still hold exactly the columns |
| Pivot.PivotTable.AddBandTotals | app.py:64-65 | the two total columns are added (once each) and every row becomes its band-total row |
| Pivot.BuildPivot | app.py:52-65 | pivot, zero-fill and totals in order give exactly `PivotOf(items)` |
| Signature.EntryOf | app.py:71 | the entry holds the row's ColorStyle and its seven configured size cells in configured order, 0 for a missing cell |
| Signature.EntryIgnoresOtherColumns | app.py:71 | size labels outside the seven, and the totals, do not affect an entry |
| Signature.EntryLtStrictTotal | app.py:70 | Python's comparison of entry tuples is a strict total order |
| Signature.SigLtStrictTotal | app.py:77 | Python's comparison of signature tuples is a strict total order |
| Signature.SignatureFacts | app.py:70-73 | a signature is sorted and holds each of the PO's row entries exactly once |
| Signature.SignatureOrderIndependent | app.py:70-73 | permuting a PO's rows yields the same signature |
| Signature.SignatureStrict | app.py:69-73 | rows with distinct ColorStyles give a strictly increasing signature |
| Signature.GroupRowsMultiplicity | app.py:69 | a PO's group holds each pivot row of that PO as often as the pivot does, and no other row |
| Signature.GroupRowsDistinct | app.py:69 | the group of a duplicate-free list of rows is duplicate-free |
| Signature.GroupStylesDistinct | app.py:69 | when no two rows share their (PO, ColorStyle), no two rows of one PO's group share their ColorStyle |
| Signature.PivotGroupStylesDistinct | app.py:52-69 | the rows that `groupby` gives one PO of the pivot have pairwise distinct ColorStyles |
| Signature.PivotSignatureStrict | app.py:52-73 | every PO's signature in the pivot is strictly increasing and has one entry per row of the PO |
| Signature.SignatureEntryOrigin | app.py:70-72 | every signature entry is the entry of one of the PO's rows |
| Grouping.SignatureIndex.constructor | app.py:68 | the index starts with no keys and no lists |
| Grouping.SignatureIndex.Append | app.py:74 | `po_group_map[sig].append(po)`: a new key is appended to the key order and starts as an empty list, and `po` goes at the end of its list |
| Grouping.KeysStep | app.py:74 | one more visit adds its signature to the keys exactly when it is new |
| Grouping.ListForStep | app.py:74 | one more visit appends its PO to the list of its own signature only |
| Grouping.ListsStep | app.py:74 | the map after one more visit is the map before with that PO appended under its signature |
| Grouping.KeysDomainStep | app.py:74 | the keys after one more visit are the earlier keys and the visit's signature |
| Grouping.ListsStepAt | app.py:74 | the step for the list of one signature |
| Grouping.ListForAbsent | app.py:68 | a signature no visit produced has an empty list |
| Grouping.BuildIndex | app.py:68-74 | the loop leaves the keys in first-seen order and, under each, the POs with that signature in visiting order |
| Grouping.ListForMembers | app.py:74 | a PO is in the list of `sig` exactly when it was visited with `sig` |
| Grouping.ListForIncreasing | app.py:69-74 | visits in increasing PO order give every list in increasing order |
| Grouping.KeysOfMembers | app.py:74 | a signature is a key exactly when some PO has it |
| Grouping.POsOfFacts | app.py:69 | `groupby` visits each PO of the pivot once, in increasing order |
| Grouping.VisitsFacts | app.py:69-73 | the loop visits each PO of the pivot once, increasingly, paired with its own signature |
| Grouping.GroupsOf | app.py:77 | there is one group per key |
| Grouping.GroupsOfSigs | app.py:77 | the group signatures are the sorted keys |
| Grouping.GroupsOfPairs | app.py:77 | each group is a key with its list |
| Grouping.GroupsOfCover | app.py:77 | every key has a group |
| Grouping.GroupsOfMembers | app.py:77 | the groups are the sorted keys, each with its own list, and every key has one |
| Grouping.GroupsOfIncreasing | app.py:77 | distinct keys give groups in strictly increasing signature order |
| Grouping.GroupsOfOrderFree | app.py:77 | the numbering does not depend on the dict's insertion order, only on the set of signatures |
| Grouping.GroupsNonEmptyIncreasing | app.py:74-78 | every group has at least one PO, listed in increasing order without repeats |
| Grouping.GroupsMembership | app.py:74-77 | a PO is in a group exactly when it was visited with the group's signature |
| Grouping.GroupsCoverVisits | app.py:74-77 | every visited signature has a group |
| Grouping.GroupingFacts | app.py:68-77 | groups in strictly increasing signature order; each group's POs non-empty and increasing; a PO is in a group exactly when its signature is the group's |
| Grouping.EachPOInOneGroup | app.py:68-77 | every PO of the pivot is in exactly one group |
| Grouping.SameGroupIffSameSignature | app.py:68-77 | two POs of the pivot share a group exactly when their signatures are equal |
| Grouping.GroupsEmptyIff | app.py:68-77 | the grouping is empty exactly when the pivot is, and otherwise the first group's signature has an entry |
| Grouping.FirstGroupHasEntry | app.py:69-77 | the first group's signature has at least one entry |
| Grouping.POHasRows | app.py:69 | a PO that `groupby` visits has at least one pivot row |
| Grouping.GroupShape | app.py:74-78 | one group's POs are non-empty and increasing |
| Grouping.GroupMember | app.py:68-77 | one PO is in a group exactly when its signature is the group's |
| Grouping.GroupMembers | app.py:68-77 | a group's members are exactly the POs whose signature is the group's |
| Report.SumAppend | app.py:89-90 | `sum` over a concatenation is the sum of the parts |
| Report.Take | app.py:82 | `xs[:n]` is a prefix of length `min(n, len(xs))` |
| Report.Drop | app.py:83 | `xs[:n] + xs[n:] == xs` |
| Report.Materialize | app.py:76-93 | the nested group and entry loops append exactly `ReportRows(groups)` |
| Report.GroupReportStep | app.py:79-84 | one more entry appends that entry's row |
| Report.ReportRowsStep | app.py:77-93 | one more group appends that group's rows |
| Report.ReportPrefix | app.py:77-93 | the rows of earlier groups come first |
| Report.ReportRowAt | app.py:77-93 | entry `e` of group `g` is the row right after the earlier groups' rows, built with label `Group g+1` |
| Report.ReportLength | app.py:79 | the report has exactly one row per signature entry |
| Report.RowValues | app.py:80-90 | the 3 infant and 4 toddler values are the entry's quantities split after the third size, each subtotal is their sum, and together they add up to the entry's total |
| Report.RemoveAllAbsent | app.py:97 | `replace` without an occurrence leaves the string as it is |
| Report.GroupNumberOfLabel | app.py:97 | line 97 reads back `idx` from `Group idx`, so the labels sort by number |
| Report.StripDigits | app.py:91 | a padded decimal piece strips to its digits |
| Report.JoinPadded | app.py:91 | joining with `", "` is joining space-padded pieces with `","` |
| Report.ParsePaddedPOs | app.py:91 | space-padded decimal pieces parse back to their POs |
| Report.CommaSpaceJoin | app.py:91 | the `", "`-join of pieces is the `","`-join of the first piece and the padded rest |
| Report.DecimalPiecesAvoidComma | app.py:91 | decimal pieces contain no comma |
| Report.ParseDecimalPieces | app.py:91 | the comma-separated pieces parse back to the POs |
| Report.DecimalListRoundTrip | app.py:91 | any non-empty list of POs joined with `", "` reads back as the same list |
| Report.POsTextRoundTrip | app.py:78-91 | the POs text reads back as the distinct POs in increasing order, and the PO count is their number |
| Report.GroupRowMeaning | app.py:76-93 | the row of entry `e` of group `g` is labelled `Group g+1`, carries the entry's ColorStyle, split quantities and subtotals, the group's POs as text and their count |
| Pipeline.PackingRows | app.py:44-93 | the imperative pipeline (key column through `KeyedItems`, pivot, zero-fill, totals, grouping loop, materialising loop) produces exactly `PackingReport(sheet)` |
| Pipeline.KeyedItems | app.py:44-46 | the column loop gives every sheet row, in order, its line item keyed by `Color - StyleDigits`: exactly `LineItems(sheet)` |
| Pipeline.LineItemsStep | app.py:44-46 | keying one more sheet row appends exactly its line item |
| Pipeline.EmptyReportIff | app.py:76-96 | the report is empty exactly when the sheet has no rows |
| Pipeline.EntryWellFormed | app.py:71 | every signature entry of every group has seven quantities |
| Pipeline.GroupsWellFormed | app.py:71-83 | the whole grouping makes every entry seven quantities long, so the slices at lines 82-83 never run short |
| Pipeline.ReportIgnoresRowOrder | app.py:44-93 | the report does not depend on the order of the sheet's rows |
| Pipeline.GroupMembersShareQuantities | app.py:52-73 | for every PO of a group and every entry of the group's signature, each quantity is that PO's summed quantity for the entry's ColorStyle and size |
| Pipeline.RowsReportMeaning | app.py:68-93 | the report row of entry `e` of group `g` of any pivot means that entry of that group |
| Pipeline.ShapedGroupRowMeaning | app.py:76-93 | the same, given the group's shape |
| Pipeline.ReportRowMeaning | app.py:44-97 | for a sheet: the row of entry `e` of group `g` exists, is labelled `Group g+1`, carries the entry's values and subtotals, the group's POs and their count, and the group's POs are exactly those whose signature is the group's |
| Sorting.Insert | app.py:70 | insertion adds exactly one copy of the element |
| Sorting.Sort | app.py:70 | `sorted` is a permutation of its input |
| Sorting.InsertSorted | app.py:70 | inserting into a sorted list keeps it sorted |
| Sorting.SortSorted | app.py:70 | `sorted` returns a sorted list |
| Sorting.SortedHeadsEqual | app.py:70 | two sorted permutations start with the same element |
| Sorting.SortedTail | app.py:70 | dropping the head keeps a list sorted and removes one copy of the head |
| Sorting.SortedUnique | app.py:70 | under a strict total order a multiset has exactly one sorted arrangement |
| Sorting.SortPermutationInvariant | app.py:70 | `sorted` does not depend on the order of its input |
| Sorting.SortDistinctStrict | app.py:77 | a duplicate-free list sorts strictly |
| Sorting.Dedup | app.py:74 | the first-seen keys are exactly the elements, without repeats |
| Sorting.SortedDistinctFacts | app.py:91 | `sorted(set(s))` is strictly increasing, holds exactly the elements of `s`, and has `len(set(s))` of them |
| Sorting.SortedDistinctSameSet | app.py:53-54 | lists with the same elements give the same `sorted(set(...))` |
| Sorting.SortedDistinctOfIncreasing | app.py:91 | `sorted(set(s))` of an increasing list is the list |
| Sorting.DistinctCardinality | app.py:78 | `len(set(s)) == len(s)` for a duplicate-free list |
| Sorting.DedupOfDistinct | app.py:74 | a duplicate-free list is its own first-seen order |
| Sorting.StrictlySortedInjective | app.py:77 | in a strictly increasing list each value sits at one position |
| Sorting.DistinctMultiplicity | app.py:78 | a duplicate-free list holds each element once |
| Sorting.MultiplicityDistinct | app.py:78 | a list holding each element at most once is duplicate-free |
| Sorting.SameElementsPermutation | app.py:78 | two duplicate-free lists with the same elements are permutations of each other |
| Sorting.Map | app.py:71-72 | a comprehension has one image per element, in order |
| Sorting.Filter | app.py:69 | the filtered rows are exactly those of the input that satisfy the test, each as often as in the input |
| Sorting.MapAppend | app.py:71-72 | mapping distributes over concatenation |
| Sorting.MapRemove | app.py:71-72 | removing one element removes its image |
| Sorting.MapPermutation | app.py:71-72 | mapping a permutation yields a permutation |
| Sorting.RemovedPermutation | app.py:56 | removing matching elements from two permutations leaves permutations |
| Orders.LexIrreflexive | app.py:70 | no tuple is less than itself |
| Orders.LexTransitive | app.py:70 | tuple comparison is transitive |
| Orders.LexConnected | app.py:70 | any two distinct tuples compare |
| Orders.LexStrictTotal | app.py:70 | lexicographic comparison over a strict total order is a strict total order |
| Orders.StrLtStrictTotal | app.py:53-54 | Python's string comparison is a strict total order |
| Orders.IntsLtStrictTotal | app.py:71 | Python's comparison of integer tuples is a strict total order |
| Orders.NatLessStrictTotal | app.py:91 | `<` on PO numbers is a strict total order |
| Pivot.KeyLtStrictTotal | app.py:53 | the (PO Number, ColorStyle) index order is a strict total order |
| Text.LeadingSpacesLongest | app.py:28 | `strip` removes the longest leading run of whitespace |
| Text.TrailingSpacesLongest | app.py:28 | `strip` removes the longest trailing run of whitespace |
| Text.SplitAtSeparator | app.py:26 | splitting at the first separator |
| ColorStyle.IsColorWord | app.py:29 | definition: a piece that, stripped, is alphabetic with at least three letters; the scans' results are characterised by `LastColorWord` and `FirstColorWord` |
| ColorStyle.Color | app.py:23-36 | definition of `extract_color`; its priorities are proved by `ColorFromLastPart`, `ColorFromFirstSegment` and `ColorFallback`, its shape by `ColorShape`, and `ExtractColor` computes it |
| ColorStyle.SearchDigitsAtEnd | app.py:41 | definition of `re.search(r'(\d+)$', ...)` as a left-to-right search; `SearchSkipsToRun` and `StyleDigitsTrailingRun` say what it finds |
| ColorStyle.StyleDigits | app.py:38-42 | definition of `extract_style_digits`; `StyleDigitsTrailingRun` proves it is the digit run ending where `$` matches |
| ColorStyle.ColorStyleKey | app.py:46 | definition of `Color + ' - ' + StyleDigits`; `ColorStyleKeyInjective` proves it keeps both parts apart |
| Pivot.SumQty | app.py:56 | definition of the `sum` aggregate of one cell; `SumQtyAppend`, `SumQtyPermutation`, `SumQtyNoMatch` and `SumQtyMergesDuplicates` state its properties |
| Pivot.RowKeys | app.py:53 | definition of the index as the sorted distinct (PO Number, ColorStyle) keys; `RowKeysFacts` states it |
| Pivot.SizeColumns | app.py:54 | definition of the columns as the sorted distinct size labels; `PivotAxesPermutation` states its order independence |
| Pivot.Cells | app.py:55-57 | definition of one row's cells, one summed quantity per size column; `CellsPermutation` and `PivotCells` state them |
| Pivot.PivotRows | app.py:52-58 | definition of the `pivot_table` result; `PivotTable.FromLineItems` builds it |
| Pivot.ZeroFillRows | app.py:62 | definition of `pivot[col] = 0` for a batch of columns; `ZeroFillShaped`, `ZeroFillStep` and `ZeroFilledCell` state what it does |
| Pivot.BandSum | app.py:64-65 | definition of the row sum over one band; `InfantSum` and `ToddlerSum` write it out |
| Pivot.TotalRows | app.py:64-65 | definition of one total column added to every row; `TotalRowsCells` states it |
| Pivot.WithBandTotals | app.py:64-65 | definition of both total columns; `BandTotalsCells` states them |
| Pivot.PivotOf | app.py:52-65 | definition of the finished pivot; `PivotCells`, `PivotKeysDistinct` and `PivotPermutationInvariant` state it, and `BuildPivot` computes it |
| Signature.EntryLt | app.py:70 | definition of Python's entry tuple order; `EntryLtStrictTotal` proves it a strict total order |
| Signature.SigLt | app.py:77 | definition of Python's signature tuple order; `SigLtStrictTotal` proves it a strict total order |
| Signature.GroupRows | app.py:69 | definition of the rows `groupby` gives one PO; `GroupRowsMultiplicity` states them |
| Signature.SignatureOf | app.py:70-73 | definition of the signature; `SignatureFacts`, `SignatureOrderIndependent` and `PivotSignatureStrict` state it |
| Grouping.POsOf | app.py:69 | definition of the POs `groupby` visits; `POsOfFacts` states them |
| Grouping.Visits | app.py:69-73 | definition of the loop's (signature, PO) visits; `VisitsFacts` states them |
| Grouping.KeysOf | app.py:74 | definition of the dict's keys in insertion order; `KeysOfMembers` and `KeysStep` state them, and `BuildIndex` computes them |
| Grouping.ListFor | app.py:74 | definition of one dict value; `ListForMembers` and `ListForIncreasing` state it |
| Grouping.ListsOf | app.py:68-74 | definition of the dict's values; `ListsStep` states one step, and `BuildIndex` computes them |
| Grouping.GroupsFor | app.py:68-77 | definition of the numbered groups; `GroupingFacts`, `EachPOInOneGroup` and `SameGroupIffSameSignature` state them |
| Report.Sum | app.py:89-90 | definition of `sum`; `SumAppend` and `RowValues` state it |
| Report.GroupLabel | app.py:85 | definition of `f'Group {idx}'`; `GroupNumberOfLabel` reads it back |
| Report.POsText | app.py:91 | definition of the POs text; `POsTextRoundTrip` reads it back |
| Report.RowFor | app.py:79-93 | definition of one report row; `RowValues` and `GroupRowMeaning` state it |
| Report.GroupReport | app.py:79-93 | definition of one group's rows; `GroupReportStep` states one step |
| Report.ReportRows | app.py:76-93 | definition of `grouped_rows`; `ReportLength`, `ReportRowAt` and `GroupRowMeaning` state it, and `Materialize` computes it |
| Report.RemoveAll | app.py:97 | definition of `str.replace(..., '')`; `RemoveAllAbsent` states it |
| Report.GroupNumber | app.py:97 | definition of line 97's sort key; `GroupNumberOfLabel` states it |
| Text.IsSpace | app.py:28 | definition of Python's whitespace characters used by `strip` |
| Text.Strip | app.py:28 | definition of `strip`; `StripSlice`, `StripKeeps`, `LeadingSpacesLongest` and `TrailingSpacesLongest` state it |
| Text.Upper | app.py:30 | definition of `upper`; `UpperOfAlpha` states it |
| Text.Join | app.py:91 | definition of `join`; `JoinSplit` and `SplitJoin` relate it to `split` |
| Pipeline.LineItemOf | app.py:44-46 | definition of one sheet row's line item with its ColorStyle key; `KeyedItems` computes it for every row |
| Pipeline.LineItems | app.py:44-46 | definition of the keyed sheet; `KeyedItems` computes it |
| Pipeline.PackingReport | app.py:44-93 | definition of the whole chain; `PackingRows` computes it, and `ReportRowMeaning`, `ReportIgnoresRowOrder` and `EmptyReportIff` state it |
| Pivot.PivotMergesDuplicates | app.py:52-58 | two line items that differ only in their quantity give the same finished pivot as one line item carrying the sum of both quantities |
| Pivot.MergedAxes | app.py:53-54 | merging two such line items keeps the pivot's row keys and size columns |
| Pivot.PivotIndex | app.py:52-66 | the finished pivot has one row per row key, carrying that key, in order |
| Grouping.POsOfPivot | app.py:52-69 | the POs `groupby` visits are exactly the PO numbers of the line items |
| Grouping.PivotPOHasItem | app.py:52-69 | a PO of the pivot comes from some line item |
| Grouping.ItemPOInPivot | app.py:52-69 | every line item's PO has a pivot row |
| Pipeline.ArticleQty | app.py:55-56 | definition: a NaN `Article Qty` counts as 0 in the `sum`, any other quantity as itself; `ReportMergesDuplicates` uses it |
| Pipeline.MergedLineItems | app.py:44-46 | the line items of two sheet rows that differ only in their quantity, and of one row carrying both |
| Pipeline.SamePivotSameReport | app.py:68-93 | sheets with the same pivot give the same report |
| Pipeline.ReportMergesDuplicates | app.py:44-93 | two sheet rows that differ only in their quantity give the same report as one row carrying both quantities, a NaN quantity counting as 0 |
| Pipeline.PivotPOsAreSheetPOs | app.py:44-69 | the POs of the pivot are exactly the PO numbers that occur in the sheet |
| Pipeline.SheetPOsPartition | app.py:44-77 | a PO number is in some group exactly when it occurs in the sheet, and then in exactly one group |
| Text.IsAlpha | app.py:29 | definition of `str.isalpha` on ASCII: non-empty and all letters; `UpperOfAlpha` and `UnderscoreNotColorWord` use it |
| Signature.Get | app.py:71 | definition of `row.get(col, 0)`; `EntryOf` and `EntryIgnoresOtherColumns` state the entries it builds |
| Sorting.SetOf | app.py:78 | definition of `set(s)`; `SortedDistinctFacts` and `DistinctCardinality` give its size |
| Sorting.SortedDistinct | app.py:91 | definition of `sorted(set(s))`, also used for the pivot axes at lines 53-54; `SortedDistinctFacts`, `SortedDistinctSameSet` and `SortedDistinctOfIncreasing` state it |
| Orders.LexLt | app.py:70 | definition of Python's `<` on tuples; `LexIrreflexive`, `LexTransitive`, `LexConnected` and `LexStrictTotal` prove it a strict total order |
| Orders.StrLt | app.py:53 | definition of Python's `<` on strings, by code point; `StrLtStrictTotal` proves it a strict total order |
| Pivot.KeyLt | app.py:53 | definition of the pivot's (PO Number, ColorStyle) index order; `KeyLtStrictTotal` proves it a strict total order |
| ColorStyle.DollarAt | app.py:41 | definition of where `$` matches; `MatchEnd` and `StyleDigitsTrailingRun` state it |

## Left out

- The Streamlit user interface (lines 11-21, 157-158). It is user-interface plumbing.
  This includes the required-columns check and its error exit at lines 18-21: the model
  starts from sheets that have all five columns.
- Reading the workbook with `pd.read_excel` and saving it to `BytesIO` (lines 16,
  153-155). This is file I/O.
- The openpyxl rendering at lines 99-151: merged cells, fonts, alignment and cell
  placement. It is a presentation layer over a library outside the model. The report
  rows it consumes are modelled in full.
- Lines 95-96, the DataFrame built from `grouped_rows` and its `sort_values`. Only the
  `Group <n>` label parse of line 97 is modelled (`GroupNumber`, `GroupNumberOfLabel`).
  The re-sort orders rows by label text (`Group 10` before `Group 2`). Line 97 restores
  numeric group order, and the rendering selects each group's rows from the re-sorted
  frame, so only the rendering, which is left out, sees that frame. Whether pandas'
  default (unstable) sort keeps the entry order inside a group is not modelled.
- NaN cells: a missing description, style code or quantity is `Option.None`. A
  missing quantity counts as 0: `aggfunc='sum'` skips it, and the row still gets its
  pivot row and size column (`Pipeline.ArticleQty`). A missing PO number or size, whose
  row pandas' `pivot_table` drops, is not modelled.
- Unicode: `isalpha`, `upper` and `\d` are modelled on ASCII letters and digits only.
  `strip` uses Python's whitespace characters.
- Number types:
  - PO numbers are modelled as non-negative integers, as read from the sheet.
  - Quantities are unbounded integers. A float quantity and the `int(...)` at line 71
    are not modelled.
  - Style codes are strings. A numeric style cell, on which the `re.search` call would
    raise, is not modelled.
  - Descriptions are strings. A numeric Material Description cell is not NaN, so it
    passes the `pd.isna` test at line 24, and `desc.split('_')` at line 26 then raises
    `AttributeError`. The model's `Option<string>` cell cannot hold a number, so this
    error is not modelled.
- `pivot_table` is modelled through its effect, not its implementation:
  - rows are the distinct (PO, ColorStyle) keys in index order;
  - columns are the distinct size labels in sorted order;
  - cells are sums, with `fill_value=0`.

  `reset_index` (line 66) only turns the index into columns and is folded into the row
  datatype.
- The empty sheet. With no sheet rows, `grouped_rows` is empty, the frame built at line
  95 has no `Group ID` column, and `sort_values(by='Group ID')` at line 96 raises
  `KeyError`: the program stops with an error. The model has no error result there:
  `PackingReport` returns the empty report. `Pipeline.EmptyReportIff` proves that this
  is the only sheet whose report is empty, so the missing error is confined to it.
- Report.RowFor: Python would raise `IndexError` at lines 87-88 for an entry shorter
  than seven values. The model clamps the slices instead (`Take`, `Drop`). The grouping
  never produces such an entry (`Pipeline.GroupsWellFormed`), so this never changes a
  result.
- `set()` at lines 78 and 91 is modelled as written (`SetOf`, `SortedDistinct`).
  Every list is already strictly increasing (`Grouping.GroupsNonEmptyIncreasing`), so
  both are proved to change nothing.
- Line 97's `int(...)` accepts surrounding whitespace, a sign and underscores. The
  model's `ParseNat` does not: the labels it reads never contain them.
