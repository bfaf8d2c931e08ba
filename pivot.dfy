/** The quantity pivot (app.py:48-66): line items summed into one row per
    (PO Number, ColorStyle), one column per size label, the seven configured sizes
    zero-filled, and the two band totals added. */
module Pivot {
  import opened Orders
  import opened Sorting

  /** PO numbers are the integers of the sheet's `PO Number` column. */
  type PO = nat

  /** One row of the upload after the ColorStyle key has been derived. */
  datatype LineItem = LineItem(po: PO, colorStyle: string, size: string, qty: int)

  const INFANT_SIZES: seq<string> := ["6-12M", "12-18M", "18-24M"]
  const TODDLER_SIZES: seq<string> := ["2-3Y", "3-4Y", "5-6Y", "7-8Y"]
  const ALL_SIZES: seq<string> := INFANT_SIZES + TODDLER_SIZES
  const INFANT_TOTAL := "Infant Total"
  const TODDLER_TOTAL := "Toddler Total"

  /** The pivot's row index: (PO Number, ColorStyle). */
  type RowKey = (PO, string)

  /** One pivot row: its index and a value for every column label. */
  datatype PivotRow = PivotRow(po: PO, colorStyle: string, cells: map<string, int>)

  /** pandas orders the index by PO number, then by ColorStyle. */
  function KeyLt(a: RowKey, b: RowKey): bool {
    a.0 < b.0 || (a.0 == b.0 && StrLt(a.1, b.1))
  }

  lemma KeyLtStrictTotal()
    ensures StrictTotalOrder(KeyLt)
  {
    StrLtStrictTotal();
  }

  lemma SizesDistinct()
    ensures Distinct(ALL_SIZES)
    ensures INFANT_TOTAL !in ALL_SIZES && TODDLER_TOTAL !in ALL_SIZES && INFANT_TOTAL != TODDLER_TOTAL
  {
  }

  function KeyOf(item: LineItem): RowKey {
    (item.po, item.colorStyle)
  }

  function SizeOf(item: LineItem): string {
    item.size
  }

  predicate Matches(item: LineItem, po: PO, colorStyle: string, size: string) {
    item.po == po && item.colorStyle == colorStyle && item.size == size
  }

  /** `aggfunc='sum'`: the total quantity of the line items with this PO, ColorStyle
      and size (0 when there are none, as `fill_value=0` gives). */
  function SumQty(items: seq<LineItem>, po: PO, colorStyle: string, size: string): int {
    if |items| == 0 then 0
    else (if Matches(items[0], po, colorStyle, size) then items[0].qty else 0)
         + SumQty(items[1..], po, colorStyle, size)
  }

  /** The pivot's rows: one per distinct (PO, ColorStyle), in index order. */
  function RowKeys(items: seq<LineItem>): seq<RowKey> {
    SortedDistinct(Map(KeyOf, items), KeyLt)
  }

  /** The pivot's columns: one per distinct size label in the data, in sorted order. */
  function SizeColumns(items: seq<LineItem>): seq<string> {
    SortedDistinct(Map(SizeOf, items), StrLt)
  }

  function Cells(items: seq<LineItem>, key: RowKey): map<string, int> {
    map size | size in SizeColumns(items) :: SumQty(items, key.0, key.1, size)
  }

  /** `df.pivot_table(index=['PO Number', 'ColorStyle'], columns='Size',
      values='Article Qty', aggfunc='sum', fill_value=0)`. */
  function PivotRows(items: seq<LineItem>): seq<PivotRow> {
    var keys := RowKeys(items);
    seq(|keys|, i requires 0 <= i < |keys| => PivotRow(keys[i].0, keys[i].1, Cells(items, keys[i])))
  }

  /** The configured sizes of `sizes` that are not yet columns, in configured order. */
  function MissingSizes(columns: seq<string>, sizes: seq<string>): (r: seq<string>)
    ensures forall s :: s in r <==> s in sizes && s !in columns
  {
    if |sizes| == 0 then []
    else
      var n := |sizes| - 1;
      assert sizes == sizes[..n] + [sizes[n]];
      MissingSizes(columns, sizes[..n]) + (if sizes[n] in columns then [] else [sizes[n]])
  }

  function ZeroColumns(labels: seq<string>): map<string, int> {
    map s | s in labels :: 0
  }

  /** `pivot[col] = 0` for every label in `missing`. */
  function ZeroFillRows(rows: seq<PivotRow>, missing: seq<string>): seq<PivotRow> {
    seq(|rows|, i requires 0 <= i < |rows| => rows[i].(cells := rows[i].cells + ZeroColumns(missing)))
  }

  /** Every row has a value for exactly the given columns. */
  ghost predicate Shaped(rows: seq<PivotRow>, columns: seq<string>) {
    forall i, c :: 0 <= i < |rows| ==> (c in rows[i].cells <==> c in columns)
  }

  /** Zero-filling a new column keeps the rows in shape with the extended columns. */
  lemma ZeroFillShaped(rows: seq<PivotRow>, columns: seq<string>, col: string)
    requires Shaped(rows, columns)
    ensures Shaped(ZeroFillRows(rows, [col]), columns + [col])
  {
  }

  lemma ZeroFillNothing(rows: seq<PivotRow>)
    ensures ZeroFillRows(rows, []) == rows
  {
    assert ZeroColumns([]) == map[];
    forall i | 0 <= i < |rows| ensures rows[i].cells + ZeroColumns([]) == rows[i].cells {
    }
  }

  /** Zero-filling one more label after a batch is zero-filling the longer batch. */
  lemma ZeroFillStep(rows: seq<PivotRow>, missing: seq<string>, col: string)
    ensures ZeroFillRows(ZeroFillRows(rows, missing), [col]) == ZeroFillRows(rows, missing + [col])
  {
    var zeros := ZeroColumns(missing + [col]);
    assert ZeroColumns(missing) + ZeroColumns([col]) == zeros;
    forall i | 0 <= i < |rows|
      ensures ZeroFillRows(ZeroFillRows(rows, missing), [col])[i] == ZeroFillRows(rows, missing + [col])[i]
    {
      MapUnionAssociative(rows[i].cells, ZeroColumns(missing), ZeroColumns([col]));
    }
  }

  lemma MapUnionAssociative(a: map<string, int>, b: map<string, int>, c: map<string, int>)
    ensures a + b + c == a + (b + c)
  {
  }

  /** One more configured size: it is missing exactly when it is not a column, and it
      is not among the sizes already found missing. */
  lemma MissingSizesStep(columns: seq<string>, sizes: seq<string>, k: nat)
    requires k < |sizes| && Distinct(sizes)
    ensures MissingSizes(columns, sizes[..k + 1])
         == if sizes[k] in columns then MissingSizes(columns, sizes[..k])
            else MissingSizes(columns, sizes[..k]) + [sizes[k]]
    ensures sizes[k] !in MissingSizes(columns, sizes[..k])
  {
    assert sizes[..k + 1][..k] == sizes[..k];
  }

  /** Step `k` of `FillMissingSizes` over distinct `sizes`: size `k` is a column already
      exactly when the sheet had it, and then nothing changes. */
  lemma FillStepPresent(sizes: seq<string>, columns0: seq<string>, k: nat)
    requires k < |sizes| && Distinct(sizes)
    ensures sizes[k] in columns0 + MissingSizes(columns0, sizes[..k]) <==> sizes[k] in columns0
    ensures sizes[k] in columns0 ==>
      MissingSizes(columns0, sizes[..k + 1]) == MissingSizes(columns0, sizes[..k])
  {
    MissingSizesStep(columns0, sizes, k);
  }

  /** Otherwise adding size `k` as a zero column extends the missing sizes by it and
      keeps the rows in shape. */
  lemma FillStepAbsent(sizes: seq<string>, columns0: seq<string>, rows0: seq<PivotRow>, k: nat)
    requires k < |sizes| && Distinct(sizes) && sizes[k] !in columns0
    requires Shaped(ZeroFillRows(rows0, MissingSizes(columns0, sizes[..k])),
                    columns0 + MissingSizes(columns0, sizes[..k]))
    ensures columns0 + MissingSizes(columns0, sizes[..k]) + [sizes[k]]
         == columns0 + MissingSizes(columns0, sizes[..k + 1])
    ensures ZeroFillRows(ZeroFillRows(rows0, MissingSizes(columns0, sizes[..k])), [sizes[k]])
         == ZeroFillRows(rows0, MissingSizes(columns0, sizes[..k + 1]))
    ensures Shaped(ZeroFillRows(rows0, MissingSizes(columns0, sizes[..k + 1])),
                   columns0 + MissingSizes(columns0, sizes[..k + 1]))
  {
    var col, missing := sizes[k], MissingSizes(columns0, sizes[..k]);
    assert MissingSizes(columns0, sizes[..k + 1]) == missing + [col] by {
      MissingSizesStep(columns0, sizes, k);
    }
    ZeroFillAppend(columns0, rows0, missing, col);
  }

  /** Adding one more zero column, on values. */
  lemma ZeroFillAppend(columns0: seq<string>, rows0: seq<PivotRow>, missing: seq<string>, col: string)
    requires Shaped(ZeroFillRows(rows0, missing), columns0 + missing)
    ensures columns0 + missing + [col] == columns0 + (missing + [col])
    ensures ZeroFillRows(ZeroFillRows(rows0, missing), [col]) == ZeroFillRows(rows0, missing + [col])
    ensures Shaped(ZeroFillRows(rows0, missing + [col]), columns0 + (missing + [col]))
  {
    assert columns0 + missing + [col] == columns0 + (missing + [col]);
    ZeroFillStep(rows0, missing, col);
    ZeroFillShaped(ZeroFillRows(rows0, missing), columns0 + missing, col);
  }

  /** The sum over a band of size columns: `pivot[band].sum(axis=1)` for one row. */
  function BandSum(cells: map<string, int>, band: seq<string>): int
    requires forall s :: s in band ==> s in cells
  {
    if |band| == 0 then 0 else cells[band[0]] + BandSum(cells, band[1..])
  }

  /** `pivot[column] = pivot[band].sum(axis=1)` for one row. */
  function AddTotal(row: PivotRow, column: string, band: seq<string>): PivotRow
    requires forall s :: s in band ==> s in row.cells
  {
    row.(cells := row.cells[column := BandSum(row.cells, band)])
  }

  function TotalRows(rows: seq<PivotRow>, column: string, band: seq<string>): seq<PivotRow>
    requires forall i, s :: 0 <= i < |rows| && s in band ==> s in rows[i].cells
  {
    seq(|rows|, i requires 0 <= i < |rows| => AddTotal(rows[i], column, band))
  }

  /** Assigning a column adds its label unless it is already a column. */
  function WithColumn(columns: seq<string>, column: string): seq<string> {
    if column in columns then columns else columns + [column]
  }

  predicate HasAllSizes(rows: seq<PivotRow>) {
    forall i, s :: 0 <= i < |rows| && s in ALL_SIZES ==> s in rows[i].cells
  }

  function ZeroFilled(items: seq<LineItem>): (rows: seq<PivotRow>)
    ensures HasAllSizes(rows)
  {
    var missing := MissingSizes(SizeColumns(items), ALL_SIZES);
    var rows := ZeroFillRows(PivotRows(items), missing);
    assert forall i, s :: 0 <= i < |rows| && s in ALL_SIZES ==> s in rows[i].cells by {
      forall i, s | 0 <= i < |rows| && s in ALL_SIZES ensures s in rows[i].cells {
        if s !in SizeColumns(items) {
          assert s in missing;
        }
      }
    }
    rows
  }

  /** Lines 64-65 on rows that hold every configured size: Infant Total first, then Toddler Total. */
  function WithBandTotals(rows: seq<PivotRow>): seq<PivotRow>
    requires HasAllSizes(rows)
  {
    assert forall s :: s in INFANT_SIZES || s in TODDLER_SIZES ==> s in ALL_SIZES;
    TotalRows(TotalRows(rows, INFANT_TOTAL, INFANT_SIZES), TODDLER_TOTAL, TODDLER_SIZES)
  }

  /** The pivot table as it is after line 65: zero-filled and with both band totals. */
  function PivotOf(items: seq<LineItem>): seq<PivotRow> {
    WithBandTotals(ZeroFilled(items))
  }

  /** The pivot DataFrame, which lines 60-65 change in place. */
  class PivotTable {
    var columns: seq<string>
    var rows: seq<PivotRow>

    /** Every row has a value for exactly the table's columns. */
    ghost predicate Valid()
      reads this
    {
      Shaped(rows, columns)
    }

    constructor FromLineItems(items: seq<LineItem>)
      ensures Valid()
      ensures columns == SizeColumns(items) && rows == PivotRows(items)
    {
      columns := SizeColumns(items);
      rows := PivotRows(items);
    }

    /** Lines 60-62: every configured size that is not a column becomes an all-zero column. */
    method FillMissingSizes()
      requires Valid()
      modifies this
      ensures Valid()
      ensures columns == old(columns) + MissingSizes(old(columns), ALL_SIZES)
      ensures rows == ZeroFillRows(old(rows), MissingSizes(old(columns), ALL_SIZES))
    {
      SizesDistinct();
      ghost var columns0, rows0 := columns, rows;
      ZeroFillNothing(rows0);
      for k := 0 to |ALL_SIZES|
        invariant columns == columns0 + MissingSizes(columns0, ALL_SIZES[..k])
        invariant rows == ZeroFillRows(rows0, MissingSizes(columns0, ALL_SIZES[..k]))
        invariant Valid()
      {
        var col := ALL_SIZES[k];
        FillStepPresent(ALL_SIZES, columns0, k);
        if col !in columns {
          FillStepAbsent(ALL_SIZES, columns0, rows0, k);
          columns := columns + [col];
          rows := ZeroFillRows(rows, [col]);
        }
      }
      assert ALL_SIZES[..|ALL_SIZES|] == ALL_SIZES;
    }

    /** Lines 64-65: the Infant Total and Toddler Total columns. */
    method AddBandTotals()
      requires Valid() && forall s :: s in ALL_SIZES ==> s in columns
      modifies this
      ensures Valid()
      ensures columns == WithColumn(WithColumn(old(columns), INFANT_TOTAL), TODDLER_TOTAL)
      ensures HasAllSizes(old(rows)) && rows == WithBandTotals(old(rows))
    {
      assert forall s :: s in INFANT_SIZES || s in TODDLER_SIZES ==> s in ALL_SIZES;
      rows := TotalRows(rows, INFANT_TOTAL, INFANT_SIZES);
      columns := WithColumn(columns, INFANT_TOTAL);
      rows := TotalRows(rows, TODDLER_TOTAL, TODDLER_SIZES);
      columns := WithColumn(columns, TODDLER_TOTAL);
    }
  }

  /** Lines 52-65 in order: pivot, zero-fill, band totals. */
  method BuildPivot(items: seq<LineItem>) returns (table: PivotTable)
    ensures fresh(table) && table.Valid()
    ensures table.rows == PivotOf(items)
  {
    table := new PivotTable.FromLineItems(items);
    table.FillMissingSizes();
    table.AddBandTotals();
  }

  lemma {:induction false} SumQtyAppend(a: seq<LineItem>, b: seq<LineItem>, po: PO, colorStyle: string, size: string)
    ensures SumQty(a + b, po, colorStyle, size) == SumQty(a, po, colorStyle, size) + SumQty(b, po, colorStyle, size)
  {
    if |a| != 0 {
      assert (a + b)[0] == a[0];
      assert (a + b)[1..] == a[1..] + b;
      SumQtyAppend(a[1..], b, po, colorStyle, size);
    } else {
      assert a + b == b;
    }
  }

  /** Taking one line item out of the list takes away exactly its own share. */
  lemma SumQtyRemove(b: seq<LineItem>, j: nat, po: PO, colorStyle: string, size: string)
    requires j < |b|
    ensures SumQty(b, po, colorStyle, size)
         == SumQty([b[j]], po, colorStyle, size) + SumQty(b[..j] + b[j + 1..], po, colorStyle, size)
  {
    assert b == b[..j] + ([b[j]] + b[j + 1..]);
    SumQtyAppend(b[..j], [b[j]] + b[j + 1..], po, colorStyle, size);
    SumQtyAppend([b[j]], b[j + 1..], po, colorStyle, size);
    SumQtyAppend(b[..j], b[j + 1..], po, colorStyle, size);
  }

  /** The summed quantity does not depend on the order of the line items. */
  lemma {:induction false} SumQtyPermutation(a: seq<LineItem>, b: seq<LineItem>, po: PO, colorStyle: string, size: string)
    requires multiset(a) == multiset(b)
    ensures SumQty(a, po, colorStyle, size) == SumQty(b, po, colorStyle, size)
  {
    if |a| == 0 {
      assert |b| == |multiset(b)| == 0;
    } else {
      assert a[0] in multiset(b);
      var j :| 0 <= j < |b| && b[j] == a[0];
      var rest := b[..j] + b[j + 1..];
      RemovedPermutation(a, b, j);
      SumQtyPermutation(a[1..], rest, po, colorStyle, size);
      SumQtyRemove(b, j, po, colorStyle, size);
      SumQtyRemove(a, 0, po, colorStyle, size);
      assert a[..0] + a[1..] == a[1..];
    }
  }

  /** With no line item for this PO, ColorStyle and size the cell is 0 (`fill_value=0`). */
  lemma {:induction false} SumQtyNoMatch(items: seq<LineItem>, po: PO, colorStyle: string, size: string)
    requires forall j :: 0 <= j < |items| ==> !Matches(items[j], po, colorStyle, size)
    ensures SumQty(items, po, colorStyle, size) == 0
  {
    if |items| != 0 {
      SumQtyNoMatch(items[1..], po, colorStyle, size);
    }
  }

  /** `aggfunc='sum'`: two sheet rows for the same PO, ColorStyle and size count as one
      row carrying their combined quantity. */
  lemma SumQtyMergesDuplicates(items: seq<LineItem>, x: LineItem, q1: int, q2: int, po: PO, colorStyle: string, size: string)
    ensures SumQty(items + [x.(qty := q1), x.(qty := q2)], po, colorStyle, size)
         == SumQty(items + [x.(qty := q1 + q2)], po, colorStyle, size)
  {
    var pair := [x.(qty := q1), x.(qty := q2)];
    SumQtyAppend(items, pair, po, colorStyle, size);
    SumQtyAppend(items, [x.(qty := q1 + q2)], po, colorStyle, size);
    assert pair == [x.(qty := q1)] + [x.(qty := q2)];
    SumQtyAppend([x.(qty := q1)], [x.(qty := q2)], po, colorStyle, size);
  }

  /** `aggfunc='sum'` over the whole pivot: two line items that differ only in their
      quantity give the same table as one line item carrying both quantities. */
  lemma PivotMergesDuplicates(items: seq<LineItem>, x: LineItem, q1: int, q2: int)
    ensures PivotOf(items + [x.(qty := q1), x.(qty := q2)]) == PivotOf(items + [x.(qty := q1 + q2)])
  {
    var a, b := items + [x.(qty := q1), x.(qty := q2)], items + [x.(qty := q1 + q2)];
    MergedAxes(items, x, q1, q2);
    assert PivotRows(a) == PivotRows(b) by {
      forall i | 0 <= i < |RowKeys(a)| ensures Cells(a, RowKeys(a)[i]) == Cells(b, RowKeys(a)[i]) {
        var key := RowKeys(a)[i];
        forall size | size in SizeColumns(a)
          ensures SumQty(a, key.0, key.1, size) == SumQty(b, key.0, key.1, size)
        {
          SumQtyMergesDuplicates(items, x, q1, q2, key.0, key.1, size);
        }
      }
    }
    assert ZeroFilled(a) == ZeroFilled(b);
  }

  /** Merging the two line items keeps the row keys and the size columns. */
  lemma MergedAxes(items: seq<LineItem>, x: LineItem, q1: int, q2: int)
    ensures RowKeys(items + [x.(qty := q1), x.(qty := q2)]) == RowKeys(items + [x.(qty := q1 + q2)])
    ensures SizeColumns(items + [x.(qty := q1), x.(qty := q2)]) == SizeColumns(items + [x.(qty := q1 + q2)])
  {
    var pair, one := [x.(qty := q1), x.(qty := q2)], [x.(qty := q1 + q2)];
    KeyLtStrictTotal();
    StrLtStrictTotal();
    MapAppend(KeyOf, items, pair);
    MapAppend(KeyOf, items, one);
    MapAppend(SizeOf, items, pair);
    MapAppend(SizeOf, items, one);
    SortedDistinctSameSet(Map(KeyOf, items + pair), Map(KeyOf, items + one), KeyLt);
    SortedDistinctSameSet(Map(SizeOf, items + pair), Map(SizeOf, items + one), StrLt);
  }

  /** The pivot has one row per distinct (PO Number, ColorStyle) of the line items,
      in increasing (PO, ColorStyle) order. */
  lemma RowKeysFacts(items: seq<LineItem>)
    ensures StrictlySorted(RowKeys(items), KeyLt)
    ensures forall k :: k in RowKeys(items) <==> exists j :: 0 <= j < |items| && KeyOf(items[j]) == k
  {
    KeyLtStrictTotal();
    SortedDistinctFacts(Map(KeyOf, items), KeyLt);
  }

  /** After the zero-fill every row holds, for every configured size, the summed quantity. */
  lemma ZeroFilledCells(items: seq<LineItem>)
    ensures |ZeroFilled(items)| == |RowKeys(items)|
    ensures forall i :: 0 <= i < |ZeroFilled(items)| ==>
      (ZeroFilled(items)[i].po, ZeroFilled(items)[i].colorStyle) == RowKeys(items)[i]
    ensures forall i, s :: 0 <= i < |ZeroFilled(items)| && s in ALL_SIZES ==>
      ZeroFilled(items)[i].cells[s] == SumQty(items, RowKeys(items)[i].0, RowKeys(items)[i].1, s)
  {
    forall i, s | 0 <= i < |ZeroFilled(items)| && s in ALL_SIZES
      ensures ZeroFilled(items)[i].cells[s] == SumQty(items, RowKeys(items)[i].0, RowKeys(items)[i].1, s)
    {
      ZeroFilledCell(items, i, s);
    }
  }

  /** One cell of the zero-filled pivot: the summed quantity, whether the size was in
      the data or was added as a zero column. */
  lemma ZeroFilledCell(items: seq<LineItem>, i: nat, s: string)
    requires i < |ZeroFilled(items)| && s in ALL_SIZES
    ensures ZeroFilled(items)[i].cells[s] == SumQty(items, RowKeys(items)[i].0, RowKeys(items)[i].1, s)
  {
    var key := RowKeys(items)[i];
    if s !in SizeColumns(items) {
      AbsentSizeSumsToZero(items, key.0, key.1, s);
    }
  }

  /** A size label that is not a column of the data sums to 0 for every row key. */
  lemma AbsentSizeSumsToZero(items: seq<LineItem>, po: PO, colorStyle: string, s: string)
    requires s !in SizeColumns(items)
    ensures SumQty(items, po, colorStyle, s) == 0
  {
    StrLtStrictTotal();
    SortedDistinctFacts(Map(SizeOf, items), StrLt);
    forall j | 0 <= j < |items| ensures !Matches(items[j], po, colorStyle, s) {
      assert SizeOf(items[j]) == Map(SizeOf, items)[j];
    }
    SumQtyNoMatch(items, po, colorStyle, s);
  }

  /** A total column leaves the row's index and other cells alone and holds the band sum. */
  lemma TotalRowsCells(rows: seq<PivotRow>, column: string, band: seq<string>)
    requires forall i, s :: 0 <= i < |rows| && s in band ==> s in rows[i].cells
    ensures |TotalRows(rows, column, band)| == |rows|
    ensures forall i :: 0 <= i < |rows| ==>
      var r := TotalRows(rows, column, band)[i];
      && r.po == rows[i].po && r.colorStyle == rows[i].colorStyle
      && (forall s :: s in r.cells <==> s in rows[i].cells || s == column)
      && (forall s :: s in rows[i].cells && s != column ==> r.cells[s] == rows[i].cells[s])
      && r.cells[column] == BandSum(rows[i].cells, band)
  {
  }

  lemma InfantSum(c: map<string, int>)
    requires forall s :: s in INFANT_SIZES ==> s in c
    ensures BandSum(c, INFANT_SIZES) == c["6-12M"] + c["12-18M"] + c["18-24M"]
  {
    var band := INFANT_SIZES;
    assert BandSum(c, band[2..]) == c["18-24M"] + BandSum(c, band[3..]);
    assert BandSum(c, band[1..]) == c["12-18M"] + BandSum(c, band[2..]) by {
      assert band[1..][1..] == band[2..];
    }
    assert BandSum(c, band) == c["6-12M"] + BandSum(c, band[1..]);
  }

  lemma ToddlerSum(c: map<string, int>)
    requires forall s :: s in TODDLER_SIZES ==> s in c
    ensures BandSum(c, TODDLER_SIZES) == c["2-3Y"] + c["3-4Y"] + c["5-6Y"] + c["7-8Y"]
  {
    var band := TODDLER_SIZES;
    assert BandSum(c, band[3..]) == c["7-8Y"] + BandSum(c, band[4..]);
    assert BandSum(c, band[2..]) == c["5-6Y"] + BandSum(c, band[3..]) by {
      assert band[2..][1..] == band[3..];
    }
    assert BandSum(c, band[1..]) == c["3-4Y"] + BandSum(c, band[2..]) by {
      assert band[1..][1..] == band[2..];
    }
    assert BandSum(c, band) == c["2-3Y"] + BandSum(c, band[1..]);
  }

  /** A row's band totals: Infant Total is the sum of the three infant sizes and
      Toddler Total the sum of the four toddler sizes. */
  predicate TotalsHold(c: map<string, int>) {
    && (forall s :: s in ALL_SIZES ==> s in c)
    && INFANT_TOTAL in c && TODDLER_TOTAL in c
    && c[INFANT_TOTAL] == c["6-12M"] + c["12-18M"] + c["18-24M"]
    && c[TODDLER_TOTAL] == c["2-3Y"] + c["3-4Y"] + c["5-6Y"] + c["7-8Y"]
  }

  /** Lines 64-65 keep every row's index and size cells and make its totals hold. */
  lemma BandTotalsCells(rows: seq<PivotRow>)
    requires HasAllSizes(rows)
    ensures |WithBandTotals(rows)| == |rows|
    ensures forall i :: 0 <= i < |rows| ==>
      var r := WithBandTotals(rows)[i];
      && r.po == rows[i].po && r.colorStyle == rows[i].colorStyle
      && (forall s :: s in ALL_SIZES ==> r.cells[s] == rows[i].cells[s])
      && TotalsHold(r.cells)
  {
    SizesDistinct();
    assert forall s :: s in INFANT_SIZES || s in TODDLER_SIZES ==> s in ALL_SIZES;
    var withInfant := TotalRows(rows, INFANT_TOTAL, INFANT_SIZES);
    TotalRowsCells(rows, INFANT_TOTAL, INFANT_SIZES);
    TotalRowsCells(withInfant, TODDLER_TOTAL, TODDLER_SIZES);
    forall i | 0 <= i < |rows| ensures TotalsHold(WithBandTotals(rows)[i].cells) {
      InfantSum(rows[i].cells);
      ToddlerSum(withInfant[i].cells);
    }
  }

  /** Lines 52-65: the finished pivot has one row per distinct (PO Number, ColorStyle) in
      index order, and in each row every configured size holds the summed quantity (0 when
      no line item mentions it) and the band totals hold. */
  lemma PivotCells(items: seq<LineItem>)
    ensures |PivotOf(items)| == |RowKeys(items)|
    ensures forall i :: 0 <= i < |PivotOf(items)| ==>
      var r := PivotOf(items)[i];
      && (r.po, r.colorStyle) == RowKeys(items)[i]
      && (forall s :: s in ALL_SIZES ==> r.cells[s] == SumQty(items, r.po, r.colorStyle, s))
      && TotalsHold(r.cells)
  {
    var keys, filled := RowKeys(items), ZeroFilled(items);
    ZeroFilledCells(items);
    BandTotalsCells(filled);
    var rows := WithBandTotals(filled);
    assert rows == PivotOf(items);
    forall i | 0 <= i < |rows|
      ensures (rows[i].po, rows[i].colorStyle) == keys[i]
      ensures forall s :: s in ALL_SIZES ==> rows[i].cells[s] == SumQty(items, rows[i].po, rows[i].colorStyle, s)
    {
      assert (filled[i].po, filled[i].colorStyle) == keys[i];
    }
  }

  /** The finished pivot's rows carry the row keys, in order. */
  lemma PivotIndex(items: seq<LineItem>)
    ensures |PivotOf(items)| == |RowKeys(items)|
    ensures forall i :: 0 <= i < |PivotOf(items)| ==>
      (PivotOf(items)[i].po, PivotOf(items)[i].colorStyle) == RowKeys(items)[i]
  {
    PivotCells(items);
  }

  /** The pivot has a row exactly when there is a line item. */
  lemma PivotEmptyIff(items: seq<LineItem>)
    ensures |PivotOf(items)| == 0 <==> |items| == 0
  {
    PivotCells(items);
    RowKeysFacts(items);
    if |items| != 0 {
      assert KeyOf(items[0]) in RowKeys(items);
    }
  }

  /** No two rows of the finished pivot share their (PO Number, ColorStyle). */
  lemma PivotKeysDistinct(items: seq<LineItem>)
    ensures forall a, b :: 0 <= a < |PivotOf(items)| && 0 <= b < |PivotOf(items)| && a != b ==>
      (PivotOf(items)[a].po, PivotOf(items)[a].colorStyle) != (PivotOf(items)[b].po, PivotOf(items)[b].colorStyle)
  {
    PivotCells(items);
    RowKeysFacts(items);
    KeyLtStrictTotal();
  }

  /** One cell of the finished pivot: a configured size holds the summed quantity. */
  lemma PivotRowCell(items: seq<LineItem>, row: PivotRow, s: string)
    requires row in PivotOf(items) && s in ALL_SIZES
    ensures s in row.cells && row.cells[s] == SumQty(items, row.po, row.colorStyle, s)
  {
    PivotCells(items);
  }

  /** Either list collects the same values once mapped, when the lists are permutations. */
  lemma MapSameElements<A, B>(f: A -> B, a: seq<A>, b: seq<A>)
    requires multiset(a) == multiset(b)
    ensures forall x :: x in Map(f, a) <==> x in Map(f, b)
  {
    MapPermutation(f, a, b);
    forall x ensures x in Map(f, a) <==> x in Map(f, b) {
      assert x in Map(f, a) <==> x in multiset(Map(f, a));
      assert x in Map(f, b) <==> x in multiset(Map(f, b));
    }
  }

  /** The pivot depends only on which line items there are, not on their order. */
  lemma PivotPermutationInvariant(a: seq<LineItem>, b: seq<LineItem>)
    requires multiset(a) == multiset(b)
    ensures PivotOf(a) == PivotOf(b)
  {
    PivotAxesPermutation(a, b);
    assert PivotRows(a) == PivotRows(b) by {
      forall i | 0 <= i < |RowKeys(a)| ensures Cells(a, RowKeys(a)[i]) == Cells(b, RowKeys(a)[i]) {
        CellsPermutation(a, b, RowKeys(a)[i]);
      }
    }
    assert ZeroFilled(a) == ZeroFilled(b);
  }

  /** Reordering the line items keeps the row keys and the size columns. */
  lemma PivotAxesPermutation(a: seq<LineItem>, b: seq<LineItem>)
    requires multiset(a) == multiset(b)
    ensures RowKeys(a) == RowKeys(b) && SizeColumns(a) == SizeColumns(b)
  {
    KeyLtStrictTotal();
    StrLtStrictTotal();
    MapSameElements(KeyOf, a, b);
    MapSameElements(SizeOf, a, b);
    SortedDistinctSameSet(Map(KeyOf, a), Map(KeyOf, b), KeyLt);
    SortedDistinctSameSet(Map(SizeOf, a), Map(SizeOf, b), StrLt);
  }

  lemma CellsPermutation(a: seq<LineItem>, b: seq<LineItem>, key: RowKey)
    requires multiset(a) == multiset(b)
    ensures Cells(a, key) == Cells(b, key)
  {
    PivotAxesPermutation(a, b);
    forall size | size in SizeColumns(a)
      ensures SumQty(a, key.0, key.1, size) == SumQty(b, key.0, key.1, size)
    {
      SumQtyPermutation(a, b, key.0, key.1, size);
    }
  }
}
