/** The whole packing pipeline (app.py:44-93): sheet rows to line items, pivot, PO
    signatures, groups and report rows. */
module Pipeline {
  import opened Wrappers
  import opened Orders
  import opened Sorting
  import opened ColorStyle
  import opened Pivot
  import opened Signature
  import opened Grouping
  import opened Report

  /** One row of the uploaded sheet, reduced to the columns the pipeline reads; `None`
      stands for an empty (NaN) cell. */
  datatype SheetRow = SheetRow(
    po: PO,
    description: Option<string>,
    styleCode: Option<string>,
    size: string,
    qty: Option<int>)

  /** `aggfunc='sum'` skips a NaN `Article Qty`, so an empty quantity cell adds 0 to its
      pivot cell while its row still gets its (PO Number, ColorStyle) key and size column. */
  function ArticleQty(cell: Option<int>): int {
    match cell
    case None => 0
    case Some(q) => q
  }

  /** Lines 44-46: the ColorStyle column added to one row. */
  function LineItemOf(row: SheetRow): LineItem {
    LineItem(row.po, ColorStyleKey(row.description, row.styleCode), row.size, ArticleQty(row.qty))
  }

  function LineItems(sheet: seq<SheetRow>): seq<LineItem> {
    Map(LineItemOf, sheet)
  }

  /** Every signature entry has one quantity per configured size. */
  lemma GroupsWellFormed(rows: seq<PivotRow>)
    ensures WellFormedGroups(GroupsFor(rows))
  {
    var groups := GroupsFor(rows);
    forall g, e | 0 <= g < |groups| && 0 <= e < |groups[g].sig|
      ensures |groups[g].sig[e].quantities| == |ALL_SIZES|
    {
      EntryWellFormed(rows, g, e);
    }
  }

  lemma EntryWellFormed(rows: seq<PivotRow>, g: nat, e: nat)
    requires g < |GroupsFor(rows)| && e < |GroupsFor(rows)[g].sig|
    ensures |GroupsFor(rows)[g].sig[e].quantities| == |ALL_SIZES|
  {
    var group := GroupsFor(rows)[g];
    GroupShape(rows, g);
    var po := group.pos[0];
    GroupMember(rows, g, po);
    SignatureEntryOrigin(GroupRows(rows, po), e);
  }

  /** The report the pipeline produces for a sheet. */
  function PackingReport(sheet: seq<SheetRow>): seq<ReportRow> {
    ReportRows(GroupsFor(PivotOf(LineItems(sheet))))
  }

  /** Lines 44-46: the Color, StyleDigits and ColorStyle columns, row by row. */
  method KeyedItems(sheet: seq<SheetRow>) returns (items: seq<LineItem>)
    ensures items == LineItems(sheet)
  {
    items := [];
    for i := 0 to |sheet|
      invariant items == LineItems(sheet[..i])
    {
      var color := ExtractColor(sheet[i].description);
      var digits := StyleDigits(sheet[i].styleCode);
      var item := LineItem(sheet[i].po, color + KEY_SEPARATOR + digits, sheet[i].size, ArticleQty(sheet[i].qty));
      assert item == LineItemOf(sheet[i]);
      LineItemsStep(sheet, i);
      items := items + [item];
    }
    assert sheet[..|sheet|] == sheet;
  }

  lemma LineItemsStep(sheet: seq<SheetRow>, i: nat)
    requires i < |sheet|
    ensures LineItems(sheet[..i + 1]) == LineItems(sheet[..i]) + [LineItemOf(sheet[i])]
  {
    assert sheet[..i + 1] == sheet[..i] + [sheet[i]];
    MapAppend(LineItemOf, sheet[..i], [sheet[i]]);
  }

  /** Lines 44-93 in their imperative form. */
  method PackingRows(sheet: seq<SheetRow>) returns (out: seq<ReportRow>)
    ensures out == PackingReport(sheet)
  {
    var items := KeyedItems(sheet);
    var table := BuildPivot(items);
    var index := BuildIndex(table.rows);
    var groups := GroupsOf(index.keys, index.lists);
    out := Materialize(groups);
  }

  /** The report is empty exactly when the sheet is. */
  lemma EmptyReportIff(sheet: seq<SheetRow>)
    ensures |PackingReport(sheet)| == 0 <==> |sheet| == 0
  {
    var rows := PivotOf(LineItems(sheet));
    var groups := GroupsFor(rows);
    PivotEmptyIff(LineItems(sheet));
    GroupsEmptyIff(rows);
    if |groups| != 0 {
      ReportRowAt(groups, 0, 0);
    }
  }

  /** The report does not depend on the order of the sheet's rows. */
  lemma ReportIgnoresRowOrder(s1: seq<SheetRow>, s2: seq<SheetRow>)
    requires multiset(s1) == multiset(s2)
    ensures PackingReport(s1) == PackingReport(s2)
  {
    MapPermutation(LineItemOf, s1, s2);
    PivotPermutationInvariant(LineItems(s1), LineItems(s2));
  }

  /** Two sheet rows that differ only in their quantity give the same report as one row
      carrying both quantities; an empty quantity cell counts as 0. */
  lemma ReportMergesDuplicates(sheet: seq<SheetRow>, r: SheetRow, q1: Option<int>, q2: Option<int>)
    ensures PackingReport(sheet + [r.(qty := q1), r.(qty := q2)])
         == PackingReport(sheet + [r.(qty := Some(ArticleQty(q1) + ArticleQty(q2)))])
  {
    var s1, s2 := sheet + [r.(qty := q1), r.(qty := q2)], sheet + [r.(qty := Some(ArticleQty(q1) + ArticleQty(q2)))];
    MergedLineItems(sheet, r, q1, q2);
    PivotMergesDuplicates(LineItems(sheet), LineItemOf(r), ArticleQty(q1), ArticleQty(q2));
    SamePivotSameReport(s1, s2);
  }

  lemma SamePivotSameReport(s1: seq<SheetRow>, s2: seq<SheetRow>)
    requires PivotOf(LineItems(s1)) == PivotOf(LineItems(s2))
    ensures PackingReport(s1) == PackingReport(s2)
  {
  }

  lemma MergedLineItems(sheet: seq<SheetRow>, r: SheetRow, q1: Option<int>, q2: Option<int>)
    ensures LineItems(sheet + [r.(qty := q1), r.(qty := q2)])
         == LineItems(sheet) + [LineItemOf(r).(qty := ArticleQty(q1)), LineItemOf(r).(qty := ArticleQty(q2))]
    ensures LineItems(sheet + [r.(qty := Some(ArticleQty(q1) + ArticleQty(q2)))])
         == LineItems(sheet) + [LineItemOf(r).(qty := ArticleQty(q1) + ArticleQty(q2))]
  {
    MapAppend(LineItemOf, sheet, [r.(qty := q1), r.(qty := q2)]);
    MapAppend(LineItemOf, sheet, [r.(qty := Some(ArticleQty(q1) + ArticleQty(q2)))]);
  }

  /** The POs of the pivot are exactly the PO numbers that occur in the sheet. */
  lemma PivotPOsAreSheetPOs(sheet: seq<SheetRow>, po: PO)
    ensures po in POsOf(PivotOf(LineItems(sheet))) <==> exists i :: 0 <= i < |sheet| && sheet[i].po == po
  {
    var items := LineItems(sheet);
    POsOfPivot(items, po);
    assert forall i :: 0 <= i < |sheet| ==> items[i].po == sheet[i].po;
  }

  /** The groups partition the sheet's PO numbers: a PO is in some group exactly when
      it occurs in the sheet, and then in only one. */
  lemma SheetPOsPartition(sheet: seq<SheetRow>, po: PO)
    ensures var groups := GroupsFor(PivotOf(LineItems(sheet)));
      (exists g :: 0 <= g < |groups| && po in groups[g].pos) <==> exists i :: 0 <= i < |sheet| && sheet[i].po == po
    ensures var groups := GroupsFor(PivotOf(LineItems(sheet)));
      forall g1, g2 :: 0 <= g1 < |groups| && 0 <= g2 < |groups| && po in groups[g1].pos && po in groups[g2].pos ==> g1 == g2
  {
    var rows := PivotOf(LineItems(sheet));
    PivotPOsAreSheetPOs(sheet, po);
    if po in POsOf(rows) {
      EachPOInOneGroup(rows, po);
    } else {
      forall g | 0 <= g < |GroupsFor(rows)| ensures po !in GroupsFor(rows)[g].pos {
        GroupMember(rows, g, po);
      }
    }
  }

  /** The point of the grouping: for every PO of a group, each entry of the group's
      signature is that PO's summed quantity, size by size, for the entry's ColorStyle. */
  lemma GroupMembersShareQuantities(sheet: seq<SheetRow>, g: nat, e: nat, po: PO, k: nat)
    requires var groups := GroupsFor(PivotOf(LineItems(sheet)));
      g < |groups| && e < |groups[g].sig| && po in groups[g].pos
    requires k < |ALL_SIZES|
    ensures var entry := GroupsFor(PivotOf(LineItems(sheet)))[g].sig[e];
      |entry.quantities| == |ALL_SIZES|
      && entry.quantities[k] == SumQty(LineItems(sheet), po, entry.colorStyle, ALL_SIZES[k])
  {
    var items := LineItems(sheet);
    var rows := PivotOf(items);
    var groups := GroupsFor(rows);
    var entry := groups[g].sig[e];
    GroupMember(rows, g, po);
    assert PoSignature(rows, po) == groups[g].sig;
    var group := GroupRows(rows, po);
    SignatureEntryOrigin(group, e);
    var j :| 0 <= j < |group| && entry == EntryOf(group[j]);
    var row := group[j];
    assert row in group;
    assert row in rows && HasPO(po, row);
    PivotRowCell(items, row, ALL_SIZES[k]);
  }

  /** What one report row says: it is the row of entry `e` of group `g` (see
      `RowMeans`), and the group's POs are exactly the POs whose signature is the
      group's. */
  lemma ReportRowMeaning(sheet: seq<SheetRow>, g: nat, e: nat)
    requires var groups := GroupsFor(PivotOf(LineItems(sheet)));
      g < |groups| && e < |groups[g].sig|
    ensures var groups := GroupsFor(PivotOf(LineItems(sheet)));
      |ReportRows(groups[..g])| + e < |PackingReport(sheet)|
    ensures var rows := PivotOf(LineItems(sheet));
      var groups := GroupsFor(rows);
      RowMeans(PackingReport(sheet)[|ReportRows(groups[..g])| + e], g, groups[g].sig[e], groups[g].pos)
    ensures var rows := PivotOf(LineItems(sheet));
      var groups := GroupsFor(rows);
      forall po :: po in groups[g].pos <==> po in POsOf(rows) && PoSignature(rows, po) == groups[g].sig
  {
    var rows := PivotOf(LineItems(sheet));
    RowsReportMeaning(rows, g, e);
    GroupMembers(rows, g);
  }

  /** The report row of entry `e` of group `g` of any pivot rows. */
  lemma RowsReportMeaning(rows: seq<PivotRow>, g: nat, e: nat)
    requires g < |GroupsFor(rows)| && e < |GroupsFor(rows)[g].sig|
    ensures |ReportRows(GroupsFor(rows)[..g])| + e < |ReportRows(GroupsFor(rows))|
    ensures RowMeans(ReportRows(GroupsFor(rows))[|ReportRows(GroupsFor(rows)[..g])| + e],
                     g, GroupsFor(rows)[g].sig[e], GroupsFor(rows)[g].pos)
  {
    GroupShape(rows, g);
    EntryWellFormed(rows, g, e);
    ShapedGroupRowMeaning(rows, g, e);
  }

  lemma ShapedGroupRowMeaning(rows: seq<PivotRow>, g: nat, e: nat)
    requires g < |GroupsFor(rows)| && e < |GroupsFor(rows)[g].sig|
    requires |GroupsFor(rows)[g].pos| != 0 && StrictlySorted(GroupsFor(rows)[g].pos, NatLess)
    requires |GroupsFor(rows)[g].sig[e].quantities| == |ALL_SIZES|
    ensures |ReportRows(GroupsFor(rows)[..g])| + e < |ReportRows(GroupsFor(rows))|
    ensures RowMeans(ReportRows(GroupsFor(rows))[|ReportRows(GroupsFor(rows)[..g])| + e],
                     g, GroupsFor(rows)[g].sig[e], GroupsFor(rows)[g].pos)
  {
    GroupRowMeaning(GroupsFor(rows), g, e);
  }
}
