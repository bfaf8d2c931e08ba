/** The signature of one PO (app.py:69-73): the sorted tuple of its pivot rows, each
    reduced to its ColorStyle followed by its seven configured size quantities. */
module Signature {
  import opened Orders
  import opened Sorting
  import opened Pivot

  /** `(ColorStyle, q_6-12M, ..., q_7-8Y)` for one pivot row. */
  datatype Entry = Entry(colorStyle: string, quantities: seq<int>)

  /** The signature tuple of one PO. */
  type Sig = seq<Entry>

  /** `row.get(col, 0)`. */
  function Get(cells: map<string, int>, column: string): int {
    if column in cells then cells[column] else 0
  }

  /** Line 71: the ColorStyle and the configured sizes of one pivot row, in configured order. */
  function EntryOf(row: PivotRow): (e: Entry)
    ensures e.colorStyle == row.colorStyle && |e.quantities| == |ALL_SIZES|
    ensures forall k :: 0 <= k < |ALL_SIZES| ==> e.quantities[k] == Get(row.cells, ALL_SIZES[k])
  {
    Entry(row.colorStyle, seq(|ALL_SIZES|, k requires 0 <= k < |ALL_SIZES| => Get(row.cells, ALL_SIZES[k])))
  }

  /** Python's comparison of two entry tuples: ColorStyle first, then the quantities. */
  function EntryLt(a: Entry, b: Entry): bool {
    StrLt(a.colorStyle, b.colorStyle) || (a.colorStyle == b.colorStyle && IntsLt(a.quantities, b.quantities))
  }

  /** Python's comparison of two signature tuples. */
  function SigLt(a: Sig, b: Sig): bool {
    LexLt(a, b, EntryLt)
  }

  lemma EntryLtStrictTotal()
    ensures StrictTotalOrder(EntryLt)
  {
    StrLtStrictTotal();
    IntsLtStrictTotal();
  }

  lemma SigLtStrictTotal()
    ensures StrictTotalOrder(SigLt)
  {
    EntryLtStrictTotal();
    LexStrictTotal(EntryLt);
    var lex := (a: Sig, b: Sig) => LexLt(a, b, EntryLt);
    assert forall a, b :: SigLt(a, b) == lex(a, b);
  }

  predicate HasPO(po: PO, row: PivotRow) {
    row.po == po
  }

  /** `pivot.groupby('PO Number')`: the pivot rows of one PO, in pivot order. */
  function GroupRows(rows: seq<PivotRow>, po: PO): seq<PivotRow> {
    Filter((row: PivotRow) => HasPO(po, row), rows)
  }

  /** Lines 70-73: `tuple(sorted(entry for each row of the group))`. */
  function SignatureOf(group: seq<PivotRow>): Sig {
    Sort(Map(EntryOf, group), EntryLt)
  }

  /** The signature lists each row's entry exactly once, in sorted order. */
  lemma SignatureFacts(group: seq<PivotRow>)
    ensures Sorted(SignatureOf(group), EntryLt)
    ensures multiset(SignatureOf(group)) == multiset(Map(EntryOf, group))
    ensures |SignatureOf(group)| == |group|
  {
    EntryLtStrictTotal();
    SortSorted(Map(EntryOf, group), EntryLt);
  }

  /** The signature depends only on which rows the group has, not on their order. */
  lemma SignatureOrderIndependent(g1: seq<PivotRow>, g2: seq<PivotRow>)
    requires multiset(g1) == multiset(g2)
    ensures SignatureOf(g1) == SignatureOf(g2)
  {
    EntryLtStrictTotal();
    MapPermutation(EntryOf, g1, g2);
    SortPermutationInvariant(Map(EntryOf, g1), Map(EntryOf, g2), EntryLt);
  }

  /** Only the seven configured sizes enter an entry: the band totals and any other size
      column of the pivot are ignored. */
  lemma EntryIgnoresOtherColumns(r1: PivotRow, r2: PivotRow)
    requires r1.colorStyle == r2.colorStyle
    requires forall s :: s in ALL_SIZES ==> Get(r1.cells, s) == Get(r2.cells, s)
    ensures EntryOf(r1) == EntryOf(r2)
  {
  }

  /** Rows with distinct ColorStyles, as the rows of one PO are, give a strictly
      increasing signature. */
  lemma SignatureStrict(group: seq<PivotRow>)
    requires forall i, j :: 0 <= i < j < |group| ==> group[i].colorStyle != group[j].colorStyle
    ensures StrictlySorted(SignatureOf(group), EntryLt)
  {
    EntryLtStrictTotal();
    var entries := Map(EntryOf, group);
    assert Distinct(entries) by {
      forall i, j | 0 <= i < j < |entries| ensures entries[i] != entries[j] {
        assert entries[i].colorStyle == group[i].colorStyle;
      }
    }
    SortDistinctStrict(entries, EntryLt);
  }

  /** `groupby` gives a PO each of its pivot rows exactly as often as the pivot has it,
      and no other row. */
  lemma GroupRowsMultiplicity(rows: seq<PivotRow>, po: PO)
    ensures forall row :: multiset(GroupRows(rows, po))[row] == if row.po == po then multiset(rows)[row] else 0
  {
  }

  /** In the finished pivot the rows of one PO have pairwise distinct ColorStyles, since
      the pivot has one row per (PO Number, ColorStyle). */
  lemma PivotGroupStylesDistinct(items: seq<LineItem>, po: PO)
    ensures forall i, j :: 0 <= i < j < |GroupRows(PivotOf(items), po)| ==>
      GroupRows(PivotOf(items), po)[i].colorStyle != GroupRows(PivotOf(items), po)[j].colorStyle
  {
    PivotKeysDistinct(items);
    GroupStylesDistinct(PivotOf(items), po);
  }

  /** Rows with pairwise distinct (PO Number, ColorStyle) give one PO rows with pairwise
      distinct ColorStyles. */
  lemma GroupStylesDistinct(rows: seq<PivotRow>, po: PO)
    requires forall a, b :: 0 <= a < |rows| && 0 <= b < |rows| && a != b ==>
      (rows[a].po, rows[a].colorStyle) != (rows[b].po, rows[b].colorStyle)
    ensures forall i, j :: 0 <= i < j < |GroupRows(rows, po)| ==>
      GroupRows(rows, po)[i].colorStyle != GroupRows(rows, po)[j].colorStyle
  {
    var group := GroupRows(rows, po);
    assert Distinct(rows);
    GroupRowsDistinct(rows, po);
    forall i, j | 0 <= i < j < |group| ensures group[i].colorStyle != group[j].colorStyle {
      assert group[i] in group && group[j] in group;
      var a :| 0 <= a < |rows| && rows[a] == group[i];
      var b :| 0 <= b < |rows| && rows[b] == group[j];
      assert a != b;
    }
  }

  /** A list of distinct rows gives each PO distinct rows. */
  lemma GroupRowsDistinct(rows: seq<PivotRow>, po: PO)
    requires Distinct(rows)
    ensures Distinct(GroupRows(rows, po))
  {
    var group := GroupRows(rows, po);
    forall x ensures multiset(group)[x] <= 1 {
      DistinctMultiplicity(rows, x);
    }
    MultiplicityDistinct(group);
  }

  /** The signature of a PO of the finished pivot is strictly increasing and has one
      entry per pivot row of that PO. */
  lemma PivotSignatureStrict(items: seq<LineItem>, po: PO)
    ensures StrictlySorted(SignatureOf(GroupRows(PivotOf(items), po)), EntryLt)
    ensures |SignatureOf(GroupRows(PivotOf(items), po))| == |GroupRows(PivotOf(items), po)|
  {
    PivotGroupStylesDistinct(items, po);
    SignatureStrict(GroupRows(PivotOf(items), po));
    SignatureFacts(GroupRows(PivotOf(items), po));
  }

  /** Every entry of a signature comes from one of the group's rows. */
  lemma SignatureEntryOrigin(group: seq<PivotRow>, e: nat)
    requires e < |SignatureOf(group)|
    ensures exists j :: 0 <= j < |group| && SignatureOf(group)[e] == EntryOf(group[j])
  {
    SignatureFacts(group);
    var sig := SignatureOf(group);
    assert sig[e] in multiset(Map(EntryOf, group));
    var j :| 0 <= j < |group| && Map(EntryOf, group)[j] == sig[e];
  }
}
