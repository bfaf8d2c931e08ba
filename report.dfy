/** The grouped report (app.py:76-97): one row per signature entry of every group,
    labelled `Group <n>` in sorted-signature order, with the band values, their subtotals,
    the group's PO numbers as text and their count. */
module Report {
  import opened Wrappers
  import opened Orders
  import opened Sorting
  import opened Text
  import opened Pivot
  import opened Signature
  import opened Grouping

  const GROUP_PREFIX := "Group "
  const PO_SEPARATOR := ", "

  /** One element of `grouped_rows`. */
  datatype ReportRow = ReportRow(
    groupId: string,
    colorStyle: string,
    infant: seq<int>,
    toddler: seq<int>,
    infantTotal: int,
    toddlerTotal: int,
    pos: string,
    poCount: nat)

  /** Python's `sum` over a list of integers. */
  function Sum(s: seq<int>): int {
    if |s| == 0 then 0 else s[0] + Sum(s[1..])
  }

  lemma {:induction false} SumAppend(a: seq<int>, b: seq<int>)
    ensures Sum(a + b) == Sum(a) + Sum(b)
  {
    if |a| == 0 {
      assert a + b == b;
    } else {
      assert (a + b)[1..] == a[1..] + b;
      SumAppend(a[1..], b);
    }
  }

  /** `f'Group {idx}'`. */
  function GroupLabel(idx: nat): string {
    GROUP_PREFIX + DecimalString(idx)
  }

  /** `', '.join(map(str, sorted(set(po_list))))`. */
  function POsText(pos: seq<PO>): string {
    Join(Map(DecimalString, SortedDistinct(pos, NatLess)), PO_SEPARATOR)
  }

  /** Every entry of every group has one quantity per configured size. */
  predicate WellFormedGroups(groups: seq<Group>) {
    forall g, e :: 0 <= g < |groups| && 0 <= e < |groups[g].sig| ==>
      |groups[g].sig[e].quantities| == |ALL_SIZES|
  }

  /** Python's `xs[:n]`, which stops early on a shorter sequence. */
  function Take(xs: seq<int>, n: nat): (r: seq<int>)
    ensures |r| == if n <= |xs| then n else |xs|
    ensures r <= xs
  {
    if n <= |xs| then xs[..n] else xs
  }

  /** Python's `xs[n:]`, empty on a shorter sequence. */
  function Drop(xs: seq<int>, n: nat): (r: seq<int>)
    ensures Take(xs, n) + r == xs
  {
    if n <= |xs| then xs[n..] else []
  }

  /** Lines 79-93 for one signature entry of group number `idx`. */
  function RowFor(idx: nat, entry: Entry, pos: seq<PO>): ReportRow {
    var infant := Take(entry.quantities, |INFANT_SIZES|);
    var toddler := Drop(entry.quantities, |INFANT_SIZES|);
    ReportRow(GroupLabel(idx), entry.colorStyle, infant, toddler, Sum(infant), Sum(toddler),
              POsText(pos), |SetOf(pos)|)
  }

  /** The rows of group number `idx`: one per entry of its signature, in signature order. */
  function GroupReport(idx: nat, group: Group): seq<ReportRow> {
    seq(|group.sig|, e requires 0 <= e < |group.sig| => RowFor(idx, group.sig[e], group.pos))
  }

  /** `grouped_rows` after the loop over `enumerate(groups, start=1)`. */
  function ReportRows(groups: seq<Group>): seq<ReportRow> {
    if |groups| == 0 then []
    else
      var n := |groups| - 1;
      ReportRows(groups[..n]) + GroupReport(n + 1, groups[n])
  }

  /** Lines 76-93. */
  method Materialize(groups: seq<Group>) returns (out: seq<ReportRow>)
    ensures out == ReportRows(groups)
  {
    out := [];
    for g := 0 to |groups|
      invariant out == ReportRows(groups[..g])
    {
      var idx := g + 1;
      var group := groups[g];
      var poCount := |SetOf(group.pos)|;
      var posText := POsText(group.pos);
      ghost var before := out;
      for e := 0 to |group.sig|
        invariant out == before + GroupReport(idx, group)[..e]
      {
        var entry := group.sig[e];
        var sizeValues := entry.quantities;
        var infantValues := Take(sizeValues, |INFANT_SIZES|);
        var toddlerValues := Drop(sizeValues, |INFANT_SIZES|);
        var row := ReportRow(GroupLabel(idx), entry.colorStyle, infantValues, toddlerValues,
                             Sum(infantValues), Sum(toddlerValues), posText, poCount);
        GroupReportStep(idx, group, e);
        out := out + [row];
      }
      assert GroupReport(idx, group)[..|group.sig|] == GroupReport(idx, group);
      ReportRowsStep(groups, g);
    }
    assert groups[..|groups|] == groups;
  }

  lemma GroupReportStep(idx: nat, group: Group, e: nat)
    requires e < |group.sig|
    ensures GroupReport(idx, group)[..e + 1]
         == GroupReport(idx, group)[..e] + [RowFor(idx, group.sig[e], group.pos)]
  {
  }

  lemma ReportRowsStep(groups: seq<Group>, g: nat)
    requires g < |groups|
    ensures ReportRows(groups[..g + 1]) == ReportRows(groups[..g]) + GroupReport(g + 1, groups[g])
  {
    assert groups[..g + 1][..g] == groups[..g];
  }

  /** The rows of the first `m` groups come first in the report. */
  lemma {:induction false} ReportPrefix(groups: seq<Group>, m: nat)
    requires m <= |groups|
    ensures ReportRows(groups[..m]) <= ReportRows(groups)
  {
    if m < |groups| {
      var n := |groups| - 1;
      assert groups[..n][..m] == groups[..m];
      ReportPrefix(groups[..n], m);
    } else {
      assert groups[..m] == groups;
    }
  }

  /** Entry `e` of group `g` is the report's row just after the rows of the earlier
      groups, and that row is built from the entry with label `Group <g+1>`. */
  lemma ReportRowAt(groups: seq<Group>, g: nat, e: nat)
    requires g < |groups| && e < |groups[g].sig|
    ensures |ReportRows(groups[..g])| + e < |ReportRows(groups)|
    ensures ReportRows(groups)[|ReportRows(groups[..g])| + e] == RowFor(g + 1, groups[g].sig[e], groups[g].pos)
  {
    var before := ReportRows(groups[..g]);
    ReportRowsStep(groups, g);
    ReportPrefix(groups, g + 1);
    assert ReportRows(groups[..g + 1])[|before| + e] == GroupReport(g + 1, groups[g])[e];
  }

  /** The number of signature entries over all groups. */
  function EntryCount(groups: seq<Group>): nat {
    if |groups| == 0 then 0 else EntryCount(groups[..|groups| - 1]) + |groups[|groups| - 1].sig|
  }

  /** The report has exactly one row per signature entry. */
  lemma {:induction false} ReportLength(groups: seq<Group>)
    ensures |ReportRows(groups)| == EntryCount(groups)
  {
    if |groups| != 0 {
      var n := |groups| - 1;
      ReportPrefix(groups, n);
      ReportLength(groups[..n]);
    }
  }

  /** A row's infant and toddler values are the entry's quantities split after the third
      size, in configured order, and the two subtotals add up to the entry's total. */
  lemma RowValues(idx: nat, entry: Entry, pos: seq<PO>)
    requires |entry.quantities| == |ALL_SIZES|
    ensures var r := RowFor(idx, entry, pos);
      && |r.infant| == |INFANT_SIZES| && |r.toddler| == |TODDLER_SIZES|
      && r.infant + r.toddler == entry.quantities
      && r.infantTotal == Sum(r.infant) && r.toddlerTotal == Sum(r.toddler)
      && r.infantTotal + r.toddlerTotal == Sum(entry.quantities)
  {
    var r := RowFor(idx, entry, pos);
    assert r.infant + r.toddler == entry.quantities;
    SumAppend(r.infant, r.toddler);
  }

  /** Python's `s.replace(pat, '')`: every non-overlapping occurrence of `pat`, from the
      left, is removed. */
  function RemoveAll(s: string, pat: string): string
    requires |pat| != 0
    decreases |s|
  {
    if |s| < |pat| then s
    else if s[..|pat|] == pat then RemoveAll(s[|pat|..], pat)
    else [s[0]] + RemoveAll(s[1..], pat)
  }

  lemma {:induction false} RemoveAllAbsent(s: string, pat: string)
    requires |pat| != 0 && pat[0] !in s
    ensures RemoveAll(s, pat) == s
  {
    if |s| >= |pat| {
      assert s[..|pat|][0] == s[0];
      RemoveAllAbsent(s[1..], pat);
      assert [s[0]] + s[1..] == s;
    }
  }

  /** Line 97's sort key: `int(g.replace('Group ', ''))`; `None` stands for the error
      `int` raises. */
  function GroupNumber(groupId: string): Option<nat> {
    ParseNat(RemoveAll(groupId, GROUP_PREFIX))
  }

  /** Line 97 reads back the group number of every label, so the labels sort by number. */
  lemma GroupNumberOfLabel(idx: nat)
    ensures GroupNumber(GroupLabel(idx)) == Some(idx)
  {
    var digits := DecimalString(idx);
    var id := GroupLabel(idx);
    assert id[..|GROUP_PREFIX|] == GROUP_PREFIX;
    assert id[|GROUP_PREFIX|..] == digits;
    assert 'G' !in digits by {
      assert forall i :: 0 <= i < |digits| ==> IsDigit(digits[i]);
    }
    RemoveAllAbsent(digits, GROUP_PREFIX);
    DecimalRoundTrip(idx);
  }

  /** `int(piece.strip())`. */
  function ParsePO(piece: string): Option<PO> {
    ParseNat(Strip(piece))
  }

  function ParsePOs(pieces: seq<string>): Option<seq<PO>> {
    if |pieces| == 0 then Some([])
    else
      match ParsePO(pieces[0])
      case None => None
      case Some(po) =>
        match ParsePOs(pieces[1..])
        case None => None
        case Some(rest) => Some([po] + rest)
  }

  /** Reading the POs column back: split at commas, strip, and parse each piece. */
  function POsFromText(text: string): Option<seq<PO>> {
    ParsePOs(Split(text, ','))
  }

  function Pad(s: string): string {
    " " + s
  }

  lemma StripDigits(d: string)
    requires |d| != 0 && AllDigits(d)
    ensures Strip(d) == d && Strip(Pad(d)) == d
  {
    assert !IsSpace(d[0]) && !IsSpace(d[|d| - 1]);
    assert LeadingSpaces(d) == 0;
    assert TrailingSpaces(d) == 0;
    assert d[..|d|] == d;
    var p := Pad(d);
    assert p[0] == ' ' && p[1..] == d;
    assert LeadingSpaces(p) == 1;
  }

  /** Joining with ", " is joining the space-padded pieces with ",". */
  lemma {:induction false} JoinPadded(q: seq<string>)
    requires |q| != 0
    ensures Join(Map(Pad, q), [',']) == [' '] + Join(q, PO_SEPARATOR)
  {
    if |q| > 1 {
      JoinPadded(q[1..]);
      assert Map(Pad, q)[1..] == Map(Pad, q[1..]);
    }
  }

  lemma {:induction false} ParsePaddedPOs(pos: seq<PO>)
    ensures ParsePOs(Map(Pad, Map(DecimalString, pos))) == Some(pos)
  {
    if |pos| != 0 {
      var pieces := Map(Pad, Map(DecimalString, pos));
      StripDigits(DecimalString(pos[0]));
      DecimalRoundTrip(pos[0]);
      assert pieces[1..] == Map(Pad, Map(DecimalString, pos[1..]));
      ParsePaddedPOs(pos[1..]);
      assert [pos[0]] + pos[1..] == pos;
    }
  }

  lemma SeparatorSplit(head: string, rest: string)
    ensures head + [','] + ([' '] + rest) == head + PO_SEPARATOR + rest
  {
    assert PO_SEPARATOR == [','] + [' '];
  }

  /** The pieces that a ", "-joined text splits into at its commas. */
  function PaddedPieces(parts: seq<string>): seq<string>
    requires |parts| != 0
  {
    [parts[0]] + Map(Pad, parts[1..])
  }

  lemma JoinCons(head: string, tail: seq<string>, sep: string)
    requires |tail| != 0
    ensures Join([head] + tail, sep) == head + sep + Join(tail, sep)
  {
    assert ([head] + tail)[1..] == tail;
  }

  /** Joining with ", " is joining the first piece and the space-padded rest with ",". */
  lemma CommaSpaceJoin(parts: seq<string>)
    requires |parts| != 0
    ensures Join(parts, PO_SEPARATOR) == Join(PaddedPieces(parts), [','])
  {
    var head, tail := parts[0], parts[1..];
    assert parts == [head] + tail;
    if |tail| != 0 {
      var rest := Join(tail, PO_SEPARATOR);
      JoinPadded(tail);
      JoinCons(head, Map(Pad, tail), [',']);
      JoinCons(head, tail, PO_SEPARATOR);
      SeparatorSplit(head, rest);
    } else {
      assert [head] + Map(Pad, tail) == [head];
    }
  }

  /** Neither a decimal rendering nor a padded one contains a comma. */
  lemma DecimalPiecesAvoidComma(pos: seq<PO>)
    requires |pos| != 0
    ensures forall i :: 0 <= i < |PaddedPieces(Map(DecimalString, pos))| ==>
      ',' !in PaddedPieces(Map(DecimalString, pos))[i]
  {
    var parts := Map(DecimalString, pos);
    var padded := PaddedPieces(parts);
    forall i | 0 <= i < |padded| ensures ',' !in padded[i] {
      var d := parts[i];
      assert forall j :: 0 <= j < |d| ==> IsDigit(d[j]);
      if i != 0 {
        assert padded[i] == Pad(d);
        assert forall j :: 0 <= j < |Pad(d)| ==> Pad(d)[j] == ' ' || IsDigit(Pad(d)[j]);
      }
    }
  }

  /** The comma-separated pieces of a list of POs parse back to the list. */
  lemma ParseDecimalPieces(pos: seq<PO>)
    requires |pos| != 0
    ensures ParsePOs(PaddedPieces(Map(DecimalString, pos))) == Some(pos)
  {
    var padded := PaddedPieces(Map(DecimalString, pos));
    assert padded[0] == DecimalString(pos[0]);
    DecimalPieceParses(pos[0]);
    PaddedTail(pos);
    ParsePaddedPOs(pos[1..]);
    assert [pos[0]] + pos[1..] == pos;
  }

  lemma DecimalPieceParses(po: PO)
    ensures ParsePO(DecimalString(po)) == Some(po)
  {
    StripDigits(DecimalString(po));
    DecimalRoundTrip(po);
  }

  lemma PaddedTail(pos: seq<PO>)
    requires |pos| != 0
    ensures PaddedPieces(Map(DecimalString, pos))[1..] == Map(Pad, Map(DecimalString, pos[1..]))
  {
    assert Map(DecimalString, pos)[1..] == Map(DecimalString, pos[1..]);
  }

  /** Any non-empty list of POs joined with ", " reads back as the same list. */
  lemma DecimalListRoundTrip(pos: seq<PO>)
    requires |pos| != 0
    ensures POsFromText(Join(Map(DecimalString, pos), PO_SEPARATOR)) == Some(pos)
  {
    var parts := Map(DecimalString, pos);
    var padded := PaddedPieces(parts);
    calc {
      POsFromText(Join(parts, PO_SEPARATOR));
      { CommaSpaceJoin(parts); }
      ParsePOs(Split(Join(padded, [',']), ','));
      { assert forall i :: 0 <= i < |padded| ==> ',' !in padded[i] by { DecimalPiecesAvoidComma(pos); }
        SplitJoin(padded, ','); }
      ParsePOs(padded);
      { ParseDecimalPieces(pos); }
      Some(pos);
    }
  }

  /** The POs text of a non-empty list reads back as that list's distinct POs in
      increasing order, and the PO count is how many there are. */
  lemma POsTextRoundTrip(pos: seq<PO>)
    requires |pos| != 0
    ensures POsFromText(POsText(pos)) == Some(SortedDistinct(pos, NatLess))
    ensures |SortedDistinct(pos, NatLess)| == |SetOf(pos)|
  {
    NatLessStrictTotal();
    SortedDistinctFacts(pos, NatLess);
    assert pos[0] in SortedDistinct(pos, NatLess);
    DecimalListRoundTrip(SortedDistinct(pos, NatLess));
  }

  /** Report row `r` is entry `entry` of group number `g + 1`, whose POs are `pos`: its
      label reads back as `g + 1`, it carries the entry's ColorStyle and the entry's
      quantities split into the infant and toddler bands with their subtotals, its POs
      text reads back as `pos`, and its count is their number. */
  predicate RowMeans(r: ReportRow, g: nat, entry: Entry, pos: seq<PO>) {
    && GroupNumber(r.groupId) == Some(g + 1)
    && r.colorStyle == entry.colorStyle
    && |r.infant| == |INFANT_SIZES| && |r.toddler| == |TODDLER_SIZES|
    && r.infant + r.toddler == entry.quantities
    && r.infantTotal == Sum(r.infant) && r.toddlerTotal == Sum(r.toddler)
    && POsFromText(r.pos) == Some(pos)
    && r.poCount == |pos|
  }

  /** The report row of entry `e` of group `g`, when the group's POs are non-empty and
      increasing and the entry has one quantity per size (as grouping makes them), is
      the row just after the earlier groups' rows, and it means that entry of that group. */
  lemma GroupRowMeaning(groups: seq<Group>, g: nat, e: nat)
    requires g < |groups| && e < |groups[g].sig|
    requires |groups[g].pos| != 0 && StrictlySorted(groups[g].pos, NatLess)
    requires |groups[g].sig[e].quantities| == |ALL_SIZES|
    ensures |ReportRows(groups[..g])| + e < |ReportRows(groups)|
    ensures RowMeans(ReportRows(groups)[|ReportRows(groups[..g])| + e], g, groups[g].sig[e], groups[g].pos)
  {
    ReportRowAt(groups, g, e);
    RowValues(g + 1, groups[g].sig[e], groups[g].pos);
    GroupNumberOfLabel(g + 1);
    POsTextRoundTrip(groups[g].pos);
    NatLessStrictTotal();
    SortedDistinctOfIncreasing(groups[g].pos, NatLess);
  }
}
