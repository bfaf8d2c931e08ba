/** Grouping the POs by signature (app.py:68-77): `po_group_map[signature].append(po)`
    for each PO in `groupby` order, then the map's items in sorted order. */
module Grouping {
  import opened Orders
  import opened Sorting
  import opened Pivot
  import opened Signature

  function PoOf(row: PivotRow): PO {
    row.po
  }

  /** `pivot.groupby('PO Number')` visits the distinct PO numbers in increasing order. */
  function POsOf(rows: seq<PivotRow>): seq<PO> {
    SortedDistinct(Map(PoOf, rows), NatLess)
  }

  function PoSignature(rows: seq<PivotRow>, po: PO): Sig {
    SignatureOf(GroupRows(rows, po))
  }

  /** One iteration of the loop at line 69: a signature and the PO it belongs to. */
  datatype Visit = Visit(sig: Sig, po: PO)

  function VisitSig(v: Visit): Sig {
    v.sig
  }

  /** The loop's iterations, in order. */
  function Visits(rows: seq<PivotRow>): seq<Visit> {
    var pos := POsOf(rows);
    seq(|pos|, k requires 0 <= k < |pos| => Visit(PoSignature(rows, pos[k]), pos[k]))
  }

  /** The dict's keys in insertion order: each signature where it first appears. */
  function KeysOf(visits: seq<Visit>): seq<Sig> {
    Dedup(Map(VisitSig, visits))
  }

  /** The POs appended under `sig`, in the order they were appended. */
  function ListFor(visits: seq<Visit>, sig: Sig): seq<PO> {
    if |visits| == 0 then []
    else
      var n := |visits| - 1;
      ListFor(visits[..n], sig) + (if visits[n].sig == sig then [visits[n].po] else [])
  }

  /** The dict after the visits: every signature seen, with its list of POs. */
  function ListsOf(visits: seq<Visit>): map<Sig, seq<PO>> {
    map sig | sig in KeysOf(visits) :: ListFor(visits, sig)
  }

  /** `po_group_map`: a `defaultdict(list)` keyed by signature; `keys` records the
      insertion order that Python dicts keep. */
  class SignatureIndex {
    var keys: seq<Sig>
    var lists: map<Sig, seq<PO>>

    ghost predicate Valid()
      reads this
    {
      Distinct(keys) && forall sig :: sig in lists <==> sig in keys
    }

    constructor ()
      ensures Valid() && keys == [] && lists == map[]
    {
      keys := [];
      lists := map[];
    }

    /** `po_group_map[sig].append(po)`: a missing key starts as an empty list. */
    method Append(sig: Sig, po: PO)
      requires Valid()
      modifies this
      ensures Valid()
      ensures keys == if sig in old(keys) then old(keys) else old(keys) + [sig]
      ensures lists == old(lists)[sig := (if sig in old(lists) then old(lists)[sig] else []) + [po]]
    {
      if sig !in lists {
        keys := keys + [sig];
        lists := lists[sig := []];
      }
      lists := lists[sig := lists[sig] + [po]];
    }
  }

  /** After one more visit, the keys are those of the longer prefix. */
  lemma KeysStep(visits: seq<Visit>, k: nat)
    requires k < |visits|
    ensures KeysOf(visits[..k + 1])
         == if visits[k].sig in KeysOf(visits[..k]) then KeysOf(visits[..k]) else KeysOf(visits[..k]) + [visits[k].sig]
  {
    var prefix := visits[..k + 1];
    assert prefix[..k] == visits[..k];
    var sigs := Map(VisitSig, prefix);
    assert sigs[..k] == Map(VisitSig, visits[..k]);
  }

  lemma ListForStep(visits: seq<Visit>, k: nat, sig: Sig)
    requires k < |visits|
    ensures ListFor(visits[..k + 1], sig) == ListFor(visits[..k], sig) + (if visits[k].sig == sig then [visits[k].po] else [])
  {
    assert visits[..k + 1][..k] == visits[..k];
  }

  /** After one more visit, its PO is appended to the list of its signature. */
  lemma ListsStep(visits: seq<Visit>, k: nat)
    requires k < |visits|
    ensures var before := ListsOf(visits[..k]);
      ListsOf(visits[..k + 1])
      == before[visits[k].sig := (if visits[k].sig in before then before[visits[k].sig] else []) + [visits[k].po]]
  {
    var before, after := ListsOf(visits[..k]), ListsOf(visits[..k + 1]);
    var v := visits[k];
    var expected := before[v.sig := (if v.sig in before then before[v.sig] else []) + [v.po]];
    assert forall sig :: sig in after <==> sig in expected by {
      KeysDomainStep(visits, k);
    }
    assert forall sig :: sig in after ==> after[sig] == expected[sig] by {
      forall sig | sig in after ensures after[sig] == expected[sig] {
        ListsStepAt(visits, k, sig);
      }
    }
    MapsEqual(after, expected);
  }

  /** Two maps with the same keys and the same value under every key are equal. */
  lemma MapsEqual<K, V>(a: map<K, V>, b: map<K, V>)
    requires forall x :: x in a <==> x in b
    requires forall x :: x in a ==> a[x] == b[x]
    ensures a == b
  {
  }

  lemma KeysDomainStep(visits: seq<Visit>, k: nat)
    requires k < |visits|
    ensures forall sig :: sig in KeysOf(visits[..k + 1]) <==> sig in KeysOf(visits[..k]) || sig == visits[k].sig
  {
    KeysStep(visits, k);
  }

  /** `ListsStep` for the list of one signature. */
  lemma ListsStepAt(visits: seq<Visit>, k: nat, sig: Sig)
    requires k < |visits| && sig in KeysOf(visits[..k + 1])
    ensures var before := ListsOf(visits[..k]);
      ListFor(visits[..k + 1], sig)
      == if sig == visits[k].sig then (if sig in before then before[sig] else []) + [visits[k].po]
         else before[sig]
  {
    var v := visits[k];
    KeysStep(visits, k);
    ListForStep(visits, k, sig);
    if sig == v.sig && v.sig !in KeysOf(visits[..k]) {
      KeysOfMembers(visits[..k]);
      ListForAbsent(visits[..k], v.sig);
    }
  }

  /** A signature that no visit produced has an empty list. */
  lemma {:induction false} ListForAbsent(visits: seq<Visit>, sig: Sig)
    requires forall po :: Visit(sig, po) !in visits
    ensures ListFor(visits, sig) == []
  {
    if |visits| != 0 {
      var n := |visits| - 1;
      assert visits[n] in visits;
      assert forall po :: Visit(sig, po) in visits[..n] ==> Visit(sig, po) in visits;
      ListForAbsent(visits[..n], sig);
    }
  }

  /** Lines 68-74. */
  method BuildIndex(rows: seq<PivotRow>) returns (index: SignatureIndex)
    ensures fresh(index) && index.Valid()
    ensures index.keys == KeysOf(Visits(rows)) && index.lists == ListsOf(Visits(rows))
  {
    var pos := POsOf(rows);
    ghost var visits := Visits(rows);
    index := new SignatureIndex();
    assert visits[..0] == [];
    for k := 0 to |pos|
      invariant index.Valid()
      invariant index.keys == KeysOf(visits[..k])
      invariant index.lists == ListsOf(visits[..k])
    {
      var po := pos[k];
      var signature := SignatureOf(GroupRows(rows, po));
      assert visits[k] == Visit(signature, po);
      KeysStep(visits, k);
      ListsStep(visits, k);
      index.Append(signature, po);
    }
    assert visits[..|pos|] == visits;
  }

  /** A PO is in the list of `sig` exactly when some visit paired them. */
  lemma {:induction false} ListForMembers(visits: seq<Visit>, sig: Sig, po: PO)
    ensures po in ListFor(visits, sig) <==> Visit(sig, po) in visits
  {
    if |visits| != 0 {
      var n := |visits| - 1;
      assert visits == visits[..n] + [visits[n]];
      ListForMembers(visits[..n], sig, po);
    }
  }

  lemma AppendIncreasing(s: seq<PO>, x: PO)
    requires StrictlySorted(s, NatLess) && forall y :: y in s ==> y < x
    ensures StrictlySorted(s + [x], NatLess)
  {
    forall i, j | 0 <= i < j < |s| + 1 ensures NatLess((s + [x])[i], (s + [x])[j]) {
      if j == |s| {
        assert s[i] in s;
      }
    }
  }

  /** Visits in increasing PO order give every list in increasing order. */
  lemma {:induction false} ListForIncreasing(visits: seq<Visit>, sig: Sig)
    requires forall i, j :: 0 <= i < j < |visits| ==> visits[i].po < visits[j].po
    ensures StrictlySorted(ListFor(visits, sig), NatLess)
  {
    if |visits| != 0 {
      var n := |visits| - 1;
      var before := ListFor(visits[..n], sig);
      ListForIncreasing(visits[..n], sig);
      if visits[n].sig == sig {
        forall x | x in before ensures x < visits[n].po {
          ListForMembers(visits[..n], sig, x);
        }
        AppendIncreasing(before, visits[n].po);
      } else {
        assert ListFor(visits, sig) == before;
      }
    }
  }

  /** A signature is a key exactly when some visit produced it. */
  lemma KeysOfMembers(visits: seq<Visit>)
    ensures forall sig :: sig in KeysOf(visits) <==> exists po :: Visit(sig, po) in visits
  {
    forall sig | sig in KeysOf(visits) ensures exists po :: Visit(sig, po) in visits {
      var j :| 0 <= j < |visits| && Map(VisitSig, visits)[j] == sig;
      assert Visit(sig, visits[j].po) == visits[j];
    }
    forall sig, po | Visit(sig, po) in visits ensures sig in KeysOf(visits) {
      var j :| 0 <= j < |visits| && visits[j] == Visit(sig, po);
      assert Map(VisitSig, visits)[j] == sig;
    }
  }

  /** The PO numbers of the pivot, visited in strictly increasing order. */
  lemma POsOfFacts(rows: seq<PivotRow>)
    ensures StrictlySorted(POsOf(rows), NatLess)
    ensures forall po :: po in POsOf(rows) <==> exists i :: 0 <= i < |rows| && rows[i].po == po
  {
    NatLessStrictTotal();
    SortedDistinctFacts(Map(PoOf, rows), NatLess);
  }

  /** The loop visits each PO of the pivot once, in increasing order, with its signature. */
  lemma VisitsFacts(rows: seq<PivotRow>)
    ensures forall i, j :: 0 <= i < j < |Visits(rows)| ==> Visits(rows)[i].po < Visits(rows)[j].po
    ensures forall sig, po :: Visit(sig, po) in Visits(rows) <==> po in POsOf(rows) && sig == PoSignature(rows, po)
  {
    var visits, pos := Visits(rows), POsOf(rows);
    POsOfFacts(rows);
    forall sig, po | po in pos && sig == PoSignature(rows, po) ensures Visit(sig, po) in visits {
      var k :| 0 <= k < |pos| && pos[k] == po;
      assert visits[k] == Visit(sig, po);
    }
  }

  /** One item of `sorted(po_group_map.items())`. */
  datatype Group = Group(sig: Sig, pos: seq<PO>)

  /** `sorted(po_group_map.items())`: the dict's items in increasing signature order
      (no two keys are equal, so the lists never decide the order). */
  function GroupsOf(keys: seq<Sig>, lists: map<Sig, seq<PO>>): (groups: seq<Group>)
    requires forall sig :: sig in keys ==> sig in lists
    ensures |groups| == |keys|
  {
    var sorted := Sort(keys, SigLt);
    assert forall i :: 0 <= i < |sorted| ==> sorted[i] in keys by {
      forall i | 0 <= i < |sorted| ensures sorted[i] in keys {
        assert sorted[i] in multiset(sorted);
      }
    }
    seq(|sorted|, i requires 0 <= i < |sorted| => Group(sorted[i], lists[sorted[i]]))
  }

  function GroupSig(g: Group): Sig {
    g.sig
  }

  /** The groups in the order the report numbers them. */
  function GroupsFor(rows: seq<PivotRow>): seq<Group> {
    var visits := Visits(rows);
    GroupsOf(KeysOf(visits), ListsOf(visits))
  }

  /** Each group is a key with its list, and the groups follow the sorted keys. */
  lemma GroupsOfMembers(keys: seq<Sig>, lists: map<Sig, seq<PO>>)
    requires forall sig :: sig in keys ==> sig in lists
    ensures Map(GroupSig, GroupsOf(keys, lists)) == Sort(keys, SigLt)
    ensures forall i :: 0 <= i < |GroupsOf(keys, lists)| ==>
      GroupsOf(keys, lists)[i].sig in keys && GroupsOf(keys, lists)[i].pos == lists[GroupsOf(keys, lists)[i].sig]
    ensures forall sig :: sig in keys ==> exists i :: 0 <= i < |GroupsOf(keys, lists)| && GroupsOf(keys, lists)[i].sig == sig
  {
    GroupsOfSigs(keys, lists);
    GroupsOfPairs(keys, lists);
    GroupsOfCover(keys, lists);
  }

  lemma GroupsOfSigs(keys: seq<Sig>, lists: map<Sig, seq<PO>>)
    requires forall sig :: sig in keys ==> sig in lists
    ensures Map(GroupSig, GroupsOf(keys, lists)) == Sort(keys, SigLt)
  {
  }

  lemma GroupsOfPairs(keys: seq<Sig>, lists: map<Sig, seq<PO>>)
    requires forall sig :: sig in keys ==> sig in lists
    ensures forall i :: 0 <= i < |GroupsOf(keys, lists)| ==>
      GroupsOf(keys, lists)[i].sig in keys && GroupsOf(keys, lists)[i].pos == lists[GroupsOf(keys, lists)[i].sig]
  {
    var groups, sorted := GroupsOf(keys, lists), Sort(keys, SigLt);
    forall i | 0 <= i < |groups| ensures groups[i].sig in keys {
      assert sorted[i] in multiset(keys);
    }
  }

  lemma GroupsOfCover(keys: seq<Sig>, lists: map<Sig, seq<PO>>)
    requires forall sig :: sig in keys ==> sig in lists
    ensures forall sig :: sig in keys ==> exists i :: 0 <= i < |GroupsOf(keys, lists)| && GroupsOf(keys, lists)[i].sig == sig
  {
    var groups, sorted := GroupsOf(keys, lists), Sort(keys, SigLt);
    forall sig | sig in keys ensures exists i :: 0 <= i < |groups| && groups[i].sig == sig {
      assert sig in multiset(sorted);
      var i :| 0 <= i < |sorted| && sorted[i] == sig;
      assert groups[i].sig == sig;
    }
  }

  /** Distinct keys give groups in strictly increasing signature order. */
  lemma GroupsOfIncreasing(keys: seq<Sig>, lists: map<Sig, seq<PO>>)
    requires Distinct(keys) && forall sig :: sig in keys ==> sig in lists
    ensures StrictlySorted(Map(GroupSig, GroupsOf(keys, lists)), SigLt)
  {
    SigLtStrictTotal();
    GroupsOfMembers(keys, lists);
    SortDistinctStrict(keys, SigLt);
  }

  /** Reordering the dict's keys does not reorder the groups. */
  lemma GroupsOfOrderFree(k1: seq<Sig>, k2: seq<Sig>, lists: map<Sig, seq<PO>>)
    requires multiset(k1) == multiset(k2)
    requires forall sig :: sig in k1 ==> sig in lists
    ensures forall sig :: sig in k2 ==> sig in lists
    ensures GroupsOf(k1, lists) == GroupsOf(k2, lists)
  {
    assert forall sig :: sig in k2 ==> sig in multiset(k1);
    SigLtStrictTotal();
    SortPermutationInvariant(k1, k2, SigLt);
  }

  /** Every group lists its POs in increasing order and has at least one. */
  lemma GroupsNonEmptyIncreasing(visits: seq<Visit>)
    requires forall i, j :: 0 <= i < j < |visits| ==> visits[i].po < visits[j].po
    ensures var groups := GroupsOf(KeysOf(visits), ListsOf(visits));
      forall g :: 0 <= g < |groups| ==> |groups[g].pos| != 0 && StrictlySorted(groups[g].pos, NatLess)
  {
    var keys, lists := KeysOf(visits), ListsOf(visits);
    var groups := GroupsOf(keys, lists);
    KeysOfMembers(visits);
    GroupsOfMembers(keys, lists);
    forall g | 0 <= g < |groups| ensures |groups[g].pos| != 0 && StrictlySorted(groups[g].pos, NatLess) {
      var sig := groups[g].sig;
      assert sig in keys;
      var po :| Visit(sig, po) in visits;
      ListForMembers(visits, sig, po);
      ListForIncreasing(visits, sig);
    }
  }

  /** A PO is in a group exactly when a visit paired it with the group's signature. */
  lemma GroupsMembership(visits: seq<Visit>)
    ensures var groups := GroupsOf(KeysOf(visits), ListsOf(visits));
      forall g, po :: 0 <= g < |groups| ==> (po in groups[g].pos <==> Visit(groups[g].sig, po) in visits)
  {
    var keys, lists := KeysOf(visits), ListsOf(visits);
    var groups := GroupsOf(keys, lists);
    GroupsOfMembers(keys, lists);
    forall g, po | 0 <= g < |groups| ensures po in groups[g].pos <==> Visit(groups[g].sig, po) in visits {
      ListForMembers(visits, groups[g].sig, po);
    }
  }

  /** Every visited signature has a group. */
  lemma GroupsCoverVisits(visits: seq<Visit>)
    ensures var groups := GroupsOf(KeysOf(visits), ListsOf(visits));
      forall v :: v in visits ==> exists g :: 0 <= g < |groups| && groups[g].sig == v.sig
  {
    var keys, lists := KeysOf(visits), ListsOf(visits);
    KeysOfMembers(visits);
    GroupsOfMembers(keys, lists);
    forall v | v in visits ensures v.sig in keys {
      assert Visit(v.sig, v.po) in visits;
    }
  }

  /** Lines 68-77 end to end: the groups come in strictly increasing signature order;
      every group's POs are listed in increasing order, without repeats, and it has at
      least one; and a PO is in a group exactly when it is a PO of the pivot whose
      signature is the group's. */
  lemma GroupingFacts(rows: seq<PivotRow>)
    ensures StrictlySorted(Map(GroupSig, GroupsFor(rows)), SigLt)
    ensures forall g :: 0 <= g < |GroupsFor(rows)| ==>
      |GroupsFor(rows)[g].pos| != 0 && StrictlySorted(GroupsFor(rows)[g].pos, NatLess)
    ensures forall g, po :: 0 <= g < |GroupsFor(rows)| ==>
      (po in GroupsFor(rows)[g].pos <==> po in POsOf(rows) && PoSignature(rows, po) == GroupsFor(rows)[g].sig)
  {
    var visits := Visits(rows);
    VisitsFacts(rows);
    KeysOfMembers(visits);
    GroupsOfIncreasing(KeysOf(visits), ListsOf(visits));
    GroupsNonEmptyIncreasing(visits);
    GroupsMembership(visits);
  }

  /** Every PO of the pivot is in exactly one group. */
  lemma EachPOInOneGroup(rows: seq<PivotRow>, po: PO)
    requires po in POsOf(rows)
    ensures exists g :: 0 <= g < |GroupsFor(rows)| && po in GroupsFor(rows)[g].pos
    ensures forall g1, g2 :: (0 <= g1 < |GroupsFor(rows)| && 0 <= g2 < |GroupsFor(rows)|
      && po in GroupsFor(rows)[g1].pos && po in GroupsFor(rows)[g2].pos) ==> g1 == g2
  {
    var visits, groups := Visits(rows), GroupsFor(rows);
    VisitsFacts(rows);
    GroupingFacts(rows);
    GroupsCoverVisits(visits);
    assert Visit(PoSignature(rows, po), po) in visits;
    var sigs := Map(GroupSig, groups);
    SigLtStrictTotal();
    StrictlySortedInjective(sigs, SigLt);
  }

  /** Two POs of the pivot share a group exactly when their signatures are equal. */
  lemma SameGroupIffSameSignature(rows: seq<PivotRow>, p1: PO, p2: PO)
    requires p1 in POsOf(rows) && p2 in POsOf(rows)
    ensures (exists g :: 0 <= g < |GroupsFor(rows)| && p1 in GroupsFor(rows)[g].pos && p2 in GroupsFor(rows)[g].pos)
        <==> PoSignature(rows, p1) == PoSignature(rows, p2)
  {
    EachPOInOneGroup(rows, p1);
    var g :| 0 <= g < |GroupsFor(rows)| && p1 in GroupsFor(rows)[g].pos;
    GroupMember(rows, g, p1);
    GroupMember(rows, g, p2);
    forall h | 0 <= h < |GroupsFor(rows)| && p1 in GroupsFor(rows)[h].pos && p2 in GroupsFor(rows)[h].pos
      ensures PoSignature(rows, p1) == PoSignature(rows, p2)
    {
      GroupMember(rows, h, p1);
      GroupMember(rows, h, p2);
    }
  }

  /** Pivot rows give at least one group, and its signature has at least one entry;
      no pivot rows give no groups. */
  lemma GroupsEmptyIff(rows: seq<PivotRow>)
    ensures |GroupsFor(rows)| == 0 <==> |rows| == 0
    ensures |GroupsFor(rows)| != 0 ==> |GroupsFor(rows)[0].sig| != 0
  {
    var visits := Visits(rows);
    POsOfFacts(rows);
    KeysOfMembers(visits);
    if |rows| != 0 {
      assert rows[0].po in POsOf(rows);
      assert visits[0] in visits;
      assert visits[0].sig in KeysOf(visits);
      FirstGroupHasEntry(rows);
    }
  }

  lemma FirstGroupHasEntry(rows: seq<PivotRow>)
    requires |GroupsFor(rows)| != 0
    ensures |GroupsFor(rows)[0].sig| != 0
  {
    var group := GroupsFor(rows)[0];
    GroupShape(rows, 0);
    var po := group.pos[0];
    GroupMember(rows, 0, po);
    POHasRows(rows, po);
    SignatureFacts(GroupRows(rows, po));
  }

  /** A PO of the pivot has at least one row. */
  lemma POHasRows(rows: seq<PivotRow>, po: PO)
    requires po in POsOf(rows)
    ensures |GroupRows(rows, po)| != 0
  {
    POsOfFacts(rows);
    var i :| 0 <= i < |rows| && rows[i].po == po;
    assert rows[i] in GroupRows(rows, po);
  }

  /** The POs of the pivot are exactly the PO numbers of the line items. */
  lemma POsOfPivot(items: seq<LineItem>, po: PO)
    ensures po in POsOf(PivotOf(items)) <==> exists j :: 0 <= j < |items| && items[j].po == po
  {
    POsOfFacts(PivotOf(items));
    if po in POsOf(PivotOf(items)) {
      PivotPOHasItem(items, po);
    }
    if exists j :: 0 <= j < |items| && items[j].po == po {
      var j :| 0 <= j < |items| && items[j].po == po;
      ItemPOInPivot(items, j);
    }
  }

  lemma PivotPOHasItem(items: seq<LineItem>, po: PO)
    requires exists i :: 0 <= i < |PivotOf(items)| && PivotOf(items)[i].po == po
    ensures exists j :: 0 <= j < |items| && items[j].po == po
  {
    var rows := PivotOf(items);
    var i :| 0 <= i < |rows| && rows[i].po == po;
    PivotIndex(items);
    RowKeysFacts(items);
    assert RowKeys(items)[i] in RowKeys(items);
    var j :| 0 <= j < |items| && KeyOf(items[j]) == RowKeys(items)[i];
    assert items[j].po == po;
  }

  lemma ItemPOInPivot(items: seq<LineItem>, j: nat)
    requires j < |items|
    ensures exists i :: 0 <= i < |PivotOf(items)| && PivotOf(items)[i].po == items[j].po
  {
    PivotIndex(items);
    RowKeysFacts(items);
    assert KeyOf(items[j]) in RowKeys(items);
    var k :| 0 <= k < |RowKeys(items)| && RowKeys(items)[k] == KeyOf(items[j]);
    assert PivotOf(items)[k].po == items[j].po;
  }

  /** One group's POs: at least one, in increasing order. */
  lemma GroupShape(rows: seq<PivotRow>, g: nat)
    requires g < |GroupsFor(rows)|
    ensures |GroupsFor(rows)[g].pos| != 0 && StrictlySorted(GroupsFor(rows)[g].pos, NatLess)
  {
    VisitsFacts(rows);
    GroupsNonEmptyIncreasing(Visits(rows));
  }

  /** One group's members: the POs of the pivot whose signature is the group's. */
  lemma GroupMember(rows: seq<PivotRow>, g: nat, po: PO)
    requires g < |GroupsFor(rows)|
    ensures po in GroupsFor(rows)[g].pos <==> po in POsOf(rows) && PoSignature(rows, po) == GroupsFor(rows)[g].sig
  {
    var visits := Visits(rows);
    var group := GroupsFor(rows)[g];
    VisitsFacts(rows);
    GroupsMembership(visits);
    assert po in group.pos <==> Visit(group.sig, po) in visits;
  }

  /** All of one group's members at once. */
  lemma GroupMembers(rows: seq<PivotRow>, g: nat)
    requires g < |GroupsFor(rows)|
    ensures forall po :: po in GroupsFor(rows)[g].pos <==>
      po in POsOf(rows) && PoSignature(rows, po) == GroupsFor(rows)[g].sig
  {
    forall po ensures po in GroupsFor(rows)[g].pos <==>
      po in POsOf(rows) && PoSignature(rows, po) == GroupsFor(rows)[g].sig
    {
      GroupMember(rows, g, po);
    }
  }
}
