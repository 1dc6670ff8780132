/** Rows of the attribute table by node, endpoint and cluster: what a run of adds leaves in the table. */
module AttributeTable {
  import opened Bytes
  import opened Devices
  import opened Options

  /** What `tZDM_FindClusterEntryInDeviceTable` looks up, and where the entry with its counter stands. */
  datatype Key = Key(nodeId: u16, endpoint: u8, cluster: u16)
  datatype Place = Place(device: nat, endpoint: nat, cluster: nat)

  predicate ValidKey(k: Key) { ValidNodeId(k.nodeId) && ValidEndpointId(k.endpoint) }

  function KeyOf(a: Attribute): Key { Key(a.nodeId, a.endpoint, a.cluster) }

  predicate InTable(ds: seq<Device>, p: Place) {
    p.device < |ds| && p.endpoint < MAX_ENDPOINTS && p.cluster < MAX_CLUSTERS
  }

  /** The first entry for `k` in the first device and endpoint with its ids. */
  function PlaceOf(ds: seq<Device>, k: Key): (p: Option<Place>)
    requires forall r :: 0 <= r < |ds| ==> Sized(ds[r])
    ensures p.Some? ==> InTable(ds, p.value) && KeyAt(ds, p.value) == k
  {
    var r := DeviceByNodeId(ds, k.nodeId);
    if r == |ds| then None
    else
      assert Sized(ds[r]);
      var e := EndpointById(ds[r].endpoints, k.endpoint);
      if e == MAX_ENDPOINTS then None
      else
        var c := ClusterById(ds[r].endpoints[e].clusters, k.cluster);
        if c == MAX_CLUSTERS then None else Some(Place(r, e, c))
  }

  function KeyAt(ds: seq<Device>, p: Place): Key
    requires (forall r :: 0 <= r < |ds| ==> Sized(ds[r])) && InTable(ds, p)
  {
    assert Sized(ds[p.device]);
    var e := ds[p.device].endpoints[p.endpoint];
    Key(ds[p.device].nodeId, e.id, e.clusters[p.cluster])
  }

  /** The attribute ids of the rows for `k`, in table order. */
  function ListOf(rows: seq<Attribute>, k: Key): (l: seq<u16>)
    ensures |l| <= |rows|
  {
    if |rows| == 0 then []
    else ListOf(rows[..|rows| - 1], k) + OneOf(rows[|rows| - 1], k)
  }

  function OneOf(a: Attribute, k: Key): (l: seq<u16>)
    ensures |l| <= 1
  {
    if KeyOf(a) == k then [a.attribute] else []
  }

  lemma {:induction false} ListOfConcat(s: seq<Attribute>, t: seq<Attribute>, k: Key)
    ensures ListOf(s + t, k) == ListOf(s, k) + ListOf(t, k)
  {
    if |t| == 0 {
      assert s + t == s;
    } else {
      ListOfConcat(s, t[..|t| - 1], k);
      assert (s + t)[..|s + t| - 1] == s + t[..|t| - 1];
    }
  }

  lemma ListOfSplit(rows: seq<Attribute>, f: nat, k: Key)
    requires f < |rows|
    ensures ListOf(rows, k) == ListOf(rows[..f], k) + OneOf(rows[f], k) + ListOf(rows[f + 1..], k)
  {
    ListOfConcat(rows[..f + 1], rows[f + 1..], k);
    assert rows == rows[..f + 1] + rows[f + 1..];
    assert rows[..f + 1][..f] == rows[..f];
  }

  /** A row is added in the first free place; with the rows before it in front and those after it behind. */
  lemma {:induction false} RowAddedLists(rows: seq<Attribute>, a: Attribute, k: Key)
    requires ValidKey(k)
    ensures var f := FreeRow(rows);
            ListOf(RowAdded(rows, a), k) ==
            if f < |rows| && KeyOf(a) == k then ListOf(rows[..f], k) + [a.attribute] + ListOf(rows[f + 1..], k) else ListOf(rows, k)
  {
    var f := FreeRow(rows);
    if f < |rows| && ValidKey(KeyOf(a)) {
      var after := RowAdded(rows, a);
      assert after == rows[f := a] && rows[f].nodeId == 0;
      hide ListOf;
      hide FreeRow;
      hide RowAdded;
      ListOfSplit(rows, f, k);
      ListOfSplit(after, f, k);
      assert after[..f] == rows[..f] && after[f + 1..] == rows[f + 1..];
      assert OneOf(rows[f], k) == [];
    }
  }

  /** One more row for the key, or the same list: the step of the counter. */
  lemma RowAddedCounts(rows: seq<Attribute>, a: Attribute, k: Key)
    requires ValidKey(k)
    ensures |ListOf(RowAdded(rows, a), k)| == |ListOf(rows, k)| + if FreeRow(rows) < |rows| && KeyOf(a) == k then 1 else 0
  {
    hide ListOf;
    hide RowAdded;
    RowAddedLists(rows, a, k);
    var f := FreeRow(rows);
    if f < |rows| {
      ListOfSplit(rows, f, k);
      assert OneOf(rows[f], k) == [];
    }
  }

  // ---- Runs of adds ----

  /** The table after adding `added` in order. */
  function AddedInTurn(rows: seq<Attribute>, added: seq<Attribute>): (r: seq<Attribute>)
    ensures |r| == |rows|
  {
    if |added| == 0 then rows else RowAdded(AddedInTurn(rows, added[..|added| - 1]), added[|added| - 1])
  }

  /** The adds with valid ids, in order. */
  function Accepted(added: seq<Attribute>): seq<Attribute> {
    if |added| == 0 then []
    else Accepted(added[..|added| - 1]) + if ValidKey(KeyOf(added[|added| - 1])) then [added[|added| - 1]] else []
  }

  function Least(a: nat, b: nat): nat { if a < b then a else b }

  function FreeRows(n: nat): seq<Attribute> { seq(n, _ => NO_ATTRIBUTE) }

  lemma {:induction false} AcceptedAreValid(added: seq<Attribute>, i: nat)
    requires i < |Accepted(added)|
    ensures ValidKey(KeyOf(Accepted(added)[i]))
  {
    if i < |Accepted(added[..|added| - 1])| {
      AcceptedAreValid(added[..|added| - 1], i);
    }
  }

  /** From an empty table of `n` rows, the table holds the first `n` accepted adds, in order, and then free rows. */
  lemma {:induction false} AddedFillInOrder(n: nat, added: seq<Attribute>)
    ensures var m := Least(n, |Accepted(added)|);
            AddedInTurn(FreeRows(n), added) == Accepted(added)[..m] + FreeRows(n - m)
  {
    if |added| == 0 {
      assert FreeRows(n) == [] + FreeRows(n - 0);
    } else {
      AddedFillInOrder(n, added[..|added| - 1]);
      AddedFillsNext(n, Accepted(added[..|added| - 1]), added);
    }
  }

  lemma AddedFillsNext(n: nat, before: seq<Attribute>, added: seq<Attribute>)
    requires |added| > 0 && before == Accepted(added[..|added| - 1])
    ensures var p, m := Least(n, |before|), Least(n, |Accepted(added)|);
            RowAdded(before[..p] + FreeRows(n - p), added[|added| - 1]) == Accepted(added)[..m] + FreeRows(n - m)
  {
    var p, m := Least(n, |before|), Least(n, |Accepted(added)|);
    var rows, a := before[..p] + FreeRows(n - p), added[|added| - 1];
    var after := Accepted(added);
    assert after == before + if ValidKey(KeyOf(a)) then [a] else [];
    forall i | 0 <= i < p ensures rows[i].nodeId != 0 {
      AcceptedAreValid(added[..|added| - 1], i);
    }
    FreeRowIs(rows, p);
    hide FreeRow;
    hide Accepted;
    if p < n && ValidKey(KeyOf(a)) {
      assert after[..m] == before + [a];
      assert rows[p := a] == after[..m] + FreeRows(n - m);
    } else {
      assert after[..m] == before[..p];
    }
  }

  /** Hence the rows of a key are, in table order, the accepted adds for it among the first `n`, in the order of the adds. */
  lemma ListIsAddOrder(n: nat, added: seq<Attribute>, k: Key)
    requires ValidKey(k)
    ensures ListOf(AddedInTurn(FreeRows(n), added), k) == ListOf(Accepted(added)[..Least(n, |Accepted(added)|)], k)
  {
    var m := Least(n, |Accepted(added)|);
    AddedFillInOrder(n, added);
    ListOfConcat(Accepted(added)[..m], FreeRows(n - m), k);
    NoFreeRowListed(n - m, k);
  }

  lemma {:induction false} NoFreeRowListed(n: nat, k: Key)
    requires ValidKey(k)
    ensures ListOf(FreeRows(n), k) == []
  {
    if n > 0 {
      assert FreeRows(n)[..n - 1] == FreeRows(n - 1);
      NoFreeRowListed(n - 1, k);
    }
  }
}
