/** The attribute rows of a device that has become active: which clusters of which endpoints are watched, and by which ids. */
module WatchedAttributes {
  import opened Bytes
  import opened Options
  import opened Devices
  import opened DeviceKinds
  import opened AttributeTable
  import opened Commissioning
  import opened CommissioningRuns

  // ---- Rows that are packed ----

  /** No used row stands behind a free one. */
  predicate Packed(rows: seq<Attribute>) {
    forall i, j :: 0 <= i < j < |rows| && rows[j].nodeId != 0 ==> rows[i].nodeId != 0
  }

  lemma {:induction false} UnusedRowsListNothing(rows: seq<Attribute>, k: Key)
    requires ValidKey(k) && forall i :: 0 <= i < |rows| ==> rows[i].nodeId == 0
    ensures ListOf(rows, k) == []
  {
    if |rows| > 0 {
      UnusedRowsListNothing(rows[..|rows| - 1], k);
    }
  }

  lemma {:induction false} RowKeepsPacked(rows: seq<Attribute>, a: Attribute)
    requires Packed(rows) && FreeRow(rows) < |rows| && ValidKey(KeyOf(a))
    ensures RowAdded(rows, a) == rows[FreeRow(rows) := a]
    ensures Packed(RowAdded(rows, a)) && FreeRow(RowAdded(rows, a)) == FreeRow(rows) + 1
  {
    var f := FreeRow(rows);
    var t := RowAdded(rows, a);
    assert t == rows[f := a];
    forall i | f < i < |rows|
      ensures t[i].nodeId == 0
    {
      assert rows[f].nodeId == 0;
    }
    FreeRowIs(t, f + 1);
    hide FreeRow;
  }

  lemma {:induction false} BehindFreeRow(rows: seq<Attribute>, k: Key)
    requires Packed(rows) && FreeRow(rows) < |rows| && ValidKey(k)
    ensures ListOf(rows[FreeRow(rows) + 1..], k) == []
  {
    var rest := rows[FreeRow(rows) + 1..];
    assert rows[FreeRow(rows)].nodeId == 0;
    hide FreeRow;
    UnusedRowsListNothing(rest, k);
  }

  /** The list of a packed table is that of the rows before the first free one. */
  lemma {:induction false} ListIsBeforeFree(rows: seq<Attribute>, k: Key)
    requires Packed(rows) && FreeRow(rows) < |rows| && ValidKey(k)
    ensures ListOf(rows, k) == ListOf(rows[..FreeRow(rows)], k)
  {
    hide *;
    var f := FreeRow(rows);
    BehindFreeRow(rows, k);
    FreeIsNotListed(rows[f], k);
    ListOfSplit(rows, f, k);
    var before := ListOf(rows[..f], k);
    assert before + [] == before;
  }

  /** In a packed table a new row comes last in its list. */
  lemma {:induction false} RowIsLast(rows: seq<Attribute>, a: Attribute, k: Key)
    requires Packed(rows) && FreeRow(rows) < |rows| && ValidKey(KeyOf(a)) && ValidKey(k)
    ensures Packed(RowAdded(rows, a)) && FreeRow(RowAdded(rows, a)) == FreeRow(rows) + 1
    ensures ListOf(RowAdded(rows, a), k) == ListOf(rows, k) + if KeyOf(a) == k then [a.attribute] else []
  {
    hide *;
    RowKeepsPacked(rows, a);
    RowAddedLists(rows, a, k);
    ListIsBeforeFree(rows, k);
    BehindFreeRow(rows, k);
    var before := ListOf(rows[..FreeRow(rows)], k);
    assert before + [a.attribute] + [] == before + [a.attribute] && before + [] == before;
  }

  lemma FreeIsNotListed(a: Attribute, k: Key)
    requires ValidKey(k) && a.nodeId == 0
    ensures OneOf(a, k) == []
  {
  }

  /** One more id behind those of `front`. */
  lemma {:induction false} AddAllMore(rows: seq<Attribute>, n: u16, endpoint: u8, cluster: u16, front: seq<u16>, id: u16, k: Key)
    requires ValidNodeId(n) && ValidKey(k)
    requires var u := AddAll(rows, n, endpoint, cluster, front);
             && Packed(u) && FreeRow(u) < |u|
             && ListOf(u, k) == ListOf(rows, k) + if Key(n, endpoint, cluster) == k then front else []
    ensures var u, t := AddAll(rows, n, endpoint, cluster, front), AddAll(rows, n, endpoint, cluster, front + [id]);
            && Packed(t) && FreeRow(t) <= FreeRow(u) + 1
            && ListOf(t, k) == ListOf(rows, k) + if Key(n, endpoint, cluster) == k then front + [id] else []
  {
    assert (front + [id])[..|front|] == front;
    var u, a := AddAll(rows, n, endpoint, cluster, front), Attribute(n, endpoint, cluster, id);
    assert AddAll(rows, n, endpoint, cluster, front + [id]) == RowAdded(u, a);
    hide ListOf, FreeRow, RowAdded, Packed, AddAll;
    if ValidEndpointId(endpoint) {
      RowIsLast(u, a, k);
    } else {
      NoRowAdded(u, a);
    }
  }

  lemma {:induction false} AddAllLists(rows: seq<Attribute>, n: u16, endpoint: u8, cluster: u16, ids: seq<u16>, k: Key)
    requires Packed(rows) && FreeRow(rows) + |ids| <= |rows| && ValidNodeId(n) && ValidKey(k)
    ensures var t := AddAll(rows, n, endpoint, cluster, ids);
            && Packed(t) && FreeRow(t) <= FreeRow(rows) + |ids|
            && ListOf(t, k) == ListOf(rows, k) + if Key(n, endpoint, cluster) == k then ids else []
  {
    if |ids| == 0 {
      assert ListOf(rows, k) + [] == ListOf(rows, k);
    } else {
      hide *;
      var front := ids[..|ids| - 1];
      assert ids == front + [ids[|ids| - 1]];
      AddAllLists(rows, n, endpoint, cluster, front, k);
      AddAllMore(rows, n, endpoint, cluster, front, ids[|ids| - 1], k);
    }
  }

  lemma NoRowAdded(rows: seq<Attribute>, a: Attribute)
    requires !ValidKey(KeyOf(a))
    ensures RowAdded(rows, a) == rows
  {
  }

  lemma {:induction false} RowStaysPacked(rows: seq<Attribute>, a: Attribute)
    requires Packed(rows)
    ensures Packed(RowAdded(rows, a))
  {
    if FreeRow(rows) < |rows| && ValidKey(KeyOf(a)) {
      RowKeepsPacked(rows, a);
    }
  }

  lemma {:induction false} AddAllStaysPacked(rows: seq<Attribute>, n: u16, endpoint: u8, cluster: u16, ids: seq<u16>)
    requires Packed(rows)
    ensures Packed(AddAll(rows, n, endpoint, cluster, ids))
  {
    if |ids| > 0 {
      hide Packed, RowAdded;
      AddAllStaysPacked(rows, n, endpoint, cluster, ids[..|ids| - 1]);
      RowStaysPacked(AddAll(rows, n, endpoint, cluster, ids[..|ids| - 1]), Attribute(n, endpoint, cluster, ids[|ids| - 1]));
    }
  }

  lemma {:induction false} AddClustersStaysPacked(rows: seq<Attribute>, d: Device, i: nat, j: nat)
    requires Sized(d) && i < MAX_ENDPOINTS && j <= MAX_CLUSTERS && Packed(rows)
    ensures Packed(AddClusters(rows, d, i, j))
  {
    if j > 0 {
      hide Packed, AddAll, AttributesFor;
      AddClustersStaysPacked(rows, d, i, j - 1);
      var e := d.endpoints[i];
      AddAllStaysPacked(AddClusters(rows, d, i, j - 1), d.nodeId, e.id, e.clusters[j - 1],
                        AttributesFor(d.state, e.deviceType, e.clusters[j - 1]));
    }
  }

  lemma {:induction false} AddEndpointsStaysPacked(rows: seq<Attribute>, d: Device, i: nat)
    requires Sized(d) && i <= MAX_ENDPOINTS && Packed(rows)
    ensures Packed(AddEndpoints(rows, d, i))
  {
    if i > 0 {
      hide Packed, AddClusters;
      AddEndpointsStaysPacked(rows, d, i - 1);
      AddClustersStaysPacked(AddEndpoints(rows, d, i - 1), d, i - 1, d.endpoints[i - 1].clusterCount);
    }
  }

  lemma {:induction false} QualifiedStaysPacked(s: State, r: nat, answered: bool)
    requires Shaped(s) && r < |s.devices| && Packed(s.rows)
    ensures Packed(Qualified(s, r, answered).rows)
  {
    hide Packed, AddEndpoints;
    AddEndpointsStaysPacked(s.rows, s.devices[r], s.devices[r].endpointCount);
  }

  lemma {:induction false} StepStaysPacked(s: State, e: Event)
    requires Shaped(s) && Fits(s, e) && Packed(s.rows)
    ensures Packed(Next(s, e).rows)
  {
    forall t: State, r: nat, answered: bool | Shaped(t) && r < |t.devices| && t.rows == s.rows
      ensures Packed(Qualified(t, r, answered).rows)
    {
      QualifiedStaysPacked(t, r, answered);
    }
    hide Packed, Qualified, Relisted, Described, Filtered;
  }

  /** Over every run from cleared tables the used rows stand before the free ones. */
  lemma {:induction false} RowsStayPacked(s: State, es: seq<Event>)
    requires Cleared(s)
    ensures Packed(After(s, es).rows)
  {
    if |es| > 0 {
      hide Packed, Next;
      RowsStayPacked(s, es[..|es| - 1]);
      var t := After(s, es[..|es| - 1]);
      if Fits(t, es[|es| - 1]) {
        StepStaysPacked(t, es[|es| - 1]);
      }
    }
  }

  // ---- What the qualify process adds to one list ----

  /** The ids added for key `k` by the first `j` clusters of endpoint `i`, and how many rows they all take. */
  function GainedByClusters(d: Device, i: nat, j: nat, k: Key): seq<u16>
    requires Sized(d) && i < MAX_ENDPOINTS && j <= MAX_CLUSTERS
  {
    if j == 0 then []
    else
      var e := d.endpoints[i];
      GainedByClusters(d, i, j - 1, k)
      + if Key(d.nodeId, e.id, e.clusters[j - 1]) == k then AttributesFor(d.state, e.deviceType, e.clusters[j - 1]) else []
  }

  function RowsForClusters(d: Device, i: nat, j: nat): nat
    requires Sized(d) && i < MAX_ENDPOINTS && j <= MAX_CLUSTERS
  {
    if j == 0 then 0
    else RowsForClusters(d, i, j - 1) + |AttributesFor(d.state, d.endpoints[i].deviceType, d.endpoints[i].clusters[j - 1])|
  }

  function GainedByEndpoints(d: Device, i: nat, k: Key): seq<u16>
    requires Sized(d) && i <= MAX_ENDPOINTS
  {
    if i == 0 then []
    else GainedByEndpoints(d, i - 1, k) + GainedByClusters(d, i - 1, d.endpoints[i - 1].clusterCount, k)
  }

  function RowsForEndpoints(d: Device, i: nat): nat
    requires Sized(d) && i <= MAX_ENDPOINTS
  {
    if i == 0 then 0 else RowsForEndpoints(d, i - 1) + RowsForClusters(d, i - 1, d.endpoints[i - 1].clusterCount)
  }

  lemma {:induction false} AddClustersLists(rows: seq<Attribute>, d: Device, i: nat, j: nat, k: Key)
    requires Sized(d) && i < MAX_ENDPOINTS && j <= MAX_CLUSTERS && ValidNodeId(d.nodeId) && ValidKey(k)
    requires Packed(rows) && FreeRow(rows) + RowsForClusters(d, i, j) <= |rows|
    ensures var t := AddClusters(rows, d, i, j);
            && Packed(t) && FreeRow(t) <= FreeRow(rows) + RowsForClusters(d, i, j)
            && ListOf(t, k) == ListOf(rows, k) + GainedByClusters(d, i, j, k)
  {
    hide ListOf, FreeRow, AttributesFor, AddAll, Packed;
    if j > 0 {
      AddClustersLists(rows, d, i, j - 1, k);
      var e := d.endpoints[i];
      AddAllLists(AddClusters(rows, d, i, j - 1), d.nodeId, e.id, e.clusters[j - 1],
                  AttributesFor(d.state, e.deviceType, e.clusters[j - 1]), k);
    } else {
      assert ListOf(rows, k) + [] == ListOf(rows, k);
    }
  }

  lemma {:induction false} AddEndpointsLists(rows: seq<Attribute>, d: Device, i: nat, k: Key)
    requires Sized(d) && i <= MAX_ENDPOINTS && ValidNodeId(d.nodeId) && ValidKey(k)
    requires Packed(rows) && FreeRow(rows) + RowsForEndpoints(d, i) <= |rows|
    ensures var t := AddEndpoints(rows, d, i);
            && Packed(t) && FreeRow(t) <= FreeRow(rows) + RowsForEndpoints(d, i)
            && ListOf(t, k) == ListOf(rows, k) + GainedByEndpoints(d, i, k)
  {
    hide ListOf, FreeRow, AddClusters, GainedByClusters, RowsForClusters, Packed;
    if i > 0 {
      AddEndpointsLists(rows, d, i - 1, k);
      AddClustersLists(AddEndpoints(rows, d, i - 1), d, i - 1, d.endpoints[i - 1].clusterCount, k);
    } else {
      assert ListOf(rows, k) + [] == ListOf(rows, k);
    }
  }

  // ---- Endpoints and clusters that are listed once ----

  /** Endpoint `i` of the device is listed, has the endpoint id of `k` and lists its cluster. */
  predicate Lists(d: Device, i: nat, k: Key)
    requires Sized(d)
  {
    i < d.endpointCount && d.endpoints[i].id == k.endpoint && k.cluster in d.endpoints[i].clusters[..d.endpoints[i].clusterCount]
  }

  /** The listed endpoint ids differ, and so do the clusters that each endpoint lists. */
  predicate ListedApart(d: Device)
    requires Sized(d)
  {
    && (forall h, i :: 0 <= h < i < d.endpointCount ==> d.endpoints[h].id != d.endpoints[i].id)
    && forall i :: 0 <= i < d.endpointCount ==> Apart(d.endpoints[i].clusters[..d.endpoints[i].clusterCount])
  }

  predicate Apart(cs: seq<u16>) { forall h, i :: 0 <= h < i < |cs| ==> cs[h] != cs[i] }

  lemma {:induction false} ClustersGain(d: Device, i: nat, j: nat, k: Key)
    requires Sized(d) && i < d.endpointCount && j <= d.endpoints[i].clusterCount
    requires Apart(d.endpoints[i].clusters[..d.endpoints[i].clusterCount])
    ensures var e := d.endpoints[i];
            GainedByClusters(d, i, j, k) ==
            if k.nodeId == d.nodeId && k.endpoint == e.id && k.cluster in e.clusters[..j]
            then AttributesFor(d.state, e.deviceType, k.cluster) else []
  {
    hide AttributesFor;
    if j > 0 {
      ClustersGain(d, i, j - 1, k);
      var e := d.endpoints[i];
      var cs := e.clusters[..e.clusterCount];
      assert e.clusters[..j] == e.clusters[..j - 1] + [e.clusters[j - 1]];
      assert cs[j - 1] == e.clusters[j - 1] && forall h :: 0 <= h < j - 1 ==> cs[h] == e.clusters[..j - 1][h];
    }
  }

  lemma {:induction false} EndpointsGain(d: Device, n: nat, i: nat, k: Key)
    requires Sized(d) && n <= d.endpointCount && ListedApart(d) && k.nodeId == d.nodeId && Lists(d, i, k)
    ensures GainedByEndpoints(d, n, k) == if i < n then AttributesFor(d.state, d.endpoints[i].deviceType, k.cluster) else []
  {
    if n > 0 {
      hide AttributesFor, GainedByClusters, Apart;
      EndpointsGain(d, n - 1, i, k);
      ClustersGain(d, n - 1, d.endpoints[n - 1].clusterCount, k);
    }
  }

  lemma {:induction false} NothingGained(d: Device, n: nat, k: Key)
    requires Sized(d) && n <= d.endpointCount && ListedApart(d)
    requires k.nodeId != d.nodeId || forall i :: 0 <= i < d.endpointCount ==> !Lists(d, i, k)
    ensures GainedByEndpoints(d, n, k) == []
  {
    if n > 0 {
      hide AttributesFor, GainedByClusters, Apart;
      NothingGained(d, n - 1, k);
      ClustersGain(d, n - 1, d.endpoints[n - 1].clusterCount, k);
      assert k.nodeId != d.nodeId || !Lists(d, n - 1, k);
    }
  }

  // ---- Binding ----

  /** How many attributes of a cluster are watched on an endpoint of the given device type. */
  function Weight(deviceType: u16, cluster: u16): nat {
    if cluster in {0x0006, 0x0008, 0x0402, 0x0405, 0x0400, 0x0406} then 1
    else if cluster == 0x0300 then (if deviceType == 0x010C then 1 else if deviceType == 0x010D then 3 else 0)
    else 0
  }

  /** The weights of the first `j` clusters of endpoint `i`, and of the first `i` endpoints. */
  function ClusterWeights(d: Device, i: nat, j: nat): nat
    requires Sized(d) && i < MAX_ENDPOINTS && j <= MAX_CLUSTERS
  {
    if j == 0 then 0 else ClusterWeights(d, i, j - 1) + Weight(d.endpoints[i].deviceType, d.endpoints[i].clusters[j - 1])
  }

  function EndpointWeights(d: Device, i: nat): nat
    requires Sized(d) && i <= MAX_ENDPOINTS
  {
    if i == 0 then 0 else EndpointWeights(d, i - 1) + ClusterWeights(d, i - 1, d.endpoints[i - 1].clusterCount)
  }

  lemma {:induction false} ClusterRowsWeigh(d: Device, i: nat, j: nat)
    requires Sized(d) && i < MAX_ENDPOINTS && j <= MAX_CLUSTERS && d.state == BindCluster
    ensures RowsForClusters(d, i, j) == ClusterWeights(d, i, j)
  {
    if j > 0 {
      ClusterRowsWeigh(d, i, j - 1);
    }
  }

  lemma {:induction false} EndpointRowsWeigh(d: Device, i: nat)
    requires Sized(d) && i <= MAX_ENDPOINTS && d.state == BindCluster
    ensures RowsForEndpoints(d, i) == EndpointWeights(d, i)
  {
    if i > 0 {
      EndpointRowsWeigh(d, i - 1);
      ClusterRowsWeigh(d, i - 1, d.endpoints[i - 1].clusterCount);
    }
  }

  /** The device is about to bind, lists everything once, and the packed table has room for all its rows. */
  predicate Binds(s: State, r: nat)
    requires Shaped(s)
  {
    && r < |s.devices| && s.devices[r].state == BindCluster && ValidNodeId(s.devices[r].nodeId) && ListedApart(s.devices[r])
    && Packed(s.rows) && FreeRow(s.rows) + EndpointWeights(s.devices[r], s.devices[r].endpointCount) <= |s.rows|
  }

  /**
   * The bind state adds, for each listed cluster, behind what was there: attribute 0 for On/Off, level control,
   * temperature, humidity, illuminance and occupancy; for colour control the colour temperature of a colour temperature
   * light, that and both coordinates of an extended colour light, and nothing for others.
   */
  lemma {:induction false} BoundClusterIsWatched(s: State, r: nat, answered: bool, i: nat, k: Key)
    requires Shaped(s) && Binds(s, r) && ValidKey(k) && k.nodeId == s.devices[r].nodeId && Lists(s.devices[r], i, k)
    ensures var deviceType, t := s.devices[r].endpoints[i].deviceType, Qualified(s, r, answered);
            ListOf(t.rows, k) == ListOf(s.rows, k) +
                                 if k.cluster in {0x0006, 0x0008, 0x0402, 0x0405, 0x0400, 0x0406} then [0x0000]
                                 else if k.cluster == 0x0300 && deviceType == 0x010C then [0x0007]
                                 else if k.cluster == 0x0300 && deviceType == 0x010D then [0x0007, 0x0003, 0x0004]
                                 else []
  {
    var d := s.devices[r];
    BindRows(s, r, answered);
    hide ListOf, AddEndpoints, RowsForEndpoints, GainedByEndpoints, EndpointWeights, FreeRow, Packed, ListedApart, Qualified, Lists;
    EndpointRowsWeigh(d, d.endpointCount);
    AddEndpointsLists(s.rows, d, d.endpointCount, k);
    EndpointsGain(d, d.endpointCount, i, k);
  }

  lemma BindRows(s: State, r: nat, answered: bool)
    requires Shaped(s) && r < |s.devices| && s.devices[r].state == BindCluster
    ensures Qualified(s, r, answered).rows == AddEndpoints(s.rows, s.devices[r], s.devices[r].endpointCount)
  {
    hide AddEndpoints;
  }

  /** The lists of all other keys stay as they are, and the device is active. */
  lemma {:induction false} OtherListsStay(s: State, r: nat, answered: bool, k: Key)
    requires Shaped(s) && Binds(s, r) && ValidKey(k)
    requires k.nodeId != s.devices[r].nodeId || forall i :: 0 <= i < s.devices[r].endpointCount ==> !Lists(s.devices[r], i, k)
    ensures ListOf(Qualified(s, r, answered).rows, k) == ListOf(s.rows, k)
    ensures var t := Qualified(s, r, answered);
            t.devices == s.devices[r := s.devices[r].(state := Active)] && Packed(t.rows) && t.epArrayIndex == 0
  {
    var d := s.devices[r];
    BindRows(s, r, answered);
    BindDevice(s, r, answered);
    hide ListOf, AddEndpoints, RowsForEndpoints, GainedByEndpoints, EndpointWeights, FreeRow, Packed, ListedApart, Qualified, Lists;
    EndpointRowsWeigh(d, d.endpointCount);
    AddEndpointsLists(s.rows, d, d.endpointCount, k);
    NothingGained(d, d.endpointCount, k);
  }

  lemma BindDevice(s: State, r: nat, answered: bool)
    requires Shaped(s) && r < |s.devices| && s.devices[r].state == BindCluster
    ensures var t := Qualified(s, r, answered);
            t.devices == s.devices[r := s.devices[r].(state := Active)] && t.epArrayIndex == 0
  {
    hide AddEndpoints;
  }
}
