/** What each announce and response does to the tables, and a device followed from its announce to its attribute rows. */
module CommissionedDevices {
  import opened Bytes
  import opened Options
  import opened Devices
  import DeviceKinds
  import opened AttributeTable
  import opened Commissioning
  import opened CommissioningRuns
  import opened WatchedAttributes

  // ---- Each event on its own ----

  /** An announce is taken exactly when its ids are valid, no device has the address, and there is room. */
  lemma {:induction false} AnnounceIsTaken(s: State, n: u16, ieee: nat, answered: bool)
    requires Shaped(s)
    ensures var k, t := FreeDevice(s.devices), Next(s, Announce(n, ieee, answered));
            if 0 < n < 0xFFFB && ieee != 0 && k < |s.devices| && (forall r :: 0 <= r < |s.devices| ==> s.devices[r].ieee != ieee)
            then t.rows == s.rows
                 && t.devices == s.devices[k := Device(n, ieee, if answered then NewJoined else GetCluster, if answered then 0 else 1,
                                                       seq(MAX_ENDPOINTS, _ => EMPTY_ENDPOINT))]
                 && t.epArrayIndex == if answered then s.epArrayIndex else (s.epArrayIndex + 1) % 0x100
            else t == s
  {
    if r :| 0 <= r < |s.devices| && s.devices[r].ieee == ieee {
      assert DeviceByIeee(s.devices, ieee) <= r;
    }
  }

  /** The device that a response of node `n` is for, if it is still to be answered. */
  predicate Open(s: State, n: u16, r: nat) {
    r < |s.devices| && 0 < n < 0xFFFB && DeviceByNodeId(s.devices, n) == r && s.devices[r].state != Active
  }

  /** An endpoint list gives the first endpoints their ids, and the next descriptor is asked for. */
  lemma {:induction false} ListIsTaken(s: State, n: u16, list: seq<u8>, r: nat)
    requires Shaped(s) && Open(s, n, r) && |list| <= MAX_ENDPOINTS
    ensures var d, t := s.devices[r], Next(s, ActiveEndpoints(n, list));
            && t.rows == s.rows && t.epArrayIndex == (s.epArrayIndex + 1) % 0x100
            && |t.devices| == |s.devices| && t.devices == s.devices[r := t.devices[r]]
            && var e := t.devices[r];
            && e == Device(d.nodeId, d.ieee, GetCluster, |list|, e.endpoints) && |e.endpoints| == MAX_ENDPOINTS
            && forall i :: 0 <= i < MAX_ENDPOINTS ==>
              e.endpoints[i] == Endpoint(if i < |list| then list[i] else d.endpoints[i].id, d.endpoints[i].deviceType,
                                         d.endpoints[i].clusterCount, d.endpoints[i].clusters)
  {
  }

  /** The record of a described device, without the functions that make it. */
  predicate DescribedAs(d: Device, x: nat, deviceType: u16, clusters: seq<u16>, e: Device)
    requires Sized(d) && Sized(e) && x < MAX_ENDPOINTS
  {
    var f := DeviceKinds.Filtered(clusters);
    && e == Device(d.nodeId, d.ieee, if d.endpoints[x].id == d.endpoints[0].id then ReadAttribute else GetCluster, d.endpointCount,
                   e.endpoints)
    && (forall i :: 0 <= i < MAX_ENDPOINTS && i != x ==> e.endpoints[i] == d.endpoints[i])
    && e.endpoints[x] == Endpoint(d.endpoints[x].id, deviceType, |f|, e.endpoints[x].clusters)
    && |f| <= MAX_CLUSTERS && e.endpoints[x].clusters[..|f|] == f && e.endpoints[x].clusters[|f|..] == d.endpoints[x].clusters[|f|..]
  }

  /** A descriptor sets type and filtered clusters of the endpoint; for the first one the model id is asked for. */
  lemma {:induction false} DescriptorIsTaken(s: State, n: u16, id: u8, deviceType: u16, clusters: seq<u16>, r: nat, x: nat)
    requires Shaped(s) && Open(s, n, r) && ValidEndpointId(id) && |clusters| <= MAX_CLUSTERS
    requires x == EndpointById(s.devices[r].endpoints, id) < MAX_ENDPOINTS
    ensures var e := SimpleDescriptor(n, id, deviceType, clusters);
            && Fits(s, e)
            && var t := Next(s, e);
            && |t.devices| == |s.devices| && t.devices == s.devices[r := t.devices[r]]
            && DescribedAs(s.devices[r], x, deviceType, clusters, t.devices[r])
            && if x == 0 then t.rows == AddEndpoints(s.rows, t.devices[r], t.devices[r].endpointCount) && t.epArrayIndex == s.epArrayIndex
               else t.rows == s.rows && t.epArrayIndex == (s.epArrayIndex + 1) % 0x100
  {
    FilteredIsShorter(clusters);
    hide DeviceKinds.Filtered, AddEndpoints;
  }

  predicate IsActive(s: State, n: u16) {
    DeviceByNodeId(s.devices, n) < |s.devices| && s.devices[DeviceByNodeId(s.devices, n)].state == Active
  }

  /** Responses of unknown nodes and of active devices, and values other than an expected model id. */
  predicate Idle(s: State, e: Event) {
    match e
    case Announce(_, _, _) => false
    case ActiveEndpoints(n, _) => IsActive(s, n) || forall r :: 0 <= r < |s.devices| ==> s.devices[r].nodeId != n
    case SimpleDescriptor(n, _, _, _) => IsActive(s, n)
    case ReadResponse(a) => a !in s.rows || a.cluster != 0x0000 || a.attribute != 0x0005 || IsActive(s, a.nodeId)
  }

  lemma {:induction false} IdleResponseChangesNothing(s: State, e: Event)
    requires Shaped(s) && Fits(s, e) && Idle(s, e)
    ensures Next(s, e) == s
  {
    hide Qualified, DeviceKinds.Filtered, Relisted, Described;
  }

  // ---- The rows of the read state ----

  lemma {:induction false} ReadClusterRows(d: Device, i: nat, j: nat)
    requires Sized(d) && i < d.endpointCount && j <= d.endpoints[i].clusterCount && d.state == ReadAttribute
    requires Apart(d.endpoints[i].clusters[..d.endpoints[i].clusterCount])
    ensures RowsForClusters(d, i, j) == if 0x0000 in d.endpoints[i].clusters[..j] then 1 else 0
  {
    if j > 0 {
      ReadClusterRows(d, i, j - 1);
      var e := d.endpoints[i];
      var cs := e.clusters[..e.clusterCount];
      assert e.clusters[..j] == e.clusters[..j - 1] + [e.clusters[j - 1]];
      assert cs[j - 1] == e.clusters[j - 1] && forall h :: 0 <= h < j - 1 ==> cs[h] == e.clusters[..j - 1][h];
    }
  }

  lemma {:induction false} ReadRowsFit(d: Device, i: nat)
    requires Sized(d) && i <= d.endpointCount && d.state == ReadAttribute && ListedApart(d)
    ensures RowsForEndpoints(d, i) <= i
  {
    if i > 0 {
      ReadRowsFit(d, i - 1);
      ReadClusterRows(d, i - 1, d.endpoints[i - 1].clusterCount);
    }
  }

  /** The read state adds the model id for each listed Basic cluster and nothing else. */
  lemma {:induction false} BasicIsAskedFor(rows: seq<Attribute>, d: Device, i: nat, k: Key)
    requires Sized(d) && d.state == ReadAttribute && ListedApart(d) && ValidNodeId(d.nodeId)
    requires Packed(rows) && FreeRow(rows) + d.endpointCount <= |rows|
    requires ValidKey(k) && k.nodeId == d.nodeId && Lists(d, i, k)
    ensures var t := AddEndpoints(rows, d, d.endpointCount);
            && Packed(t) && FreeRow(t) <= FreeRow(rows) + d.endpointCount
            && ListOf(t, k) == ListOf(rows, k) + if k.cluster == 0x0000 then [0x0005] else []
  {
    ReadRowsFit(d, d.endpointCount);
    hide ListOf, AddEndpoints, RowsForEndpoints, GainedByEndpoints, FreeRow, Packed;
    AddEndpointsLists(rows, d, d.endpointCount, k);
    EndpointsGain(d, d.endpointCount, i, k);
  }

  /** What is listed has a row. */
  lemma {:induction false} ListedIsInTable(rows: seq<Attribute>, k: Key, id: u16)
    requires id in ListOf(rows, k)
    ensures Attribute(k.nodeId, k.endpoint, k.cluster, id) in rows
  {
    if id in ListOf(rows[..|rows| - 1], k) {
      ListedIsInTable(rows[..|rows| - 1], k, id);
    } else {
      assert rows[|rows| - 1] == Attribute(k.nodeId, k.endpoint, k.cluster, id);
    }
  }

  // ---- A device with one described endpoint ----

  lemma {:induction false} WeightsFit(d: Device, j: nat)
    requires Sized(d) && 0 < d.endpointCount && j <= d.endpoints[0].clusterCount
    requires Apart(d.endpoints[0].clusters[..d.endpoints[0].clusterCount])
    ensures ClusterWeights(d, 0, j) <= j + if 0x0300 in d.endpoints[0].clusters[..j] then 2 else 0
  {
    if j > 0 {
      WeightsFit(d, j - 1);
      var e := d.endpoints[0];
      var cs := e.clusters[..e.clusterCount];
      assert e.clusters[..j] == e.clusters[..j - 1] + [e.clusters[j - 1]];
      assert cs[j - 1] == e.clusters[j - 1] && forall h :: 0 <= h < j - 1 ==> cs[h] == e.clusters[..j - 1][h];
    }
  }

  lemma {:induction false} OnlyFirstWeighs(d: Device, i: nat)
    requires Sized(d) && 1 <= i <= d.endpointCount && ListedApart(d)
    requires forall x :: 1 <= x < MAX_ENDPOINTS ==> d.endpoints[x].clusterCount == 0
    ensures EndpointWeights(d, i) <= d.endpoints[0].clusterCount + 2
  {
    if i == 1 {
      assert EndpointWeights(d, 0) == 0;
      WeightsFit(d, d.endpoints[0].clusterCount);
    } else {
      OnlyFirstWeighs(d, i - 1);
      assert ClusterWeights(d, i - 1, 0) == 0;
    }
  }

  lemma {:induction false} FilteredMeans(cs: seq<u16>)
    ensures forall c :: c in DeviceKinds.Filtered(cs) <==> c in cs && c !in {0x0003, 0x0004, 0x0005, 0x1000, 0xFFFF}
    ensures Apart(cs) ==> Apart(DeviceKinds.Filtered(cs))
    ensures |DeviceKinds.Filtered(cs)| <= |cs|
  {
    if |cs| > 0 {
      var p, c := cs[..|cs| - 1], cs[|cs| - 1];
      FilteredMeans(p);
      assert cs == p + [c];
      if Apart(cs) {
        assert Apart(p) by {
          assert forall i :: 0 <= i < |p| ==> p[i] == cs[i];
        }
        assert c !in p;
      }
    }
  }

  /** The ids that an active device is watched by in a cluster of an endpoint. */
  function WatchedIds(deviceType: u16, cluster: u16): seq<u16> {
    if cluster == 0x0000 then [0x0005]
    else if cluster in {0x0006, 0x0008, 0x0402, 0x0405, 0x0400, 0x0406} then [0x0000]
    else if cluster == 0x0300 && deviceType == 0x010C then [0x0007]
    else if cluster == 0x0300 && deviceType == 0x010D then [0x0007, 0x0003, 0x0004]
    else []
  }

  /** A known device that has not been described, and room for the rows of its first endpoint. */
  predicate Awaits(s: State, n: u16, r: nat, list: seq<u8>, clusters: seq<u16>)
    requires Shaped(s)
  {
    && Open(s, n, r) && (forall x :: 0 <= x < MAX_ENDPOINTS ==> s.devices[r].endpoints[x].clusterCount == 0)
    && 1 <= |list| <= MAX_ENDPOINTS && ValidEndpointId(list[0]) && (forall h, i :: 0 <= h < i < |list| ==> list[h] != list[i])
    && |clusters| <= MAX_CLUSTERS && Apart(clusters) && 0x0000 in clusters
    && Packed(s.rows) && FreeRow(s.rows) + |list| + |clusters| + 2 <= |s.rows|
  }

  /** The record after the endpoint list and the descriptor. */
  predicate Waits(d: Device, n: u16, list: seq<u8>, deviceType: u16, clusters: seq<u16>) {
    && Sized(d) && d.nodeId == n && d.endpointCount == |list| > 0
    && d.endpoints[0].id == list[0] && d.endpoints[0].deviceType == deviceType
    && d.endpoints[0].clusterCount <= |clusters|
    && d.endpoints[0].clusters[..d.endpoints[0].clusterCount] == DeviceKinds.Filtered(clusters)
    && ListedApart(d) && (forall x :: 1 <= x < MAX_ENDPOINTS ==> d.endpoints[x].clusterCount == 0)
  }

  lemma {:induction false} DescribedWaits(s: State, n: u16, r: nat, list: seq<u8>, deviceType: u16, clusters: seq<u16>)
    requires Shaped(s) && Awaits(s, n, r, list, clusters)
    ensures var s1 := Next(s, ActiveEndpoints(n, list));
            var e2 := SimpleDescriptor(n, list[0], deviceType, clusters);
            && Fits(s1, e2)
            && var s2 := Next(s1, e2);
            && |s2.devices| == |s.devices| && s2.devices == s.devices[r := s2.devices[r]] && s2.devices[r].state == ReadAttribute
            && s2.devices[r].ieee == s.devices[r].ieee && Open(s2, n, r)
            && Waits(s2.devices[r], n, list, deviceType, clusters)
            && s2.rows == AddEndpoints(s.rows, s2.devices[r], |list|)
  {
    hide DeviceKinds.Filtered, AddEndpoints, Packed, FreeRow;
    ListIsTaken(s, n, list, r);
    var s1 := Next(s, ActiveEndpoints(n, list));
    LookupStays(s.devices, r, s1.devices[r], n);
    EndpointByIdIs(s1.devices[r].endpoints, list[0], 0);
    DescriptorIsTaken(s1, n, list[0], deviceType, clusters, r, 0);
    var s2 := Next(s1, SimpleDescriptor(n, list[0], deviceType, clusters));
    LookupStays(s1.devices, r, s2.devices[r], n);
    hide Next;
    FilteredMeans(clusters);
    OneIsApart(s2.devices[r], list, DeviceKinds.Filtered(clusters));
  }

  lemma {:induction false} OneIsApart(d: Device, list: seq<u8>, f: seq<u16>)
    requires Sized(d) && d.endpointCount == |list| && (forall i :: 0 <= i < |list| ==> d.endpoints[i].id == list[i])
    requires (forall h, i :: 0 <= h < i < |list| ==> list[h] != list[i]) && Apart(f)
    requires d.endpoints[0].clusters[..d.endpoints[0].clusterCount] == f
    requires forall x :: 1 <= x < MAX_ENDPOINTS ==> d.endpoints[x].clusterCount == 0
    ensures ListedApart(d)
  {
    forall i | 0 <= i < d.endpointCount
      ensures Apart(d.endpoints[i].clusters[..d.endpoints[i].clusterCount])
    {
    }
  }

  /** The device of node `n` answers with its endpoints, a descriptor of the first and its model id, and that leads to `t`. */
  predicate Answered(s: State, n: u16, list: seq<u8>, deviceType: u16, clusters: seq<u16>, t: State)
    requires Shaped(s) && 1 <= |list| <= MAX_ENDPOINTS
  {
    var s1, e2 := Next(s, ActiveEndpoints(n, list)), SimpleDescriptor(n, list[0], deviceType, clusters);
    && Fits(s1, e2)
    && var s2, e3 := Next(s1, e2), ReadResponse(Attribute(n, list[0], 0x0000, 0x0005));
    Fits(s2, e3) && t == Next(s2, e3)
  }

  /** Only device `r` changed; it is active; and the cluster is watched by its ids behind what was in the table. */
  predicate Watched(s: State, t: State, r: nat, k: Key, deviceType: u16) {
    && r < |s.devices| == |t.devices| && t.devices == s.devices[r := t.devices[r]]
    && t.devices[r].state == Active && t.devices[r].nodeId == k.nodeId && t.devices[r].ieee == s.devices[r].ieee
    && ListOf(t.rows, k) == ListOf(s.rows, k) + WatchedIds(deviceType, k.cluster)
  }

  /**
   * A device that answers with its endpoints, a descriptor of the first with the Basic cluster, and its model id becomes
   * active, and each cluster of the descriptor is then watched by the ids of its kind: the model id for Basic, one value
   * for On/Off, level and sensors, the colours that a colour light has.
   */
  lemma {:induction false} AnsweredClusterIsWatched(s: State, n: u16, r: nat, list: seq<u8>, deviceType: u16, clusters: seq<u16>, c: u16)
    returns (t: State)
    requires Shaped(s) && Awaits(s, n, r, list, clusters)
    requires c in clusters && c !in {0x0003, 0x0004, 0x0005, 0x1000, 0xFFFF}
    ensures Answered(s, n, list, deviceType, clusters, t) && Watched(s, t, r, Key(n, list[0], c), deviceType)
  {
    DescribedWaits(s, n, r, list, deviceType, clusters);
    var s2 := Next(Next(s, ActiveEndpoints(n, list)), SimpleDescriptor(n, list[0], deviceType, clusters));
    hide Next, Fits, Watched;
    FilteredMeans(clusters);
    WaitingIsBound(s, s2, n, r, list, deviceType, clusters, c);
    t := Next(s2, ReadResponse(Attribute(n, list[0], 0x0000, 0x0005)));
  }

  /** The rows after the descriptor. */
  lemma {:induction false} WaitingRows(rows: seq<Attribute>, d: Device, n: u16, list: seq<u8>, deviceType: u16, clusters: seq<u16>, c: u16)
    requires Waits(d, n, list, deviceType, clusters) && d.state == ReadAttribute && ValidNodeId(n) && ValidEndpointId(list[0])
    requires |list| <= MAX_ENDPOINTS && Packed(rows) && FreeRow(rows) + |list| <= |rows|
    requires c in DeviceKinds.Filtered(clusters) && 0x0000 in DeviceKinds.Filtered(clusters)
    ensures var t, k := AddEndpoints(rows, d, |list|), Key(n, list[0], c);
            && Lists(d, 0, k) && Packed(t) && FreeRow(t) <= FreeRow(rows) + |list| && Attribute(n, list[0], 0x0000, 0x0005) in t
            && ListOf(t, k) == ListOf(rows, k) + if c == 0x0000 then [0x0005] else []
  {
    hide DeviceKinds.Filtered;
    var k, basic := Key(n, list[0], c), Key(n, list[0], 0x0000);
    assert Lists(d, 0, k) && Lists(d, 0, basic);
    hide AddEndpoints, ListOf, FreeRow, Packed, Waits, Lists;
    BasicIsAskedFor(rows, d, 0, k);
    BasicIsAskedFor(rows, d, 0, basic);
    ListedIsInTable(AddEndpoints(rows, d, |list|), basic, 0x0005);
  }

  /** The model id response starts the bind state. */
  lemma {:induction false} ModelIdBinds(s: State, n: u16, id: u8, r: nat)
    requires Shaped(s) && Open(s, n, r) && ValidEndpointId(id) && Attribute(n, id, 0x0000, 0x0005) in s.rows
    ensures var e := ReadResponse(Attribute(n, id, 0x0000, 0x0005));
            Fits(s, e) && Next(s, e) == Qualified(s.(devices := s.devices[r := s.devices[r].(state := BindCluster)]), r, false)
  {
    hide Qualified;
  }

  lemma {:induction false} WaitingIsBound(s: State, s2: State, n: u16, r: nat, list: seq<u8>, deviceType: u16, clusters: seq<u16>, c: u16)
    requires Shaped(s) && Awaits(s, n, r, list, clusters) && Shaped(s2) && Open(s2, n, r)
    requires |s2.devices| == |s.devices| && s2.devices == s.devices[r := s2.devices[r]] && s2.devices[r].state == ReadAttribute
    requires s2.devices[r].ieee == s.devices[r].ieee
    requires Waits(s2.devices[r], n, list, deviceType, clusters)
    requires s2.rows == AddEndpoints(s.rows, s2.devices[r], |list|)
    requires c in DeviceKinds.Filtered(clusters) && 0x0000 in DeviceKinds.Filtered(clusters)
    ensures var e3 := ReadResponse(Attribute(n, list[0], 0x0000, 0x0005));
            Fits(s2, e3) && Watched(s, Next(s2, e3), r, Key(n, list[0], c), deviceType)
  {
    var d, k := s2.devices[r], Key(n, list[0], c);
    var u := s2.(devices := s2.devices[r := d.(state := BindCluster)]);
    WaitingRows(s.rows, d, n, list, deviceType, clusters, c);
    SameLists(d, d.(state := BindCluster), |list|);
    hide *;
    ModelIdBinds(s2, n, list[0], r);
    WaitingBinds(s, s2, n, r, list, deviceType, clusters);
    BindingWatches(u, r, k);
    WatchedInTheEnd(s, s2, Qualified(u, r, false), r, k, deviceType);
  }

  lemma {:induction false} WatchedInTheEnd(s: State, s2: State, t: State, r: nat, k: Key, deviceType: u16)
    requires r < |s.devices| == |s2.devices| && s2.devices == s.devices[r := s2.devices[r]]
    requires s2.devices[r].ieee == s.devices[r].ieee && s2.devices[r].nodeId == k.nodeId
    requires t.devices == s2.devices[r := s2.devices[r].(state := BindCluster)][r := s2.devices[r].(state := Active)]
    requires ListOf(s2.rows, k) == ListOf(s.rows, k) + if k.cluster == 0x0000 then [0x0005] else []
    requires ListOf(t.rows, k) == ListOf(s2.rows, k) + if k.cluster == 0x0000 then [] else WatchedIds(deviceType, k.cluster)
    ensures Watched(s, t, r, k, deviceType)
  {
    hide ListOf;
  }

  lemma {:induction false} WaitingBinds(s: State, s2: State, n: u16, r: nat, list: seq<u8>, deviceType: u16, clusters: seq<u16>)
    requires Shaped(s) && Awaits(s, n, r, list, clusters) && Shaped(s2) && Open(s2, n, r)
    requires Waits(s2.devices[r], n, list, deviceType, clusters)
    requires Packed(s2.rows) && FreeRow(s2.rows) <= FreeRow(s.rows) + |list| && |s2.rows| == |s.rows|
    ensures var u := s2.(devices := s2.devices[r := s2.devices[r].(state := BindCluster)]);
            Shaped(u) && Binds(u, r)
  {
    var d := s2.devices[r];
    hide DeviceKinds.Filtered, FreeRow, Packed, ListedApart, EndpointWeights;
    OnlyFirstWeighs(d, |list|);
    SameLists(d, d.(state := BindCluster), |list|);
  }

  /** Both laws of the bind state for a cluster that is listed. */
  lemma {:induction false} BindingWatches(s: State, r: nat, k: Key)
    requires Shaped(s) && Binds(s, r) && ValidKey(k) && k.nodeId == s.devices[r].nodeId && Lists(s.devices[r], 0, k)
    ensures var t := Qualified(s, r, false);
            && t.devices == s.devices[r := s.devices[r].(state := Active)]
            && ListOf(t.rows, k) == ListOf(s.rows, k) +
                                    if k.cluster == 0x0000 then [] else WatchedIds(s.devices[r].endpoints[0].deviceType, k.cluster)
  {
    BoundClusterIsWatched(s, r, false, 0, k);
    OtherListsStay(s, r, false, Key(if k.nodeId == 1 then 2 else 1, 1, 0));
    hide Qualified, ListOf;
  }

  /** The state of a device has no part in what it lists. */
  lemma {:induction false} SameLists(d: Device, e: Device, i: nat)
    requires Sized(d) && i <= MAX_ENDPOINTS && e == d.(state := e.state)
    ensures Sized(e) && EndpointWeights(e, i) == EndpointWeights(d, i) && (ListedApart(d) <==> ListedApart(e))
    ensures forall k, x :: Lists(d, x, k) <==> Lists(e, x, k)
  {
    if i > 0 {
      SameLists(d, e, i - 1);
      SameClusters(d, e, i - 1, d.endpoints[i - 1].clusterCount);
    }
  }

  lemma {:induction false} SameClusters(d: Device, e: Device, i: nat, j: nat)
    requires Sized(d) && Sized(e) && i < MAX_ENDPOINTS && j <= MAX_CLUSTERS && e == d.(state := e.state)
    ensures ClusterWeights(e, i, j) == ClusterWeights(d, i, j)
  {
    if j > 0 {
      SameClusters(d, e, i, j - 1);
    }
  }

  /** From the announce of an unknown device to its rows. */
  lemma {:induction false} AnnouncedDeviceIsWatched(s: State, n: u16, ieee: nat, answered: bool, list: seq<u8>, deviceType: u16,
                                                    clusters: seq<u16>, c: u16) returns (t: State)
    requires Shaped(s) && ValidNodeId(n) && ieee != 0 && FreeDevice(s.devices) < |s.devices|
    requires forall r :: 0 <= r < |s.devices| ==> s.devices[r].ieee != ieee && s.devices[r].nodeId != n
    requires 1 <= |list| <= MAX_ENDPOINTS && ValidEndpointId(list[0]) && (forall h, i :: 0 <= h < i < |list| ==> list[h] != list[i])
    requires |clusters| <= MAX_CLUSTERS && Apart(clusters) && 0x0000 in clusters
    requires Packed(s.rows) && FreeRow(s.rows) + |list| + |clusters| + 2 <= |s.rows|
    requires c in clusters && c !in {0x0003, 0x0004, 0x0005, 0x1000, 0xFFFF}
    ensures Answered(Next(s, Announce(n, ieee, answered)), n, list, deviceType, clusters, t)
    ensures var r, k := FreeDevice(s.devices), Key(n, list[0], c);
            && |t.devices| == |s.devices| && t.devices == s.devices[r := t.devices[r]]
            && t.devices[r].state == Active && t.devices[r].nodeId == n && t.devices[r].ieee == ieee
            && ListOf(t.rows, k) == ListOf(s.rows, k) + WatchedIds(deviceType, c)
  {
    AnnounceIsTaken(s, n, ieee, answered);
    var r, s0 := FreeDevice(s.devices), Next(s, Announce(n, ieee, answered));
    DeviceByNodeIdIs(s0.devices, n, r);
    hide Next, Fits, ListOf, Packed, FreeRow, Answered;
    t := AnsweredClusterIsWatched(s0, n, r, list, deviceType, clusters, c);
    assert t.devices == s.devices[r := t.devices[r]];
  }
}
