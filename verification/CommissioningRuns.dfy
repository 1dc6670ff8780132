/** Whole runs of announces and responses: the order in which an active device has answered, and its stability. */
module CommissioningRuns {
  import opened Bytes
  import opened Devices
  import opened Commissioning
  import DeviceKinds

  /** The tables as `vZDM_ClearAllDeviceTables` leaves them. */
  predicate Cleared(s: State) {
    && Shaped(s)
    && (forall r :: 0 <= r < |s.devices| ==>
          s.devices[r].nodeId == 0 && s.devices[r].state == Null
          && forall x :: 0 <= x < MAX_ENDPOINTS ==> s.devices[r].endpoints[x].id == 0)
    && forall q :: 0 <= q < |s.rows| ==> s.rows[q].nodeId == 0
  }

  predicate FitsAll(s: State, es: seq<Event>)
    requires Shaped(s)
  {
    |es| == 0 || (FitsAll(s, es[..|es| - 1]) && Fits(After(s, es[..|es| - 1]), es[|es| - 1]))
  }

  /** The state after a run. */
  function After(s: State, es: seq<Event>): (t: State)
    requires Shaped(s)
    ensures Shaped(t) && |t.devices| == |s.devices| && |t.rows| == |s.rows|
  {
    if |es| == 0 then s
    else
      var t := After(s, es[..|es| - 1]);
      if Fits(t, es[|es| - 1]) then Next(t, es[|es| - 1]) else t
  }

  // ---- The answers of device `r` that move it forward ----

  predicate HandledFor(s: State, nodeId: u16, r: nat) {
    ValidNodeId(nodeId) && r < |s.devices| && DeviceByNodeId(s.devices, nodeId) == r && s.devices[r].state != Active
  }

  /** An active-endpoint response of device `r`. */
  predicate EndpointsOf(s: State, e: Event, r: nat) { e.ActiveEndpoints? && HandledFor(s, e.nodeId, r) }

  /** A simple descriptor of device `r` for its first endpoint. */
  predicate DescriptorOf(s: State, e: Event, r: nat)
    requires Shaped(s)
  {
    e.SimpleDescriptor? && HandledFor(s, e.nodeId, r) && e.endpoint == s.devices[r].endpoints[0].id
  }

  /** A read response of device `r` with its model id. */
  predicate ModelIdOf(s: State, e: Event, r: nat) {
    && e.ReadResponse? && HandledFor(s, e.attribute.nodeId, r)
    && e.attribute.cluster == CLUSTER_BASIC && e.attribute.attribute == ATTRIBUTE_BASIC_MODEL_ID
  }

  /** The devices seen to have answered with their endpoints; then with a descriptor; then with their model id. */
  datatype Seen = Seen(endpoints: set<nat>, descriptor: set<nat>, modelId: set<nat>)

  const NOTHING_SEEN: Seen := Seen({}, {}, {})

  function Saw(seen: Seen, s: State, e: Event): Seen
    requires Shaped(s)
  {
    match e
    case Announce(_, _, _) => seen
    case ActiveEndpoints(n, _) =>
      var r := DeviceByNodeId(s.devices, n);
      if EndpointsOf(s, e, r) then seen.(endpoints := seen.endpoints + {r}) else seen
    case SimpleDescriptor(n, _, _, _) =>
      var r := DeviceByNodeId(s.devices, n);
      if DescriptorOf(s, e, r) && r in seen.endpoints then seen.(descriptor := seen.descriptor + {r}) else seen
    case ReadResponse(a) =>
      var r := DeviceByNodeId(s.devices, a.nodeId);
      if ModelIdOf(s, e, r) && r in seen.descriptor then seen.(modelId := seen.modelId + {r}) else seen
  }

  function SeenIn(s: State, es: seq<Event>): Seen
    requires Shaped(s)
  {
    if |es| == 0 then NOTHING_SEEN else Saw(SeenIn(s, es[..|es| - 1]), After(s, es[..|es| - 1]), es[|es| - 1])
  }

  // ---- The invariant ----

  /** The devices of the table stand before its free entries, have valid node ids and different IEEE addresses. */
  predicate Occupied(s: State) {
    && (forall r :: 0 <= r < |s.devices| && s.devices[r].nodeId == 0 ==> s.devices[r].state == Null)
    && (forall r :: 0 <= r < |s.devices| && s.devices[r].nodeId != 0 ==> s.devices[r].ieee != 0)
    && (forall r, q :: 0 <= r < q < |s.devices| && s.devices[q].nodeId != 0 ==> s.devices[r].nodeId != 0)
    && forall r, q :: 0 <= r < q < |s.devices| && s.devices[q].nodeId != 0 ==> s.devices[r].ieee != s.devices[q].ieee
  }

  predicate IsModelIdRow(a: Attribute) {
    a.nodeId != 0 && a.cluster == CLUSTER_BASIC && a.attribute == ATTRIBUTE_BASIC_MODEL_ID
  }

  /** Endpoint ids, model id rows and the active state exist only for devices that have come that far. */
  predicate Backed(s: State, seen: Seen)
    requires Shaped(s)
  {
    && (forall r, x :: 0 <= r < |s.devices| && 0 <= x < MAX_ENDPOINTS && s.devices[r].endpoints[x].id != 0 ==> r in seen.endpoints)
    && RowsBacked(s.rows, s.devices, seen)
    && forall r :: 0 <= r < |s.devices| && s.devices[r].state == Active ==> r in seen.modelId
  }

  predicate RowsBacked(rows: seq<Attribute>, ds: seq<Device>, seen: Seen) {
    forall q :: 0 <= q < |rows| && IsModelIdRow(rows[q]) ==>
      DeviceByNodeId(ds, rows[q].nodeId) < |ds| && DeviceByNodeId(ds, rows[q].nodeId) in seen.descriptor
  }

  // ---- What the qualify process adds ----

  /** Every row of `after` was there or belongs to node `n`, and is a model id row only if `models`. */
  predicate Grown(before: seq<Attribute>, after: seq<Attribute>, n: u16, models: bool) {
    && |after| == |before|
    && forall q :: 0 <= q < |after| ==> after[q] == before[q] || (after[q].nodeId == n && (models || !IsModelIdRow(after[q])))
  }

  lemma {:induction false} AddAllGrows(rows: seq<Attribute>, n: u16, endpoint: u8, cluster: u16, attributes: seq<u16>, models: bool)
    requires models || cluster != CLUSTER_BASIC || ATTRIBUTE_BASIC_MODEL_ID !in attributes
    ensures Grown(rows, AddAll(rows, n, endpoint, cluster, attributes), n, models)
  {
    if |attributes| > 0 {
      AddAllGrows(rows, n, endpoint, cluster, attributes[..|attributes| - 1], models);
    }
  }

  lemma {:induction false} AddClustersGrows(rows: seq<Attribute>, d: Device, i: nat, j: nat)
    requires Sized(d) && i < MAX_ENDPOINTS && j <= MAX_CLUSTERS
    ensures Grown(rows, AddClusters(rows, d, i, j), d.nodeId, d.state == ReadAttribute)
  {
    if j > 0 {
      AddClustersGrows(rows, d, i, j - 1);
      var e := d.endpoints[i];
      AddAllGrows(AddClusters(rows, d, i, j - 1), d.nodeId, e.id, e.clusters[j - 1],
                  AttributesFor(d.state, e.deviceType, e.clusters[j - 1]), d.state == ReadAttribute);
    }
  }

  lemma {:induction false} AddEndpointsGrows(rows: seq<Attribute>, d: Device, i: nat)
    requires Sized(d) && i <= MAX_ENDPOINTS
    ensures Grown(rows, AddEndpoints(rows, d, i), d.nodeId, d.state == ReadAttribute)
  {
    if i > 0 {
      AddEndpointsGrows(rows, d, i - 1);
      AddClustersGrows(AddEndpoints(rows, d, i - 1), d, i - 1, d.endpoints[i - 1].clusterCount);
    }
  }

  lemma QualifiedEffect(s: State, r: nat, answered: bool)
    requires Shaped(s) && r < |s.devices|
    ensures var d, t := s.devices[r], Qualified(s, r, answered);
            && t.devices == s.devices[r := t.devices[r]]
            && t.devices[r].nodeId == d.nodeId && t.devices[r].ieee == d.ieee && t.devices[r].endpoints == d.endpoints
            && t.devices[r].state == (if d.state == NewJoined && !answered then GetCluster
                                      else if d.state == BindCluster then Active else d.state)
            && Grown(s.rows, t.rows, d.nodeId, d.state == ReadAttribute)
  {
    var d := s.devices[r];
    AddEndpointsGrows(s.rows, d, d.endpointCount);
  }

  lemma LookupStays(ds: seq<Device>, r: nat, d: Device, n: u16)
    requires r < |ds| && d.nodeId == ds[r].nodeId
    ensures DeviceByNodeId(ds[r := d], n) == DeviceByNodeId(ds, n)
  {
    DeviceByNodeIdIs(ds[r := d], n, DeviceByNodeId(ds, n));
  }

  /** A new entry in the first free place hides no other. */
  lemma LookupBelowFree(s: State, k: nat, d: Device, n: u16)
    requires Occupied(s) && k == FreeDevice(s.devices) < |s.devices| && n != 0 && DeviceByNodeId(s.devices, n) < |s.devices|
    ensures DeviceByNodeId(s.devices[k := d], n) == DeviceByNodeId(s.devices, n)
  {
    DeviceByNodeIdIs(s.devices[k := d], n, DeviceByNodeId(s.devices, n));
  }

  // ---- The invariant is kept ----

  predicate Within(a: Seen, b: Seen) {
    a.endpoints <= b.endpoints && a.descriptor <= b.descriptor && a.modelId <= b.modelId
  }

  lemma RowsStayBacked(before: seq<Attribute>, after: seq<Attribute>, ds: seq<Device>, seen: Seen, seen': Seen, n: u16, models: bool)
    requires RowsBacked(before, ds, seen) && Within(seen, seen') && Grown(before, after, n, models)
    requires models ==> DeviceByNodeId(ds, n) < |ds| && DeviceByNodeId(ds, n) in seen'.descriptor
    ensures RowsBacked(after, ds, seen')
  {
    forall q | 0 <= q < |after| && IsModelIdRow(after[q])
      ensures DeviceByNodeId(ds, after[q].nodeId) < |ds| && DeviceByNodeId(ds, after[q].nodeId) in seen'.descriptor
    {
      if after[q] == before[q] {
        assert IsModelIdRow(before[q]);
      }
    }
  }

  lemma RowsBackedAfterUpdate(rows: seq<Attribute>, ds: seq<Device>, seen: Seen, r: nat, d: Device)
    requires RowsBacked(rows, ds, seen) && r < |ds| && d.nodeId == ds[r].nodeId
    ensures RowsBacked(rows, ds[r := d], seen)
  {
    forall q | 0 <= q < |rows| && IsModelIdRow(rows[q])
      ensures DeviceByNodeId(ds[r := d], rows[q].nodeId) == DeviceByNodeId(ds, rows[q].nodeId)
    {
      LookupStays(ds, r, d, rows[q].nodeId);
    }
  }

  lemma RowsBackedAfterJoin(s: State, seen: Seen, k: nat, d: Device)
    requires Occupied(s) && RowsBacked(s.rows, s.devices, seen) && k == FreeDevice(s.devices) < |s.devices|
    ensures RowsBacked(s.rows, s.devices[k := d], seen)
  {
    forall q | 0 <= q < |s.rows| && IsModelIdRow(s.rows[q])
      ensures DeviceByNodeId(s.devices[k := d], s.rows[q].nodeId) == DeviceByNodeId(s.devices, s.rows[q].nodeId)
    {
      LookupBelowFree(s, k, d, s.rows[q].nodeId);
    }
  }

  /** A handler that works on device `r` keeps the invariant if what it gives the device is backed. */
  lemma HandledKeeps(s: State, u: State, answered: bool, seen: Seen, seen': Seen, r: nat)
    requires Shaped(s) && Shaped(u) && Occupied(s) && Backed(s, seen) && Within(seen, seen')
    requires r < |s.devices| && s.devices[r].nodeId != 0 && DeviceByNodeId(s.devices, s.devices[r].nodeId) == r
    requires |u.devices| == |s.devices| && u.devices == s.devices[r := u.devices[r]] && u.rows == s.rows
    requires u.devices[r].nodeId == s.devices[r].nodeId && u.devices[r].ieee == s.devices[r].ieee
    requires forall x :: 0 <= x < MAX_ENDPOINTS && u.devices[r].endpoints[x].id != 0 ==> r in seen'.endpoints
    requires u.devices[r].state == ReadAttribute ==> r in seen'.descriptor
    requires u.devices[r].state == BindCluster || u.devices[r].state == Active ==> r in seen'.modelId
    ensures Occupied(Qualified(u, r, answered)) && Backed(Qualified(u, r, answered), seen')
  {
    hide Qualified, DeviceByNodeId, AddEndpoints, IsModelIdRow;
    QualifiedEffect(u, r, answered);
    var t := Qualified(u, r, answered);
    RowsStayBacked(s.rows, t.rows, s.devices, seen, seen', s.devices[r].nodeId, u.devices[r].state == ReadAttribute);
    RowsBackedAfterUpdate(t.rows, s.devices, seen', r, t.devices[r]);
    assert t.devices == s.devices[r := t.devices[r]];
    hide RowsBacked;
    hide Grown;
  }

  lemma AnnouncedKeeps(s: State, seen: Seen, nodeId: u16, ieee: nat, answered: bool)
    requires Shaped(s) && Occupied(s) && Backed(s, seen)
    ensures Occupied(Announced(s, nodeId, ieee, answered)) && Backed(Announced(s, nodeId, ieee, answered), seen)
  {
    var k := FreeDevice(s.devices);
    if ieee != 0 && DeviceByIeee(s.devices, ieee) == |s.devices| && ValidNodeId(nodeId) && k < |s.devices| {
      JoinedKeeps(s, seen, nodeId, ieee, answered);
    }
  }

  lemma JoinedKeeps(s: State, seen: Seen, nodeId: u16, ieee: nat, answered: bool)
    requires Shaped(s) && Occupied(s) && Backed(s, seen) && FreeDevice(s.devices) < |s.devices|
    requires ieee != 0 && DeviceByIeee(s.devices, ieee) == |s.devices| && ValidNodeId(nodeId)
    ensures var k := FreeDevice(s.devices);
            var t := Qualified(s.(devices := s.devices[k := Joined(nodeId, ieee)]), k, answered);
            Occupied(t) && Backed(t, seen)
  {
    var k := FreeDevice(s.devices);
    var u := s.(devices := s.devices[k := Joined(nodeId, ieee)]);
    QualifiedEffect(u, k, answered);
    var t := Qualified(u, k, answered);
    hide Qualified;
    hide DeviceByNodeId;
    hide DeviceByIeee;
    assert t.devices == s.devices[k := t.devices[k]];
    RowsBackedAfterJoin(s, seen, k, t.devices[k]);
    RowsStayBacked(s.rows, t.rows, t.devices, seen, seen, nodeId, false);
    hide RowsBacked;
    hide Grown;
  }

  lemma EndpointsAnsweredKeeps(s: State, seen: Seen, e: Event)
    requires Shaped(s) && Occupied(s) && Backed(s, seen) && Fits(s, e) && e.ActiveEndpoints?
    ensures Occupied(Next(s, e)) && Backed(Next(s, e), Saw(seen, s, e))
  {
    var r := DeviceByNodeId(s.devices, e.nodeId);
    if EndpointsOf(s, e, r) {
      var d := s.devices[r];
      var u := s.(devices := s.devices[r := d.(endpointCount := |e.list|, endpoints := Listed(d.endpoints, e.list), state := GetCluster)]);
      HandledKeeps(s, u, false, seen, Saw(seen, s, e), r);
    }
  }

  lemma {:induction false} DescriptorAnsweredKeeps(s: State, seen: Seen, e: Event)
    requires Shaped(s) && Occupied(s) && Backed(s, seen) && Fits(s, e) && e.SimpleDescriptor?
    ensures Occupied(Next(s, e)) && Backed(Next(s, e), Saw(seen, s, e))
  {
    var r := DeviceByNodeId(s.devices, e.nodeId);
    var d := s.devices[r];
    if d.state != Active {
      FilteredIsShorter(e.clusters);
      var x := EndpointById(d.endpoints, e.endpoint);
      var es := d.endpoints[x := Redescribed(d.endpoints[x], e.deviceType, DeviceKinds.Filtered(e.clusters))];
      var u := s.(devices := s.devices[r := d.(endpoints := es, state := if e.endpoint == es[0].id then ReadAttribute else GetCluster)]);
      assert d.endpoints[x].id != 0 && r in seen.endpoints;
      assert Sized(u.devices[r]);
      HandledKeeps(s, u, false, seen, Saw(seen, s, e), r);
    }
  }

  lemma ReadAnsweredKeeps(s: State, seen: Seen, e: Event)
    requires Shaped(s) && Occupied(s) && Backed(s, seen) && Fits(s, e) && e.ReadResponse?
    ensures Occupied(Next(s, e)) && Backed(Next(s, e), Saw(seen, s, e))
  {
    var a := e.attribute;
    var r := DeviceByNodeId(s.devices, a.nodeId);
    if Expected(s, a) && ModelIdOf(s, e, r) {
      assert IsModelIdRow(a) && r in seen.descriptor;
      HandledKeeps(s, s.(devices := s.devices[r := s.devices[r].(state := BindCluster)]), false, seen, Saw(seen, s, e), r);
    }
  }

  // ---- Whole runs ----

  lemma {:induction false} RunKeeps(s: State, es: seq<Event>)
    requires Cleared(s) && FitsAll(s, es)
    ensures Occupied(After(s, es)) && Backed(After(s, es), SeenIn(s, es))
  {
    if |es| > 0 {
      RunKeeps(s, es[..|es| - 1]);
      var t, e := After(s, es[..|es| - 1]), es[|es| - 1];
      var seen := SeenIn(s, es[..|es| - 1]);
      hide Backed;
      hide Occupied;
      hide Next;
      match e
      case Announce(n, ieee, answered) => AnnouncedKeeps(t, seen, n, ieee, answered); NextAnnounce(t, e);
      case ActiveEndpoints(_, _) => EndpointsAnsweredKeeps(t, seen, e);
      case SimpleDescriptor(_, _, _, _) => DescriptorAnsweredKeeps(t, seen, e);
      case ReadResponse(_) => ReadAnsweredKeeps(t, seen, e);
    }
  }

  lemma NextAnnounce(s: State, e: Event)
    requires Shaped(s) && e.Announce?
    ensures Next(s, e) == Announced(s, e.nodeId, e.ieee, e.answered)
  {
  }

  /** The state in which event `i` of the run is handled. */
  function Before(s: State, es: seq<Event>, i: nat): (t: State)
    requires Shaped(s) && i < |es|
    ensures Shaped(t)
  {
    After(s, es[..i])
  }

  predicate EndpointsAt(s: State, es: seq<Event>, i: nat, r: nat)
    requires Shaped(s) && i < |es|
  {
    EndpointsOf(Before(s, es, i), es[i], r)
  }

  predicate DescriptorAt(s: State, es: seq<Event>, i: nat, r: nat)
    requires Shaped(s) && i < |es|
  {
    DescriptorOf(Before(s, es, i), es[i], r)
  }

  predicate ModelIdAt(s: State, es: seq<Event>, i: nat, r: nat)
    requires Shaped(s) && i < |es|
  {
    ModelIdOf(Before(s, es, i), es[i], r)
  }

  lemma BeforeInPrefix(s: State, es: seq<Event>, i: nat)
    requires Shaped(s) && i < |es| - 1
    ensures Before(s, es[..|es| - 1], i) == Before(s, es, i) && es[..|es| - 1][i] == es[i]
  {
    assert es[..|es| - 1][..i] == es[..i];
  }

  lemma {:induction false} SeenEndpoints(s: State, es: seq<Event>, r: nat) returns (i: nat)
    requires Shaped(s) && r in SeenIn(s, es).endpoints
    ensures i < |es| && EndpointsAt(s, es, i, r)
  {
    if r in SeenIn(s, es[..|es| - 1]).endpoints {
      i := SeenEndpoints(s, es[..|es| - 1], r);
      BeforeInPrefix(s, es, i);
    } else {
      i := |es| - 1;
    }
  }

  lemma {:induction false} SeenDescriptor(s: State, es: seq<Event>, r: nat) returns (i: nat, j: nat)
    requires Shaped(s) && r in SeenIn(s, es).descriptor
    ensures i < j < |es| && EndpointsAt(s, es, i, r) && DescriptorAt(s, es, j, r)
  {
    if r in SeenIn(s, es[..|es| - 1]).descriptor {
      i, j := SeenDescriptor(s, es[..|es| - 1], r);
      BeforeInPrefix(s, es, j);
    } else {
      i := SeenEndpoints(s, es[..|es| - 1], r);
      j := |es| - 1;
    }
    BeforeInPrefix(s, es, i);
  }

  lemma {:induction false} SeenModelId(s: State, es: seq<Event>, r: nat) returns (i: nat, j: nat, k: nat)
    requires Shaped(s) && r in SeenIn(s, es).modelId
    ensures i < j < k < |es| && EndpointsAt(s, es, i, r) && DescriptorAt(s, es, j, r) && ModelIdAt(s, es, k, r)
  {
    if r in SeenIn(s, es[..|es| - 1]).modelId {
      i, j, k := SeenModelId(s, es[..|es| - 1], r);
      BeforeInPrefix(s, es, k);
    } else {
      i, j := SeenDescriptor(s, es[..|es| - 1], r);
      k := |es| - 1;
    }
    BeforeInPrefix(s, es, i);
    BeforeInPrefix(s, es, j);
  }

  /**
   * Commissioning order: a device that is active after a run has answered, in this order, with its endpoints, with a
   * descriptor of its first endpoint and with its model id.
   */
  lemma {:induction false} ActiveInOrder(s: State, es: seq<Event>, r: nat)
    requires Cleared(s) && FitsAll(s, es) && r < |s.devices| && After(s, es).devices[r].state == Active
    ensures exists i, j, k :: 0 <= i < j < k < |es| && EndpointsAt(s, es, i, r) && DescriptorAt(s, es, j, r) && ModelIdAt(s, es, k, r)
  {
    RunKeeps(s, es);
    var i, j, k := SeenModelId(s, es, r);
  }

  /** At most one device has any IEEE address, after any run. */
  lemma {:induction false} AddressesStayUnique(s: State, es: seq<Event>, r: nat, q: nat)
    requires Cleared(s) && FitsAll(s, es) && r < |s.devices| && q < |s.devices|
    requires var t := After(s, es); t.devices[r].nodeId != 0 && t.devices[q].nodeId != 0 && t.devices[r].ieee == t.devices[q].ieee
    ensures r == q
  {
    RunKeeps(s, es);
  }

  // ---- Stability ----

  lemma StepLeavesActive(s: State, e: Event, r: nat)
    requires Shaped(s) && Occupied(s) && Fits(s, e) && r < |s.devices| && s.devices[r].state == Active
    ensures Next(s, e).devices[r] == s.devices[r]
  {
  }

  /** Once active, a device keeps its whole record: state, endpoint list and cluster lists. */
  lemma {:induction false} ActiveStays(s: State, es: seq<Event>, more: seq<Event>, r: nat)
    requires Cleared(s) && FitsAll(s, es + more) && r < |s.devices| && After(s, es).devices[r].state == Active
    ensures After(s, es + more).devices[r] == After(s, es).devices[r]
  {
    if |more| == 0 {
      assert es + more == es;
    } else {
      assert (es + more)[..|es + more| - 1] == es + more[..|more| - 1];
      ActiveStays(s, es, more[..|more| - 1], r);
      RunKeeps(s, es + more[..|more| - 1]);
      StepLeavesActive(After(s, es + more[..|more| - 1]), more[|more| - 1], r);
    }
  }

  // ---- Completion ----

  predicate RowsKept(before: seq<Attribute>, after: seq<Attribute>) {
    |after| == |before| && forall q :: 0 <= q < |before| && before[q].nodeId != 0 ==> after[q] == before[q]
  }

  lemma {:induction false} AddAllKeeps(rows: seq<Attribute>, n: u16, endpoint: u8, cluster: u16, attributes: seq<u16>)
    ensures RowsKept(rows, AddAll(rows, n, endpoint, cluster, attributes))
  {
    if |attributes| > 0 {
      AddAllKeeps(rows, n, endpoint, cluster, attributes[..|attributes| - 1]);
    }
  }

  lemma {:induction false} AddClustersKeeps(rows: seq<Attribute>, d: Device, i: nat, j: nat)
    requires Sized(d) && i < MAX_ENDPOINTS && j <= MAX_CLUSTERS
    ensures RowsKept(rows, AddClusters(rows, d, i, j))
  {
    if j > 0 {
      AddClustersKeeps(rows, d, i, j - 1);
      var e := d.endpoints[i];
      AddAllKeeps(AddClusters(rows, d, i, j - 1), d.nodeId, e.id, e.clusters[j - 1],
                  AttributesFor(d.state, e.deviceType, e.clusters[j - 1]));
    }
  }

  function ModelIdRow(d: Device, i: nat): Attribute
    requires i < |d.endpoints|
  {
    Attribute(d.nodeId, d.endpoints[i].id, CLUSTER_BASIC, ATTRIBUTE_BASIC_MODEL_ID)
  }

  /** Reading attributes adds the model id row of an endpoint with a Basic cluster and nothing before it. */
  lemma {:induction false} ModelIdRowIsAdded(rows: seq<Attribute>, d: Device, i: nat, j: nat)
    requires Sized(d) && i < MAX_ENDPOINTS && j <= MAX_CLUSTERS && d.state == ReadAttribute
    requires ValidNodeId(d.nodeId) && ValidEndpointId(d.endpoints[i].id) && FreeRow(rows) < |rows|
    ensures if CLUSTER_BASIC in d.endpoints[i].clusters[..j] then ModelIdRow(d, i) in AddClusters(rows, d, i, j)
            else AddClusters(rows, d, i, j) == rows
  {
    if j > 0 {
      ModelIdRowIsAdded(rows, d, i, j - 1);
      var e := d.endpoints[i];
      var mid := AddClusters(rows, d, i, j - 1);
      assert e.clusters[..j] == e.clusters[..j - 1] + [e.clusters[j - 1]];
      AddAllKeeps(mid, d.nodeId, e.id, e.clusters[j - 1], AttributesFor(d.state, e.deviceType, e.clusters[j - 1]));
      if CLUSTER_BASIC in e.clusters[..j - 1] {
        var q :| 0 <= q < |mid| && mid[q] == ModelIdRow(d, i);
        assert AddClusters(rows, d, i, j)[q] == mid[q];
      } else if e.clusters[j - 1] == CLUSTER_BASIC {
        AddAllOne(mid, d.nodeId, e.id, CLUSTER_BASIC, ATTRIBUTE_BASIC_MODEL_ID);
        assert AddClusters(rows, d, i, j)[FreeRow(mid)] == ModelIdRow(d, i);
      }
    }
  }

  lemma AddAllOne(rows: seq<Attribute>, n: u16, endpoint: u8, cluster: u16, attribute: u16)
    ensures AddAll(rows, n, endpoint, cluster, [attribute]) == RowAdded(rows, Attribute(n, endpoint, cluster, attribute))
  {
    assert AddAll(rows, n, endpoint, cluster, [attribute][..0]) == rows;
  }

  lemma {:induction false} FirstEndpointRowStays(rows: seq<Attribute>, d: Device, i: nat)
    requires Sized(d) && 1 <= i <= MAX_ENDPOINTS && d.state == ReadAttribute
    requires ValidNodeId(d.nodeId) && ValidEndpointId(d.endpoints[0].id) && FreeRow(rows) < |rows|
    requires CLUSTER_BASIC in d.endpoints[0].clusters[..d.endpoints[0].clusterCount]
    ensures ModelIdRow(d, 0) in AddEndpoints(rows, d, i)
  {
    if i == 1 {
      assert AddEndpoints(rows, d, 0) == rows;
      ModelIdRowIsAdded(rows, d, 0, d.endpoints[0].clusterCount);
    } else {
      FirstEndpointRowStays(rows, d, i - 1);
      var mid := AddEndpoints(rows, d, i - 1);
      AddClustersKeeps(mid, d, i - 1, d.endpoints[i - 1].clusterCount);
      var q :| 0 <= q < |mid| && mid[q] == ModelIdRow(d, 0);
      assert AddEndpoints(rows, d, i)[q] == mid[q];
    }
  }

  /** Only the first endpoint has been described. */
  lemma {:induction false} OthersAddNothing(rows: seq<Attribute>, d: Device, i: nat)
    requires Sized(d) && 1 <= i <= MAX_ENDPOINTS && d.state == ReadAttribute
    requires forall x :: 1 <= x < MAX_ENDPOINTS ==> d.endpoints[x].clusterCount == 0
    ensures AddEndpoints(rows, d, i) == AddClusters(rows, d, 0, d.endpoints[0].clusterCount)
  {
    if i == 1 {
      assert AddEndpoints(rows, d, 0) == rows;
    } else {
      OthersAddNothing(rows, d, i - 1);
    }
  }

  lemma {:induction false} FilteredBasic(cs: seq<u16>)
    ensures CLUSTER_BASIC in DeviceKinds.Filtered(cs) <==> CLUSTER_BASIC in cs
  {
    if |cs| > 0 {
      FilteredBasic(cs[..|cs| - 1]);
      assert cs == cs[..|cs| - 1] + [cs[|cs| - 1]];
    }
  }

  /** A descriptor of the first endpoint makes the bridge expect the model id exactly when it lists the Basic cluster. */
  lemma DescriptorAsksForModelId(s: State, n: u16, deviceType: u16, clusters: seq<u16>)
    requires Shaped(s) && ValidNodeId(n) && DeviceByNodeId(s.devices, n) < |s.devices| && FreeRow(s.rows) < |s.rows|
    requires var d := s.devices[DeviceByNodeId(s.devices, n)];
             && d.state != Active && ValidEndpointId(d.endpoints[0].id) && d.endpointCount > 0
             && forall x :: 0 <= x < MAX_ENDPOINTS ==> d.endpoints[x].clusterCount == 0
    requires |clusters| <= MAX_CLUSTERS
    ensures var r := DeviceByNodeId(s.devices, n);
            var a := ModelIdRow(s.devices[r], 0);
            var e := SimpleDescriptor(n, a.endpoint, deviceType, clusters);
            && Fits(s, e) && DeviceByNodeId(Next(s, e).devices, n) == r && Next(s, e).devices[r].state == ReadAttribute
            && (a in Next(s, e).rows <==> CLUSTER_BASIC in clusters || a in s.rows)
  {
    var r := DeviceByNodeId(s.devices, n);
    var d := s.devices[r];
    var id := d.endpoints[0].id;
    EndpointByIdIs(d.endpoints, id, 0);
    FilteredIsShorter(clusters);
    var filtered := DeviceKinds.Filtered(clusters);
    var d2 := d.(endpoints := d.endpoints[0 := Redescribed(d.endpoints[0], deviceType, filtered)], state := ReadAttribute);
    var e := SimpleDescriptor(n, id, deviceType, clusters);
    assert Fits(s, e);
    assert Sized(d2);
    assert DescriptorAnswered(s, n, id, deviceType, clusters) == Qualified(s.(devices := s.devices[r := d2]), r, false);
    assert Next(s, e).devices == s.devices[r := d2];
    LookupStays(s.devices, r, d2, n);
    OthersAddNothing(s.rows, d2, d2.endpointCount);
    ModelIdRowIsAdded(s.rows, d2, 0, |filtered|);
    assert d2.endpoints[0].clusters[..|filtered|] == filtered;
    FilteredBasic(clusters);
    AddClustersKeeps(s.rows, d2, 0, |filtered|);
    RowStaysIn(s.rows, AddClusters(s.rows, d2, 0, |filtered|), ModelIdRow(d2, 0));
  }

  lemma RowStaysIn(before: seq<Attribute>, after: seq<Attribute>, a: Attribute)
    requires RowsKept(before, after) && a.nodeId != 0
    ensures a in before ==> a in after
  {
    if a in before {
      var q :| 0 <= q < |before| && before[q] == a;
      assert after[q] == a;
    }
  }

  /**
   * A device that has not been described, answering with its endpoints, a descriptor of the first of them and its
   * model id, becomes active exactly when that descriptor lists the Basic cluster, or the model id row was there before.
   */
  lemma AnswersBringActive(s: State, n: u16, list: seq<u8>, deviceType: u16, clusters: seq<u16>)
    requires Shaped(s) && ValidNodeId(n) && DeviceByNodeId(s.devices, n) < |s.devices| && FreeRow(s.rows) < |s.rows|
    requires var d := s.devices[DeviceByNodeId(s.devices, n)];
             d.state != Active && forall x :: 0 <= x < MAX_ENDPOINTS ==> d.endpoints[x].clusterCount == 0
    requires 1 <= |list| <= MAX_ENDPOINTS && ValidEndpointId(list[0]) && |clusters| <= MAX_CLUSTERS
    ensures var a := Attribute(n, list[0], CLUSTER_BASIC, ATTRIBUTE_BASIC_MODEL_ID);
            var e1, e2, e3 := ActiveEndpoints(n, list), SimpleDescriptor(n, list[0], deviceType, clusters), ReadResponse(a);
            && Fits(s, e1) && Fits(Next(s, e1), e2) && Fits(Next(Next(s, e1), e2), e3)
            && (Next(Next(Next(s, e1), e2), e3).devices[DeviceByNodeId(s.devices, n)].state == Active
                <==> CLUSTER_BASIC in clusters || a in s.rows)
  {
    var r := DeviceByNodeId(s.devices, n);
    var a := Attribute(n, list[0], CLUSTER_BASIC, ATTRIBUTE_BASIC_MODEL_ID);
    var s1 := Next(s, ActiveEndpoints(n, list));
    var d := s.devices[r];
    var d1 := d.(endpointCount := |list|, endpoints := Listed(d.endpoints, list), state := GetCluster);
    assert s1.devices == s.devices[r := d1] && s1.rows == s.rows;
    LookupStays(s.devices, r, d1, n);
    DescriptorAsksForModelId(s1, n, deviceType, clusters);
    var s2 := Next(s1, SimpleDescriptor(n, list[0], deviceType, clusters));
    ModelIdActivates(s2, a, r);
  }

  lemma ModelIdActivates(s: State, a: Attribute, r: nat)
    requires Shaped(s) && r == DeviceByNodeId(s.devices, a.nodeId) < |s.devices| && s.devices[r].state != Active
    requires ValidNodeId(a.nodeId) && ValidEndpointId(a.endpoint) && a.cluster == CLUSTER_BASIC && a.attribute == ATTRIBUTE_BASIC_MODEL_ID
    ensures Fits(s, ReadResponse(a)) && (Next(s, ReadResponse(a)).devices[r].state == Active <==> a in s.rows)
  {
    if a in s.rows {
      QualifiedEffect(s.(devices := s.devices[r := s.devices[r].(state := BindCluster)]), r, false);
    }
  }
}
