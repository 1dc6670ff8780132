/**
 * Commissioning of a device by the responses it sends: the handlers of `zcb.c` and the qualify process of
 * `ZigbeeDevices.c`, each handler one atomic step of the callback task.
 */
module Commissioning {
  import opened Bytes
  import opened Devices
  import opened DeviceKinds

  const CLUSTER_BASIC: u16 := 0x0000
  const CLUSTER_HUMIDITY: u16 := 0x0405
  const ATTRIBUTE_BASIC_MODEL_ID: u16 := 0x0005
  const DEVICEID_LIGHT_COLOR_TEMP: u16 := 0x010C
  const DEVICEID_LIGHT_COLOR_EXT: u16 := 0x010D

  /** deviceTable, attributeTable and the static epArrayIndex. */
  datatype State = State(devices: seq<Device>, rows: seq<Attribute>, epArrayIndex: u8)

  predicate Shaped(s: State) { forall r :: 0 <= r < |s.devices| ==> Sized(s.devices[r]) }

  // ---- The qualify process ----

  /** Attributes added when the qualify process meets a cluster in the state READ_ATTRIBUTE or BIND_CLUSTER. */
  function AttributesFor(state: DeviceState, deviceType: u16, cluster: u16): seq<u16> {
    if state == ReadAttribute then (if cluster == CLUSTER_BASIC then [ATTRIBUTE_BASIC_MODEL_ID] else [])
    else if cluster == CLUSTER_ONOFF || cluster == CLUSTER_LEVEL || cluster == CLUSTER_TEMPERATURE
         || cluster == CLUSTER_HUMIDITY || cluster == CLUSTER_ILLUMINANCE || cluster == CLUSTER_OCCUPANCY then [0x0000]
    else if cluster == CLUSTER_COLOR && deviceType == DEVICEID_LIGHT_COLOR_TEMP then [0x0007]
    else if cluster == CLUSTER_COLOR && deviceType == DEVICEID_LIGHT_COLOR_EXT then [0x0007, 0x0003, 0x0004]
    else []
  }

  function AddAll(rows: seq<Attribute>, nodeId: u16, endpoint: u8, cluster: u16, attributes: seq<u16>): (r: seq<Attribute>)
    ensures |r| == |rows|
  {
    if |attributes| == 0 then rows
    else RowAdded(AddAll(rows, nodeId, endpoint, cluster, attributes[..|attributes| - 1]),
                  Attribute(nodeId, endpoint, cluster, attributes[|attributes| - 1]))
  }

  /** The rows after the first `j` clusters of endpoint `i`. */
  function AddClusters(rows: seq<Attribute>, d: Device, i: nat, j: nat): (r: seq<Attribute>)
    requires Sized(d) && i < MAX_ENDPOINTS && j <= MAX_CLUSTERS
    ensures |r| == |rows|
  {
    if j == 0 then rows
    else
      var e := d.endpoints[i];
      AddAll(AddClusters(rows, d, i, j - 1), d.nodeId, e.id, e.clusters[j - 1],
             AttributesFor(d.state, e.deviceType, e.clusters[j - 1]))
  }

  /** The rows after the first `i` endpoints. */
  function AddEndpoints(rows: seq<Attribute>, d: Device, i: nat): (r: seq<Attribute>)
    requires Sized(d) && i <= MAX_ENDPOINTS
    ensures |r| == |rows|
  {
    if i == 0 then rows else AddClusters(AddEndpoints(rows, d, i - 1), d, i - 1, d.endpoints[i - 1].clusterCount)
  }

  function Advanced(index: u8): u8 { (index + 1) % 0x100 }

  /**
   * The qualify process on device `r`; `answered` says whether one of the two requests for active endpoints was sent
   * and answered in time. The other requests are sent for their answers, which come back as responses.
   */
  function Qualified(s: State, r: nat, answered: bool): (t: State)
    requires Shaped(s) && r < |s.devices|
    ensures Shaped(t) && |t.devices| == |s.devices| && |t.rows| == |s.rows|
  {
    var d := s.devices[r];
    match d.state
    case NewJoined =>
      if answered then s
      else s.(devices := s.devices[r := d.(endpointCount := 1, state := GetCluster)], epArrayIndex := Advanced(s.epArrayIndex))
    case GetCluster => s.(epArrayIndex := Advanced(s.epArrayIndex))
    case ReadAttribute => s.(rows := AddEndpoints(s.rows, d, d.endpointCount))
    case BindCluster =>
      s.(rows := AddEndpoints(s.rows, d, d.endpointCount), devices := s.devices[r := d.(state := Active)], epArrayIndex := 0)
    case Active => s.(epArrayIndex := 0)
    case _ => s
  }

  // ---- The handlers ----

  /** First free device, or the number of devices. */
  function FreeDevice(ds: seq<Device>): nat { DeviceByNodeId(ds, 0) }

  /** A table entry as it is after its `memset` and the assignments that follow. */
  function Joined(nodeId: u16, ieee: nat): (d: Device)
    ensures Sized(d)
  {
    Device(nodeId, ieee, NewJoined, 0, seq(MAX_ENDPOINTS, _ => EMPTY_ENDPOINT))
  }

  function Announced(s: State, nodeId: u16, ieee: nat, answered: bool): (t: State)
    requires Shaped(s)
    ensures Shaped(t) && |t.devices| == |s.devices| && |t.rows| == |s.rows|
  {
    var k := FreeDevice(s.devices);
    if (ieee != 0 && DeviceByIeee(s.devices, ieee) < |s.devices|) || !ValidNodeId(nodeId) || ieee == 0 || k == |s.devices| then s
    else Qualified(s.(devices := s.devices[k := Joined(nodeId, ieee)]), k, answered)
  }

  /** The endpoint ids of the list written over those of the device. */
  function Listed(es: seq<Endpoint>, list: seq<u8>): (r: seq<Endpoint>)
    requires |list| <= |es|
    ensures |r| == |es|
    ensures forall i :: 0 <= i < |es| ==> r[i] == if i < |list| then es[i].(id := list[i]) else es[i]
  {
    seq(|es|, i requires 0 <= i < |es| => if i < |list| then es[i].(id := list[i]) else es[i])
  }

  /** The record of a device that answered with its endpoints. */
  function Relisted(d: Device, list: seq<u8>): (r: Device)
    requires Sized(d) && |list| <= MAX_ENDPOINTS
    ensures Sized(r)
  {
    d.(endpointCount := |list|, endpoints := Listed(d.endpoints, list), state := GetCluster)
  }

  function EndpointsAnswered(s: State, nodeId: u16, list: seq<u8>): (t: State)
    requires Shaped(s) && |list| <= MAX_ENDPOINTS
    ensures Shaped(t) && |t.devices| == |s.devices| && |t.rows| == |s.rows|
  {
    var r := DeviceByNodeId(s.devices, nodeId);
    if !ValidNodeId(nodeId) || r == |s.devices| || s.devices[r].state == Active then s
    else
      Qualified(s.(devices := s.devices[r := Relisted(s.devices[r], list)]), r, false)
  }

  /** A simple descriptor is looked up without a check: its device must exist and list the endpoint. */
  predicate DescriptorFits(s: State, nodeId: u16, endpoint: u8) {
    var r := DeviceByNodeId(s.devices, nodeId);
    && ValidNodeId(nodeId) && r < |s.devices|
    && (s.devices[r].state != Active ==>
          ValidEndpointId(endpoint) && EndpointById(s.devices[r].endpoints, endpoint) < |s.devices[r].endpoints|)
  }

  /** The endpoint with its new cluster list; entries beyond it keep what they held. */
  function Redescribed(e: Endpoint, deviceType: u16, filtered: seq<u16>): Endpoint
    requires |filtered| <= |e.clusters|
  {
    Endpoint(e.id, deviceType, |filtered|, filtered + e.clusters[|filtered|..])
  }

  /** The record of a device that answered with a descriptor of its endpoint `id`. */
  function Described(d: Device, id: u8, deviceType: u16, filtered: seq<u16>): (r: Device)
    requires Sized(d) && EndpointById(d.endpoints, id) < MAX_ENDPOINTS && |filtered| <= MAX_CLUSTERS
    ensures Sized(r)
  {
    var e := EndpointById(d.endpoints, id);
    var es := d.endpoints[e := Redescribed(d.endpoints[e], deviceType, filtered)];
    d.(endpoints := es, state := if id == es[0].id then ReadAttribute else GetCluster)
  }

  function DescriptorAnswered(s: State, nodeId: u16, endpoint: u8, deviceType: u16, clusters: seq<u16>): (t: State)
    requires Shaped(s) && DescriptorFits(s, nodeId, endpoint) && |clusters| <= MAX_CLUSTERS
    ensures Shaped(t) && |t.devices| == |s.devices| && |t.rows| == |s.rows|
  {
    var r := DeviceByNodeId(s.devices, nodeId);
    var d := s.devices[r];
    if d.state == Active then s
    else
      FilteredIsShorter(clusters);
      Qualified(s.(devices := s.devices[r := Described(d, endpoint, deviceType, Filtered(clusters))]), r, false)
  }

  lemma {:induction false} FilteredIsShorter(cs: seq<u16>)
    ensures |Filtered(cs)| <= |cs|
  {
    if |cs| > 0 {
      FilteredIsShorter(cs[..|cs| - 1]);
    }
  }

  /** The response is for an attribute row that was added for the node. */
  predicate Expected(s: State, a: Attribute) {
    ValidNodeId(a.nodeId) && ValidEndpointId(a.endpoint) && a in s.rows
  }

  /** The device of an expected read response is looked up without a check. */
  predicate ReadFits(s: State, a: Attribute) {
    Expected(s, a) ==> DeviceByNodeId(s.devices, a.nodeId) < |s.devices|
  }

  function ReadAnswered(s: State, a: Attribute): (t: State)
    requires Shaped(s) && ReadFits(s, a)
    ensures Shaped(t) && |t.devices| == |s.devices| && |t.rows| == |s.rows|
  {
    if !Expected(s, a) then s
    else
      var r := DeviceByNodeId(s.devices, a.nodeId);
      if s.devices[r].state != Active && a.cluster == CLUSTER_BASIC && a.attribute == ATTRIBUTE_BASIC_MODEL_ID
      then Qualified(s.(devices := s.devices[r := s.devices[r].(state := BindCluster)]), r, false)
      else s
  }

  datatype Event =
    | Announce(nodeId: u16, ieee: nat, answered: bool)
    | ActiveEndpoints(nodeId: u16, list: seq<u8>)
    | SimpleDescriptor(nodeId: u16, endpoint: u8, deviceType: u16, clusters: seq<u16>)
    | ReadResponse(attribute: Attribute)

  predicate Fits(s: State, e: Event) {
    match e
    case Announce(_, _, _) => true
    case ActiveEndpoints(_, list) => |list| <= MAX_ENDPOINTS
    case SimpleDescriptor(n, ep, _, cs) => DescriptorFits(s, n, ep) && |cs| <= MAX_CLUSTERS
    case ReadResponse(a) => ReadFits(s, a)
  }

  function Next(s: State, e: Event): (t: State)
    requires Shaped(s) && Fits(s, e)
    ensures Shaped(t) && |t.devices| == |s.devices| && |t.rows| == |s.rows|
  {
    match e
    case Announce(n, ieee, answered) => Announced(s, n, ieee, answered)
    case ActiveEndpoints(n, list) => EndpointsAnswered(s, n, list)
    case SimpleDescriptor(n, ep, dt, cs) => DescriptorAnswered(s, n, ep, dt, cs)
    case ReadResponse(a) => ReadAnswered(s, a)
  }
}
