/** The device table and the rows of the attribute table of `ZigbeeDevices.c`, with their lookups. */
module Devices {
  import opened Bytes

  const MAX_ENDPOINTS: nat := 5
  const MAX_CLUSTERS: nat := 15
  const BROADCAST_LOWPOWERROUTERS: u16 := 0xFFFB

  datatype DeviceState =
    | Null | NewJoined | Active | OffLine | Left
    | GetEndpoint | GetCluster | BindCluster | CfgAttribute | ReadAttribute

  /** tsZbDeviceEndPoint without the attribute counters, which module DeviceTables keeps beside the devices. */
  datatype Endpoint = Endpoint(id: u8, deviceType: u16, clusterCount: nat, clusters: seq<u16>)

  datatype Device = Device(nodeId: u16, ieee: nat, state: DeviceState, endpointCount: nat, endpoints: seq<Endpoint>)

  const EMPTY_ENDPOINT: Endpoint := Endpoint(0, 0, 0, seq(MAX_CLUSTERS, _ => 0))
  const EMPTY_DEVICE: Device := Device(0, 0, Null, 0, seq(MAX_ENDPOINTS, _ => EMPTY_ENDPOINT))

  /** tsZbDeviceAttribute without its value; node 0 marks a free row. */
  datatype Attribute = Attribute(nodeId: u16, endpoint: u8, cluster: u16, attribute: u16)

  const NO_ATTRIBUTE: Attribute := Attribute(0, 0, 0, 0)

  /** The fixed sizes of the arrays inside a device. */
  predicate Sized(d: Device) {
    && |d.endpoints| == MAX_ENDPOINTS && d.endpointCount <= MAX_ENDPOINTS
    && forall e :: 0 <= e < MAX_ENDPOINTS ==>
      |d.endpoints[e].clusters| == MAX_CLUSTERS && d.endpoints[e].clusterCount <= MAX_CLUSTERS
  }

  predicate ValidNodeId(n: u16) { n != 0 && n < BROADCAST_LOWPOWERROUTERS }

  predicate ValidEndpointId(e: u8) { e != 0 && e != 241 && e <= 242 }

  /** Index of the first device with node id `n`, or the number of devices. */
  function DeviceByNodeId(ds: seq<Device>, n: u16): (r: nat)
    ensures r <= |ds|
    ensures r < |ds| ==> ds[r].nodeId == n
    ensures forall i :: 0 <= i < r ==> ds[i].nodeId != n
  {
    if |ds| == 0 || ds[0].nodeId == n then 0 else 1 + DeviceByNodeId(ds[1..], n)
  }

  function DeviceByIeee(ds: seq<Device>, a: nat): (r: nat)
    ensures r <= |ds|
    ensures r < |ds| ==> ds[r].ieee == a
    ensures forall i :: 0 <= i < r ==> ds[i].ieee != a
  {
    if |ds| == 0 || ds[0].ieee == a then 0 else 1 + DeviceByIeee(ds[1..], a)
  }

  function EndpointById(es: seq<Endpoint>, id: u8): (r: nat)
    ensures r <= |es|
    ensures r < |es| ==> es[r].id == id
    ensures forall i :: 0 <= i < r ==> es[i].id != id
  {
    if |es| == 0 || es[0].id == id then 0 else 1 + EndpointById(es[1..], id)
  }

  function ClusterById(cs: seq<u16>, id: u16): (r: nat)
    ensures r <= |cs|
    ensures r < |cs| ==> cs[r] == id
    ensures forall i :: 0 <= i < r ==> cs[i] != id
  {
    if |cs| == 0 || cs[0] == id then 0 else 1 + ClusterById(cs[1..], id)
  }

  /** First free row of the attribute table, or its size. */
  function FreeRow(rows: seq<Attribute>): (r: nat)
    ensures r <= |rows|
    ensures r < |rows| ==> rows[r].nodeId == 0
    ensures forall i :: 0 <= i < r ==> rows[i].nodeId != 0
  {
    if |rows| == 0 || rows[0].nodeId == 0 then 0 else 1 + FreeRow(rows[1..])
  }

  /** The table after an attempt to add a row: invalid ids and a full table leave it unchanged. */
  function RowAdded(rows: seq<Attribute>, a: Attribute): (r: seq<Attribute>)
    ensures |r| == |rows|
  {
    if ValidNodeId(a.nodeId) && ValidEndpointId(a.endpoint) && FreeRow(rows) < |rows| then rows[FreeRow(rows) := a]
    else rows
  }

  lemma DeviceByNodeIdIs(ds: seq<Device>, n: u16, r: nat)
    requires r <= |ds| && (r < |ds| ==> ds[r].nodeId == n)
    requires forall i :: 0 <= i < r ==> ds[i].nodeId != n
    ensures DeviceByNodeId(ds, n) == r
  {
  }

  lemma DeviceByIeeeIs(ds: seq<Device>, a: nat, r: nat)
    requires r <= |ds| && (r < |ds| ==> ds[r].ieee == a)
    requires forall i :: 0 <= i < r ==> ds[i].ieee != a
    ensures DeviceByIeee(ds, a) == r
  {
  }

  lemma EndpointByIdIs(es: seq<Endpoint>, id: u8, r: nat)
    requires r <= |es| && (r < |es| ==> es[r].id == id)
    requires forall i :: 0 <= i < r ==> es[i].id != id
    ensures EndpointById(es, id) == r
  {
  }

  lemma FreeRowIs(rows: seq<Attribute>, r: nat)
    requires r <= |rows| && (r < |rows| ==> rows[r].nodeId == 0)
    requires forall i :: 0 <= i < r ==> rows[i].nodeId != 0
    ensures FreeRow(rows) == r
  {
  }
}
