/**
 * The global tables of `ZigbeeDevices.c` and the handlers of `zcb.c` that drive them. Every method does to the tables
 * what the function of the same purpose in module Commissioning says. The attribute counters stay right; with a handler
 * that changes endpoint ids or cluster lists they do exactly when they are right for the entries it puts at new places.
 */
module DeviceTables {
  import opened Bytes
  import opened Options
  import opened Devices
  import opened DeviceKinds
  import opened AttributeTable
  import opened Commissioning
  import opened CommissioningRuns

  const MAX_ZD_DEVICE_NUMBERS: nat := 50
  const MAX_ZD_ATTRIBUTE_NUMBERS_TOTAL: nat := 512

  /** How one request with its wait for the reply can end. */
  datatype Outcome = NotSent | NoReply | Replied

  /** `count` is right for the entry at `p`, if its key leads to `p`. */
  predicate CountedAt(ds: seq<Device>, p: Place, rows: seq<Attribute>, count: u8)
    requires (forall r :: 0 <= r < |ds| ==> Sized(ds[r])) && InTable(ds, p)
  {
    ValidKey(KeyAt(ds, p)) && PlaceOf(ds, KeyAt(ds, p)) == Some(p) ==> count == |ListOf(rows, KeyAt(ds, p))| % 0x100
  }

  /** The records `next` put the entry at `p`, where they find its key and `ds` does not. */
  predicate NewPlace(ds: seq<Device>, next: seq<Device>, p: Place)
    requires (forall r :: 0 <= r < |ds| ==> Sized(ds[r])) && (forall r :: 0 <= r < |next| ==> Sized(next[r]))
  {
    InTable(next, p) && ValidKey(KeyAt(next, p)) && PlaceOf(next, KeyAt(next, p)) == Some(p) && PlaceOf(ds, KeyAt(next, p)) != Some(p)
  }

  /** The listed endpoints have different ids. */
  predicate ListedOnce(d: Device) {
    forall i :: 0 <= i < d.endpointCount && i < |d.endpoints| && ValidEndpointId(d.endpoints[i].id) ==>
      EndpointById(d.endpoints, d.endpoints[i].id) == i
  }

  /**
   * The endpoints for which a descriptor is asked: endpoint 1, whatever endpoint stands at the index, unless that is unset
   * or Green Power; once if the first request is answered and twice if not.
   */
  function DescriptorRequests(es: seq<Endpoint>, index: u8, replied: bool, stray: u8): seq<u8>
    requires |es| == 5
  {
    var id := if index < 5 then es[index].id else stray;
    if id == 0 || id == 242 then [] else if replied then [1] else [1, 1]
  }

  /** The descriptor requests of the qualify process: after two unanswered requests for endpoints they are the third. */
  function AskedBy(d: Device, index: u8, link: nat -> Outcome, stray: u8): seq<u8>
    requires Sized(d)
  {
    if d.state == GetCluster then DescriptorRequests(d.endpoints, index, link(0) == Replied, stray)
    else if d.state == NewJoined && link(0) != Replied && link(1) != Replied
    then DescriptorRequests(d.endpoints, index, link(2) == Replied, stray)
    else []
  }

  /** The index is reset when the qualify process leaves an active device. */
  function Settled(s: State, r: nat): State
    requires r < |s.devices|
  {
    if s.devices[r].state == Active then s.(epArrayIndex := 0) else s
  }

  class Tables {
    const deviceTable: array<Device>
    const attributeTable: array<Attribute>
    /** u8AttributeCount of every cluster entry. */
    const counts: array3<u8>
    /** The static variable of the qualify process. */
    var epArrayIndex: u8

    ghost predicate Valid()
      reads deviceTable
    {
      && deviceTable.Length == counts.Length0 == MAX_ZD_DEVICE_NUMBERS && attributeTable.Length == MAX_ZD_ATTRIBUTE_NUMBERS_TOTAL
      && counts.Length1 == MAX_ENDPOINTS && counts.Length2 == MAX_CLUSTERS
      && forall r :: 0 <= r < deviceTable.Length ==> Sized(deviceTable[r])
    }

    ghost function Abs(): State
      reads this, deviceTable, attributeTable
    {
      State(deviceTable[..], attributeTable[..], epArrayIndex)
    }

    /** Every counter that a lookup can reach is the number of rows of its key, in eight bits. */
    ghost predicate Counted()
      requires Valid()
      reads deviceTable, attributeTable, counts
    {
      CountedFor(attributeTable[..])
    }

    ghost predicate CountedFor(rows: seq<Attribute>)
      requires Valid()
      reads deviceTable, counts
    {
      CountedOver(deviceTable[..], rows)
    }

    /** The counters are right for other records and rows than those in the tables. */
    ghost predicate CountedOver(ds: seq<Device>, rows: seq<Attribute>)
      requires |ds| == counts.Length0 && counts.Length1 == MAX_ENDPOINTS && counts.Length2 == MAX_CLUSTERS
      requires forall r :: 0 <= r < |ds| ==> Sized(ds[r])
      reads counts
    {
      forall p: Place :: InTable(ds, p) ==> CountedAt(ds, p, rows, counts[p.device, p.endpoint, p.cluster])
    }

    /** Where the records `next` put an entry at a new place, the counter there is the number of the entry's rows. */
    ghost predicate NewPlacesCounted(next: seq<Device>)
      requires Valid() && |next| == deviceTable.Length && forall r :: 0 <= r < |next| ==> Sized(next[r])
      reads deviceTable, attributeTable, counts
    {
      NewPlacesCountedFrom(deviceTable[..], next)
    }

    ghost predicate NewPlacesCountedFrom(ds: seq<Device>, next: seq<Device>)
      requires |next| == counts.Length0 && counts.Length1 == MAX_ENDPOINTS && counts.Length2 == MAX_CLUSTERS
      requires (forall r :: 0 <= r < |ds| ==> Sized(ds[r])) && (forall r :: 0 <= r < |next| ==> Sized(next[r]))
      reads attributeTable, counts
    {
      forall p: Place :: NewPlace(ds, next, p) ==> CountedAt(next, p, attributeTable[..], counts[p.device, p.endpoint, p.cluster])
    }

    /** No attribute rows have been added for the device, and its counters are zero. */
    ghost predicate Blank(r: nat)
      requires Valid() && r < deviceTable.Length
      reads deviceTable, attributeTable, counts
    {
      && NoRowsOf(attributeTable[..], deviceTable[r].nodeId)
      && forall e, c :: 0 <= e < MAX_ENDPOINTS && 0 <= c < MAX_CLUSTERS ==> counts[r, e, c] == 0
    }

    /** `vZDM_ClearAllDeviceTables`. */
    constructor ()
      ensures Valid() && fresh(deviceTable) && fresh(attributeTable) && fresh(counts)
      ensures Cleared(Abs()) && Counted() && epArrayIndex == 0
    {
      deviceTable := new Device[MAX_ZD_DEVICE_NUMBERS](i => EMPTY_DEVICE);
      attributeTable := new Attribute[MAX_ZD_ATTRIBUTE_NUMBERS_TOTAL](i => NO_ATTRIBUTE);
      counts := new u8[MAX_ZD_DEVICE_NUMBERS, MAX_ENDPOINTS, MAX_CLUSTERS]((i, j, k) => 0);
      epArrayIndex := 0;
    }

    method FindDeviceByNodeId(n: u16) returns (r: Option<nat>)
      requires Valid()
      ensures r == if ValidNodeId(n) && DeviceByNodeId(deviceTable[..], n) < deviceTable.Length
                   then Some(DeviceByNodeId(deviceTable[..], n)) else None
    {
      if !ValidNodeId(n) {
        return None;
      }
      var i := 0;
      while i < deviceTable.Length && deviceTable[i].nodeId != n
        invariant i <= deviceTable.Length && forall j :: 0 <= j < i ==> deviceTable[j].nodeId != n
      {
        i := i + 1;
      }
      DeviceByNodeIdIs(deviceTable[..], n, i);
      r := if i < deviceTable.Length then Some(i) else None;
    }

    method FindDeviceByIeeeAddress(ieee: nat) returns (r: Option<nat>)
      requires Valid()
      ensures r == if ieee != 0 && DeviceByIeee(deviceTable[..], ieee) < deviceTable.Length
                   then Some(DeviceByIeee(deviceTable[..], ieee)) else None
    {
      if ieee == 0 {
        return None;
      }
      var i := 0;
      while i < deviceTable.Length && deviceTable[i].ieee != ieee
        invariant i <= deviceTable.Length && forall j :: 0 <= j < i ==> deviceTable[j].ieee != ieee
      {
        i := i + 1;
      }
      DeviceByIeeeIs(deviceTable[..], ieee, i);
      r := if i < deviceTable.Length then Some(i) else None;
    }

    /** The three nested lookups of a cluster entry; the endpoint is looked up without a check. */
    method FindClusterEntry(k: Key) returns (p: Option<Place>)
      requires Valid() && ValidKey(k) && DeviceByNodeId(deviceTable[..], k.nodeId) < deviceTable.Length
      requires EndpointById(deviceTable[DeviceByNodeId(deviceTable[..], k.nodeId)].endpoints, k.endpoint) < MAX_ENDPOINTS
      ensures p == PlaceOf(deviceTable[..], k)
    {
      var found := FindDeviceByNodeId(k.nodeId);
      var r := found.value;
      var es := deviceTable[r].endpoints;
      assert Sized(deviceTable[r]);
      var e := 0;
      while es[e].id != k.endpoint
        invariant e <= EndpointById(es, k.endpoint)
        decreases MAX_ENDPOINTS - e
      {
        e := e + 1;
      }
      EndpointByIdIs(es, k.endpoint, e);
      var c := 0;
      while c < MAX_CLUSTERS
        invariant c <= MAX_CLUSTERS && c <= ClusterById(es[e].clusters, k.cluster)
      {
        if es[e].clusters[c] == k.cluster {
          return Some(Place(r, e, c));
        }
        c := c + 1;
      }
      p := None;
    }

    method AddNewDevice(n: u16, ieee: nat) returns (r: Option<nat>)
      requires Valid()
      modifies deviceTable, counts
      ensures Valid() && attributeTable[..] == old(attributeTable[..])
      ensures var k := FreeDevice(old(deviceTable[..]));
              if ValidNodeId(n) && ieee != 0 && k < deviceTable.Length
              then r == Some(k) && deviceTable[..] == old(deviceTable[..])[k := Joined(n, ieee)]
                   && forall e, c :: 0 <= e < MAX_ENDPOINTS && 0 <= c < MAX_CLUSTERS ==> counts[k, e, c] == 0
              else r == None && deviceTable[..] == old(deviceTable[..])
      ensures old(Counted()) ==> Counted()
    {
      if !ValidNodeId(n) || ieee == 0 {
        return None;
      }
      var i := 0;
      while i < deviceTable.Length && deviceTable[i].nodeId != 0
        invariant i <= deviceTable.Length && forall j :: 0 <= j < i ==> deviceTable[j].nodeId != 0
      {
        i := i + 1;
      }
      DeviceByNodeIdIs(deviceTable[..], 0, i);
      if i == deviceTable.Length {
        return None;
      }
      forall e, c | 0 <= e < MAX_ENDPOINTS && 0 <= c < MAX_CLUSTERS {
        counts[i, e, c] := 0;
      }
      ghost var ds, rows, d := old(deviceTable[..]), old(attributeTable[..]), Joined(n, ieee);
      deviceTable[i] := Joined(n, ieee);
      r := Some(i);
      hide CountedAt, FreeDevice;
      if old(Counted()) {
        assert old(CountedOver(deviceTable[..], attributeTable[..]));
        assert deviceTable[..] == ds[i := d];
        forall p: Place | InTable(ds, p)
          ensures CountedAt(ds[i := d], p, rows, counts[p.device, p.endpoint, p.cluster])
        {
          if p.device == i {
            UnlistedIsCounted(ds[i := d], p, rows, 0);
          } else {
            OtherPlaceStays(ds, i, d, p, rows, counts[p.device, p.endpoint, p.cluster]);
          }
        }
      }
    }

    method FirstFreeRow() returns (i: nat)
      requires Valid()
      ensures i == FreeRow(attributeTable[..])
    {
      i := 0;
      while i < attributeTable.Length && attributeTable[i].nodeId != 0
        invariant i <= attributeTable.Length && forall j :: 0 <= j < i ==> attributeTable[j].nodeId != 0
      {
        i := i + 1;
      }
      FreeRowIs(attributeTable[..], i);
    }

    method AddNewAttribute(n: u16, endpoint: u8, cluster: u16, attribute: u16)
      requires Valid()
      requires ValidKey(Key(n, endpoint, cluster)) ==> PlaceOf(deviceTable[..], Key(n, endpoint, cluster)).Some?
      modifies attributeTable, counts
      ensures Valid() && attributeTable[..] == RowAdded(old(attributeTable[..]), Attribute(n, endpoint, cluster, attribute))
      ensures Counted() <==> old(Counted())
    {
      if !ValidNodeId(n) || !ValidEndpointId(endpoint) {
        return;
      }
      var i := FirstFreeRow();
      if i == attributeTable.Length {
        return;
      }
      hide CountedFor;
      hide FreeRow;
      ghost var rows := attributeTable[..];
      attributeTable[i] := Attribute(n, endpoint, cluster, attribute);
      CountRow(rows, Attribute(n, endpoint, cluster, attribute));
    }

    /** The increment for the row `a`, added to `rows`. */
    method CountRow(ghost rows: seq<Attribute>, a: Attribute)
      requires Valid() && FreeRow(rows) < |rows| && ValidKey(KeyOf(a)) && PlaceOf(deviceTable[..], KeyOf(a)).Some?
      modifies counts
      ensures Valid() && (old(CountedFor(rows)) <==> CountedFor(RowAdded(rows, a)))
    {
      hide RowAdded;
      hide CountedAt;
      hide FreeRow;
      var found := FindClusterEntry(KeyOf(a));
      var p := found.value;
      hide PlaceOf;
      ghost var ds := deviceTable[..];
      counts[p.device, p.endpoint, p.cluster] := (counts[p.device, p.endpoint, p.cluster] + 1) % 0x100;
      forall q: Place | InTable(ds, q)
        ensures CountedAt(ds, q, RowAdded(rows, a), counts[q.device, q.endpoint, q.cluster])
                <==> CountedAt(ds, q, rows, old(counts[q.device, q.endpoint, q.cluster]))
      {
        CountStep(ds, rows, a, p, q, old(counts[q.device, q.endpoint, q.cluster]));
      }
    }

    /** `uZDM_FindAttributeListByElement`, which also writes the number of rows back to the counter. */
    method FindAttributeList(k: Key, list: array<u16>) returns (count: u8)
      requires Valid()
      requires ValidKey(k) ==>
                 (PlaceOf(deviceTable[..], k).Some?
                  && |ListOf(attributeTable[..], k)| < 0x100 && |ListOf(attributeTable[..], k)| <= list.Length)
      modifies list, counts
      ensures Valid()
      ensures if ValidKey(k) then count == |ListOf(attributeTable[..], k)| && list[..count] == ListOf(attributeTable[..], k)
              else count == 0xFF && list[..] == old(list[..])
      ensures old(Counted()) ==> Counted()
      ensures old(Counted()) ==> forall p: Place :: InTable(deviceTable[..], p) ==>
                counts[p.device, p.endpoint, p.cluster] == old(counts[p.device, p.endpoint, p.cluster])
    {
      if !ValidKey(k) {
        return 0xFF;
      }
      count := CollectAttributes(k, list);
      var found := FindClusterEntry(k);
      var p := found.value;
      hide PlaceOf;
      hide ListOf;
      assert old(Counted()) ==> CountedAt(deviceTable[..], p, attributeTable[..], old(counts[p.device, p.endpoint, p.cluster]));
      counts[p.device, p.endpoint, p.cluster] := count;
    }

    method CollectAttributes(k: Key, list: array<u16>) returns (count: u8)
      requires Valid() && ValidKey(k)
      requires |ListOf(attributeTable[..], k)| < 0x100 && |ListOf(attributeTable[..], k)| <= list.Length
      modifies list
      ensures count == |ListOf(attributeTable[..], k)| && list[..count] == ListOf(attributeTable[..], k)
    {
      ghost var rows := attributeTable[..];
      count := 0;
      var i := 0;
      assert rows[..0] == [] && ListOf([], k) == [];
      hide ListOf;
      while i < attributeTable.Length
        invariant i <= attributeTable.Length && attributeTable[..] == rows
        invariant count == |ListOf(rows[..i], k)| <= |ListOf(rows, k)|
        invariant list[..count] == ListOf(rows[..i], k)
      {
        ListOfPrefix(rows, i, k);
        if KeyOf(attributeTable[i]) == k {
          list[count] := attributeTable[i].attribute;
          count := count + 1;
        }
        i := i + 1;
      }
      assert rows[..i] == rows;
    }

    // ---- The qualify process ----

    /** Two tries; each can fail to be sent or stay without a reply. */
    method AskForEndpoints(link: nat -> Outcome) returns (answered: bool, requests: nat)
      ensures answered == (link(0) == Replied || link(1) == Replied)
      ensures requests == if link(0) == Replied then 1 else 2
    {
      answered, requests := false, 0;
      while requests < 2
        invariant requests <= 2 && !answered
        invariant forall k :: 0 <= k < requests ==> link(k) != Replied
      {
        requests := requests + 1;
        if link(requests - 1) == Replied {
          return true, requests;
        }
      }
    }

    /**
     * Two tries, skipped for an endpoint id that is unset or Green Power; `stray` is what is read outside the list. `asked`
     * are the endpoint ids in the requests; the code asks for endpoint 1 only.
     */
    method AskForDescriptor(r: nat, link: nat -> Outcome, first: nat, stray: u8) returns (requests: nat, asked: seq<u8>)
      requires Valid() && r < deviceTable.Length
      modifies this`epArrayIndex
      ensures Valid() && epArrayIndex == Advanced(old(epArrayIndex)) && requests == first + |asked|
      ensures |deviceTable[r].endpoints| == MAX_ENDPOINTS
      ensures asked == DescriptorRequests(deviceTable[r].endpoints, old(epArrayIndex), link(first) == Replied, stray)
    {
      epArrayIndex := (epArrayIndex + 1) % 0x100;
      requests, asked := first, [];
      var i := 0;
      assert Sized(deviceTable[r]);
      var index: int := epArrayIndex - 1;
      var id := if 0 <= index < MAX_ENDPOINTS then deviceTable[r].endpoints[index].id else stray;
      while i < 2
        invariant i <= 2 && requests == first + |asked|
        invariant if id == 0xF2 || id == 0 then asked == [] else asked == [1, 1][..i]
        invariant i >= 1 && id != 0xF2 && id != 0 ==> link(first) != Replied
      {
        i := i + 1;
        if id == 0xF2 || id == 0 {
          continue;
        }
        requests := requests + 1;
        asked := asked + [1];
        assert asked == [1, 1][..i];
        if link(requests - 1) == Replied {
          break;
        }
      }
    }

    /** The lookups made when rows are added for the device lead back to it and to its listed endpoints. */
    ghost predicate Ready(r: nat)
      requires Valid() && r < deviceTable.Length
      reads deviceTable
    {
      DeviceByNodeId(deviceTable[..], deviceTable[r].nodeId) == r && ListedOnce(deviceTable[r])
    }

    ghost predicate PlaceReady(r: nat, i: nat, j: nat)
      requires Valid() && r < deviceTable.Length && i < MAX_ENDPOINTS && j < MAX_CLUSTERS
      reads deviceTable
    {
      assert Sized(deviceTable[r]);
      var k := KeyAt(deviceTable[..], Place(r, i, j));
      ValidKey(k) ==> PlaceOf(deviceTable[..], k).Some?
    }

    lemma ReadyHasPlace(r: nat, i: nat, j: nat)
      requires Valid() && r < deviceTable.Length && Ready(r) && i < deviceTable[r].endpointCount && j < MAX_CLUSTERS
      ensures i < MAX_ENDPOINTS && PlaceReady(r, i, j)
    {
      assert Sized(deviceTable[r]);
    }

    /** The model id is asked for twice at most, for every Basic cluster. */
    method ReadAttributes(r: nat, link: nat -> Outcome, first: nat) returns (requests: nat)
      requires Valid() && r < deviceTable.Length && deviceTable[r].state == ReadAttribute && Ready(r)
      modifies attributeTable, counts
      ensures Valid() && attributeTable[..] == AddEndpoints(old(attributeTable[..]), deviceTable[r], deviceTable[r].endpointCount)
      ensures first <= requests
      ensures Counted() <==> old(Counted())
    {
      hide CountedFor;
      hide AddAll;
      hide DeviceByNodeId;
      var d := deviceTable[r];
      assert Sized(d);
      requests := first;
      var i := 0;
      while i < d.endpointCount
        invariant i <= d.endpointCount && Valid() && first <= requests
        invariant attributeTable[..] == AddEndpoints(old(attributeTable[..]), d, i)
        invariant Counted() <==> old(Counted())
      {
        var j := 0;
        while j < d.endpoints[i].clusterCount
          invariant j <= d.endpoints[i].clusterCount && Valid() && first <= requests
          invariant attributeTable[..] == AddClusters(AddEndpoints(old(attributeTable[..]), d, i), d, i, j)
          invariant Counted() <==> old(Counted())
        {
          requests := ReadCluster(r, i, j, link, requests);
          j := j + 1;
        }
        i := i + 1;
      }
    }

    method ReadCluster(r: nat, i: nat, j: nat, link: nat -> Outcome, first: nat) returns (requests: nat)
      requires Valid() && r < deviceTable.Length && deviceTable[r].state == ReadAttribute && Ready(r)
      requires i < deviceTable[r].endpointCount && j < MAX_CLUSTERS && Sized(deviceTable[r])
      modifies attributeTable, counts
      ensures Valid() && (Counted() <==> old(Counted()))
      ensures requests == first + if deviceTable[r].endpoints[i].clusters[j] != 0x0000 then 0 else if link(first) == Replied then 1 else 2
      ensures var d := deviceTable[r];
              attributeTable[..] == AddAll(old(attributeTable[..]), d.nodeId, d.endpoints[i].id, d.endpoints[i].clusters[j],
                                           AttributesFor(d.state, d.endpoints[i].deviceType, d.endpoints[i].clusters[j]))
    {
      hide CountedFor, PlaceOf, RowAdded;
      var d := deviceTable[r];
      var cluster := d.endpoints[i].clusters[j];
      requests := first;
      if cluster == CLUSTER_BASIC {
        ReadyHasPlace(r, i, j);
        AddAllOne(attributeTable[..], d.nodeId, d.endpoints[i].id, cluster, ATTRIBUTE_BASIC_MODEL_ID);
        AddNewAttribute(d.nodeId, d.endpoints[i].id, cluster, ATTRIBUTE_BASIC_MODEL_ID);
        requests := AskForModelId(link, first);
      }
    }

    method AskForModelId(link: nat -> Outcome, first: nat) returns (requests: nat)
      ensures requests == first + if link(first) == Replied then 1 else 2
    {
      requests := first;
      while requests < first + 2
        invariant first <= requests <= first + 2 && (requests > first ==> link(first) != Replied)
      {
        requests := requests + 1;
        if link(requests - 1) == Replied {
          break;
        }
      }
    }

    method BindClusters(r: nat)
      requires Valid() && r < deviceTable.Length && deviceTable[r].state == BindCluster && Ready(r)
      modifies attributeTable, counts
      ensures Valid() && attributeTable[..] == AddEndpoints(old(attributeTable[..]), deviceTable[r], deviceTable[r].endpointCount)
      ensures Counted() <==> old(Counted())
    {
      hide CountedFor;
      hide AddAll;
      hide DeviceByNodeId;
      var d := deviceTable[r];
      assert Sized(d);
      var i := 0;
      while i < d.endpointCount
        invariant i <= d.endpointCount && Valid()
        invariant attributeTable[..] == AddEndpoints(old(attributeTable[..]), d, i)
        invariant Counted() <==> old(Counted())
      {
        var j := 0;
        while j < d.endpoints[i].clusterCount
          invariant j <= d.endpoints[i].clusterCount && Valid()
          invariant attributeTable[..] == AddClusters(AddEndpoints(old(attributeTable[..]), d, i), d, i, j)
          invariant Counted() <==> old(Counted())
        {
          BindOne(r, i, j);
          j := j + 1;
        }
        i := i + 1;
      }
    }

    /** The switch over the cluster id; the bind requests themselves are not part of this model. */
    method BindOne(r: nat, i: nat, j: nat)
      requires Valid() && r < deviceTable.Length && deviceTable[r].state == BindCluster && Ready(r)
      requires i < deviceTable[r].endpointCount && j < MAX_CLUSTERS && Sized(deviceTable[r])
      modifies attributeTable, counts
      ensures Valid() && (Counted() <==> old(Counted()))
      ensures var d := deviceTable[r];
              attributeTable[..] == AddAll(old(attributeTable[..]), d.nodeId, d.endpoints[i].id, d.endpoints[i].clusters[j],
                                           AttributesFor(d.state, d.endpoints[i].deviceType, d.endpoints[i].clusters[j]))
    {
      var d := deviceTable[r];
      var n, id, cluster := d.nodeId, d.endpoints[i].id, d.endpoints[i].clusters[j];
      ghost var rows := attributeTable[..];
      ReadyHasPlace(r, i, j);
      hide PlaceOf;
      match cluster {
        case 0x0006 | 0x0008 | 0x0402 | 0x0405 | 0x0400 | 0x0406 =>
          AddAllOne(rows, n, id, cluster, 0x0000);
          AddNewAttribute(n, id, cluster, 0x0000);
        case 0x0300 =>
          if d.endpoints[i].deviceType == DEVICEID_LIGHT_COLOR_TEMP {
            AddAllOne(rows, n, id, cluster, 0x0007);
            AddNewAttribute(n, id, cluster, 0x0007);
          } else if d.endpoints[i].deviceType == DEVICEID_LIGHT_COLOR_EXT {
            AddAllThree(rows, n, id, cluster, 0x0007, 0x0003, 0x0004);
            AddNewAttribute(n, id, cluster, 0x0007);
            AddNewAttribute(n, id, cluster, 0x0003);
            AddNewAttribute(n, id, cluster, 0x0004);
          }
        case _ =>
      }
    }

    /**
     * `vZDM_NewDeviceQualifyProcess`. It ends for every pattern of requests that cannot be sent and replies that do
     * not come.
     */
    method NewDeviceQualifyProcess(r: nat, link: nat -> Outcome, stray: u8) returns (asked: seq<u8>)
      requires Valid() && r < deviceTable.Length
      requires deviceTable[r].state == ReadAttribute || deviceTable[r].state == BindCluster ==> Ready(r)
      modifies this`epArrayIndex, deviceTable, attributeTable, counts
      ensures Valid() && Abs() == Qualified(old(Abs()), r, link(0) == Replied || link(1) == Replied)
      ensures Counted() <==> old(Counted())
      ensures asked == AskedBy(old(deviceTable[r]), old(epArrayIndex), link, stray)
      ensures old(deviceTable[r].state) != ReadAttribute && old(deviceTable[r].state) != BindCluster ==>
                forall d, e, c :: 0 <= d < deviceTable.Length && 0 <= e < MAX_ENDPOINTS && 0 <= c < MAX_CLUSTERS ==>
                  counts[d, e, c] == old(counts[d, e, c])
    {
      hide AddEndpoints, CountedFor, DescriptorRequests, DeviceByNodeId;
      ghost var answered := link(0) == Replied || link(1) == Replied;
      var loop := true;
      var requests := 0;
      asked := [];
      while loop
        invariant loop ==> asked == [] && epArrayIndex == old(epArrayIndex)
        invariant loop && deviceTable[r].state == NewJoined ==> old(deviceTable[r]).state == NewJoined
        invariant loop ==> deviceTable[r].endpoints == old(deviceTable[r]).endpoints
        invariant loop ==> if deviceTable[r].state == old(deviceTable[r]).state then requests == 0
                           else requests == 2 && !answered && old(deviceTable[r]).state == NewJoined && deviceTable[r].state == GetCluster
        invariant !loop ==> asked == AskedBy(old(deviceTable[r]), old(epArrayIndex), link, stray)
        invariant Valid()
        invariant if loop then Qualified(Abs(), r, answered) == Qualified(old(Abs()), r, answered)
                  else Settled(Abs(), r) == Qualified(old(Abs()), r, answered)
        invariant loop ==> attributeTable[..] == old(attributeTable[..])
        invariant loop && deviceTable[r].state != GetCluster ==> deviceTable[..] == old(deviceTable[..])
        invariant Counted() <==> old(Counted())
        invariant loop || (old(deviceTable[r].state) != ReadAttribute && old(deviceTable[r].state) != BindCluster) ==>
                    forall d, e, c :: 0 <= d < deviceTable.Length && 0 <= e < MAX_ENDPOINTS && 0 <= c < MAX_CLUSTERS ==>
                      counts[d, e, c] == old(counts[d, e, c])
        decreases loop, if deviceTable[r].state == NewJoined then 1 else 0
      {
        match deviceTable[r].state {
          case NewJoined =>
            var ok;
            ok, requests := AskForEndpoints(link);
            if ok {
              loop := false;
            } else {
              SetDevice(r, deviceTable[r].(endpointCount := 1, state := GetCluster));
            }
          case GetCluster =>
            requests, asked := AskForDescriptor(r, link, requests, stray);
            loop := false;
          case ReadAttribute =>
            requests := ReadAttributes(r, link, requests);
            loop := false;
          case BindCluster =>
            BindClusters(r);
            SetDevice(r, deviceTable[r].(state := Active));
            loop := false;
          case Active =>
            epArrayIndex := 0;
            loop := false;
          case _ =>
            loop := false;
        }
      }
      if deviceTable[r].state == Active {
        epArrayIndex := 0;
      }
    }

    /** A change of a record that leaves its node id and its lists. */
    method SetDevice(r: nat, d: Device)
      requires Valid() && r < deviceTable.Length && Sized(d)
      requires d.nodeId == deviceTable[r].nodeId && d.endpoints == deviceTable[r].endpoints
      modifies deviceTable
      ensures Valid() && deviceTable[..] == old(deviceTable[..])[r := d]
      ensures Counted() <==> old(Counted())
    {
      ghost var ds := deviceTable[..];
      deviceTable[r] := d;
      hide PlaceOf;
      hide ListOf;
      forall p: Place | InTable(ds, p)
        ensures KeyAt(deviceTable[..], p) == KeyAt(ds, p) && PlaceOf(deviceTable[..], KeyAt(ds, p)) == PlaceOf(ds, KeyAt(ds, p))
      {
        PlaceStays(ds, r, d, KeyAt(ds, p));
      }
    }

    // ---- The handlers ----

    /** The part of `ZCB_HandleDeviceAnnounce` that works on the device table. */
    method HandleDeviceAnnounce(n: u16, ieee: nat, link: nat -> Outcome, stray: u8)
      requires Valid()
      modifies this`epArrayIndex, deviceTable, attributeTable, counts
      ensures Valid() && Abs() == Announced(old(Abs()), n, ieee, link(0) == Replied || link(1) == Replied)
      ensures old(Counted()) ==> Counted()
      ensures var k := FreeDevice(old(deviceTable[..]));
              k < deviceTable.Length && deviceTable[k].nodeId == n != 0 && NoRowsOf(old(attributeTable[..]), n) ==> Blank(k)
    {
      hide CountedFor;
      var known := FindDeviceByIeeeAddress(ieee);
      if known == None {
        var r := AddNewDevice(n, ieee);
        if r.Some? {
          var _ := NewDeviceQualifyProcess(r.value, link, stray);
        }
      }
    }

    /** With a new record of the same node, right counters stay right exactly when they are at the new places. */
    lemma CountsStayExactlyWhen(r: nat, ds: seq<Device>)
      requires Valid() && r < |ds| == deviceTable.Length && forall i :: 0 <= i < |ds| ==> Sized(ds[i])
      requires deviceTable[..] == ds[r := deviceTable[r]] && deviceTable[r].nodeId == ds[r].nodeId
      requires CountedOver(ds, attributeTable[..])
      ensures Counted() <==> NewPlacesCountedFrom(ds, deviceTable[..])
    {
      var rows, now := attributeTable[..], deviceTable[..];
      hide CountedAt, PlaceOf;
      if NewPlacesCountedFrom(ds, now) {
        forall p: Place | InTable(now, p)
          ensures CountedAt(now, p, rows, counts[p.device, p.endpoint, p.cluster])
        {
          assert CountedAt(ds, p, rows, counts[p.device, p.endpoint, p.cluster]);
          if !NewPlace(ds, now, p) {
            OldPlaceStays(ds, now, p, rows, counts[p.device, p.endpoint, p.cluster]);
          }
        }
      }
    }

    /** Of a blank device every counter and every number of rows is zero. */
    lemma BlankIsCounted(r: nat, d: Device)
      requires Valid() && r < deviceTable.Length && Blank(r) && Sized(d) && d.nodeId == deviceTable[r].nodeId
      ensures NewPlacesCounted(deviceTable[..][r := d])
    {
      var ds := deviceTable[..];
      var next := ds[r := d];
      hide CountedAt, NewPlace;
      forall p: Place | NewPlace(ds, next, p)
        ensures CountedAt(next, p, attributeTable[..], counts[p.device, p.endpoint, p.cluster])
      {
        NewPlaceIsOfDevice(ds, r, d, p);
        UnlistedIsCounted(next, p, attributeTable[..], 0);
      }
    }

    method ListEndpoints(r: nat, list: array<u8>)
      requires Valid() && r < deviceTable.Length && list.Length <= MAX_ENDPOINTS && Sized(deviceTable[r])
      modifies deviceTable
      ensures Valid()
      ensures deviceTable[..] ==
              old(deviceTable[..])[r := old(deviceTable[r]).(endpoints := Listed(old(deviceTable[r]).endpoints, list[..]))]
    {
      ghost var d := deviceTable[r];
      var i := 0;
      assert Listed(d.endpoints, list[..0]) == d.endpoints;
      while i < list.Length
        invariant i <= list.Length && Valid() && Sized(deviceTable[r])
        invariant deviceTable[..] == old(deviceTable[..])[r := d.(endpoints := Listed(d.endpoints, list[..i]))]
      {
        var es := deviceTable[r].endpoints;
        assert es[i := es[i].(id := list[i])] == Listed(d.endpoints, list[..i + 1]);
        deviceTable[r] := deviceTable[r].(endpoints := es[i := es[i].(id := list[i])]);
        i := i + 1;
      }
      assert list[..i] == list[..];
    }

    method Relist(r: nat, list: array<u8>)
      requires Valid() && r < deviceTable.Length && list.Length <= MAX_ENDPOINTS && Sized(deviceTable[r])
      modifies deviceTable
      ensures Valid() && deviceTable[..] == old(deviceTable[..])[r := Relisted(old(deviceTable[r]), list[..])]
      ensures old(Counted()) ==> (Counted() <==> old(NewPlacesCounted(deviceTable[..][r := Relisted(deviceTable[r], list[..])])))
    {
      hide Listed, CountedOver, NewPlacesCountedFrom;
      deviceTable[r] := deviceTable[r].(endpointCount := list.Length);
      ListEndpoints(r, list);
      deviceTable[r] := deviceTable[r].(state := GetCluster);
      if old(Counted()) {
        CountsStayExactlyWhen(r, old(deviceTable[..]));
      }
    }

    /**
     * The part of `ZCB_HandleActiveEndPointResp` that works on the device table. The counters stay right exactly when they
     * are for the entries of endpoints that the list puts at a new place.
     */
    method HandleActiveEndPointResp(n: u16, list: array<u8>, link: nat -> Outcome, stray: u8)
      requires Valid() && list.Length <= MAX_ENDPOINTS
      modifies this`epArrayIndex, deviceTable, attributeTable, counts
      ensures Valid() && Abs() == EndpointsAnswered(old(Abs()), n, list[..])
      ensures var r := DeviceByNodeId(old(deviceTable[..]), n);
              if ValidNodeId(n) && r < deviceTable.Length && old(deviceTable[r]).state != Active
              then old(Counted()) ==> (Counted() <==> old(NewPlacesCounted(deviceTable[..][r := Relisted(deviceTable[r], list[..])])))
              else Counted() <==> old(Counted())
      ensures forall r :: r == DeviceByNodeId(old(deviceTable[..]), n) < deviceTable.Length && old(Blank(r)) ==>
                Blank(r) && (old(Counted()) ==> Counted())
    {
      hide Qualified, Listed, CountedOver, DeviceByNodeId, NewPlacesCountedFrom;
      var found := FindDeviceByNodeId(n);
      if found == None {
        return;
      }
      var r := found.value;
      if deviceTable[r].state != Active {
        assert Sized(deviceTable[r]);
        if Blank(r) {
          BlankIsCounted(r, Relisted(deviceTable[r], list[..]));
        }
        Relist(r, list);
        ghost var s := Abs();
        var _ := NewDeviceQualifyProcess(r, link, stray);
        AnswerMattersOnlyToNew(s, r, link(0) == Replied || link(1) == Replied);
        ListedKeepsNode(s, r);
      }
    }

    /** The endpoint entry takes the device type and the filtered cluster list. */
    method DescribeEndpoint(r: nat, endpoint: u8, deviceType: u16, listed: array<u16>, count: nat)
      requires Valid() && r < deviceTable.Length && count <= listed.Length && count <= MAX_CLUSTERS && Sized(deviceTable[r])
      requires ValidEndpointId(endpoint) && EndpointById(deviceTable[r].endpoints, endpoint) < MAX_ENDPOINTS
      modifies deviceTable
      ensures Valid() && |Filtered(listed[..count])| <= MAX_CLUSTERS
      ensures var d := old(deviceTable[r]);
              var e := EndpointById(d.endpoints, endpoint);
              var e' := Redescribed(d.endpoints[e], deviceType, Filtered(listed[..count]));
              deviceTable[..] == old(deviceTable[..])[r := d.(endpoints := d.endpoints[e := e'])]
    {
      var d := deviceTable[r];
      var e := 0;
      while d.endpoints[e].id != endpoint
        invariant e <= EndpointById(d.endpoints, endpoint)
        decreases MAX_ENDPOINTS - e
      {
        e := e + 1;
      }
      EndpointByIdIs(d.endpoints, endpoint, e);
      var sZDCluster := new u16[MAX_CLUSTERS](i requires 0 <= i < MAX_CLUSTERS => d.endpoints[e].clusters[i]);
      assert sZDCluster[..] == d.endpoints[e].clusters;
      var actual := FilterClusters(listed, count, sZDCluster);
      assert sZDCluster[..] == sZDCluster[..actual] + sZDCluster[actual..];
      deviceTable[r] := d.(endpoints := d.endpoints[e := Endpoint(endpoint, deviceType, actual, sZDCluster[..])]);
    }

    method Describe(r: nat, endpoint: u8, deviceType: u16, listed: array<u16>, count: nat)
      requires Valid() && r < deviceTable.Length && count <= listed.Length && count <= MAX_CLUSTERS && Sized(deviceTable[r])
      requires ValidEndpointId(endpoint) && EndpointById(deviceTable[r].endpoints, endpoint) < MAX_ENDPOINTS
      modifies deviceTable
      ensures Valid() && |Filtered(listed[..count])| <= MAX_CLUSTERS
      ensures var d := Described(old(deviceTable[r]), endpoint, deviceType, Filtered(listed[..count]));
              && deviceTable[..] == old(deviceTable[..])[r := d]
              && (old(Counted()) ==> (Counted() <==> old(NewPlacesCounted(deviceTable[..][r := d]))))
      ensures old(Ready(r)) ==> Ready(r)
    {
      hide Filtered, CountedOver, NewPlacesCountedFrom;
      ghost var d, e := deviceTable[r], EndpointById(deviceTable[r].endpoints, endpoint);
      DescribeEndpoint(r, endpoint, deviceType, listed, count);
      var next := if endpoint == deviceTable[r].endpoints[0].id then ReadAttribute else GetCluster;
      deviceTable[r] := deviceTable[r].(state := next);
      IdsStay(d.endpoints, e, Redescribed(d.endpoints[e], deviceType, Filtered(listed[..count])));
      LookupStays(old(deviceTable[..]), r, deviceTable[r], d.nodeId);
      if old(Counted()) {
        CountsStayExactlyWhen(r, old(deviceTable[..]));
      }
    }

    /**
     * The part of `ZCB_HandleSimpleDescriptorResponse` that works on the device table. The counters stay right exactly when
     * they are for the clusters that the descriptor puts at a new place.
     */
    method HandleSimpleDescriptorResponse(n: u16, endpoint: u8, deviceType: u16, listed: array<u16>, count: nat,
                                          link: nat -> Outcome, stray: u8)
      requires Valid() && count <= listed.Length && count <= MAX_CLUSTERS && DescriptorFits(Abs(), n, endpoint)
      requires ListedOnce(deviceTable[DeviceByNodeId(deviceTable[..], n)])
      modifies this`epArrayIndex, deviceTable, attributeTable, counts
      ensures Valid() && Abs() == DescriptorAnswered(old(Abs()), n, endpoint, deviceType, listed[..count])
      ensures |Filtered(listed[..count])| <= MAX_CLUSTERS
      ensures var r := DeviceByNodeId(old(deviceTable[..]), n);
              if old(deviceTable[r]).state == Active then Counted() <==> old(Counted())
              else
                var d := Described(old(deviceTable[r]), endpoint, deviceType, Filtered(listed[..count]));
                old(Counted()) ==> (Counted() <==> old(NewPlacesCounted(deviceTable[..][r := d])))
      ensures old(Counted()) && old(Blank(DeviceByNodeId(deviceTable[..], n))) ==> Counted()
    {
      hide Filtered, Qualified, CountedOver, NewPlacesCountedFrom;
      var found := FindDeviceByNodeId(n);
      var r := found.value;
      ghost var d := deviceTable[r];
      FilteredIsShorter(listed[..count]);
      if deviceTable[r].state != Active {
        assert Sized(d);
        if Blank(r) {
          BlankIsCounted(r, Described(d, endpoint, deviceType, Filtered(listed[..count])));
        }
        Describe(r, endpoint, deviceType, listed, count);
        ghost var s := Abs();
        var _ := NewDeviceQualifyProcess(r, link, stray);
        AnswerMattersOnlyToNew(s, r, link(0) == Replied || link(1) == Replied);
      }
    }

    method FindAttributeEntry(a: Attribute) returns (found: bool)
      requires Valid()
      ensures found == Expected(Abs(), a)
    {
      if !ValidNodeId(a.nodeId) || !ValidEndpointId(a.endpoint) {
        return false;
      }
      var i := 0;
      while i < attributeTable.Length
        invariant i <= attributeTable.Length && a !in attributeTable[..i]
      {
        if attributeTable[i] == a {
          assert a == attributeTable[..][i];
          return true;
        }
        i := i + 1;
      }
      assert attributeTable[..i] == attributeTable[..];
      found := false;
    }

    /** `ZCB_HandleReadAttrResp` without the value that it stores. */
    method HandleReadAttrResp(a: Attribute, link: nat -> Outcome, stray: u8)
      requires Valid() && ReadFits(Abs(), a)
      requires Expected(Abs(), a) ==> ListedOnce(deviceTable[DeviceByNodeId(deviceTable[..], a.nodeId)])
      modifies this`epArrayIndex, deviceTable, attributeTable, counts
      ensures Valid() && Abs() == ReadAnswered(old(Abs()), a)
      ensures old(Counted()) ==> Counted()
    {
      hide CountedFor;
      hide Qualified;
      var found := FindAttributeEntry(a);
      if found {
        var device := FindDeviceByNodeId(a.nodeId);
        var r := device.value;
        if deviceTable[r].state != Active && a.cluster == CLUSTER_BASIC && a.attribute == ATTRIBUTE_BASIC_MODEL_ID {
          assert Sized(deviceTable[r]);
          SetDevice(r, deviceTable[r].(state := BindCluster));
          LookupStays(old(deviceTable[..]), r, deviceTable[r], a.nodeId);
          ghost var s := Abs();
          var _ := NewDeviceQualifyProcess(r, link, stray);
          AnswerMattersOnlyToNew(s, r, link(0) == Replied || link(1) == Replied);
        }
      }
    }
  }

  /** Asking for descriptors changes no record and no row. */
  lemma ListedKeepsNode(s: State, r: nat)
    requires Shaped(s) && r < |s.devices| && s.devices[r].state == GetCluster
    ensures Qualified(s, r, false).devices == s.devices && Qualified(s, r, false).rows == s.rows
  {
  }

  /** The list of one more row. */
  lemma ListOfPrefix(rows: seq<Attribute>, i: nat, k: Key)
    requires i < |rows|
    ensures ListOf(rows[..i + 1], k) == ListOf(rows[..i], k) + OneOf(rows[i], k)
    ensures |ListOf(rows[..i + 1], k)| <= |ListOf(rows, k)|
  {
    assert rows[..i + 1][..i] == rows[..i];
    ListOfSplit(rows, i, k);
  }

  predicate NoRowsOf(rows: seq<Attribute>, n: u16) { forall q :: 0 <= q < |rows| ==> rows[q].nodeId != n }

  lemma {:induction false} NoRowsNoList(rows: seq<Attribute>, k: Key)
    requires NoRowsOf(rows, k.nodeId)
    ensures ListOf(rows, k) == []
  {
    if |rows| > 0 {
      NoRowsNoList(rows[..|rows| - 1], k);
    }
  }

  /** Where no rows are listed for the node, or the endpoint is unset, zero is right. */
  lemma UnlistedIsCounted(ds: seq<Device>, p: Place, rows: seq<Attribute>, count: u8)
    requires (forall r :: 0 <= r < |ds| ==> Sized(ds[r])) && InTable(ds, p) && count == 0
    requires NoRowsOf(rows, ds[p.device].nodeId) || !ValidKey(KeyAt(ds, p))
    ensures CountedAt(ds, p, rows, count)
  {
    hide ListOf, PlaceOf;
    if NoRowsOf(rows, ds[p.device].nodeId) {
      NoRowsNoList(rows, KeyAt(ds, p));
    }
  }

  /** An entry that the new records find where the old ones did. */
  lemma OldPlaceStays(ds: seq<Device>, next: seq<Device>, p: Place, rows: seq<Attribute>, count: u8)
    requires (forall r :: 0 <= r < |ds| ==> Sized(ds[r])) && (forall r :: 0 <= r < |next| ==> Sized(next[r]))
    requires InTable(ds, p) && InTable(next, p) && !NewPlace(ds, next, p) && CountedAt(ds, p, rows, count)
    ensures CountedAt(next, p, rows, count)
  {
    hide PlaceOf, ListOf;
  }

  /** Only entries of the device whose record changed get new places. */
  lemma {:induction false} NewPlaceIsOfDevice(ds: seq<Device>, r: nat, d: Device, p: Place)
    requires (forall i :: 0 <= i < |ds| ==> Sized(ds[i])) && r < |ds| && Sized(d) && d.nodeId == ds[r].nodeId
    requires NewPlace(ds, ds[r := d], p)
    ensures p.device == r
  {
    LookupStays(ds, r, d, KeyAt(ds[r := d], p).nodeId);
  }

  /** The entry at `p`, of a device that its node id leads to, is the first of its endpoint id and its cluster id. */
  lemma {:induction false} PlaceOfEntry(ds: seq<Device>, p: Place)
    requires (forall i :: 0 <= i < |ds| ==> Sized(ds[i])) && InTable(ds, p)
    ensures var es, k := ds[p.device].endpoints, KeyAt(ds, p);
            PlaceOf(ds, k) == Some(p) <==>
            && DeviceByNodeId(ds, k.nodeId) == p.device && EndpointById(es, k.endpoint) == p.endpoint
            && ClusterById(es[p.endpoint].clusters, k.cluster) == p.cluster
  {
  }

  /** A descriptor puts at a new place just the clusters that it lists first where they did not stand first before. */
  lemma {:induction false} DescriptorMoves(ds: seq<Device>, r: nat, id: u8, deviceType: u16, filtered: seq<u16>, p: Place)
    requires (forall i :: 0 <= i < |ds| ==> Sized(ds[i])) && r < |ds| && r == DeviceByNodeId(ds, ds[r].nodeId)
    requires Sized(ds[r]) && ValidNodeId(ds[r].nodeId) && ValidEndpointId(id) && EndpointById(ds[r].endpoints, id) < MAX_ENDPOINTS
    requires |filtered| <= MAX_CLUSTERS
    ensures var e := EndpointById(ds[r].endpoints, id);
            var before := ds[r].endpoints[e].clusters;
            var now := filtered + before[|filtered|..];
            NewPlace(ds, ds[r := Described(ds[r], id, deviceType, filtered)], p) <==>
            && p.device == r && p.endpoint == e && p.cluster < MAX_CLUSTERS
            && ClusterById(now, now[p.cluster]) == p.cluster && ClusterById(before, now[p.cluster]) != p.cluster
  {
    var d := Described(ds[r], id, deviceType, filtered);
    var next, e := ds[r := d], EndpointById(ds[r].endpoints, id);
    IdsStay(ds[r].endpoints, e, d.endpoints[e]);
    if NewPlace(ds, next, p) {
      NewPlaceIsOfDevice(ds, r, d, p);
    }
    if InTable(next, p) && p.device == r {
      PlaceOfEntry(next, p);
      LookupStays(ds, r, d, d.nodeId);
    }
  }

  /** A list of endpoints puts at a new place just the entries of the ids that it lists first where they did not stand first. */
  lemma {:induction false} ListMoves(ds: seq<Device>, r: nat, list: seq<u8>, p: Place)
    requires (forall i :: 0 <= i < |ds| ==> Sized(ds[i])) && r < |ds| && r == DeviceByNodeId(ds, ds[r].nodeId)
    requires Sized(ds[r]) && ValidNodeId(ds[r].nodeId) && |list| <= MAX_ENDPOINTS && InTable(ds, p) && p.device == r
    ensures var before, now := ds[r].endpoints, Listed(ds[r].endpoints, list);
            var id, cs := now[p.endpoint].id, before[p.endpoint].clusters;
            NewPlace(ds, ds[r := Relisted(ds[r], list)], p) <==>
            && ValidEndpointId(id) && EndpointById(now, id) == p.endpoint && EndpointById(before, id) != p.endpoint
            && ClusterById(cs, cs[p.cluster]) == p.cluster
  {
    var d := Relisted(ds[r], list);
    PlaceOfEntry(ds[r := d], p);
    LookupStays(ds, r, d, d.nodeId);
  }

  /** A later descriptor that lists another cluster, without rows, where Basic stood makes a right counter wrong. */
  lemma {:induction false} MovedBasicIsMiscounted(ds: seq<Device>, r: nat, id: u8, deviceType: u16, filtered: seq<u16>,
                                                  rows: seq<Attribute>, count: u8)
    requires (forall i :: 0 <= i < |ds| ==> Sized(ds[i])) && r < |ds| && r == DeviceByNodeId(ds, ds[r].nodeId)
    requires Sized(ds[r]) && ValidNodeId(ds[r].nodeId) && ValidEndpointId(id) && EndpointById(ds[r].endpoints, id) < MAX_ENDPOINTS
    requires var e := EndpointById(ds[r].endpoints, id);
             && ds[r].endpoints[e].clusters[0] == CLUSTER_BASIC && CountedAt(ds, Place(r, e, 0), rows, count)
    requires 0 < |ListOf(rows, Key(ds[r].nodeId, id, CLUSTER_BASIC))| < 0x100
    requires 0 < |filtered| <= MAX_CLUSTERS && filtered[0] != CLUSTER_BASIC && ListOf(rows, Key(ds[r].nodeId, id, filtered[0])) == []
    ensures var e := EndpointById(ds[r].endpoints, id);
            !CountedAt(ds[r := Described(ds[r], id, deviceType, filtered)], Place(r, e, 0), rows, count)
  {
    hide ListOf;
    var e := EndpointById(ds[r].endpoints, id);
    DescriptorMoves(ds, r, id, deviceType, filtered, Place(r, e, 0));
    PlaceOfEntry(ds, Place(r, e, 0));
  }

  /** A change of one record, of the same node or in a free place, changes no other entry that a lookup reaches. */
  lemma {:induction false} OtherPlaceStays(ds: seq<Device>, r: nat, d: Device, p: Place, rows: seq<Attribute>, count: u8)
    requires (forall i :: 0 <= i < |ds| ==> Sized(ds[i])) && r < |ds| && Sized(d) && InTable(ds, p) && p.device != r
    requires d.nodeId == ds[r].nodeId || ds[r].nodeId == 0
    requires CountedAt(ds, p, rows, count)
    ensures CountedAt(ds[r := d], p, rows, count)
  {
    hide ListOf;
    var next := ds[r := d];
    var k := KeyAt(next, p);
    assert k == KeyAt(ds, p);
    if ValidKey(k) && PlaceOf(next, k) == Some(p) {
      assert DeviceByNodeId(next, k.nodeId) == p.device;
      forall i | 0 <= i < p.device ensures ds[i].nodeId != k.nodeId {
        assert next[i].nodeId != k.nodeId;
      }
      DeviceByNodeIdIs(ds, k.nodeId, p.device);
    }
  }

  lemma AnswerMattersOnlyToNew(s: State, r: nat, answered: bool)
    requires Shaped(s) && r < |s.devices| && s.devices[r].state != NewJoined
    ensures Qualified(s, r, answered) == Qualified(s, r, false)
  {
  }

  lemma IdsStay(es: seq<Endpoint>, x: nat, e: Endpoint)
    requires x < |es| && e.id == es[x].id
    ensures forall id: u8 :: EndpointById(es[x := e], id) == EndpointById(es, id)
  {
    forall id: u8 ensures EndpointById(es[x := e], id) == EndpointById(es, id) {
      EndpointByIdIs(es[x := e], id, EndpointById(es, id));
    }
  }

  lemma PlaceStays(ds: seq<Device>, r: nat, d: Device, k: Key)
    requires (forall i :: 0 <= i < |ds| ==> Sized(ds[i])) && r < |ds| && Sized(d)
    requires d.nodeId == ds[r].nodeId && d.endpoints == ds[r].endpoints
    ensures PlaceOf(ds[r := d], k) == PlaceOf(ds, k)
  {
    LookupStays(ds, r, d, k.nodeId);
  }

  lemma AddAllThree(rows: seq<Attribute>, n: u16, id: u8, cluster: u16, a: u16, b: u16, c: u16)
    ensures AddAll(rows, n, id, cluster, [a, b, c]) ==
            RowAdded(RowAdded(RowAdded(rows, Attribute(n, id, cluster, a)), Attribute(n, id, cluster, b)), Attribute(n, id, cluster, c))
  {
    AddAllOne(rows, n, id, cluster, a);
    assert [a, b, c][..2] == [a, b] && [a, b][..1] == [a];
  }

  /** A row more for the entry it was added at, and for no other. */
  lemma {:induction false} CountStep(ds: seq<Device>, rows: seq<Attribute>, a: Attribute, p: Place, q: Place, count: u8)
    requires (forall r :: 0 <= r < |ds| ==> Sized(ds[r])) && FreeRow(rows) < |rows| && InTable(ds, q)
    requires PlaceOf(ds, KeyOf(a)) == Some(p)
    ensures CountedAt(ds, q, RowAdded(rows, a), if q == p then (count + 1) % 0x100 else count) <==> CountedAt(ds, q, rows, count)
  {
    hide PlaceOf;
    hide ListOf;
    var k := KeyAt(ds, q);
    if ValidKey(k) {
      RowAddedCounts(rows, a, k);
    }
  }
}
