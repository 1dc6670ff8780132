/**
 * The global variables of `zcb.c` and the device manager of `BridgeMgr.cpp` as one object. Every method does to
 * the abstract state what the function of the same purpose in module Bridge says.
 */
module BridgeSystem {
  import opened Bytes
  import opened DeviceKinds
  import Devices
  import opened EndpointSearch
  import opened Options
  import opened SavedNodes
  import opened Bridge

  class System {
    // zcb.c
    const joinedNodes: array<Node>
    var idx: nat
    const table: SavedTable
    var clusterBitmap: Bitmap
    var zcbMsg: Mail
    // BridgeMgr.cpp
    const gDevices: array<Device>
    var gIndex: nat
    var mCurrentEndpointId: u16
    const mFirstDynamicEndpointId: u16
    // The SDK
    var usedIds: set<u16>
    const refusedIds: set<u16>

    ghost predicate Valid()
      reads this, joinedNodes, gDevices, table, table.joinedNodes
    {
      && joinedNodes.Length == DEV_NUM && gDevices.Length == DYNAMIC_ENDPOINT_COUNT
      && idx < DEV_NUM && table.Valid() && joinedNodes != table.joinedNodes
    }

    ghost function Abs(): State
      requires Valid()
      reads this, joinedNodes, gDevices, table, table.joinedNodes
    {
      State(joinedNodes[..], idx, table.Abs(), clusterBitmap, zcbMsg, gDevices[..], gIndex, mCurrentEndpointId,
            usedIds, mFirstDynamicEndpointId, refusedIds)
    }

    constructor (first: u16, refused: set<u16>)
      ensures Valid() && fresh(joinedNodes) && fresh(gDevices) && fresh(table) && fresh(table.joinedNodes)
      ensures Abs() == Restarted(Abs())
    {
      joinedNodes := new Node[DEV_NUM](i => EMPTY_NODE);
      gDevices := new Device[DYNAMIC_ENDPOINT_COUNT](i => NoDevice);
      idx, clusterBitmap, zcbMsg, gIndex := 0, NO_CLUSTERS, NoMail, 0;
      mCurrentEndpointId, mFirstDynamicEndpointId := first, first;
      usedIds, refusedIds := FixedIds(first), refused;
      table := new SavedTable();
      new;
      assert joinedNodes[..] == seq(DEV_NUM, _ => EMPTY_NODE);
      assert gDevices[..] == seq(DYNAMIC_ENDPOINT_COUNT, _ => NoDevice);
    }

    /** The first part of `ZCB_HandleDeviceAnnounce`. */
    method HandleDeviceAnnounce(shortaddr: u16, mac: nat)
      requires Valid()
      modifies this, joinedNodes
      ensures Valid() && Abs() == Announced(old(Abs()), shortaddr, mac)
    {
      var i := 0;
      while i < DEV_NUM && !(joinedNodes[i].nodeType == 0 && joinedNodes[i].ep == 0)
        invariant i <= DEV_NUM
        invariant forall j :: 0 <= j < i ==> joinedNodes[j].nodeType != 0 || joinedNodes[j].ep != 0
      {
        i := i + 1;
      }
      FreeSlotIs(joinedNodes[..], i);
      if i < DEV_NUM {
        joinedNodes[i] := Node(1, joinedNodes[i].ep, shortaddr, mac);
        idx := i;
      }
    }

    /** The cluster part of `ZCB_HandleSimpleDescriptorResponse` and its post to the monitor. */
    method HandleSimpleDescriptor(listed: array<u16>, count: nat, sZDCluster: array<u16>)
      requires Valid() && count <= listed.Length && count <= Devices.MAX_CLUSTERS == sZDCluster.Length && listed != sZDCluster
      modifies this, joinedNodes, sZDCluster
      ensures Valid() && Abs() == Described(old(Abs()), old(listed[..count]))
    {
      var actual := FilterClusters(listed, count, sZDCluster);
      var n := joinedNodes[idx];
      var bitmap, nodeType := ScanClusters(sZDCluster, actual, n.nodeType);
      clusterBitmap := bitmap;
      joinedNodes[idx] := n.(nodeType := nodeType);
      zcbMsg := AddDevice(clusterBitmap);
    }

    method UpdateJoinedNodes(ep: u16)
      requires Valid() && |Updated(Abs(), ep).store.ram| <= DEV_NUM
      modifies this, joinedNodes, table, table.joinedNodes
      ensures Valid() && Abs() == Updated(old(Abs()), ep)
    {
      if joinedNodes[idx].nodeType != 0 && joinedNodes[idx].ep == 0 && ep != 0 {
        joinedNodes[idx] := joinedNodes[idx].(ep := ep);
        table.StoreJoinedNode(joinedNodes[idx], true);
      }
    }

    /** The endpoint after the largest saved one, from a copy of the file. */
    method FirstTry() returns (start: u16)
      requires Valid()
      ensures start == StartId(Abs())
    {
      if !table.hasFile {
        return mCurrentEndpointId;
      }
      var rows := table.file;
      var tmp: u16 := 0;
      var j := 0;
      while j < |rows|
        invariant j <= |rows| && tmp == MaxEp(rows[..j])
      {
        assert rows[..j + 1][..j] == rows[..j];
        if rows[j].ep > tmp {
          tmp := rows[j].ep;
        }
        j := j + 1;
      }
      assert rows[..j] == rows;
      start := (tmp + 1) % 0x1_0000;
    }

    /** `AddDeviceEndpoint` for a device that is not reachable yet; `free` is an unused dynamic id. */
    method AddDeviceEndpoint(kind: Kind, ghost free: u16) returns (index: int)
      requires Valid() && Free(mFirstDynamicEndpointId, usedIds, free)
      requires |Added(Abs(), kind).store.ram| <= DEV_NUM
      modifies this, joinedNodes, gDevices, table, table.joinedNodes
      ensures Valid() && Abs() == Added(old(Abs()), kind)
      ensures index >= 0 <==> FreeIndex(old(Abs()).devices) < DYNAMIC_ENDPOINT_COUNT && Abs().current !in refusedIds
      ensures index >= 0 ==> index == FreeIndex(old(Abs()).devices)
    {
      hide Stored, AllocatedId;
      var start := FirstTry();
      mCurrentEndpointId := start;
      var i := 0;
      while i < DYNAMIC_ENDPOINT_COUNT && !gDevices[i].NoDevice?
        invariant i <= DYNAMIC_ENDPOINT_COUNT
        invariant forall j :: 0 <= j < i ==> !gDevices[j].NoDevice?
      {
        i := i + 1;
      }
      FreeIndexIs(gDevices[..], i);
      if i == DYNAMIC_ENDPOINT_COUNT {
        return -1;
      }
      ghost var retries;
      mCurrentEndpointId, retries := Search(mCurrentEndpointId, mFirstDynamicEndpointId, usedIds, free);
      gDevices[i] := Device(kind, mCurrentEndpointId, false);
      if mCurrentEndpointId in refusedIds {
        return -1;
      }
      usedIds := usedIds + {mCurrentEndpointId};
      gDevices[i] := Device(kind, mCurrentEndpointId, true);
      UpdateJoinedNodes(mCurrentEndpointId);
      index := i;
    }

    method RestoreNodeEndpoint(kind: Kind, ep: u16)
      requires Valid() && gIndex < DYNAMIC_ENDPOINT_COUNT
      modifies this, gDevices
      ensures Valid() && Abs() == Restored(old(Abs()), kind, ep)
    {
      gDevices[gIndex] := Device(kind, ep, true);
      if ep !in usedIds && ep !in refusedIds {
        usedIds := usedIds + {ep};
      }
      gIndex := gIndex + 1;
    }

    /** One turn of `ZcbMonitor`. */
    method MonitorPoll(ghost free: u16)
      requires Valid() && gIndex < DYNAMIC_ENDPOINT_COUNT && Free(mFirstDynamicEndpointId, usedIds, free)
      requires |Polled(Abs()).store.ram| <= DEV_NUM
      modifies this, joinedNodes, gDevices, table, table.joinedNodes
      ensures Valid() && Abs() == Polled(old(Abs()))
    {
      hide Added, Stored;
      match zcbMsg
      case NoMail =>
      case WriteAttribute =>
        zcbMsg := NoMail;
      case AddDevice(b) =>
        if b.color {
          var _ := AddDeviceEndpoint(ColorLight, free);
        } else if b.dimmable {
          var _ := AddDeviceEndpoint(DimmableLight, free);
        } else if b.onOff {
          var _ := AddDeviceEndpoint(OnOffLight, free);
        } else if b.temperature {
          var _ := AddDeviceEndpoint(TemperatureSensor, free);
        }
        zcbMsg := NoMail;
      case RestoreNode(_, _) =>
        PollRestore();
    }

    /** `RestoreJoinedNodes`, with a poll of the monitor during each delay; without a file it does nothing. */
    method RestoreJoinedNodes()
      requires Valid() && zcbMsg == NoMail
      requires table.hasFile ==> gIndex + |table.file| < DYNAMIC_ENDPOINT_COUNT
      modifies this, joinedNodes, gDevices, table, table.joinedNodes
      ensures Valid()
      ensures Abs() == if old(table.hasFile)
                       then RestoredFrom(old(Abs()).(store := old(table.Abs()).(ram := old(table.file))), 0) else old(Abs())
    {
      hide Polled, RestorePosted;
      var ret := table.ReadFromFlash(true);
      if !ret {
        return;
      }
      ghost var start := Abs();
      var i := 0;
      while i < table.totalNodes
        invariant Valid() && zcbMsg == NoMail && table.Abs() == start.store && i <= |start.store.file| <= DEV_NUM
        invariant gIndex + |start.store.file| - i < DYNAMIC_ENDPOINT_COUNT
        invariant RestoredFrom(Abs(), i) == RestoredFrom(start, 0)
      {
        assert table.Abs().ram == start.store.file;
        RestoreRow(i);
        i := i + 1;
      }
    }

    method RestoreRow(i: nat)
      requires Valid() && i < |table.file| && table.totalNodes == |table.file| && table.Abs().ram == table.file
      requires zcbMsg == NoMail && gIndex < DYNAMIC_ENDPOINT_COUNT
      modifies this, joinedNodes, gDevices
      ensures Valid() && Abs() == Polled(RestorePosted(old(Abs()), i))
      ensures zcbMsg == NoMail && old(gIndex) <= gIndex <= old(gIndex) + 1
    {
      var row := table.joinedNodes[i];
      assert row == table.Abs().ram[i];
      if row.nodeType != 0 {
        joinedNodes[i] := row;
        zcbMsg := RestoreNode(row.nodeType, row.ep);
        assert Abs() == RestorePosted(old(Abs()), i);
        PollRestore();
      }
    }

    /** The monitor's turn on a restore message: `RetrieveJoinedNode`. */
    method PollRestore()
      requires Valid() && gIndex < DYNAMIC_ENDPOINT_COUNT && zcbMsg.RestoreNode?
      modifies this, gDevices
      ensures Valid() && Abs() == Polled(old(Abs()))
      ensures zcbMsg == NoMail && old(gIndex) <= gIndex <= old(gIndex) + 1
    {
      if zcbMsg.nodeType == 1 {
        RestoreNodeEndpoint(OnOffLight, zcbMsg.ep);
      } else if zcbMsg.nodeType == 2 {
        RestoreNodeEndpoint(DimmableLight, zcbMsg.ep);
      } else if zcbMsg.nodeType == 3 {
        RestoreNodeEndpoint(ColorLight, zcbMsg.ep);
      }
      zcbMsg := NoMail;
    }

    method FindMatchedNodeByEP(ep: u16) returns (i: nat)
      requires Valid()
      ensures i == FindMatched(joinedNodes[..], ep, 0)
    {
      i := 0;
      while i < DEV_NUM
        invariant i <= DEV_NUM
        invariant FindMatched(joinedNodes[..], ep, i) == FindMatched(joinedNodes[..], ep, 0)
      {
        if joinedNodes[i].nodeType != 0 && joinedNodes[i].ep == ep {
          return;
        }
        i := i + 1;
      }
      i := NOT_FOUND;
    }

    /** The short address each Bridged* command for endpoint `ep` is sent to, or None when it is dropped. */
    method BridgedTarget(ep: u16) returns (to: Option<u16>)
      requires Valid()
      ensures var k := FindMatched(joinedNodes[..], ep, 0);
              to == if k < DEV_NUM then Some(joinedNodes[k].shortaddr) else None
    {
      var i := FindMatchedNodeByEP(ep);
      FindMatchedFinds(joinedNodes[..], ep, 0);
      if i != NOT_FOUND {
        to := Some(joinedNodes[i].shortaddr);
      } else {
        to := None;
      }
    }
  }

  lemma FreeSlotIs(joined: seq<Node>, i: nat)
    requires i <= |joined| && (i < |joined| ==> joined[i].nodeType == 0 && joined[i].ep == 0)
    requires forall j :: 0 <= j < i ==> joined[j].nodeType != 0 || joined[j].ep != 0
    ensures FreeSlot(joined) == i
  {
  }

  lemma FreeIndexIs(devices: seq<Device>, i: nat)
    requires i <= |devices| && (i < |devices| ==> devices[i].NoDevice?)
    requires forall j :: 0 <= j < i ==> !devices[j].NoDevice?
    ensures FreeIndex(devices) == i
  {
  }
}
