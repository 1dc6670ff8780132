/**
 * Whole runs of the bridge: power-ups with restore, announces, descriptors, mailbox traffic and monitor polls in
 * any order, without leaves. Routing by endpoint stays exact, saved rows stay consistent with the joined nodes, and
 * the saved table never overflows.
 */
module BridgeRuns {
  import opened Bytes
  import opened DeviceKinds
  import opened EndpointSearch
  import opened Options
  import opened SavedNodes
  import opened Bridge

  /** A descriptor is sent by the joined node `from`; the bridge does not look at who sent it. */
  datatype Event =
    | Boot
    | Announce(shortaddr: u16, mac: nat)
    | Describe(from: nat, clusters: seq<u16>)
    | Post
    | Poll

  // ---- The invariant ----

  /** A saved row: a known type and a dynamic endpoint the SDK once accepted. */
  predicate RowOk(s: State, n: Node) {
    1 <= n.nodeType <= 3 && s.first <= n.ep && n.ep !in s.refused
  }

  predicate FileOk(s: State) {
    && |s.store.file| <= DEV_NUM
    && (forall r :: 0 <= r < |s.store.file| ==> RowOk(s, s.store.file[r]))
    && MacsUnique(s.store.file) && EndpointsUnique(s.store.file)
    && (!s.store.hasFile ==> s.store.ram == [] == s.store.file)
    && 0 < s.first && s.first + DYNAMIC_ENDPOINT_COUNT < 0x1_0000
  }

  predicate NodeOk(s: State, n: Node) {
    n.nodeType <= 3 && (n.ep != 0 ==> n.nodeType != 0 && n.ep in s.used)
  }

  /** Some joined node has endpoint `ep`. */
  predicate Routed(s: State, ep: u16) { exists i :: 0 <= i < |s.joined| && s.joined[i].ep == ep }

  predicate EndpointsDistinct(joined: seq<Node>) {
    forall i, j :: 0 <= i < j < |joined| && joined[i].ep != 0 ==> joined[i].ep != joined[j].ep
  }

  /** Some device has endpoint `ep`. */
  predicate HasDevice(s: State, ep: u16) { exists k :: 0 <= k < |s.devices| && s.devices[k].Device? && s.devices[k].endpoint == ep }

  /** The SDK knows the fixed endpoints and, beyond them, only endpoints of devices. */
  predicate IdsOk(s: State) {
    && (forall x: u16 :: x < s.first ==> x in s.used)
    && (forall x: u16 :: x in s.used && s.first <= x ==> HasDevice(s, x))
  }

  predicate Inv(s: State) {
    && Shaped(s) && FileOk(s) && IdsOk(s)
    && !s.mail.RestoreNode? && s.gIndex <= DEV_NUM
    && (forall i :: 0 <= i < DEV_NUM ==> NodeOk(s, s.joined[i]))
    && EndpointsDistinct(s.joined)
    && (forall r :: 0 <= r < |s.store.file| ==> Routed(s, s.store.file[r].ep))
  }

  // ---- Counting ----

  function Eps(rows: seq<Node>): set<u16> {
    if |rows| == 0 then {} else Eps(rows[..|rows| - 1]) + {rows[|rows| - 1].ep}
  }

  lemma {:induction false} EpsMember(rows: seq<Node>, x: u16)
    ensures x in Eps(rows) <==> exists i :: 0 <= i < |rows| && rows[i].ep == x
  {
    if |rows| > 0 {
      var p := rows[..|rows| - 1];
      EpsMember(p, x);
      if x in Eps(p) {
        var i :| 0 <= i < |p| && p[i].ep == x;
        assert rows[i].ep == x;
      } else if x in Eps(rows) {
        assert rows[|rows| - 1].ep == x;
      } else {
        assert forall i :: 0 <= i < |p| ==> p[i] == rows[i];
      }
    }
  }

  lemma {:induction false} EpsCount(rows: seq<Node>)
    ensures |Eps(rows)| <= |rows|
    ensures EndpointsUnique(rows) ==> |Eps(rows)| == |rows|
    ensures forall x :: x in Eps(rows) <==> exists i :: 0 <= i < |rows| && rows[i].ep == x
    decreases |rows|, 1
  {
    forall x: u16 ensures x in Eps(rows) <==> exists i :: 0 <= i < |rows| && rows[i].ep == x {
      EpsMember(rows, x);
    }
    if |rows| > 0 {
      EpsCountSnoc(rows[..|rows| - 1], rows[|rows| - 1], rows);
    }
  }

  lemma {:induction false} EpsCountSnoc(p: seq<Node>, n: Node, rows: seq<Node>)
    requires |rows| > 0 && p == rows[..|rows| - 1] && n == rows[|rows| - 1]
    ensures |Eps(rows)| <= |rows| && (EndpointsUnique(rows) ==> |Eps(rows)| == |rows|)
    decreases |rows|, 0
  {
    EpsCount(p);
    assert Eps(rows) == Eps(p) + {n.ep};
    hide Eps;
    if EndpointsUnique(rows) {
      assert forall i :: 0 <= i < |p| ==> p[i] == rows[i];
    }
  }

  lemma SubsetCount(a: set<u16>, b: set<u16>)
    requires a <= b
    ensures |a| <= |b|
  {
    assert b == a + (b - a);
  }

  function Others(s: State): seq<Node>
    requires Shaped(s)
  {
    s.joined[..s.idx] + s.joined[s.idx + 1..]
  }

  /** The endpoint of a saved row is one of the other joined nodes. */
  lemma RowAmongOthers(s: State, r: nat)
    requires Inv(s) && s.joined[s.idx].ep == 0 && r < |s.store.file|
    ensures exists k :: 0 <= k < |Others(s)| && Others(s)[k].ep == s.store.file[r].ep
  {
    assert Routed(s, s.store.file[r].ep) && RowOk(s, s.store.file[r]);
    hide Inv;
    var i :| 0 <= i < |s.joined| && s.joined[i].ep == s.store.file[r].ep;
    var k := if i < s.idx then i else i - 1;
    assert Others(s)[k] == s.joined[i];
  }

  /** While the last announced node has no endpoint, at most four rows are saved. */
  lemma RoomForRow(s: State)
    requires Inv(s) && s.joined[s.idx].ep == 0
    ensures |s.store.file| < DEV_NUM
  {
    var others := Others(s);
    assert EndpointsUnique(s.store.file) && |others| == DEV_NUM - 1;
    hide Eps, EndpointsUnique, Others;
    EpsCount(s.store.file);
    EpsCount(others);
    forall x | x in Eps(s.store.file)
      ensures x in Eps(others)
    {
      var r :| 0 <= r < |s.store.file| && s.store.file[r].ep == x;
      RowAmongOthers(s, r);
    }
    SubsetCount(Eps(s.store.file), Eps(others));
  }

  /** The endpoints of the devices. */
  function DeviceEps(devices: seq<Device>): set<u16> {
    if |devices| == 0 then {}
    else
      var d := devices[|devices| - 1];
      DeviceEps(devices[..|devices| - 1]) + if d.Device? then {d.endpoint} else {}
  }

  lemma {:induction false} DeviceEpsCount(devices: seq<Device>)
    ensures |DeviceEps(devices)| <= |devices|
    ensures forall k :: 0 <= k < |devices| && devices[k].Device? ==> devices[k].endpoint in DeviceEps(devices)
  {
    if |devices| > 0 {
      var p := devices[..|devices| - 1];
      DeviceEpsCount(p);
      forall k | 0 <= k < |devices| && devices[k].Device?
        ensures devices[k].endpoint in DeviceEps(devices)
      {
        assert k < |p| ==> p[k] == devices[k];
      }
    }
  }

  function Interval(lo: u16, n: nat): set<u16>
    requires lo + n < 0x1_0000
  {
    if n == 0 then {lo} else Interval(lo, n - 1) + {lo + n}
  }

  lemma {:induction false} IntervalCount(lo: u16, n: nat)
    requires lo + n < 0x1_0000
    ensures |Interval(lo, n)| == n + 1
    ensures forall x :: x in Interval(lo, n) <==> lo <= x <= lo + n
  {
    if n > 0 {
      IntervalCount(lo, n - 1);
    }
  }

  /** Sixteen devices cannot use up the dynamic ids: the retry loop always ends. */
  lemma SomeIdIsFree(s: State) returns (id: u16)
    requires Inv(s)
    ensures Free(s.first, s.used, id)
  {
    var ids := Interval(s.first, DYNAMIC_ENDPOINT_COUNT);
    IntervalCount(s.first, DYNAMIC_ENDPOINT_COUNT);
    DeviceEpsCount(s.devices);
    if ids <= s.used {
      forall x | x in ids
        ensures x in DeviceEps(s.devices)
      {
        assert HasDevice(s, x);
      }
      SubsetCount(ids, DeviceEps(s.devices));
      assert false;
    }
    id :| id in ids && id !in s.used;
  }

  // ---- Every step keeps the invariant ----

  function Next(s: State, e: Event): State
    requires Inv(s)
  {
    match e
    case Boot => Booted(s)
    case Announce(shortaddr, mac) => Announced(s, shortaddr, mac)
    case Describe(_, clusters) => Described(s, clusters)
    case Post => s.(mail := WriteAttribute)
    case Poll => Polled(s)
  }

  /** A change that keeps every endpoint of the joined nodes. */
  lemma NodesRewritten(s: State, t: State)
    requires Inv(s) && |t.joined| == DEV_NUM && t.idx < DEV_NUM && !t.mail.RestoreNode?
    requires t == s.(joined := t.joined, idx := t.idx, bitmap := t.bitmap, mail := t.mail)
    requires forall i :: 0 <= i < DEV_NUM ==> t.joined[i].ep == s.joined[i].ep && NodeOk(t, t.joined[i])
    ensures Inv(t)
  {
    forall r | 0 <= r < |t.store.file|
      ensures RowOk(t, t.store.file[r]) && Routed(t, t.store.file[r].ep)
    {
      assert RowOk(s, s.store.file[r]);
      assert Routed(s, s.store.file[r].ep);
      var i :| 0 <= i < |s.joined| && s.joined[i].ep == s.store.file[r].ep;
      assert t.joined[i].ep == t.store.file[r].ep;
    }
    DevicesKept(s, t);
  }

  lemma DevicesKept(s: State, t: State)
    requires IdsOk(s) && t.used == s.used && t.first == s.first && t.devices == s.devices
    ensures IdsOk(t)
  {
    forall x: u16 | x in t.used && t.first <= x
      ensures HasDevice(t, x)
    {
      assert HasDevice(s, x);
    }
  }

  lemma AnnounceKeeps(s: State, shortaddr: u16, mac: nat)
    requires Inv(s)
    ensures Inv(Announced(s, shortaddr, mac))
  {
    NodesRewritten(s, Announced(s, shortaddr, mac));
  }

  lemma {:induction false} TypeOfStaysKnown(cs: seq<u16>, start: u8)
    requires start <= 3
    ensures TypeOf(cs, start) <= 3 && (start != 0 ==> TypeOf(cs, start) != 0)
  {
    if |cs| > 0 {
      TypeOfStaysKnown(cs[..|cs| - 1], start);
    }
  }

  lemma DescribeKeeps(s: State, clusters: seq<u16>)
    requires Inv(s)
    ensures Inv(Described(s, clusters))
  {
    hide Filtered, BitmapOf, TypeOf;
    TypeOfStaysKnown(Filtered(clusters), s.joined[s.idx].nodeType);
    NodesRewritten(s, Described(s, clusters));
  }

  /** A new device at a free index, with an id that is not in use. */
  lemma DevicePlaced(s: State, i: nat, d: Device, accepted: bool)
    requires Inv(s) && i < DYNAMIC_ENDPOINT_COUNT && s.devices[i].NoDevice? && d.Device?
    ensures var t := s.(current := d.endpoint, devices := s.devices[i := d],
                        used := if accepted then s.used + {d.endpoint} else s.used);
            Inv(t)
  {
    var t := s.(current := d.endpoint, devices := s.devices[i := d],
                used := if accepted then s.used + {d.endpoint} else s.used);
    assert t.devices[i] == d;
    forall x: u16 | x in t.used && t.first <= x
      ensures HasDevice(t, x)
    {
      if x in s.used {
        assert HasDevice(s, x);
        var k :| 0 <= k < |s.devices| && s.devices[k].Device? && s.devices[k].endpoint == x;
        assert t.devices[k] == s.devices[k];
      }
    }
    forall r | 0 <= r < |t.store.file|
      ensures RowOk(t, t.store.file[r]) && Routed(t, t.store.file[r].ep)
    {
      assert RowOk(s, s.store.file[r]);
      assert Routed(s, s.store.file[r].ep);
      var i :| 0 <= i < |s.joined| && s.joined[i].ep == s.store.file[r].ep;
      assert t.joined[i].ep == t.store.file[r].ep;
    }
    forall i | 0 <= i < DEV_NUM
      ensures NodeOk(t, t.joined[i])
    {
      assert NodeOk(s, s.joined[i]);
    }
  }

  /** The state after a fresh endpoint was recorded: the file is the old one with one row replaced or added. */
  lemma UpdatedFile(s: State, ep: u16)
    requires Inv(s) && s.joined[s.idx].nodeType != 0 && s.joined[s.idx].ep == 0 && ep != 0
    ensures var n := s.joined[s.idx].(ep := ep);
            && Updated(s, ep).store.hasFile
            && Updated(s, ep).store.file == Upserted(s.store.file, n)
            && |Updated(s, ep).store.file| <= DEV_NUM
  {
    var n := s.joined[s.idx].(ep := ep);
    StoreIsMapUpdate(s.store, n, true, 0);
    RoomForRow(s);
  }

  lemma UpsertedFileOk(s: State, t: State, n: Node)
    requires FileOk(s) && RowOk(s, n) && t.first == s.first && t.refused == s.refused
    requires t.store.hasFile && t.store.file == Upserted(s.store.file, n) && |t.store.file| <= DEV_NUM
    requires forall r :: 0 <= r < |s.store.file| ==> s.store.file[r].ep != n.ep
    ensures FileOk(t)
  {
    forall r | 0 <= r < |t.store.file|
      ensures RowOk(t, t.store.file[r])
    {
      if r < |s.store.file| {
        assert RowOk(s, s.store.file[r]);
      }
    }
  }

  /** Every saved row is still routed, and the new endpoint is. */
  lemma RoutesSurvive(s: State, ep: u16, x: u16)
    requires Inv(s) && s.joined[s.idx].nodeType != 0 && s.joined[s.idx].ep == 0 && ep != 0
    requires x == ep || exists r :: 0 <= r < |s.store.file| && s.store.file[r].ep == x
    ensures Routed(Updated(s, ep), x)
  {
    hide Stored;
    var t := Updated(s, ep);
    if x == ep {
      assert t.joined[s.idx].ep == ep;
    } else {
      var r :| 0 <= r < |s.store.file| && s.store.file[r].ep == x;
      assert Routed(s, s.store.file[r].ep) && RowOk(s, s.store.file[r]);
      var i :| 0 <= i < |s.joined| && s.joined[i].ep == x;
      assert t.joined[i].ep == x;
    }
  }

  lemma NodesSurvive(s: State, ep: u16)
    requires Inv(s) && ep in s.used && s.joined[s.idx].nodeType != 0 && s.joined[s.idx].ep == 0 && ep != 0
    requires forall i :: 0 <= i < DEV_NUM ==> s.joined[i].ep != ep
    ensures var t := Updated(s, ep);
            EndpointsDistinct(t.joined) && forall i :: 0 <= i < DEV_NUM ==> NodeOk(t, t.joined[i])
  {
    hide Stored;
    var t := Updated(s, ep);
    forall i | 0 <= i < DEV_NUM
      ensures NodeOk(t, t.joined[i])
    {
      assert NodeOk(s, s.joined[i]);
    }
  }

  /** Recording a fresh endpoint for the last announced node. */
  lemma UpdateKeeps(s: State, ep: u16)
    requires Inv(s) && s.first <= ep && ep in s.used && ep !in s.refused
    requires forall i :: 0 <= i < DEV_NUM ==> s.joined[i].ep != ep
    ensures Inv(Updated(s, ep))
  {
    hide Stored, Upserted;
    var t := Updated(s, ep);
    if s.joined[s.idx].nodeType != 0 && s.joined[s.idx].ep == 0 {
      var n := s.joined[s.idx].(ep := ep);
      assert NodeOk(s, s.joined[s.idx]);
      forall r | 0 <= r < |s.store.file|
        ensures s.store.file[r].ep != ep
      {
        assert Routed(s, s.store.file[r].ep);
      }
      UpdatedFile(s, ep);
      UpsertedFileOk(s, t, n);
      DevicesKept(s, t);
      NodesSurvive(s, ep);
      forall r | 0 <= r < |t.store.file|
        ensures Routed(t, t.store.file[r].ep)
      {
        UpsertedEp(s.store.file, n, r);
        RoutesSurvive(s, ep, t.store.file[r].ep);
      }
      hide Routed, NodeOk, FileOk, IdsOk, EndpointsDistinct;
    }
  }

  /** A row of the new file is the node's own or was there. */
  lemma UpsertedEp(file: seq<Node>, n: Node, r: nat)
    requires r < |Upserted(file, n)|
    ensures Upserted(file, n)[r].ep == n.ep || exists q :: 0 <= q < |file| && file[q].ep == Upserted(file, n)[r].ep
  {
    if r < |file| {
      assert file[r].ep == file[r].ep;
    }
  }

  lemma AddKeeps(s: State, kind: Kind)
    requires Inv(s)
    ensures Inv(Added(s, kind))
  {
    hide AllocatedId, StartId, Stored;
    var i := FreeIndex(s.devices);
    var start := StartId(s);
    if i < DYNAMIC_ENDPOINT_COUNT {
      var free := SomeIdIsFree(s);
      AllocatedIdIsUnused(start, s.first, s.used, free);
      var id := AllocatedId(start, s.first, s.used);
      var accepted := id !in s.refused;
      DevicePlaced(s, i, Device(kind, id, accepted), accepted);
      if accepted {
        forall j | 0 <= j < DEV_NUM
          ensures s.joined[j].ep != id
        {
          assert NodeOk(s, s.joined[j]);
        }
        UpdateKeeps(s.(current := id, devices := s.devices[i := Device(kind, id, true)], used := s.used + {id}), id);
      }
    } else {
      CurrentIsFree(s, start);
    }
  }

  /** Wherever a run stands, the next poll finds room in the saved table and a free id, as `AddDeviceEndpoint` needs. */
  lemma PollHasRoom(s: State) returns (id: u16)
    requires Inv(s) && |s.store.ram| <= DEV_NUM
    ensures Free(s.first, s.used, id)
    ensures |Polled(s).store.ram| <= DEV_NUM
  {
    hide AllocatedId, StartId, Stored;
    id := SomeIdIsFree(s);
    if s.mail.AddDevice? && LiveKind(s.mail.bitmap).Some? && FreeIndex(s.devices) < DYNAMIC_ENDPOINT_COUNT {
      var fresh' := AllocatedId(StartId(s), s.first, s.used);
      var n := s.joined[s.idx];
      AllocatedIdIsUnused(StartId(s), s.first, s.used, id);
      if fresh' !in s.refused && n.nodeType != 0 && n.ep == 0 {
        UpdatedFile(s, fresh');
        StoreIsMapUpdate(s.store, n.(ep := fresh'), true, 0);
      }
    }
  }

  lemma CurrentIsFree(s: State, current: u16)
    requires Inv(s)
    ensures Inv(s.(current := current))
  {
    var t := s.(current := current);
    DevicesKept(s, t);
    NodesRewritten(s, s);
    forall r | 0 <= r < |t.store.file|
      ensures RowOk(t, t.store.file[r]) && Routed(t, t.store.file[r].ep)
    {
      assert RowOk(s, s.store.file[r]) && Routed(s, s.store.file[r].ep);
      var i :| 0 <= i < |s.joined| && s.joined[i].ep == s.store.file[r].ep;
      assert t.joined[i].ep == t.store.file[r].ep;
    }
    forall i | 0 <= i < DEV_NUM
      ensures NodeOk(t, t.joined[i])
    {
      assert NodeOk(s, s.joined[i]);
    }
  }

  lemma MailTaken(s: State, mail: Mail)
    requires Inv(s) && !mail.RestoreNode?
    ensures Inv(s.(mail := mail))
  {
    var t := s.(mail := mail);
    forall i | 0 <= i < DEV_NUM
      ensures NodeOk(t, t.joined[i])
    {
      assert NodeOk(s, s.joined[i]);
    }
    NodesRewritten(s, t);
  }

  lemma PollKeeps(s: State)
    requires Inv(s)
    ensures Inv(Polled(s))
  {
    match s.mail
    case NoMail =>
    case WriteAttribute => MailTaken(s, NoMail);
    case RestoreNode(_, _) => assert false;
    case AddDevice(b) =>
      var k := LiveKind(b);
      if k.Some? {
        AddKeeps(s, k.value);
        MailTaken(Added(s, k.value), NoMail);
      } else {
        MailTaken(s, NoMail);
      }
  }

  lemma RestartedIsOk(s: State)
    requires FileOk(s)
    ensures var r := Restarted(s);
            Shaped(r) && FileOk(r) && IdsOk(r) && r.mail == NoMail && r.gIndex == 0
            && (forall i :: 0 <= i < DEV_NUM ==> r.joined[i] == EMPTY_NODE)
  {
    var r := Restarted(s);
    forall k | 0 <= k < |r.store.file|
      ensures RowOk(r, r.store.file[k])
    {
      assert RowOk(s, s.store.file[k]);
    }
  }

  lemma {:induction false} EpsOfMembers(rows: Rows)
    ensures forall x :: x in EpsOf(rows) <==> exists r :: 0 <= r < |rows| && rows[r].ep == x
  {
    if |rows| > 0 {
      EpsOfMembers(rows[1..]);
      forall x | x in EpsOf(rows)
        ensures exists r :: 0 <= r < |rows| && rows[r].ep == x
      {
        if x == rows[0].ep {
          assert rows[0].ep == x;
        } else {
          assert x in EpsOf(rows[1..]);
          var r :| 0 <= r < |rows[1..]| && rows[1..][r].ep == x;
          assert rows[r + 1].ep == x;
        }
      }
      forall r | 0 <= r < |rows|
        ensures rows[r].ep in EpsOf(rows)
      {
        assert r > 0 ==> rows[1..][r - 1] == rows[r];
      }
    }
  }

  /** The state after power-up and restore holds exactly the saved rows. */
  lemma BootHoldsSavedRows(s: State)
    requires FileOk(s)
    ensures var r, rows := Booted(s), s.store.file;
            && Shaped(r) && r.gIndex == |rows| && r.mail == NoMail
            && r.store.file == rows && r.store.hasFile == s.store.hasFile && (!s.store.hasFile ==> r.store.ram == [])
            && r.first == s.first && r.refused == s.refused && r.idx == 0
            && (forall i :: 0 <= i < DEV_NUM ==> r.joined[i] == if i < |rows| then rows[i] else EMPTY_NODE)
            && (forall k :: 0 <= k < DYNAMIC_ENDPOINT_COUNT ==>
                  r.devices[k] == if k < |rows| then DeviceOf(rows[k]) else NoDevice)
            && r.used == FixedIds(s.first) + EpsOf(rows)
  {
    RestartedIsOk(s);
    var rows, b := s.store.file, Restarted(s);
    forall k | 0 <= k < |rows|
      ensures Rebuildable(rows[k]) && rows[k].nodeType != 0 && rows[k].ep !in s.refused
    {
      assert RowOk(s, rows[k]);
    }
    EpsOfMembers(rows);
    if s.store.hasFile {
      var c := b.(store := b.store.(ram := rows));
      RestoreRebuilds(c, 0);
      AllRowsAreRebuilt(rows, 0);
      assert rows[0..] == rows;
      assert EpsOf(rows) - s.refused == EpsOf(rows);
    }
  }

  lemma BootIds(s: State)
    requires FileOk(s)
    ensures IdsOk(Booted(s))
  {
    hide Booted, EpsOf, RowOk, DeviceOf;
    BootHoldsSavedRows(s);
    var r, rows := Booted(s), s.store.file;
    EpsOfMembers(rows);
    forall x: u16 | x in r.used && r.first <= x
      ensures HasDevice(r, x)
    {
      var k :| 0 <= k < |rows| && rows[k].ep == x;
      RowComesBack(s, k);
      assert r.devices[k].endpoint == x;
    }
  }

  lemma RowComesBack(s: State, k: nat)
    requires FileOk(s) && k < |s.store.file|
    ensures DeviceOf(s.store.file[k]).Device? && DeviceOf(s.store.file[k]).endpoint == s.store.file[k].ep
  {
    assert RowOk(s, s.store.file[k]);
  }

  lemma BootKeeps(s: State)
    requires FileOk(s)
    ensures Inv(Booted(s))
  {
    hide Booted, HasDevice;
    BootHoldsSavedRows(s);
    BootIds(s);
    var r, rows := Booted(s), s.store.file;
    EpsOfMembers(rows);
    forall k | 0 <= k < |rows|
      ensures RowOk(r, rows[k]) && Routed(r, rows[k].ep) && NodeOk(r, r.joined[k])
    {
      assert RowOk(s, rows[k]);
      assert r.joined[k].ep == rows[k].ep;
    }
  }

  lemma StepKeeps(s: State, e: Event)
    requires Inv(s)
    ensures Inv(Next(s, e))
  {
    match e
    case Boot => BootKeeps(s);
    case Announce(shortaddr, mac) => AnnounceKeeps(s, shortaddr, mac);
    case Describe(_, clusters) => DescribeKeeps(s, clusters);
    case Post => MailTaken(s, WriteAttribute);
    case Poll => PollKeeps(s);
  }

  // ---- Runs ----

  function After(s: State, es: seq<Event>): (r: State)
    requires Inv(s)
    ensures Inv(r)
  {
    if |es| == 0 then s
    else
      var p := After(s, es[..|es| - 1]);
      StepKeeps(p, es[|es| - 1]);
      Next(p, es[|es| - 1])
  }

  /**
   * Routing over whole runs: from power-up with a consistent file, after any sequence of events, the non-zero
   * endpoints of the joined nodes are distinct and in use; a command for endpoint `e` finds the one node given
   * `e`, and nothing exactly when no node was given `e`; and the saved table has stayed within its five rows.
   */
  lemma RoutingOverRuns(s: State, es: seq<Event>, e: u16)
    requires FileOk(s) && e != 0
    ensures Inv(Booted(s))
    ensures var t := After(Booted(s), es);
            var k := FindMatched(t.joined, e, 0);
            && EndpointsDistinct(t.joined)
            && (forall i :: 0 <= i < DEV_NUM && t.joined[i].ep != 0 ==> t.joined[i].ep in t.used)
            && (k == NOT_FOUND <==> !Routed(t, e))
            && (k != NOT_FOUND ==> k < DEV_NUM && forall i :: 0 <= i < DEV_NUM ==> (t.joined[i].ep == e <==> i == k))
            && |t.store.file| <= DEV_NUM
  {
    BootKeeps(s);
    var t := After(Booted(s), es);
    FindMatchedFinds(t.joined, e, 0);
    forall i | 0 <= i < DEV_NUM
      ensures NodeOk(t, t.joined[i])
    {
    }
  }

  predicate SameTarget(a: Node, b: Node) { a.ep == b.ep && a.shortaddr == b.shortaddr && a.mac == b.mac }

  lemma StepKeepsTarget(s: State, e: Event, i: nat)
    requires Inv(s) && !e.Boot? && i < DEV_NUM && s.joined[i].ep != 0
    ensures |Next(s, e).joined| == DEV_NUM && SameTarget(Next(s, e).joined[i], s.joined[i])
  {
  }

  /**
   * While power stays on, over any run, a node that was given an endpoint keeps endpoint and addresses, and commands for
   * the endpoint keep going to it.
   */
  lemma {:induction false} GivenEndpointStays(s: State, es: seq<Event>, i: nat)
    requires Inv(s) && (forall k :: 0 <= k < |es| ==> !es[k].Boot?) && i < DEV_NUM && s.joined[i].ep != 0
    ensures SameTarget(After(s, es).joined[i], s.joined[i])
    ensures FindMatched(After(s, es).joined, s.joined[i].ep, 0) == i
  {
    if |es| > 0 {
      GivenEndpointStays(s, es[..|es| - 1], i);
      StepKeepsTarget(After(s, es[..|es| - 1]), es[|es| - 1], i);
      hide Next;
    }
    TargetIsFound(After(s, es), i);
  }

  lemma TargetIsFound(s: State, i: nat)
    requires Inv(s) && i < DEV_NUM && s.joined[i].ep != 0
    ensures FindMatched(s.joined, s.joined[i].ep, 0) == i
  {
    assert NodeOk(s, s.joined[i]);
    FindMatchedFinds(s.joined, s.joined[i].ep, 0);
  }

  /** A restart gives every saved node its endpoint and address back: the routing of saved rows survives power-off. */
  lemma RoutingSurvivesRestart(s: State, r: nat)
    requires Inv(s) && r < |s.store.file|
    ensures var t := Booted(s);
            Shaped(t) && FindMatched(t.joined, s.store.file[r].ep, 0) == r && t.joined[r] == s.store.file[r]
  {
    BootKeeps(s);
    BootHoldsSavedRows(s);
    assert RowOk(s, s.store.file[r]);
    var t := Booted(s);
    FindMatchedFinds(t.joined, s.store.file[r].ep, 0);
  }
}
