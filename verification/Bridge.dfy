/**
 * The state shared by `zcb.c` and `BridgeMgr.cpp`: joined nodes, saved nodes, the one-message mailbox between
 * them, the Matter devices and the endpoint ids in use, with every operation as a function.
 */
module Bridge {
  import opened Bytes
  import opened DeviceKinds
  import opened EndpointSearch
  import opened Options
  import opened SavedNodes

  const DYNAMIC_ENDPOINT_COUNT: nat := 16
  const NOT_FOUND: nat := 0xFF

  datatype Device = NoDevice | Device(kind: Kind, endpoint: u16, reachable: bool)

  /**
   * ZcbMsg: one message, overwritten by the next. Attribute writes do not touch this state; the removal messages, which
   * nothing posts, are left out.
   */
  datatype Mail = NoMail | AddDevice(bitmap: Bitmap) | RestoreNode(nodeType: u8, ep: u16) | WriteAttribute

  /**
   * `used` are the endpoint ids for which the SDK answers EXISTS; ids in `refused` are answered with another
   * error. Endpoints below `first` are fixed.
   */
  datatype State = State(
    joined: seq<Node>, idx: nat, store: Store, bitmap: Bitmap, mail: Mail,
    devices: seq<Device>, gIndex: nat, current: u16, used: set<u16>, first: u16, refused: set<u16>)

  const EMPTY_NODE: Node := Node(0, 0, 0, 0)

  predicate Shaped(s: State) {
    && |s.joined| == DEV_NUM && s.idx < DEV_NUM && |s.devices| == DYNAMIC_ENDPOINT_COUNT
  }

  // ---- zcb.c ----

  /** First free entry of JoinedNodes, or DEV_NUM. */
  function FreeSlot(joined: seq<Node>): (i: nat)
    ensures i <= |joined|
    ensures i < |joined| ==> joined[i].nodeType == 0 && joined[i].ep == 0
    ensures forall j :: 0 <= j < i ==> joined[j].nodeType != 0 || joined[j].ep != 0
  {
    if |joined| == 0 || (joined[0].nodeType == 0 && joined[0].ep == 0) then 0 else 1 + FreeSlot(joined[1..])
  }

  /** JoinedNodes after a device announce. */
  function Announced(s: State, shortaddr: u16, mac: nat): State
    requires Shaped(s)
  {
    var i := FreeSlot(s.joined);
    if i < DEV_NUM then s.(joined := s.joined[i := Node(1, 0, shortaddr, mac)], idx := i) else s
  }

  /** After a simple descriptor with the given cluster list: the last announced node is retyped and ADD_DEV is posted. */
  function Described(s: State, clusters: seq<u16>): State
    requires Shaped(s)
  {
    var f := Filtered(clusters);
    var n := s.joined[s.idx];
    s.(bitmap := BitmapOf(f), mail := AddDevice(BitmapOf(f)),
       joined := s.joined[s.idx := n.(nodeType := TypeOf(f, n.nodeType))])
  }

  /** `UpdateJoinedNodes`. */
  function Updated(s: State, ep: u16): State
    requires Shaped(s)
  {
    var n := s.joined[s.idx];
    if n.nodeType != 0 && n.ep == 0 && ep != 0
    then s.(joined := s.joined[s.idx := n.(ep := ep)], store := Stored(s.store, n.(ep := ep), true))
    else s
  }

  /** `FindMatchedNodeByEP`. */
  function FindMatched(joined: seq<Node>, ep: u16, i: nat): nat
    requires |joined| == DEV_NUM && i <= DEV_NUM
    decreases DEV_NUM - i
  {
    if i == DEV_NUM then NOT_FOUND
    else if joined[i].nodeType != 0 && joined[i].ep == ep then i
    else FindMatched(joined, ep, i + 1)
  }

  // ---- BridgeMgr.cpp ----

  function MaxEp(rows: Rows): u16 {
    if |rows| == 0 then 0
    else
      var m, e := MaxEp(rows[..|rows| - 1]), rows[|rows| - 1].ep;
      if e > m then e else m
  }

  /** First index without a device, or the number of devices. */
  function FreeIndex(devices: seq<Device>): (i: nat)
    ensures i <= |devices|
    ensures i < |devices| ==> devices[i].NoDevice?
    ensures forall j :: 0 <= j < i ==> !devices[j].NoDevice?
  {
    if |devices| == 0 || devices[0].NoDevice? then 0 else 1 + FreeIndex(devices[1..])
  }

  /** The id tried first: one above every saved endpoint, in 16 bits, when a file was read. */
  function StartId(s: State): u16 {
    if s.store.hasFile then (MaxEp(s.store.file) + 1) % 0x1_0000 else s.current
  }

  /** `AddDeviceEndpoint` for a new device. */
  function Added(s: State, kind: Kind): State
    requires Shaped(s)
  {
    var start, i := StartId(s), FreeIndex(s.devices);
    if i == DYNAMIC_ENDPOINT_COUNT then s.(current := start)
    else
      var id := AllocatedId(start, s.first, s.used);
      if id in s.refused then s.(current := id, devices := s.devices[i := Device(kind, id, false)])
      else Updated(s.(current := id, devices := s.devices[i := Device(kind, id, true)], used := s.used + {id}), id)
  }

  /** `RestoreNodeEndpoint` at gIndex; the answer of the SDK is not looked at. */
  function Restored(s: State, kind: Kind, ep: u16): State
    requires Shaped(s) && s.gIndex < DYNAMIC_ENDPOINT_COUNT
  {
    s.(devices := s.devices[s.gIndex := Device(kind, ep, true)], gIndex := s.gIndex + 1,
       used := if ep in s.refused then s.used else s.used + {ep})
  }

  /** One turn of `ZcbMonitor`. */
  function Polled(s: State): State
    requires Shaped(s) && s.gIndex < DYNAMIC_ENDPOINT_COUNT
  {
    match s.mail
    case NoMail => s
    case WriteAttribute => s.(mail := NoMail)
    case AddDevice(b) =>
      var k := LiveKind(b);
      (if k.Some? then Added(s, k.value) else s).(mail := NoMail)
    case RestoreNode(t, ep) =>
      var k := RestoredKind(t);
      (if k.Some? then Restored(s, k.value, ep) else s).(mail := NoMail)
  }

  // ---- Restart ----

  /** One turn of the loop in `RestoreJoinedNodes`, up to its delay. */
  function RestorePosted(s: State, i: nat): State
    requires Shaped(s) && i < |s.store.file| <= DEV_NUM
  {
    var n := s.store.file[i];
    if n.nodeType == 0 then s
    else s.(joined := s.joined[i := n], mail := RestoreNode(n.nodeType, n.ep))
  }

  /** The loop from row `i` on, with the monitor polling during each delay. */
  function RestoredFrom(s: State, i: nat): (r: State)
    requires Shaped(s) && i <= |s.store.file| <= DEV_NUM
    requires s.gIndex + |s.store.file| - i < DYNAMIC_ENDPOINT_COUNT
    requires s.mail == NoMail
    ensures Shaped(r) && r.mail == NoMail
    decreases |s.store.file| - i
  {
    if i == |s.store.file| then s
    else
      var p := Polled(RestorePosted(s, i));
      RestoredFrom(p, i + 1)
  }

  /** The fixed endpoints fill all ids below the first dynamic one. */
  function FixedIds(first: u16): (ids: set<u16>)
    ensures forall x: u16 :: x in ids <==> x < first
  {
    if first == 0 then {} else FixedIds(first - 1) + {first - 1}
  }

  /** The variables after power-up. */
  function Restarted(s: State): State {
    State(seq(DEV_NUM, _ => EMPTY_NODE), 0, s.store.(ram := []), NO_CLUSTERS, NoMail,
          seq(DYNAMIC_ENDPOINT_COUNT, _ => NoDevice), 0, s.first, FixedIds(s.first), s.first, s.refused)
  }

  /** Power-up and `RestoreJoinedNodes`. */
  function Booted(s: State): State
    requires |s.store.file| <= DEV_NUM
  {
    var r := Restarted(s);
    if s.store.hasFile then RestoredFrom(r.(store := r.store.(ram := s.store.file)), 0) else r
  }

  // ---- What the start id and the search for a node mean ----

  lemma {:induction false} MaxEpIsMax(rows: Rows, i: nat)
    requires i < |rows|
    ensures rows[i].ep <= MaxEp(rows)
  {
    if i < |rows| - 1 {
      MaxEpIsMax(rows[..|rows| - 1], i);
    }
  }

  /** The first id tried exceeds every saved endpoint, unless an endpoint 0xFFFF is saved. */
  lemma StartExceedsSaved(s: State, i: nat)
    requires s.store.hasFile && i < |s.store.file|
    requires MaxEp(s.store.file) < 0xFFFF
    ensures StartId(s) > s.store.file[i].ep
  {
    MaxEpIsMax(s.store.file, i);
  }

  lemma {:induction false} FindMatchedFinds(joined: seq<Node>, ep: u16, i: nat)
    requires |joined| == DEV_NUM && i <= DEV_NUM
    ensures var k := FindMatched(joined, ep, i);
            if k == NOT_FOUND then forall j :: i <= j < DEV_NUM ==> joined[j].nodeType == 0 || joined[j].ep != ep
            else i <= k < DEV_NUM && joined[k].nodeType != 0 && joined[k].ep == ep
    decreases DEV_NUM - i
  {
    if i < DEV_NUM && !(joined[i].nodeType != 0 && joined[i].ep == ep) {
      FindMatchedFinds(joined, ep, i + 1);
    }
  }

  // ---- Restore rebuilds the saved state ----

  predicate Rebuildable(n: Node) { RestoredKind(n.nodeType).Some? }

  /** The rows of type 1 to 3 from `i` on, in order. */
  function Rebuilt(rows: Rows, i: nat): Rows
    requires i <= |rows|
    decreases |rows| - i
  {
    if i == |rows| then []
    else (if Rebuildable(rows[i]) then [rows[i]] else []) + Rebuilt(rows, i + 1)
  }

  function EpsOf(rows: Rows): set<u16> { if |rows| == 0 then {} else {rows[0].ep} + EpsOf(rows[1..]) }

  /** The device a saved row comes back as. */
  function DeviceOf(n: Node): Device {
    match RestoredKind(n.nodeType)
    case Some(k) => Device(k, n.ep, true)
    case None => NoDevice
  }

  /** The devices from index `g` on are those of the rows `h`, in order. */
  predicate DevicesRestored(before: seq<Device>, g: nat, h: Rows, after: seq<Device>) {
    && |after| == |before|
    && forall k :: 0 <= k < |before| ==> after[k] == if g <= k < g + |h| then DeviceOf(h[k - g]) else before[k]
  }

  /** The joined nodes from index `i` on are the saved rows of the same index. */
  predicate JoinedRestored(before: seq<Node>, file: Rows, i: nat, after: seq<Node>) {
    && |after| == |before|
    && forall k :: 0 <= k < |before| ==>
      after[k] == if i <= k < |file| && file[k].nodeType != 0 then file[k] else before[k]
  }

  /**
   * `r` is `s` with the saved rows from `i` on restored: every row of a known type rebuilt exactly once and in order,
   * with its own endpoint and kind, from gIndex on; JoinedNodes holding the rows; their endpoints in use
   * unless the SDK refuses them; nothing else changed.
   */
  predicate RestoredRows(s: State, i: nat, r: State)
    requires Shaped(s) && i <= |s.store.file| <= DEV_NUM
  {
    var h := Rebuilt(s.store.file, i);
    && Shaped(r) && r.gIndex == s.gIndex + |h|
    && DevicesRestored(s.devices, s.gIndex, h, r.devices)
    && JoinedRestored(s.joined, s.store.file, i, r.joined)
    && r.used == s.used + (EpsOf(h) - s.refused)
    && r == s.(joined := r.joined, devices := r.devices, gIndex := r.gIndex, used := r.used)
  }

  /** The restore loop restores all rows when the monitor polls between its posts. */
  lemma {:induction false} RestoreRebuilds(s: State, i: nat)
    requires Shaped(s) && i <= |s.store.file| <= DEV_NUM && s.mail == NoMail
    requires s.gIndex + |s.store.file| - i < DYNAMIC_ENDPOINT_COUNT
    ensures RestoredRows(s, i, RestoredFrom(s, i))
    decreases |s.store.file| - i
  {
    if i < |s.store.file| {
      hide RestoredRows;
      var p := RestoreStep(s, i);
      RestoreRebuilds(p, i + 1);
      RestoredRowsStep(s, i, p, RestoredFrom(p, i + 1));
    } else {
      assert s.devices == RestoredFrom(s, i).devices;
    }
  }

  lemma RestoreStep(s: State, i: nat) returns (p: State)
    requires Shaped(s) && i < |s.store.file| <= DEV_NUM && s.mail == NoMail && s.gIndex < DYNAMIC_ENDPOINT_COUNT
    ensures p == Polled(RestorePosted(s, i))
    ensures var n := s.store.file[i];
            p == s.(joined := if n.nodeType != 0 then s.joined[i := n] else s.joined,
                    devices := if Rebuildable(n) then s.devices[s.gIndex := DeviceOf(n)] else s.devices,
                    gIndex := if Rebuildable(n) then s.gIndex + 1 else s.gIndex,
                    used := if Rebuildable(n) && n.ep !in s.refused then s.used + {n.ep} else s.used)
  {
    p := Polled(RestorePosted(s, i));
  }

  lemma RestoredRowsStep(s: State, i: nat, p: State, r: State)
    requires Shaped(s) && i < |s.store.file| <= DEV_NUM && s.gIndex < DYNAMIC_ENDPOINT_COUNT
    requires var n := s.store.file[i];
             p == s.(joined := if n.nodeType != 0 then s.joined[i := n] else s.joined,
                     devices := if Rebuildable(n) then s.devices[s.gIndex := DeviceOf(n)] else s.devices,
                     gIndex := if Rebuildable(n) then s.gIndex + 1 else s.gIndex,
                     used := if Rebuildable(n) && n.ep !in s.refused then s.used + {n.ep} else s.used)
    requires RestoredRows(p, i + 1, r)
    ensures RestoredRows(s, i, r)
  {
    RebuiltStep(s.store.file, i);
    var h := Rebuilt(s.store.file, i + 1);
    assert Rebuilt(s.store.file, i) == if Rebuildable(s.store.file[i]) then [s.store.file[i]] + h else h;
    DevicesStep(s.devices, s.gIndex, s.store.file[i], h, r.devices);
    JoinedStep(s.joined, s.store.file, i, p.joined, r.joined);
    UsedStep(s.used, s.refused, s.store.file[i].ep, Rebuildable(s.store.file[i]), EpsOf(h));
    hide DeviceOf, Rebuildable, Rebuilt, EpsOf, DevicesRestored, JoinedRestored;
  }

  lemma UsedStep(used: set<u16>, refused: set<u16>, ep: u16, rebuilt: bool, more: set<u16>)
    ensures (if rebuilt && ep !in refused then used + {ep} else used) + (more - refused)
            == used + (((if rebuilt then {ep} else {}) + more) - refused)
  {
  }

  lemma JoinedStep(before: seq<Node>, file: Rows, i: nat, next: seq<Node>, after: seq<Node>)
    requires i < |file| <= |before| && next == if file[i].nodeType != 0 then before[i := file[i]] else before
    ensures JoinedRestored(next, file, i + 1, after) ==> JoinedRestored(before, file, i, after)
  {
  }

  lemma DevicesStep(before: seq<Device>, g: nat, n: Node, h: Rows, after: seq<Device>)
    requires g < |before|
    ensures DevicesRestored(before[g := DeviceOf(n)], g + 1, h, after) ==> DevicesRestored(before, g, [n] + h, after)
  {
    hide DeviceOf;
  }

  lemma RebuiltStep(rows: Rows, i: nat)
    requires i < |rows|
    ensures EpsOf(Rebuilt(rows, i)) == (if Rebuildable(rows[i]) then {rows[i].ep} else {}) + EpsOf(Rebuilt(rows, i + 1))
  {
    var t := Rebuilt(rows, i + 1);
    assert ([rows[i]] + t)[1..] == t;
    assert [] + t == t;
  }

  /** When every saved row is of a known type, all of them are rebuilt. */
  lemma {:induction false} AllRowsAreRebuilt(rows: Rows, i: nat)
    requires i <= |rows|
    requires forall k :: i <= k < |rows| ==> Rebuildable(rows[k])
    ensures Rebuilt(rows, i) == rows[i..]
    decreases |rows| - i
  {
    if i < |rows| {
      AllRowsAreRebuilt(rows, i + 1);
    }
  }

  // ---- Restore under any schedule of posts and polls ----

  datatype RestoreAction = PostRow(row: nat) | PollMail

  predicate Posts(file: Rows, a: RestoreAction) { a.PostRow? && a.row < |file| && file[a.row].nodeType != 0 }

  /** One post or poll of a restore. */
  function ActedOn(s: State, a: RestoreAction): (r: State)
    requires Shaped(s) && |s.store.file| <= DEV_NUM && s.gIndex < DYNAMIC_ENDPOINT_COUNT && (s.mail.NoMail? || s.mail.RestoreNode?)
    ensures Shaped(r) && r.store == s.store && s.gIndex <= r.gIndex <= s.gIndex + 1 && (r.mail.NoMail? || r.mail.RestoreNode?)
  {
    match a
    case PollMail => Polled(s)
    case PostRow(i) => if i < |s.store.file| then RestorePosted(s, i) else s
  }

  /** Posts and polls in any order and number. */
  function Acted(s: State, acts: seq<RestoreAction>): (r: State)
    requires Shaped(s) && |s.store.file| <= DEV_NUM && (s.mail.NoMail? || s.mail.RestoreNode?)
    requires s.gIndex + |acts| <= DYNAMIC_ENDPOINT_COUNT
    decreases |acts|
  {
    if |acts| == 0 then s else Acted(ActedOn(s, acts[0]), acts[1..])
  }

  /** The monitor polls before the next row is posted. */
  predicate PolledFirst(file: Rows, acts: seq<RestoreAction>) {
    |acts| > 0 && (acts[0].PollMail? || (!Posts(file, acts[0]) && PolledFirst(file, acts[1..])))
  }

  /** The devices of the posted rows of a known type that are polled before the next post, in order. */
  function PolledRows(file: Rows, acts: seq<RestoreAction>): seq<Device> {
    if |acts| == 0 then []
    else
      (if Posts(file, acts[0]) && Rebuildable(file[acts[0].row]) && PolledFirst(file, acts[1..])
       then [DeviceOf(file[acts[0].row])] else []) + PolledRows(file, acts[1..])
  }

  predicate Placed(before: seq<Device>, g: nat, ds: seq<Device>, after: seq<Device>) {
    && |after| == |before|
    && forall k :: 0 <= k < |before| ==> after[k] == if g <= k < g + |ds| then ds[k - g] else before[k]
  }

  /** What the message in the mailbox will become, if it is polled before it is overwritten. */
  function PendingDevice(file: Rows, mail: Mail, acts: seq<RestoreAction>): seq<Device> {
    if mail.RestoreNode? && RestoredKind(mail.nodeType).Some? && PolledFirst(file, acts)
    then [Device(RestoredKind(mail.nodeType).value, mail.ep, true)] else []
  }

  predicate Schedulable(s: State, acts: seq<RestoreAction>) {
    && Shaped(s) && |s.store.file| <= DEV_NUM && (s.mail.NoMail? || s.mail.RestoreNode?)
    && s.gIndex + |acts| <= DYNAMIC_ENDPOINT_COUNT
  }

  /** The devices that the run builds. */
  function Outcome(file: Rows, mail: Mail, acts: seq<RestoreAction>): seq<Device> {
    PendingDevice(file, mail, acts) + PolledRows(file, acts)
  }

  /** The run builds the pending device and the polled rows, once each and in order, from gIndex on, and no other. */
  predicate RebuildsPolled(s: State, acts: seq<RestoreAction>)
    requires Schedulable(s, acts)
  {
    var r, ds := Acted(s, acts), Outcome(s.store.file, s.mail, acts);
    Placed(s.devices, s.gIndex, ds, r.devices) && r.gIndex == s.gIndex + |ds|
  }

  /**
   * Whatever the order of posts and polls, exactly the rows of a known type that are polled before the next post are
   * rebuilt.
   */
  lemma {:induction false} RestoreRebuildsPolledRows(s: State, acts: seq<RestoreAction>)
    requires Schedulable(s, acts)
    ensures RebuildsPolled(s, acts)
    decreases |acts|
  {
    if |acts| > 0 {
      RestoreRebuildsPolledRows(ActedOn(s, acts[0]), acts[1..]);
      hide RebuildsPolled;
      if acts[0].PollMail? {
        PollRebuilds(s, acts);
      } else {
        PostRebuilds(s, acts);
      }
    }
  }

  lemma ActedStep(s: State, acts: seq<RestoreAction>)
    requires Schedulable(s, acts) && |acts| > 0
    ensures Acted(s, acts) == Acted(ActedOn(s, acts[0]), acts[1..])
  {
  }

  lemma PollRebuilds(s: State, acts: seq<RestoreAction>)
    requires Schedulable(s, acts) && |acts| > 0 && acts[0].PollMail? && RebuildsPolled(ActedOn(s, acts[0]), acts[1..])
    ensures RebuildsPolled(s, acts)
  {
    hide Acted, ActedOn, Placed, PolledRows, PendingDevice, Outcome;
    ActedStep(s, acts);
    var next, rest := ActedOn(s, acts[0]), acts[1..];
    PollOutcome(s, acts);
    PlacedNext(s.devices, s.gIndex, PendingDevice(s.store.file, s.mail, acts), next.devices,
               Outcome(s.store.file, next.mail, rest), Acted(s, acts).devices);
  }

  lemma PostRebuilds(s: State, acts: seq<RestoreAction>)
    requires Schedulable(s, acts) && |acts| > 0 && acts[0].PostRow? && RebuildsPolled(ActedOn(s, acts[0]), acts[1..])
    ensures RebuildsPolled(s, acts)
  {
    hide Acted, ActedOn, Placed, PolledRows, PendingDevice, Outcome;
    ActedStep(s, acts);
    PostOutcome(s, acts);
  }

  lemma PollOutcome(s: State, acts: seq<RestoreAction>)
    requires Schedulable(s, acts) && |acts| > 0 && acts[0].PollMail?
    ensures var file, next, rest, pending := s.store.file, ActedOn(s, acts[0]), acts[1..], PendingDevice(s.store.file, s.mail, acts);
            && Outcome(file, s.mail, acts) == pending + Outcome(file, next.mail, rest)
            && |pending| <= 1 && next.gIndex == s.gIndex + |pending|
            && next.devices == if |pending| == 0 then s.devices else s.devices[s.gIndex := pending[0]]
  {
    PolledRowsStep(s.store.file, acts);
    hide PolledRows;
    assert PendingDevice(s.store.file, ActedOn(s, acts[0]).mail, acts[1..]) == [];
    assert [] + PolledRows(s.store.file, acts[1..]) == PolledRows(s.store.file, acts[1..]);
  }

  lemma PostOutcome(s: State, acts: seq<RestoreAction>)
    requires Schedulable(s, acts) && |acts| > 0 && acts[0].PostRow?
    ensures var file, next, rest := s.store.file, ActedOn(s, acts[0]), acts[1..];
            && Outcome(file, s.mail, acts) == Outcome(file, next.mail, rest)
            && next.devices == s.devices && next.gIndex == s.gIndex
  {
    hide PolledRows;
    PolledRowsStep(s.store.file, acts);
    var file, rest := s.store.file, acts[1..];
    if Posts(file, acts[0]) {
      assert PendingDevice(file, s.mail, acts) == [];
      assert [] + PolledRows(file, acts) == PolledRows(file, acts);
    } else {
      assert [] + PolledRows(file, rest) == PolledRows(file, rest);
    }
  }

  lemma PolledRowsStep(file: Rows, acts: seq<RestoreAction>)
    requires |acts| > 0
    ensures PolledRows(file, acts) ==
            (if Posts(file, acts[0]) && Rebuildable(file[acts[0].row]) && PolledFirst(file, acts[1..])
             then [DeviceOf(file[acts[0].row])] else []) + PolledRows(file, acts[1..])
  {
  }

  lemma PlacedNext(before: seq<Device>, g: nat, pending: seq<Device>, next: seq<Device>, ds: seq<Device>, after: seq<Device>)
    requires g < |before| && |pending| <= 1 && next == if |pending| == 0 then before else before[g := pending[0]]
    requires Placed(next, g + |pending|, ds, after)
    ensures Placed(before, g, pending + ds, after)
  {
    if |pending| == 0 {
      assert pending + ds == ds;
    }
  }

  /** Without a poll between two posts the first row is never rebuilt. */
  lemma RestoreWithoutPollLosesRow(s: State, i: nat, j: nat)
    requires Shaped(s) && i < j < |s.store.file| <= DEV_NUM && s.gIndex < DYNAMIC_ENDPOINT_COUNT
    requires s.store.file[i].nodeType != 0 && s.store.file[j].nodeType != 0
    ensures var r := Polled(RestorePosted(RestorePosted(s, i), j));
            && r.mail == NoMail && r.joined == s.joined[i := s.store.file[i]][j := s.store.file[j]]
            && r.devices == Polled(RestorePosted(s, j)).devices && r.gIndex == Polled(RestorePosted(s, j)).gIndex
  {
  }
}
