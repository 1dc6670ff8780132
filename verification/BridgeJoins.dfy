/**
 * What an announce, a descriptor, a poll and a restart mean in terms of cluster ids, endpoint ids and saved rows: which
 * device is built, which endpoint it gets, and what comes back.
 */
module BridgeJoins {
  import opened Bytes
  import opened DeviceKinds
  import opened EndpointSearch
  import opened Options
  import opened SavedNodes
  import opened Bridge
  import opened BridgeRuns
  import opened BridgeRouting

  // ---- Announce and descriptor ----

  /** Entry `i` is the first with neither type nor endpoint. */
  predicate FirstBlank(joined: seq<Node>, i: nat) {
    && i < |joined| && joined[i].nodeType == 0 && joined[i].ep == 0
    && forall j :: 0 <= j < i ==> joined[j].nodeType != 0 || joined[j].ep != 0
  }

  /** An announce takes the first blank entry, which becomes the last announced one; without one it changes nothing. */
  lemma {:induction false} AnnounceIsNoted(s: State, shortaddr: u16, mac: nat, i: nat)
    requires Shaped(s) && i <= DEV_NUM
    ensures FirstBlank(s.joined, i) ==> Announced(s, shortaddr, mac) == s.(joined := s.joined[i := Node(1, 0, shortaddr, mac)], idx := i)
    ensures (forall j :: 0 <= j < DEV_NUM ==> s.joined[j].nodeType != 0 || s.joined[j].ep != 0) ==> Announced(s, shortaddr, mac) == s
  {
  }

  /** The ids that the filter drops are these five. */
  lemma {:induction false} FilterDrops(cs: seq<u16>)
    ensures forall c :: c in Filtered(cs) <==> c in cs && c !in {0x0003, 0x0004, 0x0005, 0x1000, 0xFFFF}
  {
    if |cs| > 0 {
      FilterDrops(cs[..|cs| - 1]);
      assert cs == cs[..|cs| - 1] + [cs[|cs| - 1]];
    }
  }

  /** A descriptor is posted with the bits of its clusters, and no node but the last announced one is retyped. */
  lemma {:induction false} DescriptorIsPosted(s: State, clusters: seq<u16>)
    requires Shaped(s)
    ensures var t := Described(s, clusters);
            && t.mail == AddDevice(t.bitmap)
            && (t.bitmap.onOff <==> 0x0006 in clusters) && (t.bitmap.dimmable <==> 0x0008 in clusters)
            && (t.bitmap.color <==> 0x0300 in clusters) && (t.bitmap.illuminance <==> 0x0400 in clusters)
            && (t.bitmap.temperature <==> 0x0402 in clusters) && (t.bitmap.occupancy <==> 0x0406 in clusters)
            && t == s.(bitmap := t.bitmap, mail := t.mail, joined := t.joined) && |t.joined| == DEV_NUM
            && t.joined == s.joined[s.idx := s.joined[s.idx].(nodeType := t.joined[s.idx].nodeType)]
  {
    FilterDrops(clusters);
    BitmapMeansMember(Filtered(clusters));
    hide Filtered, BitmapOf, TypeOf;
  }

  /** The device for a list of clusters: the richest light, else a temperature sensor, else none. */
  function KindFor(clusters: seq<u16>): Option<Kind> {
    if 0x0300 in clusters then Some(ColorLight)
    else if 0x0008 in clusters then Some(DimmableLight)
    else if 0x0006 in clusters then Some(OnOffLight)
    else if 0x0402 in clusters then Some(TemperatureSensor)
    else None
  }

  /** The poll after a descriptor adds the device for its clusters, or only empties the mailbox. */
  lemma {:induction false} PolledDescriptorAdds(s: State, clusters: seq<u16>)
    requires Shaped(s) && s.gIndex < DYNAMIC_ENDPOINT_COUNT
    ensures var d, k := Described(s, clusters), KindFor(clusters);
            && Shaped(d) && d.gIndex == s.gIndex
            && Polled(d) == (if k.Some? then Added(d, k.value) else d).(mail := NoMail)
  {
    DescriptorIsPosted(s, clusters);
    hide Described, Added;
  }

  /** A restore message builds the light of the saved type, with the saved endpoint. */
  lemma {:induction false} PolledRestoreBuilds(s: State)
    requires Shaped(s) && s.gIndex < DYNAMIC_ENDPOINT_COUNT && s.mail.RestoreNode?
    ensures var t, g := Polled(s), s.gIndex;
            && t.mail == NoMail && t.joined == s.joined && t.store == s.store && t.current == s.current
            && if 1 <= s.mail.nodeType <= 3
               then t.gIndex == g + 1
                    && t.devices == s.devices[g := Device(if s.mail.nodeType == 1 then OnOffLight else if s.mail.nodeType == 2
                                                          then DimmableLight else ColorLight, s.mail.ep, true)]
                    && t.used == if s.mail.ep in s.refused then s.used else s.used + {s.mail.ep}
               else t == s.(mail := NoMail)
  {
  }

  // ---- Which endpoint a device gets ----

  /** The largest saved endpoint. */
  predicate Largest(rows: Rows, m: nat) {
    && (forall r :: 0 <= r < |rows| ==> rows[r].ep <= m)
    && if |rows| == 0 then m == 0 else exists r :: 0 <= r < |rows| && rows[r].ep == m
  }

  lemma {:induction false} MaxEpIsLargest(rows: Rows)
    ensures Largest(rows, MaxEp(rows))
  {
    if |rows| > 0 {
      var front := rows[..|rows| - 1];
      MaxEpIsLargest(front);
      if |front| > 0 {
        var r :| 0 <= r < |front| && front[r].ep == MaxEp(front);
        assert rows[r].ep == MaxEp(front);
      }
      assert rows[|rows| - 1].ep <= MaxEp(rows);
      forall r | 0 <= r < |rows|
        ensures rows[r].ep <= MaxEp(rows)
      {
        if r < |front| {
          assert front[r] == rows[r];
        }
      }
    }
  }

  /**
   * Without a file the search goes up from the current id; with one, from the id behind the largest saved endpoint, in 16
   * bits. The device gets the first unused id.
   */
  lemma {:induction false} AddedEndpointIsFirstUnused(s: State, kind: Kind, free: u16) returns (m: nat)
    requires Shaped(s) && FreeIndex(s.devices) < DYNAMIC_ENDPOINT_COUNT && s.first <= free && free !in s.used
    ensures s.store.hasFile ==> Largest(s.store.file, m) && m < 0x1_0000
    ensures var start := if s.store.hasFile then (m + 1) % 0x1_0000 else s.current;
            FirstGoingUp(start, s.first, s.used, Added(s, kind).current)
    ensures var t := Added(s, kind);
            t.devices == s.devices[FreeIndex(s.devices) := Device(kind, t.current, t.current !in s.refused)]
  {
    m := MaxEp(s.store.file);
    MaxEpIsLargest(s.store.file);
    AllocatedGoingUp(StartId(s), s.first, s.used, free);
    hide AllocatedId, FirstGoingUp, Stored;
  }

  /** The first device of a bridge without a saved file gets the first dynamic id. */
  lemma {:induction false} FirstDeviceGetsFirstId(s: State, kind: Kind)
    requires !s.store.hasFile && s.store.file == []
    ensures var b := Booted(s);
            && Shaped(b) && Added(b, kind).current == s.first
            && Added(b, kind).devices[0] == Device(kind, s.first, s.first !in s.refused)
  {
    var b := Restarted(s);
    var m := AddedEndpointIsFirstUnused(b, kind, s.first);
    hide AllocatedId;
  }

  // ---- What is saved ----

  /** The last announced node has the new endpoint, and its row is in the file. */
  predicate Saves(s: State, t: State) {
    && Shaped(s) && |t.joined| == DEV_NUM && t.joined == s.joined[s.idx := s.joined[s.idx].(ep := t.current)]
    && t.store.hasFile && t.store.file == t.store.ram && t.joined[s.idx] in t.store.file
  }

  /**
   * Over the poll that adds an endpoint: a last announced node without an endpoint gets it and its row is written to the
   * file; otherwise neither nodes nor file change.
   */
  lemma {:induction false} AddedNodeIsSaved(s: State)
    requires Inv(s) && Addable(s)
    ensures var t, n := Polled(s), s.joined[s.idx];
            if n.nodeType != 0 && n.ep == 0 then Saves(s, t) else t.joined == s.joined && t.store == s.store
  {
    var free := SomeIdIsFree(s);
    AllocatedIdIsUnused(StartId(s), s.first, s.used, free);
    var id := AllocatedId(StartId(s), s.first, s.used);
    var n := s.joined[s.idx].(ep := id);
    hide AllocatedId, StartId;
    if n.nodeType != 0 && s.joined[s.idx].ep == 0 {
      NodeIsStored(s.store, n);
    }
    hide Stored;
  }

  lemma {:induction false} NodeIsStored(s: Store, n: Node)
    requires n.nodeType != 0
    ensures var t := Stored(s, n, true);
            t.hasFile && t.file == t.ram && n in t.file
  {
    var ram := if s.hasFile then s.file else s.ram;
    var j := RowOf(ram, n.mac);
    if j < |ram| {
      assert ram[j := n][j] == n;
    } else {
      assert (ram + [n])[|ram|] == n;
    }
  }

  /**
   * A device that joined in order keeps its endpoint, its address and its place in the routing over a restart: from the
   * poll that added it straight into power-off.
   */
  lemma {:induction false} JoinSurvivesRestart(s: State) returns (r: nat)
    requires Inv(s) && Addable(s) && s.joined[s.idx].nodeType != 0 && s.joined[s.idx].ep == 0
    ensures var t := Polled(s);
            && FileOk(t) && |t.joined| == DEV_NUM
            && var b := Booted(t);
            && |b.joined| == DEV_NUM && r < DEV_NUM
            && FindMatched(b.joined, t.current, 0) == r && b.joined[r] == t.joined[s.idx]
            && t.joined[s.idx] == s.joined[s.idx].(ep := t.current)
  {
    var t := Polled(s);
    AddedNodeIsSaved(s);
    StepKeeps(s, Poll);
    hide Polled, Booted, Inv;
    r :| 0 <= r < |t.store.file| && t.store.file[r] == t.joined[s.idx];
    PolledIsOk(s);
    RoutingSurvivesRestart(t, r);
    BootHoldsSavedRows(t);
  }

  lemma {:induction false} PolledIsOk(s: State)
    requires Inv(s)
    ensures Inv(Polled(s)) && FileOk(Polled(s)) && Shaped(Polled(s))
  {
    StepKeeps(s, Poll);
    hide Polled;
  }
}
