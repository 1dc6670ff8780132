/**
 * What a simple descriptor makes of a device: the filtered cluster list, the bitmap that chooses the
 * device built now, and the type code that chooses the device rebuilt after a restart.
 */
module DeviceKinds {
  import opened Bytes
  import Devices
  import opened Options

  const CLUSTER_IDENTIFY: u16 := 0x0003
  const CLUSTER_GROUPS: u16 := 0x0004
  const CLUSTER_SCENES: u16 := 0x0005
  const CLUSTER_ONOFF: u16 := 0x0006
  const CLUSTER_LEVEL: u16 := 0x0008
  const CLUSTER_COLOR: u16 := 0x0300
  const CLUSTER_ILLUMINANCE: u16 := 0x0400
  const CLUSTER_TEMPERATURE: u16 := 0x0402
  const CLUSTER_OCCUPANCY: u16 := 0x0406
  const CLUSTER_ZLL: u16 := 0x1000

  datatype Kind = OnOffLight | DimmableLight | ColorLight | TemperatureSensor

  /** sClusterBitmap. */
  datatype Bitmap = Bitmap(onOff: bool, dimmable: bool, color: bool, illuminance: bool, temperature: bool, occupancy: bool)

  const NO_CLUSTERS: Bitmap := Bitmap(false, false, false, false, false, false)

  predicate Skipped(c: u16) {
    c == CLUSTER_GROUPS || c == CLUSTER_SCENES || c == CLUSTER_IDENTIFY || c == CLUSTER_ZLL || c == 0xFFFF
  }

  function Filtered(cs: seq<u16>): seq<u16> {
    if |cs| == 0 then []
    else Filtered(cs[..|cs| - 1]) + if Skipped(cs[|cs| - 1]) then [] else [cs[|cs| - 1]]
  }

  /** The bitmap and the type code after one more cluster. */
  function Noted(b: Bitmap, c: u16): Bitmap {
    if c == CLUSTER_ONOFF then b.(onOff := true)
    else if c == CLUSTER_LEVEL then b.(dimmable := true)
    else if c == CLUSTER_COLOR then b.(color := true)
    else if c == CLUSTER_ILLUMINANCE then b.(illuminance := true)
    else if c == CLUSTER_TEMPERATURE then b.(temperature := true)
    else if c == CLUSTER_OCCUPANCY then b.(occupancy := true)
    else b
  }

  function Retyped(nodeType: u8, c: u16): u8 {
    if c == CLUSTER_LEVEL then 2 else if c == CLUSTER_COLOR then 3 else nodeType
  }

  function BitmapOf(cs: seq<u16>): Bitmap {
    if |cs| == 0 then NO_CLUSTERS else Noted(BitmapOf(cs[..|cs| - 1]), cs[|cs| - 1])
  }

  function TypeOf(cs: seq<u16>, start: u8): u8 {
    if |cs| == 0 then start else Retyped(TypeOf(cs[..|cs| - 1], start), cs[|cs| - 1])
  }

  /** `AddZcbNode`: the device built from the bitmap; an occupancy sensor is not built. */
  function LiveKind(b: Bitmap): Option<Kind> {
    if b.color then Some(ColorLight)
    else if b.dimmable then Some(DimmableLight)
    else if b.onOff then Some(OnOffLight)
    else if b.temperature then Some(TemperatureSensor)
    else None
  }

  /** `RetrieveJoinedNode`: the device built from the saved type code. */
  function RestoredKind(nodeType: u8): Option<Kind> {
    match nodeType
    case 1 => Some(OnOffLight)
    case 2 => Some(DimmableLight)
    case 3 => Some(ColorLight)
    case _ => None
  }

  /** The first loop of `ZCB_HandleSimpleDescriptorResponse`; the message has room for 15 clusters. */
  method FilterClusters(listed: array<u16>, count: nat, sZDCluster: array<u16>) returns (actual: nat)
    requires count <= listed.Length && count <= Devices.MAX_CLUSTERS == sZDCluster.Length && listed != sZDCluster
    modifies sZDCluster
    ensures actual <= Devices.MAX_CLUSTERS && sZDCluster[..actual] == Filtered(listed[..count])
    ensures sZDCluster[actual..] == old(sZDCluster[..])[actual..]
  {
    actual := 0;
    var i := 0;
    assert listed[..0] == [];
    while i < count
      invariant actual <= i <= count
      invariant sZDCluster[..actual] == Filtered(listed[..i])
      invariant sZDCluster[actual..] == old(sZDCluster[..])[actual..]
    {
      assert listed[..i + 1][..i] == listed[..i];
      if !Skipped(listed[i]) {
        sZDCluster[actual] := listed[i];
        actual := actual + 1;
      }
      i := i + 1;
    }
  }

  /** The second loop: the bitmap of sZcb and the type of the joined node. */
  method ScanClusters(sZDCluster: array<u16>, actual: nat, start: u8) returns (b: Bitmap, nodeType: u8)
    requires actual <= sZDCluster.Length
    ensures b == BitmapOf(sZDCluster[..actual]) && nodeType == TypeOf(sZDCluster[..actual], start)
  {
    b, nodeType := NO_CLUSTERS, start;
    var k := 0;
    assert sZDCluster[..0] == [];
    while k < actual
      invariant k <= actual
      invariant b == BitmapOf(sZDCluster[..k]) && nodeType == TypeOf(sZDCluster[..k], start)
    {
      assert sZDCluster[..k + 1][..k] == sZDCluster[..k];
      var c := sZDCluster[k];
      if c == CLUSTER_ONOFF {
        b := b.(onOff := true);
      } else if c == CLUSTER_LEVEL {
        b, nodeType := b.(dimmable := true), 2;
      } else if c == CLUSTER_COLOR {
        b, nodeType := b.(color := true), 3;
      } else if c == CLUSTER_ILLUMINANCE {
        b := b.(illuminance := true);
      } else if c == CLUSTER_TEMPERATURE {
        b := b.(temperature := true);
      } else if c == CLUSTER_OCCUPANCY {
        b := b.(occupancy := true);
      }
      k := k + 1;
    }
  }

  // ---- Laws ----

  /**
   * `f` is the order-preserving subsequence of the clusters of `cs` that are not skipped: `at[k]` is
   * the position of its k-th entry, the positions rise, and every wanted cluster has its position in `at`.
   */
  predicate Selects(cs: seq<u16>, f: seq<u16>, at: seq<nat>) {
    && |at| == |f|
    && (forall k :: 0 <= k < |at| ==> at[k] < |cs| && cs[at[k]] == f[k] && !Skipped(f[k]))
    && (forall k, l :: 0 <= k < l < |at| ==> at[k] < at[l])
    && (forall i :: 0 <= i < |cs| && !Skipped(cs[i]) ==> i in at)
  }

  lemma {:induction false} FilterIsSubsequence(cs: seq<u16>) returns (at: seq<nat>)
    ensures Selects(cs, Filtered(cs), at)
  {
    if |cs| == 0 {
      at := [];
    } else {
      hide Skipped, Selects;
      var p, c := cs[..|cs| - 1], cs[|cs| - 1];
      at := FilterIsSubsequence(p);
      assert cs == p + [c];
      if Skipped(c) {
        SelectsSkipping(p, Filtered(p), at, c);
      } else {
        SelectsTaking(p, Filtered(p), at, c);
        at := at + [|p|];
      }
    }
  }

  lemma SelectsTaking(p: seq<u16>, f: seq<u16>, at: seq<nat>, c: u16)
    requires Selects(p, f, at) && !Skipped(c)
    ensures Selects(p + [c], f + [c], at + [|p|])
  {
    hide Skipped;
    forall i | 0 <= i < |p + [c]| && !Skipped((p + [c])[i])
      ensures i in at + [|p|]
    {
      if i < |p| {
        assert i in at;
      }
    }
  }

  lemma SelectsSkipping(p: seq<u16>, f: seq<u16>, at: seq<nat>, c: u16)
    requires Selects(p, f, at) && Skipped(c)
    ensures Selects(p + [c], f, at)
  {
    hide Skipped;
  }

  lemma {:induction false} BitmapMeansMember(cs: seq<u16>)
    ensures BitmapOf(cs).onOff <==> CLUSTER_ONOFF in cs
    ensures BitmapOf(cs).dimmable <==> CLUSTER_LEVEL in cs
    ensures BitmapOf(cs).color <==> CLUSTER_COLOR in cs
    ensures BitmapOf(cs).illuminance <==> CLUSTER_ILLUMINANCE in cs
    ensures BitmapOf(cs).temperature <==> CLUSTER_TEMPERATURE in cs
    ensures BitmapOf(cs).occupancy <==> CLUSTER_OCCUPANCY in cs
  {
    if |cs| > 0 {
      BitmapMeansMember(cs[..|cs| - 1]);
      MemberSnoc(cs, CLUSTER_ONOFF);
      MemberSnoc(cs, CLUSTER_LEVEL);
      MemberSnoc(cs, CLUSTER_COLOR);
      MemberSnoc(cs, CLUSTER_ILLUMINANCE);
      MemberSnoc(cs, CLUSTER_TEMPERATURE);
      MemberSnoc(cs, CLUSTER_OCCUPANCY);
    }
  }

  lemma MemberSnoc(cs: seq<u16>, c: u16)
    requires |cs| > 0
    ensures c in cs <==> c in cs[..|cs| - 1] || c == cs[|cs| - 1]
  {
    assert cs == cs[..|cs| - 1] + [cs[|cs| - 1]];
  }

  /** A level-control cluster stands after every color-control cluster. */
  predicate LevelAfterColor(cs: seq<u16>) {
    exists j :: 0 <= j < |cs| && cs[j] == CLUSTER_LEVEL && forall i :: j < i < |cs| ==> cs[i] != CLUSTER_COLOR
  }

  /** The type code is decided by the last of the level-control and color-control clusters. */
  lemma {:induction false} TypeMeansLast(cs: seq<u16>, start: u8)
    ensures TypeOf(cs, start) ==
            if LevelAfterColor(cs) then 2 else if CLUSTER_COLOR in cs then 3 else start
  {
    if |cs| > 0 {
      var p, c := cs[..|cs| - 1], cs[|cs| - 1];
      TypeMeansLast(p, start);
      assert cs == p + [c];
      if c != CLUSTER_LEVEL && c != CLUSTER_COLOR {
        assert LevelAfterColor(cs) <==> LevelAfterColor(p) by {
          if j :| 0 <= j < |p| && p[j] == CLUSTER_LEVEL && forall i :: j < i < |p| ==> p[i] != CLUSTER_COLOR {
            assert cs[j] == CLUSTER_LEVEL;
          }
          if j :| 0 <= j < |cs| && cs[j] == CLUSTER_LEVEL && forall i :: j < i < |cs| ==> cs[i] != CLUSTER_COLOR {
            assert p[j] == CLUSTER_LEVEL;
            assert forall i :: j < i < |p| ==> p[i] == cs[i];
          }
        }
      } else if c == CLUSTER_LEVEL {
        assert cs[|cs| - 1] == CLUSTER_LEVEL;
        assert LevelAfterColor(cs);
      } else {
        assert cs[|cs| - 1] == CLUSTER_COLOR;
      }
    }
  }

  /**
   * A device announced with type 1 comes back after a restart as the kind built when it joined exactly when a color
   * light lists no level control after its color control, and a device that is no dimmable or color light
   * has the On/Off cluster.
   */
  lemma KindsAgreeExactlyWhen(cs: seq<u16>)
    requires LiveKind(BitmapOf(cs)).Some?
    ensures RestoredKind(TypeOf(cs, 1)) == LiveKind(BitmapOf(cs)) <==>
            if CLUSTER_COLOR in cs then !LevelAfterColor(cs) else CLUSTER_LEVEL in cs || CLUSTER_ONOFF in cs
  {
    BitmapMeansMember(cs);
    TypeMeansLast(cs, 1);
    if CLUSTER_COLOR !in cs && CLUSTER_LEVEL in cs {
      var j :| 0 <= j < |cs| && cs[j] == CLUSTER_LEVEL;
      assert LevelAfterColor(cs);
    }
  }

  /** Every light whose clusters are listed in ascending order comes back as the kind built when it joined. */
  lemma LightsAgree(cs: seq<u16>)
    requires forall i, j :: 0 <= i < j < |cs| ==> cs[i] < cs[j]
    requires CLUSTER_ONOFF in cs || CLUSTER_LEVEL in cs || CLUSTER_COLOR in cs
    ensures LiveKind(BitmapOf(Filtered(cs))).Some?
    ensures RestoredKind(TypeOf(Filtered(cs), 1)) == LiveKind(BitmapOf(Filtered(cs)))
  {
    var f := Filtered(cs);
    FilteredKeeps(cs, CLUSTER_ONOFF);
    FilteredKeeps(cs, CLUSTER_LEVEL);
    FilteredKeeps(cs, CLUSTER_COLOR);
    BitmapMeansMember(f);
    KindsAgreeExactlyWhen(f);
    if CLUSTER_COLOR in f {
      AscendingHasNoLateLevel(cs);
    }
  }

  lemma FilteredKeeps(cs: seq<u16>, c: u16)
    requires !Skipped(c)
    ensures c in cs ==> c in Filtered(cs)
  {
    var at := FilterIsSubsequence(cs);
    if c in cs {
      var i :| 0 <= i < |cs| && cs[i] == c;
      var k :| 0 <= k < |at| && at[k] == i;
      assert Filtered(cs)[k] == c;
    }
  }

  lemma AscendingHasNoLateLevel(cs: seq<u16>)
    requires forall i, j :: 0 <= i < j < |cs| ==> cs[i] < cs[j]
    requires CLUSTER_COLOR in Filtered(cs)
    ensures !LevelAfterColor(Filtered(cs))
  {
    hide Filtered;
    var f := Filtered(cs);
    var at := FilterIsSubsequence(cs);
    var i :| 0 <= i < |f| && f[i] == CLUSTER_COLOR;
    forall j | 0 <= j < |f| && f[j] == CLUSTER_LEVEL
      ensures j < i
    {
      assert cs[at[j]] == CLUSTER_LEVEL && cs[at[i]] == CLUSTER_COLOR;
    }
  }
}
