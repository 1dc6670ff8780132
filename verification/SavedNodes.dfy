/** The table of joined nodes that survives a restart: `StoreJoinedNode` on the RAM copy and the flash file. */
module SavedNodes {
  import opened Bytes
  import opened Options

  const DEV_NUM: nat := 5

  /** NodeDB: type 1 to 3 for On/Off, dimmable and color lights, 0 for an empty entry. */
  datatype Node = Node(nodeType: u8, ep: u16, shortaddr: u16, mac: nat)

  /** JoinedNodesSaved: the rows in use. */
  type Rows = seq<Node>

  /** The RAM copy and the file; the file is absent until something was saved. */
  datatype Store = Store(ram: Rows, hasFile: bool, file: Rows)

  /** Index of the first row with address `mac`, or the number of rows. */
  function RowOf(rows: Rows, mac: nat): (j: nat)
    ensures j <= |rows|
    ensures j < |rows| ==> rows[j].mac == mac
    ensures forall i :: 0 <= i < j ==> rows[i].mac != mac
  {
    if |rows| == 0 || rows[0].mac == mac then 0 else 1 + RowOf(rows[1..], mac)
  }

  lemma RowOfIs(rows: Rows, mac: nat, j: nat)
    requires j <= |rows| && (j < |rows| ==> rows[j].mac == mac)
    requires forall i :: 0 <= i < j ==> rows[i].mac != mac
    ensures RowOf(rows, mac) == j
  {
  }

  /** `StoreJoinedNode`; `readable` says whether reading an existing file succeeds. */
  function Stored(s: Store, n: Node, readable: bool): Store {
    var read := readable && s.hasFile;
    var ram := if read then s.file else s.ram;
    var j := RowOf(ram, n.mac);
    if read && j < |ram| then Store(ram[j := n], true, ram[j := n])
    else if n.nodeType != 0 then Store(ram + [n], true, ram + [n])
    else if |ram| > 0 then Store(ram, true, ram)
    else Store(ram, s.hasFile, s.file)
  }

  class SavedTable {
    var totalNodes: nat
    const joinedNodes: array<Node>
    var hasFile: bool
    var file: Rows

    ghost predicate Valid()
      reads this, joinedNodes
    {
      joinedNodes.Length == DEV_NUM && totalNodes <= DEV_NUM && |file| <= DEV_NUM
    }

    ghost function Abs(): Store
      requires Valid()
      reads this, joinedNodes
    {
      Store(joinedNodes[..totalNodes], hasFile, file)
    }

    constructor ()
      ensures Valid() && fresh(joinedNodes) && Abs() == Store([], false, [])
    {
      joinedNodes := new Node[DEV_NUM](i => Node(0, 0, 0, 0));
      totalNodes, hasFile, file := 0, false, [];
    }

    /** `ramStorageReadFromFlash` into the RAM copy. */
    method ReadFromFlash(readable: bool) returns (ok: bool)
      requires Valid()
      modifies this, joinedNodes
      ensures Valid() && ok == (readable && old(hasFile))
      ensures Abs() == if ok then old(Abs()).(ram := old(file)) else old(Abs())
    {
      ok := readable && hasFile;
      if ok {
        forall i | 0 <= i < |file| {
          joinedNodes[i] := file[i];
        }
        totalNodes := |file|;
      }
    }

    method SaveToFlash()
      requires Valid()
      modifies this
      ensures Valid() && Abs() == Store(old(Abs()).ram, true, old(Abs()).ram)
    {
      hasFile, file := true, joinedNodes[..totalNodes];
    }

    method FindRow(mac: nat) returns (j: nat)
      requires Valid()
      ensures j == RowOf(Abs().ram, mac)
    {
      j := 0;
      while j < totalNodes && joinedNodes[j].mac != mac
        invariant j <= totalNodes
        invariant forall i :: 0 <= i < j ==> joinedNodes[i].mac != mac
      {
        j := j + 1;
      }
      RowOfIs(Abs().ram, mac, j);
    }

    /** The code writes at `totalNodes` unchecked: a row may be added only while the table has room. */
    method StoreJoinedNode(n: Node, readable: bool)
      requires Valid() && |Stored(Abs(), n, readable).ram| <= DEV_NUM
      modifies this, joinedNodes
      ensures Valid() && Abs() == Stored(old(Abs()), n, readable)
    {
      var ok := ReadFromFlash(readable);
      if ok {
        var j := FindRow(n.mac);
        if j < totalNodes {
          joinedNodes[j] := Node(n.nodeType, n.ep, n.shortaddr, joinedNodes[j].mac);
          SaveToFlash();
          return;
        }
      }
      if n.nodeType != 0 {
        assert |joinedNodes[..totalNodes] + [n]| <= DEV_NUM;
        joinedNodes[totalNodes] := n;
        totalNodes := totalNodes + 1;
      }
      if totalNodes > 0 {
        SaveToFlash();
      }
    }
  }

  // ---- The table is a map from MAC address to node ----

  predicate MacsUnique(rows: Rows) {
    forall i, j :: 0 <= i < j < |rows| ==> rows[i].mac != rows[j].mac
  }

  predicate EndpointsUnique(rows: Rows) {
    forall i, j :: 0 <= i < j < |rows| ==> rows[i].ep != rows[j].ep
  }

  /** The table read as a map: the node saved for `mac`. */
  function Lookup(rows: Rows, mac: nat): Option<Node> {
    var j := RowOf(rows, mac);
    if j < |rows| then Some(rows[j]) else None
  }

  /** What is saved before the call: the file when it can be read, otherwise the RAM copy. */
  function Current(s: Store, readable: bool): Rows { if readable && s.hasFile then s.file else s.ram }

  /** The rows after storing `n`: its row replaced, or a new row at the end. */
  function Upserted(rows: Rows, n: Node): Rows {
    var j := RowOf(rows, n.mac);
    if j < |rows| then rows[j := n] else rows + [n]
  }

  lemma UpsertIsMapUpdate(rows: Rows, n: Node, mac: nat)
    ensures Lookup(Upserted(rows, n), mac) == if mac == n.mac then Some(n) else Lookup(rows, mac)
  {
    var t, j := Upserted(rows, n), RowOf(rows, n.mac);
    if mac == n.mac {
      RowOfIs(t, mac, j);
    } else {
      var i := RowOf(rows, mac);
      if i == |rows| {
        RowOfIs(t, mac, |t|);
      } else {
        RowOfIs(t, mac, i);
      }
    }
  }

  /**
   * Storing a node with a non-zero type is a map update when the file can be read or the RAM copy is
   * empty: file and RAM copy both become the updated table, addresses stay unique, the other rows stay in place.
   */
  lemma StoreIsMapUpdate(s: Store, n: Node, readable: bool, mac: nat)
    requires n.nodeType != 0
    requires (readable && s.hasFile) || s.ram == []
    ensures var rows, t := Current(s, readable), Stored(s, n, readable);
            && t.hasFile && t.file == t.ram == Upserted(rows, n)
            && Lookup(t.ram, mac) == (if mac == n.mac then Some(n) else Lookup(rows, mac))
            && (MacsUnique(rows) ==> MacsUnique(t.ram))
            && |rows| <= |t.ram|
            && (forall i :: 0 <= i < |rows| && i != RowOf(rows, n.mac) ==> t.ram[i] == rows[i])
  {
    UpsertIsMapUpdate(Current(s, readable), n, mac);
  }

  /** An empty node is written only over a saved row of its address; otherwise the table stays and is at most written again. */
  lemma {:induction false} EmptyNodeIsNotAdded(s: Store, n: Node, readable: bool)
    requires n.nodeType == 0
    ensures var rows, t := Current(s, readable), Stored(s, n, readable);
            && |t.ram| == |rows|
            && (forall i :: 0 <= i < |rows| ==> t.ram[i] == rows[i] || (t.ram[i] == n && rows[i].mac == n.mac && readable && s.hasFile))
            && (readable && s.hasFile && (exists i :: 0 <= i < |rows| && rows[i].mac == n.mac) ==>
                  n in t.ram && t.hasFile && t.file == t.ram)
            && (|rows| > 0 ==> t.hasFile && t.file == t.ram) && (|rows| == 0 ==> t.hasFile == s.hasFile && t.file == s.file)
  {
    var rows, j := Current(s, readable), RowOf(Current(s, readable), n.mac);
    if readable && s.hasFile && j < |rows| {
      assert rows[j := n][j] == n;
    }
  }

  /** Endpoints stay unique when the new endpoint is not in use by another row. */
  lemma StoreKeepsEndpointsUnique(s: Store, n: Node, readable: bool)
    requires n.nodeType != 0
    requires (readable && s.hasFile) || s.ram == []
    requires EndpointsUnique(Current(s, readable))
    requires forall i :: 0 <= i < |Current(s, readable)| ==> Current(s, readable)[i].ep != n.ep
    ensures EndpointsUnique(Stored(s, n, readable).ram)
  {
  }

  /**
   * When the file cannot be read the row is appended without a search: addresses stay unique
   * exactly when the RAM copy did not have the address yet.
   */
  lemma UnreadableFileMayDuplicate(s: Store, n: Node, readable: bool)
    requires n.nodeType != 0 && !(readable && s.hasFile) && MacsUnique(s.ram)
    ensures MacsUnique(Stored(s, n, readable).ram) <==> RowOf(s.ram, n.mac) == |s.ram|
  {
    var t := Stored(s, n, readable).ram;
    var j := RowOf(s.ram, n.mac);
    if j < |s.ram| {
      assert t[j].mac == t[|s.ram|].mac;
    }
  }
}
