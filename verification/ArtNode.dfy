module ArtNodes {
  import opened Wrappers
  import opened Keys
  import opened BitMask
  import opened ArtShape
  import opened ArtMaps
  import opened ArtOrder

  /** A child pointer: empty, a value (level 0) or a sub-node (above level 0). */
  datatype Slot<V> = Nil | Val(v: V) | Sub(n: ArtNode<V>)

  lemma FirstKey<V>(b: nat, x: Slot<V>, keys: seq<int>, slots: seq<Slot<V>>)
    requires |keys| == |slots| == 4 && keys[0] == b < 256 && slots[0] == x != Nil
    requires forall i | 1 <= i < 4 :: slots[i] == Nil
    ensures SortedOk(keys, slots, 1, map[b as int := x], Nil)
  {
    assert Holds(keys, 1, keys[0]);
  }

  lemma TwoAscending(keys: seq<int>)
    requires |keys| >= 2 && keys[0] < keys[1]
    ensures Holds(keys, 2, keys[0]) && Holds(keys, 2, keys[1]) && Ascending(keys, 2)
  {
  }

  lemma TwoKeys<V>(lo: nat, x: Slot<V>, hi: nat, y: Slot<V>, keys: seq<int>, slots: seq<Slot<V>>)
    requires lo < hi < 256 && x != Nil && y != Nil
    requires |keys| == |slots| == 4 && keys[0] == lo && keys[1] == hi && slots[0] == x && slots[1] == y
    requires forall i | 2 <= i < 4 :: slots[i] == Nil
    ensures SortedOk(keys, slots, 2, map[lo as int := x, hi as int := y], Nil)
  {
    hide Ascending, Holds;
    var kids := map[lo as int := x, hi as int := y];
    assert forall b: int <- kids :: b == lo || b == hi;
    assert Holds(keys, 2, lo) && Holds(keys, 2, hi) && Ascending(keys, 2) by { TwoAscending(keys); }
  }

  /** The keys 5, 261 and so on to 4101. */
  ghost predicate Spaced<V>(m: map<int, V>) {
    forall k: int :: k in m <==> 0 <= k && k % 256 == 5 && k / 256 <= 16
  }

  class ArtNode<V> {
    const kind: Kind
    const subKeys: array<int>
    const indexes: array<int>
    const nodes: array<Slot<V>>
    var numChildren: nat
    var freeBitMask: nat
    var nodeKey: nat
    var nodeLevel: nat
    ghost var kids: map<int, Slot<V>>
    ghost var owner: map<int, int>
    ghost var m: map<int, V>
    ghost var Repr: set<object>

    constructor Empty(kind: Kind)
      ensures this.kind == kind && Arrays() && numChildren == 0 && fresh(Own())
      ensures (forall i | 0 <= i < nodes.Length :: nodes[i] == Nil)
              && forall i | 0 <= i < indexes.Length :: indexes[i] == -1
    {
      this.kind := kind;
      subKeys := new int[if kind == N4 || kind == N16 then Capacity(kind) else 0](_ => 0);
      indexes := new int[if kind == N48 then 256 else 0](_ => -1);
      nodes := new Slot<V>[Capacity(kind)](_ => Nil);
      numChildren, freeBitMask, nodeKey, nodeLevel := 0, 0, 0, 0;
    }

    /** ArtNode4::InitFirstKey: a leaf node holding one key. */
    method InitFirstKey(key: nat, value: V)
      requires Arrays() && kind == N4 && (forall i | 0 <= i < nodes.Length :: nodes[i] == Nil)
      requires key <= MAX_KEY
      modifies this, subKeys, nodes
      ensures Valid() && Repr == Own() && m == map[key as int := value]
      ensures nodeLevel == 0 && nodeKey == key
    {
      hide Shape, SortedOk, IndexedOk, DirectOk, Shr, Valid;
      var b := Digit(key, 0);
      numChildren := 1;
      nodeKey := key;
      nodeLevel := 0;
      Repr := Own();
      kids := map[b as int := Val(value)];
      m := map[key as int := value];
      subKeys[0] := b;
      nodes[0] := Val(value);
      FirstKey(b, Val(value), subKeys[..], nodes[..]);
      IsShape();
      ShrStep(key, 0);
      FirstKeyValid(b, key, value);
    }

    lemma FirstKeyValid(b: nat, key: nat, value: V)
      requires Own() <= Repr && Shape() && kind == N4 && numChildren == 1 && nodeLevel == 0
      requires b < 256 && key == 256 * Prefix() + b && Shr(key, 0) == key && kids == map[b as int := Val(value)]
               && m == map[key as int := value]
      ensures Valid()
    {
      hide Shape, Splits, Subs, Shr;
      SplitsSingle(key, value, Prefix(), 0, b);
      assert ChildKind(b) && forall c: int <- kids :: c == b;
      SubsIs(map[b as int := map[key as int := value]]);
      assert key in m;
      IsValid();
    }

    /** ArtNode4::InitTwoKeys: a node with two sub-nodes under the byte in which their keys differ. */
    method InitTwoKeys(key1: nat, value1: ArtNode<V>, key2: nat, value2: ArtNode<V>, level: nat)
      requires Arrays() && kind == N4 && (forall i | 0 <= i < nodes.Length :: nodes[i] == Nil)
      requires value1.Valid() && value2.Valid() && value1.Repr !! value2.Repr && level <= TOP
      requires Own() !! value1.Repr && Own() !! value2.Repr
      requires value1.nodeLevel < level && Shr(value1.nodeKey, level) == Shr(key1, level)
      requires value2.nodeLevel < level && Shr(value2.nodeKey, level) == Shr(key2, level)
      requires Shr(key1, level + 1) == Shr(key2, level + 1) && Digit(key1, level) != Digit(key2, level)
      modifies this, subKeys, nodes
      ensures Valid() && Repr == Own() + value1.Repr + value2.Repr && m == value1.m + value2.m
      ensures nodeLevel == level && Shr(nodeKey, level + 1) == Shr(key1, level + 1)
    {
      hide Splits, Shape, Shr, Mask, Valid, Digit;
      var idx1, idx2 := Digit(key1, level), Digit(key2, level);
      nodeKey := Mask(key1, level);
      nodeLevel := level;
      m := value1.m + value2.m;
      Repr := Own() + value1.Repr + value2.Repr;
      StoreTwo(idx1, Sub(value1), idx2, Sub(value2));
      BranchDigits(key1, key2, level);
      TwoKeysValid(idx1, value1, idx2, value2);
    }

    method StoreTwo(idx1: nat, slot1: Slot<V>, idx2: nat, slot2: Slot<V>)
      requires Arrays() && kind == N4 && (forall i | 0 <= i < nodes.Length :: nodes[i] == Nil)
      requires idx1 < 256 && idx2 < 256 && idx1 != idx2 && slot1 != Nil && slot2 != Nil
      modifies this`numChildren, this`kids, subKeys, nodes
      ensures Shape() && numChildren == 2 && kids == map[idx1 as int := slot1, idx2 as int := slot2]
    {
      hide SortedOk, IndexedOk, DirectOk;
      numChildren := 2;
      kids := map[idx1 as int := slot1, idx2 as int := slot2];
      if idx1 < idx2 {
        subKeys[0] := idx1;
        nodes[0] := slot1;
        subKeys[1] := idx2;
        nodes[1] := slot2;
        TwoKeys(idx1, slot1, idx2, slot2, subKeys[..], nodes[..]);
      } else {
        subKeys[0] := idx2;
        nodes[0] := slot2;
        subKeys[1] := idx1;
        nodes[1] := slot1;
        TwoKeys(idx2, slot2, idx1, slot1, subKeys[..], nodes[..]);
        assert kids == map[idx2 as int := slot2, idx1 as int := slot1];
      }
    }

    lemma TwoKeysValid(b1: nat, value1: ArtNode<V>, b2: nat, value2: ArtNode<V>)
      requires Own() <= Repr && Shape() && kind == N4 && numChildren == 2 && 0 < nodeLevel <= TOP
      requires value1.Valid() && value2.Valid() && value1.Repr !! value2.Repr
               && value1.Repr + value2.Repr <= Repr - Own()
      requires value1.nodeLevel < nodeLevel && Shr(value1.nodeKey, nodeLevel) == 256 * Prefix() + b1
      requires value2.nodeLevel < nodeLevel && Shr(value2.nodeKey, nodeLevel) == 256 * Prefix() + b2
      requires b1 < 256 && b2 < 256 && b1 != b2 && kids == map[b1 as int := Sub(value1), b2 as int := Sub(value2)]
      requires m == value1.m + value2.m
      ensures Valid()
    {
      hide Shape, Splits, Subs, Shr, ChildrenOk, Valid;
      TwoChildren(b1, value1, b2, value2);
      value1.KeysShare(nodeLevel);
      value2.KeysShare(nodeLevel);
      SplitsTwo(value1.m, value2.m, Prefix(), nodeLevel, b1, b2);
      IsValid();
    }

    lemma TwoChildren(b1: nat, value1: ArtNode<V>, b2: nat, value2: ArtNode<V>)
      requires Own() <= Repr && 0 < nodeLevel
      requires value1.Valid() && value2.Valid() && value1.Repr !! value2.Repr
               && value1.Repr + value2.Repr <= Repr - Own()
      requires value1.nodeLevel < nodeLevel && Shr(value1.nodeKey, nodeLevel) == 256 * Prefix() + b1
      requires value2.nodeLevel < nodeLevel && Shr(value2.nodeKey, nodeLevel) == 256 * Prefix() + b2
      requires b1 != b2 && kids == map[b1 as int := Sub(value1), b2 as int := Sub(value2)]
      ensures ChildrenOk() && Subs() == map[b1 as int := value1.m, b2 as int := value2.m]
    {
      hide Shr, Shape, Splits, Valid;
      assert ChildKind(b1) && ChildKind(b2);
      assert forall b: int <- kids :: b == b1 || b == b2;
    }

    /** ArtNode16::InitFromNode4: the source's children and one more, in order. */
    method InitFromNode4(node4: ArtNode<V>, subKey: int, newElement: Slot<V>)
      requires Arrays() && kind == N16 && (forall i | 0 <= i < nodes.Length :: nodes[i] == Nil)
      requires node4.kind == N4 && node4.Shape() && Own() !! node4.Own()
      requires 0 <= subKey < 256 && subKey !in node4.kids && newElement != Nil
      modifies this, subKeys, nodes
      ensures Shape() && kids == node4.kids[subKey := newElement]
      ensures nodeLevel == node4.nodeLevel && nodeKey == node4.nodeKey && numChildren == node4.numChildren + 1
    {
      hide SortedOk, Ascending, Inserted;
      assert this !in node4.Own() && subKeys !in node4.Own() && nodes !in node4.Own();
      nodeLevel := node4.nodeLevel;
      nodeKey := node4.nodeKey;
      numChildren := node4.numChildren + 1;
      ghost var n, ks, vs := node4.numChildren, node4.subKeys[..], node4.nodes[..];
      SortedKeysOutside(ks, vs, n, node4.kids, Nil, subKey);
      ghost var pos := CopyInserting(node4.subKeys, node4.nodes, node4.numChildren, subKey, newElement);
      kids := node4.kids[subKey := newElement];
      SortedAbsent(ks, vs, n, node4.kids, Nil, pos, subKey);
      SortedInsert(ks, vs, n, node4.kids, Nil, pos, subKey, newElement, subKeys[..], nodes[..]);
    }

    method CopyInserting(keys4: array<int>, nodes4: array<Slot<V>>, n: nat, subKey: int, newElement: Slot<V>)
      returns (ghost pos: nat)
      requires keys4 != subKeys && nodes4 != nodes && keys4 as object != nodes && nodes4 as object != subKeys
      requires n <= keys4.Length == nodes4.Length < subKeys.Length == nodes.Length
      requires forall i | 0 <= i < n :: keys4[i] != subKey
      modifies subKeys, nodes
      ensures Inserted(keys4[..], pos, n, subKey, subKeys[..]) && Inserted(nodes4[..], pos, n, newElement, nodes[..])
      ensures (forall i | 0 <= i < pos :: keys4[i] < subKey) && (pos < n ==> subKey < keys4[pos])
      ensures forall i | n < i < nodes.Length :: nodes[i] == old(nodes[i])
    {
      pos := n;
      var inserted := 0;
      for i := 0 to n
        invariant inserted == 0 || inserted == 1
        invariant if inserted == 0 then pos == n else pos < i
        invariant forall j | 0 <= j < i && j < pos :: keys4[j] < subKey
        invariant pos < n ==> subKey < keys4[pos]
        invariant forall j {:trigger subKeys[j]} | 0 <= j < i && j < pos :: subKeys[j] == keys4[j]
        invariant forall j {:trigger nodes[j]} | 0 <= j < i && j < pos :: nodes[j] == nodes4[j]
        invariant pos < n ==> subKeys[pos] == subKey && nodes[pos] == newElement
        invariant forall j {:trigger subKeys[j]} | pos < j <= i :: subKeys[j] == keys4[j - 1]
        invariant forall j {:trigger nodes[j]} | pos < j <= i :: nodes[j] == nodes4[j - 1]
        invariant forall j | n < j < nodes.Length :: nodes[j] == old(nodes[j])
      {
        if inserted == 0 && keys4[i] > subKey {
          subKeys[i] := subKey;
          nodes[i] := newElement;
          inserted := 1;
          pos := i;
        }
        subKeys[i + inserted] := keys4[i];
        nodes[i + inserted] := nodes4[i];
      }
      if inserted == 0 {
        subKeys[n] := subKey;
        nodes[n] := newElement;
      }
    }

    /** ArtNode4::InitFromNode16: the same children in the smaller arrays. */
    method InitFromNode16(node16: ArtNode<V>)
      requires Arrays() && kind == N4 && (forall i | 0 <= i < nodes.Length :: nodes[i] == Nil)
      requires node16.kind == N16 && node16.Shape() && Own() !! node16.Own() && node16.numChildren <= 4
      modifies this, subKeys, nodes
      ensures Shape() && kids == node16.kids
      ensures nodeLevel == node16.nodeLevel && nodeKey == node16.nodeKey && numChildren == node16.numChildren
    {
      hide SortedOk;
      assert this !in node16.Own() && subKeys !in node16.Own() && nodes !in node16.Own();
      ghost var ks, vs := node16.subKeys[..], node16.nodes[..];
      numChildren := node16.numChildren;
      forall i | 0 <= i < numChildren { subKeys[i] := node16.subKeys[i]; }
      forall i | 0 <= i < numChildren { nodes[i] := node16.nodes[i]; }
      nodeLevel := node16.nodeLevel;
      nodeKey := node16.nodeKey;
      kids := node16.kids;
      SortedCopy(ks, vs, numChildren, kids, Nil, subKeys[..], nodes[..]);
    }

    /** ArtNode48::InitFromNode16: the source's children and one more behind an index array. */
    method GrowFromNode16(node16: ArtNode<V>, subKey: int, newElement: Slot<V>)
      requires Arrays() && kind == N48 && (forall i | 0 <= i < nodes.Length :: nodes[i] == Nil)
      requires forall i | 0 <= i < indexes.Length :: indexes[i] == -1
      requires node16.kind == N16 && node16.Shape() && Own() !! node16.Own()
      requires 0 <= subKey < 256 && subKey !in node16.kids && newElement != Nil
      modifies this, indexes, nodes
      ensures Shape() && kids == node16.kids[subKey := newElement]
      ensures nodeLevel == node16.nodeLevel && nodeKey == node16.nodeKey && numChildren == node16.numChildren + 1
    {
      hide Shape, SortedOk, IndexedOk, Bytes, Ascending, IndexCopy, Ones, OwnerOf;
      assert this !in node16.Own() && indexes !in node16.Own() && nodes !in node16.Own();
      node16.ShapeIs();
      var n := node16.numChildren;
      numChildren := n + 1;
      nodeLevel := node16.nodeLevel;
      nodeKey := node16.nodeKey;
      ghost var ks, vs := node16.subKeys[..], node16.nodes[..];
      SortedKeysOutside(ks, vs, n, node16.kids, Nil, subKey);
      freeBitMask := Ones(n + 1);
      owner := OwnerOf(ks, n, subKey);
      kids := node16.kids[subKey := newElement];
      CopyIndexing(node16.subKeys, node16.nodes, n, subKey, newElement);
      IndexedFromSorted(ks, vs, n, node16.kids, Nil, subKey, newElement, indexes[..], nodes[..], owner);
      IsShape();
    }

    method CopyIndexing(keys16: array<int>, nodes16: array<Slot<V>>, n: nat, subKey: int, newElement: Slot<V>)
      requires keys16 != indexes && nodes16 != nodes && keys16 as object != nodes && nodes16 as object != indexes
      requires n <= keys16.Length == nodes16.Length <= 16 && indexes.Length == 256 && nodes.Length == 48
      requires (forall i | 0 <= i < n :: 0 <= keys16[i] < 256 && keys16[i] != subKey) && 0 <= subKey < 256
      requires Ascending(keys16[..], n)
      requires (forall i | 0 <= i < 48 :: nodes[i] == Nil) && forall i | 0 <= i < 256 :: indexes[i] == -1
      modifies indexes, nodes
      ensures IndexCopy(keys16[..], nodes16[..], n, subKey, newElement, Nil, indexes[..], nodes[..])
    {
      for i := 0 to n
        invariant forall c | 0 <= c < 256 :: indexes[c] == -1 || (0 <= indexes[c] < i && keys16[indexes[c]] == c)
        invariant forall j | 0 <= j < i :: indexes[keys16[j]] == j
        invariant forall j | 0 <= j < i :: nodes[j] == nodes16[j]
        invariant forall j | i <= j < 48 :: nodes[j] == Nil
      {
        assert forall j | 0 <= j < i :: keys16[..][j] < keys16[..][i];
        indexes[keys16[i]] := i;
        nodes[i] := nodes16[i];
      }
      indexes[subKey] := n;
      nodes[n] := newElement;
    }

    /** ArtNode256::InitFromNode48: a slot per byte, and one more child. */
    method GrowFromNode48(node48: ArtNode<V>, subKey: int, newElement: Slot<V>)
      requires Arrays() && kind == N256 && (forall i | 0 <= i < nodes.Length :: nodes[i] == Nil)
      requires node48.kind == N48 && node48.Shape() && Own() !! node48.Own()
      requires 0 <= subKey < 256 && subKey !in node48.kids && newElement != Nil
      modifies this, nodes
      ensures Shape() && kids == node48.kids[subKey := newElement]
      ensures nodeLevel == node48.nodeLevel && nodeKey == node48.nodeKey && numChildren == node48.numChildren + 1
    {
      hide IndexedOk, DirectOk;
      assert this !in node48.Own() && nodes !in node48.Own();
      nodeLevel := node48.nodeLevel;
      nodeKey := node48.nodeKey;
      numChildren := node48.numChildren + 1;
      kids := node48.kids[subKey := newElement];
      IndexesInRange(node48.indexes[..], node48.nodes[..], node48.freeBitMask, node48.numChildren, node48.kids,
                     node48.owner, Nil);
      SpreadOut(node48.indexes, node48.nodes);
      nodes[subKey] := newElement;
      DirectFromIndexed(node48.indexes[..], node48.nodes[..], node48.freeBitMask, node48.numChildren, node48.kids,
                        node48.owner, Nil,
                        subKey, newElement, nodes[..]);
    }

    method SpreadOut(indexes48: array<int>, nodes48: array<Slot<V>>)
      requires indexes48.Length == 256 == nodes.Length && nodes48.Length == 48 && nodes48 != nodes
               && indexes48 as object != nodes
      requires (forall c | 0 <= c < 256 :: indexes48[c] != -1 ==> 0 <= indexes48[c] < 48)
               && forall i | 0 <= i < 256 :: nodes[i] == Nil
      modifies nodes
      ensures forall c | 0 <= c < 256 :: nodes[c] == if indexes48[c] != -1 then nodes48[indexes48[c]] else Nil
    {
      for i := 0 to 256
        invariant forall c | 0 <= c < i && indexes48[c] != -1 :: nodes[c] == nodes48[indexes48[c]]
        invariant forall c | 0 <= c < 256 && (i <= c || indexes48[c] == -1) :: nodes[c] == Nil
      {
        if indexes48[i] != -1 {
          nodes[i] := nodes48[indexes48[i]];
        }
      }
    }

    /** ArtNode16::InitFromNode48: a scan over the bytes collects the children in order. */
    method ShrinkFromNode48(node48: ArtNode<V>)
      requires Arrays() && kind == N16 && (forall i | 0 <= i < nodes.Length :: nodes[i] == Nil)
      requires node48.kind == N48 && node48.Shape() && Own() !! node48.Own() && node48.numChildren <= 16
      modifies this, subKeys, nodes
      ensures Shape() && kids == node48.kids
      ensures nodeLevel == node48.nodeLevel && nodeKey == node48.nodeKey && numChildren == node48.numChildren
    {
      hide IndexedOk, SortedOk, ScanSorted, Bytes;
      assert this !in node48.Own() && subKeys !in node48.Own() && nodes !in node48.Own();
      numChildren := node48.numChildren;
      nodeLevel := node48.nodeLevel;
      nodeKey := node48.nodeKey;
      kids := node48.kids;
      IndexesInRange(node48.indexes[..], node48.nodes[..], node48.freeBitMask, node48.numChildren, node48.kids,
                     node48.owner, Nil);
      CollectSorted(node48);
    }

    method CollectSorted(node48: ArtNode<V>)
      requires Arrays() && kind == N16 && (forall i | 0 <= i < nodes.Length :: nodes[i] == Nil)
      requires node48.kind == N48 && node48.Arrays() && Own() !! node48.Own()
      requires numChildren == |kids| <= 16 && Bytes(kids, Nil)
      requires forall c | 0 <= c < 256 :: c in kids <==> node48.indexes[c] != -1
      requires forall c: int <- kids ::
                 0 <= c < 256 && 0 <= node48.indexes[c] < 48 && node48.nodes[node48.indexes[c]] == kids[c]
      modifies subKeys, nodes
      ensures SortedOk(subKeys[..], nodes[..], numChildren, kids, Nil)
    {
      hide ScanSorted, SortedOk, Bytes;
      assert subKeys !in node48.Own() && nodes !in node48.Own();
      var idx, i := 0, 0;
      ghost var seen := {};
      ScanSortedStart(subKeys[..], nodes[..], kids, Nil);
      while i < 256 && idx < numChildren
        invariant 0 <= i <= 256 && idx <= numChildren
        invariant ScanSorted(subKeys[..], nodes[..], idx, i, kids, Nil, seen)
      {
        if node48.indexes[i] != -1 {
          ghost var ks, vs := subKeys[..], nodes[..];
          ScanSortedStep(ks, vs, idx, i, kids, Nil, seen);
          subKeys[idx] := i;
          nodes[idx] := node48.nodes[node48.indexes[i]];
          assert subKeys[..] == ks[idx := i] && nodes[..] == vs[idx := kids[i]];
          seen := seen + {i};
          idx := idx + 1;
        } else {
          ScanSortedSkip(subKeys[..], nodes[..], idx, i, kids, Nil, seen);
        }
        i := i + 1;
      }
      ScanSortedDone(subKeys[..], nodes[..], idx, i, kids, Nil, seen);
    }

    /** ArtNode48::InitFromNode256: the same scan fills an index array. */
    method ShrinkFromNode256(node256: ArtNode<V>)
      requires Arrays() && kind == N48 && (forall i | 0 <= i < nodes.Length :: nodes[i] == Nil)
      requires forall i | 0 <= i < indexes.Length :: indexes[i] == -1
      requires node256.kind == N256 && node256.Shape() && Own() !! node256.Own() && node256.numChildren <= 48
      modifies this, indexes, nodes
      ensures Shape() && kids == node256.kids
      ensures nodeLevel == node256.nodeLevel && nodeKey == node256.nodeKey && numChildren == node256.numChildren
    {
      hide DirectOk, IndexedOk, ScanIndexed, Bytes;
      assert this !in node256.Own() && indexes !in node256.Own() && nodes !in node256.Own();
      numChildren := node256.numChildren;
      nodeLevel := node256.nodeLevel;
      nodeKey := node256.nodeKey;
      kids := node256.kids;
      DirectFacts(node256.nodes[..], node256.numChildren, kids, Nil);
      CollectIndexed(node256);
      freeBitMask := Ones(numChildren);
    }

    method CollectIndexed(node256: ArtNode<V>)
      requires Arrays() && kind == N48 && (forall i | 0 <= i < nodes.Length :: nodes[i] == Nil)
      requires forall i | 0 <= i < indexes.Length :: indexes[i] == -1
      requires node256.kind == N256 && node256.Arrays() && Own() !! node256.Own()
      requires numChildren == |kids| <= 48 && Bytes(kids, Nil)
      requires forall c | 0 <= c < 256 ::
                 (c in kids <==> node256.nodes[c] != Nil) && (c in kids ==> kids[c] == node256.nodes[c])
      modifies this`owner, indexes, nodes
      ensures IndexedOk(indexes[..], nodes[..], Ones(numChildren), numChildren, kids, owner, Nil)
    {
      hide ScanIndexed, IndexedOk, Bytes;
      assert this !in node256.Own() && indexes !in node256.Own() && nodes !in node256.Own();
      var idx, i := 0, 0;
      owner := map[];
      ghost var seen := {};
      ScanIndexedStart(indexes[..], nodes[..], kids, Nil);
      while i < 256 && idx < numChildren
        invariant 0 <= i <= 256 && idx <= numChildren
        invariant ScanIndexed(indexes[..], nodes[..], owner, idx, i, kids, Nil, seen)
      {
        if node256.nodes[i] != Nil {
          ghost var ix, vs := indexes[..], nodes[..];
          ScanIndexedStep(ix, vs, owner, idx, i, kids, Nil, seen);
          indexes[i] := idx;
          nodes[idx] := node256.nodes[i];
          assert indexes[..] == ix[i := idx] && nodes[..] == vs[idx := kids[i]];
          owner := owner[idx := i];
          seen := seen + {i};
          idx := idx + 1;
        } else {
          ScanIndexedSkip(indexes[..], nodes[..], owner, idx, i, kids, Nil, seen);
        }
        i := i + 1;
      }
      ScanIndexedDone(indexes[..], nodes[..], owner, idx, i, kids, Nil, seen);
    }

    /** The node's own arrays store exactly the children in `kids`. */
    ghost predicate Shape()
      reads `numChildren, `freeBitMask, `kids, `owner, subKeys, indexes, nodes
    {
      && Arrays()
      && numChildren <= Capacity(kind)
      && match kind
         case N48 => IndexedOk(indexes[..], nodes[..], freeBitMask, numChildren, kids, owner, Nil)
         case N256 => DirectOk(nodes[..], numChildren, kids, Nil)
         case _ => SortedOk(subKeys[..], nodes[..], numChildren, kids, Nil)
    }

    lemma ShapeIs()
      requires Shape()
      ensures Arrays() && numChildren <= Capacity(kind) && numChildren == |kids|
      ensures kind == N4 || kind == N16 ==> SortedOk(subKeys[..], nodes[..], numChildren, kids, Nil)
      ensures kind == N48 ==> IndexedOk(indexes[..], nodes[..], freeBitMask, numChildren, kids, owner, Nil)
      ensures kind == N256 ==> DirectOk(nodes[..], numChildren, kids, Nil)
    {
    }

    lemma IsShape()
      requires Arrays() && numChildren <= Capacity(kind)
      requires kind == N4 || kind == N16 ==> SortedOk(subKeys[..], nodes[..], numChildren, kids, Nil)
      requires kind == N48 ==> IndexedOk(indexes[..], nodes[..], freeBitMask, numChildren, kids, owner, Nil)
      requires kind == N256 ==> DirectOk(nodes[..], numChildren, kids, Nil)
      ensures Shape()
    {
    }

    ghost predicate Arrays() {
      && subKeys != indexes
      && nodes.Length == Capacity(kind)
      && subKeys.Length == (if kind == N4 || kind == N16 then Capacity(kind) else 0)
      && indexes.Length == (if kind == N48 then 256 else 0)
    }

    /** Where sub key b is stored, or where it would be inserted. */
    ghost predicate Located(b: int, found: bool, pos: nat)
      requires Shape()
      reads `numChildren, `freeBitMask, `kids, `owner, subKeys, indexes, nodes
    {
      && (found <==> b in kids)
      && match kind
         case N48 => found ==> 0 <= b < 256 && pos == indexes[b]
         case N256 => pos == b
         case _ =>
           && pos <= numChildren
           && (forall i | 0 <= i < pos :: subKeys[i] < b)
           && (if found then pos < numChildren && subKeys[pos] == b
               else forall i | pos <= i < numChildren :: b < subKeys[i])
    }

    method FindSlot(b: nat) returns (found: bool, pos: nat)
      requires Shape() && b < 256
      ensures Located(b, found, pos) && (found <==> b in kids)
      ensures found ==> pos < nodes.Length && nodes[pos] == kids[b]
    {
      match kind {
        case N48 =>
          found := indexes[b] != -1;
          pos := if found then indexes[b] else 0;
        case N256 =>
          found := nodes[b] != Nil;
          pos := b;
        case _ =>
          found, pos := FindSorted(b);
      }
    }

    method FindSorted(b: nat) returns (found: bool, pos: nat)
      requires Shape() && b < 256 && (kind == N4 || kind == N16)
      ensures Located(b, found, pos) && (found <==> b in kids)
      ensures found ==> pos < nodes.Length && nodes[pos] == kids[b]
    {
      pos := 0;
      while pos < numChildren
        invariant pos <= numChildren
        invariant forall i | 0 <= i < pos :: subKeys[i] < b
      {
        if subKeys[pos] == b { return true, pos; }
        if b < subKeys[pos] { break; }
        pos := pos + 1;
      }
      found := false;
      SortedAbsent(subKeys[..], nodes[..], numChildren, kids, Nil, pos, b);
    }

    /** nodes_[pos] = slot, at an occupied position. */
    method SetNode(b: int, pos: nat, slot: Slot<V>)
      requires Shape() && b in kids && Located(b, true, pos) && slot != Nil
      modifies this`kids, nodes
      ensures Shape() && kids == old(kids)[b := slot]
    {
      hide SortedOk, IndexedOk, DirectOk, Shape, Located;
      ShapeIs();
      ghost var slots, n := nodes[..], numChildren;
      LocatedAt(b, pos);
      nodes[pos] := slot;
      assert nodes[..] == slots[pos := slot];
      match kind {
        case N48 => IndexedReplace(indexes[..], slots, freeBitMask, n, kids, owner, Nil, b, slot);
        case N256 => DirectInsert(slots, n, kids, Nil, b, slot);
        case _ => SortedReplace(subKeys[..], slots, n, kids, Nil, pos, slot);
      }
      kids := kids[b := slot];
      IsShape();
    }

    lemma LocatedAt(b: int, pos: nat)
      requires Shape() && b in kids && Located(b, true, pos)
      ensures 0 < numChildren && 0 <= b < 256 && pos < nodes.Length
      ensures match kind
              case N48 => indexes[b] == pos
              case N256 => pos == b
              case _ => pos < numChildren && subKeys[pos] == b
    {
    }

    lemma ShapeAt(b: int, pos: nat)
      requires Shape() && b in kids && Located(b, true, pos)
      ensures pos < nodes.Length && nodes[pos] == kids[b]
    {
    }

    lemma LocatedFree(b: int, pos: nat)
      requires Shape() && Located(b, false, pos)
      ensures b !in kids
      ensures kind == N4 || kind == N16 ==> Between(b, pos)
    {
    }

    ghost predicate Between(b: int, pos: nat)
      requires Arrays() && (kind == N4 || kind == N16) && numChildren <= Capacity(kind)
      reads `numChildren, subKeys
    {
      && pos <= numChildren
      && (forall i | 0 <= i < pos :: subKeys[i] < b)
      && (forall i | pos <= i < numChildren :: b < subKeys[i])
    }

    /** Adds a sub key to a node with room left. */
    method InsertSlot(b: int, pos: nat, slot: Slot<V>)
      requires Shape() && 0 <= b < 256 && Located(b, false, pos) && slot != Nil
      requires numChildren < Capacity(kind)
      modifies this`kids, this`numChildren, this`freeBitMask, this`owner, nodes, subKeys, indexes
      ensures Shape() && kids == old(kids)[b := slot] && numChildren == old(numChildren) + 1
    {
      hide SortedOk, IndexedOk, DirectOk, Shape, Located, Between;
      ShapeIs();
      LocatedFree(b, pos);
      match kind {
        case N48 => InsertIndexed(b, slot);
        case N256 => InsertDirect(b, slot);
        case _ => InsertSorted(b, pos, slot);
      }
      IsShape();
    }

    method InsertSorted(b: int, pos: nat, slot: Slot<V>)
      requires Arrays() && (kind == N4 || kind == N16) && numChildren < Capacity(kind)
      requires SortedOk(subKeys[..], nodes[..], numChildren, kids, Nil)
      requires 0 <= b < 256 && b !in kids && Between(b, pos) && slot != Nil
      modifies this`kids, this`numChildren, nodes, subKeys
      ensures SortedOk(subKeys[..], nodes[..], numChildren, kids, Nil)
      ensures numChildren == old(numChildren) + 1 && kids == old(kids)[b := slot]
    {
      hide SortedOk, Inserted;
      ghost var keys, slots, n, kids0 := subKeys[..], nodes[..], numChildren, kids;
      kids := kids[b := slot];
      SortedKeysOutside(keys, slots, n, kids0, Nil, b);
      InsertElementAtPos(pos, b, slot);
      SortedInsert(keys, slots, n, kids0, Nil, pos, b, slot, subKeys[..], nodes[..]);
    }

    method InsertElementAtPos(pos: nat, b: int, slot: Slot<V>)
      requires Arrays() && (kind == N4 || kind == N16) && pos <= numChildren < Capacity(kind)
      modifies this`numChildren, nodes, subKeys
      ensures numChildren == old(numChildren) + 1
      ensures Inserted(old(subKeys[..]), pos, old(numChildren), b, subKeys[..])
      ensures Inserted(old(nodes[..]), pos, old(numChildren), slot, nodes[..])
      ensures forall i | numChildren <= i < nodes.Length :: nodes[i] == old(nodes[i])
    {
      forall i | pos < i <= numChildren { subKeys[i] := subKeys[i - 1]; }
      forall i | pos < i <= numChildren { nodes[i] := nodes[i - 1]; }
      subKeys[pos] := b;
      nodes[pos] := slot;
      numChildren := numChildren + 1;
    }

    method InsertIndexed(b: int, slot: Slot<V>)
      requires Arrays() && kind == N48 && numChildren < 48
      requires IndexedOk(indexes[..], nodes[..], freeBitMask, numChildren, kids, owner, Nil)
      requires 0 <= b < 256 && b !in kids && slot != Nil
      modifies this`kids, this`numChildren, this`freeBitMask, this`owner, nodes, indexes
      ensures IndexedOk(indexes[..], nodes[..], freeBitMask, numChildren, kids, owner, Nil)
      ensures numChildren == old(numChildren) + 1 && kids == old(kids)[b := slot]
    {
      hide IndexedOk, LowestClear, Or;
      ghost var idx, slots := indexes[..], nodes[..];
      IndexedInsert(idx, slots, freeBitMask, numChildren, kids, owner, Nil, b, slot);
      var freePos := LowestClear(freeBitMask);
      indexes[b] := freePos;
      nodes[freePos] := slot;
      numChildren := numChildren + 1;
      freeBitMask := Or(freeBitMask, freePos);
      kids := kids[b := slot];
      owner := owner[freePos := b];
      assert indexes[..] == idx[b := freePos] && nodes[..] == slots[freePos := slot];
    }

    method InsertDirect(b: int, slot: Slot<V>)
      requires Arrays() && kind == N256 && DirectOk(nodes[..], numChildren, kids, Nil)
      requires 0 <= b < 256 && b !in kids && slot != Nil
      modifies this`kids, this`numChildren, nodes
      ensures DirectOk(nodes[..], numChildren, kids, Nil)
      ensures numChildren == old(numChildren) + 1 && kids == old(kids)[b := slot]
    {
      hide DirectOk;
      ghost var slots := nodes[..];
      DirectInsert(slots, numChildren, kids, Nil, b, slot);
      nodes[b] := slot;
      numChildren := numChildren + 1;
      kids := kids[b := slot];
      assert nodes[..] == slots[b := slot];
    }

    /** Drops the sub key at an occupied position. */
    method RemoveSlot(b: int, pos: nat)
      requires Shape() && b in kids && Located(b, true, pos)
      modifies this`kids, this`numChildren, this`freeBitMask, this`owner, nodes, subKeys, indexes
      ensures Shape() && kids == old(kids) - {b} && numChildren == old(numChildren) - 1
    {
      hide SortedOk, IndexedOk, DirectOk, Shape, Located;
      ShapeIs();
      LocatedAt(b, pos);
      match kind {
        case N48 => RemoveIndexed(b, pos);
        case N256 => RemoveDirect(b);
        case _ => RemoveSorted(b, pos);
      }
      IsShape();
    }

    method RemoveSorted(b: int, pos: nat)
      requires Arrays() && (kind == N4 || kind == N16) && pos < numChildren <= Capacity(kind) && subKeys[pos] == b
      requires SortedOk(subKeys[..], nodes[..], numChildren, kids, Nil)
      modifies this`kids, this`numChildren, nodes, subKeys
      ensures SortedOk(subKeys[..], nodes[..], numChildren, kids, Nil)
      ensures numChildren == old(numChildren) - 1 && kids == old(kids) - {b}
    {
      hide SortedOk, Deleted;
      ghost var keys, slots, n, kids0 := subKeys[..], nodes[..], numChildren, kids;
      kids := kids - {b};
      SortedTail(keys, slots, n, kids0, Nil);
      RemoveElementAtPos(pos);
      SortedDelete(keys, slots, n, kids0, Nil, pos, subKeys[..], nodes[..]);
    }

    method RemoveIndexed(b: int, pos: nat)
      requires Arrays() && kind == N48 && 0 <= b < 256 && b in kids && indexes[b] == pos < 48 && 0 < numChildren
      requires IndexedOk(indexes[..], nodes[..], freeBitMask, numChildren, kids, owner, Nil)
      modifies this`kids, this`numChildren, this`freeBitMask, this`owner, nodes, indexes
      ensures IndexedOk(indexes[..], nodes[..], freeBitMask, numChildren, kids, owner, Nil)
      ensures numChildren == old(numChildren) - 1 && kids == old(kids) - {b}
    {
      hide IndexedOk, AndNot;
      ghost var idx, slots := indexes[..], nodes[..];
      IndexedDelete(idx, slots, freeBitMask, numChildren, kids, owner, Nil, b);
      indexes[b] := -1;
      nodes[pos] := Nil;
      numChildren := numChildren - 1;
      freeBitMask := AndNot(freeBitMask, pos);
      owner := owner - {pos};
      kids := kids - {b};
      assert indexes[..] == idx[b := -1] && nodes[..] == slots[pos := Nil];
    }

    method RemoveDirect(b: int)
      requires Arrays() && kind == N256 && 0 <= b < 256 && b in kids && 0 < numChildren
      requires DirectOk(nodes[..], numChildren, kids, Nil)
      modifies this`kids, this`numChildren, nodes
      ensures DirectOk(nodes[..], numChildren, kids, Nil)
      ensures numChildren == old(numChildren) - 1 && kids == old(kids) - {b}
    {
      hide DirectOk;
      ghost var slots := nodes[..];
      DirectDelete(slots, numChildren, kids, Nil, b);
      nodes[b] := Nil;
      numChildren := numChildren - 1;
      kids := kids - {b};
      assert nodes[..] == slots[b := Nil];
    }

    method RemoveElementAtPos(pos: nat)
      requires Arrays() && (kind == N4 || kind == N16) && pos < numChildren <= Capacity(kind)
      modifies this`numChildren, nodes, subKeys
      ensures numChildren == old(numChildren) - 1
      ensures Deleted(old(subKeys[..]), pos, old(numChildren), subKeys[..])
      ensures Deleted(old(nodes[..]), pos, old(numChildren), nodes[..])
      ensures nodes[numChildren] == Nil && forall i | numChildren < i < nodes.Length :: nodes[i] == old(nodes[i])
    {
      forall i | pos <= i < numChildren - 1 { subKeys[i] := subKeys[i + 1]; }
      forall i | pos <= i < numChildren - 1 { nodes[i] := nodes[i + 1]; }
      numChildren := numChildren - 1;
      nodes[numChildren] := Nil;
    }

    // ----- The subtree -----

    ghost function Own(): set<object> {
      {this, subKeys, indexes, nodes}
    }

    /** The bytes above this node's level that all its keys share. */
    ghost function Prefix(): nat
      reads `nodeKey, `nodeLevel
    {
      Shr(nodeKey, nodeLevel + 1)
    }

    ghost predicate Valid()
      reads this, Repr
      ensures Valid() ==> Own() <= Repr && Shape()
      decreases Repr, 3
    {
      Parts()
    }

    ghost predicate Parts()
      reads this, Repr
      decreases Repr, 2
    {
      && Own() <= Repr && Shape() && Sized() && ChildrenOk() && m != map[]
      && Splits(m, Subs(), Prefix(), nodeLevel)
    }

    ghost predicate Sized()
      reads `numChildren, `nodeLevel
    {
      Fewest(kind) <= numChildren && (nodeLevel > 0 ==> 2 <= numChildren) && nodeLevel <= TOP
    }

    ghost predicate ChildrenOk()
      requires Own() <= Repr
      reads this, Repr
      decreases Repr, 0
    {
      && (forall b: int <- kids :: ChildKind(b))
      && (nodeLevel > 0 ==> forall b: int <- kids :: kids[b].n.Valid())
      && (nodeLevel > 0 ==> forall b, c | b in kids && c in kids && b != c :: kids[b].n.Repr !! kids[c].n.Repr)
    }

    lemma ValidIs()
      requires Valid()
      ensures Parts()
    {
    }

    lemma IsValid()
      requires Parts()
      ensures Valid()
    {
    }

    lemma SubsIs(sub: map<int, map<int, V>>)
      requires Own() <= Repr && ChildrenOk()
      requires sub.Keys == kids.Keys && forall b: int <- kids :: sub[b] == Held(b)
      ensures Subs() == sub
    {
    }

    /** All keys of a node share the bytes above its level. */
    lemma KeysShare(level: nat)
      requires Valid() && nodeLevel < level
      ensures m != map[] && forall k: int <- m :: k >= 0 && Shr(k, level) == Shr(nodeKey, level)
    {
      hide Shape;
      forall k: int <- m ensures k >= 0 && Shr(k, level) == Shr(nodeKey, level) {
        ShrAgree(k, nodeKey, nodeLevel + 1, level);
      }
    }

    ghost predicate ChildKind(b: int)
      requires Own() <= Repr && b in kids
      reads this, Repr
    {
      if nodeLevel == 0 then kids[b].Val? else kids[b].Sub? && IsChild(kids[b].n, b)
    }

    ghost predicate IsChild(n: ArtNode<V>, b: int)
      requires Own() <= Repr
      reads this, Repr
    {
      && n in Repr && n.Repr <= Repr - Own()
      && n.nodeLevel < nodeLevel && Shr(n.nodeKey, nodeLevel) == 256 * Prefix() + b
    }

    /** What each child holds. */
    ghost function Subs(): map<int, map<int, V>>
      requires Own() <= Repr && ChildrenOk()
      reads this, Repr
      decreases Repr, 1
    {
      map b | b in kids :: Held(b)
    }

    ghost function Held(b: int): map<int, V>
      requires Own() <= Repr && b in kids && ChildKind(b)
      reads this, Repr
    {
      if nodeLevel == 0 then map[256 * Prefix() + b := kids[b].v] else kids[b].n.m
    }

    method GetValue(key: nat, level: nat) returns (v: Option<V>)
      requires Valid() && key <= MAX_KEY && nodeLevel <= level <= TOP
      requires Shr(key, level + 1) == Shr(nodeKey, level + 1)
      ensures v == if key in m then Some(m[key]) else None
      decreases nodeLevel
    {
      hide Shape, Located, Splits;
      if level != nodeLevel && Shr(key, nodeLevel + 1) != Shr(nodeKey, nodeLevel + 1) {
        SplitsAbsent(m, Subs(), Prefix(), nodeLevel, key);
        return None;
      }
      var found, pos := FindSlot(Digit(key, nodeLevel));
      if !found {
        SplitsAbsent(m, Subs(), Prefix(), nodeLevel, key);
        return None;
      }
      SplitsLookup(m, Subs(), Prefix(), nodeLevel, key);
      assert ChildKind(Digit(key, nodeLevel));
      if nodeLevel == 0 {
        v := Some(nodes[pos].v);
      } else {
        v := nodes[pos].n.GetValue(key, nodeLevel - 1);
      }
    }

    /** A two-child node above this one when the key leaves this node's shared bytes, otherwise null. */
    method BranchIfRequired(key: nat, value: V, ghost level: nat) returns (branch: ArtNode?<V>)
      requires Valid() && key <= MAX_KEY && nodeLevel <= level <= TOP
      requires Shr(key, level + 1) == Shr(nodeKey, level + 1)
      ensures branch == null <==> Shr(key, nodeLevel + 1) == Shr(nodeKey, nodeLevel + 1)
      ensures branch != null ==>
                && branch.Valid() && branch.m == m[key as int := value] && fresh(branch.Repr - Repr)
                && branch.nodeLevel <= level && Shr(branch.nodeKey, level + 1) == Shr(key, level + 1)
    {
      hide Valid, Shape, Shr, Digit, TopDiff;
      if Shr(key, nodeLevel) == Shr(nodeKey, nodeLevel) {
        ShrAgree(key, nodeKey, nodeLevel, nodeLevel + 1);
        return null;
      }
      BranchLevel(key, nodeKey, nodeLevel, level);
      var newLevel := TopDiff(key, nodeKey);
      if newLevel == nodeLevel {
        return null;
      }
      var newSubNode := new ArtNode<V>.Empty(N4);
      newSubNode.InitFirstKey(key, value);
      var newNode := new ArtNode<V>.Empty(N4);
      newNode.InitTwoKeys(nodeKey, this, key, newSubNode, newLevel);
      ShrAgree(newNode.nodeKey, key, newLevel + 1, level + 1);
      return newNode;
    }

    // ----- Put -----

    /** Objects of the subtree that belong neither to this node nor to the child of byte b. */
    ghost function Rest(b: int): set<object>
      requires Own() <= Repr && ChildrenOk() && 0 < nodeLevel
      reads this, Repr
    {
      Repr - Own() - (if b in kids then kids[b].n.Repr else {})
    }

    /** One child replaced or added, the others untouched: all children are fine and only that child's part changed. */
    twostate lemma OneChildNew(b: int, new sub: ArtNode<V>)
      requires old(Own() <= Repr && ChildrenOk()) && 0 < nodeLevel == old(nodeLevel) && nodeKey == old(nodeKey)
      requires kids == old(kids)[b := Sub(sub)] && old(Repr) <= Repr
      requires unchanged(old(Rest(b))) && old(Rest(b)) !! sub.Repr
      requires IsChild(sub, b) && sub.Valid()
      ensures ChildrenOk() && Subs() == old(Subs())[b := sub.m]
    {
      hide Shape, Splits, Valid, Shr, Subs;
      forall c: int <- kids | c != b ensures old(kids[c].n.Repr) <= old(Rest(b)) && old(ChildKind(c)) {
        assert c in old(kids) && old(ChildKind(c));
      }
      forall c: int <- kids | c != b ensures ChildKind(c) && kids[c].n.Valid() && Held(c) == old(Held(c)) {
        assert c in old(kids) && old(ChildKind(c));
      }
      assert ChildKind(b);
      assert ChildrenOk();
      OnePartNew(b, sub.m);
    }

    /** The parts follow what the children hold. */
    twostate lemma OnePartNew(new b: int, new part: map<int, V>)
      requires old(Own() <= Repr && ChildrenOk()) && Own() <= Repr && ChildrenOk()
      requires kids.Keys == old(kids).Keys + {b} && Held(b) == part
      requires forall c: int <- kids | c != b :: c in old(kids) && Held(c) == old(Held(c))
      ensures Subs() == old(Subs())[b := part]
    {
      hide Shape, Splits, Valid, Shr, ChildrenOk, Held;
      var s, t := Subs(), old(Subs())[b := part];
      assert forall c: int :: c in s <==> c in t;
      assert s == t;
    }

    /** The node is valid again once its children are and the part of byte b has gained the key. */
    lemma PutValid(m0: map<int, V>, sub0: map<int, map<int, V>>, b: nat, key: nat, value: V)
      requires Own() <= Repr && Shape() && Sized() && ChildrenOk()
      requires b < 256 && Shr(key, nodeLevel) == 256 * Prefix() + b
      requires Splits(m0, sub0, Prefix(), nodeLevel) && m == m0[key as int := value]
      requires Subs() == sub0[b as int := (if b in sub0 then sub0[b] else map[])[key as int := value]]
      ensures Valid()
    {
      hide Shape, Splits, Subs, Shr, ChildrenOk, Valid;
      SplitsPut(m0, sub0, Prefix(), nodeLevel, b, key, value);
      assert key in m;
      IsValid();
    }

    ghost predicate HasSub(b: int)
      requires Own() <= Repr && ChildrenOk()
      reads this, Repr
    {
      b in kids && kids[b].Sub? && kids[b].n in Repr && kids[b].n.Repr <= Repr && b in Subs()
          && Subs()[b] == kids[b].n.m
    }

    lemma RestIs(b: int)
      requires Own() <= Repr && ChildrenOk() && 0 < nodeLevel
      ensures Rest(b) <= Repr && Rest(b) !! Own()
    {
    }

    lemma SubsAt(b: int)
      requires Own() <= Repr && ChildrenOk()
      ensures b in Subs() <==> b in kids
      ensures b in kids ==> ChildKind(b) && Subs()[b] == Held(b)
      ensures b in kids && 0 < nodeLevel ==> HasSub(b) && kids[b].n.Valid()
    {
    }

    /** The sub-node of byte b, now sub, has gained the key and nothing else in the subtree has changed. */
    twostate predicate PutBelowDone(b: int, new key: int, new value: V, new sub: ArtNode<V>, new rest: set<object>)
      requires old(Own() <= Repr && ChildrenOk() && 0 < nodeLevel && HasSub(b))
      requires rest == old(Rest(b))
      reads sub, sub.Repr, rest
    {
      && unchanged(rest) && rest !! sub.Repr && Own() !! sub.Repr
      && sub.Valid() && sub.m == old(kids[b].n.m)[key := value]
      && sub.nodeLevel < old(nodeLevel) && Shr(sub.nodeKey, old(nodeLevel)) == 256 * old(Prefix()) + b
    }

    /** What a put into the sub-node of byte b leaves behind is a valid node. */
    twostate lemma ChildPutDone(new b: int, new key: int, new value: V, new sub: ArtNode<V>)
      requires old(Parts() && 0 < nodeLevel && HasSub(b)) && PutBelowDone(b, key, value, sub, old(Rest(b)))
      requires 0 <= b < 256 && 0 <= key && Shr(key, nodeLevel) == 256 * Prefix() + b
      requires nodeLevel == old(nodeLevel) && nodeKey == old(nodeKey) && numChildren == old(numChildren)
      requires kids == old(kids)[b := Sub(sub)] && Repr == old(Repr) + sub.Repr && m == old(m)[key := value] && Shape()
      ensures Valid()
    {
      hide Shape, Splits, Subs, Shr, ChildrenOk;
      OneChildNew(b, sub);
      PutValid(old(m), old(Subs()), b, key, value);
    }

    /** Descends into the sub-node of byte b, replacing it if it was resized. */
    method PutIntoChild(b: nat, pos: nat, key: nat, value: V)
      requires Valid() && 0 < nodeLevel && key <= MAX_KEY
      requires b < 256 && Shr(key, nodeLevel) == 256 * Prefix() + b && b in kids && Located(b, true, pos)
      modifies Repr
      ensures Valid() && fresh(Repr - old(Repr)) && m == old(m)[key as int := value]
      ensures nodeLevel == old(nodeLevel) && nodeKey == old(nodeKey)
      decreases nodeLevel, 2
    {
      hide Shape, Splits, Subs, Shr, Valid, Located, ChildrenOk, Held, Rest, Own;
      ValidIs();
      SubsAt(b);
      ghost var newSub := PutAndReplace(b, pos, key, value);
      ChildPutDone(b, key, value, newSub);
    }

    method PutAndReplace(b: nat, pos: nat, key: nat, value: V) returns (ghost newSub: ArtNode<V>)
      requires Parts() && 0 < nodeLevel && key <= MAX_KEY && HasSub(b)
      requires b < 256 && Shr(key, nodeLevel) == 256 * Prefix() + b && Located(b, true, pos)
      modifies Repr
      ensures PutBelowDone(b, key, value, newSub, old(Rest(b)))
      ensures nodeLevel == old(nodeLevel) && nodeKey == old(nodeKey) && numChildren == old(numChildren)
      ensures kids == old(kids)[b as int := Sub(newSub)] && Repr == old(Repr) + newSub.Repr
              && m == old(m)[key as int := value]
      ensures Shape() && fresh(Repr - old(Repr))
      decreases nodeLevel, 1
    {
      hide Shape, Splits, Subs, Shr, Valid, Located, ChildrenOk, Held, Rest;
      ShapeAt(b, pos);
      ghost var rest := Rest(b);
      RestIs(b);
      var oldSub := nodes[pos].n;
      var resized;
      resized, newSub := PutBelow(b, pos, oldSub, key, value);
      ReplaceChild(b, pos, oldSub, resized, m[key as int := value]);
      assert newSub.Valid() && unchanged(rest);
    }

    /** nodes_[pos] = resized, unless the call returned null. */
    method ReplaceChild(b: int, pos: nat, oldSub: ArtNode<V>, resized: ArtNode?<V>, ghost contents: map<int, V>)
      requires Shape() && b in kids && Located(b, true, pos) && kids[b] == Sub(oldSub)
      modifies this`kids, this`m, this`Repr, nodes
      ensures Shape() && kids == old(kids)[b := Sub(if resized != null then resized else oldSub)]
      ensures m == contents && Repr == old(Repr) + (if resized != null then resized else oldSub).Repr
    {
      hide Shape, Located;
      ghost var newSub := if resized != null then resized else oldSub;
      Repr := Repr + newSub.Repr;
      m := contents;
      if resized != null {
        SetNode(b, pos, Sub(resized));
      }
    }

    /** The call on the sub-node changes nothing else in this subtree. */
    method PutBelow(ghost b: nat, ghost pos: nat, oldSub: ArtNode<V>, key: nat, value: V)
      returns (resized: ArtNode?<V>, ghost newSub: ArtNode<V>)
      requires Own() <= Repr && ChildrenOk() && 0 < nodeLevel <= TOP && key <= MAX_KEY
      requires HasSub(b) && kids[b] == Sub(oldSub) && Shape() && Located(b, true, pos)
      requires b < 256 && Shr(key, nodeLevel) == 256 * Prefix() + b
      modifies oldSub.Repr
      ensures unchanged(Own()) && Shape() && Located(b, true, pos)
              && newSub == (if resized != null then resized else oldSub)
      ensures PutBelowDone(b, key, value, newSub, old(Rest(b))) && fresh(newSub.Repr - old(oldSub.Repr))
      ensures Own() !! newSub.Repr && Own() !! old(Rest(b)) && newSub in newSub.Repr && old(Rest(b)) !! newSub.Repr
      decreases nodeLevel, 0
    {
      hide Valid, ChildrenOk, Shr, Shape, Located;
      SubsAt(b);
      resized := oldSub.Put(key, nodeLevel - 1, value);
      newSub := if resized != null then resized else oldSub;
    }

    // A value stored at level 0.
    twostate lemma ValuePutDone(new b: int, new key: int, new value: V)
      requires old(Parts()) && nodeLevel == 0 == old(nodeLevel) && nodeKey == old(nodeKey) && Repr == old(Repr)
      requires 0 <= b < 256 && 0 <= key && Shr(key, 0) == 256 * Prefix() + b
      requires kids == old(kids)[b := Val(value)] && m == old(m)[key := value] && Shape() && Sized()
      ensures Valid()
    {
      hide Shape, Splits, Shr, Valid, ChildrenOk, Subs;
      OneValueNew(b, value);
      ShrStep(key, 0);
      ghost var sub0 := old(Subs());
      assert (if b in sub0 then sub0[b] else map[])[key := value] == map[key := value];
      PutValid(old(m), old(Subs()), b, key, value);
    }

    twostate lemma OneValueNew(new b: int, new value: V)
      requires old(Own() <= Repr && ChildrenOk()) && nodeLevel == 0 == old(nodeLevel) && nodeKey == old(nodeKey)
      requires kids == old(kids)[b := Val(value)] && Repr == old(Repr)
      ensures ChildrenOk() && Subs() == old(Subs())[b := map[256 * Prefix() + b := value]]
      ensures forall c: int <- old(Subs()) :: old(ChildKind(c) && Subs()[c] == map[256 * Prefix() + c := kids[c].v])
    {
      hide Shape, Splits, Shr, Valid;
      assert ChildKind(b);
      forall c: int <- kids | c != b ensures ChildKind(c) && Held(c) == old(Held(c)) {
        assert old(ChildKind(c));
      }
    }

    /** A fresh first-key node added under a new byte leaves a valid node. */
    twostate lemma ChildAddDone(new b: int, new key: int, new value: V, new sub: ArtNode<V>)
      requires old(Parts() && 0 < nodeLevel) && b !in old(kids) && unchanged(old(Rest(b))) && old(Rest(b)) !! sub.Repr
      requires sub.Valid() && sub.m == map[key := value] && Own() !! sub.Repr && sub.nodeLevel < nodeLevel
               && sub.nodeKey == key
      requires 0 <= b < 256 && 0 <= key && Shr(key, nodeLevel) == 256 * Prefix() + b
      requires nodeLevel == old(nodeLevel) && nodeKey == old(nodeKey) && Sized()
      requires kids == old(kids)[b := Sub(sub)] && Repr == old(Repr) + sub.Repr && m == old(m)[key := value] && Shape()
      ensures Valid()
    {
      hide Shape, Splits, Subs, Shr, ChildrenOk;
      NoSub(b);
      OneChildNew(b, sub);
      PutValid(old(m), old(Subs()), b, key, value);
    }

    twostate lemma NoSub(new b: int)
      requires old(Own() <= Repr && ChildrenOk()) && b !in old(kids)
      ensures b !in old(Subs())
    {
    }

    /** Adds the key under a byte that has no child yet, to a node with room left. */
    method AddChild(b: nat, pos: nat, key: nat, value: V)
      requires Valid() && key <= MAX_KEY && numChildren < Capacity(kind)
      requires b < 256 && Shr(key, nodeLevel) == 256 * Prefix() + b && b !in kids && Located(b, false, pos)
      modifies Repr
      ensures Valid() && fresh(Repr - old(Repr)) && m == old(m)[key as int := value]
      ensures nodeLevel == old(nodeLevel) && nodeKey == old(nodeKey)
    {
      hide Shape, Splits, Subs, Shr, Valid, Located, ChildrenOk, Rest;
      ValidIs();
      if nodeLevel == 0 {
        InsertSlot(b, pos, Val(value));
        m := m[key as int := value];
        ValuePutDone(b, key, value);
      } else {
        AddSub(b, pos, key, value);
      }
    }

    method AddSub(b: nat, pos: nat, key: nat, value: V)
      requires Parts() && key <= MAX_KEY && numChildren < Capacity(kind) && 0 < nodeLevel
      requires b < 256 && Shr(key, nodeLevel) == 256 * Prefix() + b && b !in kids && Located(b, false, pos)
      modifies Repr
      ensures Valid() && fresh(Repr - old(Repr)) && m == old(m)[key as int := value]
      ensures nodeLevel == old(nodeLevel) && nodeKey == old(nodeKey)
    {
      hide Shape, Splits, Subs, Shr, Valid, Located, ChildrenOk;
      var newSub := new ArtNode<V>.Empty(N4);
      newSub.InitFirstKey(key, value);
      InsertSlot(b, pos, Sub(newSub));
      m := m[key as int := value];
      Repr := Repr + newSub.Repr;
      ChildAddDone(b, key, value, newSub);
    }

    /** The new child handed to a bigger node: a value at level 0, a valid sub-node apart from this subtree above it. */
    ghost predicate NewElement(x: Slot<V>, b: int, key: int, value: V)
      reads this, if x.Sub? then {x.n} + x.n.Repr else {}
    {
      if nodeLevel == 0 then x == Val(value)
      else x.Sub? && x.n.Valid() && x.n.m == map[key := value] && x.n.Repr !! Repr && x.n.nodeLevel < nodeLevel
             && x.n.nodeKey == key
    }

    /** A bigger node that has taken over this node's children and one more. */
    ghost predicate TakesOver(up: ArtNode<V>, b: int, x: Slot<V>)
      reads this, up, if x.Sub? then {x.n} else {}
    {
      && up.nodeLevel == nodeLevel && up.nodeKey == nodeKey && up.kids == kids[b := x]
      && up.Repr == up.Own() + Repr + (if x.Sub? then x.n.Repr else {})
      && up.Own() !! Repr && (x.Sub? ==> up.Own() !! x.n.Repr)
    }

    lemma IsTakenOver(up: ArtNode<V>, b: int, x: Slot<V>)
      requires up.nodeLevel == nodeLevel && up.nodeKey == nodeKey && up.kids == kids[b := x]
      requires up.Repr == up.Own() + (Repr + (if x.Sub? then x.n.Repr else {}))
      requires up.Own() !! Repr && (x.Sub? ==> up.Own() !! x.n.Repr)
      ensures TakesOver(up, b, x)
    {
    }

    lemma ChildrenTakenOver(up: ArtNode<V>, b: int, x: Slot<V>, key: int, value: V)
      requires Own() <= Repr && ChildrenOk() && b !in kids && NewElement(x, b, key, value) && TakesOver(up, b, x)
      requires 0 <= key && Shr(key, nodeLevel) == 256 * Prefix() + b
      ensures up.ChildrenOk() && up.Subs() == Subs()[b := map[key := value]]
    {
      hide Shape, Splits, Valid, Shr;
      NewTakenOver(up, b, x, key, value);
      forall c: int <- kids ensures c in up.kids && up.kids[c] == kids[c] && up.ChildKind(c) && up.Held(c) == Held(c) {
        assert ChildKind(c);
      }
    }

    lemma NewTakenOver(up: ArtNode<V>, b: int, x: Slot<V>, key: int, value: V)
      requires Own() <= Repr && b !in kids && NewElement(x, b, key, value) && TakesOver(up, b, x)
      requires 0 <= key && Shr(key, nodeLevel) == 256 * Prefix() + b
      ensures up.Own() <= up.Repr && b in up.kids && up.kids[b] == x
      ensures up.ChildKind(b) && up.Held(b) == map[key := value]
      ensures 0 < nodeLevel ==> x.n.Valid() && x.n.Repr !! Repr
    {
      hide Shape, Splits, Valid, Shr;
      ShrStep(key, 0);
    }

    lemma GrowDone(up: ArtNode<V>, b: nat, x: Slot<V>, key: nat, value: V)
      requires Parts() && b !in kids && b < 256 && NewElement(x, b, key, value) && TakesOver(up, b, x)
      requires Shr(key, nodeLevel) == 256 * Prefix() + b
      requires up.Shape() && up.Sized() && up.m == m[key as int := value]
      ensures up.Valid()
    {
      hide Shape, Splits, Subs, Shr, ChildrenOk, Valid, NewElement;
      SubsKeys();
      ChildrenTakenOver(up, b, x, key, value);
      up.PutValid(m, Subs(), b, key, value);
    }

    method NewElementFor(ghost b: nat, key: nat, value: V) returns (x: Slot<V>)
      requires Valid() && key <= MAX_KEY
      ensures NewElement(x, b, key, value) && x != Nil
      ensures x.Sub? ==> fresh(x.n.Repr)
    {
      hide Shape, Valid;
      if nodeLevel == 0 {
        x := Val(value);
      } else {
        var newSub := new ArtNode<V>.Empty(N4);
        newSub.InitFirstKey(key, value);
        x := Sub(newSub);
      }
    }

    /** The next bigger kind of node, with one more child. */
    method Grow(b: nat, key: nat, value: V) returns (up: ArtNode<V>)
      requires Valid() && key <= MAX_KEY && numChildren == Capacity(kind) && kind != N256
      requires b < 256 && Shr(key, nodeLevel) == 256 * Prefix() + b && b !in kids
      ensures up.Valid() && fresh(up.Repr - Repr) && up.m == m[key as int := value]
      ensures up.nodeLevel == nodeLevel && up.nodeKey == nodeKey
    {
      hide Shape, Splits, Subs, Shr, Valid, ChildrenOk, NewElement, TakesOver;
      ValidIs();
      var x := NewElementFor(b, key, value);
      up := Bigger(b, x, m[key as int := value], Repr + (if x.Sub? then x.n.Repr else {}));
      IsTakenOver(up, b, x);
      GrowDone(up, b, x, key, value);
    }

    method Bigger(b: nat, x: Slot<V>, ghost contents: map<int, V>, ghost objs: set<object>) returns (up: ArtNode<V>)
      requires Shape() && numChildren == Capacity(kind) && kind != N256 && b < 256 && b !in kids && x != Nil
      requires nodeLevel <= TOP
      ensures up.Shape() && up.kids == kids[b as int := x] && fresh(up.Own()) && up.Sized()
      ensures up.nodeLevel == nodeLevel && up.nodeKey == nodeKey && up.m == contents && up.Repr == up.Own() + objs
    {
      hide Shape;
      if kind == N4 {
        up := new ArtNode<V>.Empty(N16);
        up.InitFromNode4(this, b, x);
      } else if kind == N16 {
        up := new ArtNode<V>.Empty(N48);
        up.GrowFromNode16(this, b, x);
      } else {
        up := new ArtNode<V>.Empty(N256);
        up.GrowFromNode48(this, b, x);
      }
      up.m := contents;
      up.Repr := up.Own() + objs;
    }

    lemma NotFull(b: int)
      requires Valid() && 0 <= b < 256 && b !in kids && kind == N256
      ensures numChildren < Capacity(kind)
    {
      hide Shape, Valid, Splits;
      ValidIs();
      ShapeIs();
      MissingByte(kids.Keys, b);
    }

    method SetValue(b: nat, pos: nat, key: nat, value: V)
      requires Valid() && nodeLevel == 0 && b < 256 && Shr(key, 0) == 256 * Prefix() + b && b in kids
               && Located(b, true, pos)
      modifies Repr
      ensures Valid() && Repr == old(Repr) && m == old(m)[key as int := value]
      ensures nodeLevel == old(nodeLevel) && nodeKey == old(nodeKey)
    {
      hide Shape, Splits, Subs, Shr, Valid, Located, ChildrenOk;
      ValidIs();
      SetNode(b, pos, Val(value));
      m := m[key as int := value];
      ValuePutDone(b, key, value);
    }

    /** Puts a key into the subtree; a non-null result is the node that takes this one's place. */
    method Put(key: nat, level: nat, value: V) returns (up: ArtNode?<V>)
      requires Valid() && key <= MAX_KEY && nodeLevel <= level <= TOP
      requires Shr(key, level + 1) == Shr(nodeKey, level + 1)
      modifies Repr
      ensures var r := if up == null then this else up;
              && r.Valid() && r.m == old(m)[key as int := value] && fresh(r.Repr - old(Repr))
              && r.nodeLevel <= level && Shr(r.nodeKey, level + 1) == Shr(key, level + 1)
      decreases nodeLevel, 3
    {
      hide Valid, Shape, Shr, Located;
      if level != nodeLevel {
        up := BranchIfRequired(key, value, level);
        if up != null {
          return;
        }
      }
      var b := Digit(key, nodeLevel);
      ShrStep(key, nodeLevel);
      var found, pos := FindSlot(b);
      if found {
        if nodeLevel == 0 {
          SetValue(b, pos, key, value);
        } else {
          PutIntoChild(b, pos, key, value);
        }
        return null;
      }
      if kind == N256 {
        NotFull(b);
      }
      if numChildren < Capacity(kind) {
        AddChild(b, pos, key, value);
        return null;
      }
      AtMostFull();
      up := Grow(b, key, value);
    }

    lemma AtMostFull()
      requires Shape()
      ensures numChildren <= Capacity(kind)
    {
    }

    // ----- Remove -----

    /** A node whose children are fine but which may have too few of them. */
    ghost predicate Body()
      reads this, Repr
      ensures Body() ==> Own() <= Repr && Shape() && nodeLevel <= TOP
    {
      && Own() <= Repr && Shape() && ChildrenOk() && nodeLevel <= TOP
      && Splits(m, Subs(), Prefix(), nodeLevel)
    }

    lemma BodyIs()
      requires Valid()
      ensures Parts() && Body() && Sized() && m != map[]
    {
    }

    /** A node with enough children is valid; having a child, it holds a key. */
    lemma BodyValid()
      requires Body() && Sized()
      ensures Valid()
    {
      hide Shape, Valid, Splits, Subs, ChildrenOk;
      ShapeIs();
      assert kids.Keys != {};
      SubsKeys();
      NotEmpty(m, Subs(), Prefix(), nodeLevel);
      IsValid();
    }

    lemma SubsKeys()
      requires Own() <= Repr && ChildrenOk()
      ensures Subs().Keys == kids.Keys
    {
    }

    /** Dropping the child of byte b leaves the others as they were. */
    twostate lemma OneChildGone(new b: int)
      requires old(Own() <= Repr && ChildrenOk()) && nodeLevel == old(nodeLevel) && nodeKey == old(nodeKey)
      requires kids == old(kids) - {b} && old(Repr) == Repr
      requires 0 < nodeLevel ==> unchanged(old(Rest(b)))
      ensures ChildrenOk() && Subs() == old(Subs()) - {b}
    {
      hide Shape, Splits, Valid, Shr;
      forall c: int <- kids ensures ChildKind(c) && Held(c) == old(Held(c)) && (0 < nodeLevel ==> kids[c].n.Valid()) {
        assert old(ChildKind(c));
        if 0 < nodeLevel {
          assert old(kids[c].n.Repr) <= old(Rest(b));
        }
      }
      forall c, d | c in kids && d in kids && c != d && 0 < nodeLevel ensures kids[c].n.Repr !! kids[d].n.Repr {
        assert old(ChildKind(c)) && old(ChildKind(d));
        assert old(kids[c].n.Repr) <= old(Rest(b)) && old(kids[d].n.Repr) <= old(Rest(b));
      }
    }

    /** The node is fine again once its children are and the part of byte b has lost the key. */
    lemma RemoveBody(m0: map<int, V>, sub0: map<int, map<int, V>>, b: nat, key: nat)
      requires Own() <= Repr && Shape() && ChildrenOk() && nodeLevel <= TOP
      requires Shr(key, nodeLevel) == 256 * Prefix() + b && b in sub0
      requires Splits(m0, sub0, Prefix(), nodeLevel) && m == m0 - {key}
      requires Subs() == Without(sub0, b, key)
      ensures Body()
    {
      hide Shape, Splits, Subs, Shr, ChildrenOk, Valid, Without;
      SplitsRemove(m0, sub0, Prefix(), nodeLevel, b, key);
    }

    /** The sub-node of byte b has lost the key: sub takes its place, or nothing is left of it. */
    twostate predicate RemoveBelowDone(b: int, new key: int, new sub: ArtNode?<V>, new rest: set<object>)
      requires old(Own() <= Repr && ChildrenOk() && 0 < nodeLevel && HasSub(b))
      requires rest == old(Rest(b))
      reads if sub == null then {} else {sub} + sub.Repr, rest
    {
      && unchanged(rest)
      && (sub == null <==> old(kids[b].n.m) - {key} == map[])
      && (sub != null ==>
            && rest !! sub.Repr && Own() !! sub.Repr
            && sub.Valid() && sub.m == old(kids[b].n.m) - {key}
            && sub.nodeLevel < old(nodeLevel) && Shr(sub.nodeKey, old(nodeLevel)) == 256 * old(Prefix()) + b)
    }

    twostate lemma ChildRemoveDone(new b: int, new key: int, new sub: ArtNode?<V>)
      requires old(Parts() && 0 < nodeLevel && HasSub(b)) && RemoveBelowDone(b, key, sub, old(Rest(b)))
      requires 0 <= b < 256 && 0 <= key && Shr(key, nodeLevel) == 256 * Prefix() + b
      requires nodeLevel == old(nodeLevel) && nodeKey == old(nodeKey)
      requires if sub == null then kids == old(kids) - {b} && Repr == old(Repr)
               else kids == old(kids)[b := Sub(sub)] && Repr == old(Repr) + sub.Repr
      requires m == old(m) - {key} && Shape()
      ensures Body()
    {
      hide Shape, Splits, Subs, Shr, ChildrenOk, Valid;
      if sub == null {
        OneChildGone(b);
      } else {
        OneChildNew(b, sub);
      }
      RemoveBody(old(m), old(Subs()), b, key);
    }

    twostate lemma ValueRemoveDone(new b: int, new key: int)
      requires old(Parts()) && nodeLevel == 0 == old(nodeLevel) && nodeKey == old(nodeKey) && Repr == old(Repr)
      requires 0 <= b < 256 && 0 <= key && Shr(key, 0) == 256 * Prefix() + b && b in old(kids)
      requires kids == old(kids) - {b} && m == old(m) - {key} && Shape()
      ensures Body()
    {
      hide Shape, Splits, Shr, Valid, ChildrenOk;
      ShrStep(key, 0);
      OneChildGone(b);
      OneValueOld(b);
      assert old(Subs())[b] - {key} == map[];
      RemoveBody(old(m), old(Subs()), b, key);
    }

    twostate lemma OneValueOld(new b: int)
      requires old(Own() <= Repr && ChildrenOk() && nodeLevel == 0) && b in old(kids)
      ensures b in old(Subs()) && old(Subs())[b] == map[256 * old(Prefix()) + b := old(kids[b].v)]
    {
      hide Shape, Splits, Shr, Valid;
      assert old(ChildKind(b));
    }

    /** Removes a value stored at level 0. */
    method RemoveValue(b: nat, pos: nat, key: nat)
      requires Valid() && nodeLevel == 0 && b < 256 && Shr(key, 0) == 256 * Prefix() + b && b in kids
               && Located(b, true, pos)
      modifies Repr
      ensures Body() && Repr == old(Repr) && m == old(m) - {key} && numChildren == old(numChildren) - 1
      ensures nodeLevel == old(nodeLevel) && nodeKey == old(nodeKey)
    {
      hide Shape, Splits, Subs, Shr, Valid, Located, ChildrenOk;
      ValidIs();
      RemoveSlot(b, pos);
      m := m - {key};
      ValueRemoveDone(b, key);
    }

    /** The call on the sub-node changes nothing else in this subtree. */
    method RemoveBelow(ghost b: nat, ghost pos: nat, oldSub: ArtNode<V>, key: nat) returns (resized: ArtNode?<V>)
      requires Own() <= Repr && ChildrenOk() && 0 < nodeLevel <= TOP && key <= MAX_KEY
      requires HasSub(b) && kids[b] == Sub(oldSub) && Shape() && Located(b, true, pos)
      requires b < 256 && Shr(key, nodeLevel) == 256 * Prefix() + b
      modifies oldSub.Repr
      ensures unchanged(Own()) && Shape() && Located(b, true, pos)
      ensures RemoveBelowDone(b, key, resized, old(Rest(b)))
      ensures resized != null ==>
                resized in resized.Repr && fresh(resized.Repr - old(oldSub.Repr)) && old(Rest(b)) !! resized.Repr
                    && Own() !! resized.Repr
      decreases nodeLevel, 0
    {
      hide Valid, ChildrenOk, Shr, Shape, Located;
      SubsAt(b);
      resized := oldSub.Remove(key, nodeLevel - 1);
    }

    /** nodes_[pos] = resized, or the sub key dropped when nothing is left below it. */
    method ReplaceOrDrop(b: int, pos: nat, oldSub: ArtNode<V>, resized: ArtNode?<V>, ghost contents: map<int, V>)
      requires Shape() && b in kids && Located(b, true, pos) && kids[b] == Sub(oldSub)
      modifies this`kids, this`m, this`Repr, this`numChildren, this`freeBitMask, this`owner, nodes, subKeys, indexes
      ensures Shape() && m == contents
      ensures resized == null ==> kids == old(kids) - {b} && Repr == old(Repr) && numChildren == old(numChildren) - 1
      ensures resized != null ==>
                kids == old(kids)[b := Sub(resized)] && Repr == old(Repr) + resized.Repr
                    && numChildren == old(numChildren)
    {
      hide Shape, Located;
      m := contents;
      if resized == null {
        RemoveSlot(b, pos);
      } else {
        Repr := Repr + resized.Repr;
        if resized != oldSub {
          SetNode(b, pos, Sub(resized));
        }
      }
    }

    method RemoveAndReplace(b: nat, pos: nat, key: nat) returns (resized: ArtNode?<V>)
      requires Parts() && 0 < nodeLevel && key <= MAX_KEY && HasSub(b)
      requires b < 256 && Shr(key, nodeLevel) == 256 * Prefix() + b && Located(b, true, pos)
      modifies Repr
      ensures RemoveBelowDone(b, key, resized, old(Rest(b)))
      ensures nodeLevel == old(nodeLevel) && nodeKey == old(nodeKey)
      ensures resized == null ==>
                kids == old(kids) - {b as int} && Repr == old(Repr) && numChildren == old(numChildren) - 1
      ensures resized != null ==>
                kids == old(kids)[b as int := Sub(resized)] && Repr == old(Repr) + resized.Repr
                    && numChildren == old(numChildren)
      ensures m == old(m) - {key} && Shape() && fresh(Repr - old(Repr))
      decreases nodeLevel, 1
    {
      hide Shape, Splits, Subs, Shr, Valid, Located, ChildrenOk, Held, Rest;
      ShapeAt(b, pos);
      ghost var rest := Rest(b);
      RestIs(b);
      var oldSub := nodes[pos].n;
      resized := RemoveBelow(b, pos, oldSub, key);
      ReplaceOrDrop(b, pos, oldSub, resized, m - {key});
      assert (resized != null ==> resized.Valid()) && unchanged(rest);
    }

    /** Descends into the sub-node of byte b. */
    method RemoveFromChild(b: nat, pos: nat, key: nat)
      requires Valid() && 0 < nodeLevel && key <= MAX_KEY
      requires b < 256 && Shr(key, nodeLevel) == 256 * Prefix() + b && b in kids && Located(b, true, pos)
      modifies Repr
      ensures Body() && fresh(Repr - old(Repr)) && m == old(m) - {key}
      ensures nodeLevel == old(nodeLevel) && nodeKey == old(nodeKey)
      ensures old(numChildren) - 1 <= numChildren <= old(numChildren)
      decreases nodeLevel, 2
    {
      hide Shape, Splits, Subs, Shr, Valid, Located, ChildrenOk, Held, Rest, Own;
      ValidIs();
      SubsAt(b);
      var resized := RemoveAndReplace(b, pos, key);
      ChildRemoveDone(b, key, resized);
    }

    /** What takes the place of a node that may have lost a child: nothing, its last child, the next smaller kind or
        itself. */
    method Shrunk(ghost level: nat) returns (r: ArtNode?<V>)
      requires Body() && Fewest(kind) - 1 <= numChildren && (0 < nodeLevel ==> 1 <= numChildren) && nodeLevel <= level
      ensures r == null <==> m == map[]
      ensures r != null ==>
                && r.Valid() && r.m == m && fresh(r.Repr - Repr)
                && r.nodeLevel <= level && Shr(r.nodeKey, level + 1) == Shr(nodeKey, level + 1)
    {
      hide Shape, Splits, Subs, Shr, Valid, ChildrenOk, Body;
      if kind == N4 && numChildren == 1 && nodeLevel != 0 {
        r := LastChild(level);
      } else if numChildren == 0 {
        NoChildren();
        r := null;
      } else if numChildren + 1 == Fewest(kind) {
        r := Smaller();
      } else {
        BodyValid();
        BodyIs();
        r := this;
      }
    }

    method LastChild(ghost level: nat) returns (r: ArtNode<V>)
      requires Body() && kind == N4 && numChildren == 1 && 0 < nodeLevel <= level
      ensures r.Valid() && r.m == m && fresh(r.Repr - Repr) && m != map[]
      ensures r.nodeLevel <= level && Shr(r.nodeKey, level + 1) == Shr(nodeKey, level + 1)
    {
      hide Shape, Splits, Subs, Shr, Valid, ChildrenOk;
      OnlyChild();
      r := nodes[0].n;
      r.BodyIs();
      OnlyPart(subKeys[0], level);
    }

    lemma OnlyChild()
      requires Body() && kind == N4 && numChildren == 1 && 0 < nodeLevel
      ensures Arrays() && |kids| == 1 && subKeys[0] in kids && kids[subKeys[0]] == nodes[0] && 0 <= subKeys[0] < 256
      ensures forall c: int <- kids :: c == subKeys[0]
      ensures nodes[0].Sub? && nodes[0].n.Valid() && nodes[0].n.Repr <= Repr
    {
      hide Splits, Subs, Shr, Valid, ChildrenOk;
      OneKey(subKeys[..], nodes[..], kids, Nil);
      SubsAt(subKeys[0]);
    }

    lemma OnlyPart(b: int, level: nat)
      requires Body() && 0 < nodeLevel <= level && b in kids && 0 <= b < 256 && forall c: int <- kids :: c == b
      ensures kids[b].Sub? && kids[b].n.m == m && kids[b].n.nodeLevel < nodeLevel
      ensures Shr(kids[b].n.nodeKey, level + 1) == Shr(nodeKey, level + 1)
    {
      hide Splits, Shape, Shr, Subs, Valid, ChildrenOk;
      SubsAt(b);
      SubsKeys();
      SplitsOne(m, Subs(), Prefix(), nodeLevel, b);
      ShrStep(kids[b].n.nodeKey, nodeLevel);
      ShrAgree(kids[b].n.nodeKey, nodeKey, nodeLevel + 1, level + 1);
    }

    lemma NoChildren()
      requires Body() && numChildren == 0
      ensures m == map[]
    {
      hide Splits, Shr, Subs, Valid, ChildrenOk, Shape;
      ShapeIs();
      SubsKeys();
      assert Subs() == map[];
      SplitsNone(m, Subs(), Prefix(), nodeLevel);
    }

    /** The next smaller kind of node, with the same children. */
    method Smaller() returns (down: ArtNode<V>)
      requires Body() && numChildren + 1 == Fewest(kind) && kind != N4
      ensures down.Valid() && down.m == m && m != map[] && fresh(down.Repr - Repr)
      ensures down.nodeLevel == nodeLevel && down.nodeKey == nodeKey
    {
      hide Shape, Splits, Subs, Shr, Valid, ChildrenOk, TakesOver;
      down := SmallerCopy(m, Repr);
      ChildrenCopied(down);
      down.BodyValid();
      down.BodyIs();
    }

    method SmallerCopy(ghost contents: map<int, V>, ghost objs: set<object>) returns (down: ArtNode<V>)
      requires Shape() && numChildren + 1 == Fewest(kind) && kind != N4 && nodeLevel <= TOP
      ensures down.Shape() && down.kids == kids && fresh(down.Own()) && down.Sized()
      ensures down.nodeLevel == nodeLevel && down.nodeKey == nodeKey && down.m == contents
              && down.Repr == down.Own() + objs
    {
      hide Shape;
      if kind == N16 {
        down := new ArtNode<V>.Empty(N4);
        down.InitFromNode16(this);
      } else if kind == N48 {
        down := new ArtNode<V>.Empty(N16);
        down.ShrinkFromNode48(this);
      } else {
        down := new ArtNode<V>.Empty(N48);
        down.ShrinkFromNode256(this);
      }
      down.m := contents;
      down.Repr := down.Own() + objs;
    }

    lemma ChildrenCopied(down: ArtNode<V>)
      requires Body() && down.Shape() && down.kids == kids && down.nodeLevel == nodeLevel && down.nodeKey == nodeKey
      requires down.m == m && down.Repr == down.Own() + Repr && down.Own() !! Repr
      ensures down.Body()
    {
      hide Shape, Splits, Valid, Shr;
      forall c: int <- kids ensures down.ChildKind(c) && down.Held(c) == Held(c) {
        assert ChildKind(c);
      }
      assert down.Subs() == Subs();
    }

    /** Removes a key from the subtree; the result stands in this node's place, null when nothing is left. */
    method Remove(key: nat, level: nat) returns (r: ArtNode?<V>)
      requires Valid() && key <= MAX_KEY && nodeLevel <= level <= TOP
      requires Shr(key, level + 1) == Shr(nodeKey, level + 1)
      modifies Repr
      ensures r == null <==> old(m) - {key} == map[]
      ensures r != null ==>
                && r.Valid() && r.m == old(m) - {key} && fresh(r.Repr - old(Repr))
                && r.nodeLevel <= level && Shr(r.nodeKey, level + 1) == Shr(key, level + 1)
      decreases nodeLevel, 3
    {
      hide Valid, Shape, Shr, Located, Splits, Subs, ChildrenOk, Body, Digit;
      BodyIs();
      if level != nodeLevel && Shr(key, nodeLevel + 1) != Shr(nodeKey, nodeLevel + 1) {
        Absent(key);
        return this;
      }
      var b := Digit(key, nodeLevel);
      ShrStep(key, nodeLevel);
      var found, pos := FindSlot(b);
      if !found {
        Absent(key);
        return this;
      }
      if nodeLevel == 0 {
        RemoveValue(b, pos, key);
      } else {
        RemoveFromChild(b, pos, key);
      }
      r := Shrunk(level);
    }

    lemma Absent(key: nat)
      requires Valid() && (Shr(key, nodeLevel + 1) != Prefix() || Digit(key, nodeLevel) !in kids)
      ensures key !in m && m - {key} == m
    {
      hide Shape, Splits, Shr, Valid, ChildrenOk, Subs;
      ValidIs();
      SubsKeys();
      SplitsAbsent(m, Subs(), Prefix(), nodeLevel, key);
    }

    // ----- Ordered lookup -----

    /** Only kinds 4 and 16 in the subtree. */
    ghost predicate Narrow()
      requires Valid()
      reads this, Repr
      decreases nodeLevel
    {
      (kind == N4 || kind == N16)
          && (0 < nodeLevel ==> forall b: int <- kids :: ChildKind(b) && kids[b].n.Valid() && kids[b].n.Narrow())
    }

    /** A query asked at this node's own level comes from a parent whose entries it is not before. */
    ghost predicate Placed(key: nat, level: nat, down: bool)
      reads `nodeKey, `nodeLevel
    {
      level == nodeLevel ==> OnSide(key, down)
    }

    ghost predicate OnSide(key: nat, down: bool)
      reads `nodeKey, `nodeLevel
    {
      if down then Prefix() <= Shr(key, nodeLevel + 1) else Shr(key, nodeLevel + 1) <= Prefix()
    }

    ghost predicate ChildPlaced(c: int, key: nat, down: bool)
      requires Valid() && c in kids
      reads this, Repr
    {
      if nodeLevel == 0 then (if down then 256 * Prefix() + c <= key else key <= 256 * Prefix() + c)
      else ChildKind(c) && kids[c].n.Valid() && kids[c].n.Placed(key, nodeLevel - 1, down)
    }

    /** c is the next used byte after b on the asked side. */
    ghost predicate NextKid(b: int, down: bool, c: int)
      reads `kids
    {
      && c in kids && (if down then c < b else b < c)
      && forall d: int <- kids :: if down then d <= c || b <= d else c <= d || d <= b
    }

    /** When a lookup finds the nearest entry. A query that is replaced by the greatest or the zero query, or answered
        at once, is fine. A query that goes down as it is must fit: outside the node's range no used byte may lie beyond
        its own, the child at its own byte must fit in turn, and so must, in a wide node that has none there, the next
        child, because a wide node passes the query on unchanged. */
    ghost predicate Fits(key: nat, level: nat, down: bool)
      requires Valid()
      reads this, Repr
      decreases nodeLevel, 2
    {
      (level != nodeLevel && Shr(key, nodeLevel + 1) != Prefix()) || FitsAt(key, down)
    }

    ghost predicate FitsAt(at: nat, down: bool)
      requires Valid()
      reads this, Repr
      decreases nodeLevel, 1
    {
      var b := Digit(at, nodeLevel);
      && (Shr(at, nodeLevel + 1) == Prefix() || !KidPast(b, down))
      && (b in kids ==> ChildFits(b, at, down))
      && (b !in kids && (kind == N48 || kind == N256) ==> forall c: int <- kids :: NextKid(b, down, c) ==>
            ChildFits(c, at, down))
    }

    ghost predicate KidPast(b: int, down: bool)
      reads `kids
    {
      exists e: int <- kids :: if down then b < e else e < b
    }

    ghost predicate ChildFits(c: int, key: nat, down: bool)
      requires Valid() && c in kids
      reads this, Repr
      decreases nodeLevel, 0
    {
      nodeLevel == 0 || (ChildKind(c) && kids[c].n.Valid() && kids[c].n.nodeLevel < nodeLevel
                         && kids[c].n.Fits(key, nodeLevel - 1, down))
    }

    lemma ByteRange(c: int)
      requires Valid() && c in kids
      ensures 0 <= c < 256
    {
    }

    /** A query on the node's side is on the side of every child that does not lie beyond its byte. */
    lemma ChildIsPlaced(c: int, key: nat, down: bool)
      requires Valid() && c in kids && OnSide(key, down)
      requires Shr(key, nodeLevel + 1) == Prefix() ==>
                 if down then c <= Digit(key, nodeLevel) else Digit(key, nodeLevel) <= c
      ensures ChildPlaced(c, key, down)
    {
      hide Shape, Splits, Shr, Digit, Subs, ChildrenOk;
      ShrStep(key, nodeLevel);
      ShrStep(key, 0);
      DigitRange(key, nodeLevel);
      ValidIs();
      SubsAt(c);
      ByteRange(c);
    }

    lemma ChildFitsIs(c: int, key: nat, down: bool)
      requires Valid() && c in kids && 0 < nodeLevel && ChildKind(c) && kids[c].n.Valid()
      requires kids[c].n.nodeLevel == nodeLevel - 1 || Shr(key, kids[c].n.nodeLevel + 1) == kids[c].n.Prefix() ==>
                 kids[c].n.FitsAt(key, down)
      ensures ChildFits(c, key, down)
    {
      hide Shr, ArtNode.FitsAt;
    }

    lemma DigitRange(key: nat, n: nat)
      ensures 0 <= Digit(key, n) < 256
    {
    }

    // ----- Queries that fit -----

    /** A query with full low bytes fits at every node. */
    lemma {:induction false} FullFits(at: nat, down: bool)
      requires Valid() && LowAll(at, nodeLevel + 1, down)
      ensures FitsAt(at, down)
      decreases nodeLevel
    {
      hide Shape, Splits, Shr, Digit, LowAll, Subs, ChildrenOk;
      LowAllBelow(at, nodeLevel + 1, nodeLevel, down);
      forall c: int <- kids ensures 0 <= c < 256 && ChildFits(c, at, down) {
        ByteRange(c);
        FullChild(c, at, down);
      }
    }

    lemma FullChild(c: int, at: nat, down: bool)
      requires Valid() && c in kids && LowAll(at, nodeLevel, down)
      ensures ChildFits(c, at, down)
      decreases nodeLevel, 0
    {
      hide Shape, Splits, Shr, Digit, LowAll, Subs, ChildrenOk;
      if 0 < nodeLevel {
        ValidIs();
        SubsAt(c);
        var n := kids[c].n;
        LowAllBelow(at, nodeLevel, n.nodeLevel + 1, down);
        n.FullFits(at, down);
      }
    }

    /** In a subtree of kinds 4 and 16 every query within the range fits. */
    lemma {:induction false} NarrowFits(at: nat, down: bool)
      requires Valid() && Narrow() && Shr(at, nodeLevel + 1) == Prefix()
      ensures FitsAt(at, down)
      decreases nodeLevel
    {
      hide Shape, Splits, Shr, Digit, Subs, ChildrenOk;
      var b := Digit(at, nodeLevel);
      if b in kids && 0 < nodeLevel {
        ValidIs();
        SubsAt(b);
        var n := kids[b].n;
        ShrStep(at, nodeLevel);
        if n.nodeLevel == nodeLevel - 1 || Shr(at, n.nodeLevel + 1) == n.Prefix() { n.NarrowFits(at, down); }
        ChildFitsIs(b, at, down);
      }
    }

    /** When the key beside the query is present, it is under the query's own byte unless the low bytes are full. */
    lemma NextInChild(b: int, key: nat, down: bool)
      requires Valid() && 0 < nodeLevel && b == Digit(key, nodeLevel) && Shr(key, nodeLevel + 1) == Prefix()
      requires (if down then key + 1 else key - 1) in m
      ensures LowAll(key, nodeLevel, down)
              || (b in kids && ChildKind(b) && (if down then key + 1 else key - 1) in kids[b].n.m)
    {
      hide Shape, Splits, Shr, Digit, LowAll, Subs, ChildrenOk, Valid;
      ValidIs();
      SubsAt(b);
      var next := if down then key + 1 else key - 1;
      ghost var c := PartOf(m, Subs(), Prefix(), nodeLevel, next);
      if down { StepUp(key, nodeLevel); } else { StepDown(key, nodeLevel); }
      ShrStep(key, nodeLevel);
      ShrStep(next, nodeLevel);
      PartAt(m, Subs(), Prefix(), nodeLevel, c, next);
    }

    /** A query beside a key that is present fits. */
    lemma {:induction false} PresentFits(at: nat, down: bool)
      requires Valid() && Shr(at, nodeLevel + 1) == Prefix() && (if down then at + 1 else at - 1) in m
      ensures FitsAt(at, down)
      decreases nodeLevel
    {
      hide Shape, Splits, Shr, Digit, LowAll, Subs, ChildrenOk;
      var b := Digit(at, nodeLevel);
      if 0 < nodeLevel {
        NextInChild(b, at, down);
        ValidIs();
        SubsAt(b);
        ShrStep(at, nodeLevel);
        if LowAll(at, nodeLevel, down) {
          forall c: int <- kids ensures ChildFits(c, at, down) { FullChild(c, at, down); }
        } else {
          var n := kids[b].n;
          if n.nodeLevel == nodeLevel - 1 || Shr(at, n.nodeLevel + 1) == n.Prefix() { n.PresentFits(at, down); }
          ChildFitsIs(b, at, down);
        }
      }
    }

    /** The greatest and the zero query fit below the top level. */
    lemma ResetFits(down: bool)
      requires Valid() && nodeLevel < TOP
      ensures FitsAt(if down then MAX_KEY else 0, down)
    {
      hide LowAll, FitsAt;
      if down { LowAllMax(nodeLevel + 1); } else { LowAllZero(nodeLevel + 1); }
      FullFits(if down then MAX_KEY else 0, down);
    }

    lemma ResetChild(c: int, at: nat, down: bool)
      requires Valid() && c in kids && nodeLevel <= TOP && at <= MAX_KEY && OnSide(at, down)
      requires Shr(at, nodeLevel + 1) == Prefix() ==>
                 if down then c <= Digit(at, nodeLevel) else Digit(at, nodeLevel) <= c
      ensures ChildFits(c, if down then MAX_KEY else 0, down) && ChildPlaced(c, if down then MAX_KEY else 0, down)
    {
      hide Shape, Splits, Shr, Digit, LowAll, Subs, ChildrenOk;
      if down { LowAllMax(nodeLevel); } else { LowAllZero(nodeLevel); }
      FullChild(c, if down then MAX_KEY else 0, down);
      ChildIsPlaced(c, at, down);
      ShrMonotone(at, MAX_KEY, nodeLevel);
      ValidIs();
      SubsAt(c);
      ByteRange(c);
      ShrStep(at, 0);
      ShrStep(MAX_KEY, 0);
    }

    // ----- A query that does not fit -----

    /** A wide node has nothing at the query's own byte, and the next child, just below it, has an entry beyond the
        query's last byte: the lookup misses that entry. */
    lemma WideGapDoesNotFit(at: nat, down: bool, c: int)
      requires Valid() && (kind == N48 || kind == N256) && nodeLevel == 1 && Digit(at, 1) !in kids
               && NextKid(Digit(at, 1), down, c)
      requires ChildKind(c) && kids[c].n.Valid() && kids[c].n.nodeLevel == 0 && kids[c].n.KidPast(Digit(at, 0), down)
      ensures !FitsAt(at, down)
    {
      hide Shape, Splits, Subs, ChildrenOk, Shr, Digit;
      ValidIs();
      SubsAt(c);
      var n := kids[c].n;
      ByteRange(c);
      assert n.Prefix() == 256 * Prefix() + c;
      if Shr(at, 1) == n.Prefix() { ByteAbove(at, c, Prefix()); }
      assert !n.FitsAt(at, down);
      assert !ChildFits(c, at, down);
    }

    /** For instance with the keys 5, 261 and so on to 4101, each of its own child: asked for the entry at or below
        5123, the node does not find 4101. */
    lemma WideGapExample()
      requires Valid() && kind == N48 && nodeLevel == 1 && Prefix() == 0 && forall b: int :: b in kids <==> 0 <= b <= 16
      requires ChildKind(16) && kids[16].n.Valid() && kids[16].n.nodeLevel == 0
               && forall b: int :: b in kids[16].n.kids <==> b == 5
      ensures !FitsAt(5123, true) && 4101 in m && Nearest(m, 5123, true, Some(m[4101]))
    {
      hide Shape, Splits, Subs, ChildrenOk, Shr, Digit, FitsAt;
      SmallKey(5123);
      var n := kids[16].n;
      assert n.KidPast(Digit(5123, 0), true) by { assert 5 in n.kids; }
      assert NextKid(Digit(5123, 1), true, 16);
      WideGapDoesNotFit(5123, true, 16);
      ValidIs();
      SubsKeys();
      SubsAt(16);
      n.ValidIs();
      n.SubsKeys();
      n.SubsAt(5);
      assert n.Prefix() == 16;
      var k := AnyKey(n.m, n.Subs(), 16, 0, 5);
      PartAt(n.m, n.Subs(), 16, 0, 5, k);
      ShrStep(k, 0);
      PartAt(m, Subs(), 0, 1, 16, k);
      forall j: int <- m ensures j <= 4101 {
        var c := PartOf(m, Subs(), 0, 1, j);
        if c < 16 {
          OtherSide(m, Subs(), 0, 1, 16, k, c, j);
        } else {
          var d := PartOf(n.m, n.Subs(), 16, 0, j);
          PartAt(n.m, n.Subs(), 16, 0, d, j);
          ShrStep(j, 0);
        }
      }
      assert NearestAt(m, 5123, true, 4101);
    }

    /** These keys stand under one node of kind 48 at the second byte, each in a leaf of its own: the node is the one of
        the example. */
    lemma SpacedShape()
      requires Valid() && Spaced(m)
      ensures kind == N48 && nodeLevel == 1 && Prefix() == 0 && forall b: int :: b in kids <==> 0 <= b <= 16
      ensures ChildKind(16) && kids[16].n.Valid() && kids[16].n.nodeLevel == 0
              && forall b: int :: b in kids[16].n.kids <==> b == 5
    {
      hide Shape, Splits, Subs, ChildrenOk, Shr, Digit;
      ValidIs();
      SubsKeys();
      SpacedLevel();
      forall b: int ensures b in kids <==> 0 <= b <= 16 {
        if b in kids {
          SubsAt(b);
          var k := AnyKey(m, Subs(), Prefix(), 1, b);
          PartAt(m, Subs(), Prefix(), 1, b, k);
          SmallKey(k);
        }
        if 0 <= b <= 16 {
          SmallKey(256 * b + 5);
          var c := PartOf(m, Subs(), Prefix(), 1, 256 * b + 5);
        }
      }
      SeventeenKids();
      SpacedLeaf();
    }

    lemma SpacedLevel()
      requires Valid() && Spaced(m)
      ensures nodeLevel == 1 && Prefix() == 0
    {
      hide Shape, Subs, ChildrenOk, Shr, Digit;
      ValidIs();
      SubsKeys();
      assert 5 in m && 261 in m;
      SmallKey(5);
      SmallKey(261);
      if nodeLevel == 0 { assert false; }
      if 2 <= nodeLevel {
        forall b: int <- kids ensures b == 0 {
          SubsAt(b);
          var k := AnyKey(m, Subs(), Prefix(), nodeLevel, b);
          PartAt(m, Subs(), Prefix(), nodeLevel, b, k);
          HighBytes(k, nodeLevel);
        }
        ShapeIs();
        assert kids.Keys <= {0};
        FewKids();
        assert false;
      }
    }

    lemma FewKids()
      requires kids.Keys <= {0}
      ensures |kids| <= 1
    {
      assert kids.Keys == {} || kids.Keys == {0};
      assert |kids| == |kids.Keys|;
    }

    lemma SeventeenKids()
      requires Valid() && forall b: int :: b in kids <==> 0 <= b <= 16
      ensures kind == N48
    {
      hide SortedOk, IndexedOk, DirectOk, Splits, Subs, ChildrenOk;
      ShapeIs();
      FirstBytes(17);
    }

    lemma {:induction false} FirstBytes(n: nat)
      requires forall b: int :: b in kids <==> 0 <= b < 17
      requires n <= 17
      ensures |set b: int | b in kids && b < n| == n
      ensures n == 17 ==> |kids| == 17
    {
      var s := set b: int | b in kids && b < n;
      if n == 0 {
        assert forall b: int :: b in s ==> false;
        assert s == {};
      } else {
        FirstBytes(n - 1);
        var r := set b: int | b in kids && b < n - 1;
        assert s == r + {n - 1};
      }
      if n == 17 { assert s == kids.Keys; }
    }

    lemma SpacedLeaf()
      requires Valid() && Spaced(m) && nodeLevel == 1 && Prefix() == 0 && 16 in kids
      ensures ChildKind(16) && kids[16].n.Valid() && kids[16].n.nodeLevel == 0
              && forall b: int :: b in kids[16].n.kids <==> b == 5
    {
      hide Shape, Splits, Subs, ChildrenOk, Shr, Digit;
      ValidIs();
      SubsAt(16);
      var n := kids[16].n;
      n.ValidIs();
      n.SubsKeys();
      forall b: int <- n.kids ensures b == 5 {
        n.SubsAt(b);
        var k := AnyKey(n.m, n.Subs(), n.Prefix(), 0, b);
        PartAt(n.m, n.Subs(), n.Prefix(), 0, b, k);
        PartAt(m, Subs(), 0, 1, 16, k);
        SmallKey(k);
      }
      if 5 !in n.kids {
        HasElement(n.m.Keys);
        var k: int :| k in n.m;
        var c := PartOf(n.m, n.Subs(), n.Prefix(), 0, k);
        assert false;
      }
    }

    lemma ByteAbove(at: nat, c: int, prefix: nat)
      requires Shr(at, 1) == 256 * prefix + c && 0 <= c < 256
      ensures Digit(at, 1) == c
    {
      ShrStep(at, 1);
    }

    // ----- Judging an answer -----

    /** The parts of a node that has a query on its side. */
    lemma Sides(at: nat, down: bool)
      requires Valid() && OnSide(at, down)
      ensures Parts() && Subs().Keys == kids.Keys && Splits(m, Subs(), Prefix(), nodeLevel)
      ensures Shr(at, nodeLevel + 1) == Prefix() || !KidPast(Digit(at, nodeLevel), down) ==>
                Sided(Subs(), at, Digit(at, nodeLevel))
      ensures Shr(at, nodeLevel + 1) != Prefix() ==> forall c: int <- Subs() :: !Nearest(Subs()[c], at, down, None)
    {
      hide Shape, Shr, Digit, Subs, ChildrenOk, Splits, Nearest;
      ValidIs();
      SubsKeys();
      if Shr(at, nodeLevel + 1) == Prefix() {
        SidedWithin(m, Subs(), Prefix(), nodeLevel, at);
      } else {
        OutsideAll(m, Subs(), Prefix(), nodeLevel, at);
        forall c: int <- Subs()
          ensures !Nearest(Subs()[c], at, down, None) && if down then Below(Subs()[c], at) else Above(Subs()[c], at)
        {
          PartBeyond(m, Subs(), Prefix(), nodeLevel, at, down, c);
        }
      }
    }

    lemma Chosen(c: int, b: int, down: bool)
      requires Own() <= Repr && ChildrenOk() && NextKid(b, down, c)
      ensures c in Subs() && NextByte(Subs(), b, down, c)
    {
      hide Shape;
      SubsKeys();
    }

    /** Asked outside its range with a used byte beyond the query's own, a node answers from a part that is too far
        away. */
    lemma PastIsWrong(at: nat, down: bool, c: int, v: Option<V>)
      requires Valid() && OnSide(at, down) && Shr(at, nodeLevel + 1) != Prefix() && KidPast(Digit(at, nodeLevel), down)
               && Distinct(m)
      requires Parts() && Subs().Keys == kids.Keys
      requires v.Some? ==>
                 c in Subs() && From(Subs()[c], v)
                     && if down then c <= Digit(at, nodeLevel) else Digit(at, nodeLevel) <= c
      ensures !Nearest(m, at, down, v)
    {
      hide Shape, Splits, Shr, Digit, Subs, ChildrenOk, Nearest, From, Distinct;
      var b := Digit(at, nodeLevel);
      var e: int :| e in kids && if down then b < e else e < b;
      Sides(at, down);
      WrongElsewhere(m, Subs(), Prefix(), nodeLevel, at, down, e, c, v);
    }

    /** The first child asked answers: the one at the query's own byte, or the next one in a wide node. */
    lemma FirstAnswer(at: nat, down: bool, c: int, v: Option<V>)
      requires Valid() && OnSide(at, down) && v.Some? && Parts() && c in Subs() && c in kids
      requires c == Digit(at, nodeLevel)
               || (Digit(at, nodeLevel) !in kids && NextKid(Digit(at, nodeLevel), down, c)
                   && (kind == N48 || kind == N256))
      requires Outcome(Subs()[c], at, down, ChildFits(c, at, down), v)
      ensures Outcome(m, at, down, FitsAt(at, down), v)
    {
      hide Shape, Splits, Shr, Digit, Subs, ChildrenOk, Nearest, From, Distinct, ChildFits, Sided, NextByte;
      var b := Digit(at, nodeLevel);
      Sides(at, down);
      FromPart(m, Subs(), Prefix(), nodeLevel, c, v);
      if FitsAt(at, down) {
        if c == b {
          NearestExact(m, Subs(), Prefix(), nodeLevel, at, down, b, v);
        } else {
          Chosen(c, b, down);
          SidedPart(Subs(), at, b, c);
          NearestNext(m, Subs(), Prefix(), nodeLevel, at, down, b, c, at, v);
        }
      } else if Distinct(m) {
        DistinctPart(m, Subs(), Prefix(), nodeLevel, c);
        if !ChildFits(c, at, down) {
          WrongHere(m, Subs(), Prefix(), nodeLevel, at, down, c, v);
        } else {
          OnlyNext(b, down, c);
          PastIsWrong(at, down, c, v);
        }
      }
    }

    /** There is only one next child. */
    lemma OnlyNext(b: int, down: bool, c: int)
      ensures NextKid(b, down, c) ==> forall d: int <- kids :: NextKid(b, down, d) ==> d == c
    {
    }

    /** The first child asked has nothing, the next one gives its extreme entry. */
    lemma SecondAnswer(at: nat, down: bool, h: int, c: int, key': int, v: Option<V>)
      requires Valid() && OnSide(at, down) && Parts() && h in Subs() && h in kids && c in Subs() && c in kids
               && NextKid(h, down, c)
      requires h == Digit(at, nodeLevel)
               || (Digit(at, nodeLevel) !in kids && NextKid(Digit(at, nodeLevel), down, h)
                   && (kind == N48 || kind == N256))
      requires Outcome(Subs()[h], at, down, ChildFits(h, at, down), None)
      requires Nearest(Subs()[c], key', down, v)
               && if down then forall k: int <- Subs()[c] :: k <= key' else forall k: int <- Subs()[c] :: key' <= k
      ensures v.Some? && Outcome(m, at, down, FitsAt(at, down), v)
    {
      hide Shape, Splits, Shr, Digit, Subs, ChildrenOk, Nearest, From, Distinct, ChildFits, Sided, NextByte;
      var b := Digit(at, nodeLevel);
      Sides(at, down);
      NotNone(m, Subs(), Prefix(), nodeLevel, key', down, c, v);
      NearestFrom(Subs()[c], key', down, v);
      FromPart(m, Subs(), Prefix(), nodeLevel, c, v);
      if FitsAt(at, down) {
        FirstHasNothing(at, down, h);
        Chosen(c, b, down);
        NearestNext(m, Subs(), Prefix(), nodeLevel, at, down, b, c, key', v);
      } else if Distinct(m) {
        DistinctPart(m, Subs(), Prefix(), nodeLevel, h);
        if !ChildFits(h, at, down) {
          WrongElsewhere(m, Subs(), Prefix(), nodeLevel, at, down, h, c, v);
        } else {
          OnlyNext(b, down, h);
          PastIsWrong(at, down, c, v);
        }
      }
    }

    /** When the query fits and the first child asked has nothing, that child is at the query's own byte: any other
        would have given its extreme entry. */
    lemma FirstHasNothing(at: nat, down: bool, h: int)
      requires Valid() && OnSide(at, down) && Parts() && h in Subs() && h in kids && FitsAt(at, down)
      requires h == Digit(at, nodeLevel)
               || (Digit(at, nodeLevel) !in kids && NextKid(Digit(at, nodeLevel), down, h)
                   && (kind == N48 || kind == N256))
      requires Outcome(Subs()[h], at, down, ChildFits(h, at, down), None)
      ensures h == Digit(at, nodeLevel) && Nearest(Subs()[h], at, down, None)
    {
      hide Shape, Splits, Shr, Digit, Subs, ChildrenOk, Nearest, ChildFits, Sided;
      var b := Digit(at, nodeLevel);
      Sides(at, down);
      if h != b {
        SidedPart(Subs(), at, b, h);
        NotNone(m, Subs(), Prefix(), nodeLevel, at, down, h, None);
      }
    }

    /** A sorted node that has nothing at the query's own byte asks the next child for its extreme entry. */
    lemma NextAnswer(at: nat, down: bool, c: int, key': int, v: Option<V>)
      requires Valid() && OnSide(at, down) && Parts() && c in Subs() && c in kids && (kind == N4 || kind == N16)
      requires Digit(at, nodeLevel) !in kids && NextKid(Digit(at, nodeLevel), down, c)
      requires Nearest(Subs()[c], key', down, v)
               && if down then forall k: int <- Subs()[c] :: k <= key' else forall k: int <- Subs()[c] :: key' <= k
      ensures Outcome(m, at, down, FitsAt(at, down), v)
    {
      hide Shape, Splits, Shr, Digit, Subs, ChildrenOk, Nearest, From, Distinct, ChildFits, Sided, NextByte;
      var b := Digit(at, nodeLevel);
      Sides(at, down);
      NearestFrom(Subs()[c], key', down, v);
      FromPart(m, Subs(), Prefix(), nodeLevel, c, v);
      if FitsAt(at, down) {
        Chosen(c, b, down);
        NearestNext(m, Subs(), Prefix(), nodeLevel, at, down, b, c, key', v);
      } else if Distinct(m) {
        PastIsWrong(at, down, c, v);
      }
    }

    /** No child on the asked side is left: the one at the query's own byte, if there is one, has nothing. */
    lemma NoAnswer(at: nat, down: bool, asked: bool, h: int)
      requires Valid() && OnSide(at, down) && Parts()
      requires asked ==> h in kids && h in Subs() && Outcome(Subs()[h], at, down, ChildFits(h, at, down), None)
                         && (h == Digit(at, nodeLevel) || (Digit(at, nodeLevel) !in kids
                                                           && NextKid(Digit(at, nodeLevel), down, h)
                                                              && (kind == N48 || kind == N256)))
      requires !asked ==> forall d: int <- kids :: if down then Digit(at, nodeLevel) < d else d < Digit(at, nodeLevel)
      requires asked ==> forall d: int <- kids :: if down then h <= d else d <= h
      ensures Outcome(m, at, down, FitsAt(at, down), None)
    {
      hide Shape, Splits, Shr, Digit, Subs, ChildrenOk, Nearest, From, Distinct, ChildFits, Sided, NextByte;
      var b := Digit(at, nodeLevel);
      Sides(at, down);
      assert From(m, None) by { NoneIsFrom(); }
      if FitsAt(at, down) {
        if asked { FirstHasNothing(at, down, h); }
        NearestNone(m, Subs(), Prefix(), nodeLevel, at, down, b);
      } else if Distinct(m) {
        if asked && !ChildFits(h, at, down) {
          DistinctPart(m, Subs(), Prefix(), nodeLevel, h);
          WrongElsewhere(m, Subs(), Prefix(), nodeLevel, at, down, h, h, None);
        } else {
          if asked { OnlyNext(b, down, h); } else { NoNext(b, down); }
          PastIsWrong(at, down, 0, None);
        }
      }
    }

    lemma NoneIsFrom()
      ensures From(m, None)
    {
    }

    lemma NoNext(b: int, down: bool)
      requires forall d: int <- kids :: if down then b < d else d < b
      ensures b !in kids && forall c: int :: !NextKid(b, down, c)
    {
    }

    // ----- The lookup -----

    /** In kinds 4 and 16 the sub keys stand in order in the first positions. */
    lemma SortedIs()
      requires Shape() && (kind == N4 || kind == N16)
      ensures numChildren <= subKeys.Length == nodes.Length
      ensures forall i | 0 <= i < numChildren ::
                subKeys[i] in kids && kids[subKeys[i]] == nodes[i] && 0 <= subKeys[i] < 256
      ensures forall i, j | 0 <= i < j < numChildren :: subKeys[i] < subKeys[j]
      ensures forall c: int <- kids :: exists i :: 0 <= i < numChildren && subKeys[i] == c
    {
      hide Holds;
      forall c: int <- kids ensures exists i :: 0 <= i < numChildren && subKeys[i] == c {
        assert Holds(subKeys[..], numChildren, c);
        HoldsAt(subKeys[..], numChildren, c);
      }
      AscendingPairs(subKeys[..], numChildren);
    }

    /** The first sub key past b in a scan of a sorted node is the next used byte. */
    lemma NextSorted(i: nat, b: int, down: bool)
      requires Own() <= Repr && Shape() && (kind == N4 || kind == N16) && i < numChildren
               && numChildren <= subKeys.Length
      requires if down then subKeys[i] < b else b < subKeys[i]
      requires if down then forall j | i < j < numChildren :: b <= subKeys[j]
               else forall j | 0 <= j < i :: subKeys[j] <= b
      ensures NextKid(b, down, subKeys[i])
    {
      hide Shape;
      SortedIs();
      forall d: int <- kids ensures if down then d <= subKeys[i] || b <= d else subKeys[i] <= d || d <= b {
        var j :| 0 <= j < numChildren && subKeys[j] == d;
      }
    }

    /** Where b is if it is stored at all, once everything before (or after) position i is known to lie on one side of
        it. */
    lemma SortedGap(i: nat, b: int)
      requires Shape() && (kind == N4 || kind == N16) && i <= numChildren && numChildren <= subKeys.Length
      ensures (forall j | i <= j < numChildren :: b <= subKeys[j]) && (i == 0 || subKeys[i - 1] < b) && b in kids ==>
                i < numChildren && subKeys[i] == b
      ensures (forall j | 0 <= j < i :: subKeys[j] <= b) && (i == numChildren || b < subKeys[i]) && b in kids ==>
                0 < i && subKeys[i - 1] == b
    {
      hide Shape;
      SortedIs();
      if b in kids {
        var j :| 0 <= j < numChildren && subKeys[j] == b;
      }
    }

    lemma NoneBefore(b: int, down: bool)
      requires Shape() && (kind == N4 || kind == N16) && numChildren <= subKeys.Length
      requires if down then forall j | 0 <= j < numChildren :: b <= subKeys[j]
               else forall j | 0 <= j < numChildren :: subKeys[j] <= b
      ensures forall d: int <- kids :: if down then b <= d else d <= b
    {
      hide Shape;
      SortedIs();
      forall d: int <- kids ensures if down then b <= d else d <= b {
        var j :| 0 <= j < numChildren && subKeys[j] == d;
      }
    }

    lemma IsNextKid(b: int, down: bool, c: int)
      requires c in kids && (if down then c < b else b < c)
      requires forall d: int <- kids :: if down then d <= c || b <= d else c <= d || d <= b
      ensures NextKid(b, down, c)
    {
    }

    /** The child a wide node asks first, which had nothing. */
    ghost predicate AskedFirst(h: int, at: nat, down: bool)
      requires Valid()
      reads this, Repr
    {
      && Parts() && h in kids && h in Subs() && Outcome(Subs()[h], at, down, ChildFits(h, at, down), None)
      && (h == Digit(at, nodeLevel) || (Digit(at, nodeLevel) !in kids && NextKid(Digit(at, nodeLevel), down, h)))
    }

    lemma IsAskedFirst(h: int, at: nat, down: bool)
      requires Valid() && Parts() && h in kids && h in Subs()
               && Outcome(Subs()[h], at, down, ChildFits(h, at, down), None)
      requires h == Digit(at, nodeLevel) || (Digit(at, nodeLevel) !in kids && NextKid(Digit(at, nodeLevel), down, h))
      ensures AskedFirst(h, at, down)
    {
    }

    lemma AskedFirstIs(h: int, at: nat, down: bool)
      requires Valid() && AskedFirst(h, at, down)
      ensures Parts() && h in kids && h in Subs() && Outcome(Subs()[h], at, down, ChildFits(h, at, down), None)
      ensures h == Digit(at, nodeLevel) || (Digit(at, nodeLevel) !in kids && NextKid(Digit(at, nodeLevel), down, h))
      ensures if down then h <= Digit(at, nodeLevel) else Digit(at, nodeLevel) <= h
    {
      hide Outcome, ChildFits;
    }

    /** An answer to the greatest or the zero query is right. */
    lemma Certain(c: int, key: nat, down: bool, v: Option<V>)
      requires Valid() && c in kids && Parts() && c in Subs() && ChildFits(c, key, down)
               && Outcome(Subs()[c], key, down, ChildFits(c, key, down), v)
      ensures Nearest(Subs()[c], key, down, v)
    {
      hide Nearest, ChildFits;
    }

    /** The greatest query is at or above everything in a child on the query's side, the zero query at or below. */
    lemma PartOnSide(c: int, at: nat, down: bool)
      requires Valid() && Parts() && c in Subs() && c in kids && OnSide(at, down) && at <= MAX_KEY
      requires Shr(at, nodeLevel + 1) == Prefix() ==>
                 if down then c < Digit(at, nodeLevel) else Digit(at, nodeLevel) < c
      ensures if down then forall k: int <- Subs()[c] :: k <= MAX_KEY else forall k: int <- Subs()[c] :: 0 <= k
    {
      hide Shape, Splits, Shr, Digit, Subs, ChildrenOk;
      Sides(at, down);
      AboveZero(m, Subs(), Prefix(), nodeLevel, c);
      if Shr(at, nodeLevel + 1) == Prefix() {
        SidedPart(Subs(), at, Digit(at, nodeLevel), c);
      } else {
        PartBeyond(m, Subs(), Prefix(), nodeLevel, at, down, c);
      }
    }

    /** The root stands above every query. */
    lemma InRange(key: nat)
      requires nodeLevel <= TOP && Shr(nodeKey, TOP + 1) == 0 && Shr(key, TOP + 1) == 0
      ensures Placed(key, TOP, true) && Placed(key, TOP, false)
              && (nodeLevel == TOP ==> Shr(key, nodeLevel + 1) == Prefix())
    {
      hide Shr;
    }

    lemma ResetOnSide(key: nat, down: bool)
      requires Valid() && key <= MAX_KEY && OnSide(key, down) && nodeLevel <= TOP
      ensures OnSide(if down then MAX_KEY else 0, down)
    {
      hide Shr;
      if down { ShrMonotone(key, MAX_KEY, nodeLevel + 1); } else { LowAllZero(nodeLevel + 1); }
    }

    /** A query beyond the node's range may be replaced by the greatest or the zero query. */
    lemma ResetAnswer(key: nat, down: bool, v: Option<V>)
      requires Valid() && key <= MAX_KEY && OnSide(key, down) && Shr(key, nodeLevel + 1) != Prefix()
      requires FitsAt(if down then MAX_KEY else 0, down)
               && Outcome(m, if down then MAX_KEY else 0, down, FitsAt(if down then MAX_KEY else 0, down), v)
      ensures Outcome(m, key, down, true, v)
    {
      hide Shape, Splits, Shr, Digit, Subs, ChildrenOk, Nearest, FitsAt;
      ValidIs();
      OutsideAll(m, Subs(), Prefix(), nodeLevel, key);
      NonNegative();
      NearestReset(m, key, if down then MAX_KEY else 0, down, v);
      NearestFrom(m, key, down, v);
    }

    lemma NonNegative()
      requires Valid()
      ensures forall k: int <- m :: 0 <= k
    {
      hide Shape, ChildrenOk, Subs, Shr, Digit;
    }

    /** What a wide node stores under a byte. */
    method AtByte(b: nat) returns (slot: Slot<V>)
      requires Shape() && (kind == N48 || kind == N256) && b < 256
      ensures slot != Nil <==> b in kids
      ensures b in kids ==> slot == kids[b]
    {
      if kind == N48 {
        slot := if indexes[b] == -1 then Nil else nodes[indexes[b]];
      } else {
        slot := nodes[b];
      }
    }

    method FloorIn(ghost c: int, slot: Slot<V>, key: nat) returns (v: Option<V>)
      requires Valid() && c in kids && kids[c] == slot && key <= MAX_KEY && ChildPlaced(c, key, true)
               && nodeLevel <= TOP
      ensures Parts() && c in Subs() && Outcome(Subs()[c], key, true, ChildFits(c, key, true), v)
      decreases nodeLevel, 1
    {
      hide Shape, Splits, Shr, Digit, LowAll, Subs, ChildrenOk, Narrow, Nearest, Outcome;
      ValidIs();
      SubsAt(c);
      if nodeLevel == 0 {
        v := Some(slot.v);
        NearestSingle(256 * Prefix() + c, slot.v, key, true);
        NearestFrom(Subs()[c], key, true, v);
      } else {
        v := slot.n.GetFloorValue(key, nodeLevel - 1);
      }
    }

    /** The greatest entry at or below a query, for every query that fits; for others something else. */
    method GetFloorValue(key: nat, level: nat) returns (v: Option<V>)
      requires Valid() && key <= MAX_KEY && nodeLevel <= level <= TOP && Placed(key, level, true)
      ensures Outcome(m, key, true, Fits(key, level, true), v)
      decreases nodeLevel, 5
    {
      hide Shape, Splits, Shr, Digit, LowAll, Subs, ChildrenOk, Valid, Narrow, Nearest, FitsAt, Outcome;
      if level != nodeLevel {
        if Shr(nodeKey, nodeLevel + 1) > Shr(key, nodeLevel + 1) {
          ValidIs();
          OutsideAll(m, Subs(), Prefix(), nodeLevel, key);
          NearestOutside(m, key, true);
          NearestFrom(m, key, true, None);
          return None;
        }
        if Shr(nodeKey, nodeLevel + 1) != Shr(key, nodeLevel + 1) {
          ResetFits(true);
          ResetOnSide(key, true);
          v := FloorAt(MAX_KEY);
          ResetAnswer(key, true, v);
          return;
        }
      }
      v := FloorAt(key);
    }

    method FloorAt(at: nat) returns (v: Option<V>)
      requires Valid() && at <= MAX_KEY && OnSide(at, true) && nodeLevel <= TOP
      ensures Outcome(m, at, true, FitsAt(at, true), v)
      decreases nodeLevel, 4
    {
      hide Shape, Splits, Shr, Digit, LowAll, Subs, ChildrenOk, Valid, Narrow, Nearest, FitsAt, Outcome;
      if kind == N4 || kind == N16 {
        v := FloorSorted(at);
      } else {
        v := FloorWide(at);
      }
    }

    /** The extreme entry of the next child of a sorted node; the one at the query's own byte, if there is one, has
        nothing. */
    method FloorNext(c: int, slot: Slot<V>, at: nat) returns (v: Option<V>)
      requires Valid() && at <= MAX_KEY && OnSide(at, true) && nodeLevel <= TOP && (kind == N4 || kind == N16)
      requires NextKid(Digit(at, nodeLevel), true, c) && kids[c] == slot && Parts()
      requires Digit(at, nodeLevel) in kids ==> AskedFirst(Digit(at, nodeLevel), at, true)
      ensures Outcome(m, at, true, FitsAt(at, true), v)
      decreases nodeLevel, 2
    {
      hide Shape, Splits, Shr, Digit, LowAll, Subs, ChildrenOk, Valid, Narrow, Nearest, FitsAt, ChildFits, ChildPlaced,
           Outcome, OnSide, AskedFirst;
      ghost var b := Digit(at, nodeLevel);
      ResetChild(c, at, true);
      v := FloorIn(c, slot, MAX_KEY);
      Certain(c, MAX_KEY, true, v);
      PartOnSide(c, at, true);
      if b in kids {
        AskedFirstIs(b, at, true);
        SecondAnswer(at, true, b, c, MAX_KEY, v);
      } else {
        NextAnswer(at, true, c, MAX_KEY, v);
      }
    }

    /** The child of a sorted node at the query's own byte. */
    method FloorExact(b: int, slot: Slot<V>, at: nat) returns (v: Option<V>)
      requires Valid() && at <= MAX_KEY && OnSide(at, true) && nodeLevel <= TOP && b == Digit(at, nodeLevel)
               && b in kids && kids[b] == slot
      ensures v.Some? ==> Outcome(m, at, true, FitsAt(at, true), v)
      ensures v.None? ==> AskedFirst(b, at, true)
      decreases nodeLevel, 2
    {
      hide Shape, Splits, Shr, Digit, LowAll, Subs, ChildrenOk, Valid, Narrow, Nearest, FitsAt, ChildFits, ChildPlaced,
           Outcome, OnSide, AskedFirst;
      ChildIsPlaced(b, at, true);
      v := FloorIn(b, slot, at);
      if v.Some? {
        FirstAnswer(at, true, b, v);
      } else {
        IsAskedFirst(b, at, true);
      }
    }

    method FloorSorted(at: nat) returns (v: Option<V>)
      requires Valid() && at <= MAX_KEY && OnSide(at, true) && nodeLevel <= TOP && (kind == N4 || kind == N16)
      ensures Outcome(m, at, true, FitsAt(at, true), v)
      decreases nodeLevel, 3
    {
      hide Shape, Splits, Shr, Digit, LowAll, Subs, ChildrenOk, Valid, Narrow, Nearest, FitsAt, ChildFits, ChildPlaced,
           Outcome, OnSide, NextKid, AskedFirst;
      ValidIs();
      SortedIs();
      var b := Digit(at, nodeLevel);
      var i := numChildren;
      while 0 < i
        invariant 0 <= i <= numChildren <= subKeys.Length == nodes.Length
        invariant forall j | i <= j < numChildren :: b <= subKeys[j]
        invariant i < numChildren && subKeys[i] == b ==> AskedFirst(b, at, true)
      {
        i := i - 1;
        var c := subKeys[i];
        if c == b {
          v := FloorExact(b, nodes[i], at);
          if v.Some? {
            return;
          }
        } else if c < b {
          SortedGap(i + 1, b);
          NextSorted(i, b, true);
          v := FloorNext(c, nodes[i], at);
          return;
        }
      }
      v := None;
      SortedGap(0, b);
      NoneBefore(b, true);
      if b in kids { AskedFirstIs(b, at, true); }
      NoAnswer(at, true, b in kids, b);
    }

    method FloorWide(at: nat) returns (v: Option<V>)
      requires Valid() && at <= MAX_KEY && OnSide(at, true) && nodeLevel <= TOP && (kind == N48 || kind == N256)
      ensures Outcome(m, at, true, FitsAt(at, true), v)
      decreases nodeLevel, 2
    {
      hide Shape, Splits, Shr, Digit, LowAll, Subs, ChildrenOk, Valid, Narrow, Nearest, FitsAt, ChildFits, ChildPlaced,
           Outcome, OnSide, NextKid, AskedFirst;
      ValidIs();
      SubsKeys();
      DigitRange(at, nodeLevel);
      var b := Digit(at, nodeLevel);
      var subKey: int, k := b, at;
      ghost var first: Option<int> := None;
      while 0 <= subKey
        invariant -1 <= subKey <= b && k <= MAX_KEY
        invariant first == None ==> k == at && forall c: int <- kids :: c <= subKey || b < c
        invariant first.Some? ==>
                    k == MAX_KEY && AskedFirst(first.value, at, true) && subKey < first.value
                        && forall c: int <- kids :: c <= subKey || first.value <= c
      {
        var slot := AtByte(subKey);
        if slot != Nil {
          if first == None {
            ChildIsPlaced(subKey, at, true);
            assert subKey == b || (b !in kids && NextKid(b, true, subKey)) by {
              if subKey != b { IsNextKid(b, true, subKey); }
            }
          } else {
            ResetChild(subKey, at, true);
          }
          v := FloorIn(subKey, slot, k);
          if first == None {
            if v.Some? {
              FirstAnswer(at, true, subKey, v);
            } else {
              IsAskedFirst(subKey, at, true);
              first := Some(subKey);
            }
          } else {
            AskedFirstIs(first.value, at, true);
            Certain(subKey, MAX_KEY, true, v);
            PartOnSide(subKey, at, true);
            IsNextKid(first.value, true, subKey);
            SecondAnswer(at, true, first.value, subKey, MAX_KEY, v);
          }
          if v.Some? {
            return;
          }
          k := MAX_KEY;
        }
        subKey := subKey - 1;
      }
      v := None;
      KidBytes();
      if first.Some? { AskedFirstIs(first.value, at, true); }
      NoAnswer(at, true, first.Some?, if first.Some? then first.value else 0);
    }

    method CeilingIn(ghost c: int, slot: Slot<V>, key: nat) returns (v: Option<V>)
      requires Valid() && c in kids && kids[c] == slot && key <= MAX_KEY && ChildPlaced(c, key, false)
               && nodeLevel <= TOP
      ensures Parts() && c in Subs() && Outcome(Subs()[c], key, false, ChildFits(c, key, false), v)
      decreases nodeLevel, 1
    {
      hide Shape, Splits, Shr, Digit, LowAll, Subs, ChildrenOk, Narrow, Nearest, Outcome;
      ValidIs();
      SubsAt(c);
      if nodeLevel == 0 {
        v := Some(slot.v);
        NearestSingle(256 * Prefix() + c, slot.v, key, false);
        NearestFrom(Subs()[c], key, false, v);
      } else {
        v := slot.n.GetCeilingValue(key, nodeLevel - 1);
      }
    }

    /** The least entry at or above a query, for every query that fits; for others something else. */
    method GetCeilingValue(key: nat, level: nat) returns (v: Option<V>)
      requires Valid() && key <= MAX_KEY && nodeLevel <= level <= TOP && Placed(key, level, false)
      ensures Outcome(m, key, false, Fits(key, level, false), v)
      decreases nodeLevel, 5
    {
      hide Shape, Splits, Shr, Digit, LowAll, Subs, ChildrenOk, Valid, Narrow, Nearest, FitsAt, Outcome;
      if level != nodeLevel {
        if Shr(nodeKey, nodeLevel + 1) < Shr(key, nodeLevel + 1) {
          ValidIs();
          OutsideAll(m, Subs(), Prefix(), nodeLevel, key);
          NearestOutside(m, key, false);
          NearestFrom(m, key, false, None);
          return None;
        }
        if Shr(nodeKey, nodeLevel + 1) != Shr(key, nodeLevel + 1) {
          ResetFits(false);
          ResetOnSide(key, false);
          v := CeilingAt(0);
          ResetAnswer(key, false, v);
          return;
        }
      }
      v := CeilingAt(key);
    }

    method CeilingAt(at: nat) returns (v: Option<V>)
      requires Valid() && at <= MAX_KEY && OnSide(at, false) && nodeLevel <= TOP
      ensures Outcome(m, at, false, FitsAt(at, false), v)
      decreases nodeLevel, 4
    {
      hide Shape, Splits, Shr, Digit, LowAll, Subs, ChildrenOk, Valid, Narrow, Nearest, FitsAt, Outcome;
      if kind == N4 || kind == N16 {
        v := CeilingSorted(at);
      } else {
        v := CeilingWide(at);
      }
    }

    /** The extreme entry of the next child of a sorted node; the one at the query's own byte, if there is one, has
        nothing. */
    method CeilingNext(c: int, slot: Slot<V>, at: nat) returns (v: Option<V>)
      requires Valid() && at <= MAX_KEY && OnSide(at, false) && nodeLevel <= TOP && (kind == N4 || kind == N16)
      requires NextKid(Digit(at, nodeLevel), false, c) && kids[c] == slot && Parts()
      requires Digit(at, nodeLevel) in kids ==> AskedFirst(Digit(at, nodeLevel), at, false)
      ensures Outcome(m, at, false, FitsAt(at, false), v)
      decreases nodeLevel, 2
    {
      hide Shape, Splits, Shr, Digit, LowAll, Subs, ChildrenOk, Valid, Narrow, Nearest, FitsAt, ChildFits, ChildPlaced,
           Outcome, OnSide, AskedFirst;
      ghost var b := Digit(at, nodeLevel);
      ResetChild(c, at, false);
      v := CeilingIn(c, slot, 0);
      Certain(c, 0, false, v);
      PartOnSide(c, at, false);
      if b in kids {
        AskedFirstIs(b, at, false);
        SecondAnswer(at, false, b, c, 0, v);
      } else {
        NextAnswer(at, false, c, 0, v);
      }
    }

    /** The child of a sorted node at the query's own byte. */
    method CeilingExact(b: int, slot: Slot<V>, at: nat) returns (v: Option<V>)
      requires Valid() && at <= MAX_KEY && OnSide(at, false) && nodeLevel <= TOP && b == Digit(at, nodeLevel)
               && b in kids && kids[b] == slot
      ensures v.Some? ==> Outcome(m, at, false, FitsAt(at, false), v)
      ensures v.None? ==> AskedFirst(b, at, false)
      decreases nodeLevel, 2
    {
      hide Shape, Splits, Shr, Digit, LowAll, Subs, ChildrenOk, Valid, Narrow, Nearest, FitsAt, ChildFits, ChildPlaced,
           Outcome, OnSide, AskedFirst;
      ChildIsPlaced(b, at, false);
      v := CeilingIn(b, slot, at);
      if v.Some? {
        FirstAnswer(at, false, b, v);
      } else {
        IsAskedFirst(b, at, false);
      }
    }

    method CeilingSorted(at: nat) returns (v: Option<V>)
      requires Valid() && at <= MAX_KEY && OnSide(at, false) && nodeLevel <= TOP && (kind == N4 || kind == N16)
      ensures Outcome(m, at, false, FitsAt(at, false), v)
      decreases nodeLevel, 3
    {
      hide Shape, Splits, Shr, Digit, LowAll, Subs, ChildrenOk, Valid, Narrow, Nearest, FitsAt, ChildFits, ChildPlaced,
           Outcome, OnSide, NextKid, AskedFirst;
      ValidIs();
      SortedIs();
      var b := Digit(at, nodeLevel);
      var i := 0;
      while i < numChildren
        invariant i <= numChildren <= subKeys.Length == nodes.Length
        invariant forall j | 0 <= j < i :: subKeys[j] <= b
        invariant 0 < i && subKeys[i - 1] == b ==> AskedFirst(b, at, false)
      {
        var c := subKeys[i];
        if c == b {
          v := CeilingExact(b, nodes[i], at);
          if v.Some? {
            return;
          }
        } else if c > b {
          SortedGap(i, b);
          NextSorted(i, b, false);
          v := CeilingNext(c, nodes[i], at);
          return;
        }
        i := i + 1;
      }
      v := None;
      SortedGap(i, b);
      NoneBefore(b, false);
      if b in kids { AskedFirstIs(b, at, false); }
      NoAnswer(at, false, b in kids, b);
    }

    method CeilingWide(at: nat) returns (v: Option<V>)
      requires Valid() && at <= MAX_KEY && OnSide(at, false) && nodeLevel <= TOP && (kind == N48 || kind == N256)
      ensures Outcome(m, at, false, FitsAt(at, false), v)
      decreases nodeLevel, 2
    {
      hide Shape, Splits, Shr, Digit, LowAll, Subs, ChildrenOk, Valid, Narrow, Nearest, FitsAt, ChildFits, ChildPlaced,
           Outcome, OnSide, NextKid, AskedFirst;
      ValidIs();
      SubsKeys();
      DigitRange(at, nodeLevel);
      var b := Digit(at, nodeLevel);
      var subKey: int, k := b, at;
      ghost var first: Option<int> := None;
      while subKey < 256
        invariant b <= subKey <= 256 && k <= MAX_KEY
        invariant first == None ==> k == at && forall c: int <- kids :: subKey <= c || c < b
        invariant first.Some? ==>
                    k == 0 && AskedFirst(first.value, at, false) && first.value < subKey
                        && forall c: int <- kids :: subKey <= c || c <= first.value
      {
        var slot := AtByte(subKey);
        if slot != Nil {
          if first == None {
            ChildIsPlaced(subKey, at, false);
            assert subKey == b || (b !in kids && NextKid(b, false, subKey)) by {
              if subKey != b { IsNextKid(b, false, subKey); }
            }
          } else {
            ResetChild(subKey, at, false);
          }
          v := CeilingIn(subKey, slot, k);
          if first == None {
            if v.Some? {
              FirstAnswer(at, false, subKey, v);
            } else {
              IsAskedFirst(subKey, at, false);
              first := Some(subKey);
            }
          } else {
            AskedFirstIs(first.value, at, false);
            Certain(subKey, 0, false, v);
            PartOnSide(subKey, at, false);
            IsNextKid(first.value, false, subKey);
            SecondAnswer(at, false, first.value, subKey, 0, v);
          }
          if v.Some? {
            return;
          }
          k := 0;
        }
        subKey := subKey + 1;
      }
      v := None;
      KidBytes();
      if first.Some? { AskedFirstIs(first.value, at, false); }
      NoAnswer(at, false, first.Some?, if first.Some? then first.value else 0);
    }

    // ----- Listing -----

    /** Positions a scan over the children goes through: the used ones of a sorted node, every byte of a wide one. */
    function Steps(): nat
      reads `numChildren
    {
      if kind == N4 || kind == N16 then numChildren else 256
    }

    function ByteAt(i: nat): int
      requires Shape() && i < Steps()
      reads `numChildren, `freeBitMask, `kids, `owner, subKeys, indexes, nodes
    {
      if kind == N4 || kind == N16 then subKeys[i] else i
    }

    method EntryAt(i: nat) returns (slot: Slot<V>)
      requires Shape() && i < Steps()
      ensures slot != Nil <==> ByteAt(i) in kids
      ensures ByteAt(i) in kids ==> slot == kids[ByteAt(i)]
    {
      hide SortedOk, Shape;
      if kind == N4 || kind == N16 {
        SortedIs();
        NotNil(i);
        slot := nodes[i];
      } else {
        slot := AtByte(i);
      }
    }

    lemma NotNil(i: nat)
      requires Shape() && (kind == N4 || kind == N16) && i < numChildren
      ensures i < nodes.Length && nodes[i] != Nil
    {
      hide Ascending, Holds;
      assert subKeys[..][i] == subKeys[i] && nodes[..][i] == nodes[i];
    }

    /** How far an ascending scan has come before position i, and a descending one once i positions are left. */
    ghost function AscendingBound(i: nat): int
      requires Shape() && i <= Steps()
      reads `numChildren, `freeBitMask, `kids, `owner, subKeys, indexes, nodes
    {
      if i < Steps() then ByteAt(i) else 256
    }

    ghost function DescendingBound(i: nat): int
      requires Shape() && i <= Steps()
      reads `numChildren, `freeBitMask, `kids, `owner, subKeys, indexes, nodes
    {
      if 0 < i then ByteAt(i - 1) else -1
    }

    lemma AscendingStep(i: nat)
      requires Shape() && i < Steps()
      ensures var b := ByteAt(i);
              && (b in kids ==> !Visited(b, AscendingBound(i), false))
              && (forall c: int <- kids :: Visited(c, AscendingBound(i + 1), false) <==>
                    Visited(c, AscendingBound(i), false) || c == b)
    {
      hide Shape;
      if kind == N4 || kind == N16 {
        SortedIs();
        forall c: int <- kids
          ensures Visited(c, AscendingBound(i + 1), false) <==> Visited(c, AscendingBound(i), false) || c == subKeys[i]
        {
          var j :| 0 <= j < numChildren && subKeys[j] == c;
        }
      } else {
        KidBytes();
      }
    }

    lemma DescendingStep(i: nat)
      requires Shape() && 0 < i <= Steps()
      ensures var b := ByteAt(i - 1);
              && (b in kids ==> !Visited(b, DescendingBound(i), true))
              && (forall c: int <- kids :: Visited(c, DescendingBound(i - 1), true) <==>
                    Visited(c, DescendingBound(i), true) || c == b)
    {
      hide Shape;
      if kind == N4 || kind == N16 {
        SortedIs();
        forall c: int <- kids
          ensures Visited(c, DescendingBound(i - 1), true) <==>
                    Visited(c, DescendingBound(i), true) || c == subKeys[i - 1]
        {
          var j :| 0 <= j < numChildren && subKeys[j] == c;
        }
      } else {
        KidBytes();
      }
    }

    lemma KidBytes()
      requires Shape()
      ensures forall c: int <- kids :: 0 <= c < 256
    {
    }

    /** No child is visited before a scan starts, every child is at its end. */
    lemma ScanEnds()
      requires Shape()
      ensures forall c: int <- kids ::
                !Visited(c, AscendingBound(0), false) && Visited(c, AscendingBound(Steps()), false)
      ensures forall c: int <- kids ::
                !Visited(c, DescendingBound(Steps()), true) && Visited(c, DescendingBound(0), true)
    {
      hide Shape;
      KidBytes();
      if kind == N4 || kind == N16 {
        SortedIs();
        forall c: int <- kids
          ensures !Visited(c, AscendingBound(0), false) && !Visited(c, DescendingBound(numChildren), true)
        {
          var j :| 0 <= j < numChildren && subKeys[j] == c;
        }
      }
    }

    /** The first entries of one child. */
    method ListIn(ghost c: int, b: int, slot: Slot<V>, limit: nat, ghost desc: bool, descending: bool)
      returns (s: seq<(int, V)>)
      requires Valid() && c == b && c in kids && kids[c] == slot && 0 < limit && desc == descending
      ensures Parts() && c in Subs() && First(Subs()[c], s, limit, desc)
      decreases nodeLevel, 1
    {
      hide Shape, Splits, Shr, Digit, Subs, ChildrenOk, First;
      ValidIs();
      SubsAt(c);
      if nodeLevel == 0 {
        ShrStep(nodeKey, 0);
        var keyBase := nodeKey / 256 * 256;
        s := [(keyBase + b, slot.v)];
        FirstSingle(keyBase + b, slot.v, limit, desc);
      } else if descending {
        s := slot.n.ForEachDesc(limit);
      } else {
        s := slot.n.ForEach(limit);
      }
    }

    /** Hands the first `limit` entries to the consumer in ascending order. */
    method ForEach(limit: nat) returns (s: seq<(int, V)>)
      requires Valid()
      ensures First(m, s, limit, false)
      decreases nodeLevel, 2
    {
      hide Shape, Splits, Shr, Digit, Subs, ChildrenOk, Valid, First, FirstOfVisited, Visited;
      ValidIs();
      SubsKeys();
      s := [];
      var i := 0;
      ScanEnds();
      NothingVisited(Subs(), m, limit, false, AscendingBound(0));
      while i < Steps() && |s| < limit
        invariant 0 <= i <= Steps() && |s| <= limit
        invariant FirstOfVisited(Subs(), m, s, limit, false, AscendingBound(i))
      {
        var slot := EntryAt(i);
        AscendingStep(i);
        if slot != Nil {
          var b := ByteAt(i);
          var t := ListIn(b, b, slot, limit - |s|, false, false);
          VisitPart(m, Subs(), Prefix(), nodeLevel, s, limit, false, AscendingBound(i), AscendingBound(i + 1), b, t);
          FirstLength(Subs()[b], t, limit - |s|, false);
          s := s + t;
        } else {
          VisitEmpty(Subs(), m, s, limit, false, AscendingBound(i), AscendingBound(i + 1));
        }
        i := i + 1;
      }
      VisitDone(m, Subs(), Prefix(), nodeLevel, s, limit, false, AscendingBound(i));
    }

    /** The same in descending order. */
    method ForEachDesc(limit: nat) returns (s: seq<(int, V)>)
      requires Valid()
      ensures First(m, s, limit, true)
      decreases nodeLevel, 2
    {
      hide Shape, Splits, Shr, Digit, Subs, ChildrenOk, Valid, First, FirstOfVisited, Visited;
      ValidIs();
      SubsKeys();
      s := [];
      var i := Steps();
      ScanEnds();
      NothingVisited(Subs(), m, limit, true, DescendingBound(i));
      while 0 < i && |s| < limit
        invariant 0 <= i <= Steps() && |s| <= limit
        invariant FirstOfVisited(Subs(), m, s, limit, true, DescendingBound(i))
      {
        var slot := EntryAt(i - 1);
        DescendingStep(i);
        if slot != Nil {
          var b := ByteAt(i - 1);
          var t := ListIn(b, b, slot, limit - |s|, true, true);
          VisitPart(m, Subs(), Prefix(), nodeLevel, s, limit, true, DescendingBound(i), DescendingBound(i - 1), b, t);
          FirstLength(Subs()[b], t, limit - |s|, true);
          s := s + t;
        } else {
          VisitEmpty(Subs(), m, s, limit, true, DescendingBound(i), DescendingBound(i - 1));
        }
        i := i - 1;
      }
      VisitDone(m, Subs(), Prefix(), nodeLevel, s, limit, true, DescendingBound(i));
    }

    /** Counts entries; once past the limit it may stop short, so only the smaller of count and limit is exact. */
    method Size(limit: nat) returns (r: nat)
      requires Valid()
      ensures r <= |m| && (r < limit ==> r == |m|)
      decreases nodeLevel, 2
    {
      hide Shape, Splits, Shr, Digit, Subs, ChildrenOk, Valid, Visited, VisitedKeys, Seen;
      ValidIs();
      if nodeLevel == 0 {
        LeafCount();
        return numChildren;
      }
      var numLeft: int, i := limit, 0;
      NoneSeen();
      while i < Steps() && 0 < numLeft
        invariant 0 <= i <= Steps() && numLeft <= limit
        invariant limit - numLeft <= Seen(i)
        invariant 0 < numLeft ==> limit - numLeft == Seen(i)
      {
        var found := CountAt(i, numLeft);
        numLeft := numLeft - found;
        i := i + 1;
      }
      AllSeen(i);
      r := limit - numLeft;
    }

    /** The number of entries in the children before position i. */
    ghost function Seen(i: nat): nat
      requires Parts() && i <= Steps()
      reads this, Repr
    {
      |VisitedKeys(Subs(), m, AscendingBound(i), false)|
    }

    lemma NoneSeen()
      requires Parts()
      ensures Seen(0) == 0
    {
      hide Shape, Splits, Shr, Digit, Subs, ChildrenOk, Visited, VisitedKeys;
      SubsKeys();
      ScanEnds();
      NoKeysVisited(Subs(), m, false, AscendingBound(0));
    }

    lemma AllSeen(i: nat)
      requires Parts() && i <= Steps()
      ensures Seen(i) <= |m| && (i == Steps() ==> Seen(i) == |m|)
    {
      hide Shape, Splits, Shr, Digit, Subs, ChildrenOk, Visited, VisitedKeys;
      SubsKeys();
      ScanEnds();
      CountDone(m, Subs(), Prefix(), nodeLevel, false, AscendingBound(i));
    }

    /** Counts the entries of the child at a position, if there is one. */
    method CountAt(i: nat, numLeft: nat) returns (found: nat)
      requires Valid() && 0 < nodeLevel && i < Steps()
      ensures Parts() && found <= Seen(i + 1) - Seen(i) && (found < numLeft ==> found == Seen(i + 1) - Seen(i))
      decreases nodeLevel, 1
    {
      hide Shape, Splits, Shr, Digit, Subs, ChildrenOk, Valid, Visited, VisitedKeys;
      ValidIs();
      SubsKeys();
      var slot := EntryAt(i);
      AscendingStep(i);
      if slot != Nil {
        ghost var b := ByteAt(i);
        SubsAt(b);
        CountPart(m, Subs(), Prefix(), nodeLevel, false, AscendingBound(i), AscendingBound(i + 1), b);
        found := slot.n.Size(numLeft);
      } else {
        CountEmpty(Subs(), m, false, AscendingBound(i), AscendingBound(i + 1));
        found := 0;
      }
    }

    lemma LeafCount()
      requires Valid() && nodeLevel == 0
      ensures numChildren == |m|
    {
      hide Shape, Splits, Shr, Digit, Subs, ChildrenOk;
      ValidIs();
      ShapeIs();
      SubsKeys();
      forall c: int <- kids ensures Subs()[c].Keys == {256 * Prefix() + c} { SubsAt(c); }
      LeafSize(m, Subs(), Prefix());
    }
  }
}
