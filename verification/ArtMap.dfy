/** The sorted map over the radix tree. */
module ArtMap {
  import opened Wrappers
  import opened Keys
  import opened ArtOrder
  import opened ArtNodes
  import opened ArtShape

  class LongAdaptiveRadixTreeMap<V> {
    var root: ArtNode?<V>
    ghost var m: map<int, V>
    ghost var Repr: set<object>

    ghost predicate Valid()
      reads this, Repr
      ensures Valid() ==> this in Repr
    {
      && this in Repr
      && (root == null ==> m == map[] && Repr == {this})
      && (root != null ==>
            && root in Repr && Repr == {this} + root.Repr && this !in root.Repr && root.Valid() && root.m == m
               && root.nodeLevel <= TOP && Shr(root.nodeKey, TOP + 1) == 0)
    }

    constructor ()
      ensures Valid() && m == map[] && Repr == {this}
    {
      root := null;
      m := map[];
      Repr := {this};
    }

    method Get(key: nat) returns (v: Option<V>)
      requires Valid() && key <= MAX_KEY
      ensures v == if key in m then Some(m[key]) else None
    {
      hide Shr;
      ShrZero(key);
      if root == null {
        return None;
      }
      v := root.GetValue(key, TOP);
    }

    method Put(key: nat, value: V)
      requires Valid() && key <= MAX_KEY
      modifies Repr
      ensures Valid() && fresh(Repr - old(Repr)) && m == old(m)[key as int := value]
    {
      hide Shr, ArtNode.Valid, ArtNode.Own;
      if root == null {
        root := NewRoot(key, value);
      } else {
        root := GrownRoot(key, value);
      }
      m := m[key as int := value];
      Repr := {this} + root.Repr;
    }

    method NewRoot(key: nat, value: V) returns (node: ArtNode<V>)
      requires key <= MAX_KEY
      ensures node.Valid() && fresh(node.Repr) && node in node.Repr && node.m == map[key as int := value]
      ensures node.nodeLevel <= TOP && Shr(node.nodeKey, TOP + 1) == 0
    {
      hide Shr, ArtNode.Valid;
      ShrZero(key);
      node := new ArtNode<V>.Empty(N4);
      node.InitFirstKey(key, value);
    }

    method GrownRoot(key: nat, value: V) returns (node: ArtNode<V>)
      requires Valid() && key <= MAX_KEY && root != null
      modifies root.Repr
      ensures node.Valid() && fresh(node.Repr - old(root.Repr)) && node in node.Repr
              && node.m == old(m)[key as int := value]
      ensures node.nodeLevel <= TOP && Shr(node.nodeKey, TOP + 1) == 0
    {
      hide Shr, ArtNode.Valid;
      ShrZero(key);
      node := root;
      var upSizedNode := root.Put(key, TOP, value);
      if upSizedNode != null {
        node := upSizedNode;
      }
    }

    method Remove(key: nat)
      requires Valid() && key <= MAX_KEY
      modifies Repr
      ensures Valid() && fresh(Repr - old(Repr)) && m == old(m) - {key}
    {
      hide Shr, ArtNode.Valid;
      ShrZero(key);
      if root != null {
        var downSizeNode := root.Remove(key, TOP);
        if downSizeNode != root {
          root := downSizeNode;
        }
      }
      m := m - {key};
      Repr := if root == null then {this} else {this} + root.Repr;
    }

    method Clear()
      requires Valid()
      modifies this
      ensures Valid() && m == map[] && Repr <= old(Repr)
    {
      root := null;
      m := map[];
      Repr := {this};
    }

    /** Only nodes of kinds 4 and 16. */
    ghost predicate Narrow()
      requires Valid()
      reads this, Repr
    {
      root == null || root.Narrow()
    }

    /** When the lookup from a query key finds its nearest entry. */
    ghost predicate Answers(query: nat, down: bool)
      requires Valid()
      reads this, Repr
    {
      root == null || root.Fits(query, TOP, down)
    }

    /** It does beside every key that is present, and everywhere in a narrow tree. */
    lemma PresentAnswers(key: nat, down: bool)
      requires Valid() && key <= MAX_KEY && (key in m || Narrow()) && if down then 0 < key else key < MAX_KEY
      ensures Answers(if down then key - 1 else key + 1, down)
    {
      hide Shr, ArtNode.Valid, ArtNode.FitsAt, ArtNode.Narrow;
      if root != null {
        var query := if down then key - 1 else key + 1;
        ShrZero(query);
        root.InRange(query);
        if root.nodeLevel == TOP || Shr(query, root.nodeLevel + 1) == root.Prefix() {
          if Narrow() { root.NarrowFits(query, down); } else { root.PresentFits(query, down); }
        }
      }
    }

    /** The entry at the strict successor of a key: right for every key that is present, for all keys of a narrow tree,
        and otherwise, where answers can be told apart, exactly when the lookup from the next key fits the tree. */
    method GetHigherValue(key: nat) returns (v: Option<V>)
      requires Valid() && key <= MAX_KEY
      ensures key < MAX_KEY && (key in m || Narrow()) ==> Nearest(m, key + 1, false, v)
      ensures key < MAX_KEY ==> Outcome(m, key + 1, false, Answers(key + 1, false), v)
      ensures key == MAX_KEY ==> v == None
    {
      hide Shr, ArtNode.Valid, Nearest, ArtNode.Fits, ArtNode.Narrow;
      if root == null || key == MAX_KEY {
        if root == null { NothingNearest(m, key + 1, false); NearestFrom(m, key + 1, false, None); }
        return None;
      }
      ShrZero(key + 1);
      root.InRange(key + 1);
      v := root.GetCeilingValue(key + 1, TOP);
      if key in m || Narrow() { PresentAnswers(key, false); }
    }

    /** The entry at the strict predecessor. */
    method GetLowerValue(key: nat) returns (v: Option<V>)
      requires Valid() && key <= MAX_KEY
      ensures 0 < key && (key in m || Narrow()) ==> Nearest(m, key - 1, true, v)
      ensures 0 < key ==> Outcome(m, key - 1, true, Answers(key - 1, true), v)
      ensures key == 0 ==> v == None
    {
      hide Shr, ArtNode.Valid, Nearest, ArtNode.Fits, ArtNode.Narrow;
      if root == null || key == 0 {
        if root == null { NothingNearest(m, key - 1, true); NearestFrom(m, key - 1, true, None); }
        return None;
      }
      ShrZero(key - 1);
      root.InRange(key - 1);
      v := root.GetFloorValue(key - 1, TOP);
      if key in m || Narrow() { PresentAnswers(key, true); }
    }

    /** Between the last of the spaced keys and 5124 the lookup does not fit. */
    static lemma GapIsMissed(tree: LongAdaptiveRadixTreeMap<int>)
      requires tree.Valid() && Spaced(tree.m) && forall k: int <- tree.m :: tree.m[k] == k
      ensures !tree.Answers(5123, true) && Distinct(tree.m) && Nearest(tree.m, 5123, true, Some(4101))
    {
      hide ArtNode.Valid, ArtNode.FitsAt, Shr;
      assert 4101 in tree.m;
      assert NearestAt(tree.m, 5123, true, 4101);
      tree.root.SpacedShape();
      tree.root.WideGapExample();
      SmallKey(5123);
    }

    /** Put one after another, the spaced keys make a tree in which the entry below 5124 is that of 4101 and is not
        found. */
    static method WideGap() returns (tree: LongAdaptiveRadixTreeMap<int>, v: Option<int>)
      ensures tree.Valid() && Spaced(tree.m) && Nearest(tree.m, 5123, true, Some(4101)) && v != Some(4101)
    {
      hide Shr, ArtNode.Valid, ArtNode.Fits, ArtNode.FitsAt, Nearest;
      tree := new LongAdaptiveRadixTreeMap<int>();
      for i := 0 to 17
        invariant tree.Valid() && fresh(tree.Repr) && forall k: int :: k in tree.m <==>
                    0 <= k && k % 256 == 5 && k / 256 < i
        invariant forall k: int <- tree.m :: tree.m[k] == k
      {
        tree.Put(256 * i + 5, 256 * i + 5);
      }
      GapIsMissed(tree);
      v := tree.GetLowerValue(5124);
    }

    method ForEach(limit: nat) returns (s: seq<(int, V)>)
      requires Valid()
      ensures First(m, s, limit, false)
    {
      if root == null {
        return [];
      }
      s := root.ForEach(limit);
    }

    method ForEachDesc(limit: nat) returns (s: seq<(int, V)>)
      requires Valid()
      ensures First(m, s, limit, true)
    {
      if root == null {
        return [];
      }
      s := root.ForEachDesc(limit);
    }

    method Size(limit: nat) returns (r: nat)
      requires Valid()
      ensures r == if |m| <= limit then |m| else limit
    {
      if root == null {
        return 0;
      }
      r := root.Size(limit);
      r := if limit < r then limit else r;
    }
  }
}
