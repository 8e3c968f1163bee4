/** How the four node kinds store a set of children in their arrays, as facts about
    the arrays' contents. `kids` maps each used sub key to what is stored under it. */
module ArtShape {
  import opened BitMask

  datatype Kind = N4 | N16 | N48 | N256

  function Capacity(k: Kind): (c: nat)
  {
    match k case N4 => 4 case N16 => 16 case N48 => 48 case N256 => 256
  }

  /** Fewest children of each kind: one more than the size at which it is replaced by the next smaller kind. */
  function Fewest(k: Kind): (c: nat)
  {
    match k case N4 => 1 case N16 => 4 case N48 => 13 case N256 => 38
  }

  /** Every used sub key is a byte and holds something. */
  ghost predicate Bytes<T>(kids: map<int, T>, nil: T) {
    forall b: int <- kids :: 0 <= b < 256 && kids[b] != nil
  }

  /** Kinds 4 and 16: sub keys ascending in the first n positions, nothing after them. */
  ghost predicate SortedOk<T>(keys: seq<int>, slots: seq<T>, n: nat, kids: map<int, T>, nil: T) {
    && |keys| == |slots| && n == |kids| <= |keys|
    && Bytes(kids, nil)
    && (forall i | 0 <= i < n :: keys[i] in kids && kids[keys[i]] == slots[i])
    && Ascending(keys, n)
    && (forall b: int <- kids :: Holds(keys, n, b))
    && (forall i | n <= i < |slots| :: slots[i] == nil)
  }

  ghost predicate Ascending(keys: seq<int>, n: nat)
    requires n <= |keys|
  {
    forall i, j | 0 <= i < j < n :: keys[i] < keys[j]
  }

  ghost predicate Holds(keys: seq<int>, n: nat, b: int)
    requires n <= |keys|
  {
    exists i | 0 <= i < n :: keys[i] == b
  }

  /** Kind 48: an index per byte, a used-slot mask; owner is the inverse of the index. */
  ghost predicate IndexedOk<T>(indexes: seq<int>, slots: seq<T>, mask: nat, n: nat, kids: map<int, T>,
                               owner: map<int,
                               int>, nil: T) {
    && |indexes| == 256 && |slots| == 48 && n == |kids| == |owner|
    && Bytes(kids, nil)
    && (forall b | 0 <= b < 256 :: b in kids <==> indexes[b] != -1)
    && (forall b: int <- kids ::
          0 <= indexes[b] < 48 && indexes[b] in owner && owner[indexes[b]] == b && slots[indexes[b]] == kids[b])
    && (forall i: int <- owner :: 0 <= i < 48 && owner[i] in kids && indexes[owner[i]] == i)
    && (forall i: nat :: Bit(mask, i) <==> i in owner)
    && (forall i | 0 <= i < 48 && i !in owner :: slots[i] == nil)
  }

  /** Kind 256: one slot per byte. */
  ghost predicate DirectOk<T>(slots: seq<T>, n: nat, kids: map<int, T>, nil: T) {
    && |slots| == 256 && n == |kids|
    && Bytes(kids, nil)
    && (forall b | 0 <= b < 256 :: if b in kids then slots[b] == kids[b] else slots[b] == nil)
  }

  /** s' starts with the first n of s and x slipped in at pos. */
  ghost predicate Inserted<T>(s: seq<T>, pos: nat, n: nat, x: T, s': seq<T>) {
    && pos <= n <= |s| && n < |s'|
    && (forall i {:trigger s'[i]} | 0 <= i < pos :: s'[i] == s[i])
    && s'[pos] == x
    && (forall i {:trigger s'[i]} | pos < i <= n :: s'[i] == s[i - 1])
  }

  /** s' starts with the first n of s without position pos. */
  ghost predicate Deleted<T>(s: seq<T>, pos: nat, n: nat, s': seq<T>) {
    && pos < n <= |s| && n - 1 <= |s'|
    && (forall i {:trigger s'[i]} | 0 <= i < pos :: s'[i] == s[i])
    && (forall i {:trigger s'[i]} | pos <= i < n - 1 :: s'[i] == s[i + 1])
  }

  lemma InsertedAt<T>(s: seq<T>, pos: nat, n: nat, x: T, s': seq<T>, i: nat)
    requires Inserted(s, pos, n, x, s') && i <= n
    ensures s'[i] == if i < pos then s[i] else if i == pos then x else s[i - 1]
  {
  }

  lemma DeletedAt<T>(s: seq<T>, pos: nat, n: nat, s': seq<T>, i: nat)
    requires Deleted(s, pos, n, s') && i < n - 1
    ensures s'[i] == if i < pos then s[i] else s[i + 1]
  {
  }

  lemma SortedInsert<T>(keys: seq<int>, slots: seq<T>, n: nat, kids: map<int, T>, nil: T, pos: nat, b: int, x: T,
                        keys': seq<int>, slots': seq<T>)
    requires SortedOk(keys, slots, n, kids, nil) && 0 <= b < 256 && b !in kids && x != nil
    requires pos <= n && (forall i | 0 <= i < pos :: keys[i] < b) && (forall i | pos <= i < n :: b < keys[i])
    requires Inserted(keys, pos, n, b, keys') && Inserted(slots, pos, n, x, slots')
    requires |keys'| == |slots'| && forall i | n < i < |slots'| :: slots'[i] == nil
    ensures SortedOk(keys', slots', n + 1, kids[b := x], nil)
  {
    hide Ascending, Holds, Inserted;
    assert n < |keys'| by { InsertedLength(keys, pos, n, b, keys'); }
    assert Ascending(keys', n + 1) by { AscendingInserted(keys, pos, n, b, keys'); }
    var kids' := kids[b := x];
    forall c: int <- kids' ensures Holds(keys', n + 1, c) {
      if c == b {
        HoldsNew(keys, pos, n, b, keys');
      } else {
        HoldsInserted(keys, pos, n, b, keys', c);
      }
    }
    forall i | 0 <= i < n + 1 ensures keys'[i] in kids' && kids'[keys'[i]] == slots'[i] {
      InsertedAt(keys, pos, n, b, keys', i);
      InsertedAt(slots, pos, n, x, slots', i);
    }
  }

  lemma InsertedLength<T>(s: seq<T>, pos: nat, n: nat, x: T, s': seq<T>)
    requires Inserted(s, pos, n, x, s')
    ensures n < |s'|
  {
  }

  lemma AscendingInserted(keys: seq<int>, pos: nat, n: nat, b: int, keys': seq<int>)
    requires Inserted(keys, pos, n, b, keys') && Ascending(keys, n)
    requires (forall i | 0 <= i < pos :: keys[i] < b) && (forall i | pos <= i < n :: b < keys[i])
    ensures Ascending(keys', n + 1)
  {
  }

  lemma HoldsNew(keys: seq<int>, pos: nat, n: nat, b: int, keys': seq<int>)
    requires Inserted(keys, pos, n, b, keys')
    ensures Holds(keys', n + 1, b)
  {
    assert keys'[pos] == b;
  }

  lemma HoldsInserted(keys: seq<int>, pos: nat, n: nat, b: int, keys': seq<int>, c: int)
    requires Inserted(keys, pos, n, b, keys') && Holds(keys, n, c)
    ensures Holds(keys', n + 1, c)
  {
    var i :| 0 <= i < n && keys[i] == c;
    assert keys'[if i < pos then i else i + 1] == c;
  }

  /** A sub key that would have to sit between two neighbours is not stored. */
  lemma SortedAbsent<T>(keys: seq<int>, slots: seq<T>, n: nat, kids: map<int, T>, nil: T, pos: nat, b: int)
    requires SortedOk(keys, slots, n, kids, nil) && pos <= n
    requires (forall i | 0 <= i < pos :: keys[i] < b) && (pos < n ==> b < keys[pos])
    ensures b !in kids && forall i | pos <= i < n :: b < keys[i]
  {
    assert b in kids ==> Holds(keys, n, b);
  }

  lemma SortedReplace<T>(keys: seq<int>, slots: seq<T>, n: nat, kids: map<int, T>, nil: T, pos: nat, x: T)
    requires SortedOk(keys, slots, n, kids, nil) && pos < n && x != nil
    ensures SortedOk(keys, slots[pos := x], n, kids[keys[pos] := x], nil)
  {
    assert |kids[keys[pos] := x]| == |kids|;
  }

  lemma SortedDelete<T>(keys: seq<int>, slots: seq<T>, n: nat, kids: map<int, T>, nil: T, pos: nat, keys': seq<int>,
                        slots': seq<T>)
    requires SortedOk(keys, slots, n, kids, nil) && pos < n
    requires Deleted(keys, pos, n, keys') && Deleted(slots, pos, n, slots')
    requires |keys'| == |slots'| && forall i | n - 1 <= i < |slots'| :: slots'[i] == nil
    ensures SortedOk(keys', slots', n - 1, kids - {keys[pos]}, nil)
  {
    hide Ascending, Holds, Deleted;
    assert n - 1 <= |keys'| by { DeletedLength(keys, pos, n, keys'); }
    var kids' := kids - {keys[pos]};
    MinusOne(kids, keys[pos]);
    assert Ascending(keys', n - 1) by { AscendingDeleted(keys, pos, n, keys'); }
    forall c: int <- kids' ensures Holds(keys', n - 1, c) {
      HoldsDeleted(keys, pos, n, keys', c);
    }
    forall i | 0 <= i < n - 1 ensures keys'[i] in kids' && kids'[keys'[i]] == slots'[i] {
      DeletedAt(keys, pos, n, keys', i);
      DeletedAt(slots, pos, n, slots', i);
      AscendingAt(keys, n, pos, if i < pos then i else i + 1);
    }
  }

  lemma DeletedLength<T>(s: seq<T>, pos: nat, n: nat, s': seq<T>)
    requires Deleted(s, pos, n, s')
    ensures n - 1 <= |s'|
  {
  }

  lemma AscendingAt(keys: seq<int>, n: nat, i: nat, j: nat)
    requires n <= |keys| && Ascending(keys, n) && i < n && j < n && i != j
    ensures keys[i] != keys[j]
  {
  }

  lemma AscendingDeleted(keys: seq<int>, pos: nat, n: nat, keys': seq<int>)
    requires Deleted(keys, pos, n, keys') && Ascending(keys, n)
    ensures Ascending(keys', n - 1)
  {
  }

  lemma HoldsDeleted(keys: seq<int>, pos: nat, n: nat, keys': seq<int>, c: int)
    requires Deleted(keys, pos, n, keys') && Holds(keys, n, c) && c != keys[pos]
    ensures Holds(keys', n - 1, c)
  {
    var i :| 0 <= i < n && keys[i] == c;
    assert keys'[if i < pos then i else i - 1] == c;
  }

  lemma MinusOne<T>(kids: map<int, T>, b: int)
    requires b in kids
    ensures |kids - {b}| == |kids| - 1
  {
    assert kids == (kids - {b})[b := kids[b]];
  }

  lemma IndexedInsert<T>(indexes: seq<int>, slots: seq<T>, mask: nat, n: nat, kids: map<int, T>, owner: map<int, int>,
                         nil: T, b: int, x: T)
    requires IndexedOk(indexes, slots, mask, n, kids, owner, nil) && n < 48
    requires 0 <= b < 256 && b !in kids && x != nil
    ensures LowestClear(mask) < 48
    ensures var p := LowestClear(mask);
            IndexedOk(indexes[b := p], slots[p := x], Or(mask, p), n + 1, kids[b := x], owner[p := b], nil)
  {
    var p := LowestClear(mask);
    LowestClearIsClear(mask);
    FreeSlotExists(owner, p);
    forall j: nat ensures Bit(Or(mask, p), j) <==> p == j || Bit(mask, j) { BitOr(mask, p, j); }
  }

  lemma IndexedReplace<T>(indexes: seq<int>, slots: seq<T>, mask: nat, n: nat, kids: map<int, T>, owner: map<int, int>,
                          nil: T, b: int, x: T)
    requires IndexedOk(indexes, slots, mask, n, kids, owner, nil) && b in kids && x != nil
    ensures IndexedOk(indexes, slots[indexes[b] := x], mask, n, kids[b := x], owner, nil)
  {
    assert |kids[b := x]| == |kids|;
  }

  lemma IndexedDelete<T>(indexes: seq<int>, slots: seq<T>, mask: nat, n: nat, kids: map<int, T>, owner: map<int, int>,
                         nil: T, b: int)
    requires IndexedOk(indexes, slots, mask, n, kids, owner, nil) && b in kids
    ensures var p := indexes[b];
            IndexedOk(indexes[b := -1], slots[p := nil], AndNot(mask, p), n - 1, kids - {b}, owner - {p}, nil)
  {
    var p: nat := indexes[b];
    MinusOne(kids, b);
    MinusOne(owner, p);
    forall j: nat ensures Bit(AndNot(mask, p), j) <==> p != j && Bit(mask, j) { BitAndNot(mask, p, j); }
  }

  lemma DirectInsert<T>(slots: seq<T>, n: nat, kids: map<int, T>, nil: T, b: int, x: T)
    requires DirectOk(slots, n, kids, nil) && 0 <= b < 256 && x != nil
    ensures DirectOk(slots[b := x], if b in kids then n else n + 1, kids[b := x], nil)
  {
  }

  lemma DirectDelete<T>(slots: seq<T>, n: nat, kids: map<int, T>, nil: T, b: int)
    requires DirectOk(slots, n, kids, nil) && b in kids
    ensures DirectOk(slots[b := nil], n - 1, kids - {b}, nil)
  {
    MinusOne(kids, b);
  }

  /** Fewer than 48 used slots leave a free one below 48. */
  lemma FreeSlotExists(owner: map<int, int>, p: nat)
    requires |owner| < 48 && forall j: nat | j < p :: j in owner
    ensures p < 48
  {
    if p >= 48 {
      RangeSize(48, owner.Keys);
    }
  }

  lemma {:induction false} RangeSize(n: nat, s: set<int>)
    requires forall j: nat | j < n :: j in s
    ensures n <= |s|
  {
    if n > 0 {
      RangeSize(n - 1, s - {n - 1});
    }
  }

  /** Copying the used prefix into arrays of another size keeps what is stored. */
  lemma SortedCopy<T>(keys: seq<int>, slots: seq<T>, n: nat, kids: map<int, T>, nil: T, keys': seq<int>, slots': seq<T>)
    requires SortedOk(keys, slots, n, kids, nil)
    requires n <= |keys'| == |slots'| && forall i | 0 <= i < n :: keys'[i] == keys[i] && slots'[i] == slots[i]
    requires forall i | n <= i < |slots'| :: slots'[i] == nil
    ensures SortedOk(keys', slots', n, kids, nil)
  {
    forall b: int <- kids ensures Holds(keys', n, b) {
      assert Holds(keys, n, b);
    }
  }

  /** A set of distinct children as large as the whole is the whole. */
  lemma AllSeen<T>(seen: set<int>, kids: map<int, T>)
    requires seen <= kids.Keys && |kids| <= |seen|
    ensures seen == kids.Keys
  {
    var rest := kids.Keys - seen;
    assert kids.Keys == seen + rest && |kids.Keys| == |seen| + |rest|;
  }

  /** An index array over the first n keys, with one more key b stored after them. */
  ghost predicate IndexCopy<T>(keys: seq<int>, slots: seq<T>, n: nat, b: int, x: T, nil: T, indexes: seq<int>,
                               slots': seq<T>) {
    && n < 48 && n <= |keys| == |slots| && |indexes| == 256 && |slots'| == 48 && 0 <= b < 256
    && (forall c | 0 <= c < 256 && c != b :: indexes[c] == -1 || (0 <= indexes[c] < n && keys[indexes[c]] == c))
    && (forall i | 0 <= i < n :: 0 <= keys[i] < 256 && indexes[keys[i]] == i)
    && (forall i | 0 <= i < n :: slots'[i] == slots[i])
    && indexes[b] == n && slots'[n] == x && forall i | n < i < 48 :: slots'[i] == nil
  }

  ghost function OwnerOf(keys: seq<int>, n: nat, b: int): map<int, int>
    requires n <= |keys|
  {
    map i | 0 <= i <= n :: if i < n then keys[i] else b
  }

  /** The index array built from a sorted node with one more child appended. */
  lemma IndexedFromSorted<T>(keys: seq<int>, slots: seq<T>, n: nat, kids: map<int, T>, nil: T, b: int, x: T,
                             indexes: seq<int>, slots': seq<T>, owner: map<int, int>)
    requires SortedOk(keys, slots, n, kids, nil) && b !in kids && x != nil
    requires IndexCopy(keys, slots, n, b, x, nil, indexes, slots')
    requires owner == OwnerOf(keys, n, b)
    ensures IndexedOk(indexes, slots', Ones(n + 1), n + 1, kids[b := x], owner, nil)
  {
    forall i: nat ensures Bit(Ones(n + 1), i) <==> i in owner { BitOnes(n + 1, i); }
    OwnerSize(n + 1, owner);
    forall c: int <- kids ensures indexes[c] != -1 && kids[c] == slots'[indexes[c]] { assert Holds(keys, n, c); }
  }

  lemma OwnerSize(n: nat, owner: map<int, int>)
    requires forall i :: i in owner <==> 0 <= i < n
    ensures |owner| == n
  {
    RangeCard(n, owner.Keys);
  }

  lemma {:induction false} RangeCard(n: nat, s: set<int>)
    requires forall i :: i in s <==> 0 <= i < n
    ensures |s| == n
  {
    if n == 0 {
      assert forall i :: i in s ==> false;
      assert s == {};
    } else {
      RangeCard(n - 1, s - {n - 1});
    }
  }

  lemma SortedKeysOutside<T>(keys: seq<int>, slots: seq<T>, n: nat, kids: map<int, T>, nil: T, b: int)
    requires SortedOk(keys, slots, n, kids, nil) && b !in kids
    ensures |keys| == |slots| && n <= |keys| && (forall i | 0 <= i < n :: 0 <= keys[i] < 256 && keys[i] != b)
    ensures forall i | n <= i < |slots| :: slots[i] == nil
    ensures Ascending(keys, n)
  {
  }

  lemma SortedTail<T>(keys: seq<int>, slots: seq<T>, n: nat, kids: map<int, T>, nil: T)
    requires SortedOk(keys, slots, n, kids, nil)
    ensures |keys| == |slots| && n <= |keys| && forall i | n <= i < |slots| :: slots[i] == nil
  {
  }

  /** A slot per byte, read off an index array with one more child added. */
  lemma DirectFromIndexed<T>(indexes: seq<int>, slots: seq<T>, mask: nat, n: nat, kids: map<int, T>,
                             owner: map<int,
                             int>, nil: T, b: int, x: T, slots': seq<T>)
    requires IndexedOk(indexes, slots, mask, n, kids, owner, nil) && 0 <= b < 256 && b !in kids && x != nil
    requires |slots'| == 256 && slots'[b] == x
    requires forall c | 0 <= c < 256 && c != b && indexes[c] == -1 :: slots'[c] == nil
    requires forall c | 0 <= c < 256 && c != b && 0 <= indexes[c] < 48 :: slots'[c] == slots[indexes[c]]
    ensures DirectOk(slots', n + 1, kids[b := x], nil)
  {
  }

  /** A scan over the bytes below i has met `seen`, idx of the children, and stored them in order. */
  ghost predicate ScanSorted<T>(keys: seq<int>, slots: seq<T>, idx: nat, i: nat, kids: map<int, T>, nil: T,
                                seen: set<int>) {
    && idx <= |keys| == |slots| && |seen| == idx && seen <= kids.Keys
    && (forall c: int <- seen :: c < i && Holds(keys, idx, c))
    && (forall c: int <- kids :: c < i ==> c in seen)
    && Ascending(keys, idx)
    && (forall j | 0 <= j < idx :: keys[j] in kids && keys[j] < i && slots[j] == kids[keys[j]])
    && (forall j | idx <= j < |slots| :: slots[j] == nil)
  }

  lemma ScanSortedStep<T>(keys: seq<int>, slots: seq<T>, idx: nat, i: nat, kids: map<int, T>, nil: T, seen: set<int>)
    requires ScanSorted(keys, slots, idx, i, kids, nil, seen) && idx < |keys| && i in kids
    ensures ScanSorted(keys[idx := i], slots[idx := kids[i]], idx + 1, i + 1, kids, nil, seen + {i})
  {
    hide Holds, Ascending;
    forall c: int <- seen + {i} ensures Holds(keys[idx := i], idx + 1, c) { HoldsAppended(keys, idx, i, c); }
    AscendingAppended(keys, idx, i);
  }

  lemma HoldsAppended(keys: seq<int>, n: nat, x: int, c: int)
    requires n < |keys| && (c == x || Holds(keys, n, c))
    ensures Holds(keys[n := x], n + 1, c)
  {
    if c == x {
      assert keys[n := x][n] == c;
    } else {
      var j :| 0 <= j < n && keys[j] == c;
      assert keys[n := x][j] == c;
    }
  }

  lemma AscendingAppended(keys: seq<int>, n: nat, x: int)
    requires n < |keys| && Ascending(keys, n) && forall j | 0 <= j < n :: keys[j] < x
    ensures Ascending(keys[n := x], n + 1)
  {
  }

  lemma ScanSortedSkip<T>(keys: seq<int>, slots: seq<T>, idx: nat, i: nat, kids: map<int, T>, nil: T, seen: set<int>)
    requires ScanSorted(keys, slots, idx, i, kids, nil, seen) && i !in kids
    ensures ScanSorted(keys, slots, idx, i + 1, kids, nil, seen)
  {
  }

  /** The scan stops at the last byte or once it has met every child: either way it met them all. */
  lemma ScanSortedDone<T>(keys: seq<int>, slots: seq<T>, idx: nat, i: nat, kids: map<int, T>, nil: T, seen: set<int>)
    requires ScanSorted(keys, slots, idx, i, kids, nil, seen) && Bytes(kids, nil) && (i == 256 || idx == |kids|)
    ensures SortedOk(keys, slots, |kids|, kids, nil)
  {
    hide Ascending, Holds;
    if i == 256 {
      assert forall c :: c in kids.Keys ==> c in seen;
      assert kids.Keys <= seen;
    } else {
      AllSeen(seen, kids);
    }
    assert seen == kids.Keys;
    assert Bytes(kids, nil);
  }

  /** The same scan filling an index array. */
  ghost predicate ScanIndexed<T>(indexes: seq<int>, slots: seq<T>, owner: map<int, int>, idx: nat, i: nat,
                                 kids: map<int, T>, nil: T, seen: set<int>) {
    && idx <= 48 == |slots| && |indexes| == 256 && i <= 256
    && |seen| == idx && seen <= kids.Keys
    && (forall c: int <- kids :: c < i ==> c in seen)
    && (forall c: int <- seen :: 0 <= c < i)
    && (forall c | 0 <= c < 256 :: indexes[c] != -1 <==> c in seen)
    && (forall c: int <- seen ::
          0 <= indexes[c] < idx && indexes[c] in owner && owner[indexes[c]] == c && slots[indexes[c]] == kids[c])
    && (forall j :: j in owner <==> 0 <= j < idx)
    && (forall j: int <- owner :: owner[j] in seen && indexes[owner[j]] == j)
    && (forall j | idx <= j < 48 :: slots[j] == nil)
  }

  lemma ScanIndexedStep<T>(indexes: seq<int>, slots: seq<T>, owner: map<int, int>, idx: nat, i: nat, kids: map<int, T>,
                           nil: T, seen: set<int>)
    requires ScanIndexed(indexes, slots, owner, idx, i, kids, nil, seen) && idx < 48 && i < 256 && i in kids
    ensures ScanIndexed(indexes[i := idx], slots[idx := kids[i]], owner[idx := i], idx + 1, i + 1, kids, nil,
                        seen + {i})
  {
  }

  lemma ScanIndexedSkip<T>(indexes: seq<int>, slots: seq<T>, owner: map<int, int>, idx: nat, i: nat, kids: map<int, T>,
                           nil: T, seen: set<int>)
    requires ScanIndexed(indexes, slots, owner, idx, i, kids, nil, seen) && i < 256 && i !in kids
    ensures ScanIndexed(indexes, slots, owner, idx, i + 1, kids, nil, seen)
  {
  }

  lemma ScanIndexedDone<T>(indexes: seq<int>, slots: seq<T>, owner: map<int, int>, idx: nat, i: nat, kids: map<int, T>,
                           nil: T, seen: set<int>)
    requires ScanIndexed(indexes, slots, owner, idx, i, kids, nil, seen) && Bytes(kids, nil)
             && (i == 256 || idx == |kids|)
    ensures IndexedOk(indexes, slots, Ones(|kids|), |kids|, kids, owner, nil)
  {
    if i == 256 {
      assert forall c :: c in kids.Keys ==> c in seen;
      assert kids.Keys <= seen;
    } else {
      AllSeen(seen, kids);
    }
    assert seen == kids.Keys;
    OwnerSize(idx, owner);
    forall k: nat ensures Bit(Ones(idx), k) <==> k in owner { BitOnes(idx, k); }
  }

  lemma IndexesInRange<T>(indexes: seq<int>, slots: seq<T>, mask: nat, n: nat, kids: map<int, T>, owner: map<int, int>,
                          nil: T)
    requires IndexedOk(indexes, slots, mask, n, kids, owner, nil)
    ensures n == |kids| && |indexes| == 256 && |slots| == 48 && Bytes(kids, nil)
    ensures forall c | 0 <= c < 256 :: (c in kids <==> indexes[c] != -1) && (indexes[c] != -1 ==> 0 <= indexes[c] < 48)
    ensures forall c: int <- kids ::
              0 <= c < 256 && kids[c] != nil && 0 <= indexes[c] < 48 && slots[indexes[c]] == kids[c]
  {
  }

  lemma MissingByte(s: set<int>, b: int)
    requires (forall c: int <- s :: 0 <= c < 256) && 0 <= b < 256 && b !in s
    ensures |s| < 256
  {
    RangeBound(256, s + {b});
  }

  lemma {:induction false} RangeBound(n: nat, s: set<int>)
    requires forall c: int <- s :: 0 <= c < n
    ensures |s| <= n
  {
    if n == 0 {
      assert forall c :: c in s ==> false;
      assert s == {};
    } else {
      RangeBound(n - 1, s - {n - 1});
    }
  }

  lemma DirectFacts<T>(slots: seq<T>, n: nat, kids: map<int, T>, nil: T)
    requires DirectOk(slots, n, kids, nil)
    ensures n == |kids| && |slots| == 256 && Bytes(kids, nil)
    ensures forall c | 0 <= c < 256 :: (c in kids <==> slots[c] != nil) && (c in kids ==> kids[c] == slots[c])
  {
  }

  lemma ScanSortedStart<T>(keys: seq<int>, slots: seq<T>, kids: map<int, T>, nil: T)
    requires |keys| == |slots| && Bytes(kids, nil) && forall j | 0 <= j < |slots| :: slots[j] == nil
    ensures ScanSorted(keys, slots, 0, 0, kids, nil, {})
  {
  }

  lemma ScanIndexedStart<T>(indexes: seq<int>, slots: seq<T>, kids: map<int, T>, nil: T)
    requires |indexes| == 256 && |slots| == 48 && Bytes(kids, nil)
    requires (forall j | 0 <= j < 48 :: slots[j] == nil) && forall c | 0 <= c < 256 :: indexes[c] == -1
    ensures ScanIndexed(indexes, slots, map[], 0, 0, kids, nil, {})
  {
  }

  lemma OneKey<T>(keys: seq<int>, slots: seq<T>, kids: map<int, T>, nil: T)
    requires SortedOk(keys, slots, 1, kids, nil)
    ensures |kids| == 1 && keys[0] in kids && kids[keys[0]] == slots[0] && 0 <= keys[0] < 256
    ensures forall c: int <- kids :: c == keys[0]
  {
    forall c: int <- kids ensures c == keys[0] {
      assert Holds(keys, 1, c);
    }
  }

  lemma HoldsAt(keys: seq<int>, n: nat, b: int)
    requires n <= |keys| && Holds(keys, n, b)
    ensures exists i :: 0 <= i < n && keys[i] == b
  {
  }

  lemma AscendingPairs(keys: seq<int>, n: nat)
    requires n <= |keys| && Ascending(keys, n)
    ensures forall i, j | 0 <= i < j < n :: keys[i] < keys[j]
  {
  }
}
