/** Order on the keys of a map split by one byte: nearest keys, and listings of the first few entries. */
module ArtOrder {
  import opened Wrappers
  import opened Keys
  import opened ArtMaps

  // ----- Nearest key at or below (down) or at or above a query key -----

  predicate Past(k: int, key: int, down: bool) {
    if down then key < k else k < key
  }

  /** k is the key of m nearest to `key` on the asked side, `key` included. */
  ghost predicate NearestAt<V>(m: map<int, V>, key: int, down: bool, k: int) {
    k in m && !Past(k, key, down) && forall j: int <- m :: Past(j, key, down) || (if down then j <= k else k <= j)
  }

  ghost predicate Nearest<V>(m: map<int, V>, key: int, down: bool, v: Option<V>) {
    match v
    case None => forall k: int <- m :: Past(k, key, down)
    case Some(x) => exists k: int :: NearestAt(m, key, down, k) && m[k] == x
  }

  /** The nearest key is unique, so a correct answer is the only one. */
  lemma NearestUnique<V>(m: map<int, V>, key: int, down: bool, v: Option<V>, w: Option<V>)
    requires Nearest(m, key, down, v) && Nearest(m, key, down, w)
    ensures v == w
  {
  }

  /** Seen from the query key, parts with a smaller byte lie below it and parts with a bigger byte above it. */
  ghost predicate Sided<V>(sub: map<int, map<int, V>>, key: int, b: int) {
    && (forall c: int <- sub :: c < b ==> Below(sub[c], key))
    && (forall c: int <- sub :: b < c ==> Above(sub[c], key))
  }

  ghost predicate Below<V>(m: map<int, V>, key: int) {
    forall k: int <- m :: k < key
  }

  ghost predicate Above<V>(m: map<int, V>, key: int) {
    forall k: int <- m :: key < k
  }

  lemma SidedPart<V>(sub: map<int, map<int, V>>, key: int, b: int, c: int)
    requires Sided(sub, key, b) && c in sub
    ensures c < b ==> Below(sub[c], key)
    ensures b < c ==> Above(sub[c], key)
  {
  }

  /** A smaller value above a level means a smaller key. */
  lemma ShrLess(a: nat, b: nat, n: nat)
    requires Shr(a, n) < Shr(b, n)
    ensures a < b
  {
    if b <= a { ShrMonotone(b, a, n); }
  }

  lemma SidedWithin<V>(m: map<int, V>, sub: map<int, map<int, V>>, prefix: nat, n: nat, key: nat)
    requires Splits(m, sub, prefix, n) && Shr(key, n + 1) == prefix
    ensures Sided(sub, key, Digit(key, n))
  {
    hide Shr, Digit, Splits;
    ShrStep(key, n);
    forall c: int, k: int | c in sub && k in sub[c] && c != Digit(key, n)
      ensures if c < Digit(key, n) then k < key else key < k
    {
      PartAt(m, sub, prefix, n, c, k);
      if c < Digit(key, n) { ShrLess(k, key, n); } else { ShrLess(key, k, n); }
    }
  }

  lemma PartAt<V>(m: map<int, V>, sub: map<int, map<int, V>>, prefix: nat, n: nat, c: int, k: int)
    requires Splits(m, sub, prefix, n) && c in sub && k in sub[c]
    ensures 0 <= c < 256 && 0 <= k && Shr(k, n) == 256 * prefix + c && Shr(k, n + 1) == prefix && k in m
            && m[k] == sub[c][k]
  {
    assert Part(m, sub[c], 256 * prefix + c, n);
    ShrStep(k, n);
  }

  /** Keys whose leading bytes differ from the query's are on the side those bytes say. */
  lemma OutsideAll<V>(m: map<int, V>, sub: map<int, map<int, V>>, prefix: nat, n: nat, key: nat)
    requires Splits(m, sub, prefix, n)
    ensures prefix < Shr(key, n + 1) ==> Below(m, key)
    ensures Shr(key, n + 1) < prefix ==> Above(m, key)
  {
    hide Shr, Digit;
    forall k: int <- m ensures (prefix < Shr(key, n + 1) ==> k < key) && (Shr(key, n + 1) < prefix ==> key < k) {
      if prefix < Shr(key, n + 1) { ShrLess(k, key, n + 1); }
      if Shr(key, n + 1) < prefix { ShrLess(key, k, n + 1); }
    }
  }

  /** A query beyond all keys may be replaced by any other query beyond all keys. */
  lemma NearestReset<V>(m: map<int, V>, key: int, key': int, down: bool, v: Option<V>)
    requires if down then forall k: int <- m :: k <= key && k <= key' else forall k: int <- m :: key <= k && key' <= k
    requires Nearest(m, key', down, v)
    ensures Nearest(m, key, down, v)
  {
    if v.Some? {
      var k: int :| NearestAt(m, key', down, k) && m[k] == v.value;
      assert NearestAt(m, key, down, k);
    }
  }

  /** A hit in the part of the query's own byte is a hit in the whole. */
  lemma NearestExact<V>(m: map<int, V>, sub: map<int, map<int, V>>, prefix: nat, n: nat, key: nat, down: bool, b: int,
                        v: Option<V>)
    requires Splits(m, sub, prefix, n) && Sided(sub, key, b) && b in sub && v.Some? && Nearest(sub[b], key, down, v)
    ensures Nearest(m, key, down, v)
  {
    hide Shr, Digit, Splits;
    var k: int :| NearestAt(sub[b], key, down, k) && sub[b][k] == v.value;
    PartAt(m, sub, prefix, n, b, k);
    forall j: int <- m ensures Past(j, key, down) || (if down then j <= k else k <= j) {
      var c := PartOf(m, sub, prefix, n, j);
      assert c < b ==> Below(sub[c], key);
      assert b < c ==> Above(sub[c], key);
      if c != b { OtherSide(m, sub, prefix, n, b, k, c, j); }
    }
    assert NearestAt(m, key, down, k);
  }

  lemma PartOf<V>(m: map<int, V>, sub: map<int, map<int, V>>, prefix: nat, n: nat, j: int) returns (c: int)
    requires Splits(m, sub, prefix, n) && j in m
    ensures c in sub && j in sub[c] && 0 <= c < 256 && 0 <= j && c == Digit(j, n)
  {
    c := Digit(j, n);
  }

  /** Parts follow one another in the order of their bytes. */
  lemma OtherSide<V>(m: map<int, V>, sub: map<int, map<int, V>>, prefix: nat, n: nat, b: int, k: int, c: int, j: int)
    requires Splits(m, sub, prefix, n) && b in sub && k in sub[b] && c in sub && j in sub[c]
    ensures b < c ==> k < j
    ensures c < b ==> j < k
  {
    hide Shr, Digit, Splits;
    PartAt(m, sub, prefix, n, b, k);
    PartAt(m, sub, prefix, n, c, j);
    if b < c { ShrLess(k, j, n); }
    if c < b { ShrLess(j, k, n); }
  }

  /** c is the next used byte after b on the asked side. */
  ghost predicate NextByte<V>(sub: map<int, map<int, V>>, b: int, down: bool, c: int) {
    && c in sub && (if down then c < b else b < c)
    && forall d: int <- sub :: if down then d <= c || b <= d else c <= d || d <= b
  }

  lemma AboveZero<V>(m: map<int, V>, sub: map<int, map<int, V>>, prefix: nat, n: nat, c: int)
    requires Splits(m, sub, prefix, n) && c in sub
    ensures forall k: int <- sub[c] :: 0 <= k
  {
    hide Shr, Digit, Splits;
    forall k: int <- sub[c] ensures 0 <= k {
      PartAt(m, sub, prefix, n, c, k);
    }
  }

  /** Nothing at the query's own byte: the answer is the extreme key of the next part. */
  lemma NearestNext<V>(m: map<int, V>, sub: map<int, map<int, V>>, prefix: nat, n: nat, key: nat, down: bool, b: int,
                       c: int, key': int, v: Option<V>)
    requires Splits(m, sub, prefix, n) && Sided(sub, key, b) && NextByte(sub, b, down, c)
    requires b in sub ==> Nearest(sub[b], key, down, None)
    requires if down then forall k: int <- sub[c] :: k <= key' else forall k: int <- sub[c] :: key' <= k
    requires Nearest(sub[c], key', down, v)
    ensures v.Some? && Nearest(m, key, down, v)
  {
    hide Shr, Digit, Splits;
    NotNone(m, sub, prefix, n, key', down, c, v);
    var k: int :| NearestAt(sub[c], key', down, k) && sub[c][k] == v.value;
    PartAt(m, sub, prefix, n, c, k);
    assert c < b ==> Below(sub[c], key);
    assert b < c ==> Above(sub[c], key);
    forall j: int <- m ensures Past(j, key, down) || (if down then j <= k else k <= j) {
      var d := PartOf(m, sub, prefix, n, j);
      assert d < b ==> Below(sub[d], key);
      assert b < d ==> Above(sub[d], key);
      if d != c { OtherSide(m, sub, prefix, n, c, k, d, j); }
    }
    assert NearestAt(m, key, down, k);
  }

  lemma NotNone<V>(m: map<int, V>, sub: map<int, map<int, V>>, prefix: nat, n: nat, key': int, down: bool, c: int,
                   v: Option<V>)
    requires Splits(m, sub, prefix, n) && c in sub && Nearest(sub[c], key', down, v)
    requires if down then forall k: int <- sub[c] :: k <= key' else forall k: int <- sub[c] :: key' <= k
    ensures v.Some?
  {
    if v == None {
      assert sub[c] != map[];
      HasElement(sub[c].Keys);
    }
  }

  /** Nothing at the query's own byte and no part on the asked side: no answer. */
  lemma NearestNone<V>(m: map<int, V>, sub: map<int, map<int, V>>, prefix: nat, n: nat, key: nat, down: bool, b: int)
    requires Splits(m, sub, prefix, n) && Sided(sub, key, b)
    requires b in sub ==> Nearest(sub[b], key, down, None)
    requires forall d: int <- sub :: if down then b <= d else d <= b
    ensures Nearest(m, key, down, None)
  {
    hide Shr, Digit, Splits;
    forall j: int <- m ensures Past(j, key, down) {
      var d := PartOf(m, sub, prefix, n, j);
      assert d < b ==> Below(sub[d], key);
      assert b < d ==> Above(sub[d], key);
    }
  }

  lemma NearestSingle<V>(k: int, v: V, key: int, down: bool)
    requires if down then k <= key else key <= k
    ensures Nearest(map[k := v], key, down, Some(v))
  {
    assert NearestAt(map[k := v], key, down, k);
  }

  lemma NearestOutside<V>(m: map<int, V>, key: int, down: bool)
    requires if down then Above(m, key) else Below(m, key)
    ensures Nearest(m, key, down, None)
  {
  }

  lemma NothingNearest<V>(m: map<int, V>, key: int, down: bool)
    requires m == map[]
    ensures Nearest(m, key, down, None)
  {
  }

  // ----- Wrong answers -----

  /** No value is stored under two keys. */
  ghost predicate Distinct<V>(m: map<int, V>) {
    forall k: int, l: int | k in m && l in m && m[k] == m[l] :: k == l
  }

  /** The answer is a value of the map. */
  ghost predicate From<V>(m: map<int, V>, v: Option<V>) {
    v.Some? ==> exists k: int :: k in m && m[k] == v.value
  }

  /** The answer is right if and, when it can be told from others, only if the query fits. */
  ghost predicate Outcome<V>(m: map<int, V>, key: int, down: bool, fits: bool, v: Option<V>) {
    && (fits ==> Nearest(m, key, down, v))
    && (!fits && Distinct(m) ==> !Nearest(m, key, down, v))
    && From(m, v)
  }

  lemma NearestFrom<V>(m: map<int, V>, key: int, down: bool, v: Option<V>)
    requires Nearest(m, key, down, v)
    ensures From(m, v) && Outcome(m, key, down, true, v)
  {
    if v.Some? {
      var k: int :| NearestAt(m, key, down, k) && m[k] == v.value;
    }
  }

  lemma FromPart<V>(m: map<int, V>, sub: map<int, map<int, V>>, prefix: nat, n: nat, c: int, v: Option<V>)
    requires Splits(m, sub, prefix, n) && c in sub && From(sub[c], v)
    ensures From(m, v)
  {
    hide Splits, Shr, Digit;
    if v.Some? {
      var k: int :| k in sub[c] && sub[c][k] == v.value;
      PartAt(m, sub, prefix, n, c, k);
    }
  }

  lemma DistinctPart<V>(m: map<int, V>, sub: map<int, map<int, V>>, prefix: nat, n: nat, c: int)
    requires Splits(m, sub, prefix, n) && c in sub && Distinct(m)
    ensures Distinct(sub[c])
  {
    hide Splits, Shr, Digit;
    forall k: int, l: int | k in sub[c] && l in sub[c] && sub[c][k] == sub[c][l] ensures k == l {
      PartAt(m, sub, prefix, n, c, k);
      PartAt(m, sub, prefix, n, c, l);
    }
  }

  /** The nearest entry of the whole, if the answer comes from one part, is the nearest of that part. */
  lemma NearestWithin<V>(m: map<int, V>, sub: map<int, map<int, V>>, prefix: nat, n: nat, key: int, down: bool, h: int,
                         v: Option<V>)
    requires Splits(m, sub, prefix, n) && h in sub && Distinct(m) && v.Some? && From(sub[h], v)
             && Nearest(m, key, down, v)
    ensures Nearest(sub[h], key, down, v)
  {
    hide Splits, Shr, Digit;
    var k: int :| NearestAt(m, key, down, k) && m[k] == v.value;
    var l: int :| l in sub[h] && sub[h][l] == v.value;
    PartAt(m, sub, prefix, n, h, l);
    assert k == l;
    forall j: int <- sub[h]
      ensures Past(j, key, down) || (if down then j <= k else k <= j)
    {
      PartAt(m, sub, prefix, n, h, j);
    }
    assert NearestAt(sub[h], key, down, k);
  }

  /** A wrong answer from the part that holds it is a wrong answer for the whole. */
  lemma WrongHere<V>(m: map<int, V>, sub: map<int, map<int, V>>, prefix: nat, n: nat, key: int, down: bool, h: int,
                     v: Option<V>)
    requires Splits(m, sub, prefix, n) && h in sub && Distinct(m) && v.Some? && From(sub[h], v)
             && !Nearest(sub[h], key, down, v)
    ensures !Nearest(m, key, down, v)
  {
    hide Splits, Shr, Digit, Nearest, From, Distinct;
    if Nearest(m, key, down, v) { NearestWithin(m, sub, prefix, n, key, down, h, v); }
  }

  /** An answer from a part further away than one that has a candidate is wrong, and so is none. */
  lemma WrongElsewhere<V>(m: map<int, V>, sub: map<int, map<int, V>>, prefix: nat, n: nat, key: int, down: bool, h: int,
                          c: int, v: Option<V>)
    requires Splits(m, sub, prefix, n) && h in sub && Distinct(m) && !Nearest(sub[h], key, down, None)
    requires v.Some? ==> c in sub && From(sub[c], v) && if down then c < h else h < c
    ensures !Nearest(m, key, down, v)
  {
    hide Splits, Shr, Digit;
    var e: int :| e in sub[h] && !Past(e, key, down);
    PartAt(m, sub, prefix, n, h, e);
    if v.Some? && Nearest(m, key, down, v) {
      var k: int :| NearestAt(m, key, down, k) && m[k] == v.value;
      var l: int :| l in sub[c] && sub[c][l] == v.value;
      PartAt(m, sub, prefix, n, c, l);
      assert k == l;
      OtherSide(m, sub, prefix, n, h, e, c, l);
    }
  }

  lemma AnyKey<V>(m: map<int, V>, sub: map<int, map<int, V>>, prefix: nat, n: nat, c: int) returns (k: int)
    requires Splits(m, sub, prefix, n) && c in sub
    ensures k in sub[c]
  {
    HasElement(sub[c].Keys);
    k :| k in sub[c];
  }

  /** Seen from outside the node's range, every part has a candidate. */
  lemma PartBeyond<V>(m: map<int, V>, sub: map<int, map<int, V>>, prefix: nat, n: nat, key: nat, down: bool, c: int)
    requires Splits(m, sub, prefix, n) && c in sub
             && if down then prefix < Shr(key, n + 1) else Shr(key, n + 1) < prefix
    ensures !Nearest(sub[c], key, down, None)
    ensures if down then Below(sub[c], key) else Above(sub[c], key)
  {
    hide Shr, Digit;
    forall k: int <- sub[c] ensures if down then k < key else key < k {
      PartAt(m, sub, prefix, n, c, k);
      if down { ShrLess(k, key, n + 1); } else { ShrLess(key, k, n + 1); }
    }
    var k := AnyKey(m, sub, prefix, n, c);
    assert !Past(k, key, down);
  }

  // ----- Which query keys a descent may use -----

  /** The n lowest bytes of the key are all 255 (down) or all 0. */
  predicate LowAll(key: nat, n: nat, down: bool) {
    n == 0 || (Digit(key, n - 1) == (if down then 255 else 0) && LowAll(key, n - 1, down))
  }

  /** Stepping to the next integer either changes nothing at or above a byte, or crosses a boundary of full low
      bytes. */
  lemma {:induction false} StepUp(key: nat, n: nat)
    ensures Shr(key + 1, n) == Shr(key, n) || (LowAll(key, n, true) && Shr(key + 1, n) == Shr(key, n) + 1)
  {
    if n > 0 { StepUp(key, n - 1); }
  }

  lemma {:induction false} StepDown(key: nat, n: nat)
    requires 0 < key
    ensures Shr(key - 1, n) == Shr(key, n) || (LowAll(key, n, false) && Shr(key - 1, n) == Shr(key, n) - 1)
  {
    if n > 0 { StepDown(key, n - 1); }
  }

  lemma {:induction false} LowAllBelow(key: nat, n: nat, k: nat, down: bool)
    requires LowAll(key, n, down) && k <= n
    ensures LowAll(key, k, down)
    ensures k < n ==> Digit(key, k) == (if down then 255 else 0)
  {
    if k < n { LowAllBelow(key, n - 1, k, down); }
  }

  /** The greatest key has seven full low bytes; zero has only empty ones. */
  lemma {:induction false} LowAllMax(n: nat)
    requires n <= 7
    ensures LowAll(MAX_KEY, n, true)
    ensures Shr(MAX_KEY, 0) == MAX_KEY && Shr(MAX_KEY, 1) == 0x7F_FFFF_FFFF_FFFF && Shr(MAX_KEY, 2) == 0x7FFF_FFFF_FFFF
    ensures Shr(MAX_KEY, 3) == 0x7F_FFFF_FFFF && Shr(MAX_KEY, 4) == 0x7FFF_FFFF && Shr(MAX_KEY, 5) == 0x7F_FFFF
    ensures Shr(MAX_KEY, 6) == 0x7FFF && Shr(MAX_KEY, 7) == 0x7F
  {
    if n > 0 { LowAllMax(n - 1); }
  }

  lemma {:induction false} LowAllZero(n: nat)
    ensures LowAll(0, n, false) && Shr(0, n) == 0
  {
    if n > 0 { LowAllZero(n - 1); }
  }

  // ----- Listing the first entries -----

  ghost predicate Ahead(a: int, b: int, desc: bool) {
    if desc then b < a else a < b
  }

  ghost predicate Listed<V>(s: seq<(int, V)>, k: int) {
    exists i: nat :: i < |s| && s[i].0 == k
  }

  ghost predicate InOrder<V>(s: seq<(int, V)>, desc: bool) {
    forall i: nat, j: nat | i < j < |s| :: Ahead(s[i].0, s[j].0, desc)
  }

  ghost predicate EntriesOf<V>(m: map<int, V>, s: seq<(int, V)>) {
    forall i: nat | i < |s| :: s[i].0 in m && m[s[i].0] == s[i].1
  }

  /** s lists, in order, the first `limit` entries of m: an entry left out comes after a full list. */
  ghost predicate First<V>(m: map<int, V>, s: seq<(int, V)>, limit: nat, desc: bool) {
    && InOrder(s, desc) && EntriesOf(m, s) && |s| <= limit
    && forall k: int <- m :: Listed(s, k) || (|s| == limit && forall i: nat | i < |s| :: Ahead(s[i].0, k, desc))
  }

  /** Bytes already visited by a scan that has reached `bound`. */
  predicate Visited(c: int, bound: int, desc: bool) {
    if desc then bound < c else c < bound
  }

  /** The same for the entries in the parts visited so far. */
  ghost predicate FirstOfVisited<V>(sub: map<int, map<int, V>>, m: map<int, V>, s: seq<(int, V)>, limit: nat,
                                    desc: bool, bound: int) {
    && InOrder(s, desc) && EntriesOf(m, s) && |s| <= limit
    && (forall i: nat | i < |s| :: VisitedKey(sub, s[i].0, bound, desc))
    && (forall k: int <- m :: VisitedKey(sub, k, bound, desc) ==>
                        Listed(s, k) || (|s| == limit && forall i: nat | i < |s| :: Ahead(s[i].0, k, desc)))
  }

  ghost predicate VisitedKey<V>(sub: map<int, map<int, V>>, k: int, bound: int, desc: bool) {
    exists c: int :: c in sub && k in sub[c] && Visited(c, bound, desc)
  }

  lemma NothingVisited<V>(sub: map<int, map<int, V>>, m: map<int, V>, limit: nat, desc: bool, bound: int)
    requires forall c: int <- sub :: !Visited(c, bound, desc)
    ensures FirstOfVisited(sub, m, [], limit, desc, bound)
  {
  }

  /** Moving past bytes that hold nothing. */
  lemma VisitEmpty<V>(sub: map<int, map<int, V>>, m: map<int, V>, s: seq<(int, V)>, limit: nat, desc: bool, bound: int,
                      bound': int)
    requires FirstOfVisited(sub, m, s, limit, desc, bound)
    requires forall c: int <- sub :: Visited(c, bound', desc) <==> Visited(c, bound, desc)
    ensures FirstOfVisited(sub, m, s, limit, desc, bound')
  {
    assert forall k: int :: VisitedKey(sub, k, bound', desc) <==> VisitedKey(sub, k, bound, desc);
  }

  /** Appending the first entries of the next part. */
  lemma VisitPart<V>(m: map<int, V>, sub: map<int, map<int, V>>, prefix: nat, n: nat, s: seq<(int, V)>, limit: nat,
                     desc: bool, bound: int, bound': int, b: int, t: seq<(int, V)>)
    requires Splits(m, sub, prefix, n) && FirstOfVisited(sub, m, s, limit, desc, bound)
    requires b in sub && !Visited(b, bound, desc)
    requires forall c: int <- sub :: Visited(c, bound', desc) <==> Visited(c, bound, desc) || c == b
    requires |s| <= limit && First(sub[b], t, limit - |s|, desc)
    ensures FirstOfVisited(sub, m, s + t, limit, desc, bound')
  {
    hide Shr, Digit, Splits, FirstOfVisited, First, VisitedKey;
    PartsMeet(m, sub, prefix, n, s, limit, desc, bound, b, t);
    InOrderConcat(s, t, desc);
    EntriesConcat(m, sub, prefix, n, s, limit, desc, bound, b, t);
    VisitedConcat(sub, m, s, limit, desc, bound, bound', b, t);
    forall k: int | k in m && VisitedKey(sub, k, bound', desc)
      ensures Listed(s + t, k) || (|s + t| == limit && forall i: nat | i < |s + t| :: Ahead((s + t)[i].0, k, desc))
    {
      LeftOut(m, sub, prefix, n, s, limit, desc, bound, bound', b, t, k);
    }
    IsFirstOfVisited(sub, m, s + t, limit, desc, bound');
  }

  lemma IsFirstOfVisited<V>(sub: map<int, map<int, V>>, m: map<int, V>, s: seq<(int, V)>, limit: nat, desc: bool,
                            bound: int)
    requires InOrder(s, desc) && EntriesOf(m, s) && |s| <= limit
    requires forall i: nat | i < |s| :: VisitedKey(sub, s[i].0, bound, desc)
    requires forall k: int <- m :: VisitedKey(sub, k, bound, desc) ==>
                        Listed(s, k) || (|s| == limit && forall i: nat | i < |s| :: Ahead(s[i].0, k, desc))
    ensures FirstOfVisited(sub, m, s, limit, desc, bound)
  {
  }

  lemma PartsMeet<V>(m: map<int, V>, sub: map<int, map<int, V>>, prefix: nat, n: nat, s: seq<(int, V)>, limit: nat,
                     desc: bool, bound: int, b: int, t: seq<(int, V)>)
    requires Splits(m, sub, prefix, n) && FirstOfVisited(sub, m, s, limit, desc, bound)
    requires b in sub && !Visited(b, bound, desc)
    requires |s| <= limit && First(sub[b], t, limit - |s|, desc)
    ensures forall i: nat, j: nat | i < |s| && j < |t| :: Ahead(s[i].0, t[j].0, desc)
    ensures InOrder(s, desc) && InOrder(t, desc)
  {
    hide Splits;
    forall i: nat, j: nat | i < |s| && j < |t| ensures Ahead(s[i].0, t[j].0, desc) {
      assert VisitedKey(sub, s[i].0, bound, desc);
      var c: int :| c in sub && s[i].0 in sub[c] && Visited(c, bound, desc);
      OtherSide(m, sub, prefix, n, c, s[i].0, b, t[j].0);
    }
  }

  lemma InOrderConcat<V>(s: seq<(int, V)>, t: seq<(int, V)>, desc: bool)
    requires InOrder(s, desc) && InOrder(t, desc)
             && forall i: nat, j: nat | i < |s| && j < |t| :: Ahead(s[i].0, t[j].0, desc)
    ensures InOrder(s + t, desc)
  {
  }

  lemma EntriesConcat<V>(m: map<int, V>, sub: map<int, map<int, V>>, prefix: nat, n: nat, s: seq<(int, V)>, limit: nat,
                         desc: bool, bound: int, b: int, t: seq<(int, V)>)
    requires Splits(m, sub, prefix, n) && FirstOfVisited(sub, m, s, limit, desc, bound) && b in sub
    requires |s| <= limit && First(sub[b], t, limit - |s|, desc)
    ensures EntriesOf(m, s + t) && |s + t| <= limit
  {
    hide Splits;
    forall i: nat | i < |t| ensures t[i].0 in m && m[t[i].0] == t[i].1 {
      PartAt(m, sub, prefix, n, b, t[i].0);
    }
  }

  lemma VisitedConcat<V>(sub: map<int, map<int, V>>, m: map<int, V>, s: seq<(int, V)>, limit: nat, desc: bool,
                         bound: int, bound': int, b: int, t: seq<(int, V)>)
    requires FirstOfVisited(sub, m, s, limit, desc, bound) && b in sub
    requires forall c: int <- sub :: Visited(c, bound', desc) <==> Visited(c, bound, desc) || c == b
    requires |s| <= limit && First(sub[b], t, limit - |s|, desc)
    ensures forall i: nat | i < |s + t| :: VisitedKey(sub, (s + t)[i].0, bound', desc)
  {
    forall i: nat | i < |s + t| ensures VisitedKey(sub, (s + t)[i].0, bound', desc) {
      if i < |s| {
        assert VisitedKey(sub, s[i].0, bound, desc);
      } else {
        assert t[i - |s|].0 in sub[b];
      }
    }
  }

  lemma ListedConcat<V>(s: seq<(int, V)>, t: seq<(int, V)>, k: int)
    requires Listed(s, k) || Listed(t, k)
    ensures Listed(s + t, k)
  {
    if Listed(s, k) {
      var i: nat :| i < |s| && s[i].0 == k;
      assert (s + t)[i].0 == k;
    } else {
      var i: nat :| i < |t| && t[i].0 == k;
      assert (s + t)[|s| + i].0 == k;
    }
  }

  lemma LeftOut<V>(m: map<int, V>, sub: map<int, map<int, V>>, prefix: nat, n: nat, s: seq<(int, V)>, limit: nat,
                   desc: bool, bound: int, bound': int, b: int, t: seq<(int, V)>, k: int)
    requires Splits(m, sub, prefix, n) && FirstOfVisited(sub, m, s, limit, desc, bound)
    requires b in sub && !Visited(b, bound, desc)
    requires forall c: int <- sub :: Visited(c, bound', desc) <==> Visited(c, bound, desc) || c == b
    requires |s| <= limit && First(sub[b], t, limit - |s|, desc)
    requires k in m && VisitedKey(sub, k, bound', desc)
    ensures Listed(s + t, k) || (|s + t| == limit && forall i: nat | i < |s + t| :: Ahead((s + t)[i].0, k, desc))
  {
    hide Splits, Listed;
    var c: int :| c in sub && k in sub[c] && Visited(c, bound', desc);
    if Listed(s, k) || Listed(t, k) {
      ListedConcat(s, t, k);
    } else if c == b {
      PartsMeet(m, sub, prefix, n, s, limit, desc, bound, b, t);
      forall i: nat | i < |s| ensures Ahead(s[i].0, k, desc) {
        assert VisitedKey(sub, s[i].0, bound, desc);
        var d: int :| d in sub && s[i].0 in sub[d] && Visited(d, bound, desc);
        OtherSide(m, sub, prefix, n, d, s[i].0, b, k);
      }
    } else {
      assert VisitedKey(sub, k, bound, desc);
      assert |t| == 0;
    }
  }

  /** Once every byte is visited, or the list is full and the rest comes after it, the list is the first entries of
      all. */
  lemma VisitDone<V>(m: map<int, V>, sub: map<int, map<int, V>>, prefix: nat, n: nat, s: seq<(int, V)>, limit: nat,
                     desc: bool, bound: int)
    requires Splits(m, sub, prefix, n) && FirstOfVisited(sub, m, s, limit, desc, bound)
    requires |s| == limit || forall c: int <- sub :: Visited(c, bound, desc)
    ensures First(m, s, limit, desc)
  {
    hide Splits, Shr, Digit, Listed;
    forall k: int <- m ensures Listed(s, k) || (|s| == limit && forall i: nat | i < |s| :: Ahead(s[i].0, k, desc)) {
      var c := PartOf(m, sub, prefix, n, k);
      if Visited(c, bound, desc) {
        assert VisitedKey(sub, k, bound, desc);
      } else {
        forall i: nat | i < |s| ensures Ahead(s[i].0, k, desc) {
          assert VisitedKey(sub, s[i].0, bound, desc);
          var d: int :| d in sub && s[i].0 in sub[d] && Visited(d, bound, desc);
          OtherSide(m, sub, prefix, n, d, s[i].0, c, k);
        }
      }
    }
  }

  lemma FirstSingle<V>(k: int, v: V, limit: nat, desc: bool)
    requires 0 < limit
    ensures First(map[k := v], [(k, v)], limit, desc)
  {
    assert [(k, v)][0].0 == k;
  }

  /** The number of entries listed is the limit or the size of the map, whichever is smaller. */
  lemma FirstSize<V>(m: map<int, V>, s: seq<(int, V)>, limit: nat, desc: bool)
    requires First(m, s, limit, desc)
    ensures |s| == if |m| <= limit then |m| else limit
  {
    hide Listed;
    var keys := KeysOf(s);
    KeysOfSize(s, desc);
    assert keys <= m.Keys by {
      forall k: int | k in keys ensures k in m.Keys { KeysOfListed(s, k); ListedIn(m, s, k); }
    }
    SubsetSize(keys, m.Keys);
    if |s| < limit {
      forall k: int | k in m.Keys ensures k in keys { KeysOfListed(s, k); }
      assert keys == m.Keys;
    }
  }

  lemma ListedIn<V>(m: map<int, V>, s: seq<(int, V)>, k: int)
    requires EntriesOf(m, s) && Listed(s, k)
    ensures k in m
  {
  }

  ghost function KeysOf<V>(s: seq<(int, V)>): set<int> {
    set i: nat | i < |s| :: s[i].0
  }

  lemma KeysOfListed<V>(s: seq<(int, V)>, k: int)
    ensures k in KeysOf(s) <==> Listed(s, k)
  {
  }

  lemma {:induction false} KeysOfSize<V>(s: seq<(int, V)>, desc: bool)
    requires InOrder(s, desc)
    ensures |KeysOf(s)| == |s|
  {
    if s != [] {
      var rest := s[..|s| - 1];
      KeysOfSize(rest, desc);
      var k := s[|s| - 1].0;
      assert forall j: int :: j in KeysOf(s) <==> j in KeysOf(rest) || j == k;
      assert KeysOf(s) == KeysOf(rest) + {k};
      assert k !in KeysOf(rest);
    }
  }

  lemma SubsetSize(a: set<int>, b: set<int>)
    requires a <= b
    ensures |a| <= |b|
  {
    assert b == a + (b - a) && |b| == |a| + |b - a|;
  }

  /** Two lists of the first entries are equal: the listing is determined by the map. */
  lemma {:induction false} FirstUnique<V>(m: map<int, V>, s: seq<(int, V)>, t: seq<(int, V)>, limit: nat, desc: bool)
    requires First(m, s, limit, desc) && First(m, t, limit, desc)
    ensures s == t
  {
    FirstSize(m, s, limit, desc);
    FirstSize(m, t, limit, desc);
    FirstAgree(m, s, t, limit, desc, |s|);
  }

  lemma {:induction false} FirstAgree<V>(m: map<int, V>, s: seq<(int, V)>, t: seq<(int, V)>, limit: nat, desc: bool,
                                         n: nat)
    requires First(m, s, limit, desc) && First(m, t, limit, desc) && n <= |s| == |t|
    ensures s[..n] == t[..n]
  {
    if n > 0 {
      FirstAgree(m, s, t, limit, desc, n - 1);
      NotAfter(m, s, t, limit, desc, n - 1);
      NotAfter(m, t, s, limit, desc, n - 1);
      assert s[n - 1].0 == t[n - 1].0;
    }
  }

  lemma NotAfter<V>(m: map<int, V>, s: seq<(int, V)>, t: seq<(int, V)>, limit: nat, desc: bool, i: nat)
    requires First(m, s, limit, desc) && First(m, t, limit, desc) && i < |s| == |t| && s[..i] == t[..i]
    ensures !Ahead(s[i].0, t[i].0, desc)
  {
    var k := s[i].0;
    forall j: nat | j < i ensures t[j] == s[j] {
      assert s[..i][j] == t[..i][j];
    }
    if Listed(t, k) {
      var j: nat :| j < |t| && t[j].0 == k;
      assert j < i ==> Ahead(s[j].0, k, desc);
    }
  }

  /** Asking for no more entries than there are changes nothing. */
  lemma FirstOfAll<V>(m: map<int, V>, s: seq<(int, V)>, n: nat, limit: nat, desc: bool)
    requires First(m, s, n, desc) && n == if |m| <= limit then |m| else limit
    ensures First(m, s, limit, desc)
  {
    hide Listed;
    if |m| < limit {
      FirstSize(m, s, n, desc);
      ListedAll(m, s, n, desc);
    }
  }

  lemma ListedAll<V>(m: map<int, V>, s: seq<(int, V)>, n: nat, desc: bool)
    requires First(m, s, n, desc) && |s| == |m|
    ensures forall k: int <- m :: Listed(s, k)
  {
    hide Listed;
    var keys := KeysOf(s);
    KeysOfSize(s, desc);
    assert keys <= m.Keys by {
      forall k: int | k in keys ensures k in m.Keys { KeysOfListed(s, k); ListedIn(m, s, k); }
    }
    var rest := m.Keys - keys;
    assert m.Keys == keys + rest && |m.Keys| == |keys| + |rest|;
    forall k: int <- m ensures Listed(s, k) { assert k !in rest; KeysOfListed(s, k); }
  }

  lemma FirstLength<V>(m: map<int, V>, s: seq<(int, V)>, limit: nat, desc: bool)
    requires First(m, s, limit, desc)
    ensures |s| <= limit
  {
  }

  // ----- Counting -----

  ghost function VisitedKeys<V>(sub: map<int, map<int, V>>, m: map<int, V>, bound: int, desc: bool): set<int> {
    set k: int | k in m && VisitedKey(sub, k, bound, desc)
  }

  lemma NoKeysVisited<V>(sub: map<int, map<int, V>>, m: map<int, V>, desc: bool, bound: int)
    requires forall c: int <- sub :: !Visited(c, bound, desc)
    ensures |VisitedKeys(sub, m, bound, desc)| == 0
  {
    NoElement(VisitedKeys(sub, m, bound, desc));
  }

  lemma CountEmpty<V>(sub: map<int, map<int, V>>, m: map<int, V>, desc: bool, bound: int, bound': int)
    requires forall c: int <- sub :: Visited(c, bound', desc) <==> Visited(c, bound, desc)
    ensures VisitedKeys(sub, m, bound', desc) == VisitedKeys(sub, m, bound, desc)
  {
    assert forall k: int :: VisitedKey(sub, k, bound', desc) <==> VisitedKey(sub, k, bound, desc);
  }

  lemma CountPart<V>(m: map<int, V>, sub: map<int, map<int, V>>, prefix: nat, n: nat, desc: bool, bound: int,
                     bound': int, b: int)
    requires Splits(m, sub, prefix, n) && b in sub && !Visited(b, bound, desc)
    requires forall c: int <- sub :: Visited(c, bound', desc) <==> Visited(c, bound, desc) || c == b
    ensures |VisitedKeys(sub, m, bound', desc)| == |VisitedKeys(sub, m, bound, desc)| + |sub[b]|
  {
    hide Splits, Shr, Digit;
    var before, after, part := VisitedKeys(sub, m, bound, desc), VisitedKeys(sub, m, bound', desc), sub[b].Keys;
    forall k: int ensures k in after <==> k in before || k in part {
      if k in part { PartAt(m, sub, prefix, n, b, k); }
      if k in before {
        var c: int :| c in sub && k in sub[c] && Visited(c, bound, desc);
        assert Visited(c, bound', desc);
      }
    }
    forall k: int ensures !(k in before && k in part) {
      if k in part && k in before {
        var c: int :| c in sub && k in sub[c] && Visited(c, bound, desc);
        OtherSide(m, sub, prefix, n, b, k, c, k);
      }
    }
    SetsEqual(after, before + part);
    NoElement(before * part);
    assert before !! part;
  }

  lemma SetsEqual(a: set<int>, b: set<int>)
    requires forall k: int :: k in a <==> k in b
    ensures a == b
  {
    assert forall k: int :: k in a ==> k in b;
    assert forall k: int :: k in b ==> k in a;
    assert a == b;
  }

  lemma CountDone<V>(m: map<int, V>, sub: map<int, map<int, V>>, prefix: nat, n: nat, desc: bool, bound: int)
    requires Splits(m, sub, prefix, n)
    ensures |VisitedKeys(sub, m, bound, desc)| <= |m|
    ensures (forall c: int <- sub :: Visited(c, bound, desc)) ==> |VisitedKeys(sub, m, bound, desc)| == |m|
  {
    hide Splits, Shr, Digit;
    var seen := VisitedKeys(sub, m, bound, desc);
    assert seen <= m.Keys by { forall k: int | k in seen ensures k in m.Keys {} }
    SubsetSize(seen, m.Keys);
    if forall c: int <- sub :: Visited(c, bound, desc) {
      forall k: int ensures k in seen <==> k in m.Keys {
        if k in m { var c := PartOf(m, sub, prefix, n, k); assert Visited(c, bound, desc); }
      }
      SetsEqual(seen, m.Keys);
    }
  }

  /** At level 0 every part is a single key. */
  lemma LeafSize<V>(m: map<int, V>, sub: map<int, map<int, V>>, prefix: nat)
    requires Splits(m, sub, prefix, 0) && forall c: int <- sub :: sub[c].Keys == {256 * prefix + c}
    ensures |m| == |sub|
  {
    hide Splits, Shr, Digit;
    forall k: int ensures k in m <==> k - 256 * prefix in sub {
      if k in m { var c := PartOf(m, sub, prefix, 0, k); assert k in {256 * prefix + c}; }
      if k - 256 * prefix in sub {
        assert k in sub[k - 256 * prefix].Keys;
        PartAt(m, sub, prefix, 0, k - 256 * prefix, k);
      }
    }
    ShiftSize(m.Keys, sub.Keys, 256 * prefix);
  }

  lemma {:induction false} ShiftSize(a: set<int>, b: set<int>, base: int)
    requires forall k: int :: k in a <==> k - base in b
    ensures |a| == |b|
    decreases |b|
  {
    if b == {} {
      NoElement(a);
    } else {
      HasElement(b);
      var c: int :| c in b;
      assert base + c in a;
      ShiftSize(a - {base + c}, b - {c}, base);
    }
  }
}
