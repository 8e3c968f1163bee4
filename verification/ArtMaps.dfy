/** A radix node's contents as a map split by one byte of the key, without any heap. */
module ArtMaps {
  import opened Keys

  /** m is the disjoint union of the non-empty maps in sub; the keys of sub[b] are those of m
      whose bytes above level are prefix and whose byte at level is b. */
  ghost predicate Splits<V>(m: map<int, V>, sub: map<int, map<int, V>>, prefix: nat, level: nat) {
    && (forall b: int <- sub :: 0 <= b < 256 && sub[b] != map[])
    && (forall k: int <- m ::
          k >= 0 && Shr(k, level + 1) == prefix && Digit(k, level) in sub && k in sub[Digit(k, level)])
    && (forall b: int <- sub :: Part(m, sub[b], 256 * prefix + b, level))
  }

  /** part is a part of m whose keys all have the given leading bytes. */
  ghost predicate Part<V>(m: map<int, V>, part: map<int, V>, lead: nat, level: nat) {
    forall k: int <- part :: k >= 0 && Shr(k, level) == lead && k in m && m[k] == part[k]
  }

  lemma DigitOf(k: nat, level: nat, prefix: nat, b: nat)
    requires b < 256
    ensures Shr(k, level) == 256 * prefix + b <==> Shr(k, level + 1) == prefix && Digit(k, level) == b
  {
    ShrStep(k, level);
  }

  /** Putting a key into the part its byte selects, or into a new part. */
  lemma SplitsPut<V>(m: map<int, V>, sub: map<int, map<int, V>>, prefix: nat, level: nat, b: nat, key: nat, value: V)
    requires Splits(m, sub, prefix, level) && b < 256 && Shr(key, level) == 256 * prefix + b
    ensures var part := (if b in sub then sub[b] else map[])[key := value];
            Splits(m[key := value], sub[b := part], prefix, level)
  {
    hide Shr, Digit;
    var part := (if b in sub then sub[b] else map[])[key := value];
    var m', sub' := m[key := value], sub[b := part];
    assert key in part;
    DigitOf(key, level, prefix, b);
    forall k: int <- m'
      ensures k >= 0 && Shr(k, level + 1) == prefix && Digit(k, level) in sub' && k in sub'[Digit(k, level)]
    {
    }
    forall c: int <- sub' ensures Part(m', sub'[c], 256 * prefix + c, level) {
      assert c in sub ==> Part(m, sub[c], 256 * prefix + c, level);
    }
  }

  /** What the parts become when a key leaves the part of byte b: an emptied part is dropped. */
  ghost function Without<V>(sub: map<int, map<int, V>>, b: int, key: int): map<int, map<int, V>>
    requires b in sub
  {
    if sub[b] - {key} == map[] then sub - {b} else sub[b := sub[b] - {key}]
  }

  /** Removing a key from the part its byte selects. */
  lemma SplitsRemove<V>(m: map<int, V>, sub: map<int, map<int, V>>, prefix: nat, level: nat, b: nat, key: nat)
    requires Splits(m, sub, prefix, level) && b in sub && Shr(key, level) == 256 * prefix + b
    ensures Splits(m - {key}, Without(sub, b, key), prefix, level)
  {
    var m' := m - {key};
    var sub' := Without(sub, b, key);
    DigitOf(key, level, prefix, b);
    forall k: int <- m' ensures Digit(k, level) in sub' && k in sub'[Digit(k, level)] {
      if Digit(k, level) == b { assert k in sub[b] - {key}; }
    }
    forall c: int <- sub' ensures Part(m', sub'[c], 256 * prefix + c, level) {
      assert Part(m, sub[c], 256 * prefix + c, level);
      hide Shr, Digit;
    }
  }

  lemma SameMap<V>(m: map<int, V>, n: map<int, V>)
    requires forall k: int <- m :: k in n && n[k] == m[k]
    requires forall k: int <- n :: k in m
    ensures m == n
  {
    forall k: int ensures k in m <==> k in n {}
    forall k: int | k in m ensures m[k] == n[k] {}
    assert m == n;
  }

  /** A single part is the whole. */
  lemma SplitsOne<V>(m: map<int, V>, sub: map<int, map<int, V>>, prefix: nat, level: nat, b: int)
    requires Splits(m, sub, prefix, level) && b in sub && forall c: int <- sub :: c == b
    ensures m == sub[b]
  {
    assert Part(m, sub[b], 256 * prefix + b, level);
    forall k: int <- m ensures k in sub[b] && sub[b][k] == m[k] {
      assert Digit(k, level) in sub;
    }
    forall k: int <- sub[b] ensures k in m {
      PartKey(m, sub[b], 256 * prefix + b, level, k);
    }
    SameMap(m, sub[b]);
  }

  /** No parts, no keys. */
  lemma SplitsNone<V>(m: map<int, V>, sub: map<int, map<int, V>>, prefix: nat, level: nat)
    requires Splits(m, sub, prefix, level) && sub == map[]
    ensures m == map[]
  {
    assert forall k: int :: k in m ==> false;
    assert m == map[];
  }

  /** A key is looked up in the part its byte selects. */
  lemma SplitsLookup<V>(m: map<int, V>, sub: map<int, map<int, V>>, prefix: nat, level: nat, key: nat)
    requires Splits(m, sub, prefix, level)
    requires Shr(key, level + 1) == prefix && Digit(key, level) in sub
    ensures var part := sub[Digit(key, level)];
            if key in part then key in m && m[key] == part[key] else key !in m
    ensures level == 0 ==> key == 256 * prefix + Digit(key, level)
    ensures Shr(key, level) == 256 * prefix + Digit(key, level)
  {
    var b := Digit(key, level);
    assert Part(m, sub[b], 256 * prefix + b, level);
    DigitOf(key, level, prefix, b);
  }

  /** A key whose leading bytes select no part is absent. */
  lemma SplitsAbsent<V>(m: map<int, V>, sub: map<int, map<int, V>>, prefix: nat, level: nat, key: nat)
    requires Splits(m, sub, prefix, level)
    requires Shr(key, level + 1) != prefix || Digit(key, level) !in sub || key !in sub[Digit(key, level)]
    ensures key !in m
  {
  }

  lemma SplitsSingle<V>(key: nat, value: V, prefix: nat, level: nat, b: nat)
    requires b < 256 && Shr(key, level) == 256 * prefix + b
    ensures Splits(map[key as int := value], map[b as int := map[key as int := value]], prefix, level)
  {
    DigitOf(key, level, prefix, b);
    var m := map[key as int := value];
    var sub := map[b as int := m];
    assert key in m;
    assert Part(m, m, 256 * prefix + b, level);
    assert forall c: int <- sub :: c == b && sub[c] == m;
  }

  /** Two parts with different bytes at a level, under the same leading bytes. */
  lemma SplitsTwo<V>(m1: map<int, V>, m2: map<int, V>, prefix: nat, level: nat, b1: nat, b2: nat)
    requires b1 < 256 && b2 < 256 && b1 != b2 && m1 != map[] && m2 != map[]
    requires forall k: int <- m1 :: k >= 0 && Shr(k, level) == 256 * prefix + b1
    requires forall k: int <- m2 :: k >= 0 && Shr(k, level) == 256 * prefix + b2
    ensures Splits(m1 + m2, map[b1 as int := m1, b2 as int := m2], prefix, level)
  {
    var m, sub := m1 + m2, map[b1 as int := m1, b2 as int := m2];
    forall k: int <- m
      ensures k >= 0 && Shr(k, level + 1) == prefix && Digit(k, level) in sub && k in sub[Digit(k, level)]
    {
      if k in m2 { DigitOf(k, level, prefix, b2); } else { DigitOf(k, level, prefix, b1); }
    }
    assert forall k: int <- m1 :: Shr(k, level) != 256 * prefix + b2;
    assert Part(m, m1, 256 * prefix + b1, level) && Part(m, m2, 256 * prefix + b2, level);
    assert forall b: int <- sub :: b == b1 || b == b2;
  }

  lemma NoElement(s: set<int>)
    requires forall b :: b !in s
    ensures s == {}
  {
    assert forall b :: b in s ==> false;
  }

  /** A non-empty set of integers has an element. */
  lemma HasElement(s: set<int>)
    requires s != {}
    ensures exists b :: b in s
  {
    if forall b :: b !in s {
      NoElement(s);
    }
  }

  lemma {:induction false} PartKey<V>(m: map<int, V>, part: map<int, V>, lead: nat, level: nat, k: int)
    requires Part(m, part, lead, level) && k in part
    ensures k >= 0
    ensures Shr(k, level) == lead
    ensures k in m
    ensures m[k] == part[k]
  {
  }

  lemma NotEmpty<V>(m: map<int, V>, sub: map<int, map<int, V>>, prefix: nat, level: nat)
    requires Splits(m, sub, prefix, level) && sub.Keys != {}
    ensures m != map[]
  {
    HasElement(sub.Keys);
    var b :| b in sub;
    assert sub[b] != map[] && Part(m, sub[b], 256 * prefix + b, level);
    HasElement(sub[b].Keys);
    var k :| k in sub[b];
    PartKey(m, sub[b], 256 * prefix + b, level, k);
    assert m.Keys != {};
  }
}
