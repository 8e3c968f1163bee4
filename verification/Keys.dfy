/** Keys of the radix tree: non-negative 64-bit integers read as eight bytes.
    Levels are counted in bytes: level n stands for the source's bit level 8n. */
module Keys {
  const MAX_KEY: nat := 0x7FFF_FFFF_FFFF_FFFF
  const TOP: nat := 7

  /** key >> 8n */
  function Shr(key: nat, n: nat): nat {
    if n == 0 then key else Shr(key, n - 1) / 256
  }

  /** (key >> 8n) & 0xFF */
  function Digit(key: nat, n: nat): (d: nat)
    ensures d < 256
  {
    Shr(key, n) % 256
  }

  /** The highest byte in which two keys differ: (63 - clz(a ^ b)) & 0xF8, in bytes. */
  function TopDiff(a: nat, b: nat): nat
    decreases a + b
  {
    if a / 256 == b / 256 then 0 else 1 + TopDiff(a / 256, b / 256)
  }

  lemma ShrStep(key: nat, n: nat)
    ensures Shr(key, n) == 256 * Shr(key, n + 1) + Digit(key, n) && Shr(key, 0) == key
  {
  }

  lemma {:induction false} ShrOuter(key: nat, n: nat)
    ensures Shr(key / 256, n) == Shr(key, n + 1)
  {
    if n > 0 { ShrOuter(key, n - 1); }
  }

  lemma {:induction false} ShrMonotone(a: nat, b: nat, n: nat)
    requires a <= b
    ensures Shr(a, n) <= Shr(b, n)
  {
    if n > 0 { ShrMonotone(a, b, n - 1); }
  }

  /** Keys that agree above a level agree above every higher level. */
  lemma {:induction false} ShrAgree(a: nat, b: nat, n: nat, k: nat)
    requires n <= k && Shr(a, n) == Shr(b, n)
    ensures Shr(a, k) == Shr(b, k)
  {
    if n < k { ShrAgree(a, b, n, k - 1); }
  }

  lemma {:induction false} ShrBound(key: nat, n: nat, bound: nat)
    requires n > 0 && Shr(key, n - 1) < 256 * bound
    ensures Shr(key, n) < bound
  {
  }

  /** A 63-bit key has nothing above its eighth byte. */
  lemma {:induction false} ShrZero(key: nat)
    requires key <= MAX_KEY
    ensures Shr(key, 8) == 0
  {
    ShrBound(key, 1, 0x80_0000_0000_0000);
    ShrBound(key, 2, 0x8000_0000_0000);
    ShrBound(key, 3, 0x80_0000_0000);
    ShrBound(key, 4, 0x8000_0000);
    ShrBound(key, 5, 0x80_0000);
    ShrBound(key, 6, 0x8000);
    ShrBound(key, 7, 0x80);
  }

  lemma {:induction false} TopDiffCorrect(a: nat, b: nat)
    requires a != b
    ensures Shr(a, TopDiff(a, b) + 1) == Shr(b, TopDiff(a, b) + 1)
    ensures Digit(a, TopDiff(a, b)) != Digit(b, TopDiff(a, b))
    decreases a + b
  {
    if a / 256 == b / 256 {
      assert Shr(a, 0) == a && Shr(b, 0) == b;
      assert Shr(a, 1) == Shr(a, 0) / 256 && Shr(b, 1) == Shr(b, 0) / 256;
    } else {
      var n := TopDiff(a / 256, b / 256);
      TopDiffCorrect(a / 256, b / 256);
      ShrOuter(a, n);
      ShrOuter(b, n);
      ShrOuter(a, n + 1);
      ShrOuter(b, n + 1);
    }
  }

  /** key & (-1 << 8n) */
  function Mask(key: nat, n: nat): nat {
    if n == 0 then key else 256 * Mask(key / 256, n - 1)
  }

  lemma {:induction false} MaskKeepsHigh(key: nat, n: nat, k: nat)
    requires n <= k
    ensures Shr(Mask(key, n), k) == Shr(key, k)
  {
    if n > 0 {
      MaskKeepsHigh(key / 256, n - 1, k - 1);
      ShrOuter(Mask(key, n), k - 1);
      ShrOuter(key, k - 1);
      assert Mask(key, n) / 256 == Mask(key / 256, n - 1);
    }
  }

  /** Two keys that agree above a level, both read under the first one's masked key. */
  lemma BranchDigits(key1: nat, key2: nat, n: nat)
    requires Shr(key1, n + 1) == Shr(key2, n + 1)
    ensures Shr(Mask(key1, n), n + 1) == Shr(key1, n + 1)
    ensures Shr(key1, n) == 256 * Shr(Mask(key1, n), n + 1) + Digit(key1, n)
    ensures Shr(key2, n) == 256 * Shr(Mask(key1, n), n + 1) + Digit(key2, n)
  {
    MaskKeepsHigh(key1, n, n + 1);
    ShrStep(key1, n);
    ShrStep(key2, n);
  }

  /** The level at which a key branches off a node: at or above the node's own, within what is agreed above. */
  lemma BranchLevel(key: nat, nodeKey: nat, n: nat, level: nat)
    requires n <= level && Shr(key, level + 1) == Shr(nodeKey, level + 1) && Shr(key, n) != Shr(nodeKey, n)
    ensures var t := TopDiff(key, nodeKey);
            n <= t <= level && Shr(key, t + 1) == Shr(nodeKey, t + 1) && Digit(key, t) != Digit(nodeKey, t)
    ensures TopDiff(key, nodeKey) == n <==> Shr(key, n + 1) == Shr(nodeKey, n + 1)
  {
    hide Shr;
    var t := TopDiff(key, nodeKey);
    assert key != nodeKey;
    TopDiffCorrect(key, nodeKey);
    if t < n { ShrAgree(key, nodeKey, t + 1, n); }
    if level < t { ShrAgree(key, nodeKey, level + 1, t); }
    if n < t && Shr(key, n + 1) == Shr(nodeKey, n + 1) { ShrAgree(key, nodeKey, n + 1, t); }
  }

  /** A key of two bytes. */
  lemma SmallKey(k: nat)
    requires k < 65536
    ensures Shr(k, 0) == k && Shr(k, 1) == k / 256 && Digit(k, 1) == k / 256 && Digit(k, 0) == k % 256 && Shr(k, 2) == 0
  {
    assert Shr(k, 2) == Shr(k, 1) / 256;
  }

  lemma {:induction false} HighBytes(k: nat, n: nat)
    requires k < 65536 && 2 <= n
    ensures Shr(k, n) == 0 && Digit(k, n) == 0
  {
    if n == 2 { SmallKey(k); } else { HighBytes(k, n - 1); }
  }
}
