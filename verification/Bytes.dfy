/** Little-endian bytes of fixed-width integers, and byte strings packed into padded arrays of 64-bit words. */
module Bytes {
  type byte = x: int | 0 <= x < 256

  function Pow256(n: nat): (p: nat)
    ensures 0 < p
  {
    if n == 0 then 1 else 256 * Pow256(n - 1)
  }

  /** The low n bytes of v in two's complement, least significant first. */
  function ToBytes(v: int, n: nat): (s: seq<byte>)
    ensures |s| == n
    decreases n
  {
    if n == 0 then [] else [v % 256] + ToBytes(v / 256, n - 1)
  }

  function FromBytes(s: seq<byte>): (v: nat)
    ensures v < Pow256(|s|)
  {
    if s == [] then 0 else s[0] + 256 * FromBytes(s[1..])
  }

  /** The signed integer of the same width with these bytes. */
  function Signed(s: seq<byte>): int {
    var u := FromBytes(s);
    if 2 * u < Pow256(|s|) then u else u - Pow256(|s|)
  }

  predicate Fits(v: int, n: nat) {
    0 - Pow256(n) <= 2 * v < Pow256(n)
  }

  // ----- Round trips -----

  lemma {:induction false} FromTo(v: int, n: nat)
    ensures FromBytes(ToBytes(v, n)) == v % Pow256(n)
    decreases n
  {
    if n == 0 {
      assert v % 1 == 0;
    } else {
      FromTo(v / 256, n - 1);
      assert ToBytes(v, n)[1..] == ToBytes(v / 256, n - 1);
      ModSplit(v, Pow256(n - 1));
    }
  }

  lemma ModSplit(v: int, p: int)
    requires 0 < p
    ensures v % (256 * p) == v % 256 + 256 * ((v / 256) % p)
  {
    var q, r := v / 256, v % 256;
    var a, b := q / p, q % p;
    assert v == 256 * (a * p + b) + r;
    assert 256 * (a * p + b) == a * (256 * p) + 256 * b;
    Remainder(v, 256 * p, a, 256 * b + r);
  }

  lemma Remainder(v: int, m: int, q: int, r: int)
    requires 0 < m && 0 <= r < m && v == q * m + r
    ensures v % m == r
  {
    var d := q - v / m;
    assert v == (v / m) * m + v % m;
    assert d * m == v % m - r by { assert (q - v / m) * m == q * m - (v / m) * m; }
    Multiple(d, m);
  }

  lemma Multiple(d: int, m: int)
    requires 0 < m
    ensures (1 <= d ==> m <= d * m) && (d <= -1 ==> d * m <= -m)
  {
  }

  lemma {:induction false} ToFrom(s: seq<byte>)
    ensures ToBytes(FromBytes(s), |s|) == s
  {
    if s != [] {
      ToFrom(s[1..]);
      var rest := FromBytes(s[1..]);
      assert FromBytes(s) == s[0] + 256 * rest;
      assert (s[0] + 256 * rest) % 256 == s[0] && (s[0] + 256 * rest) / 256 == rest;
      assert s == [s[0]] + s[1..];
    }
  }

  lemma {:induction false} ToBytesShift(v: int, n: nat, k: int)
    ensures ToBytes(v + k * Pow256(n), n) == ToBytes(v, n)
    decreases n
  {
    if n != 0 {
      var p := Pow256(n - 1);
      assert k * (256 * p) == 256 * (k * p);
      var x := k * p;
      assert (v + 256 * x) % 256 == v % 256 && (v + 256 * x) / 256 == v / 256 + x;
      ToBytesShift(v / 256, n - 1, k);
    }
  }

  /** Writing a value that fits and reading it back gives the value. */
  lemma WrittenIsRead(v: int, n: nat)
    requires Fits(v, n)
    ensures Signed(ToBytes(v, n)) == v
  {
    FromTo(v, n);
    var p := Pow256(n);
    if 0 <= v {
      Remainder(v, p, 0, v);
    } else {
      assert v == (-1) * p + (v + p);
      Remainder(v, p, -1, v + p);
    }
  }

  /** Reading bytes as a signed integer and writing it gives the bytes. */
  lemma ReadIsWritten(s: seq<byte>)
    ensures ToBytes(Signed(s), |s|) == s && Fits(Signed(s), |s|)
  {
    hide FromBytes, ToBytes, Pow256;
    ToFrom(s);
    var u := FromBytes(s);
    ToBytesShift(u, |s|, -1);
    assert u + (-1) * Pow256(|s|) == u - Pow256(|s|);
  }

  // ----- Arrays of words -----

  /** Words for n bytes; the source shifts n - 1 right by three, which rounds down for n = 0 too. */
  function WordsFor(n: nat): int {
    (n - 1) / 8 + 1
  }

  function RequiredLongArraySize(n: nat, padding: nat): int
    requires 0 < padding
  {
    var len := WordsFor(n);
    if padding == 1 then len
    else if len % padding == 0 then len else len + padding - len % padding
  }

  /** The array holds the bytes, is a multiple of the padding, and no smaller multiple would hold them. */
  lemma RequiredSizeIs(n: nat, padding: nat)
    requires 0 < padding
    ensures var size := RequiredLongArraySize(n, padding);
            && 0 <= size && n <= 8 * size && size % padding == 0
            && (n == 0 ==> size == 0) && (0 < n ==> 8 * (size - padding) < n)
  {
    var len := WordsFor(n);
    assert 8 * (len - 1) < n <= 8 * len || (n == 0 && len == 0);
    if len % padding != 0 {
      Remainder(len + padding - len % padding, padding, len / padding + 1, 0);
    }
  }

  function Zeros(n: nat): (s: seq<byte>)
    ensures |s| == n
  {
    seq(n, _ => 0)
  }

  function Words(s: seq<byte>): (w: seq<int>)
    requires |s| % 8 == 0
    ensures |w| == |s| / 8
  {
    if s == [] then [] else [Signed(s[..8])] + Words(s[8..])
  }

  function Padded(bytes: seq<byte>, padding: nat): (s: seq<byte>)
    requires 0 < padding
    ensures |s| == 8 * RequiredLongArraySize(|bytes|, padding) && |s| >= |bytes|
  {
    RequiredSizeIs(|bytes|, padding);
    bytes + Zeros(8 * RequiredLongArraySize(|bytes|, padding) - |bytes|)
  }

  function BytesToLongArray(bytes: seq<byte>, padding: nat): (w: seq<int>)
    requires 0 < padding
    ensures |w| == RequiredLongArraySize(|bytes|, padding)
  {
    Words(Padded(bytes, padding))
  }

  function LongsToBytes(words: seq<int>): (s: seq<byte>)
    ensures |s| == 8 * |words|
  {
    if words == [] then [] else ToBytes(words[0], 8) + LongsToBytes(words[1..])
  }

  lemma {:induction false} WordsBack(s: seq<byte>)
    requires |s| % 8 == 0
    ensures LongsToBytes(Words(s)) == s
  {
    hide ToBytes, Signed;
    if s != [] {
      WordsBack(s[8..]);
      ReadIsWritten(s[..8]);
      assert Words(s)[1..] == Words(s[8..]);
      assert s == s[..8] + s[8..];
    }
  }

  /** Packing bytes into words and unpacking them gives the bytes followed by zeros. */
  lemma PackedIsPadded(bytes: seq<byte>, padding: nat)
    requires 0 < padding
    ensures LongsToBytes(BytesToLongArray(bytes, padding)) == Padded(bytes, padding)
  {
    WordsBack(Padded(bytes, padding));
  }
}
