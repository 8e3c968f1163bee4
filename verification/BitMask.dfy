/** The slot bit mask of a 48-child node, read as a natural number. */
module BitMask {
  /** (mask >> i) & 1 */
  predicate Bit(mask: nat, i: nat) {
    if i == 0 then mask % 2 == 1 else Bit(mask / 2, i - 1)
  }

  /** mask | (1 << i) */
  function Or(mask: nat, i: nat): nat {
    if i == 0 then mask - mask % 2 + 1 else 2 * Or(mask / 2, i - 1) + mask % 2
  }

  /** mask & ~(1 << i) */
  function AndNot(mask: nat, i: nat): nat {
    if i == 0 then mask - mask % 2 else 2 * AndNot(mask / 2, i - 1) + mask % 2
  }

  /** (1 << n) - 1 */
  function Ones(n: nat): nat {
    if n == 0 then 0 else 2 * Ones(n - 1) + 1
  }

  /** ctz(~mask): the lowest clear bit. */
  function LowestClear(mask: nat): nat {
    if mask % 2 == 0 then 0 else 1 + LowestClear(mask / 2)
  }

  lemma {:induction false} BitOr(mask: nat, i: nat, j: nat)
    ensures Bit(Or(mask, i), j) <==> i == j || Bit(mask, j)
  {
    if i > 0 && j > 0 {
      BitOr(mask / 2, i - 1, j - 1);
      assert Or(mask, i) / 2 == Or(mask / 2, i - 1);
    } else if j > 0 {
      assert Or(mask, i) / 2 == mask / 2;
    }
  }

  lemma {:induction false} BitAndNot(mask: nat, i: nat, j: nat)
    ensures Bit(AndNot(mask, i), j) <==> i != j && Bit(mask, j)
  {
    if i > 0 && j > 0 {
      BitAndNot(mask / 2, i - 1, j - 1);
      assert AndNot(mask, i) / 2 == AndNot(mask / 2, i - 1);
    } else if j > 0 {
      assert AndNot(mask, i) / 2 == mask / 2;
    }
  }

  lemma {:induction false} BitOnes(n: nat, j: nat)
    ensures Bit(Ones(n), j) <==> j < n
  {
    if n > 0 && j > 0 {
      BitOnes(n - 1, j - 1);
    } else if n == 0 && j > 0 {
      BitOnes(0, j - 1);
    }
  }

  lemma {:induction false} LowestClearIsClear(mask: nat)
    ensures !Bit(mask, LowestClear(mask))
    ensures forall j :: 0 <= j < LowestClear(mask) ==> Bit(mask, j)
  {
    if mask % 2 == 1 {
      LowestClearIsClear(mask / 2);
    }
  }
}
