/** Price levels of a side: how much rests at each price, and where each level ends. */
module BookLevels {
  import opened Wrappers
  import opened OrderTypes
  import opened ArtOrder
  import opened BookSpec
  import opened BookFacts

  function VolumeAt(side: seq<Order>, price: int): int {
    if side == [] then 0 else (if side[0].price == price then side[0].Remaining() else 0) + VolumeAt(side[1..], price)
  }

  function CountAt(side: seq<Order>, price: int): (n: nat)
    ensures n <= |side|
  {
    if side == [] then 0 else (if side[0].price == price then 1 else 0) + CountAt(side[1..], price)
  }

  /** Some order rests at the price. */
  ghost predicate AtPrice(side: seq<Order>, price: int) {
    exists i :: 0 <= i < |side| && side[i].price == price
  }

  /** Position i is the last of its price level. */
  predicate Tail(side: seq<Order>, i: nat)
    requires i < |side|
  {
    i + 1 == |side| || side[i + 1].price != side[i].price
  }

  lemma {:induction false} VolumeConcat(a: seq<Order>, b: seq<Order>, price: int)
    ensures VolumeAt(a + b, price) == VolumeAt(a, price) + VolumeAt(b, price)
    ensures CountAt(a + b, price) == CountAt(a, price) + CountAt(b, price)
  {
    if a == [] {
      assert a + b == b;
    } else {
      VolumeConcat(a[1..], b, price);
      assert (a + b)[1..] == a[1..] + b;
    }
  }

  lemma VolumeOne(o: Order, price: int)
    ensures VolumeAt([o], price) == (if o.price == price then o.Remaining() else 0)
    ensures CountAt([o], price) == (if o.price == price then 1 else 0)
  {
    assert [o][1..] == [];
  }

  lemma VolumeInserted(side: seq<Order>, p: nat, o: Order, price: int)
    requires p <= |side|
    ensures VolumeAt(InsertAt(side, p, o), price)
            == VolumeAt(side, price) + (if o.price == price then o.Remaining() else 0)
    ensures CountAt(InsertAt(side, p, o), price) == CountAt(side, price) + (if o.price == price then 1 else 0)
  {
    hide VolumeAt, CountAt;
    VolumeConcat(side[..p], [o], price);
    VolumeConcat(side[..p] + [o], side[p..], price);
    VolumeConcat(side[..p], side[p..], price);
    VolumeOne(o, price);
    assert side == side[..p] + side[p..];
  }

  lemma VolumeRemoved(side: seq<Order>, i: nat, price: int)
    requires i < |side|
    ensures VolumeAt(RemoveAt(side, i), price)
            == VolumeAt(side, price) - (if side[i].price == price then side[i].Remaining() else 0)
    ensures CountAt(RemoveAt(side, i), price) == CountAt(side, price) - (if side[i].price == price then 1 else 0)
  {
    hide VolumeAt, CountAt;
    VolumeInserted(RemoveAt(side, i), i, side[i], price);
    assert side == InsertAt(RemoveAt(side, i), i, side[i]);
  }

  lemma VolumeReplaced(side: seq<Order>, i: nat, o: Order, price: int)
    requires i < |side| && o.price == side[i].price
    ensures VolumeAt(side[i := o], price)
            == VolumeAt(side, price) + (if o.price == price then o.Remaining() - side[i].Remaining() else 0)
    ensures CountAt(side[i := o], price) == CountAt(side, price)
  {
    hide VolumeAt, CountAt;
    VolumeRemoved(side, i, price);
    VolumeRemoved(side[i := o], i, price);
    assert RemoveAt(side, i) == RemoveAt(side[i := o], i);
  }

  lemma {:induction false} VolumeNone(side: seq<Order>, price: int)
    requires CountAt(side, price) == 0
    ensures VolumeAt(side, price) == 0
  {
    if side != [] { VolumeNone(side[1..], price); }
  }

  lemma {:induction false} CountIsPositive(side: seq<Order>, price: int)
    ensures 0 < CountAt(side, price) <==> AtPrice(side, price)
  {
    if side != [] {
      CountIsPositive(side[1..], price);
      if AtPrice(side[1..], price) {
        var i :| 0 <= i < |side[1..]| && side[1..][i].price == price;
        assert side[i + 1].price == price;
      }
      if AtPrice(side, price) && side[0].price != price {
        var i :| 0 <= i < |side| && side[i].price == price;
        assert side[1..][i - 1].price == price;
      }
    }
  }

  /** A level's volume is positive: live orders have something left. */
  lemma {:induction false} VolumeIsPositive(side: seq<Order>, action: OrderAction, price: int)
    requires SideOk(side, action)
    ensures 0 <= VolumeAt(side, price) && (0 < VolumeAt(side, price) <==> AtPrice(side, price))
  {
    CountIsPositive(side, price);
    VolumeCount(side, action, price);
  }

  lemma {:induction false} VolumeCount(side: seq<Order>, action: OrderAction, price: int)
    requires forall i | 0 <= i < |side| :: Live(side[i], action)
    ensures CountAt(side, price) <= VolumeAt(side, price) && (CountAt(side, price) == 0 ==> VolumeAt(side, price) == 0)
  {
    if side != [] { VolumeCount(side[1..], action, price); }
  }

  // ----- Where the levels end -----

  /** A new order goes right after the last order of its own level, or of the next better one. */
  lemma PlaceIsAfterTail(side: seq<Order>, action: OrderAction, price: int)
    requires SideOk(side, action)
    ensures var p := Place(side, action, price);
            && (0 < p ==> Tail(side, p - 1))
            && (AtPrice(side, price) <==> 0 < p && side[p - 1].price == price)
            && (forall i | 0 <= i < p :: !Better(action, price, side[i].price))
            && (forall i | p <= i < |side| :: Better(action, price, side[i].price))
  {
    PlaceSplits(side, action, price);
    var p := Place(side, action, price);
    if AtPrice(side, price) {
      var i :| 0 <= i < |side| && side[i].price == price;
      assert i < p;
    }
  }

  /** The level just better than a new price, if there is one, is that of the order before its place. */
  lemma BetterLevel(side: seq<Order>, action: OrderAction, price: int)
    requires SideOk(side, action) && !AtPrice(side, price)
    ensures var p := Place(side, action, price);
            && (0 < p ==> Better(action, side[p - 1].price, price))
            && (forall i | 0 <= i < |side| && Better(action, side[i].price, price) ::
                  0 < p && !Better(action, side[p - 1].price, side[i].price))
            && (p == 0 ==> forall i | 0 <= i < |side| :: Better(action, price, side[i].price))
  {
    PlaceIsAfterTail(side, action, price);
    var p := Place(side, action, price);
    if 0 < p { assert side[p - 1].price != price; }
    forall i | 0 <= i < |side| && Better(action, side[i].price, price)
      ensures 0 < p && !Better(action, side[p - 1].price, side[i].price)
    {
      assert i < p;
    }
  }

  lemma TailInserted(side: seq<Order>, o: Order, i: nat)
    requires SideOk(side, o.action) && i <= |side|
    ensures var p := Place(side, o.action, o.price);
            var s := InsertAt(side, p, o);
            && (i == p ==> Tail(s, i))
            && (i < p ==> (Tail(s, i) <==> Tail(side, i) && (i + 1 == p ==> side[i].price != o.price)))
            && (p < i ==> (Tail(s, i) <==> Tail(side, i - 1)))
  {
    PlaceIsAfterTail(side, o.action, o.price);
    var p := Place(side, o.action, o.price);
    if p < |side| { assert side[p].price != o.price; }
  }

  lemma TailRemoved(side: seq<Order>, k: nat, i: nat)
    requires k < |side| && i + 1 < |side|
    ensures var s := RemoveAt(side, k);
            && (k <= i ==> (Tail(s, i) <==> Tail(side, i + 1)))
            && (i + 1 < k ==> (Tail(s, i) <==> Tail(side, i)))
            && (i + 1 == k ==> (Tail(s, i) <==> k + 1 == |side| || side[k + 1].price != side[i].price))
  {
  }

  lemma TailReplaced(side: seq<Order>, k: nat, o: Order, i: nat)
    requires k < |side| && i < |side| && o.price == side[k].price
    ensures Tail(side[k := o], i) <==> Tail(side, i)
  {
  }

  lemma AfterTail(side: seq<Order>, action: OrderAction, k: nat)
    requires Ranked(side, action) && k < |side| && Tail(side, k)
    ensures forall j | k < j < |side| :: side[j].price != side[k].price
  {
    forall j | k < j < |side| ensures side[j].price != side[k].price {
      assert !Better(action, side[k + 1].price, side[k].price)
             && (j == k + 1 || !Better(action, side[j].price, side[k + 1].price));
    }
  }

  /** Removing the last order of a level that has others leaves the order before it as the last. */
  lemma TailBefore(side: seq<Order>, action: OrderAction, k: nat)
    requires SideOk(side, action) && k < |side| && Tail(side, k)
    ensures 0 < k && side[k - 1].price == side[k].price <==> 1 < CountAt(side, side[k].price)
  {
    var price := side[k].price;
    VolumeRemoved(side, k, price);
    CountIsPositive(RemoveAt(side, k), price);
    if AtPrice(RemoveAt(side, k), price) {
      var i :| 0 <= i < |side| - 1 && RemoveAt(side, k)[i].price == price;
      var j := if i < k then i else i + 1;
      assert side[j].price == price;
      AfterTail(side, action, k);
      assert !Better(action, side[k - 1].price, side[j].price) && !Better(action, side[k].price, side[k - 1].price);
    }
    if 0 < k && side[k - 1].price == price {
      assert RemoveAt(side, k)[k - 1].price == price;
    }
  }

  /** The last position of the level that position i belongs to. */
  function TailOf(side: seq<Order>, i: nat): (t: nat)
    requires i < |side|
    ensures i <= t < |side| && Tail(side, t) && side[t].price == side[i].price
    decreases |side| - i
  {
    if Tail(side, i) then i else TailOf(side, i + 1)
  }

  lemma DropFirst(side: seq<Order>, price: int)
    requires side != []
    ensures VolumeAt(side[1..], price)
            == VolumeAt(side, price) - (if side[0].price == price then side[0].Remaining() else 0)
    ensures CountAt(side[1..], price) == CountAt(side, price) - (if side[0].price == price then 1 else 0)
  {
  }

  lemma AtPriceTail(side: seq<Order>, price: int)
    requires side != [] && AtPrice(side, price) && side[0].price != price
    ensures AtPrice(side[1..], price)
  {
    var i :| 0 <= i < |side| && side[i].price == price;
    assert side[1..][i - 1].price == price;
  }

  /** How many rest at the price of position i, seen from the neighbours. */
  lemma CountOfTail(side: seq<Order>, action: OrderAction, i: nat)
    requires SideOk(side, action) && i < |side|
    ensures Tail(side, i) ==> (0 < i && side[i - 1].price == side[i].price <==> CountAt(side, side[i].price) != 1)
    ensures !Tail(side, i) ==> CountAt(side, side[i].price) != 1
    ensures CountAt(side, side[i].price) == 1 ==> forall j | 0 <= j < |side| && j != i :: side[j].price != side[i].price
  {
    hide CountAt, Tail;
    var price := side[i].price;
    CountIsPositive(side, price);
    VolumeRemoved(side, i, price);
    CountIsPositive(RemoveAt(side, i), price);
    if Tail(side, i) { TailBefore(side, action, i); } else { NotTail(side, i); }
    forall j | 0 <= j < |side| && j != i && side[j].price == price ensures AtPrice(RemoveAt(side, i), price) {
      assert RemoveAt(side, i)[if j < i then j else j - 1].price == price;
    }
  }

  lemma NotTail(side: seq<Order>, i: nat)
    requires i < |side| && !Tail(side, i)
    ensures i + 1 < |side| && side[i + 1].price == side[i].price
  {
  }

  // ----- Cost of filling, level by level -----

  lemma {:induction false} VolumeAbsent(side: seq<Order>, price: int)
    requires forall i | 0 <= i < |side| :: side[i].price != price
    ensures VolumeAt(side, price) == 0
  {
    if side != [] { VolumeAbsent(side[1..], price); }
  }

  lemma {:induction false} VolumeWhole(side: seq<Order>, price: int)
    requires forall i | 0 <= i < |side| :: side[i].price == price
    ensures VolumeAt(side, price) == Volume(side)
  {
    if side != [] { VolumeWhole(side[1..], price); }
  }

  /** Position i is the first of its price level. */
  predicate Start(side: seq<Order>, i: nat)
    requires i < |side|
  {
    i == 0 || side[i - 1].price != side[i].price
  }

  lemma {:induction false} WithinLevel(side: seq<Order>, i: nat, k: nat)
    requires i < |side| && i <= k <= TailOf(side, i)
    ensures side[k].price == side[i].price && TailOf(side, k) == TailOf(side, i)
    decreases k - i
  {
    if i < k { WithinLevel(side, i + 1, k); }
  }

  lemma BeforeStart(side: seq<Order>, action: OrderAction, i: nat)
    requires SideOk(side, action) && i < |side| && Start(side, i)
    ensures forall k | 0 <= k < i :: side[k].price != side[i].price
  {
    forall k | 0 <= k < i ensures side[k].price != side[i].price {
      assert k == i - 1 || !Better(action, side[i - 1].price, side[k].price);
      assert !Better(action, side[i].price, side[i - 1].price);
    }
  }

  /** A level's segment of the list. */
  ghost function Segment(side: seq<Order>, i: nat): (level: seq<Order>)
    requires i < |side|
    ensures level != [] && forall k | 0 <= k < |level| :: level[k].price == side[i].price
    ensures side[i..] == level + side[TailOf(side, i) + 1..]
  {
    var level := side[i..TailOf(side, i) + 1];
    assert forall k | i <= k <= TailOf(side, i) :: side[k].price == side[i].price by {
      forall k | i <= k <= TailOf(side, i) ensures side[k].price == side[i].price { WithinLevel(side, i, k); }
    }
    level
  }

  /** A level's volume is that of its segment. */
  lemma LevelVolume(side: seq<Order>, action: OrderAction, i: nat)
    requires SideOk(side, action) && i < |side| && Start(side, i)
    ensures VolumeAt(side, side[i].price) == Volume(Segment(side, i))
  {
    hide VolumeAt, CountAt, SideOk, Tail, Segment, Volume;
    var j, price := TailOf(side, i), side[i].price;
    var head, level, rest := side[..i], Segment(side, i), side[j + 1..];
    assert side == head + side[i..];
    VolumeConcat(head, level + rest, price);
    VolumeConcat(level, rest, price);
    VolumeWhole(level, price);
    SideRanked(side, action);
    AfterTail(side, action, j);
    VolumeAbsent(rest, price);
    BeforeStart(side, action, i);
    VolumeAbsent(head, price);
  }

  lemma SegmentLive(side: seq<Order>, action: OrderAction, i: nat)
    requires SideOk(side, action) && i < |side|
    ensures forall k | 0 <= k < |Segment(side, i)| :: 0 < Segment(side, i)[k].Remaining()
  {
    var level := Segment(side, i);
    forall k | 0 <= k < |level| ensures 0 < level[k].Remaining() {
      assert level[k] == side[i..][k];
    }
  }

  lemma SideRanked(side: seq<Order>, action: OrderAction)
    requires SideOk(side, action)
    ensures Ranked(side, action)
  {
  }

  function AddCost(cost: int, rest: Option<int>): Option<int> {
    if rest.None? then None else Some(cost + rest.value)
  }

  lemma BudgetEmpty(side: seq<Order>, size: int)
    requires side == []
    ensures Budget(side, size) == None
  {
  }

  lemma BudgetStep(o: Order, rest: seq<Order>, size: int)
    ensures Budget([o] + rest, size) == if size <= o.Remaining() then Some(size * o.price)
            else AddCost(o.Remaining() * o.price, Budget(rest, size - o.Remaining()))
  {
    assert ([o] + rest)[1..] == rest;
  }

  lemma {:induction false} VolumeNonNegative(side: seq<Order>)
    requires forall i | 0 <= i < |side| :: 0 < side[i].Remaining()
    ensures 0 <= Volume(side)
  {
    if side != [] { VolumeNonNegative(side[1..]); }
  }

  lemma {:induction false} BudgetGroup(level: seq<Order>, rest: seq<Order>, price: int, size: int)
    requires forall i | 0 <= i < |level| :: level[i].price == price && 0 < level[i].Remaining()
    ensures level != [] && size <= Volume(level) ==> Budget(level + rest, size) == Some(size * price)
    ensures size > Volume(level) ==>
              Budget(level + rest, size) == AddCost(Volume(level) * price, Budget(rest, size - Volume(level)))
  {
    hide Budget;
    if level == [] {
      assert level + rest == rest;
    } else {
      var v := level[0].Remaining();
      assert level + rest == [level[0]] + (level[1..] + rest);
      BudgetStep(level[0], level[1..] + rest, size);
      BudgetGroup(level[1..], rest, price, size - v);
      VolumeNonNegative(level[1..]);
      Distribute(v, size - v, price);
      Distribute(v, Volume(level[1..]), price);
    }
  }

  lemma Distribute(a: int, b: int, c: int)
    ensures (a + b) * c == a * c + b * c
  {
  }

  /** Filling from the start of a level: the level covers the size, or is used up and the rest follows. */
  lemma BudgetLevel(side: seq<Order>, action: OrderAction, i: nat, size: int)
    requires SideOk(side, action) && i < |side| && Start(side, i)
    ensures var v, price, j := VolumeAt(side, side[i].price), side[i].price, TailOf(side, i);
            Budget(side[i..], size) == if size <= v then Some(size * price)
                else AddCost(v * price, Budget(side[j + 1..], size - v))
  {
    hide Budget, VolumeAt, Segment, TailOf;
    LevelVolume(side, action, i);
    SegmentLive(side, action, i);
    BudgetGroup(Segment(side, i), side[TailOf(side, i) + 1..], side[i].price, size);
  }

  // ----- The levels as market data shows them -----

  ghost function Levels(side: seq<Order>): (m: map<int, Level>)
    ensures forall p: int :: p in m <==> AtPrice(side, p)
    ensures forall p: int <- m :: m[p] == Level(VolumeAt(side, p), CountAt(side, p))
  {
    map p: int | p in PricesOf(side) :: Level(VolumeAt(side, p), CountAt(side, p))
  }

  ghost function PricesOf(side: seq<Order>): (s: set<int>)
    ensures forall p: int :: p in s <==> AtPrice(side, p)
  {
    set i | 0 <= i < |side| :: side[i].price
  }

  /** As many levels as there are distinct prices. */
  lemma LevelCount(side: seq<Order>, prices: set<int>)
    requires forall p: int :: p in prices <==> AtPrice(side, p)
    ensures |Levels(side)| == |prices|
  {
    var m := Levels(side);
    assert forall p: int :: p in m.Keys ==> p in prices;
    assert forall p: int :: p in prices ==> p in m.Keys;
    assert m.Keys == prices;
  }

  /** The low 32 bits of a size as a signed number; a negative one asks for everything. */
  function DepthOf(size: int): nat {
    var low := size % 0x1_0000_0000;
    if low < 0x8000_0000 then low else 0x7FFF_FFFF
  }

  /** Market data of a book: the best levels of each side, aggregated by price. */
  ghost predicate MarketDataOf(book: Book, depth: nat, data: MarketData) {
    First(Levels(book.asks), data.asks, depth, false) && First(Levels(book.bids), data.bids, depth, true)
  }

  /** There is only one. */
  lemma MarketDataUnique(book: Book, depth: nat, a: MarketData, b: MarketData)
    requires MarketDataOf(book, depth, a) && MarketDataOf(book, depth, b)
    ensures a == b
  {
    hide First, Levels;
    FirstUnique(Levels(book.asks), a.asks, b.asks, depth, false);
    FirstUnique(Levels(book.bids), a.bids, b.bids, depth, true);
  }
}
