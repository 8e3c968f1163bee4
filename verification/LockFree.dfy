/** Compare-and-swap loops on the fields of one command, run by many shards in any interleaving: appending a chain of
    events to the command's chain, and merging result codes. */
module LockFree {
  import opened Wrappers
  import opened Bytes
  import opened EventChain

  // ----- Appending chains -----

  /** The index-th node of a shard's chain. */
  datatype Node = Node(shard: nat, index: nat)

  datatype Pc = Load | Link(expected: Option<Node>) | Swap(expected: Option<Node>) | Appended

  /** The command's chain head, the links of all nodes, where each shard is, and the shards that have appended, latest
      first. */
  datatype Shared = Shared(head: Option<Node>, next: map<Node, Option<Node>>, pcs: seq<Pc>, order: seq<nat>)

  /** A step of one shard; a weak compare-and-swap may fail without a reason. */
  datatype Move = Move(t: nat, spurious: bool)

  function NextOf(next: map<Node, Option<Node>>, n: Node): Option<Node> {
    if n in next then next[n] else None
  }

  /** A shard without events returns at once. The tail is linked to the head seen, and the swap succeeds only if the
      head is still that. */
  function Perform(x: Shared, lengths: seq<nat>, m: Move): (y: Shared)
    requires |x.pcs| == |lengths| && m.t < |lengths|
    ensures |y.pcs| == |x.pcs|
  {
    match x.pcs[m.t]
    case Load => x.(pcs := x.pcs[m.t := if lengths[m.t] == 0 then Appended else Link(x.head)])
    case Link(expected) =>
      if lengths[m.t] == 0 then x
      else x.(next := x.next[Node(m.t, lengths[m.t] - 1) := expected], pcs := x.pcs[m.t := Swap(expected)])
    case Swap(expected) =>
      if x.head == expected && !m.spurious
      then x.(head := Some(Node(m.t, 0)), pcs := x.pcs[m.t := Appended], order := [m.t] + x.order)
      else x.(pcs := x.pcs[m.t := Link(x.head)])
    case Appended => x
  }

  /** Every shard's chain is linked inside; nothing is attached to the command. */
  ghost predicate Begun(x: Shared, lengths: seq<nat>) {
    && x.head == None && x.order == [] && |x.pcs| == |lengths|
    && (forall t: nat | t < |lengths| :: x.pcs[t] == Load)
    && Inside(x.next, lengths)
  }

  ghost predicate Inside(next: map<Node, Option<Node>>, lengths: seq<nat>) {
    forall t: nat, i: nat | t < |lengths| && i + 1 < lengths[t] :: NextOf(next, Node(t, i)) == Some(Node(t, i + 1))
  }

  /** Following the links from a head visits these nodes and ends. */
  ghost predicate IsList(next: map<Node, Option<Node>>, head: Option<Node>, nodes: seq<Node>)
    decreases |nodes|
  {
    if nodes == [] then head == None else head == Some(nodes[0]) && IsList(next, NextOf(next, nodes[0]), nodes[1..])
  }

  function NodesFrom(t: nat, i: nat, length: nat): seq<Node>
    decreases length - i
  {
    if i >= length then [] else [Node(t, i)] + NodesFrom(t, i + 1, length)
  }

  /** The chains of the shards that have appended, latest first. */
  function Appends(order: seq<nat>, lengths: seq<nat>): seq<Node> {
    if order == [] then []
    else (if order[0] < |lengths| then NodesFrom(order[0], 0, lengths[order[0]]) else []) + Appends(order[1..], lengths)
  }

  ghost predicate OrderOk(x: Shared, lengths: seq<nat>)
    requires |x.pcs| == |lengths|
  {
    && (forall k | 0 <= k < |x.order| :: x.order[k] < |lengths| && 0 < lengths[x.order[k]])
    && (forall k, l | 0 <= k < l < |x.order| :: x.order[k] != x.order[l])
    && (forall t: nat | t < |lengths| :: (t in x.order) == (x.pcs[t] == Appended && 0 < lengths[t]))
  }

  ghost predicate Linking(x: Shared, lengths: seq<nat>)
    requires |x.pcs| == |lengths|
  {
    forall t: nat | t < |lengths| ::
      && (x.pcs[t].Link? || x.pcs[t].Swap? ==> 0 < lengths[t])
      && (x.pcs[t].Swap? ==> NextOf(x.next, Node(t, lengths[t] - 1)) == x.pcs[t].expected)
  }

  ghost predicate Invariant(x: Shared, lengths: seq<nat>) {
    && |x.pcs| == |lengths|
    && Inside(x.next, lengths) && OrderOk(x, lengths) && Linking(x, lengths)
    && IsList(x.next, x.head, Appends(x.order, lengths))
  }

  // ----- Lists -----

  /** A list has one sequence of nodes only, so a chain cannot run in a circle. */
  lemma {:induction false} ListUnique(next: map<Node, Option<Node>>, head: Option<Node>, a: seq<Node>, b: seq<Node>)
    requires IsList(next, head, a) && IsList(next, head, b)
    ensures a == b
    decreases |a|
  {
    if a != [] {
      assert b != [] && a[0] == b[0];
      ListUnique(next, NextOf(next, a[0]), a[1..], b[1..]);
      assert a == [a[0]] + a[1..] && b == [b[0]] + b[1..];
    }
  }

  lemma {:induction false} ListFrame(next: map<Node, Option<Node>>, n: Node, to: Option<Node>, head: Option<Node>,
                                     nodes: seq<Node>)
    requires IsList(next, head, nodes) && n !in nodes
    ensures IsList(next[n := to], head, nodes)
    decreases |nodes|
  {
    if nodes != [] {
      assert nodes[0] in nodes;
      ListFrame(next, n, to, NextOf(next, nodes[0]), nodes[1..]);
    }
  }

  lemma {:induction false} NodesFromAre(t: nat, i: nat, length: nat)
    ensures forall n: Node :: n in NodesFrom(t, i, length) <==> n.shard == t && i <= n.index < length
    ensures |NodesFrom(t, i, length)| == if i < length then length - i else 0
    ensures forall k | 0 <= k < |NodesFrom(t, i, length)| :: NodesFrom(t, i, length)[k] == Node(t, i + k)
    decreases length - i
  {
    if i < length {
      NodesFromAre(t, i + 1, length);
      var rest := NodesFrom(t, i + 1, length);
      var all := NodesFrom(t, i, length);
      assert all == [Node(t, i)] + rest;
      forall n: Node ensures n in all <==> n.shard == t && i <= n.index < length {
        if n in rest { assert n in all; }
        if n.shard == t && n.index == i { assert n == all[0]; }
      }
      forall k | 0 <= k < |all| ensures all[k] == Node(t, i + k) {
        if 0 < k { assert all[k] == rest[k - 1]; }
      }
    }
  }

  lemma {:induction false} AppendsAre(order: seq<nat>, lengths: seq<nat>)
    ensures forall n: Node :: n in Appends(order, lengths) <==>
              n.shard in order && n.shard < |lengths| && n.index < lengths[n.shard]
  {
    if order != [] {
      AppendsAre(order[1..], lengths);
      if order[0] < |lengths| { NodesFromAre(order[0], 0, lengths[order[0]]); }
      forall n: Node
        ensures n in Appends(order, lengths) <==> n.shard in order && n.shard < |lengths| && n.index < lengths[n.shard]
      {
        if n.shard in order { assert n.shard == order[0] || n.shard in order[1..]; }
      }
    }
  }

  /** A shard's chain with its tail linked to a list is a list. */
  lemma {:induction false} ChainThen(next: map<Node, Option<Node>>, lengths: seq<nat>, t: nat, i: nat,
                                     head: Option<Node>, rest: seq<Node>)
    requires Inside(next, lengths) && t < |lengths| && i < lengths[t]
    requires NextOf(next, Node(t, lengths[t] - 1)) == head && IsList(next, head, rest)
    ensures IsList(next, Some(Node(t, i)), NodesFrom(t, i, lengths[t]) + rest)
    decreases lengths[t] - i
  {
    hide IsList;
    var tail := NodesFrom(t, i + 1, lengths[t]) + rest;
    assert NodesFrom(t, i, lengths[t]) + rest == [Node(t, i)] + tail;
    if i + 1 < lengths[t] {
      assert NextOf(next, Node(t, i)) == Some(Node(t, i + 1));
      ChainThen(next, lengths, t, i + 1, head, rest);
    } else {
      assert tail == rest;
    }
    ListCons(next, Node(t, i), tail);
  }

  lemma ListCons(next: map<Node, Option<Node>>, n: Node, nodes: seq<Node>)
    requires IsList(next, NextOf(next, n), nodes)
    ensures IsList(next, Some(n), [n] + nodes)
  {
    assert ([n] + nodes)[1..] == nodes;
  }

  // ----- Every interleaving -----

  lemma LinkKeeps(x: Shared, lengths: seq<nat>, t: nat)
    requires Invariant(x, lengths) && t < |lengths| && x.pcs[t].Link?
    ensures Invariant(Perform(x, lengths, Move(t, false)), lengths)
  {
    hide IsList, Appends;
    var tail := Node(t, lengths[t] - 1);
    AppendsAre(x.order, lengths);
    assert t !in x.order;
    ListFrame(x.next, tail, x.pcs[t].expected, x.head, Appends(x.order, lengths));
    var y := Perform(x, lengths, Move(t, false));
    forall u: nat, i: nat | u < |lengths| && i + 1 < lengths[u]
      ensures NextOf(y.next, Node(u, i)) == Some(Node(u, i + 1))
    {
      assert NextOf(x.next, Node(u, i)) == Some(Node(u, i + 1));
    }
  }

  lemma SwapKeeps(x: Shared, lengths: seq<nat>, t: nat)
    requires Invariant(x, lengths) && t < |lengths| && x.pcs[t].Swap? && x.head == x.pcs[t].expected
    ensures Invariant(Perform(x, lengths, Move(t, false)), lengths)
  {
    hide IsList;
    var y := Perform(x, lengths, Move(t, false));
    ChainThen(x.next, lengths, t, 0, x.head, Appends(x.order, lengths));
    assert t !in x.order;
    assert y.order[1..] == x.order && y.order[0] == t;
    forall u: nat | u < |lengths| ensures (u in y.order) == (y.pcs[u] == Appended && 0 < lengths[u]) {
      assert u in y.order <==> u == t || u in x.order;
    }
  }

  lemma PerformKeeps(x: Shared, lengths: seq<nat>, m: Move)
    requires Invariant(x, lengths) && m.t < |lengths|
    ensures Invariant(Perform(x, lengths, m), lengths)
  {
    hide IsList, Appends;
    match x.pcs[m.t]
    case Load =>
    case Link(expected) => LinkKeeps(x, lengths, m.t);
    case Swap(expected) =>
      if x.head == expected && !m.spurious { SwapKeeps(x, lengths, m.t); }
    case Appended =>
  }

  function PerformAll(x: Shared, lengths: seq<nat>, moves: seq<Move>): (y: Shared)
    requires |x.pcs| == |lengths|
    ensures |y.pcs| == |x.pcs|
    decreases |moves|
  {
    if moves == [] then x
    else if moves[0].t < |lengths| then PerformAll(Perform(x, lengths, moves[0]), lengths, moves[1..])
    else PerformAll(x, lengths, moves[1..])
  }

  lemma {:induction false} EveryInterleaving(x: Shared, lengths: seq<nat>, moves: seq<Move>)
    requires Invariant(x, lengths)
    ensures Invariant(PerformAll(x, lengths, moves), lengths)
    decreases |moves|
  {
    hide Perform, Inside, OrderOk, Linking, IsList, Appends;
    if moves != [] {
      if moves[0].t < |lengths| {
        PerformKeeps(x, lengths, moves[0]);
        EveryInterleaving(Perform(x, lengths, moves[0]), lengths, moves[1..]);
      } else {
        EveryInterleaving(x, lengths, moves[1..]);
      }
    }
  }

  /** No append is lost to another: a shard about to swap always succeeds unless the head has changed since it looked,
      and the head changes only when another shard succeeds. */
  lemma SomeoneSucceeds(x: Shared, lengths: seq<nat>, t: nat)
    requires Invariant(x, lengths) && t < |lengths| && x.pcs[t].Swap?
    ensures var y := Perform(x, lengths, Move(t, false));
            if x.pcs[t].expected == x.head then y.pcs[t] == Appended && y.order == [t] + x.order
            else y.pcs[t] == Link(x.head) && y.order == x.order
    ensures forall m: Move | m.t < |lengths| :: Perform(x, lengths, m).head != x.head ==>
              |Perform(x, lengths, m).order| == |x.order| + 1
  {
  }

  /** When every shard is done, the command's chain is a list that holds every node of every shard exactly once, each
      shard's in order. */
  lemma AllAppended(x: Shared, lengths: seq<nat>)
    requires Invariant(x, lengths) && forall t: nat | t < |lengths| :: x.pcs[t] == Appended
    ensures IsList(x.next, x.head, Appends(x.order, lengths))
    ensures forall n: Node :: n in Appends(x.order, lengths) <==> n.shard < |lengths| && n.index < lengths[n.shard]
    ensures forall k, l | 0 <= k < l < |x.order| :: x.order[k] != x.order[l]
    ensures forall t: nat | t < |lengths| && 0 < lengths[t] :: t in x.order
    ensures forall nodes: seq<Node> | IsList(x.next, x.head, nodes) :: nodes == Appends(x.order, lengths)
  {
    AppendsAre(x.order, lengths);
    forall nodes: seq<Node> | IsList(x.next, x.head, nodes) ensures nodes == Appends(x.order, lengths) {
      ListUnique(x.next, x.head, nodes, Appends(x.order, lengths));
    }
  }

  lemma {:induction false} NoDuplicates(order: seq<nat>, lengths: seq<nat>)
    requires forall k, l | 0 <= k < l < |order| :: order[k] != order[l]
    ensures forall i, j | 0 <= i < j < |Appends(order, lengths)| ::
              Appends(order, lengths)[i] != Appends(order, lengths)[j]
  {
    hide NodesFrom;
    if order != [] {
      var t, rest := order[0], Appends(order[1..], lengths);
      NoDuplicates(order[1..], lengths);
      AppendsAre(order[1..], lengths);
      assert t !in order[1..] by {
        forall k | 0 <= k < |order[1..]| ensures order[1..][k] != t { assert order[1..][k] == order[k + 1]; }
      }
      if t < |lengths| {
        var own := NodesFrom(t, 0, lengths[t]);
        NodesFromAre(t, 0, lengths[t]);
        var all := own + rest;
        forall i, j | 0 <= i < j < |all| ensures all[i] != all[j] {
          if i < |own| <= j { assert all[j] in rest && all[i] in own; }
          if |own| <= i { assert all[i] == rest[i - |own|] && all[j] == rest[j - |own|]; }
        }
      }
    }
  }

  // ----- What is read from the merged chain -----

  /** The events of the merged chain: each shard's whole chain, latest first. */
  function Merged(chains: seq<seq<ChainEvent>>, order: seq<nat>): seq<ChainEvent> {
    if order == [] then [] else (if order[0] < |chains| then chains[order[0]] else []) + Merged(chains, order[1..])
  }

  function EventOf(chains: seq<seq<ChainEvent>>, n: Node): ChainEvent {
    if n.shard < |chains| && n.index < |chains[n.shard]| then chains[n.shard][n.index] else OtherEvent
  }

  function EventsAt(chains: seq<seq<ChainEvent>>, nodes: seq<Node>): (events: seq<ChainEvent>)
    ensures |events| == |nodes|
    ensures forall i | 0 <= i < |nodes| :: events[i] == EventOf(chains, nodes[i])
  {
    seq(|nodes|, i requires 0 <= i < |nodes| => EventOf(chains, nodes[i]))
  }

  function Lengths(chains: seq<seq<ChainEvent>>): (lengths: seq<nat>)
    ensures |lengths| == |chains|
    ensures forall t | 0 <= t < |chains| :: lengths[t] == |chains[t]|
  {
    seq(|chains|, t requires 0 <= t < |chains| => |chains[t]|)
  }

  lemma EventsAtConcat(chains: seq<seq<ChainEvent>>, a: seq<Node>, b: seq<Node>)
    ensures EventsAt(chains, a + b) == EventsAt(chains, a) + EventsAt(chains, b)
  {
  }

  lemma OwnEvents(chains: seq<seq<ChainEvent>>, t: nat)
    requires t < |chains|
    ensures EventsAt(chains, NodesFrom(t, 0, |chains[t]|)) == chains[t]
  {
    NodesFromAre(t, 0, |chains[t]|);
  }

  /** The nodes of the merged list carry the merged events. */
  lemma {:induction false} NodesCarry(chains: seq<seq<ChainEvent>>, order: seq<nat>)
    ensures EventsAt(chains, Appends(order, Lengths(chains))) == Merged(chains, order)
  {
    hide EventsAt, NodesFrom;
    var lengths := Lengths(chains);
    if order == [] {
      assert |EventsAt(chains, [])| == 0;
    } else {
      NodesCarry(chains, order[1..]);
      var t := order[0];
      var rest := Appends(order[1..], lengths);
      if t < |chains| {
        OwnEvents(chains, t);
        EventsAtConcat(chains, NodesFrom(t, 0, lengths[t]), rest);
      } else {
        assert [] + rest == rest && [] + Merged(chains, order[1..]) == Merged(chains, order[1..]);
      }
    }
  }

  /** Reports with sections of their own do not mix. */
  lemma {:induction false} SectionOfMerged(sections: seq<int>, reports: seq<seq<byte>>, order: seq<nat>, t: nat)
    requires |sections| == |reports| && t < |sections|
             && forall a, b | 0 <= a < b < |sections| :: sections[a] != sections[b]
    requires (forall k | 0 <= k < |order| :: order[k] < |sections|)
             && forall k, l | 0 <= k < l < |order| :: order[k] != order[l]
    ensures OfSection(Merged(ChainsFor(sections, reports), order), sections[t]) == if t in order
            then ChainFor(sections[t], reports[t]) else []
  {
    hide ChainFor, OfSection;
    var chains := ChainsFor(sections, reports);
    if order == [] {
      NothingOf(sections[t]);
    } else {
      var u := order[0];
      var rest := Merged(chains, order[1..]);
      forall k | 0 <= k < |order[1..]| ensures order[1..][k] == order[k + 1] {}
      SectionOfMerged(sections, reports, order[1..], t);
      OfSectionConcat(chains[u], rest, sections[t]);
      ReportComesBack(sections[u], reports[u]);
      ChainIsOwn(sections[u], reports[u]);
      assert chains[u] == ChainFor(sections[u], reports[u]);
      assert t in order <==> t == u || t in order[1..];
      if t == u { assert t !in order[1..]; }
      assert ChainFor(sections[t], reports[t]) + [] == ChainFor(sections[t], reports[t]);
    }
  }

  lemma NothingOf(section: int)
    ensures OfSection([], section) == []
  {
  }

  lemma ChainIsOwn(section: int, bytes: seq<byte>)
    ensures OfSection(ChainFor(section, bytes), section) == ChainFor(section, bytes)
  {
    RequiredSizeIs(|bytes|, 5);
    EventsBack(section, BytesToLongArray(bytes, 5));
  }

  function ChainsFor(sections: seq<int>, reports: seq<seq<byte>>): (chains: seq<seq<ChainEvent>>)
    requires |sections| == |reports|
    ensures |chains| == |reports|
    ensures forall t | 0 <= t < |reports| :: chains[t] == ChainFor(sections[t], reports[t])
  {
    seq(|reports|, t requires 0 <= t < |reports| => ChainFor(sections[t], reports[t]))
  }

  /** The merge of reports: any number of shards append the chains of their reports in any interleaving; when all are
      done, following the command's chain and reading a section gives exactly that shard's bytes, padded with zeros to a
      multiple of forty. */
  lemma MergedReports(sections: seq<int>, reports: seq<seq<byte>>, begin: Shared, moves: seq<Move>)
    requires |sections| == |reports| && forall a, b | 0 <= a < b < |sections| :: sections[a] != sections[b]
    requires Begun(begin, Lengths(ChainsFor(sections, reports)))
    requires forall t: nat | t < |sections| ::
               PerformAll(begin, Lengths(ChainsFor(sections, reports)), moves).pcs[t] == Appended
    ensures var chains := ChainsFor(sections, reports);
            var end := PerformAll(begin, Lengths(chains), moves);
            exists nodes: seq<Node> ::
              && IsList(end.next, end.head, nodes)
              && (forall other: seq<Node> | IsList(end.next, end.head, other) :: other == nodes)
              && (forall i, j | 0 <= i < j < |nodes| :: nodes[i] != nodes[j])
              && (forall t: nat | t < |sections| ::
                    Received(EventsAt(chains, nodes), sections[t]) == Padded(reports[t], 5))
              && (forall t: nat | t < |sections| :: OfSection(EventsAt(chains, nodes), sections[t]) == [] <==>
                    reports[t] == [])
  {
    hide PerformAll, IsList, Received, OfSection, ChainFor, Padded, Appends;
    var chains := ChainsFor(sections, reports);
    var lengths := Lengths(chains);
    var end := PerformAll(begin, lengths, moves);
    assert Invariant(begin, lengths) by { BegunHolds(begin, lengths); }
    EveryInterleaving(begin, lengths, moves);
    AllAppended(end, lengths);
    var nodes := Appends(end.order, lengths);
    NoDuplicates(end.order, lengths);
    NodesCarry(chains, end.order);
    assert forall k | 0 <= k < |end.order| :: end.order[k] < |sections| by { OrderInRange(end, lengths); }
    forall t: nat | t < |sections|
      ensures Received(EventsAt(chains, nodes), sections[t]) == Padded(reports[t], 5)
      ensures OfSection(EventsAt(chains, nodes), sections[t]) == [] <==> reports[t] == []
    {
      SectionOfMerged(sections, reports, end.order, t);
      OneReport(sections[t], reports[t], Merged(chains, end.order));
      ChainEmpty(sections[t], reports[t]);
      assert lengths[t] == |ChainFor(sections[t], reports[t])|;
    }
  }

  lemma OrderInRange(x: Shared, lengths: seq<nat>)
    requires Invariant(x, lengths)
    ensures forall k | 0 <= k < |x.order| :: x.order[k] < |lengths| && 0 < lengths[x.order[k]]
  {
  }

  lemma BegunHolds(x: Shared, lengths: seq<nat>)
    requires Begun(x, lengths)
    ensures Invariant(x, lengths)
  {
  }

  lemma OneReport(section: int, bytes: seq<byte>, events: seq<ChainEvent>)
    requires OfSection(events, section) == ChainFor(section, bytes)
    ensures Received(events, section) == Padded(bytes, 5)
  {
    hide ChainFor, OfSection;
    ReportComesBack(section, bytes);
    ChainIsOwn(section, bytes);
  }

  lemma ChainEmpty(section: int, bytes: seq<byte>)
    ensures ChainFor(section, bytes) == [] <==> bytes == []
  {
    RequiredSizeIs(|bytes|, 5);
  }

  // ----- Merging result codes -----

  datatype Try = Look | Set(expected: int) | Over

  /** The command's code and where each shard is; codes are numbers. */
  datatype Codes = Codes(code: int, tries: seq<Try>)

  /** A shard sets its code unless it is there already or the failure code is. */
  function SetStep(x: Codes, results: seq<bool>, success: int, failure: int, m: Move): (y: Codes)
    requires |x.tries| == |results| && m.t < |results|
    ensures |y.tries| == |x.tries|
  {
    var mine := if results[m.t] then success else failure;
    match x.tries[m.t]
    case Look => x.(tries := x.tries[m.t := Set(x.code)])
    case Set(expected) =>
      if expected == mine || expected == failure then x.(tries := x.tries[m.t := Over])
      else if x.code == expected && !m.spurious then Codes(mine, x.tries[m.t := Over])
      else x.(tries := x.tries[m.t := Set(x.code)])
    case Over => x
  }

  function SetAll(x: Codes, results: seq<bool>, success: int, failure: int, moves: seq<Move>): (y: Codes)
    requires |x.tries| == |results|
    ensures |y.tries| == |x.tries|
    decreases |moves|
  {
    if moves == [] then x
    else SetAll(if moves[0].t < |results| then SetStep(x, results, success, failure, moves[0]) else x, results, success,
                failure, moves[1..])
  }

  /** The code is the first one, or what some shard set; a shard that is over has left its failure, or found success or
      failure. */
  ghost predicate CodesOk(x: Codes, results: seq<bool>, first: int, success: int, failure: int)
    requires |x.tries| == |results|
  {
    && x.code in {first, success, failure}
    && (x.code == failure ==> first == failure || exists t: nat :: t < |results| && !results[t])
    && (forall t: nat | t < |results| :: x.tries[t] == Over ==> x.code == failure || (results[t] && x.code == success))
    && (forall t: nat | t < |results| && x.tries[t].Set? ::
          x.tries[t].expected == x.code || x.tries[t].expected == first || x.code == failure)
    && (forall t: nat | t < |results| && x.tries[t].Set? && x.tries[t].expected == failure :: x.code == failure)
    && (forall t: nat | t < |results| && x.tries[t].Set? && x.tries[t].expected == success ::
          x.code == failure || x.code == success)
  }

  lemma SetStepKeeps(x: Codes, results: seq<bool>, first: int, success: int, failure: int, m: Move)
    requires |x.tries| == |results| && m.t < |results| && success != failure
             && CodesOk(x, results, first, success, failure)
    ensures CodesOk(SetStep(x, results, success, failure, m), results, first, success, failure)
  {
  }

  lemma {:induction false} SetAllKeeps(x: Codes, results: seq<bool>, first: int, success: int, failure: int,
                                       moves: seq<Move>)
    requires |x.tries| == |results| && success != failure && CodesOk(x, results, first, success, failure)
    ensures CodesOk(SetAll(x, results, success, failure, moves), results, first, success, failure)
    decreases |moves|
  {
    hide CodesOk, SetStep;
    if moves != [] {
      var next := if moves[0].t < |results| then SetStep(x, results, success, failure, moves[0]) else x;
      if moves[0].t < |results| { SetStepKeeps(x, results, first, success, failure, moves[0]); }
      SetAllKeeps(next, results, first, success, failure, moves[1..]);
    }
  }

  /** In any interleaving, when all shards are over the merged code is the failure code if and only if some shard failed
      or the code was the failure code before; otherwise it is the success code. */
  lemma MergedCode(x: Codes, results: seq<bool>, success: int, failure: int, moves: seq<Move>)
    requires results != [] && success != failure && |x.tries| == |results|
             && forall t: nat | t < |results| :: x.tries[t] == Look
    requires AllOver(SetAll(x, results, success, failure, moves))
    ensures var code := SetAll(x, results, success, failure, moves).code;
            && (code == failure <==> x.code == failure || exists t: nat :: t < |results| && !results[t])
            && (code != failure ==> code == success)
  {
    hide SetAll;
    SetAllKeeps(x, results, x.code, success, failure, moves);
    var y := SetAll(x, results, success, failure, moves);
    assert y.tries[0] == Over;
    if x.code == failure { FailureStays(x, results, success, failure, moves); }
    if t: nat :| t < |results| && !results[t] { assert y.tries[t] == Over; }
  }

  ghost predicate AllOver(x: Codes) {
    forall t: nat | t < |x.tries| :: x.tries[t] == Over
  }

  lemma {:induction false} FailureStays(x: Codes, results: seq<bool>, success: int, failure: int, moves: seq<Move>)
    requires |x.tries| == |results| && x.code == failure
    requires forall t: nat | t < |results| :: !x.tries[t].Set? || x.tries[t].expected == failure
    ensures SetAll(x, results, success, failure, moves).code == failure
    decreases |moves|
  {
    if moves != [] {
      FailureStays(if moves[0].t < |results| then SetStep(x, results, success, failure, moves[0]) else x, results,
                   success, failure, moves[1..]);
    }
  }
}
