/** The grouping stage: it numbers the groups of commands after which the settlement stage runs. */
module Grouping {
  datatype Kind = RESET | PERSIST_STATE_MATCHING | PERSIST_STATE_RISK | GROUPING_CONTROL(on: bool) | BINARY(last: bool)
      | ORDINARY

  datatype GroupState = GroupState(counter: int, inGroup: int, enabled: bool)

  /** Commands that always start a group. */
  predicate StartsGroup(kind: Kind) {
    kind == RESET || kind == PERSIST_STATE_MATCHING || kind.GROUPING_CONTROL? || (kind.BINARY? && kind.last)
  }

  /** One command: its group, or what its slot held before when grouping is off, and the next state. */
  function Assign(g: GroupState, kind: Kind, slot: int, limit: int): (int, GroupState) {
    var enabled := if kind.GROUPING_CONTROL? then kind.on else g.enabled;
    if !enabled then (slot, g.(enabled := false))
    else
      var counter := if StartsGroup(kind) then g.counter + 1 else g.counter;
      var inGroup := (if StartsGroup(kind) then 0 else g.inGroup) + 1;
      var full := inGroup >= limit && kind != PERSIST_STATE_RISK;
      (counter, GroupState(if full then counter + 1 else counter, if full then 0 else inGroup, true))
  }

  function AssignAll(g: GroupState, kinds: seq<Kind>, slots: seq<int>, limit: int): (seq<int>, GroupState)
    requires |kinds| == |slots|
    decreases |kinds|
  {
    if kinds == [] then ([], g)
    else
      var (group, g') := Assign(g, kinds[0], slots[0], limit);
      var rest := AssignAll(g', kinds[1..], slots[1..], limit);
      ([group] + rest.0, rest.1)
  }

  /** Some time passed without commands: a group that has any is closed. */
  function Elapsed(g: GroupState): GroupState {
    if g.inGroup > 0 then g.(counter := g.counter + 1, inGroup := 0) else g
  }

  lemma {:induction false} AssignAllAppend(g: GroupState, kinds: seq<Kind>, slots: seq<int>, kind: Kind, slot: int,
                                           limit: int)
    requires |kinds| == |slots|
    ensures var (groups, g') := AssignAll(g, kinds, slots, limit);
            var (group, g'') := Assign(g', kind, slot, limit);
            AssignAll(g, kinds + [kind], slots + [slot], limit) == (groups + [group], g'')
    decreases |kinds|
  {
    if kinds == [] {
      assert kinds + [kind] == [kind] && slots + [slot] == [slot];
      assert [kind][1..] == [] && [slot][1..] == [];
      var (group, g') := Assign(g, kind, slot, limit);
      assert AssignAll(g', [], [], limit) == ([], g');
      assert [group] + [] == [group] && [] + [group] == [group];
      assert AssignAll(g, [kind], [slot], limit) == ([group] + AssignAll(g', [kind][1..], [slot][1..], limit).0, g');
    } else {
      assert (kinds + [kind])[1..] == kinds[1..] + [kind] && (slots + [slot])[1..] == slots[1..] + [slot];
      var (first, h) := Assign(g, kinds[0], slots[0], limit);
      AssignAllAppend(h, kinds[1..], slots[1..], kind, slot, limit);
      var groups := AssignAll(h, kinds[1..], slots[1..], limit).0;
      var group := Assign(AssignAll(h, kinds[1..], slots[1..], limit).1, kind, slot, limit).0;
      assert [first] + (groups + [group]) == ([first] + groups) + [group];
    }
  }

  // ----- The processor -----

  /** A slot of the ring buffer, as far as grouping reads and writes it. */
  class Slot {
    const kind: Kind
    var eventsGroup: int
    var hasEvents: bool
    var hasMarketData: bool

    constructor (kind: Kind)
      ensures this.kind == kind
    {
      this.kind := kind;
    }
  }

  class GroupingProcessor {
    const msgsInGroupLimit: int
    var groupCounter: int
    var msgsInGroup: int
    var groupingEnabled: bool

    constructor (limit: int)
      ensures msgsInGroupLimit == limit && State() == GroupState(0, 0, true)
    {
      msgsInGroupLimit, groupCounter, msgsInGroup, groupingEnabled := limit, 0, 0, true;
    }

    function State(): GroupState
      reads this
    {
      GroupState(groupCounter, msgsInGroup, groupingEnabled)
    }

    static ghost function Kinds(slots: seq<Slot>): seq<Kind> {
      seq(|slots|, i requires 0 <= i < |slots| => slots[i].kind)
    }

    static ghost function Groups(slots: seq<Slot>): seq<int>
      reads slots
    {
      seq(|slots|, i requires 0 <= i < |slots| reads slots => slots[i].eventsGroup)
    }

    /** A batch of available commands: every one gets its group, and none keeps the events or market data of an earlier
        lap. */
    method ProcessEvents(slots: seq<Slot>)
      requires forall i, j | 0 <= i < j < |slots| :: slots[i] != slots[j]
      modifies this, slots
      ensures (Groups(slots), State()) == AssignAll(old(State()), Kinds(slots), old(Groups(slots)), msgsInGroupLimit)
      ensures forall i | 0 <= i < |slots| :: !slots[i].hasEvents && !slots[i].hasMarketData
    {
      ghost var kinds, before := Kinds(slots), Groups(slots);
      var i := 0;
      assert Groups(slots[..0]) == [] && kinds[..0] == [] && before[..0] == [];
      while i < |slots|
        invariant 0 <= i <= |slots|
        invariant (Groups(slots[..i]), State()) == AssignAll(old(State()), kinds[..i], before[..i], msgsInGroupLimit)
        invariant forall j | i <= j < |slots| :: slots[j].eventsGroup == before[j]
        invariant forall j | 0 <= j < i :: !slots[j].hasEvents && !slots[j].hasMarketData
      {
        ghost var done := Groups(slots[..i]);
        AssignAllAppend(old(State()), kinds[..i], before[..i], kinds[i], before[i], msgsInGroupLimit);
        assert kinds[..i + 1] == kinds[..i] + [kinds[i]] && before[..i + 1] == before[..i] + [before[i]];
        ProcessOne(slots[i]);
        assert Groups(slots[..i + 1]) == done + [slots[i].eventsGroup];
        i := i + 1;
      }
      assert slots[..i] == slots && kinds[..i] == kinds && before[..i] == before;
    }

    method ProcessOne(cmd: Slot)
      modifies this, cmd
      ensures (cmd.eventsGroup, State()) == Assign(old(State()), cmd.kind, old(cmd.eventsGroup), msgsInGroupLimit)
      ensures !cmd.hasEvents && !cmd.hasMarketData
    {
      if cmd.kind.GROUPING_CONTROL? {
        groupingEnabled := cmd.kind.on;
      }
      cmd.hasEvents := false;
      cmd.hasMarketData := false;
      if !groupingEnabled { return; }
      if cmd.kind == RESET || cmd.kind == PERSIST_STATE_MATCHING || cmd.kind.GROUPING_CONTROL? {
        groupCounter := groupCounter + 1;
        msgsInGroup := 0;
      }
      if cmd.kind.BINARY? && cmd.kind.last {
        groupCounter := groupCounter + 1;
        msgsInGroup := 0;
      }
      cmd.eventsGroup := groupCounter;
      msgsInGroup := msgsInGroup + 1;
      if msgsInGroup >= msgsInGroupLimit && cmd.kind != PERSIST_STATE_RISK {
        groupCounter := groupCounter + 1;
        msgsInGroup := 0;
      }
    }

    /** No command came for the longest time a group may last. */
    method SwitchAfterTimeout()
      modifies this
      ensures State() == Elapsed(old(State()))
    {
      if msgsInGroup > 0 {
        groupCounter := groupCounter + 1;
        msgsInGroup := 0;
      }
    }
  }

  // ----- What the numbers promise -----

  /** With grouping on, a command that starts a group gets a number no earlier command has had while grouping was on. */
  lemma StartIsNew(g: GroupState, kind: Kind, slot: int, limit: int, last: int)
    requires g.enabled && last <= g.counter
    ensures var (group, g') := Assign(g, kind, slot, limit);
            && (g'.enabled ==> last <= group <= g'.counter && group <= g.counter + 1)
            && (g'.enabled && StartsGroup(kind) ==> last < group)
  {
  }

  /** A state snapshot's two commands share a group exactly when a group may hold two commands and the time limit of a
      group does not pass between them; otherwise the second one starts the next group. */
  lemma SnapshotPairShares(g: GroupState, slot: int, slot': int, limit: int, elapsed: bool)
    requires g.enabled
    ensures var (a, g') := Assign(g, PERSIST_STATE_MATCHING, slot, limit);
            var b := Assign(if elapsed then Elapsed(g') else g', PERSIST_STATE_RISK, slot', limit).0;
            && a == g.counter + 1
            && (b == a <==> 2 <= limit && !elapsed)
            && (b == a || b == a + 1)
  {
  }

  function Count(groups: seq<int>, x: int): nat {
    if groups == [] then 0 else Count(groups[..|groups| - 1], x) + if groups[|groups| - 1] == x then 1 else 0
  }

  lemma {:induction false} CountAbove(groups: seq<int>, x: int)
    requires forall i | 0 <= i < |groups| :: groups[i] < x
    ensures Count(groups, x) == 0
  {
    if groups != [] { CountAbove(groups[..|groups| - 1], x); }
  }

  predicate AlwaysOn(kinds: seq<Kind>) {
    forall i | 0 <= i < |kinds| :: kinds[i].GROUPING_CONTROL? ==> kinds[i].on
  }

  /** Commands that group x has, those of earlier batches included. */
  function Members(g: GroupState, groups: seq<int>, x: int): int {
    Count(groups, x) + if x == g.counter then g.inGroup else 0
  }

  /** The state behind these groups: the last one is open, with its members, or full. */
  ghost predicate Behind(g: GroupState, groups: seq<int>, last: Kind, limit: int, g': GroupState)
    requires groups != []
  {
    var x := groups[|groups| - 1];
    var n := Members(g, groups, x);
    && (forall i | 0 <= i < |groups| :: g.counter <= groups[i] <= x)
    && g' == if n >= limit && last != PERSIST_STATE_RISK then GroupState(x + 1, 0, true) else GroupState(x, n, true)
  }

  lemma FirstBehind(g: GroupState, kind: Kind, slot: int, limit: int)
    requires g.enabled && (kind.GROUPING_CONTROL? ==> kind.on)
    ensures var (group, g') := Assign(g, kind, slot, limit);
            Behind(g, [group], kind, limit, g')
  {
    var group := Assign(g, kind, slot, limit).0;
    assert [group][..0] == [];
    assert Count([group][..0], group) == 0;
  }

  lemma NextBehind(g: GroupState, groups: seq<int>, last: Kind, h: GroupState, kind: Kind, slot: int, limit: int)
    requires groups != [] && Behind(g, groups, last, limit, h) && (kind.GROUPING_CONTROL? ==> kind.on)
    ensures var (group, g') := Assign(h, kind, slot, limit);
            Behind(g, groups + [group], kind, limit, g')
  {
    var group := Assign(h, kind, slot, limit).0;
    assert (groups + [group])[..|groups|] == groups;
    if groups[|groups| - 1] < group { CountAbove(groups, group); }
  }

  lemma {:induction false} Numbered(g: GroupState, kinds: seq<Kind>, slots: seq<int>, limit: int)
    requires |kinds| == |slots| && g.enabled && AlwaysOn(kinds) && kinds != []
    ensures var (groups, g') := AssignAll(g, kinds, slots, limit);
            |groups| == |kinds| && Behind(g, groups, kinds[|kinds| - 1], limit, g')
    decreases |kinds|
  {
    hide Behind, Assign, AssignAll;
    var k := |kinds| - 1;
    AssignAllAppend(g, kinds[..k], slots[..k], kinds[k], slots[k], limit);
    assert kinds[..k] + [kinds[k]] == kinds && slots[..k] + [slots[k]] == slots;
    var (before, h) := AssignAll(g, kinds[..k], slots[..k], limit);
    if k == 0 {
      NoneAssigned(g, limit);
      FirstBehind(g, kinds[0], slots[0], limit);
      assert kinds[..k] == [] && slots[..k] == [];
      assert AssignAll(g, kinds, slots, limit).0 == [Assign(g, kinds[0], slots[0], limit).0];
    } else {
      Numbered(g, kinds[..k], slots[..k], limit);
      NextBehind(g, before, kinds[k - 1], h, kinds[k], slots[k], limit);
    }
  }

  lemma NoneAssigned(g: GroupState, limit: int)
    ensures AssignAll(g, [], [], limit) == ([], g)
  {
  }

  /** A command shares the group of the one before it exactly if it starts none and that group is not full: one is full
      with as many commands as the limit, unless its last is the second one of a snapshot. */
  lemma SharesGroup(g: GroupState, kinds: seq<Kind>, slots: seq<int>, kind: Kind, slot: int, limit: int)
    requires |kinds| == |slots| && g.enabled && AlwaysOn(kinds + [kind]) && kinds != []
    ensures var groups := AssignAll(g, kinds, slots, limit).0;
            var group := AssignAll(g, kinds + [kind], slots + [slot], limit).0;
            && |groups| == |kinds| && |group| == |kinds| + 1 && group[..|kinds|] == groups
            && var last := groups[|kinds| - 1];
               && (group[|kinds|] == last <==>
                     !StartsGroup(kind)
                     && (Members(g, groups, last) < limit || kinds[|kinds| - 1] == PERSIST_STATE_RISK))
               && last <= group[|kinds|] <= last + 2
  {
    hide Members;
    assert forall i | 0 <= i < |kinds| :: (kinds + [kind])[i] == kinds[i];
    assert (kinds + [kind])[|kinds|] == kind;
    Numbered(g, kinds, slots, limit);
    AssignAllAppend(g, kinds, slots, kind, slot, limit);
  }
}
