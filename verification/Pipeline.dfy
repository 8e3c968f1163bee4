/** The staged pipeline over a ring buffer: grouping, N risk shards that each run the hold stage R1 and, in a nested
    cycle of the same thread, the settlement stage R2, and M matching shards. A step is what one thread does between two
    accesses to a shared counter; a thread may see any value of an upstream counter up to its present one. */
module Pipeline {
  import opened Grouping
  import opened Sums

  datatype Stage = R1(shard: nat) | ME(engine: nat) | R2(shard: nat)

  /** A handler was called for a sequence number. */
  datatype Handled = Handled(stage: Stage, s: nat)

  /** Where the thread of a risk shard is: about to look for a batch, inside a batch, or in the settlement cycle up to a
      boundary, after which it goes on with the command at the boundary or ends its batch. */
  datatype Pc = Fetch | Loop | Cycle(upTo: nat, resume: bool)

  /** Counters are sequence numbers plus one. */
  datatype Risk = Risk(pc: Pc, next: nat, avail: nat, published: nat, group: int, triggered: nat, slaveNext: nat)

  datatype Engine = Engine(next: nat, avail: nat, published: nat)

  datatype Pipe = Pipe(kinds: seq<Kind>, limit: int, g: GroupState, groups: seq<int>, marked: seq<bool>,
                       risks: seq<Risk>, engines: seq<Engine>, history: seq<Handled>)

  datatype Action =
    | Publish(kind: Kind)
    | Group(slot: int)
    | Timeout
    | FetchR1(i: nat, upTo: nat)
    | GoR1(i: nat)
    | SettleR2(i: nat)
    | ReturnR2(i: nat)
    | FetchME(j: nat, upTo: nat)
    | HandleME(j: nat)
    | PublishME(j: nat)

  // ----- Barriers -----

  /** Every risk shard has published past s. */
  predicate HeldUpTo(risks: seq<Risk>, v: nat) {
    forall i: nat | i < |risks| :: v <= risks[i].published
  }

  /** Every matching shard has published past s. */
  predicate MatchedUpTo(engines: seq<Engine>, v: nat) {
    forall j: nat | j < |engines| :: v <= engines[j].published
  }

  // ----- Steps -----

  function Called(p: Pipe, stage: Stage, s: nat): Pipe {
    p.(history := p.history + [Handled(stage, s)])
  }

  predicate Enabled(p: Pipe, a: Action) {
    && |p.groups| <= |p.kinds|
    && match a
       case Publish(kind) => true
       case Group(slot) => |p.groups| < |p.kinds|
       case Timeout => 0 < p.g.inGroup
       case FetchR1(i, upTo) => i < |p.risks| && p.risks[i].pc == Fetch && p.risks[i].next < upTo <= |p.groups|
       case GoR1(i) => i < |p.risks| && p.risks[i].pc == Loop && p.risks[i].next <= p.risks[i].avail <= |p.groups|
       case SettleR2(i) =>
         && i < |p.risks| && p.risks[i].pc.Cycle? && p.risks[i].slaveNext < p.risks[i].pc.upTo
         && MatchedUpTo(p.engines, p.risks[i].slaveNext + 1)
       case ReturnR2(i) =>
         && i < |p.risks| && p.risks[i].pc.Cycle? && p.risks[i].slaveNext == p.risks[i].pc.upTo
         && (p.risks[i].pc.resume ==> p.risks[i].next < |p.groups|)
       case FetchME(j, upTo) =>
         && j < |p.engines| && p.engines[j].next == p.engines[j].avail == p.engines[j].published
         && p.engines[j].next < upTo && HeldUpTo(p.risks, upTo)
       case HandleME(j) => j < |p.engines| && p.engines[j].next < p.engines[j].avail
       case PublishME(j) =>
         j < |p.engines| && p.engines[j].next == p.engines[j].avail && p.engines[j].published < p.engines[j].avail
  }

  /** R1 of one command; a command that says so is published at once. */
  function HandleR1(p: Pipe, i: nat, r: Risk): Pipe
    requires i < |p.risks| && r.next < |p.kinds|
  {
    var r' := r.(pc := Loop, next := r.next + 1,
                 published := if p.kinds[r.next] == PERSIST_STATE_MATCHING then r.next + 1 else r.published);
    Called(p.(risks := p.risks[i := r']), R1(i), r.next)
  }

  function Next(p: Pipe, a: Action): Pipe
    requires Enabled(p, a)
  {
    match a
    case Publish(kind) => p.(kinds := p.kinds + [kind])
    case Group(slot) =>
      var (group, g') := Assign(p.g, p.kinds[|p.groups|], slot, p.limit);
      p.(g := g', groups := p.groups + [group], marked := p.marked + [g'.enabled])
    case Timeout => p.(g := Elapsed(p.g))
    case FetchR1(i, upTo) => p.(risks := p.risks[i := p.risks[i].(pc := Loop, avail := upTo)])
    case GoR1(i) =>
      var r := p.risks[i];
      if r.next < r.avail then
        if p.groups[r.next] != r.group
        then p.(risks := p.risks[i := r.(published := r.next, pc := Cycle(r.next, true))])
        else HandleR1(p, i, r)
      else if r.triggered < r.next then p.(risks := p.risks[i := r.(published := r.next, pc := Cycle(r.next, false))])
      else p.(risks := p.risks[i := r.(published := r.avail, pc := Fetch)])
    case SettleR2(i) =>
      var r := p.risks[i];
      Called(p.(risks := p.risks[i := r.(slaveNext := r.slaveNext + 1)]), R2(i), r.slaveNext)
    case ReturnR2(i) =>
      var r := p.risks[i];
      if r.pc.resume then HandleR1(p, i, r.(triggered := r.next, group := p.groups[r.next]))
      else p.(risks := p.risks[i := r.(published := r.avail, pc := Fetch)])
    case FetchME(j, upTo) => p.(engines := p.engines[j := p.engines[j].(avail := upTo)])
    case HandleME(j) =>
      var e := p.engines[j];
      Called(p.(engines := p.engines[j := e.(next := e.next + 1)]), ME(j), e.next)
    case PublishME(j) => p.(engines := p.engines[j := p.engines[j].(published := p.engines[j].avail)])
  }

  function Start(limit: int, shards: nat, engines: nat): Pipe {
    Pipe([], limit, GroupState(0, 0, true), [], [], seq(shards, _ => Risk(Fetch, 0, 0, 0, 0, 0, 0)),
         seq(engines, _ => Engine(0, 0, 0)), [])
  }

  // ----- The history of handler calls -----

  /** How often a stage was called. */
  function Done(h: seq<Handled>, stage: Stage): nat {
    if h == [] then 0 else Done(h[..|h| - 1], stage) + if h[|h| - 1].stage == stage then 1 else 0
  }

  lemma DoneAppend(h: seq<Handled>, x: Handled, stage: Stage)
    ensures Done(h + [x], stage) == Done(h, stage) + if x.stage == stage then 1 else 0
  {
    assert (h + [x])[..|h|] == h;
  }

  predicate NewGroup(groups: seq<int>, s: nat)
    requires s < |groups|
  {
    groups[s] != if s == 0 then 0 else groups[s - 1]
  }

  /** What a call of a handler for s promises about the calls before it: calls of a stage come in order, each sequence
      number once; matching s comes after every shard held s; settling s comes after every shard matched s and every
      shard held s; and the hold of the first command of a group comes after the settlement of everything before it in
      the same shard. */
  ghost predicate CallOk(before: seq<Handled>, x: Handled, shards: nat, engines: nat, groups: seq<int>) {
    && x.s == Done(before, x.stage) && x.s < |groups|
    && match x.stage
       case R1(i) => i < shards && (NewGroup(groups, x.s) ==> Done(before, R2(i)) == x.s)
       case ME(j) => j < engines && forall i: nat | i < shards :: x.s < Done(before, R1(i))
       case R2(i) =>
         i < shards && (forall j: nat | j < engines :: x.s < Done(before, ME(j)))
             && forall k: nat | k < shards :: x.s < Done(before, R1(k))
  }

  ghost predicate HistoryOk(h: seq<Handled>, shards: nat, engines: nat, groups: seq<int>) {
    forall q: nat | q < |h| :: CallOk(h[..q], h[q], shards, engines, groups)
  }

  lemma HistoryAppend(h: seq<Handled>, x: Handled, shards: nat, engines: nat, groups: seq<int>)
    requires HistoryOk(h, shards, engines, groups) && CallOk(h, x, shards, engines, groups)
    ensures HistoryOk(h + [x], shards, engines, groups)
  {
    hide CallOk;
    var h' := h + [x];
    forall q: nat | q < |h'| ensures CallOk(h'[..q], h'[q], shards, engines, groups) {
      if q < |h| { assert h'[..q] == h[..q]; } else { assert h'[..q] == h; }
    }
  }

  lemma HistoryGroups(h: seq<Handled>, shards: nat, engines: nat, groups: seq<int>, group: int)
    requires HistoryOk(h, shards, engines, groups)
    ensures HistoryOk(h, shards, engines, groups + [group])
  {
    forall q: nat | q < |h| ensures CallOk(h[..q], h[q], shards, engines, groups + [group]) {
      assert CallOk(h[..q], h[q], shards, engines, groups);
    }
  }

  // ----- The invariant -----

  /** A shard never publishes more than it has handled, never settles past what it published, and settles to its
      boundary. */
  ghost predicate RiskOk(r: Risk, groups: seq<int>) {
    && r.slaveNext <= r.published <= r.next <= r.avail <= |groups| && r.triggered <= r.next
    && r.group == (if r.next == 0 then 0 else groups[r.next - 1])
    && match r.pc
       case Fetch => r.next == r.avail == r.published == r.slaveNext
       case Loop => r.next == r.avail ==> r.triggered < r.next
       case Cycle(upTo, resume) =>
         upTo == r.next == r.published && (resume ==> r.next < r.avail && groups[r.next] != r.group)
             && (!resume ==> r.next == r.avail)
  }

  ghost predicate EngineOk(e: Engine, risks: seq<Risk>) {
    e.published <= e.next <= e.avail && HeldUpTo(risks, e.avail)
  }

  /** The counters are what the history says was done. */
  ghost predicate Counted(p: Pipe) {
    && (forall i: nat | i < |p.risks| ::
          Done(p.history, R1(i)) == p.risks[i].next && Done(p.history, R2(i)) == p.risks[i].slaveNext)
    && (forall j: nat | j < |p.engines| :: Done(p.history, ME(j)) == p.engines[j].next)
  }

  /** Snapshot, reset and report commands that were grouped started a group. */
  ghost predicate GroupsOk(p: Pipe) {
    && |p.marked| == |p.groups| <= |p.kinds| && 0 <= p.g.counter
    && (p.groups == [] ==> p.g.enabled)
    && (p.groups != [] ==>
          && p.marked[|p.groups| - 1] == p.g.enabled
          && (p.g.enabled ==> p.groups[|p.groups| - 1] <= p.g.counter))
    && (forall s: nat | s < |p.groups| :: p.marked[s] && StartsGroup(p.kinds[s]) && !p.kinds[s].GROUPING_CONTROL? ==>
          NewGroup(p.groups, s))
  }

  ghost predicate Invariant(p: Pipe) {
    && p.risks != [] && p.engines != []
    && GroupsOk(p) && Counted(p)
    && (forall i: nat | i < |p.risks| :: RiskOk(p.risks[i], p.groups))
    && (forall j: nat | j < |p.engines| :: EngineOk(p.engines[j], p.risks))
    && (forall i: nat | i < |p.risks| :: MatchedUpTo(p.engines, p.risks[i].slaveNext))
    && HistoryOk(p.history, |p.risks|, |p.engines|, p.groups)
  }

  // ----- Every step keeps it -----

  lemma RiskGroups(r: Risk, groups: seq<int>, group: int)
    requires RiskOk(r, groups)
    ensures RiskOk(r, groups + [group])
  {
  }

  lemma GroupKeeps(p: Pipe, slot: int)
    requires Invariant(p) && Enabled(p, Group(slot))
    ensures Invariant(Next(p, Group(slot)))
  {
    hide HistoryOk, RiskOk, EngineOk, MatchedUpTo, StartsGroup, Assign;
    var kind := p.kinds[|p.groups|];
    var (group, g') := Assign(p.g, kind, slot, p.limit);
    var q := Next(p, Group(slot));
    HistoryGroups(p.history, |p.risks|, |p.engines|, p.groups, group);
    forall i: nat | i < |q.risks| ensures RiskOk(q.risks[i], q.groups) { RiskGroups(p.risks[i], p.groups, group); }
    GroupsGrow(p, slot);
    assert Counted(q);
  }

  lemma GroupsGrow(p: Pipe, slot: int)
    requires GroupsOk(p) && Enabled(p, Group(slot))
    ensures GroupsOk(Next(p, Group(slot)))
  {
    hide Assign;
    var n := |p.groups|;
    var kind := p.kinds[n];
    var (group, g') := Assign(p.g, kind, slot, p.limit);
    var q := Next(p, Group(slot));
    assert g'.enabled <==> if kind.GROUPING_CONTROL? then kind.on else p.g.enabled by {
      AssignEnabled(p.g, kind, slot, p.limit);
    }
    AssignCounter(p.g, kind, slot, p.limit);
    if p.g.enabled { StartIsNew(p.g, kind, slot, p.limit, if n == 0 then 0 else p.groups[n - 1]); }
    forall s: nat | s < |q.groups| && q.marked[s] && StartsGroup(q.kinds[s]) && !q.kinds[s].GROUPING_CONTROL?
      ensures NewGroup(q.groups, s)
    {
      if s < n { assert NewGroup(p.groups, s); }
    }
  }

  lemma AssignEnabled(g: GroupState, kind: Kind, slot: int, limit: int)
    ensures Assign(g, kind, slot, limit).1.enabled <==> if kind.GROUPING_CONTROL? then kind.on else g.enabled
  {
  }

  lemma AssignCounter(g: GroupState, kind: Kind, slot: int, limit: int)
    ensures g.counter <= Assign(g, kind, slot, limit).1.counter
    ensures Assign(g, kind, slot, limit).1.enabled ==>
              Assign(g, kind, slot, limit).0 <= Assign(g, kind, slot, limit).1.counter
  {
  }

  /** A shard's own counters changed, those others wait for did not go back. */
  lemma RiskChanged(p: Pipe, i: nat, r: Risk, q: Pipe)
    requires Invariant(p) && i < |p.risks| && RiskOk(r, p.groups)
    requires p.risks[i].published <= r.published && MatchedUpTo(p.engines, r.slaveNext)
    requires q.risks == p.risks[i := r] && q.(risks := p.risks, history := p.history) == p
    requires HistoryOk(q.history, |p.risks|, |p.engines|, p.groups) && Counted(q)
    ensures Invariant(q)
  {
    hide HistoryOk, RiskOk, Counted, GroupsOk;
    assert GroupsOk(q) by { SameGroups(p, q); }
    forall j: nat | j < |q.engines| ensures EngineOk(q.engines[j], q.risks) {
      assert EngineOk(p.engines[j], p.risks);
    }
  }

  lemma SameGroups(p: Pipe, q: Pipe)
    requires GroupsOk(p) && q.groups == p.groups && q.kinds == p.kinds && q.marked == p.marked && q.g == p.g
    ensures GroupsOk(q)
  {
  }

  lemma SilentCounted(p: Pipe, i: nat, r: Risk)
    requires Counted(p) && i < |p.risks| && r.next == p.risks[i].next && r.slaveNext == p.risks[i].slaveNext
    ensures Counted(p.(risks := p.risks[i := r]))
  {
  }

  /** R1 is called for the next command; if that starts a group, everything before it is settled in this shard. */
  lemma HandleR1Keeps(p: Pipe, i: nat, r: Risk)
    requires Invariant(p) && i < |p.risks| && r.next == p.risks[i].next < p.risks[i].avail == r.avail
    requires r.slaveNext == p.risks[i].slaveNext && p.risks[i].published == r.published && r.triggered <= r.next
    requires r.group == p.groups[r.next]
    requires NewGroup(p.groups, r.next) ==> r.slaveNext == r.next
    ensures Invariant(HandleR1(p, i, r))
  {
    hide HistoryOk, MatchedUpTo, HeldUpTo, EngineOk, GroupsOk, NewGroup, Done, Counted;
    assert RiskOk(p.risks[i], p.groups);
    assert |p.groups| <= |p.kinds| by { GroupsShape(p); }
    var q := HandleR1(p, i, r);
    var x := Handled(R1(i), r.next);
    RiskCounted(p, i, q.risks[i], x);
    CountOf(p);
    HistoryAppend(p.history, x, |p.risks|, |p.engines|, p.groups);
    assert MatchedUpTo(p.engines, p.risks[i].slaveNext);
    RiskChanged(p, i, q.risks[i], q);
  }

  lemma RiskCounted(p: Pipe, i: nat, r: Risk, x: Handled)
    requires Counted(p) && i < |p.risks| && (x.stage == R1(i) || x.stage == R2(i))
    requires r.next == p.risks[i].next + (if x.stage == R1(i) then 1 else 0)
             && r.slaveNext == p.risks[i].slaveNext + if x.stage == R2(i) then 1 else 0
    ensures Counted(Called(p.(risks := p.risks[i := r]), x.stage, x.s))
  {
    hide Done;
    forall stage: Stage
      ensures Done(p.history + [x], stage) == Done(p.history, stage) + if stage == x.stage then 1 else 0
    {
      DoneAppend(p.history, x, stage);
    }
  }

  lemma EngineCounted(p: Pipe, j: nat, e: Engine, x: Handled)
    requires Counted(p) && j < |p.engines| && x.stage == ME(j) && e.next == p.engines[j].next + 1
    ensures Counted(Called(p.(engines := p.engines[j := e]), x.stage, x.s))
  {
    hide Done;
    forall stage: Stage
      ensures Done(p.history + [x], stage) == Done(p.history, stage) + if stage == x.stage then 1 else 0
    {
      DoneAppend(p.history, x, stage);
    }
  }

  lemma CountOf(p: Pipe)
    requires Counted(p)
    ensures forall i: nat | i < |p.risks| ::
              Done(p.history, R1(i)) == p.risks[i].next && Done(p.history, R2(i)) == p.risks[i].slaveNext
    ensures forall j: nat | j < |p.engines| :: Done(p.history, ME(j)) == p.engines[j].next
  {
  }

  lemma GroupsShape(p: Pipe)
    requires GroupsOk(p)
    ensures |p.groups| <= |p.kinds|
  {
  }

  lemma GoR1Keeps(p: Pipe, i: nat)
    requires Invariant(p) && Enabled(p, GoR1(i))
    ensures Invariant(Next(p, GoR1(i)))
  {
    hide HistoryOk, MatchedUpTo, HeldUpTo, EngineOk, GroupsOk, Counted;
    var r := p.risks[i];
    assert RiskOk(r, p.groups) && MatchedUpTo(p.engines, r.slaveNext);
    if r.next < r.avail && p.groups[r.next] == r.group {
      HandleR1Keeps(p, i, r);
    } else {
      var q := Next(p, GoR1(i));
      SilentCounted(p, i, q.risks[i]);
      RiskChanged(p, i, q.risks[i], q);
    }
  }

  lemma FetchR1Keeps(p: Pipe, i: nat, upTo: nat)
    requires Invariant(p) && Enabled(p, FetchR1(i, upTo))
    ensures Invariant(Next(p, FetchR1(i, upTo)))
  {
    hide HistoryOk, MatchedUpTo, HeldUpTo, EngineOk, GroupsOk, Counted;
    assert RiskOk(p.risks[i], p.groups) && MatchedUpTo(p.engines, p.risks[i].slaveNext);
    var q := Next(p, FetchR1(i, upTo));
    SilentCounted(p, i, q.risks[i]);
    RiskChanged(p, i, q.risks[i], q);
  }

  lemma ReturnR2Keeps(p: Pipe, i: nat)
    requires Invariant(p) && Enabled(p, ReturnR2(i))
    ensures Invariant(Next(p, ReturnR2(i)))
  {
    hide HistoryOk, MatchedUpTo, HeldUpTo, EngineOk, GroupsOk, Counted;
    var r := p.risks[i];
    assert RiskOk(r, p.groups) && MatchedUpTo(p.engines, r.slaveNext);
    if r.pc.resume {
      HandleR1Keeps(p, i, r.(triggered := r.next, group := p.groups[r.next]));
    } else {
      var q := Next(p, ReturnR2(i));
      SilentCounted(p, i, q.risks[i]);
      RiskChanged(p, i, q.risks[i], q);
    }
  }

  lemma HeldBefore(p: Pipe, s: nat, k: nat)
    requires Invariant(p) && MatchedUpTo(p.engines, s + 1) && k < |p.risks|
    ensures s < Done(p.history, R1(k))
  {
    hide HistoryOk, GroupsOk, NewGroup;
    assert EngineOk(p.engines[0], p.risks) && RiskOk(p.risks[k], p.groups);
    assert s + 1 <= p.engines[0].published;
  }

  lemma MatchedBefore(p: Pipe, s: nat, j: nat)
    requires Invariant(p) && MatchedUpTo(p.engines, s + 1) && j < |p.engines|
    ensures s < Done(p.history, ME(j))
  {
    hide HistoryOk, GroupsOk, NewGroup;
    assert EngineOk(p.engines[j], p.risks) && s + 1 <= p.engines[j].published;
  }

  /** R2 is called for a command that every matching shard and, before them, every risk shard has handled. */
  lemma SettleR2Keeps(p: Pipe, i: nat)
    requires Invariant(p) && Enabled(p, SettleR2(i))
    ensures Invariant(Next(p, SettleR2(i)))
  {
    hide HistoryOk, GroupsOk, NewGroup, EngineOk, HeldUpTo, Done, Counted;
    var r := p.risks[i];
    assert RiskOk(r, p.groups);
    var q := Next(p, SettleR2(i));
    var x := Handled(R2(i), r.slaveNext);
    RiskCounted(p, i, q.risks[i], x);
    CountOf(p);
    forall k: nat | k < |p.risks| ensures r.slaveNext < Done(p.history, R1(k)) { HeldBefore(p, r.slaveNext, k); }
    forall j: nat | j < |p.engines| ensures r.slaveNext < Done(p.history, ME(j)) { MatchedBefore(p, r.slaveNext, j); }
    HistoryAppend(p.history, x, |p.risks|, |p.engines|, p.groups);
    RiskChanged(p, i, q.risks[i], q);
  }

  lemma EngineChanged(p: Pipe, j: nat, e: Engine, q: Pipe)
    requires Invariant(p) && j < |p.engines| && EngineOk(e, p.risks) && p.engines[j].published <= e.published
    requires q.engines == p.engines[j := e] && q.(engines := p.engines, history := p.history) == p
    requires HistoryOk(q.history, |p.risks|, |p.engines|, p.groups) && Counted(q)
    ensures Invariant(q)
  {
    hide HistoryOk, RiskOk, EngineOk, Counted, GroupsOk;
    assert GroupsOk(q) by { SameGroups(p, q); }
    forall i: nat | i < |q.risks| ensures MatchedUpTo(q.engines, q.risks[i].slaveNext) {
      assert MatchedUpTo(p.engines, p.risks[i].slaveNext);
    }
  }

  lemma EngineSilent(p: Pipe, j: nat, e: Engine)
    requires Counted(p) && j < |p.engines| && e.next == p.engines[j].next
    ensures Counted(p.(engines := p.engines[j := e]))
  {
  }

  lemma EngineKeeps(p: Pipe, a: Action)
    requires Invariant(p) && Enabled(p, a) && (a.FetchME? || a.PublishME?)
    ensures Invariant(Next(p, a))
  {
    hide HistoryOk, GroupsOk, Counted, RiskOk, MatchedUpTo;
    var q := Next(p, a);
    assert EngineOk(p.engines[a.j], p.risks);
    EngineSilent(p, a.j, q.engines[a.j]);
    EngineChanged(p, a.j, q.engines[a.j], q);
  }

  /** A matching shard is called for a command that every risk shard has handled. */
  lemma HandleMEKeeps(p: Pipe, j: nat)
    requires Invariant(p) && Enabled(p, HandleME(j))
    ensures Invariant(Next(p, HandleME(j)))
  {
    hide HistoryOk, GroupsOk, NewGroup, MatchedUpTo, Done, Counted;
    var e := p.engines[j];
    assert EngineOk(e, p.risks);
    var q := Next(p, HandleME(j));
    var x := Handled(ME(j), e.next);
    EngineCounted(p, j, q.engines[j], x);
    CountOf(p);
    forall k: nat | k < |p.risks| ensures e.next < Done(p.history, R1(k)) && e.next < |p.groups| {
      assert RiskOk(p.risks[k], p.groups) && e.avail <= p.risks[k].published;
    }
    assert p.risks[0].next <= |p.groups|;
    HistoryAppend(p.history, x, |p.risks|, |p.engines|, p.groups);
    EngineChanged(p, j, q.engines[j], q);
  }

  lemma PublishKeeps(p: Pipe, kind: Kind)
    requires Invariant(p)
    ensures Invariant(p.(kinds := p.kinds + [kind]))
  {
    hide HistoryOk, RiskOk, EngineOk, MatchedUpTo;
    var q := p.(kinds := p.kinds + [kind]);
    assert forall s: nat | s < |p.groups| :: q.kinds[s] == p.kinds[s];
  }

  lemma StepKeeps(p: Pipe, a: Action)
    requires Invariant(p) && Enabled(p, a)
    ensures Invariant(Next(p, a))
  {
    match a
    case Publish(kind) => PublishKeeps(p, kind);
    case Group(slot) => GroupKeeps(p, slot);
    case Timeout => TimeoutKeeps(p);
    case FetchR1(i, upTo) => FetchR1Keeps(p, i, upTo);
    case GoR1(i) => GoR1Keeps(p, i);
    case SettleR2(i) => SettleR2Keeps(p, i);
    case ReturnR2(i) => ReturnR2Keeps(p, i);
    case FetchME(j, upTo) => EngineKeeps(p, a);
    case HandleME(j) => HandleMEKeeps(p, j);
    case PublishME(j) => EngineKeeps(p, a);
  }

  lemma TimeoutKeeps(p: Pipe)
    requires Invariant(p)
    ensures Invariant(p.(g := Elapsed(p.g)))
  {
    hide HistoryOk, RiskOk, EngineOk, MatchedUpTo, NewGroup;
    var q := p.(g := Elapsed(p.g));
    assert Counted(q);
  }

  lemma StartKeeps(limit: int, shards: nat, engines: nat)
    requires 0 < shards && 0 < engines
    ensures Invariant(Start(limit, shards, engines))
  {
  }

  // ----- Runs -----

  /** Performing the actions one after the other leads from p to q. */
  ghost predicate Runs(p: Pipe, actions: seq<Action>, q: Pipe)
    decreases |actions|
  {
    if actions == [] then p == q else Enabled(p, actions[0]) && Runs(Next(p, actions[0]), actions[1..], q)
  }

  /** A run and one more behind it. */
  lemma {:induction false} RunsThen(p: Pipe, actions: seq<Action>, q: Pipe, more: seq<Action>, r: Pipe)
    requires Runs(p, actions, q) && Runs(q, more, r)
    ensures Runs(p, actions + more, r)
    decreases |actions|
  {
    hide Enabled, Next;
    if actions == [] {
      assert actions + more == more;
    } else {
      RunsThen(Next(p, actions[0]), actions[1..], q, more, r);
      assert (actions + more)[1..] == actions[1..] + more;
    }
  }

  lemma NoStep(p: Pipe)
    ensures Runs(p, [], p)
  {
  }

  lemma OneStep(p: Pipe, actions: seq<Action>, q: Pipe, a: Action) returns (actions': seq<Action>, q': Pipe)
    requires Runs(p, actions, q) && Enabled(q, a)
    ensures Runs(p, actions', q') && q' == Next(q, a)
  {
    actions', q' := actions + [a], Next(q, a);
    assert [a][1..] == [];
    assert Runs(q, [a], q') by { NoStep(q'); }
    RunsThen(p, actions, q, [a], q');
  }

  /** q has gone on from p: no counter has gone back and no call is undone. */
  ghost predicate NotBehind(p: Pipe, q: Pipe) {
    && |p.risks| == |q.risks| && |p.engines| == |q.engines| && p.groups <= q.groups && p.kinds <= q.kinds
       && p.history <= q.history
    && (forall i: nat | i < |p.risks| ::
          p.risks[i].next <= q.risks[i].next && p.risks[i].published <= q.risks[i].published
              && p.risks[i].slaveNext <= q.risks[i].slaveNext)
    && (forall j: nat | j < |p.engines| ::
          p.engines[j].next <= q.engines[j].next && p.engines[j].published <= q.engines[j].published)
  }

  lemma StepGrows(p: Pipe, a: Action)
    requires Invariant(p) && Enabled(p, a)
    ensures NotBehind(p, Next(p, a))
  {
    hide HistoryOk, Counted, NewGroup, HeldUpTo, MatchedUpTo, GroupsOk, EngineOk, Assign;
    match a
    case GoR1(i) => assert RiskOk(p.risks[i], p.groups);
    case ReturnR2(i) => assert RiskOk(p.risks[i], p.groups);
    case _ =>
  }

  lemma NotBehindTransitive(p: Pipe, q: Pipe, r: Pipe)
    requires NotBehind(p, q) && NotBehind(q, r)
    ensures NotBehind(p, r)
  {
  }

  /** Published counters only grow, over every run. */
  lemma {:induction false} CountersGrow(p: Pipe, actions: seq<Action>, q: Pipe)
    requires Invariant(p) && Runs(p, actions, q)
    ensures NotBehind(p, q)
    decreases |actions|
  {
    hide Invariant, Next, Enabled, NotBehind;
    if actions == [] {
      assert NotBehind(p, p) by { NotBehindSelf(p); }
    } else {
      StepKeeps(p, actions[0]);
      StepGrows(p, actions[0]);
      CountersGrow(Next(p, actions[0]), actions[1..], q);
      NotBehindTransitive(p, Next(p, actions[0]), q);
    }
  }

  lemma NotBehindSelf(p: Pipe)
    ensures NotBehind(p, p)
  {
  }

  /** Safety of every run, new commands coming in at any time: calls of each stage come in order and once for each
      sequence number, settling waits for all matching and holding, a new group waits for the settlement of the one
      before, and no counter runs ahead. */
  lemma {:induction false} EveryRunIsSafe(p: Pipe, actions: seq<Action>, q: Pipe)
    requires Invariant(p) && Runs(p, actions, q)
    ensures Invariant(q)
    decreases |actions|
  {
    hide Invariant, Next, Enabled;
    if actions != [] {
      StepKeeps(p, actions[0]);
      EveryRunIsSafe(Next(p, actions[0]), actions[1..], q);
    }
  }

  // ----- Progress -----

  /** Every stage of every shard, settlement included, has reached the last command. */
  ghost predicate Finished(p: Pipe) {
    && |p.groups| == |p.kinds|
    && (forall i: nat | i < |p.risks| :: p.risks[i].next == p.risks[i].published == p.risks[i].slaveNext == |p.kinds|)
    && (forall j: nat | j < |p.engines| :: p.engines[j].next == p.engines[j].published == |p.kinds|)
  }

  /** A shard that has published least. */
  lemma {:induction false} Lowest(risks: seq<Risk>) returns (i: nat)
    requires risks != []
    ensures i < |risks| && HeldUpTo(risks, risks[i].published)
  {
    if |risks| == 1 {
      i := 0;
    } else {
      var k := Lowest(risks[1..]);
      var rest := risks[1..];
      forall m: nat | 0 < m < |risks|
        ensures rest[k].published <= risks[m].published
      {
        assert risks[m] == rest[m - 1];
      }
      i := if risks[0].published <= rest[k].published then 0 else k + 1;
    }
  }

  /** The shard with the lowest boundary can always go on: if matching has caught up with it, its settlement is not
      blocked. */
  lemma LowestCanSettle(p: Pipe, i: nat)
    requires Invariant(p) && i < |p.risks| && p.risks[i].pc.Cycle? && p.risks[i].slaveNext < p.risks[i].pc.upTo
    requires MatchedUpTo(p.engines, p.risks[i].published)
    ensures Enabled(p, SettleR2(i))
  {
    hide HistoryOk, EngineOk, Counted, NewGroup;
    assert RiskOk(p.risks[i], p.groups);
  }

  /** No reachable state with unfinished commands is stuck. */
  lemma NotStuck(p: Pipe) returns (a: Action)
    requires Invariant(p) && !Finished(p)
    ensures Enabled(p, a) && !a.Publish? && !a.Timeout?
  {
    hide HistoryOk, Counted, NewGroup;
    if |p.groups| < |p.kinds| { return Group(0); }
    if j: nat :| j < |p.engines| && p.engines[j].next < p.engines[j].avail { return HandleME(j); }
    if j: nat :| j < |p.engines| && p.engines[j].published < p.engines[j].avail {
      assert EngineOk(p.engines[j], p.risks);
      return PublishME(j);
    }
    var low := Lowest(p.risks);
    var v := p.risks[low].published;
    if j: nat :| j < |p.engines| && p.engines[j].next < v {
      assert EngineOk(p.engines[j], p.risks);
      return FetchME(j, v);
    }
    assert MatchedUpTo(p.engines, v) by {
      forall j: nat | j < |p.engines| ensures v <= p.engines[j].published { assert EngineOk(p.engines[j], p.risks); }
    }
    a := ShardCanGo(p, low);
  }

  /** With grouping done and matching caught up with the lowest shard, some shard can go on or all have finished. */
  lemma ShardCanGo(p: Pipe, low: nat) returns (a: Action)
    requires Invariant(p) && |p.groups| == |p.kinds| && low < |p.risks|
    requires HeldUpTo(p.risks, p.risks[low].published) && MatchedUpTo(p.engines, p.risks[low].published)
    requires forall j: nat | j < |p.engines| :: p.engines[j].next == p.engines[j].avail == p.engines[j].published
    ensures Finished(p) || (Enabled(p, a) && !a.Publish? && !a.Timeout?)
  {
    hide HistoryOk, Counted, NewGroup;
    a := Group(0);
    if i: nat :| i < |p.risks| && p.risks[i].pc == Loop {
      assert RiskOk(p.risks[i], p.groups);
      return GoR1(i);
    }
    if i: nat :| i < |p.risks| && p.risks[i].pc == Fetch && p.risks[i].next < |p.groups| {
      return FetchR1(i, |p.groups|);
    }
    if i: nat :| i < |p.risks| && p.risks[i].pc.Cycle? && p.risks[i].slaveNext == p.risks[i].pc.upTo {
      assert RiskOk(p.risks[i], p.groups);
      return ReturnR2(i);
    }
    assert RiskOk(p.risks[low], p.groups);
    if p.risks[low].pc.Cycle? {
      LowestCanSettle(p, low);
      return SettleR2(low);
    }
    // The lowest shard has reached the end, so every shard has published everything.
    var n := |p.groups|;
    if i: nat :| i < |p.risks| && p.risks[i].pc.Cycle? {
      assert RiskOk(p.risks[i], p.groups) && p.risks[low].published <= p.risks[i].published;
      assert p.risks[i].published == p.risks[low].published;
      LowestCanSettle(p, i);
      return SettleR2(i);
    }
    forall j: nat | j < |p.engines| ensures p.engines[j].next == p.engines[j].published == n {
      assert EngineOk(p.engines[j], p.risks) && p.engines[j].avail <= p.risks[low].published;
    }
    forall i: nat | i < |p.risks| ensures p.risks[i].next == p.risks[i].published == p.risks[i].slaveNext == n {
      assert RiskOk(p.risks[i], p.groups);
    }
  }

  function Rank(pc: Pc): nat {
    match pc case Fetch => 0 case Loop => 3 case Cycle(_, _) => 2
  }

  function RiskWork(n: nat): Risk -> int {
    (r: Risk) => 4 * (n - r.next) + 4 * (n - r.avail) + Rank(r.pc) + (n - r.slaveNext)
  }

  function EngineWork(n: nat): Engine -> int {
    (e: Engine) => (n - e.next) + (n - e.avail) + (n - e.published)
  }

  /** The work left for the commands there are. */
  function Work(p: Pipe): int {
    2 * (|p.kinds| - |p.groups|) + (if p.g.inGroup > 0 then 1 else 0) + Sum(p.risks, RiskWork(|p.kinds|))
        + Sum(p.engines, EngineWork(|p.kinds|))
  }

  lemma WorkNonNegative(p: Pipe)
    requires Invariant(p)
    ensures 0 <= Work(p)
  {
    hide HistoryOk, Counted, NewGroup;
    forall i: nat | i < |p.risks| ensures 0 <= RiskWork(|p.kinds|)(p.risks[i]) { assert RiskOk(p.risks[i], p.groups); }
    SumNonNegative(p.risks, RiskWork(|p.kinds|));
    forall j: nat | j < |p.engines| ensures 0 <= EngineWork(|p.kinds|)(p.engines[j]) {
      assert EngineOk(p.engines[j], p.risks) && RiskOk(p.risks[0], p.groups);
      assert p.engines[j].avail <= p.risks[0].published;
    }
    SumNonNegative(p.engines, EngineWork(|p.kinds|));
  }

  lemma RiskWorkDecreases(p: Pipe, i: nat, a: Action)
    requires |p.groups| <= |p.kinds| && i < |p.risks| && RiskOk(p.risks[i], p.groups) && Enabled(p, a)
    requires a == GoR1(i) || a == SettleR2(i) || a == ReturnR2(i) || (a.FetchR1? && a.i == i)
    ensures RiskWork(|p.kinds|)(Next(p, a).risks[i]) < RiskWork(|p.kinds|)(p.risks[i])
            && Next(p, a).risks == p.risks[i := Next(p, a).risks[i]]
    ensures var q := Next(p, a); q.kinds == p.kinds && q.groups == p.groups && q.g == p.g && q.engines == p.engines
  {
    hide MatchedUpTo;
  }

  lemma EngineWorkDecreases(p: Pipe, j: nat, a: Action)
    requires j < |p.engines| && Enabled(p, a) && (a == HandleME(j) || a == PublishME(j) || (a.FetchME? && a.j == j))
    ensures EngineWork(|p.kinds|)(Next(p, a).engines[j]) < EngineWork(|p.kinds|)(p.engines[j])
            && Next(p, a).engines == p.engines[j := Next(p, a).engines[j]]
    ensures var q := Next(p, a); q.kinds == p.kinds && q.groups == p.groups && q.g == p.g && q.risks == p.risks
  {
    hide HeldUpTo;
  }

  /** With no new command, every step leaves less work. */
  lemma WorkDecreases(p: Pipe, a: Action)
    requires Invariant(p) && Enabled(p, a) && !a.Publish?
    ensures Work(Next(p, a)) < Work(p)
  {
    hide HistoryOk, Counted, NewGroup, HeldUpTo, MatchedUpTo, GroupsOk, EngineOk, RiskWork, EngineWork, RiskOk;
    var n := |p.kinds|;
    if a.Group? || a.Timeout? {
      hide Sum;
    } else if a.FetchME? || a.HandleME? || a.PublishME? {
      hide Next;
      EngineWorkDecreases(p, a.j, a);
      SumUpdate(p.engines, a.j, Next(p, a).engines[a.j], EngineWork(n));
    } else {
      hide Next;
      assert RiskOk(p.risks[a.i], p.groups);
      RiskWorkDecreases(p, a.i, a);
      SumUpdate(p.risks, a.i, Next(p, a).risks[a.i], RiskWork(n));
    }
  }

  /** However the threads are scheduled, a run without new commands makes at most as many steps as there is work,
      and it can stop only when everything is finished. */
  lemma {:induction false} EveryRunEnds(p: Pipe, actions: seq<Action>, q: Pipe)
    requires Invariant(p) && Runs(p, actions, q) && forall k | 0 <= k < |actions| :: !actions[k].Publish?
    ensures |actions| <= Work(p) && |actions| + Work(q) <= Work(p) && Invariant(q)
    ensures (forall a: Action :: a.Publish? || !Enabled(q, a)) ==> Finished(q)
    decreases |actions|
  {
    hide Invariant, Next, Enabled, Work, Finished;
    if actions == [] {
      WorkNonNegative(p);
      if (forall a: Action :: a.Publish? || !Enabled(q, a)) && !Finished(q) {
        var a := NotStuck(q);
        assert false;
      }
    } else {
      WorkDecreases(p, actions[0]);
      StepKeeps(p, actions[0]);
      EveryRunEnds(Next(p, actions[0]), actions[1..], q);
    }
  }

  /** From every reachable state the pipeline can drain: there is a run without new commands to a finished state. */
  lemma {:induction false} CanDrain(p: Pipe) returns (actions: seq<Action>, q: Pipe)
    requires Invariant(p)
    ensures Runs(p, actions, q) && Finished(q) && Invariant(q) && q.kinds == p.kinds
            && forall k | 0 <= k < |actions| :: !actions[k].Publish?
    decreases if Work(p) < 0 then 0 else Work(p)
  {
    hide Invariant, Next, Enabled, Work, Finished;
    if Finished(p) {
      actions, q := [], p;
    } else {
      var a := NotStuck(p);
      WorkDecreases(p, a);
      WorkNonNegative(p);
      StepKeeps(p, a);
      WorkNonNegative(Next(p, a));
      NextKinds(p, a);
      var rest;
      rest, q := CanDrain(Next(p, a));
      actions := [a] + rest;
      assert actions[1..] == rest;
    }
  }

  lemma NextKinds(p: Pipe, a: Action)
    requires Enabled(p, a) && !a.Publish?
    ensures Next(p, a).kinds == p.kinds
  {
  }

  // ----- Calls -----

  lemma {:induction false} DoneMonotone(h: seq<Handled>, q: nat, stage: Stage)
    requires q <= |h|
    ensures Done(h[..q], stage) <= Done(h, stage)
  {
    if q < |h| {
      DoneMonotone(h[..|h| - 1], q, stage);
      assert h[..|h| - 1][..q] == h[..q];
    } else {
      assert h[..q] == h;
    }
  }

  /** A stage that was called more than s times was called for s. */
  lemma {:induction false} CallExists(h: seq<Handled>, shards: nat, engines: nat, groups: seq<int>, stage: Stage,
                                      s: nat)
    returns (q: nat)
    requires HistoryOk(h, shards, engines, groups) && s < Done(h, stage)
    ensures q < |h| && h[q] == Handled(stage, s)
  {
    var n := |h| - 1;
    assert CallOk(h[..n], h[n], shards, engines, groups);
    if h[n] == Handled(stage, s) {
      q := n;
    } else {
      forall m: nat | m < |h[..n]| ensures CallOk(h[..n][..m], h[..n][m], shards, engines, groups) {
        assert h[..n][..m] == h[..m] && CallOk(h[..m], h[m], shards, engines, groups);
      }
      q := CallExists(h[..n], shards, engines, groups, stage, s);
    }
  }

  /** Each stage is called once for each sequence number. */
  lemma CalledOnce(p: Pipe, q: nat, q': nat)
    requires Invariant(p) && q < q' < |p.history| && p.history[q].stage == p.history[q'].stage
    ensures p.history[q].s < p.history[q'].s
  {
    hide GroupsOk, RiskOk, EngineOk, NewGroup, Done, Counted;
    var h := p.history;
    assert CallOk(h[..q], h[q], |p.risks|, |p.engines|, p.groups)
           && CallOk(h[..q'], h[q'], |p.risks|, |p.engines|, p.groups);
    assert h[..q + 1] == h[..q] + [h[q]];
    DoneAppend(h[..q], h[q], h[q].stage);
    DoneMonotone(h[..q'], q + 1, h[q].stage);
    assert h[..q'][..q + 1] == h[..q + 1];
  }

  /** When the pipeline has drained, every stage of every shard was called for every command. */
  lemma FinishedCalls(p: Pipe, stage: Stage, s: nat) returns (q: nat)
    requires Invariant(p) && Finished(p) && s < |p.kinds|
    requires match stage case R1(i) => i < |p.risks| case R2(i) => i < |p.risks| case ME(j) => j < |p.engines|
    ensures q < |p.history| && p.history[q] == Handled(stage, s)
  {
    hide GroupsOk, RiskOk, EngineOk, HistoryOk;
    q := CallExists(p.history, |p.risks|, |p.engines|, p.groups, stage, s);
  }

  lemma {:induction false} SettledAfterHeld(h: seq<Handled>, shards: nat, engines: nat, groups: seq<int>, i: nat)
    requires HistoryOk(h, shards, engines, groups) && i < shards
    ensures Done(h, R2(i)) <= Done(h, R1(i))
  {
    if h != [] {
      var n := |h| - 1;
      assert CallOk(h[..n], h[n], shards, engines, groups);
      forall m: nat | m < |h[..n]| ensures CallOk(h[..n][..m], h[..n][m], shards, engines, groups) {
        assert h[..n][..m] == h[..m] && CallOk(h[..m], h[m], shards, engines, groups);
      }
      SettledAfterHeld(h[..n], shards, engines, groups, i);
    }
  }

  lemma PrefixOk(h: seq<Handled>, q: nat, shards: nat, engines: nat, groups: seq<int>)
    requires HistoryOk(h, shards, engines, groups) && q <= |h|
    ensures HistoryOk(h[..q], shards, engines, groups)
  {
    forall m: nat | m < q ensures CallOk(h[..q][..m], h[..q][m], shards, engines, groups) {
      assert h[..q][..m] == h[..m] && CallOk(h[..m], h[m], shards, engines, groups);
    }
  }

  // ----- The snapshot cut -----

  /** When a matching shard is called for the snapshot command at s, it has handled exactly the commands before s. */
  lemma MatchingCut(p: Pipe, s: nat, j: nat, q: nat)
    requires Invariant(p) && q < |p.history| && p.history[q] == Handled(ME(j), s)
    ensures Done(p.history[..q], ME(j)) == s
    ensures forall i: nat | i < |p.risks| :: s < Done(p.history[..q], R1(i))
  {
    assert CallOk(p.history[..q], p.history[q], |p.risks|, |p.engines|, p.groups);
  }

  /** When a risk shard is called for the second snapshot command, at s + 1, it has held exactly the commands up to s
      and settled exactly those before s, or also the snapshot command at s itself, which holds and settles nothing. */
  lemma RiskCut(p: Pipe, s: nat, i: nat, q: nat)
    requires Invariant(p) && s + 1 < |p.groups| && p.kinds[s] == PERSIST_STATE_MATCHING
             && p.kinds[s + 1] == PERSIST_STATE_RISK && p.marked[s]
    requires i < |p.risks| && q < |p.history| && p.history[q] == Handled(R1(i), s + 1)
    ensures Done(p.history[..q], R1(i)) == s + 1
    ensures s <= Done(p.history[..q], R2(i)) <= s + 1
  {
    hide RiskOk, EngineOk, Counted;
    var h, n, m := p.history, |p.risks|, |p.engines|;
    assert NewGroup(p.groups, s);
    assert CallOk(h[..q], h[q], n, m, p.groups);
    PrefixOk(h, q, n, m, p.groups);
    SettledAfterHeld(h[..q], n, m, p.groups, i);
    var first := CallExists(h[..q], n, m, p.groups, R1(i), s);
    assert h[..q][..first] == h[..first];
    assert CallOk(h[..first], h[first], n, m, p.groups);
    DoneMonotone(h[..q], first, R2(i));
  }
}
