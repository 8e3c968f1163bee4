/** Why a command that must find everything before it settled has to start a group: if it does not, some run of the
    pipeline with the same groups calls a shard for it too early. */
module GroupStarts {
  import opened Grouping
  import opened Pipeline

  // ----- Publishing and grouping alone -----

  /** No stage has been called. */
  ghost predicate Uncalled(f: Pipe, shards: nat, engines: nat) {
    && |f.groups| <= |f.kinds|
    && f == Start(f.limit, shards, engines).(kinds := f.kinds, g := f.g, groups := f.groups, marked := f.marked)
  }

  ghost predicate SameIntake(p: Pipe, f: Pipe) {
    p.kinds == f.kinds && p.limit == f.limit && p.g == f.g && p.groups == f.groups && p.marked == f.marked
  }

  predicate IsIntake(a: Action) { a.Publish? || a.Group? || a.Timeout? }

  lemma OtherStep(p: Pipe, f: Pipe, a: Action)
    requires SameIntake(p, f) && Enabled(p, a) && !IsIntake(a)
    ensures SameIntake(Next(p, a), f)
  {
    hide HeldUpTo, MatchedUpTo;
  }

  lemma IntakeStep(p: Pipe, f: Pipe, a: Action, shards: nat, engines: nat)
    requires SameIntake(p, f) && Uncalled(f, shards, engines) && Enabled(p, a) && IsIntake(a)
    ensures Enabled(f, a) && SameIntake(Next(p, a), Next(f, a)) && Uncalled(Next(f, a), shards, engines)
  {
    hide Assign;
  }

  /** Whatever a run publishes and groups can be published and grouped before any stage is called. */
  lemma {:induction false} Intake(p: Pipe, actions: seq<Action>, q: Pipe, f: Pipe, shards: nat, engines: nat)
    returns (intake: seq<Action>, g: Pipe)
    requires Runs(p, actions, q) && SameIntake(p, f) && Uncalled(f, shards, engines)
    ensures Runs(f, intake, g) && SameIntake(q, g) && Uncalled(g, shards, engines)
    decreases |actions|
  {
    hide Enabled, Next, SameIntake, Uncalled;
    if actions == [] {
      intake, g := [], f;
    } else if IsIntake(actions[0]) {
      IntakeStep(p, f, actions[0], shards, engines);
      var rest;
      rest, g := Intake(Next(p, actions[0]), actions[1..], q, Next(f, actions[0]), shards, engines);
      intake := [actions[0]] + rest;
      assert intake[1..] == rest;
    } else {
      OtherStep(p, f, actions[0]);
      intake, g := Intake(Next(p, actions[0]), actions[1..], q, f, shards, engines);
    }
  }

  // ----- One command after the other -----

  function GroupBefore(groups: seq<int>, k: nat): int {
    if 0 < k <= |groups| then groups[k - 1] else 0
  }

  /** A shard that has held and settled the first k commands, and one that has held one more and waits to settle it. */
  predicate Rested(r: Risk, groups: seq<int>, k: nat) {
    && r.pc == Fetch && r.next == r.avail == r.published == r.slaveNext == k
    && r.group == GroupBefore(groups, k) && r.triggered <= k
  }

  predicate Waits(r: Risk, groups: seq<int>, k: nat) {
    && r.pc == Cycle(k + 1, false) && r.next == r.avail == r.published == k + 1 && r.slaveNext == k
    && r.group == GroupBefore(groups, k + 1) && r.triggered <= k
  }

  /** q differs from f in its shards and in what was called. */
  ghost predicate Moved(f: Pipe, q: Pipe) {
    && q == f.(risks := q.risks, engines := q.engines, history := q.history)
    && |q.risks| == |f.risks| && |q.engines| == |f.engines| && |f.groups| <= |f.kinds|
  }

  /** All stages have been called for the first k commands. */
  ghost predicate Even(f: Pipe, q: Pipe, k: nat) {
    && Moved(f, q) && k <= |f.groups|
    && (forall i: nat | i < |q.risks| :: Rested(q.risks[i], f.groups, k))
    && forall j: nat | j < |q.engines| :: q.engines[j] == Engine(k, k, k)
  }

  /** A shard takes the next command of a batch, after the settlement cycle that a new group asks for and that has
      nothing to do. */
  lemma TakeOne(f: Pipe, actions: seq<Action>, q: Pipe, i: nat, k: nat) returns (actions': seq<Action>, q': Pipe)
    requires Runs(f, actions, q) && |q.groups| <= |q.kinds| && i < |q.risks| && k < |q.groups|
    requires q.risks[i].pc == Loop && q.risks[i].next == q.risks[i].slaveNext == k < q.risks[i].avail <= |q.groups|
    requires q.risks[i].triggered <= k
    ensures Runs(f, actions', q') && |q'.risks| == |q.risks|
    ensures q' == q.(risks := q.risks[i := q'.risks[i]], history := q'.history)
    ensures q'.risks[i] == q.risks[i].(next := k + 1, group := q.groups[k], published := q'.risks[i].published,
                                       triggered := q'.risks[i].triggered) && q'.risks[i].triggered <= k
  {
    hide Runs, HeldUpTo, MatchedUpTo;
    actions', q' := OneStep(f, actions, q, GoR1(i));
    if q.groups[k] != q.risks[i].group {
      actions', q' := OneStep(f, actions', q', ReturnR2(i));
    }
  }

  lemma HoldOne(f: Pipe, actions: seq<Action>, q: Pipe, i: nat, k: nat) returns (actions': seq<Action>, q': Pipe)
    requires Runs(f, actions, q) && |q.groups| <= |q.kinds| && i < |q.risks| && k < |q.groups|
             && Rested(q.risks[i], q.groups, k)
    ensures Runs(f, actions', q') && |q'.risks| == |q.risks|
    ensures q' == q.(risks := q.risks[i := q'.risks[i]], history := q'.history)
    ensures Waits(q'.risks[i], q.groups, k)
  {
    hide Runs, HeldUpTo, MatchedUpTo;
    actions', q' := OneStep(f, actions, q, FetchR1(i, k + 1));
    actions', q' := TakeOne(f, actions', q', i, k);
    actions', q' := OneStep(f, actions', q', GoR1(i));
  }

  lemma MatchOne(f: Pipe, actions: seq<Action>, q: Pipe, j: nat, k: nat) returns (actions': seq<Action>, q': Pipe)
    requires Runs(f, actions, q) && |q.groups| <= |q.kinds| && j < |q.engines| && q.engines[j] == Engine(k, k, k)
    requires HeldUpTo(q.risks, k + 1)
    ensures Runs(f, actions', q')
    ensures q' == q.(engines := q.engines[j := Engine(k + 1, k + 1, k + 1)], history := q'.history)
  {
    hide Runs, MatchedUpTo;
    actions', q' := OneStep(f, actions, q, FetchME(j, k + 1));
    actions', q' := OneStep(f, actions', q', HandleME(j));
    actions', q' := OneStep(f, actions', q', PublishME(j));
  }

  lemma SettleOne(f: Pipe, actions: seq<Action>, q: Pipe, i: nat, k: nat) returns (actions': seq<Action>, q': Pipe)
    requires Runs(f, actions, q) && |q.groups| <= |q.kinds| && i < |q.risks| && Waits(q.risks[i], q.groups, k)
    requires MatchedUpTo(q.engines, k + 1)
    ensures Runs(f, actions', q') && |q'.risks| == |q.risks|
    ensures q' == q.(risks := q.risks[i := q'.risks[i]], history := q'.history)
    ensures Rested(q'.risks[i], q.groups, k + 1)
  {
    hide Runs, HeldUpTo;
    actions', q' := OneStep(f, actions, q, SettleR2(i));
    actions', q' := OneStep(f, actions', q', ReturnR2(i));
  }

  lemma HoldAll(f: Pipe, actions: seq<Action>, q: Pipe, k: nat) returns (actions': seq<Action>, q': Pipe)
    requires Runs(f, actions, q) && Even(f, q, k) && k < |f.groups|
    ensures Runs(f, actions', q') && Moved(f, q') && q'.engines == q.engines
    ensures forall i: nat | i < |q'.risks| :: Waits(q'.risks[i], f.groups, k)
  {
    hide Runs, Rested, Waits;
    actions', q' := actions, q;
    for i := 0 to |q.risks|
      invariant Runs(f, actions', q') && Moved(f, q') && q'.engines == q.engines
      invariant forall m: nat | m < |q'.risks| :: if m < i then Waits(q'.risks[m], f.groups, k)
                else Rested(q'.risks[m], f.groups, k)
    {
      actions', q' := HoldOne(f, actions', q', i, k);
    }
  }

  lemma MatchAll(f: Pipe, actions: seq<Action>, q: Pipe, k: nat) returns (actions': seq<Action>, q': Pipe)
    requires Runs(f, actions, q) && Moved(f, q) && HeldUpTo(q.risks, k + 1)
    requires forall j: nat | j < |q.engines| :: q.engines[j] == Engine(k, k, k)
    ensures Runs(f, actions', q') && Moved(f, q') && q'.risks == q.risks
    ensures forall j: nat | j < |q'.engines| :: q'.engines[j] == Engine(k + 1, k + 1, k + 1)
  {
    hide Runs, HeldUpTo;
    actions', q' := actions, q;
    for j := 0 to |q.engines|
      invariant Runs(f, actions', q') && Moved(f, q') && q'.risks == q.risks
      invariant forall m: nat | m < |q'.engines| :: q'.engines[m] == if m < j then Engine(k + 1, k + 1, k + 1)
                else Engine(k, k, k)
    {
      actions', q' := MatchOne(f, actions', q', j, k);
    }
  }

  lemma SettleAll(f: Pipe, actions: seq<Action>, q: Pipe, k: nat) returns (actions': seq<Action>, q': Pipe)
    requires Runs(f, actions, q) && Moved(f, q) && MatchedUpTo(q.engines, k + 1)
    requires forall i: nat | i < |q.risks| :: Waits(q.risks[i], f.groups, k)
    ensures Runs(f, actions', q') && Moved(f, q') && q'.engines == q.engines
    ensures forall i: nat | i < |q'.risks| :: Rested(q'.risks[i], f.groups, k + 1)
  {
    hide Runs, Rested, Waits, MatchedUpTo;
    actions', q' := actions, q;
    for i := 0 to |q.risks|
      invariant Runs(f, actions', q') && Moved(f, q') && q'.engines == q.engines
      invariant forall m: nat | m < |q'.risks| ::
                  if m < i then Rested(q'.risks[m], f.groups, k + 1) else Waits(q'.risks[m], f.groups, k)
    {
      actions', q' := SettleOne(f, actions', q', i, k);
    }
  }

  /** The pipeline can take its commands one at a time through all stages. */
  lemma {:induction false} Rounds(f: Pipe, shards: nat, engines: nat, k: nat) returns (actions: seq<Action>, q: Pipe)
    requires Uncalled(f, shards, engines) && k <= |f.groups|
    ensures Runs(f, actions, q) && Even(f, q, k)
  {
    if k == 0 {
      actions, q := [], f;
    } else {
      hide Runs, Uncalled;
      actions, q := Rounds(f, shards, engines, k - 1);
      actions, q := HoldAll(f, actions, q, k - 1);
      actions, q := MatchAll(f, actions, q, k - 1);
      actions, q := SettleAll(f, actions, q, k - 1);
    }
  }

  // ----- Too early -----

  /** With these groups, whatever the run, a shard that is called for command s has settled everything before it. */
  ghost predicate AlwaysSettled(limit: int, shards: nat, engines: nat, groups: seq<int>, s: nat) {
    forall actions: seq<Action>, q: Pipe, k: nat, i: nat
      | Runs(Start(limit, shards, engines), actions, q) && groups <= q.groups && k < |q.history|
          && q.history[k] == Handled(R1(i), s) ::
      Done(q.history[..k], R2(i)) == s
  }

  /** Two commands of one group in one batch: the shard is called for the second before it has settled the first. */
  lemma Early(f: Pipe, shards: nat, engines: nat, s: nat) returns (actions: seq<Action>, before: Pipe)
    requires Uncalled(f, shards, engines) && 0 < shards && 0 < s < |f.groups| && !NewGroup(f.groups, s)
    ensures Runs(f, actions, before) && Enabled(before, GoR1(0)) && |before.risks| == shards
            && before.risks[0].slaveNext == s - 1
    ensures Next(before, GoR1(0)).history == before.history + [Handled(R1(0), s)]
    ensures Next(before, GoR1(0)).groups == f.groups
  {
    hide Runs, HeldUpTo, MatchedUpTo;
    actions, before := Rounds(f, shards, engines, s - 1);
    assert Rested(before.risks[0], f.groups, s - 1);
    actions, before := OneStep(f, actions, before, FetchR1(0, s + 1));
    actions, before := TakeOne(f, actions, before, 0, s - 1);
  }

  lemma StartIsUncalled(limit: int, shards: nat, engines: nat)
    ensures Uncalled(Start(limit, shards, engines), shards, engines)
    ensures SameIntake(Start(limit, shards, engines), Start(limit, shards, engines))
  {
  }

  /** So with the groups of any run. */
  lemma EarlyRun(limit: int, shards: nat, engines: nat, actions: seq<Action>, p: Pipe, s: nat)
    returns (run: seq<Action>, q: Pipe, k: nat)
    requires 0 < shards && 0 < engines && Runs(Start(limit, shards, engines), actions, p)
    requires 0 < s < |p.groups| && !NewGroup(p.groups, s)
    ensures Runs(Start(limit, shards, engines), run, q) && q.groups == p.groups
    ensures k < |q.history| && q.history[k] == Handled(R1(0), s) && Done(q.history[..k], R2(0)) == s - 1
  {
    hide Runs, Invariant, Enabled, Next, Done, NewGroup;
    var start := Start(limit, shards, engines);
    StartIsUncalled(limit, shards, engines);
    var intake, f := Intake(start, actions, p, start, shards, engines);
    var more, before := Early(f, shards, engines, s);
    RunsThen(start, intake, f, more, before);
    StartKeeps(limit, shards, engines);
    EveryRunIsSafe(start, intake + more, before);
    SettledIs(before);
    run, q := OneStep(start, intake + more, before, GoR1(0));
    k := |before.history|;
    assert q.history[..k] == before.history;
  }

  lemma SettledIs(p: Pipe)
    requires Invariant(p)
    ensures forall i: nat | i < |p.risks| :: Done(p.history, R2(i)) == p.risks[i].slaveNext
  {
    hide HistoryOk, RiskOk, EngineOk, MatchedUpTo, GroupsOk;
  }

  lemma CallsInOrder(p: Pipe, k: nat, i: nat, s: nat)
    requires Invariant(p) && k < |p.history| && p.history[k] == Handled(R1(i), s)
    ensures s < |p.groups| && (NewGroup(p.groups, s) ==> Done(p.history[..k], R2(i)) == s)
  {
    hide RiskOk, EngineOk, MatchedUpTo, GroupsOk, Counted;
    assert CallOk(p.history[..k], p.history[k], |p.risks|, |p.engines|, p.groups);
  }

  /** A shard is always called for a command, a reset for one, with everything before it settled if and only if the
      command starts a group: otherwise the pipeline has a run with the same groups in which the command before it has
      yet to be settled. */
  lemma GroupStartWaits(limit: int, shards: nat, engines: nat, actions: seq<Action>, p: Pipe, s: nat)
    requires 0 < shards && 0 < engines && Runs(Start(limit, shards, engines), actions, p) && 0 < s < |p.groups|
    ensures AlwaysSettled(limit, shards, engines, p.groups, s) <==> NewGroup(p.groups, s)
  {
    hide Runs, Invariant, Done;
    if NewGroup(p.groups, s) {
      forall run: seq<Action>, q: Pipe, k: nat, i: nat
        | Runs(Start(limit, shards, engines), run, q) && p.groups <= q.groups && k < |q.history|
            && q.history[k] == Handled(R1(i), s)
        ensures Done(q.history[..k], R2(i)) == s
      {
        StartKeeps(limit, shards, engines);
        EveryRunIsSafe(Start(limit, shards, engines), run, q);
        CallsInOrder(q, k, i, s);
      }
    } else {
      var run, q, k := EarlyRun(limit, shards, engines, actions, p, s);
    }
  }
}
