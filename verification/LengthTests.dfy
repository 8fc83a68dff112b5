/** Conditions on the buffer length that ask for more than the writer keeps: they
    never hold, although the full history would satisfy them. */
module LengthTests {

  import opened Status
  import opened Patterns
  import opened StructuredWriterSpec

  // ---------------------------------------------------------------------
  // A test above the limit never holds
  // ---------------------------------------------------------------------

  /** The buffers hold no more than the configs need. */
  ghost predicate Bounded(s: State) {
    |Buffers(s)| == |s.history| && forall i :: 0 <= i < |s.columns| ==> |s.columns[i]| <= s.history[i]
  }

  lemma {:induction false} LargestBound(history: seq<nat>, i: nat)
    requires i < |history|
    ensures history[i] <= Largest(history)
  {
    if i < |history| - 1 {
      LargestBound(history[..|history| - 1], i);
    }
  }

  lemma BoundedLongest(columns: seq<Column>, history: seq<nat>)
    requires |columns| <= |history| && forall i :: 0 <= i < |columns| ==> |columns[i]| <= history[i]
    ensures Longest(columns) <= Largest(history)
  {
    forall i | 0 <= i < |columns|
      ensures |columns[i]| <= Largest(history)
    {
      LargestBound(history, i);
    }
    LongestBound(columns, Largest(history));
  }

  /** The config asks for a longer buffer than any that is kept. */
  predicate AsksTooMuch(config: Config, limit: nat) {
    exists c :: c in config.conditions && TooLong(c, limit)
  }

  predicate TooLong(c: Condition, limit: nat) {
    c.left.BufferLength? && !c.inverse && c.cmp.Ge? && c.cmp.value > limit
  }

  lemma TooLongNeverFires(c: ConfigState, columns: seq<Column>, longest: nat, current: Info, end: bool, limit: nat)
    requires AsksTooMuch(c.config, limit) && longest <= limit
    ensures Visit(c, columns, longest, current, end).items == c.items
  {
    var d :| d in c.config.conditions && TooLong(d, limit);
    assert !Holds(d, columns, longest, current, Checked(c, current).since, end);
  }

  lemma AppendKeepsBounded(s: State, data: Data, last: bool)
    requires Bounded(s)
    ensures Bounded(Append(s, data, last, true))
  {
    var columns := NextColumns(s, data, true);
    forall i | 0 <= i < |columns|
      ensures |columns[i]| <= s.history[i]
    {
      assert columns[i] == NextColumn(s, data, i, true);
    }
  }

  lemma VisitsCreateNothing(s: State, columns: seq<Column>, end: bool, i: nat)
    requires i < |s.configs| && AsksTooMuch(s.configs[i].config, Largest(s.history))
    requires |columns| <= |s.history| && forall k :: 0 <= k < |columns| ==> |columns[k]| <= s.history[k]
    ensures var configs := Visits(s.configs, columns, Longest(columns), end);
      |configs| == |s.configs| && configs[i].config == s.configs[i].config && configs[i].items == s.configs[i].items
  {
    BoundedLongest(columns, s.history);
    if CurrentStep(columns).Some? {
      TooLongNeverFires(s.configs[i], columns, Longest(columns), CurrentStep(columns).value, end, Largest(s.history));
    }
  }

  /** An accepted config that asks for more than is kept creates no item on any
      run. */
  lemma {:induction false} TooLongNeverCreates(s: State, calls: seq<Call>, i: nat)
    requires Bounded(s) && i < |s.configs| && AsksTooMuch(s.configs[i].config, Largest(s.history))
    ensures i < |After(s, calls, true).configs| && After(s, calls, true).configs[i].items == s.configs[i].items
    decreases |calls|
  {
    if calls != [] {
      match calls[0]
      case Values(data, last) =>
        AppendKeepsBounded(s, data, last);
        VisitsCreateNothing(s, NextColumns(s, data, true), false, i);
        TooLongNeverCreates(Append(s, data, last, true), calls[1..], i);
      case Finish(clear, episode) =>
        VisitsCreateNothing(s, s.columns, true, i);
        TooLongNeverCreates(EndEpisode(s, clear, episode), calls[1..], i);
    }
  }

  // ---------------------------------------------------------------------
  // On the full history it does
  // ---------------------------------------------------------------------

  /** Every condition asks for some length of the buffer. */
  predicate OnlyMinimumLengths(config: Config) {
    forall c :: c in config.conditions ==> c.left.BufferLength? && !c.inverse && c.cmp.Ge?
  }

  function Bound(conditions: seq<Condition>): nat {
    if conditions == [] then 0
    else
      var rest := Bound(conditions[..|conditions| - 1]);
      var c := conditions[|conditions| - 1];
      if c.cmp.Ge? && c.cmp.value > rest then c.cmp.value else rest
  }

  lemma {:induction false} BoundIsEnough(conditions: seq<Condition>)
    ensures forall c :: c in conditions && c.cmp.Ge? ==> c.cmp.value <= Bound(conditions)
  {
    if conditions != [] {
      var n := |conditions| - 1;
      BoundIsEnough(conditions[..n]);
      assert conditions == conditions[..n] + [conditions[n]];
    }
  }

  /** A step with a value for every column. */
  function Everything(history: seq<nat>): Data {
    seq(|history|, _ => Some(Other))
  }

  function Steps(history: seq<nat>, n: nat): seq<Call> {
    seq(n, _ => Values(Everything(history), true))
  }

  /** All used columns have `n` values and no gap. */
  ghost predicate Gapless(columns: seq<Column>, history: seq<nat>, n: nat) {
    && |columns| == |history| && Rectangular(columns, n)
    && forall i :: 0 <= i < |columns| && history[i] > 0 ==> FullColumn(columns[i])
  }

  ghost predicate FullColumn(column: Column) {
    forall k :: 0 <= k < |column| ==> column[k].Some?
  }

  lemma {:induction false} CollectGapless(column: Column, at: nat, left: int, step: int)
    requires step > 0 && FullColumn(column) && at + left <= |column|
    ensures Collect(column, at, left, step).Cells?
    decreases left
  {
    if left > 0 && left - step > 0 {
      CollectGapless(column, at + step, left - step, step);
    }
  }

  lemma {:induction false} BuildGapless(nodes: seq<Node>, columns: seq<Column>, history: seq<nat>, n: nat)
    requires Gapless(columns, history, n) && CoversNodes(history, nodes)
    requires forall d :: d in nodes ==> ValidNode(d) && MaxAge(d) <= n
    ensures Build(nodes, columns).Trajectory?
  {
    if nodes != [] {
      var d := nodes[0];
      var column := columns[d.source];
      CollectGapless(column, |column| + From(d), LengthOf(d), StepOf(d));
      BuildGapless(nodes[1..], columns, history, n);
    }
  }

  /** A state in the middle of the run: `n` full steps since the start. */
  ghost predicate Reached(start: State, s: State, n: nat) {
    && !s.open && s.history == start.history && |Buffers(s)| == |s.history|
    && s.info == Info(start.info.episode, start.info.step + n)
    && (if n == 0 then s.columns == [] else Gapless(s.columns, s.history, n))
    && |s.configs| == |start.configs|
  }

  /** The config created something since the start, or has not applied yet. */
  ghost predicate Waiting(start: ConfigState, c: ConfigState) {
    && c.config == start.config
    && |c.items| >= |start.items|
    && (|c.items| == |start.items| ==> c.lastApplied == start.lastApplied)
  }

  lemma NextReached(start: State, s: State, n: nat)
    requires Reached(start, s, n)
    ensures Reached(start, Append(s, Everything(s.history), true, false), n + 1)
    ensures NewestAre(NextColumns(s, Everything(s.history), false), s.info)
  {
    var data := Everything(s.history);
    var columns := NextColumns(s, data, false);
    forall i | 0 <= i < |s.history|
      ensures |columns[i]| == n + 1 && Newest(columns[i]) == Incoming(s, data, i)
      ensures s.history[i] > 0 ==> FullColumn(columns[i])
    {
      assert columns[i] == NextColumn(s, data, i, false);
    }
  }

  lemma NextStep(s: State, i: nat)
    requires |Buffers(s)| == |s.history| && !s.open && i < |s.history| && s.history[i] > 0
    requires NewestAre(NextColumns(s, Everything(s.history), false), s.info)
    ensures CurrentStep(NextColumns(s, Everything(s.history), false)) == Some(s.info)
  {
    var columns := NextColumns(s, Everything(s.history), false);
    assert columns[i] == NextColumn(s, Everything(s.history), i, false) && Newest(columns[i]).Some?;
    CurrentStepIs(columns, s.info);
  }

  /** Once there are enough steps the config applies. */
  lemma FiresWhenLongEnough(c: ConfigState, columns: seq<Column>, history: seq<nat>, n: nat, current: Info)
    requires Gapless(columns, history, n) && columns != [] && Accepted(c.config) && Covers(history, c.config)
    requires OnlyMinimumLengths(c.config) && Bound(c.config.conditions) <= n && c.lastApplied != current
    ensures Fires(c, columns, Longest(columns), current, false)
  {
    LongestRectangle(columns, n);
    BoundIsEnough(c.config.conditions);
    var g :| g in c.config.conditions && LooksLikeGuard(g, OldestAge(c.config.nodes));
    OldestAgeIsMax(c.config.nodes);
    BuildGapless(c.config.nodes, columns, history, n);
  }

  lemma VisitWaits(start: ConfigState, c: ConfigState, columns: seq<Column>, longest: nat, current: Info, end: bool)
    requires Waiting(start, c)
    ensures Waiting(start, Visit(c, columns, longest, current, end))
  {
  }

  /** One more step of the run on the full history. */
  lemma StepOnFullHistory(start: State, s: State, n: nat, i: nat)
    requires Reached(start, s, n) && Usable(start.configs, start.history) && i < |start.configs|
    requires start.configs[i].lastApplied.step < 0 <= start.info.step
    requires Waiting(start.configs[i], s.configs[i]) && OnlyMinimumLengths(start.configs[i].config)
    ensures var s' := Append(s, Everything(s.history), true, false);
      && Reached(start, s', n + 1) && Waiting(start.configs[i], s'.configs[i])
      && (n + 1 >= Bound(start.configs[i].config.conditions) ==> |s'.configs[i].items| > |start.configs[i].items|)
  {
    NextReached(start, s, n);
    var columns, c := NextColumns(s, Everything(s.history), false), s.configs[i];
    var node := c.config.nodes[0];
    assert ValidNode(node) && s.history[node.source] > 0;
    NextStep(s, node.source);
    VisitWaits(start.configs[i], c, columns, Longest(columns), s.info, false);
    if n + 1 >= Bound(c.config.conditions) && |c.items| == |start.configs[i].items| {
      FiresWhenLongEnough(c, columns, s.history, n + 1, s.info);
    }
  }

  lemma {:induction false} FullHistoryCreates(start: State, s: State, n: nat, more: nat, i: nat)
    requires Reached(start, s, n) && Usable(start.configs, start.history) && i < |start.configs|
    requires start.configs[i].lastApplied.step < 0 <= start.info.step
    requires Waiting(start.configs[i], s.configs[i]) && OnlyMinimumLengths(start.configs[i].config)
    requires more > 0 && n + more >= Bound(start.configs[i].config.conditions)
    ensures var s' := After(s, Steps(s.history, more), false);
      i < |s'.configs| && |s'.configs[i].items| > |start.configs[i].items|
    decreases more
  {
    StepOnFullHistory(start, s, n, i);
    var s', calls := Append(s, Everything(s.history), true, false), Steps(s.history, more);
    assert calls[1..] == Steps(s.history, more - 1) && calls[0] == Values(Everything(s.history), true);
    if more == 1 {
      assert After(s', calls[1..], false) == s';
    } else {
      FullHistoryCreates(start, s', n + 1, more - 1, i);
    }
  }

  // ---------------------------------------------------------------------
  // Exactly when trimming can be observed
  // ---------------------------------------------------------------------

  /** A writer that has not seen any data. */
  ghost predicate Fresh(s: State) {
    && s.columns == [] && !s.open && s.info.step >= 0
    && Usable(s.configs, s.history)
    && forall i :: 0 <= i < |s.configs| ==> s.configs[i].lastApplied.step < 0
  }

  lemma FreshMatches(s: State)
    requires Fresh(s)
    ensures Matches(s, s) && Bounded(s)
  {
    assert Rectangular(s.columns, 0);
  }

  /** A run on which the config creates an item from the full history, and none from
      what the writer keeps. */
  lemma TooLongShows(s: State, i: nat) returns (calls: seq<Call>)
    requires Fresh(s) && i < |s.configs| && OnlyMinimumLengths(s.configs[i].config)
    requires AsksTooMuch(s.configs[i].config, Largest(s.history))
    ensures var kept, full := After(s, calls, true), After(s, calls, false);
      && i < |kept.configs| && i < |full.configs|
      && kept.configs[i].items == s.configs[i].items
      && |full.configs[i].items| > |s.configs[i].items|
  {
    var n := Bound(s.configs[i].config.conditions) + 1;
    calls := Steps(s.history, n);
    FreshMatches(s);
    TooLongNeverCreates(s, calls, i);
    FullHistoryCreates(s, s, 0, n, i);
  }

  ghost predicate SameOnRun(s: State, calls: seq<Call>, i: nat)
    requires |Buffers(s)| == |s.history|
  {
    var kept, full := After(s, calls, true), After(s, calls, false);
    i < |kept.configs| && i < |full.configs| && kept.configs[i] == full.configs[i]
  }

  /** For a config with minimum lengths as its conditions, trimming is unobservable on
      all runs if and only if none of them exceeds the largest history. */
  lemma UnobservableIff(s: State, i: nat)
    requires Fresh(s) && i < |s.configs| && OnlyMinimumLengths(s.configs[i].config)
    ensures (forall calls :: SameOnRun(s, calls, i)) <==> LengthBlind(s.configs[i].config, Largest(s.history))
  {
    FreshMatches(s);
    if LengthBlind(s.configs[i].config, Largest(s.history)) {
      forall calls ensures SameOnRun(s, calls, i) {
        BlindIsSameOnRun(s, calls, i);
      }
    } else {
      var c :| c in s.configs[i].config.conditions && c.left.BufferLength? && !BlindAbove(c.cmp, Largest(s.history));
      assert TooLong(c, Largest(s.history));
      var calls := TooLongShows(s, i);
      assert !SameOnRun(s, calls, i);
    }
  }

  /** Whatever its other conditions, a config with blind length tests is the same on
      every run. */
  lemma BlindIsSameOnRun(s: State, calls: seq<Call>, i: nat)
    requires Fresh(s) && i < |s.configs| && LengthBlind(s.configs[i].config, Largest(s.history))
    ensures SameOnRun(s, calls, i)
  {
    FreshMatches(s);
    TrimmingIsUnobservable(s, s, calls);
    AfterKeepsConfigs(s, calls, true);
  }

  lemma {:induction false} AfterKeepsConfigs(s: State, calls: seq<Call>, trim: bool)
    requires |Buffers(s)| == |s.history|
    ensures var s' := After(s, calls, trim);
      && s'.history == s.history && |s'.configs| == |s.configs|
      && forall i :: 0 <= i < |s.configs| ==> s'.configs[i].config == s.configs[i].config
    decreases |calls|
  {
    if calls != [] {
      match calls[0]
      case Values(data, last) => AfterKeepsConfigs(Append(s, data, last, trim), calls[1..], trim);
      case Finish(clear, episode) => AfterKeepsConfigs(EndEpisode(s, clear, episode), calls[1..], trim);
    }
  }

  /** The newest cell as soon as there are two steps: accepted and guarded, and yet it
      never applies, since only one step is kept. */
  lemma LateGuardExample() returns (calls: seq<Call>)
    ensures var config := Config("t", [Node(0, None, Some(-1), None)], [Condition(BufferLength(true), Ge(2), false)]);
      var s := Initial([config], [1], 1);
      && Accepted(config) && Guarded(config) && Covers([1], config) && Tight([config], [1])
      && |After(s, calls, true).configs| == 1 == |After(s, calls, false).configs|
      && After(s, calls, true).configs[0].items == []
      && After(s, calls, false).configs[0].items != []
  {
    var node, guard := Node(0, None, Some(-1), None), Condition(BufferLength(true), Ge(2), false);
    var config := Config("t", [node], [guard]);
    var s := Initial([config], [1], 1);
    assert [node][..0] == [] && OldestAge([node]) == 1;
    assert guard in config.conditions && LooksLikeGuard(guard, 1);
    assert [1][..0] == [] && Largest([1]) == 1;
    assert TooLong(guard, 1) && AsksTooMuch(config, 1);
    assert config in [config] && node in config.nodes && Needed([config], 0, 1);
    calls := TooLongShows(s, 0);
    AfterKeepsConfigs(s, calls, true);
    AfterKeepsConfigs(s, calls, false);
  }
}
