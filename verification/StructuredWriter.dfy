/** `StructuredWriter`: appends steps, possibly in parts, to the columns and applies
    every config whose conditions hold. */
module StructuredWriterSpec {

  import opened Status
  import opened Suffixes
  import opened Patterns

  /** The values of a step by column; a column may be left out. */
  type Data = seq<Option<Tensor>>

  datatype Item = Item(table: string, columns: seq<Slice>)

  /** `items` are the items that the config has created. */
  datatype ConfigState = ConfigState(config: Config, since: int, lastApplied: Info, lastChecked: Info, items: seq<Item>)

  /** `info` is the step that the wrapped writer is at. */
  datatype State = State(
    history: seq<nat>,
    columns: seq<Column>,
    open: bool,
    info: Info,
    configs: seq<ConfigState>)

  // ---------------------------------------------------------------------
  // Applying the configs
  // ---------------------------------------------------------------------

  /** The step of the newest cells, if there are any. */
  function CurrentStep(columns: seq<Column>): Option<Info> {
    if columns == [] then None
    else if Newest(columns[0]).Some? then Some(Newest(columns[0]).value.info)
    else CurrentStep(columns[1..])
  }

  /** The config is due: it has not applied at this step, its conditions hold, and
      its trajectory has no gaps. */
  predicate Fires(c: ConfigState, columns: seq<Column>, longest: nat, current: Info, end: bool) {
    && c.lastApplied != current
    && AllHold(c.config, columns, longest, current, Checked(c, current).since, end)
    && Build(c.config.nodes, columns).Trajectory?
  }

  function ItemOf(c: ConfigState, columns: seq<Column>): Item
    requires Build(c.config.nodes, columns).Trajectory?
  {
    Item(c.config.table, Build(c.config.nodes, columns).columns)
  }

  /** One config is looked at: it applies at most once per step, and the steps since
      it applied count up once per step. */
  function Visit(c: ConfigState, columns: seq<Column>, longest: nat, current: Info, end: bool): ConfigState {
    if c.lastApplied == current then c
    else if Fires(c, columns, longest, current, end) then Created(Checked(c, current), ItemOf(c, columns), current)
    else Checked(c, current)
  }

  function Checked(c: ConfigState, current: Info): ConfigState {
    if c.lastChecked == current then c else c.(since := c.since + 1, lastChecked := current)
  }

  function Created(c: ConfigState, item: Item, current: Info): ConfigState {
    c.(lastApplied := current, since := 0, items := c.items + [item])
  }

  function Visits(configs: seq<ConfigState>, columns: seq<Column>, longest: nat, end: bool): seq<ConfigState> {
    match CurrentStep(columns)
    case None => configs
    case Some(info) =>
      seq(|configs|, i requires 0 <= i < |configs| => Visit(configs[i], columns, longest, info, end))
  }

  /** Creating the item of config `k` failed: it counts as looked at, the configs
      before it are done, and those behind it are not reached. */
  function StoppedAt(configs: seq<ConfigState>, columns: seq<Column>, longest: nat, current: Info, end: bool, k: nat)
    : seq<ConfigState>
  {
    seq(|configs|, i requires 0 <= i < |configs| =>
      if i < k then Visit(configs[i], columns, longest, current, end)
      else if i == k then Checked(configs[i], current) else configs[i])
  }

  /** Config `k` is the first that is due and whose item is refused. */
  ghost predicate RefusedAt(configs: seq<ConfigState>, columns: seq<Column>, longest: nat, current: Info, end: bool,
                            report: nat -> Status, k: nat)
  {
    && k < |configs| && Fires(configs[k], columns, longest, current, end) && report(k) != Ok
    && forall i :: 0 <= i < k && Fires(configs[i], columns, longest, current, end) ==> report(i) == Ok
  }

  ghost predicate SomeRefused(configs: seq<ConfigState>, columns: seq<Column>, end: bool, report: nat -> Status) {
    CurrentStep(columns).Some? &&
    exists k: nat :: RefusedAt(configs, columns, Longest(columns), CurrentStep(columns).value, end, report, k)
  }

  /** The configs after a call that ended with `status` because an item was refused. */
  ghost predicate Stopped(configs: seq<ConfigState>, columns: seq<Column>, end: bool, report: nat -> Status,
                          status: Status, configs': seq<ConfigState>)
  {
    CurrentStep(columns).Some? &&
    exists k: nat ::
      && RefusedAt(configs, columns, Longest(columns), CurrentStep(columns).value, end, report, k)
      && status == report(k)
      && configs' == StoppedAt(configs, columns, Longest(columns), CurrentStep(columns).value, end, k)
  }

  // ---------------------------------------------------------------------
  // Appending
  // ---------------------------------------------------------------------

  /** The reference that the wrapped writer returns for a column. Columns that no
      config uses are not written. */
  function Incoming(s: State, data: Data, i: nat): Option<Cell> {
    if i < |data| && i < |s.history| && s.history[i] > 0 && data[i].Some? then
      Some(Cell(i, s.info, data[i].value))
    else None
  }

  function Buffers(s: State): seq<Column> {
    if s.columns == [] then seq(|s.history|, _ => []) else s.columns
  }

  /** A new row, or the value for a row that is open. */
  function Put(column: Column, cell: Option<Cell>, open: bool): Column {
    if !open then column + [cell]
    else if cell.Some? && column != [] then column[|column| - 1 := cell]
    else column
  }

  function Cut(column: Column, keep: nat): Column {
    if |column| > keep then column[1..] else column
  }

  function NextColumn(s: State, data: Data, i: nat, trim: bool): Column
    requires i < |s.history| == |Buffers(s)|
  {
    var column := Put(Buffers(s)[i], Incoming(s, data, i), s.open);
    if trim then Cut(column, s.history[i]) else column
  }

  function NextColumns(s: State, data: Data, trim: bool): seq<Column>
    requires |Buffers(s)| == |s.history|
  {
    seq(|s.history|, i requires 0 <= i < |s.history| => NextColumn(s, data, i, trim))
  }

  /** The step of the wrapped writer after it took the values of a call. */
  function NextInfo(s: State, last: bool): Info {
    if last then Info(s.info.episode, s.info.step + 1) else s.info
  }

  /** One call of Append (`last`) or AppendPartial. With `trim` the columns are cut
      to the history that the configs need, which is what the writer does; without
      it they hold everything. */
  function Append(s: State, data: Data, last: bool, trim: bool): State
    requires |Buffers(s)| == |s.history|
  {
    var columns := NextColumns(s, data, trim);
    s.(columns := columns, open := !last,
       info := NextInfo(s, last),
       configs := Visits(s.configs, columns, Longest(columns), false))
  }

  function EndEpisode(s: State, clear: bool, episode: nat): State {
    s.(columns := if clear then [] else s.columns, open := false, info := Info(episode, 0),
       configs := Visits(s.configs, s.columns, Longest(s.columns), true))
  }

  // ---------------------------------------------------------------------
  // Invariant
  // ---------------------------------------------------------------------

  /** The newest cells are all of the given step. */
  ghost predicate NewestAre(columns: seq<Column>, info: Info) {
    forall i :: 0 <= i < |columns| && Newest(columns[i]).Some? ==> Newest(columns[i]).value.info == info
  }

  ghost predicate Shaped(s: State) {
    && |Buffers(s)| == |s.history|
    && (forall i :: 0 <= i < |s.columns| ==> |s.columns[i]| <= s.history[i])
    && (s.open ==> |s.columns| == |s.history| && NewestAre(s.columns, s.info))
    && (s.open ==> forall i :: 0 <= i < |s.columns| && s.history[i] > 0 ==> s.columns[i] != [])
  }

  ghost predicate Usable(configs: seq<ConfigState>, history: seq<nat>) {
    forall i :: 0 <= i < |configs| ==>
      Accepted(configs[i].config) && Covers(history, configs[i].config)
  }

  /** A column that is given a value and already has one in the open step. */
  ghost predicate Repeats(s: State, data: Data, i: nat)
    requires |Buffers(s)| == |s.history|
  {
    s.open && i < |s.history| && Incoming(s, data, i).Some? && Newest(Buffers(s)[i]).Some?
  }

  lemma AppendKeepsShape(s: State, data: Data, last: bool)
    requires Shaped(s)
    ensures Shaped(Append(s, data, last, true))
  {
    var s' := Append(s, data, last, true);
    forall i | 0 <= i < |s.history|
      ensures s'.columns[i] == NextColumn(s, data, i, true)
      ensures |s'.columns[i]| <= s.history[i]
      ensures s.history[i] > 0 ==> s'.columns[i] != []
      ensures Newest(s'.columns[i]).Some? ==> Newest(s'.columns[i]).value.info == s.info
    {
    }
  }

  // ---------------------------------------------------------------------
  // What a call does, row by row and config by config
  // ---------------------------------------------------------------------

  /** The steps since the config applied, the current one included. */
  function StepsSince(c: ConfigState, current: Info): int {
    if c.lastChecked == current then c.since else c.since + 1
  }

  /** The config has not applied at this step, its conditions are satisfied, and every
      cell that it asks for is there. */
  ghost predicate Due(c: ConfigState, columns: seq<Column>, current: Info, end: bool)
    requires Accepted(c.config)
  {
    && c.lastApplied != current
    && (forall d :: d in c.config.conditions ==> Satisfied(d, columns, current, StepsSince(c, current), end))
    && AllFindCells(c.config.nodes, columns)
  }

  lemma FiresIffDue(c: ConfigState, columns: seq<Column>, current: Info, end: bool)
    requires Accepted(c.config) && columns != []
    ensures Fires(c, columns, Longest(columns), current, end) <==> Due(c, columns, current, end)
  {
    var since := StepsSince(c, current);
    forall d | d in c.config.conditions
      ensures Holds(d, columns, Longest(columns), current, since, end) <==> Satisfied(d, columns, current, since, end)
    {
      HoldsIffSatisfied(d, columns, current, since, end);
    }
    BuildDescribes(c.config.nodes, columns);
  }

  ghost predicate MadeFrom(config: Config, columns: seq<Column>, item: Item) {
    item.table == config.table && DescribedBy(config.nodes, columns, item.columns)
  }

  /** A config that is due creates the item that its pattern describes and starts to count
      again. Any other creates none, and counts the step once unless it has applied. */
  ghost predicate TreatedRightly(c: ConfigState, c': ConfigState, columns: seq<Column>, current: Info, end: bool)
    requires Accepted(c.config)
  {
    && c'.config == c.config
    && if Due(c, columns, current, end) then
         && |c'.items| == |c.items| + 1 && c.items <= c'.items && MadeFrom(c.config, columns, c'.items[|c.items|])
         && c'.lastApplied == current && c'.lastChecked == current && c'.since == 0
       else
         && c'.items == c.items && c'.lastApplied == c.lastApplied
         && if c.lastApplied == current then c' == c
            else c'.since == StepsSince(c, current) && c'.lastChecked == current
  }

  lemma VisitTreats(c: ConfigState, columns: seq<Column>, current: Info, end: bool)
    requires Accepted(c.config) && columns != []
    ensures TreatedRightly(c, Visit(c, columns, Longest(columns), current, end), columns, current, end)
  {
    FiresIffDue(c, columns, current, end);
    BuildDescribes(c.config.nodes, columns);
  }

  ghost predicate AllTreatedRightly(configs: seq<ConfigState>, configs': seq<ConfigState>, columns: seq<Column>, end: bool)
    requires forall i :: 0 <= i < |configs| ==> Accepted(configs[i].config)
  {
    match CurrentStep(columns)
    case None => configs' == configs
    case Some(current) =>
      && |configs'| == |configs|
      && forall i :: 0 <= i < |configs| ==> TreatedRightly(configs[i], configs'[i], columns, current, end)
  }

  lemma VisitsTreat(configs: seq<ConfigState>, columns: seq<Column>, end: bool)
    requires forall i :: 0 <= i < |configs| ==> Accepted(configs[i].config)
    ensures AllTreatedRightly(configs, Visits(configs, columns, Longest(columns), end), columns, end)
  {
    if CurrentStep(columns).Some? {
      assert columns != [];
      forall i | 0 <= i < |configs|
        ensures TreatedRightly(configs[i], Visits(configs, columns, Longest(columns), end)[i], columns, CurrentStep(columns).value, end)
      {
        VisitTreats(configs[i], columns, CurrentStep(columns).value, end);
      }
    }
  }

  /** The value that a call gives for a column, at the writer's step. */
  function Given(s: State, data: Data, i: nat): Option<Cell> {
    if i < |data| && data[i].Some? then Some(Cell(i, s.info, data[i].value)) else None
  }

  /** The newest row of a used column is what was given for the step; the rows before it
      are the last ones that were there. */
  ghost predicate GrownBy(s: State, data: Data, i: nat, column: Column)
    requires i < |s.history| == |Buffers(s)| && (s.open && s.history[i] > 0 ==> Buffers(s)[i] != [])
  {
    var rows, keep := Buffers(s)[i], s.history[i];
    var before := if s.open && rows != [] then rows[..|rows| - 1] else rows;
    if keep == 0 then column == []
    else
      && column != [] && |column| == (if |before| + 1 > keep then keep else |before| + 1)
      && (forall k :: 0 <= k < |column| - 1 ==> column[k] == before[|before| + 1 - |column| + k])
      && column[|column| - 1] ==
           (if Given(s, data, i).Some? then Given(s, data, i) else if s.open then rows[|rows| - 1] else None)
  }

  lemma ColumnGrows(s: State, data: Data, i: nat)
    requires Shaped(s) && i < |s.history|
    ensures |Buffers(s)| == |s.history| && (s.open && s.history[i] > 0 ==> Buffers(s)[i] != [])
    ensures GrownBy(s, data, i, NextColumn(s, data, i, true))
  {
  }

  /** The row is added or completed, the step ends with the last part, and every config is
      treated as it should be. */
  ghost predicate AppendsRightly(s: State, data: Data, last: bool, s': State)
    requires Shaped(s) && Usable(s.configs, s.history)
  {
    && |s'.columns| == |s.history| && s'.history == s.history
    && (forall i :: 0 <= i < |s.history| ==> GrownBy(s, data, i, s'.columns[i]))
    && s'.open == !last && s'.info == (if last then Info(s.info.episode, s.info.step + 1) else s.info)
    && AllTreatedRightly(s.configs, s'.configs, s'.columns, false)
  }

  lemma AppendIsRight(s: State, data: Data, last: bool)
    requires Shaped(s) && Usable(s.configs, s.history)
    ensures AppendsRightly(s, data, last, Append(s, data, last, true))
  {
    var columns := NextColumns(s, data, true);
    forall i | 0 <= i < |s.history| ensures GrownBy(s, data, i, columns[i]) {
      ColumnGrows(s, data, i);
    }
    VisitsTreat(s.configs, columns, false);
  }

  // ---------------------------------------------------------------------
  // Steps in parts
  // ---------------------------------------------------------------------

  /** `b` has every value of `a` and perhaps more. */
  ghost predicate Fills(a: Column, b: Column) {
    |a| == |b| && forall i :: 0 <= i < |a| && a[i].Some? ==> b[i] == a[i]
  }

  ghost predicate AllFill(a: seq<Column>, b: seq<Column>) {
    |a| == |b| && forall i :: 0 <= i < |a| ==> Fills(a[i], b[i])
  }

  lemma {:induction false} CollectFilled(a: Column, b: Column, at: int, left: int, step: int)
    requires step > 0 && Fills(a, b) && Collect(a, at, left, step).Cells?
    ensures Collect(b, at, left, step) == Collect(a, at, left, step)
    decreases left
  {
    if left > 0 {
      CollectFilled(a, b, at + step, left - step, step);
    }
  }

  lemma {:induction false} BuildFilled(nodes: seq<Node>, a: seq<Column>, b: seq<Column>)
    requires AllFill(a, b) && Build(nodes, a).Trajectory?
    ensures Build(nodes, b) == Build(nodes, a)
  {
    if nodes != [] {
      var n := nodes[0];
      CollectFilled(a[n.source], b[n.source], |a[n.source]| + From(n), LengthOf(n), StepOf(n));
      BuildFilled(nodes[1..], a, b);
    }
  }

  /** A condition that holds on part of a step holds on all of it. */
  lemma HoldsFilled(c: Condition, a: seq<Column>, b: seq<Column>, longest: nat, current: Info, since: int, end: bool)
    requires AllFill(a, b) && Holds(c, a, longest, current, since, end)
    ensures Holds(c, b, longest, current, since, end)
  {
    if c.left.Source? {
      assert Fills(a[c.left.index], b[c.left.index]);
    }
  }

  lemma VisitAbsorbs(c: ConfigState, a: seq<Column>, b: seq<Column>, longest: nat, current: Info)
    requires AllFill(a, b)
    ensures Visit(Visit(c, a, longest, current, false), b, longest, current, false) == Visit(c, b, longest, current, false)
  {
    var checked := Checked(c, current);
    if c.lastApplied != current && AllHold(c.config, a, longest, current, checked.since, false) {
      forall d | d in c.config.conditions
        ensures Holds(d, b, longest, current, checked.since, false)
      {
        HoldsFilled(d, a, b, longest, current, checked.since, false);
      }
      if Build(c.config.nodes, a).Trajectory? {
        BuildFilled(c.config.nodes, a, b);
      }
    }
  }

  lemma {:induction false} CurrentStepIs(columns: seq<Column>, info: Info)
    requires NewestAre(columns, info)
    ensures CurrentStep(columns) ==
      if exists i :: 0 <= i < |columns| && Newest(columns[i]).Some? then Some(info) else None
  {
    if columns != [] {
      var rest := columns[1..];
      CurrentStepIs(rest, info);
      assert forall i :: 0 <= i < |rest| ==> rest[i] == columns[i + 1];
      assert forall i :: 0 < i < |columns| ==> columns[i] == rest[i - 1];
    }
  }

  lemma StepStays(a: seq<Column>, b: seq<Column>, info: Info)
    requires AllFill(a, b) && NewestAre(a, info) && NewestAre(b, info) && CurrentStep(a).Some?
    ensures CurrentStep(a) == CurrentStep(b) == Some(info)
  {
    CurrentStepIs(a, info);
    CurrentStepIs(b, info);
    var i :| 0 <= i < |a| && Newest(a[i]).Some?;
    assert Fills(a[i], b[i]) && Newest(b[i]).Some?;
  }

  lemma VisitsAbsorb(configs: seq<ConfigState>, a: seq<Column>, b: seq<Column>, longest: nat, info: Info)
    requires AllFill(a, b) && NewestAre(a, info) && NewestAre(b, info)
    ensures Visits(Visits(configs, a, longest, false), b, longest, false) == Visits(configs, b, longest, false)
  {
    if CurrentStep(a).Some? {
      StepStays(a, b, info);
      var once, twice := Visits(configs, b, longest, false), Visits(Visits(configs, a, longest, false), b, longest, false);
      forall i | 0 <= i < |configs|
        ensures twice[i] == once[i]
      {
        VisitAbsorbs(configs[i], a, b, longest, info);
      }
      assert twice == once;
    }
  }

  /** The values of two calls together. */
  function Together(a: Data, b: Data): Data {
    var n := if |a| > |b| then |a| else |b|;
    seq(n, i requires 0 <= i < n =>
      if i < |a| && a[i].Some? then a[i] else if i < |b| then b[i] else None)
  }

  /** No used column gets a value in both calls. */
  ghost predicate Disjoint(history: seq<nat>, a: Data, b: Data) {
    forall i :: 0 <= i < |a| && i < |b| && i < |history| && history[i] > 0 ==> a[i].None? || b[i].None?
  }

  lemma TogetherIncoming(s: State, a: Data, b: Data, i: nat)
    requires i < |s.history|
    ensures Incoming(s, Together(a, b), i) == if Incoming(s, a, i).Some? then Incoming(s, a, i) else Incoming(s, b, i)
  {
  }

  lemma PutTwice(column: Column, x: Option<Cell>, y: Option<Cell>, open: bool, keep: nat)
    requires |column| <= keep && (x.None? || y.None?) && (y.Some? ==> keep > 0)
    requires open && y.Some? ==> Newest(column).None? && column != []
    ensures var once := Cut(Put(column, x, open), keep);
      && Cut(Put(once, y, true), keep) == Cut(Put(column, if x.Some? then x else y, open), keep)
      && Fills(once, Cut(Put(once, y, true), keep))
  {
  }

  lemma NextColumnTogether(s: State, a: Data, b: Data, i: nat)
    requires Shaped(s) && i < |s.history| && Disjoint(s.history, a, b) && !Repeats(s, a, i) && !Repeats(s, b, i)
    ensures var s' := Append(s, a, false, true);
      && NextColumn(s', b, i, true) == NextColumn(s, Together(a, b), i, true)
      && Fills(NextColumn(s, a, i, true), NextColumn(s', b, i, true))
  {
    TogetherIncoming(s, a, b, i);
    var s' := Append(s, a, false, true);
    assert s'.columns[i] == NextColumn(s, a, i, true) && Buffers(s') == s'.columns;
    assert Incoming(s', b, i) == Incoming(s, b, i);
    PutTwice(Buffers(s)[i], Incoming(s, a, i), Incoming(s, b, i), s.open, s.history[i]);
  }

  ghost predicate Fresh(s: State, data: Data)
    requires |Buffers(s)| == |s.history|
  {
    forall i :: 0 <= i < |s.history| ==> !Repeats(s, data, i)
  }

  /** A partial call followed by another call is one call with the values of both. */
  lemma AppendTwice(s: State, a: Data, b: Data, last: bool)
    requires Shaped(s) && Disjoint(s.history, a, b) && Fresh(s, a) && Fresh(s, b)
    ensures Shaped(Append(s, a, false, true))
    ensures Append(Append(s, a, false, true), b, last, true) == Append(s, Together(a, b), last, true)
  {
    AppendKeepsShape(s, a, false);
    AppendKeepsShape(s, Together(a, b), false);
    var s' := Append(s, a, false, true);
    var first, both := NextColumns(s, a, true), NextColumns(s, Together(a, b), true);
    forall i | 0 <= i < |s.history|
      ensures NextColumns(s', b, true)[i] == both[i] && Fills(first[i], both[i])
    {
      NextColumnTogether(s, a, b, i);
    }
    assert NextColumns(s', b, true) == both;
    assert AllFill(first, both);
    LongestOfSameLengths(first, both);
    VisitsAbsorb(s.configs, first, both, Longest(first), s.info);
  }

  /** All the values of a step that was given in parts. */
  function AllTogether(parts: seq<Data>): Data
    requires parts != []
  {
    if |parts| == 1 then parts[0] else Together(parts[0], AllTogether(parts[1..]))
  }

  /** The step in parts: AppendPartial for all but the last, then Append. */
  function InParts(s: State, parts: seq<Data>): (s': State)
    requires parts != [] && |Buffers(s)| == |s.history|
    ensures s'.history == s.history && |Buffers(s')| == |s'.history| && |s'.configs| == |s.configs| && !s'.open
    decreases |parts|
  {
    if |parts| == 1 then Append(s, parts[0], true, true)
    else InParts(Append(s, parts[0], false, true), parts[1..])
  }

  ghost predicate AllDisjoint(history: seq<nat>, parts: seq<Data>) {
    forall j, k :: 0 <= j < k < |parts| ==> Disjoint(history, parts[j], parts[k])
  }

  lemma {:induction false} DisjointFromRest(history: seq<nat>, data: Data, parts: seq<Data>)
    requires parts != [] && forall k :: 0 <= k < |parts| ==> Disjoint(history, data, parts[k])
    ensures Disjoint(history, data, AllTogether(parts))
  {
    if |parts| > 1 {
      assert Disjoint(history, data, parts[0]);
      DisjointFromRest(history, data, parts[1..]);
    }
  }

  lemma {:induction false} FreshTogether(s: State, parts: seq<Data>)
    requires |Buffers(s)| == |s.history| && parts != [] && forall k :: 0 <= k < |parts| ==> Fresh(s, parts[k])
    ensures Fresh(s, AllTogether(parts))
  {
    if |parts| > 1 {
      FreshTogether(s, parts[1..]);
      forall i | 0 <= i < |s.history|
        ensures !Repeats(s, AllTogether(parts), i)
      {
        assert !Repeats(s, parts[0], i) && !Repeats(s, AllTogether(parts[1..]), i);
        TogetherIncoming(s, parts[0], AllTogether(parts[1..]), i);
      }
    }
  }

  /** After a partial call only the columns that it filled are taken. */
  lemma FreshAfter(s: State, a: Data, b: Data)
    requires Shaped(s) && Disjoint(s.history, a, b) && Fresh(s, a) && Fresh(s, b)
    ensures Shaped(Append(s, a, false, true)) && Fresh(Append(s, a, false, true), b)
  {
    AppendKeepsShape(s, a, false);
    var s' := Append(s, a, false, true);
    forall i | 0 <= i < |s.history|
      ensures !Repeats(s', b, i)
    {
      assert !Repeats(s, b, i);
      assert s'.columns[i] == NextColumn(s, a, i, true) && Buffers(s') == s'.columns;
      assert Incoming(s', b, i) == Incoming(s, b, i);
      assert Incoming(s, b, i).Some? ==> Incoming(s, a, i).None?;
    }
  }

  /** Splitting a step into any number of calls on disjoint columns changes nothing:
      the columns, the counters and the items of every config are those of one
      Append with all the data. */
  lemma {:induction false} PartsMakeNoDifference(s: State, parts: seq<Data>)
    requires Shaped(s) && parts != [] && AllDisjoint(s.history, parts)
    requires forall k :: 0 <= k < |parts| ==> Fresh(s, parts[k])
    ensures InParts(s, parts) == Append(s, AllTogether(parts), true, true)
    decreases |parts|
  {
    if |parts| > 1 {
      var first, rest := parts[0], parts[1..];
      var s' := Append(s, first, false, true);
      forall k | 0 <= k < |rest|
        ensures Disjoint(s.history, first, rest[k]) && Fresh(s', rest[k]) && Shaped(s')
      {
        assert rest[k] == parts[k + 1] && Disjoint(s.history, parts[0], parts[k + 1]);
        FreshAfter(s, first, rest[k]);
      }
      assert Shaped(s') by { AppendKeepsShape(s, first, false); }
      RestDisjoint(s.history, parts);
      PartsMakeNoDifference(s', rest);
      DisjointFromRest(s.history, first, rest);
      RestFresh(s, parts);
      FreshTogether(s, rest);
      AppendTwice(s, first, AllTogether(rest), true);
    }
  }

  lemma RestDisjoint(history: seq<nat>, parts: seq<Data>)
    requires |parts| > 1 && AllDisjoint(history, parts)
    ensures AllDisjoint(history, parts[1..])
  {
    forall j, k | 0 <= j < k < |parts| - 1
      ensures Disjoint(history, parts[1..][j], parts[1..][k])
    {
      assert Disjoint(history, parts[j + 1], parts[k + 1]);
    }
  }

  lemma RestFresh(s: State, parts: seq<Data>)
    requires |Buffers(s)| == |s.history| && |parts| > 1 && forall k :: 0 <= k < |parts| ==> Fresh(s, parts[k])
    ensures forall k :: 0 <= k < |parts| - 1 ==> Fresh(s, parts[1..][k])
  {
    forall k | 0 <= k < |parts| - 1
      ensures Fresh(s, parts[1..][k])
    {
      assert parts[1..][k] == parts[k + 1];
    }
  }

  /** A step creates at most one item per config. */
  lemma AtMostOneItemPerStep(s: State, parts: seq<Data>, i: nat)
    requires Shaped(s) && parts != [] && AllDisjoint(s.history, parts) && i < |s.configs|
    requires forall k :: 0 <= k < |parts| ==> Fresh(s, parts[k])
    ensures var before, after := s.configs[i].items, InParts(s, parts).configs[i].items;
      after == before || (|after| == |before| + 1 && after[..|before|] == before)
  {
    PartsMakeNoDifference(s, parts);
  }

  /** A new step that gives a value to some used column counts once, however many
      calls it takes: the counter goes up by one, or to zero with a new item. */
  lemma StepCountsOnce(s: State, parts: seq<Data>, i: nat, column: nat)
    requires Shaped(s) && !s.open && parts != [] && AllDisjoint(s.history, parts) && i < |s.configs|
    requires column < |s.history| && Incoming(s, AllTogether(parts), column).Some?
    requires s.configs[i].lastApplied != s.info && s.configs[i].lastChecked != s.info
    ensures var before, after := s.configs[i], InParts(s, parts).configs[i];
      || (after.items == before.items && after.since == before.since + 1 && after.lastApplied == before.lastApplied)
      || (|after.items| == |before.items| + 1 && after.since == 0 && after.lastApplied == s.info)
  {
    PartsMakeNoDifference(s, parts);
    WholeStepIsCurrent(s, AllTogether(parts), column);
  }

  lemma WholeStepIsCurrent(s: State, data: Data, column: nat)
    requires Shaped(s) && !s.open && column < |s.history| && Incoming(s, data, column).Some?
    ensures CurrentStep(NextColumns(s, data, true)) == Some(s.info)
  {
    AppendKeepsShape(s, data, false);
    var columns := NextColumns(s, data, true);
    assert columns[column] == NextColumn(s, data, column, true);
    assert Newest(columns[column]).Some?;
    CurrentStepIs(columns, s.info);
  }

  // ---------------------------------------------------------------------
  // Runs
  // ---------------------------------------------------------------------

  datatype Op = Step(parts: seq<Data>) | End(clear: bool, episode: nat)

  ghost predicate GoodOps(history: seq<nat>, ops: seq<Op>) {
    forall op :: op in ops && op.Step? ==> op.parts != [] && AllDisjoint(history, op.parts)
  }

  /** The state after a run, with every step in its parts or in one call. */
  function Run(s: State, ops: seq<Op>, split: bool): State
    requires |Buffers(s)| == |s.history| && forall op :: op in ops && op.Step? ==> op.parts != []
    decreases |ops|
  {
    if ops == [] then s
    else
      var s' := match ops[0]
        case End(clear, episode) => EndEpisode(s, clear, episode)
        case Step(parts) => if split then InParts(s, parts) else Append(s, AllTogether(parts), true, true);
      Run(s', ops[1..], split)
  }

  /** Over whole runs the parts in which the steps are given make no difference. */
  lemma {:induction false} RunsAgree(s: State, ops: seq<Op>)
    requires Shaped(s) && !s.open && GoodOps(s.history, ops)
    ensures Run(s, ops, true) == Run(s, ops, false)
    decreases |ops|
  {
    if ops != [] {
      match ops[0]
      case End(clear, episode) =>
        RunsAgree(EndEpisode(s, clear, episode), ops[1..]);
      case Step(parts) =>
        assert ops[0] in ops;
        PartsMakeNoDifference(s, parts);
        AppendKeepsShape(s, AllTogether(parts), true);
        RunsAgree(InParts(s, parts), ops[1..]);
    }
  }

  // ---------------------------------------------------------------------
  // Windows and the full history
  // ---------------------------------------------------------------------

  /** `s` keeps windows of the columns that `full` holds. Apart from this the two are
      the same, and so are all configs whose length tests are blind to the cut. */
  ghost predicate Matches(s: State, full: State) {
    && s.history == full.history && s.open == full.open && s.info == full.info
    && |Buffers(full)| == |full.history|
    && (full.columns == [] ==> s.columns == [])
    && (full.columns != [] ==> s.columns == Window(full.columns, full.history))
    && (exists n: nat :: Rectangular(full.columns, n) && (full.open ==> n > 0))
    && (full.open ==> |full.columns| == |full.history|)
    && UnusedEmpty(full.columns, full.history)
    && SameWhereBlind(s.configs, full.configs, Largest(full.history))
  }

  ghost predicate SameWhereBlind(a: seq<ConfigState>, b: seq<ConfigState>, limit: nat) {
    && |a| == |b|
    && forall i :: 0 <= i < |a| ==>
         a[i].config == b[i].config && (LengthBlind(a[i].config, limit) ==> a[i] == b[i])
  }

  /** Columns that no config uses get no values. */
  ghost predicate UnusedEmpty(columns: seq<Column>, history: seq<nat>) {
    forall i :: 0 <= i < |columns| && i < |history| && history[i] == 0 ==> Newest(columns[i]).None?
  }

  lemma {:induction false} CurrentStepSame(a: seq<Column>, b: seq<Column>)
    requires |a| == |b| && forall i :: 0 <= i < |a| ==> Newest(a[i]) == Newest(b[i])
    ensures CurrentStep(a) == CurrentStep(b)
  {
    if a != [] {
      CurrentStepSame(a[1..], b[1..]);
    }
  }

  lemma WindowNewest(columns: seq<Column>, history: seq<nat>, i: nat)
    requires i < |columns| == |history| && UnusedEmpty(columns, history)
    ensures Newest(Window(columns, history)[i]) == Newest(columns[i])
  {
    if history[i] > 0 && columns[i] != [] {
      LastKeepsNewest(columns[i], history[i]);
    }
  }

  lemma WindowStep(columns: seq<Column>, history: seq<nat>)
    requires |columns| == |history| && UnusedEmpty(columns, history)
    ensures CurrentStep(Window(columns, history)) == CurrentStep(columns)
  {
    var windows := Window(columns, history);
    forall i | 0 <= i < |columns|
      ensures Newest(windows[i]) == Newest(columns[i])
    {
      WindowNewest(columns, history, i);
    }
    CurrentStepSame(windows, columns);
  }

  /** A condition that is blind to the cut holds on the windows exactly when it holds
      on everything. */
  lemma HoldsOnWindow(c: Condition, columns: seq<Column>, history: seq<nat>, n: nat, current: Info, since: int, end: bool)
    requires columns != [] && |columns| == |history| && Rectangular(columns, n) && UnusedEmpty(columns, history)
    requires ValidCondition(c) && (c.left.Source? ==> c.left.index < |history|)
    requires c.left.BufferLength? ==> BlindAbove(c.cmp, Largest(history))
    ensures var windows := Window(columns, history);
      Holds(c, windows, Longest(windows), current, since, end) == Holds(c, columns, Longest(columns), current, since, end)
  {
    LongestWindow(columns, history, n);
    LongestRectangle(columns, n);
    if c.left.Source? {
      WindowNewest(columns, history, c.left.index);
    } else if c.left.BufferLength? {
      BlindIff(c, Largest(history));
    }
  }

  /** Looking at the windows has the same effect as looking at everything, for a
      config whose length tests are blind to the cut. */
  lemma VisitOnWindow(c: ConfigState, columns: seq<Column>, history: seq<nat>, n: nat, current: Info, end: bool)
    requires columns != [] && |columns| == |history| && Rectangular(columns, n) && UnusedEmpty(columns, history)
    requires Accepted(c.config) && Covers(history, c.config) && LengthBlind(c.config, Largest(history))
    ensures var windows := Window(columns, history);
      Visit(c, windows, Longest(windows), current, end) == Visit(c, columns, Longest(columns), current, end)
  {
    var windows, since := Window(columns, history), Checked(c, current).since;
    forall d | d in c.config.conditions
      ensures Holds(d, windows, Longest(windows), current, since, end) ==
              Holds(d, columns, Longest(columns), current, since, end)
    {
      HoldsOnWindow(d, columns, history, n, current, since, end);
    }
    WindowBuild(c.config.nodes, columns, history, n);
  }

  lemma VisitOnWindowPair(a: ConfigState, b: ConfigState, columns: seq<Column>, history: seq<nat>, n: nat,
                          current: Info, end: bool)
    requires columns != [] && |columns| == |history| && Rectangular(columns, n) && UnusedEmpty(columns, history)
    requires Accepted(b.config) && Covers(history, b.config)
    requires a.config == b.config && (LengthBlind(a.config, Largest(history)) ==> a == b)
    ensures var windows := Window(columns, history);
      var a', b' := Visit(a, windows, Longest(windows), current, end), Visit(b, columns, Longest(columns), current, end);
      a'.config == b'.config && (LengthBlind(a'.config, Largest(history)) ==> a' == b')
  {
    if LengthBlind(b.config, Largest(history)) {
      VisitOnWindow(b, columns, history, n, current, end);
    }
  }

  lemma VisitsOnWindow(a: seq<ConfigState>, b: seq<ConfigState>, columns: seq<Column>, history: seq<nat>, n: nat, end: bool)
    requires |columns| == |history| && Rectangular(columns, n) && UnusedEmpty(columns, history)
    requires Usable(b, history) && SameWhereBlind(a, b, Largest(history))
    ensures var windows := Window(columns, history);
      SameWhereBlind(Visits(a, windows, Longest(windows), end), Visits(b, columns, Longest(columns), end), Largest(history))
  {
    WindowStep(columns, history);
    if CurrentStep(columns).Some? {
      var windows, info := Window(columns, history), CurrentStep(columns).value;
      var a', b' := Visits(a, windows, Longest(windows), end), Visits(b, columns, Longest(columns), end);
      assert |a'| == |b'| == |a|;
      forall i | 0 <= i < |a'|
        ensures a'[i].config == b'[i].config && (LengthBlind(a'[i].config, Largest(history)) ==> a'[i] == b'[i])
      {
        VisitOnWindowPair(a[i], b[i], columns, history, n, info, end);
      }
    }
  }

  lemma PutOnWindow(column: Column, cell: Option<Cell>, open: bool, keep: nat)
    requires cell.Some? ==> keep > 0
    requires open ==> column != []
    ensures Cut(Put(Last(column, keep), cell, open), keep) == Last(Put(column, cell, open), keep)
  {
  }

  lemma NextColumnsOnWindow(s: State, full: State, data: Data)
    requires Matches(s, full)
    ensures |Buffers(s)| == |s.history|
    ensures NextColumns(s, data, true) == Window(NextColumns(full, data, false), full.history)
  {
    var windows, next := NextColumns(s, data, true), NextColumns(full, data, false);
    forall i | 0 <= i < |full.history|
      ensures windows[i] == Last(next[i], full.history[i])
    {
      assert Buffers(s)[i] == Last(Buffers(full)[i], full.history[i]);
      PutOnWindow(Buffers(full)[i], Incoming(full, data, i), full.open, full.history[i]);
    }
  }

  lemma AppendFullShape(full: State, data: Data, last: bool, n: nat)
    requires |Buffers(full)| == |full.history| && UnusedEmpty(full.columns, full.history)
    requires Rectangular(full.columns, n) && (full.open ==> n > 0 && |full.columns| == |full.history|)
    ensures var columns := NextColumns(full, data, false);
      && UnusedEmpty(columns, full.history)
      && Rectangular(columns, if full.open then n else if full.columns == [] then 1 else n + 1)
  {
  }

  lemma VisitsKeepUsable(configs: seq<ConfigState>, history: seq<nat>, columns: seq<Column>, longest: nat, end: bool)
    requires Usable(configs, history)
    ensures Usable(Visits(configs, columns, longest, end), history)
  {
  }

  lemma AppendMatches(s: State, full: State, data: Data, last: bool)
    requires Matches(s, full) && Usable(full.configs, full.history)
    ensures |Buffers(s)| == |s.history|
    ensures var s', full' := Append(s, data, last, true), Append(full, data, last, false);
      Matches(s', full') && Usable(full'.configs, full'.history)
  {
    NextColumnsOnWindow(s, full, data);
    var n: nat :| Rectangular(full.columns, n) && (full.open ==> n > 0);
    AppendFullShape(full, data, last, n);
    var columns := NextColumns(full, data, false);
    var m := if full.open then n else if full.columns == [] then 1 else n + 1;
    assert Rectangular(columns, m) && m > 0;
    VisitsOnWindow(s.configs, full.configs, columns, full.history, m, false);
    VisitsKeepUsable(full.configs, full.history, columns, Longest(columns), false);
  }

  lemma EndMatches(s: State, full: State, clear: bool, episode: nat)
    requires Matches(s, full) && Usable(full.configs, full.history)
    ensures |Buffers(s)| == |s.history|
    ensures var s', full' := EndEpisode(s, clear, episode), EndEpisode(full, clear, episode);
      Matches(s', full') && Usable(full'.configs, full'.history)
  {
    var n: nat :| Rectangular(full.columns, n) && (full.open ==> n > 0);
    var full' := EndEpisode(full, clear, episode);
    if full.columns != [] {
      VisitsOnWindow(s.configs, full.configs, full.columns, full.history, n, true);
    }
    VisitsKeepUsable(full.configs, full.history, full.columns, Longest(full.columns), true);
    assert Rectangular(full'.columns, n);
  }

  function Initial(configs: seq<Config>, history: seq<nat>, episode: nat): State {
    State(history, [], false, Info(episode, 0),
          seq(|configs|, i requires 0 <= i < |configs| => ConfigState(configs[i], 0, Info(0, -1), Info(0, -1), [])))
  }

  /** The calls of a client. */
  datatype Call = Values(data: Data, last: bool) | Finish(clear: bool, episode: nat)

  function After(s: State, calls: seq<Call>, trim: bool): State
    requires |Buffers(s)| == |s.history|
    decreases |calls|
  {
    if calls == [] then s
    else
      var s' := match calls[0]
        case Values(data, last) => Append(s, data, last, trim)
        case Finish(clear, episode) => EndEpisode(s, clear, episode);
      After(s', calls[1..], trim)
  }

  /** Over whole runs every column of the writer is the window of its full history,
      and every config whose length tests are blind to the cut creates the items that
      a writer which never drops a cell would create. */
  lemma {:induction false} TrimmingIsUnobservable(s: State, full: State, calls: seq<Call>)
    requires Matches(s, full) && Usable(full.configs, full.history)
    ensures |Buffers(s)| == |s.history|
    ensures Matches(After(s, calls, true), After(full, calls, false))
    decreases |calls|
  {
    if calls != [] {
      match calls[0] {
        case Values(data, last) =>
          AppendMatches(s, full, data, last);
          TrimmingIsUnobservable(Append(s, data, last, true), Append(full, data, last, false), calls[1..]);
        case Finish(clear, episode) =>
          EndMatches(s, full, clear, episode);
          TrimmingIsUnobservable(EndEpisode(s, clear, episode), EndEpisode(full, clear, episode), calls[1..]);
      }
    }
  }
}

module StructuredWriter {

  import opened Status
  import opened Patterns
  import opened StructuredWriterSpec

  /** A call of CreateItem on behalf of a config. */
  datatype Entry = Entry(config: nat, item: Item)

  function ItemsOf(log: seq<Entry>, config: nat): seq<Item> {
    if log == [] then []
    else
      var n := |log| - 1;
      ItemsOf(log[..n], config) + if log[n].config == config then [log[n].item] else []
  }

  /** Every config created the logged items. */
  ghost predicate Logged(log: seq<Entry>, configs: seq<ConfigState>) {
    forall i :: 0 <= i < |configs| ==> ItemsOf(log, i) == configs[i].items
  }

  lemma LoggedUpdate(log: seq<Entry>, configs: seq<ConfigState>, i: nat, c: ConfigState, item: Option<Item>)
    requires Logged(log, configs) && i < |configs|
    requires c.items == configs[i].items + if item.Some? then [item.value] else []
    ensures Logged(if item.Some? then log + [Entry(i, item.value)] else log, configs[i := c])
  {
    if item.Some? {
      assert (log + [Entry(i, item.value)])[..|log|] == log;
    }
  }

  /** The buffers are windows of full columns with `n` steps. */
  ghost predicate Inside(columns: seq<Column>, history: seq<nat>, full: seq<Column>, n: nat) {
    |full| == |history| && columns == Window(full, history) && Rectangular(full, n)
  }

  /** If the config is built now, it reads no cell outside the buffers. */
  ghost predicate ReadsInside(c: ConfigState, columns: seq<Column>, current: Info, end: bool) {
    c.lastApplied != current && AllHold(c.config, columns, Longest(columns), current, Checked(c, current).since, end) ==>
      !Build(c.config.nodes, columns).OutsideBuffer?
  }

  ghost predicate AllReadInside(configs: seq<ConfigState>, columns: seq<Column>, end: bool) {
    CurrentStep(columns).Some? ==>
      forall i :: 0 <= i < |configs| ==> ReadsInside(configs[i], columns, CurrentStep(columns).value, end)
  }

  /** The config is guarded, or the buffers have seen as many steps as it reaches back. */
  ghost predicate Safe(config: Config, n: nat) {
    Guarded(config) || n >= OldestAge(config.nodes)
  }

  lemma SafeReadsInside(c: ConfigState, columns: seq<Column>, history: seq<nat>, full: seq<Column>, n: nat,
                        current: Info, end: bool)
    requires Accepted(c.config) && Covers(history, c.config) && Safe(c.config, n) && Inside(columns, history, full, n)
    ensures ReadsInside(c, columns, current, end)
  {
    if c.lastApplied != current && AllHold(c.config, columns, Longest(columns), current, Checked(c, current).since, end) {
      if Guarded(c.config) {
        GuardedReadsHistory(c.config, full, history, n, current, Checked(c, current).since, end);
      } else {
        EnoughStepsReadHistory(c.config, full, history, n);
      }
    }
  }

  /** Looks at one config. If it is due it asks for an item, and `report` is the
      answer. */
  method ApplyConfig(before: ConfigState, columns: seq<Column>, current: Info, end: bool, report: Status)
    returns (c: ConfigState, item: Option<Item>)
    requires ReadsInside(before, columns, current, end)
    ensures item.Some? <==> Fires(before, columns, Longest(columns), current, end)
    ensures item.Some? ==> item.value == ItemOf(before, columns)
    ensures c == if item.Some? && report != Ok then Checked(before, current)
                 else Visit(before, columns, Longest(columns), current, end)
    ensures Accepted(before.config) && columns != [] ==>
      && (item.Some? <==> Due(before, columns, current, end))
      && (item.Some? ==> MadeFrom(before.config, columns, item.value))
  {
    if Accepted(before.config) && columns != [] {
      FiresIffDue(before, columns, current, end);
      VisitTreats(before, columns, current, end);
    }
    c, item := before, None;
    if c.lastApplied == current {
      return;
    }
    if c.lastChecked != current {
      c := c.(since := c.since + 1, lastChecked := current);
    }
    if AllHold(c.config, columns, Longest(columns), current, c.since, end) {
      var built := Build(c.config.nodes, columns);
      assert !built.OutsideBuffer?;
      if built.Trajectory? {
        item := Some(Item(c.config.table, built.columns));
        if report == Ok {
          c := c.(lastApplied := current, since := 0, items := c.items + [item.value]);
        }
      }
    }
  }

  ghost predicate Good(s: State, full: State) {
    Shaped(s) && Matches(s, full) && Usable(s.configs, s.history) && Usable(full.configs, full.history)
  }

  /** The number of steps since the buffers were cleared. */
  ghost function Rows(full: State): nat {
    if full.columns == [] then 0 else |full.columns[0]|
  }

  ghost function RowsAfter(full: State): nat {
    if full.open then Rows(full) else Rows(full) + 1
  }

  /** Once the columns are stored, the configs can be applied to them. */
  lemma AppendKeepsGood(s: State, full: State, data: Data, last: bool)
    requires Good(s, full)
    ensures Good(Append(s, data, last, true), Append(full, data, last, false))
    ensures Inside(NextColumns(s, data, true), s.history, NextColumns(full, data, false), RowsAfter(full))
  {
    NextColumnsOnWindow(s, full, data);
    var n: nat :| Rectangular(full.columns, n) && (full.open ==> n > 0);
    AppendFullShape(full, data, last, n);
    AppendMatches(s, full, data, last);
    AppendKeepsShape(s, data, last);
    UsableVisits(s.configs, s.history, NextColumns(s, data, true), false);
  }

  lemma UsableVisits(configs: seq<ConfigState>, history: seq<nat>, columns: seq<Column>, end: bool)
    requires Usable(configs, history)
    ensures Usable(Visits(configs, columns, Longest(columns), end), history)
  {
    VisitsKeepUsable(configs, history, columns, Longest(columns), end);
  }

  /** Both writers go on with the same configs. */
  lemma GoodWithConfigs(s: State, full: State, configs: seq<ConfigState>)
    requires Good(s, full) && Usable(configs, s.history)
    ensures Good(s.(configs := configs), full.(configs := configs))
  {
    var n: nat :| Rectangular(full.columns, n) && (full.open ==> n > 0);
    assert Rectangular(full.(configs := configs).columns, n);
  }

  lemma EndKeepsGood(s: State, full: State, clear: bool, episode: nat)
    requires Good(s, full)
    ensures Good(EndEpisode(s, clear, episode), EndEpisode(full, clear, episode))
    ensures s.columns != [] ==> Inside(s.columns, s.history, full.columns, Rows(full))
  {
    EndMatches(s, full, clear, episode);
    UsableVisits(s.configs, s.history, s.columns, true);
    var n: nat :| Rectangular(full.columns, n) && (full.open ==> n > 0);
    if full.columns != [] {
      assert Rectangular(full.columns, n) && Rows(full) == n;
    }
  }

  /** Guarded configs, and configs that reach back no further than the buffers, can be
      applied to the columns that an append leaves. */
  lemma SafeAppend(s: State, full: State, data: Data)
    requires Good(s, full) && forall i :: 0 <= i < |s.configs| ==> Safe(s.configs[i].config, RowsAfter(full))
    ensures AllReadInside(s.configs, NextColumns(s, data, true), false)
  {
    var columns := NextColumns(s, data, true);
    AppendKeepsGood(s, full, data, true);
    if CurrentStep(columns).Some? {
      forall i | 0 <= i < |s.configs|
        ensures ReadsInside(s.configs[i], columns, CurrentStep(columns).value, false)
      {
        SafeReadsInside(s.configs[i], columns, s.history, NextColumns(full, data, false), RowsAfter(full),
                        CurrentStep(columns).value, false);
      }
    }
  }

  lemma SafeEnd(s: State, full: State)
    requires Good(s, full) && forall i :: 0 <= i < |s.configs| ==> Safe(s.configs[i].config, Rows(full))
    ensures AllReadInside(s.configs, s.columns, true)
  {
    EndKeepsGood(s, full, false, 0);
    if CurrentStep(s.columns).Some? {
      forall i | 0 <= i < |s.configs|
        ensures ReadsInside(s.configs[i], s.columns, CurrentStep(s.columns).value, true)
      {
        SafeReadsInside(s.configs[i], s.columns, s.history, full.columns, Rows(full), CurrentStep(s.columns).value, true);
      }
    }
  }

  lemma StoppedIsUsable(configs: seq<ConfigState>, history: seq<nat>, columns: seq<Column>, current: Info, end: bool, k: nat)
    requires Usable(configs, history)
    ensures Usable(StoppedAt(configs, columns, Longest(columns), current, end, k), history)
  {
  }

  /** Column `k` was given twice: the columns before it are stored, the rest is not. */
  ghost predicate StoppedAtColumn(s: State, data: Data, k: nat, columns: seq<Column>)
    requires |Buffers(s)| == |s.history|
  {
    && k < |s.history| == |columns| && Repeats(s, data, k)
    && (forall i :: 0 <= i < k ==> columns[i] == NextColumn(s, data, i, true))
    && (forall i :: k <= i < |columns| ==> columns[i] == Buffers(s)[i])
  }

  /** Every config that is due creates its item. The first item that the wrapped
      writer refuses ends the call. */
  method ApplyConfigs(s: State, log: seq<Entry>, end: bool, report: nat -> Status)
    returns (status: Status, configs: seq<ConfigState>, log': seq<Entry>)
    requires Logged(log, s.configs) && AllReadInside(s.configs, s.columns, end)
    ensures Logged(log', configs)
    ensures status == Ok <==> !SomeRefused(s.configs, s.columns, end, report)
    ensures status == Ok ==> configs == Visits(s.configs, s.columns, Longest(s.columns), end)
    ensures status != Ok ==> Stopped(s.configs, s.columns, end, report, status, configs)
  {
    configs, log' := s.configs, log;
    var step := CurrentStep(s.columns);
    if step.None? {
      return Ok, configs, log';
    }
    var longest := Longest(s.columns);
    for i := 0 to |configs|
      invariant Logged(log', configs) && Visited(s.configs, configs, s.columns, longest, step.value, end, report, i)
    {
      var c, item := ApplyConfig(configs[i], s.columns, step.value, end, report(i));
      if item.Some? && report(i) != Ok {
        LoggedUpdate(log', configs, i, c, None);
        VisitedThenRefused(s.configs, configs, s.columns, longest, step.value, end, report, i);
        return report(i), configs[i := c], log';
      }
      LoggedUpdate(log', configs, i, c, item);
      if item.Some? {
        log' := log' + [Entry(i, item.value)];
      }
      configs := configs[i := c];
    }
    VisitedAll(s.configs, configs, s.columns, longest, step.value, end, report);
    status := Ok;
  }

  /** The first `n` configs have been looked at, and their items were not refused. */
  ghost predicate Visited(before: seq<ConfigState>, configs: seq<ConfigState>, columns: seq<Column>, longest: nat,
                          current: Info, end: bool, report: nat -> Status, n: nat)
  {
    && n <= |configs| == |before|
    && (forall k :: 0 <= k < n ==>
          && configs[k] == Visit(before[k], columns, longest, current, end)
          && (Fires(before[k], columns, longest, current, end) ==> report(k) == Ok))
    && forall k :: n <= k < |configs| ==> configs[k] == before[k]
  }

  lemma VisitedAll(before: seq<ConfigState>, configs: seq<ConfigState>, columns: seq<Column>, longest: nat,
                   current: Info, end: bool, report: nat -> Status)
    requires Visited(before, configs, columns, longest, current, end, report, |configs|)
    requires CurrentStep(columns) == Some(current) && longest == Longest(columns)
    ensures configs == Visits(before, columns, longest, end) && !SomeRefused(before, columns, end, report)
  {
  }

  lemma VisitedThenRefused(before: seq<ConfigState>, configs: seq<ConfigState>, columns: seq<Column>, longest: nat,
                           current: Info, end: bool, report: nat -> Status, i: nat)
    requires Visited(before, configs, columns, longest, current, end, report, i) && i < |configs|
    requires CurrentStep(columns) == Some(current) && longest == Longest(columns)
    requires Fires(before[i], columns, longest, current, end) && report(i) != Ok
    ensures SomeRefused(before, columns, end, report)
    ensures Stopped(before, columns, end, report, report(i), configs[i := Checked(before[i], current)])
  {
    assert RefusedAt(before, columns, longest, current, end, report, i);
    assert configs[i := Checked(before[i], current)] == StoppedAt(before, columns, longest, current, end, i);
  }

  /** Stores the references that the wrapped writer returned, column by column. */
  method StoreColumns(s: State, data: Data) returns (status: Status, columns: seq<Column>)
    requires Shaped(s)
    ensures |columns| == |s.history|
    ensures status == Ok <==> Fresh(s, data)
    ensures status == Ok ==> columns == NextColumns(s, data, true)
    ensures status != Ok ==> status == Internal
    ensures status != Ok ==> exists k: nat :: k < |s.history| && StoppedAtColumn(s, data, k, columns)
  {
    columns := Buffers(s);
    for i := 0 to |s.history|
      invariant |s.history| == |columns|
      invariant forall k :: 0 <= k < i ==> columns[k] == NextColumn(s, data, k, true) && !Repeats(s, data, k)
      invariant forall k :: i <= k < |columns| ==> columns[k] == Buffers(s)[k]
    {
      var cell := Incoming(s, data, i);
      if s.open && cell.Some? && Newest(columns[i]).Some? {
        assert StoppedAtColumn(s, data, i, columns);
        return Internal, columns;
      }
      columns := columns[i := Cut(Put(columns[i], cell, s.open), s.history[i])];
    }
    assert columns == NextColumns(s, data, true);
    status := Ok;
  }

  /** What is left to do once the columns are stored. */
  method AppendStored(s: State, log: seq<Entry>, ghost full: State, data: Data, last: bool, columns: seq<Column>,
                      report: nat -> Status)
    returns (status: Status, s': State, log': seq<Entry>, ghost full': State)
    requires Good(s, full) && Logged(log, s.configs)
    requires columns == NextColumns(s, data, true) && AllReadInside(s.configs, columns, false)
    ensures Good(s', full') && Logged(log', s'.configs)
    ensures status == Ok <==> !SomeRefused(s.configs, s'.columns, false, report)
    ensures s' == Append(s, data, last, true).(configs := s'.configs)
    ensures status == Ok ==> s' == Append(s, data, last, true) && full' == Append(full, data, last, false)
    ensures status != Ok ==> Stopped(s.configs, s'.columns, false, report, status, s'.configs)
  {
    AppendKeepsGood(s, full, data, last);
    var configs;
    status, configs, log' := ApplyConfigs(s.(columns := columns), log, false, report);
    full' := Append(full, data, last, false);
    if status != Ok {
      StoppedKeepsGood(Append(s, data, last, true), full', s.configs, false, report, status, configs);
      full' := full'.(configs := configs);
    }
    s' := s.(columns := columns, open := !last, configs := configs, info := NextInfo(s, last));
  }

  /** What the end of an episode does to the writer. */
  method EndState(s: State, log: seq<Entry>, ghost full: State, clear: bool, episode: nat, written: Status,
                  report: nat -> Status)
    returns (status: Status, s': State, log': seq<Entry>, ghost full': State)
    requires Good(s, full) && Logged(log, s.configs) && AllReadInside(s.configs, s.columns, true)
    ensures Good(s', full') && Logged(log', s'.configs)
    ensures SomeRefused(s.configs, s.columns, true, report) ==>
      && status != Ok && s' == s.(configs := s'.configs)
      && Stopped(s.configs, s.columns, true, report, status, s'.configs)
    ensures !SomeRefused(s.configs, s.columns, true, report) ==>
      && status == written
      && s'.configs == StructuredWriterSpec.EndEpisode(s, clear, episode).configs
      && (status != Ok ==> s' == s.(configs := s'.configs))
      && (status == Ok ==> s' == StructuredWriterSpec.EndEpisode(s, clear, episode))
      && (status == Ok ==> full' == StructuredWriterSpec.EndEpisode(full, clear, episode))
  {
    EndKeepsGood(s, full, clear, episode);
    var configs := s.configs;
    status, log' := Ok, log;
    if s.columns != [] {
      status, configs, log' := ApplyConfigs(s, log, true, report);
    }
    s', full' := s.(configs := configs), full;
    if status != Ok || written != Ok {
      ConfigsAfterEnd(s, full, clear, episode, report, status, configs);
      full' := full.(configs := configs);
      return if status != Ok then status else written, s', log', full';
    }
    full' := StructuredWriterSpec.EndEpisode(full, clear, episode);
    s' := s'.(columns := if clear then [] else s.columns, open := false, info := Info(episode, 0));
  }

  class StructuredWriter {
    var s: State
    var log: seq<Entry>

    /** The state of a writer that never drops a cell. */
    ghost var full: State

    ghost predicate Valid()
      reads this
    {
      Good(s, full) && Logged(log, s.configs)
    }

    constructor (configs: seq<Config>, episode: nat)
      requires forall c :: c in configs ==> Accepted(c)
      ensures Valid() && log == [] && s == full
      ensures s == Initial(configs, s.history, episode) && Tight(configs, s.history)
      ensures s.columns == [] && !s.open && s.info == Info(episode, 0) && |s.configs| == |configs|
      ensures forall i :: 0 <= i < |configs| ==>
        s.configs[i].config == configs[i] && s.configs[i].items == [] && s.configs[i].since == 0
    {
      var history := MaxHistoryLengthPerColumn(configs);
      s := Initial(configs, history, episode);
      full := Initial(configs, history, episode);
      log := [];
      new;
      assert Rectangular(full.columns, 0);
    }

    /** Appends values to the open step or to a new one. `written` is what the
        wrapped writer reports; nothing changes when it fails. A column that is
        given twice in a step leaves the columns before it changed, and the wrapped
        writer may have moved on to the next step all the same. `report` tells what
        the wrapped writer says to the item of each config. */
    method AppendInternal(data: Data, last: bool, written: Status, report: nat -> Status) returns (status: Status)
      requires Valid()
      requires written == Ok && Fresh(s, data) ==> AllReadInside(s.configs, NextColumns(s, data, true), false)
      modifies this
      ensures written != Ok ==> status == written && s == old(s) && log == old(log) && Valid()
      ensures written == Ok && !old(Fresh(s, data)) ==>
        && status == Internal && log == old(log) && s == old(s).(columns := s.columns, info := NextInfo(old(s), last))
        && exists k: nat :: k < |s.history| && StoppedAtColumn(old(s), data, k, s.columns)
      ensures written == Ok && old(Fresh(s, data)) ==>
        && Valid() && (status == Ok <==> !SomeRefused(old(s).configs, s.columns, false, report))
        && s == StructuredWriterSpec.Append(old(s), data, last, true).(configs := s.configs)
        && (status == Ok ==> s == StructuredWriterSpec.Append(old(s), data, last, true))
        && (status == Ok ==> AppendsRightly(old(s), data, last, s))
        && (status == Ok ==> full == StructuredWriterSpec.Append(old(full), data, last, false))
        && (status != Ok ==> Stopped(old(s).configs, s.columns, false, report, status, s.configs))
    {
      if written != Ok {
        return written;
      }
      AppendIsRight(s, data, last);
      var columns;
      status, columns := StoreColumns(s, data);
      if status != Ok {
        s := s.(columns := columns, info := NextInfo(s, last));
        return;
      }
      status, s, log, full := AppendStored(s, log, full, data, last, columns, report);
    }

    /** Applies the configs once more, then ends the episode of the wrapped writer. */
    method EndEpisode(clear: bool, episode: nat, written: Status, report: nat -> Status) returns (status: Status)
      requires Valid() && AllReadInside(s.configs, s.columns, true)
      modifies this
      ensures Valid()
      ensures SomeRefused(old(s).configs, old(s).columns, true, report) ==>
        && status != Ok && s == old(s).(configs := s.configs)
        && Stopped(old(s).configs, old(s).columns, true, report, status, s.configs)
      ensures !SomeRefused(old(s).configs, old(s).columns, true, report) ==>
        && status == written
        && s.configs == StructuredWriterSpec.EndEpisode(old(s), clear, episode).configs
        && (status != Ok ==> s == old(s).(configs := s.configs))
        && AllTreatedRightly(old(s).configs, s.configs, old(s).columns, true)
        && (status == Ok ==> s == StructuredWriterSpec.EndEpisode(old(s), clear, episode))
        && (status == Ok ==> s.columns == (if clear then [] else old(s).columns) && !s.open && s.info == Info(episode, 0))
        && (status == Ok ==> full == StructuredWriterSpec.EndEpisode(old(full), clear, episode))
    {
      VisitsTreat(s.configs, s.columns, true);
      status, s, log, full := EndState(s, log, full, clear, episode, written, report);
    }
  }

  lemma StoppedKeepsGood(s: State, full: State, before: seq<ConfigState>, end: bool, report: nat -> Status,
                         status: Status, configs: seq<ConfigState>)
    requires Good(s, full) && Usable(before, s.history)
    requires Stopped(before, s.columns, end, report, status, configs)
    ensures Good(s.(configs := configs), full.(configs := configs))
  {
    var k: nat :| configs == StoppedAt(before, s.columns, Longest(s.columns), CurrentStep(s.columns).value, end, k);
    StoppedIsUsable(before, s.history, s.columns, CurrentStep(s.columns).value, end, k);
    GoodWithConfigs(s, full, configs);
  }

  lemma ConfigsAfterEnd(s: State, full: State, clear: bool, episode: nat, report: nat -> Status,
                        status: Status, configs: seq<ConfigState>)
    requires Good(s, full)
    requires status == Ok ==> configs == StructuredWriterSpec.EndEpisode(s, clear, episode).configs
    requires status != Ok ==> Stopped(s.configs, s.columns, true, report, status, configs)
    ensures Good(s.(configs := configs), full.(configs := configs))
  {
    if status == Ok {
      UsableVisits(s.configs, s.history, s.columns, true);
      GoodWithConfigs(s, full, configs);
    } else {
      StoppedKeepsGood(s, full, s.configs, true, report, status, configs);
    }
  }
}
