/** The patterns of the structured writer: which trajectories a config describes,
    when its conditions hold, and how much history it needs. */
module Patterns {

  import opened Status
  import opened Suffixes

  /** The step of an episode. */
  datatype Info = Info(episode: nat, step: int)

  /** What a data condition can see of a tensor: an integer or boolean scalar, or
      anything else. */
  datatype Tensor = Integer(value: int) | Boolean(flag: bool) | Other

  datatype Cell = Cell(column: nat, info: Info, data: Tensor)

  /** The cells of one column, oldest first; None where a step had no value. */
  type Column = seq<Option<Cell>>

  datatype Node = Node(source: int, start: Option<int>, stop: Option<int>, step: Option<int>)

  datatype Left =
    | StepIndex
    | StepsSinceApplied
    | BufferLength(on: bool)
    | IsEndEpisode(on: bool)
    | Source(index: int)
    | LeftNotSet

  datatype Comparison = Eq(value: int) | Ge(value: int) | ModEq(mod: int, eq: int) | CmpNotSet

  datatype Condition = Condition(left: Left, cmp: Comparison, inverse: bool)

  datatype Config = Config(table: string, nodes: seq<Node>, conditions: seq<Condition>)

  // ---------------------------------------------------------------------
  // Validation
  // ---------------------------------------------------------------------

  /** Where a node starts to read, counted back from the end of its column. */
  function From(n: Node): int {
    if n.start.Some? then n.start.value else StopOf(n)
  }

  function StopOf(n: Node): int {
    if n.stop.Some? then n.stop.value else 0
  }

  function LengthOf(n: Node): int {
    if n.start.Some? then StopOf(n) - n.start.value else 1
  }

  /** A step below one never passes validation. */
  function StepOf(n: Node): (step: int)
    ensures step > 0
  {
    if n.step.Some? && n.step.value > 0 then n.step.value else 1
  }

  function MaxAge(n: Node): nat {
    if From(n) < 0 then -From(n) else From(n)
  }

  function OldestAge(nodes: seq<Node>): nat {
    if nodes == [] then 0
    else
      var rest := OldestAge(nodes[..|nodes| - 1]);
      var last := MaxAge(nodes[|nodes| - 1]);
      if last > rest then last else rest
  }

  predicate ValidNode(n: Node) {
    && n.source >= 0
    && (n.start.Some? || n.stop.Some?)
    && (n.start.Some? ==> n.start.value < 0)
    && (n.stop.Some? ==> n.stop.value <= 0)
    && (n.start.Some? && n.stop.Some? ==> n.start.value < n.stop.value)
    && (n.stop.Some? && n.start.None? ==> n.stop.value != 0)
    && (n.step.Some? ==> n.start.Some? && n.step.value > 0)
  }

  predicate ValidCondition(c: Condition) {
    && !c.left.LeftNotSet?
    && (c.left.Source? ==> c.left.index >= 0)
    && (c.cmp.ModEq? ==> c.cmp.mod > 0 && c.cmp.eq >= 0)
    && !c.cmp.CmpNotSet?
    && (c.left == IsEndEpisode(true) ==> c.cmp == Eq(1) && !c.inverse)
  }

  /** The condition that every config must have, which is meant to ensure that the
      buffer holds enough steps. Whether it is inverted is not looked at. */
  predicate LooksLikeGuard(c: Condition, age: nat) {
    c.left == BufferLength(true) && (if c.cmp.Ge? then c.cmp.value else 0) >= age
  }

  predicate Accepted(config: Config) {
    && config.nodes != []
    && config.table != ""
    && (forall n :: n in config.nodes ==> ValidNode(n))
    && (forall c :: c in config.conditions ==> ValidCondition(c))
    && exists c :: c in config.conditions && LooksLikeGuard(c, OldestAge(config.nodes))
  }

  /** The required condition is there and is not inverted. */
  predicate Guarded(config: Config) {
    exists c :: c in config.conditions && LooksLikeGuard(c, OldestAge(config.nodes)) && !c.inverse
  }

  lemma {:induction false} OldestAgeIsMax(nodes: seq<Node>)
    ensures forall n :: n in nodes ==> MaxAge(n) <= OldestAge(nodes)
    ensures nodes != [] ==> exists n :: n in nodes && MaxAge(n) == OldestAge(nodes)
  {
    if nodes != [] {
      var init, last := nodes[..|nodes| - 1], nodes[|nodes| - 1];
      OldestAgeIsMax(init);
      assert nodes == init + [last];
      if init != [] && MaxAge(last) <= OldestAge(init) {
        var n :| n in init && MaxAge(n) == OldestAge(init);
        assert n in nodes;
      } else {
        assert last in nodes;
      }
    }
  }

  // ---------------------------------------------------------------------
  // Conditions
  // ---------------------------------------------------------------------

  function Newest(column: Column): Option<Cell> {
    if column == [] then None else column[|column| - 1]
  }

  /** Conversion to a 32-bit int; None for data that no condition can be put on. */
  function AsInt(t: Tensor): Option<int> {
    match t
    case Integer(v) => Some((v + 0x8000_0000) % 0x1_0000_0000 - 0x8000_0000)
    case Boolean(b) => Some(if b then 1 else 0)
    case Other => None
  }

  /** The remainder whose sign is that of the dividend. */
  function Remainder(a: int, m: int): int
    requires m != 0
  {
    if a >= 0 then a % m else -((-a) % m)
  }

  function LeftValue(left: Left, columns: seq<Column>, longest: nat, current: Info, since: int, end: bool): Option<int> {
    match left
    case StepIndex => Some(current.step)
    case StepsSinceApplied => Some(since)
    case BufferLength(_) => Some(longest)
    case IsEndEpisode(_) => Some(if end then 1 else 0)
    case Source(i) =>
      if 0 <= i < |columns| && Newest(columns[i]).Some? then AsInt(Newest(columns[i]).value.data) else None
    case LeftNotSet => None
  }

  predicate Compare(cmp: Comparison, left: int) {
    match cmp
    case Eq(v) => left == v
    case Ge(v) => left >= v
    case ModEq(m, e) => m != 0 && Remainder(left, m) == e
    case CmpNotSet => false
  }

  /** A condition on a column without a usable value fails, inverted or not.
      `longest` is the length of the longest buffer. */
  predicate Holds(c: Condition, columns: seq<Column>, longest: nat, current: Info, since: int, end: bool) {
    var left := LeftValue(c.left, columns, longest, current, since, end);
    left.Some? && c.inverse != Compare(c.cmp, left.value)
  }

  predicate AllHold(config: Config, columns: seq<Column>, longest: nat, current: Info, since: int, end: bool) {
    forall c :: c in config.conditions ==> Holds(c, columns, longest, current, since, end)
  }

  function Longest(columns: seq<Column>): nat {
    if columns == [] then 0
    else
      var rest := Longest(columns[..|columns| - 1]);
      var last := |columns[|columns| - 1]|;
      if last > rest then last else rest
  }

  lemma {:induction false} LongestBound(columns: seq<Column>, n: nat)
    requires forall i :: 0 <= i < |columns| ==> |columns[i]| <= n
    ensures Longest(columns) <= n
  {
    if columns != [] {
      LongestBound(columns[..|columns| - 1], n);
    }
  }

  lemma {:induction false} LongestOfSameLengths(a: seq<Column>, b: seq<Column>)
    requires |a| == |b| && forall i :: 0 <= i < |a| ==> |a[i]| == |b[i]|
    ensures Longest(a) == Longest(b)
  {
    if a != [] {
      LongestOfSameLengths(a[..|a| - 1], b[..|b| - 1]);
    }
  }

  // ---------------------------------------------------------------------
  // What a condition means
  // ---------------------------------------------------------------------

  /** The number is in the range of a 32-bit int and differs from `v` by a multiple of
      the number of such ints. */
  ghost predicate Wraps(v: int, r: int) {
    -0x8000_0000 <= r < 0x8000_0000 && (v - r) % 0x1_0000_0000 == 0
  }

  /** What is compared: the step of the episode, the steps since the config applied, the
      length of the longest column, one at the end of an episode, or the newest value of
      a column. */
  ghost predicate Sees(left: Left, columns: seq<Column>, current: Info, since: int, end: bool, v: int) {
    match left
    case StepIndex => v == current.step
    case StepsSinceApplied => v == since
    case BufferLength(_) =>
      && (forall i :: 0 <= i < |columns| ==> |columns[i]| <= v)
      && (exists i :: 0 <= i < |columns| && |columns[i]| == v)
    case IsEndEpisode(_) => v == if end then 1 else 0
    case Source(i) =>
      && 0 <= i < |columns| && columns[i] != [] && columns[i][|columns[i]| - 1].Some?
      && (match columns[i][|columns[i]| - 1].value.data
          case Integer(n) => Wraps(n, v)
          case Boolean(flag) => v == if flag then 1 else 0
          case Other => false)
    case LeftNotSet => false
  }

  function Times(q: int, m: int): int {
    q * m
  }

  /** The comparison itself. A remainder has the sign of the dividend, so that a negative
      number can only have the remainder zero. */
  ghost predicate Meets(cmp: Comparison, v: int) {
    match cmp
    case Eq(n) => v == n
    case Ge(n) => n <= v
    case ModEq(m, e) => e < m && (v >= 0 || e == 0) && exists q :: v == Times(q, m) + e
    case CmpNotSet => false
  }

  ghost predicate Satisfied(c: Condition, columns: seq<Column>, current: Info, since: int, end: bool)
    requires ValidCondition(c)
  {
    exists v :: Sees(c.left, columns, current, since, end, v) && (Meets(c.cmp, v) <==> !c.inverse)
  }

  lemma {:induction false} LongestIs(columns: seq<Column>)
    requires columns != []
    ensures forall i :: 0 <= i < |columns| ==> |columns[i]| <= Longest(columns)
    ensures exists i :: 0 <= i < |columns| && |columns[i]| == Longest(columns)
  {
    var init, last := columns[..|columns| - 1], columns[|columns| - 1];
    if init != [] {
      LongestIs(init);
      var i :| 0 <= i < |init| && |init[i]| == Longest(init);
      assert columns[i] == init[i];
    }
    assert Longest(columns) == (if |last| > Longest(init) then |last| else Longest(init));
    if |last| > Longest(init) || init == [] {
      assert |columns[|columns| - 1]| == Longest(columns);
    }
  }

  lemma WrapIs(v: int)
    ensures Wraps(v, AsInt(Integer(v)).value)
    ensures forall r :: Wraps(v, r) ==> r == AsInt(Integer(v)).value
  {
  }

  /** The value is there exactly if there is something to compare, and it is the only one. */
  lemma SeesIff(left: Left, columns: seq<Column>, current: Info, since: int, end: bool)
    requires columns != []
    ensures var seen := LeftValue(left, columns, Longest(columns), current, since, end);
      forall v :: Sees(left, columns, current, since, end, v) <==> seen == Some(v)
  {
    LongestIs(columns);
    if left.Source? && 0 <= left.index < |columns| && Newest(columns[left.index]).Some?
       && Newest(columns[left.index]).value.data.Integer? {
      WrapIs(Newest(columns[left.index]).value.data.value);
    }
  }

  lemma RemainderIff(a: int, m: int, e: int)
    requires m > 0 && e >= 0
    ensures Remainder(a, m) == e <==> e < m && (a >= 0 || e == 0) && exists q :: a == Times(q, m) + e
  {
    if a >= 0 {
      assert a == Times(a / m, m) + a % m;
      if q :| e < m && a == Times(q, m) + e {
        RemainderIs(a, m, q, e);
      }
    } else {
      var p := (-a) / m;
      assert -a == Times(p, m) + (-a) % m;
      Negated(p, m);
      assert (-a) % m == 0 ==> a == Times(-p, m) + 0;
      if q :| e == 0 && a == Times(q, m) + e {
        Negated(q, m);
        RemainderIs(-a, m, -q, 0);
      }
    }
  }

  lemma Negated(q: int, m: int)
    ensures Times(-q, m) == -Times(q, m)
  {
  }

  /** A condition holds exactly if what it sees compares as it demands. */
  lemma HoldsIffSatisfied(c: Condition, columns: seq<Column>, current: Info, since: int, end: bool)
    requires ValidCondition(c) && columns != []
    ensures Holds(c, columns, Longest(columns), current, since, end) <==> Satisfied(c, columns, current, since, end)
  {
    SeesIff(c.left, columns, current, since, end);
    var seen := LeftValue(c.left, columns, Longest(columns), current, since, end);
    if seen.Some? {
      if c.cmp.ModEq? {
        RemainderIff(seen.value, c.cmp.mod, c.cmp.eq);
      }
      assert Sees(c.left, columns, current, since, end, seen.value);
    }
  }

  // ---------------------------------------------------------------------
  // Trajectories
  // ---------------------------------------------------------------------

  /** The cells of a slice; Undefined for a read outside the column. */
  datatype Picked = Cells(cells: seq<Cell>) | HasNull | Undefined

  datatype Slice = Slice(cells: seq<Cell>, squeeze: bool)

  datatype Built = Trajectory(columns: seq<Slice>) | NullInside | OutsideBuffer

  function Collect(column: Column, at: int, left: int, step: int): Picked
    requires step > 0
    decreases left
  {
    if left <= 0 then Cells([])
    else if !(0 <= at < |column|) then Undefined
    else if column[at].None? then HasNull
    else
      var rest := Collect(column, at + step, left - step, step);
      if rest.Cells? then Cells([column[at].value] + rest.cells) else rest
  }

  /** What a node reads of one column. */
  function ReadBy(n: Node, column: Column): Picked {
    Collect(column, |column| + From(n), LengthOf(n), StepOf(n))
  }

  function FromNode(n: Node, columns: seq<Column>): Picked {
    if 0 <= n.source < |columns| then ReadBy(n, columns[n.source]) else Undefined
  }

  function Build(nodes: seq<Node>, columns: seq<Column>): Built {
    if nodes == [] then Trajectory([])
    else
      match FromNode(nodes[0], columns)
      case HasNull => NullInside
      case Undefined => OutsideBuffer
      case Cells(cells) =>
        var rest := Build(nodes[1..], columns);
        if rest.Trajectory? then Trajectory([Slice(cells, nodes[0].start.None?)] + rest.columns) else rest
  }

  /** Collecting cells is taking every `step`-th cell of the stretch. */
  lemma {:induction false} CollectIsSlice(column: Column, at: int, left: int, step: int)
    requires step > 0 && left > 0 && Collect(column, at, left, step).Cells?
    ensures var cells := Collect(column, at, left, step).cells;
      && (|cells| - 1) * step < left <= |cells| * step
      && forall k {:trigger cells[k]} :: 0 <= k < |cells| ==>
           0 <= at + k * step < |column| && column[at + k * step] == Some(cells[k])
    decreases left
  {
    var cells := Collect(column, at, left, step).cells;
    if left > step {
      CollectIsSlice(column, at + step, left - step, step);
      var rest := Collect(column, at + step, left - step, step).cells;
      assert |cells| * step == |rest| * step + step;
      forall k | 0 < k < |cells|
        ensures 0 <= at + k * step < |column| && column[at + k * step] == Some(cells[k])
      {
        assert cells[k] == rest[k - 1] && at + step + (k - 1) * step == at + k * step;
      }
    }
  }

  /** Reading inside a window of a column is reading the column itself. */
  lemma {:induction false} CollectInWindow(window: Column, column: Column, at: nat, left: int, step: int)
    requires step > 0 && Suffix(window, column)
    ensures Collect(window, at, left, step) == Collect(column, at + |column| - |window|, left, step)
    decreases left
  {
    if left > 0 && at < |window| {
      SuffixAt(window, column, at + |column| - |window|);
      CollectInWindow(window, column, at + step, left - step, step);
    }
  }

  lemma {:induction false} CollectInside(column: Column, at: nat, left: int, step: int)
    requires step > 0 && at + left <= |column|
    ensures !Collect(column, at, left, step).Undefined?
    decreases left
  {
    if left > 0 && left - step > 0 {
      CollectInside(column, at + step, left - step, step);
    }
  }

  // ---------------------------------------------------------------------
  // What a node means
  // ---------------------------------------------------------------------

  function Ahead(j: nat, step: int): int {
    j * step
  }

  lemma AheadNext(j: nat, step: int)
    ensures Ahead(0, step) == 0 && Ahead(j + 1, step) == Ahead(j, step) + step
  {
  }

  lemma {:induction false} AheadGrows(j: nat, k: nat, step: int)
    requires step > 0
    ensures j < k ==> Ahead(j, step) + step <= Ahead(k, step)
    ensures j <= k ==> Ahead(j, step) <= Ahead(k, step)
    decreases k
  {
    if j < k {
      AheadNext(k - 1, step);
      AheadGrows(j, k - 1, step);
    }
  }

  /** Where a pick of a node is: the `j`-th from its start, or the one at its stop. */
  function PickPosition(n: Node, length: nat, j: nat): int {
    match (n.start, n.stop)
    case (Some(start), _) => length + start + Ahead(j, if n.step.Some? then n.step.value else 1)
    case (None, Some(stop)) => length + stop
    case (None, None) => length
  }

  /** A slice has a `j`-th pick as long as that is before its stop, which is the end of the
      column unless given. A node without a start picks one cell. */
  predicate Picks(n: Node, length: nat, j: nat) {
    if n.start.Some? then PickPosition(n, length, j) < (if n.stop.Some? then length + n.stop.value else length)
    else j == 0
  }

  ghost predicate HasCell(n: Node, column: Column, j: nat) {
    0 <= PickPosition(n, |column|, j) < |column| && column[PickPosition(n, |column|, j)].Some?
  }

  /** Every cell that the node picks is there. */
  ghost predicate Readable(n: Node, column: Column) {
    forall j: nat {:trigger Picks(n, |column|, j)} :: Picks(n, |column|, j) ==> HasCell(n, column, j)
  }

  /** The cells are those that the node picks, in order. */
  ghost predicate PickedBy(n: Node, column: Column, cells: seq<Cell>) {
    forall j: nat {:trigger Picks(n, |column|, j)} ::
      && (Picks(n, |column|, j) <==> j < |cells|)
      && (j < |cells| ==> HasCell(n, column, j) && column[PickPosition(n, |column|, j)] == Some(cells[j]))
  }

  ghost predicate PickOk(column: Column, at: int, left: int, step: int, j: nat) {
    Ahead(j, step) < left ==> 0 <= at + Ahead(j, step) < |column| && column[at + Ahead(j, step)].Some?
  }

  lemma PickNext(column: Column, at: int, left: int, step: int, j: nat)
    ensures PickOk(column, at, left, step, j + 1) <==> PickOk(column, at + step, left - step, step, j)
  {
    AheadNext(j, step);
  }

  ghost predicate AllPicksOk(column: Column, at: int, left: int, step: int) {
    forall j: nat :: PickOk(column, at, left, step, j)
  }

  lemma AllPicksNext(column: Column, at: int, left: int, step: int)
    requires step > 0 && left > 0
    ensures AllPicksOk(column, at, left, step) <==>
      0 <= at < |column| && column[at].Some? && AllPicksOk(column, at + step, left - step, step)
  {
    AheadNext(0, step);
    assert PickOk(column, at, left, step, 0) <==> 0 <= at < |column| && column[at].Some?;
    var at', left' := at + step, left - step;
    if AllPicksOk(column, at, left, step) {
      forall j: nat ensures PickOk(column, at', left', step, j) {
        PickNext(column, at, left, step, j);
      }
    }
    if PickOk(column, at, left, step, 0) && AllPicksOk(column, at', left', step) {
      forall j: nat ensures PickOk(column, at, left, step, j) {
        if j > 0 {
          PickNext(column, at, left, step, j - 1);
        }
      }
    }
  }

  /** Collecting succeeds exactly if every cell that is picked is there. */
  lemma {:induction false} CollectSucceedsIff(column: Column, at: int, left: int, step: int)
    requires step > 0
    ensures Collect(column, at, left, step).Cells? <==> AllPicksOk(column, at, left, step)
    decreases left
  {
    if left > 0 {
      CollectSucceedsIff(column, at + step, left - step, step);
      AllPicksNext(column, at, left, step);
    } else {
      forall j: nat ensures PickOk(column, at, left, step, j) {
        AheadNext(0, step);
        AheadGrows(0, j, step);
      }
    }
  }

  lemma PickMeans(n: Node, column: Column, j: nat)
    requires ValidNode(n)
    ensures PickOk(column, |column| + From(n), LengthOf(n), StepOf(n), j)
            <==> (Picks(n, |column|, j) ==> HasCell(n, column, j))
    ensures Picks(n, |column|, j) <==> Ahead(j, StepOf(n)) < LengthOf(n)
    ensures Picks(n, |column|, j) ==> PickPosition(n, |column|, j) == |column| + From(n) + Ahead(j, StepOf(n))
  {
    AheadNext(0, StepOf(n));
    AheadGrows(1, j, StepOf(n));
    AheadGrows(0, j, StepOf(n));
  }

  lemma ReadsIff(n: Node, column: Column)
    requires ValidNode(n)
    ensures ReadBy(n, column).Cells? <==> Readable(n, column)
  {
    var at, left, step := |column| + From(n), LengthOf(n), StepOf(n);
    CollectSucceedsIff(column, at, left, step);
    if AllPicksOk(column, at, left, step) {
      forall j: nat | Picks(n, |column|, j) ensures HasCell(n, column, j) {
        PickMeans(n, column, j);
        assert PickOk(column, at, left, step, j);
      }
    }
    if Readable(n, column) {
      forall j: nat ensures PickOk(column, at, left, step, j) {
        PickMeans(n, column, j);
      }
    }
  }

  /** What a valid node reads, in terms of its start, stop and step. */
  lemma ReadsPicks(n: Node, column: Column)
    requires ValidNode(n) && ReadBy(n, column).Cells?
    ensures PickedBy(n, column, ReadBy(n, column).cells)
  {
    var at, left, step := |column| + From(n), LengthOf(n), StepOf(n);
    var cells := ReadBy(n, column).cells;
    CollectIsSlice(column, at, left, step);
    forall j: nat
      ensures Picks(n, |column|, j) <==> j < |cells|
      ensures j < |cells| ==> HasCell(n, column, j) && column[PickPosition(n, |column|, j)] == Some(cells[j])
    {
      PickMeans(n, column, j);
      AheadGrows(j, |cells| - 1, step);
      AheadGrows(|cells|, j, step);
      if j < |cells| {
        assert column[at + Ahead(j, step)] == Some(cells[j]);
      }
    }
  }

  /** The trajectory has a column for each node, with the cells that the node picks; it is
      squeezed if the node has no start. */
  ghost predicate DescribedBy(nodes: seq<Node>, columns: seq<Column>, built: seq<Slice>) {
    |built| == |nodes| && forall i :: 0 <= i < |nodes| ==>
      && 0 <= nodes[i].source < |columns|
      && PickedBy(nodes[i], columns[nodes[i].source], built[i].cells)
      && built[i].squeeze == nodes[i].start.None?
  }

  ghost predicate FindsCells(n: Node, columns: seq<Column>) {
    0 <= n.source < |columns| && Readable(n, columns[n.source])
  }

  ghost predicate AllFindCells(nodes: seq<Node>, columns: seq<Column>) {
    forall n :: n in nodes ==> FindsCells(n, columns)
  }

  /** A trajectory is built exactly if every node finds its cells, and then it is what the
      nodes describe. */
  lemma {:induction false} BuildDescribes(nodes: seq<Node>, columns: seq<Column>)
    requires forall n :: n in nodes ==> ValidNode(n)
    ensures Build(nodes, columns).Trajectory? <==> AllFindCells(nodes, columns)
    ensures Build(nodes, columns).Trajectory? ==> DescribedBy(nodes, columns, Build(nodes, columns).columns)
  {
    if nodes != [] {
      var n, rest := nodes[0], nodes[1..];
      assert forall m :: m in nodes <==> m == n || m in rest;
      BuildDescribes(rest, columns);
      NodeFindsIff(n, columns);
      if Build(nodes, columns).Trajectory? {
        FirstDescribed(nodes, columns);
      }
    }
  }

  lemma NodeFindsIff(n: Node, columns: seq<Column>)
    requires ValidNode(n)
    ensures FromNode(n, columns).Cells? <==> FindsCells(n, columns)
    ensures FromNode(n, columns).Cells? ==> PickedBy(n, columns[n.source], FromNode(n, columns).cells)
  {
    if n.source < |columns| {
      ReadsIff(n, columns[n.source]);
      if ReadBy(n, columns[n.source]).Cells? {
        ReadsPicks(n, columns[n.source]);
      }
    }
  }

  lemma FirstDescribed(nodes: seq<Node>, columns: seq<Column>)
    requires nodes != [] && ValidNode(nodes[0]) && Build(nodes, columns).Trajectory?
    requires DescribedBy(nodes[1..], columns, Build(nodes[1..], columns).columns)
    ensures DescribedBy(nodes, columns, Build(nodes, columns).columns)
  {
    var built, rest := Build(nodes, columns).columns, Build(nodes[1..], columns).columns;
    NodeFindsIff(nodes[0], columns);
    assert built == [Slice(FromNode(nodes[0], columns).cells, nodes[0].start.None?)] + rest;
    forall i | 0 <= i < |nodes|
      ensures 0 <= nodes[i].source < |columns| && PickedBy(nodes[i], columns[nodes[i].source], built[i].cells)
      ensures built[i].squeeze == nodes[i].start.None?
    {
      if i > 0 {
        assert nodes[i] == nodes[1..][i - 1] && built[i] == rest[i - 1];
      }
    }
  }

  /** A node stays inside its column exactly when the column is as long as the node
      reaches back. */
  lemma NodeInsideIff(n: Node, columns: seq<Column>)
    requires ValidNode(n) && n.source < |columns|
    ensures FromNode(n, columns).Undefined? <==> |columns[n.source]| < MaxAge(n)
  {
    var column := columns[n.source];
    if |column| >= MaxAge(n) {
      CollectInside(column, |column| - MaxAge(n), LengthOf(n), StepOf(n));
    }
  }

  // ---------------------------------------------------------------------
  // Windows of the history
  // ---------------------------------------------------------------------

  /** The history that the config needs of each column is kept. */
  ghost predicate Covers(history: seq<nat>, config: Config) {
    CoversNodes(history, config.nodes) && CoversConditions(history, config.conditions)
  }

  ghost predicate CoversNodes(history: seq<nat>, nodes: seq<Node>) {
    forall n :: n in nodes ==> 0 <= n.source < |history| && history[n.source] >= MaxAge(n)
  }

  ghost predicate CoversConditions(history: seq<nat>, conditions: seq<Condition>) {
    forall c :: c in conditions && c.left.Source? ==> 0 <= c.left.index < |history| && history[c.left.index] >= 1
  }

  /** What a writer keeps of the full columns. */
  function Window(columns: seq<Column>, history: seq<nat>): seq<Column>
    requires |columns| == |history|
  {
    seq(|columns|, i requires 0 <= i < |columns| => Last(columns[i], history[i]))
  }

  /** All columns have one entry for each of the `steps` steps. */
  ghost predicate Rectangular(columns: seq<Column>, steps: nat) {
    forall i :: 0 <= i < |columns| ==> |columns[i]| == steps
  }

  lemma ReadOnSuffix(n: Node, window: Column, column: Column)
    requires ValidNode(n) && Suffix(window, column) && (|window| >= MaxAge(n) || window == column)
    ensures ReadBy(n, window) == ReadBy(n, column)
  {
    if |window| >= MaxAge(n) {
      CollectInWindow(window, column, |window| - MaxAge(n), LengthOf(n), StepOf(n));
    }
  }

  lemma WindowColumn(columns: seq<Column>, history: seq<nat>, i: nat)
    requires i < |columns| == |history|
    ensures var window := Window(columns, history)[i];
      && window == Last(columns[i], history[i]) && Suffix(window, columns[i])
      && |window| == Min(|columns[i]|, history[i])
  {
    assert Suffix(columns[i], columns[i]);
    LastIsSuffix(columns[i], columns[i], history[i]);
  }

  lemma WindowReads(n: Node, columns: seq<Column>, history: seq<nat>)
    requires |columns| == |history| && ValidNode(n) && n.source < |history| && history[n.source] >= MaxAge(n)
    ensures ReadBy(n, Window(columns, history)[n.source]) == ReadBy(n, columns[n.source])
  {
    WindowColumn(columns, history, n.source);
    ReadOnSuffix(n, Window(columns, history)[n.source], columns[n.source]);
  }

  lemma WindowNode(n: Node, columns: seq<Column>, history: seq<nat>, steps: nat)
    requires |columns| == |history| && Rectangular(columns, steps) && ValidNode(n)
    requires n.source < |history| && history[n.source] >= MaxAge(n)
    ensures FromNode(n, Window(columns, history)).Undefined? <==> steps < MaxAge(n)
    ensures FromNode(n, Window(columns, history)) == FromNode(n, columns)
  {
    WindowReads(n, columns, history);
    NodeInsideIff(n, columns);
  }

  /** Building from the windows is building from the full columns, whether it
      succeeds, meets a null or reads outside. */
  lemma {:induction false} WindowBuild(nodes: seq<Node>, columns: seq<Column>, history: seq<nat>, steps: nat)
    requires |columns| == |history| && Rectangular(columns, steps)
    requires forall n :: n in nodes ==> ValidNode(n) && n.source < |history| && MaxAge(n) <= history[n.source]
    ensures Build(nodes, Window(columns, history)) == Build(nodes, columns)
    ensures (forall n :: n in nodes ==> MaxAge(n) <= steps) ==> !Build(nodes, columns).OutsideBuffer?
  {
    if nodes != [] {
      WindowNode(nodes[0], columns, history, steps);
      WindowBuild(nodes[1..], columns, history, steps);
    }
  }

  /** An accepted config reads inside the buffers exactly when as many steps were
      appended as its oldest node reaches back. */
  lemma InsideIffEnoughSteps(config: Config, columns: seq<Column>, history: seq<nat>, steps: nat)
    requires Accepted(config) && Covers(history, config) && |columns| == |history| && Rectangular(columns, steps)
    ensures (forall n :: n in config.nodes ==> !FromNode(n, Window(columns, history)).Undefined?)
            <==> steps >= OldestAge(config.nodes)
  {
    OldestAgeIsMax(config.nodes);
    forall n | n in config.nodes
      ensures FromNode(n, Window(columns, history)).Undefined? <==> steps < MaxAge(n)
    {
      WindowNode(n, columns, history, steps);
    }
  }

  /** The number of steps that the config's oldest node needs is there. */
  lemma EnoughStepsReadHistory(config: Config, columns: seq<Column>, history: seq<nat>, steps: nat)
    requires Accepted(config) && Covers(history, config)
    requires |columns| == |history| && Rectangular(columns, steps) && steps >= OldestAge(config.nodes)
    ensures Build(config.nodes, Window(columns, history)) == Build(config.nodes, columns)
    ensures !Build(config.nodes, columns).OutsideBuffer?
  {
    OldestAgeIsMax(config.nodes);
    WindowBuild(config.nodes, columns, history, steps);
  }

  /** When the conditions of a guarded config hold, building the trajectory from the
      windows reads inside them and gives what the full history would give. */
  lemma GuardedReadsHistory(config: Config, columns: seq<Column>, history: seq<nat>, steps: nat,
                            current: Info, since: int, end: bool)
    requires Accepted(config) && Guarded(config) && Covers(history, config)
    requires |columns| == |history| && Rectangular(columns, steps)
    requires AllHold(config, Window(columns, history), Longest(Window(columns, history)), current, since, end)
    ensures steps >= OldestAge(config.nodes)
    ensures forall n :: n in config.nodes ==> !FromNode(n, Window(columns, history)).Undefined?
    ensures Build(config.nodes, Window(columns, history)) == Build(config.nodes, columns)
    ensures !Build(config.nodes, columns).OutsideBuffer?
  {
    var windows := Window(columns, history);
    LongestBound(windows, steps);
    var c :| c in config.conditions && LooksLikeGuard(c, OldestAge(config.nodes)) && !c.inverse;
    assert Holds(c, windows, Longest(windows), current, since, end);
    AgeIsPositive(config);
    InsideIffEnoughSteps(config, columns, history, steps);
    EnoughStepsReadHistory(config, columns, history, steps);
  }

  lemma AgeIsPositive(config: Config)
    requires Accepted(config)
    ensures OldestAge(config.nodes) > 0
  {
    OldestAgeIsMax(config.nodes);
    assert ValidNode(config.nodes[0]) && MaxAge(config.nodes[0]) > 0;
  }

  /** A config whose required condition is inverted is accepted, whatever its other
      conditions are. While there are too few steps the inverted condition holds, so
      whenever the others hold too, the config applies and reads outside. */
  lemma InvertedGuardReadsOutside(config: Config, bound: int, columns: seq<Column>, history: seq<nat>, steps: nat,
                                  current: Info, since: int, end: bool)
    requires config.nodes != [] && config.table != "" && forall n :: n in config.nodes ==> ValidNode(n)
    requires forall c :: c in config.conditions ==> ValidCondition(c)
    requires Condition(BufferLength(true), Ge(bound), true) in config.conditions && bound >= OldestAge(config.nodes)
    requires Covers(history, config) && |columns| == |history| && Rectangular(columns, steps)
    ensures Accepted(config)
    ensures var windows := Window(columns, history);
      var guard := Condition(BufferLength(true), Ge(bound), true);
      steps < OldestAge(config.nodes) ==>
        && Holds(guard, windows, Longest(windows), current, since, end)
        && (exists n :: n in config.nodes && FromNode(n, windows).Undefined?)
        && ((forall c :: c in config.conditions && c != guard ==> Holds(c, windows, Longest(windows), current, since, end))
              <==> AllHold(config, windows, Longest(windows), current, since, end))
  {
    var c := Condition(BufferLength(true), Ge(bound), true);
    assert c in config.conditions && LooksLikeGuard(c, OldestAge(config.nodes));
    LongestBound(Window(columns, history), steps);
    InsideIffEnoughSteps(config, columns, history, steps);
  }

  /** Reading outside needs a config without a proper guard. */
  lemma OnlyUnguardedReadOutside(config: Config, columns: seq<Column>, history: seq<nat>, steps: nat,
                                 current: Info, since: int, end: bool)
    requires Accepted(config) && Covers(history, config) && |columns| == |history| && Rectangular(columns, steps)
    requires AllHold(config, Window(columns, history), Longest(Window(columns, history)), current, since, end)
    requires Build(config.nodes, Window(columns, history)).OutsideBuffer?
    ensures !Guarded(config) && steps < OldestAge(config.nodes)
  {
    if Guarded(config) {
      GuardedReadsHistory(config, columns, history, steps, current, since, end);
    }
    if steps >= OldestAge(config.nodes) {
      EnoughStepsReadHistory(config, columns, history, steps);
    }
  }

  /** A two-step slice whose length condition is inverted fires on the first step
      and reads the cell before it. */
  lemma InvertedGuardExample()
    ensures var config := Config("table", [Node(0, Some(-2), None, None)], [Condition(BufferLength(true), Ge(2), true)]);
      var columns := [[Some(Cell(0, Info(1, 0), Other))]];
      && Accepted(config) && !Guarded(config)
      && AllHold(config, columns, Longest(columns), Info(1, 0), 1, false)
      && Build(config.nodes, columns).OutsideBuffer?
  {
    var nodes := [Node(0, Some(-2), None, None)];
    var c := Condition(BufferLength(true), Ge(2), true);
    var config := Config("table", nodes, [c]);
    var columns := [[Some(Cell(0, Info(1, 0), Other))]];
    assert nodes[..0] == [] && OldestAge(nodes) == 2;
    assert c in config.conditions && LooksLikeGuard(c, OldestAge(config.nodes));
    assert columns[..0] == [] && Longest(columns) == 1;
    assert FromNode(nodes[0], columns).Undefined?;
  }

  // ---------------------------------------------------------------------
  // The length of the buffers
  // ---------------------------------------------------------------------

  function Min(a: nat, b: nat): nat {
    if a < b then a else b
  }

  function Largest(history: seq<nat>): nat {
    if history == [] then 0
    else
      var rest := Largest(history[..|history| - 1]);
      var last := history[|history| - 1];
      if last > rest then last else rest
  }

  /** The longest buffer holds all steps, but no more than the largest history. */
  lemma {:induction false} LongestWindow(columns: seq<Column>, history: seq<nat>, steps: nat)
    requires |columns| == |history| && Rectangular(columns, steps)
    ensures Longest(Window(columns, history)) == Min(steps, Largest(history))
  {
    if columns != [] {
      var n := |columns| - 1;
      LongestWindow(columns[..n], history[..n], steps);
      assert Window(columns, history)[..n] == Window(columns[..n], history[..n]);
    }
  }

  lemma {:induction false} LongestRectangle(columns: seq<Column>, steps: nat)
    requires Rectangular(columns, steps) && columns != []
    ensures Longest(columns) == steps
  {
    var n := |columns| - 1;
    if n > 0 {
      LongestRectangle(columns[..n], steps);
    }
  }

  /** The comparison does not tell a number above the limit from the limit. */
  predicate BlindAbove(cmp: Comparison, limit: nat) {
    match cmp
    case Eq(v) => v < limit
    case Ge(v) => v <= limit
    case ModEq(m, e) => m == 1 || e >= m
    case CmpNotSet => true
  }

  /** Cutting a length at the limit never shows exactly for these comparisons. */
  lemma BlindIff(c: Condition, limit: nat)
    requires ValidCondition(c)
    ensures (forall n: nat :: Compare(c.cmp, Min(n, limit)) == Compare(c.cmp, n)) <==> BlindAbove(c.cmp, limit)
  {
    if !BlindAbove(c.cmp, limit) {
      var n := Telling(c.cmp, limit);
      assert Compare(c.cmp, Min(n, limit)) != Compare(c.cmp, n);
    }
  }

  /** A length that the comparison tells from the limit. */
  lemma Telling(cmp: Comparison, limit: nat) returns (n: nat)
    requires !BlindAbove(cmp, limit) && (cmp.ModEq? ==> cmp.mod > 0 && cmp.eq >= 0)
    ensures n > limit && Compare(cmp, limit) != Compare(cmp, n)
  {
    match cmp
    case Eq(v) => n := if v == limit then limit + 1 else v;
    case Ge(v) => n := v;
    case ModEq(m, e) =>
      if limit % m == e {
        n := limit + 1;
        NextRemainder(limit, m);
      } else {
        n := (limit + 1) * m + e;
        Larger(m, limit + 1);
        RemainderIs(n, m, limit + 1, e);
      }
  }

  lemma NextRemainder(a: nat, m: nat)
    requires m > 1
    ensures (a + 1) % m != a % m
  {
    var q, r := a / m, a % m;
    if r + 1 < m {
      RemainderIs(a + 1, m, q, r + 1);
    } else {
      Distribute(q, m);
      RemainderIs(a + 1, m, q + 1, 0);
    }
  }

  lemma Distribute(q: int, m: int)
    ensures (q + 1) * m == q * m + m
  {
  }

  lemma RemainderIs(x: nat, m: nat, q: int, r: nat)
    requires r < m && x == q * m + r
    ensures x % m == r
  {
    var d := q - x / m;
    assert x == (x / m) * m + x % m;
    Difference(q, x / m, m);
    if d >= 1 {
      Larger(d, m);
    } else if d <= -1 {
      Larger(-d, m);
    }
  }

  lemma Difference(a: int, b: int, m: int)
    ensures a * m - b * m == (a - b) * m
  {
  }

  lemma Larger(d: int, m: nat)
    requires d >= 1
    ensures d * m >= m
  {
  }

  /** No length test of the config can tell the windows from the full history. */
  predicate LengthBlind(config: Config, limit: nat) {
    forall c :: c in config.conditions && c.left.BufferLength? ==> BlindAbove(c.cmp, limit)
  }

  // ---------------------------------------------------------------------
  // How much history the configs need
  // ---------------------------------------------------------------------

  /** The least history that covers every config: enough for each node and data
      condition, and no entry without one that needs it. */
  method MaxHistoryLengthPerColumn(configs: seq<Config>) returns (history: seq<nat>)
    requires forall c :: c in configs ==> Accepted(c)
    ensures forall c :: c in configs ==> Covers(history, c)
    ensures Tight(configs, history)
  {
    history := [];
    for i := 0 to |configs|
      invariant Tight(configs, history) && CoversFirst(history, configs, i)
    {
      assert Accepted(configs[i]);
      var grown := CoverConfig(configs, i, history);
      CoversOneMore(history, grown, configs, i);
      history := grown;
    }
    CoversEach(history, configs);
  }

  ghost predicate CoversFirst(history: seq<nat>, configs: seq<Config>, n: nat) {
    n <= |configs| && forall k :: 0 <= k < n ==> Covers(history, configs[k])
  }

  lemma CoversOneMore(history: seq<nat>, grown: seq<nat>, configs: seq<Config>, i: nat)
    requires i < |configs| && CoversFirst(history, configs, i) && Grows(history, grown) && Covers(grown, configs[i])
    ensures CoversFirst(grown, configs, i + 1)
  {
    forall k | 0 <= k < i
      ensures Covers(grown, configs[k])
    {
      CoversGrows(history, grown, configs[k]);
    }
  }

  lemma CoversEach(history: seq<nat>, configs: seq<Config>)
    requires CoversFirst(history, configs, |configs|)
    ensures forall c :: c in configs ==> Covers(history, c)
  {
  }

  /** Some node or data condition asks for `age` entries of the column. */
  ghost predicate Needed(configs: seq<Config>, column: int, age: nat) {
    || (exists c, n :: c in configs && n in c.nodes && n.source == column && MaxAge(n) == age)
    || (age == 1 && exists c, d :: c in configs && d in c.conditions && d.left == Source(column))
  }

  /** Nothing is kept that is not needed, and the last column is needed. */
  ghost predicate Tight(configs: seq<Config>, history: seq<nat>) {
    && (forall k :: 0 <= k < |history| && history[k] > 0 ==> Needed(configs, k, history[k]))
    && (history != [] ==> history[|history| - 1] > 0)
  }

  ghost predicate Grows(a: seq<nat>, b: seq<nat>) {
    |a| <= |b| && forall i :: 0 <= i < |a| ==> a[i] <= b[i]
  }

  lemma CoversGrows(a: seq<nat>, b: seq<nat>, config: Config)
    requires Covers(a, config) && Grows(a, b)
    ensures Covers(b, config)
  {
  }

  function Raised(history: seq<nat>, column: nat, age: nat): seq<nat> {
    var wide := if column < |history| then history else history + seq(column + 1 - |history|, _ => 0);
    wide[column := if wide[column] > age then wide[column] else age]
  }

  lemma RaisedStaysTight(configs: seq<Config>, history: seq<nat>, column: nat, age: nat)
    requires Tight(configs, history) && age > 0 && Needed(configs, column, age)
    ensures Tight(configs, Raised(history, column, age)) && Grows(history, Raised(history, column, age))
    ensures column < |Raised(history, column, age)| && Raised(history, column, age)[column] >= age
  {
  }

  lemma NodesCoveredSnoc(history: seq<nat>, nodes: seq<Node>, j: nat, grown: seq<nat>)
    requires j < |nodes| && CoversNodes(history, nodes[..j]) && Grows(history, grown)
    requires CoversNodes(grown, [nodes[j]])
    ensures CoversNodes(grown, nodes[..j + 1])
  {
    assert nodes[..j + 1] == nodes[..j] + [nodes[j]];
    assert nodes[j] in [nodes[j]];
  }

  method CoverNodes(configs: seq<Config>, i: nat, before: seq<nat>) returns (history: seq<nat>)
    requires i < |configs| && Accepted(configs[i]) && Tight(configs, before)
    ensures CoversNodes(history, configs[i].nodes) && Grows(before, history) && Tight(configs, history)
  {
    var nodes := configs[i].nodes;
    history := before;
    for j := 0 to |nodes|
      invariant Grows(before, history) && CoversNodes(history, nodes[..j]) && Tight(configs, history)
    {
      var n := nodes[j];
      assert ValidNode(n) && configs[i] in configs && Needed(configs, n.source, MaxAge(n));
      RaisedStaysTight(configs, history, n.source, MaxAge(n));
      NodesCoveredSnoc(history, nodes, j, Raised(history, n.source, MaxAge(n)));
      history := Raised(history, n.source, MaxAge(n));
    }
    assert nodes[..|nodes|] == nodes;
  }

  lemma ConditionsCoveredSnoc(history: seq<nat>, conditions: seq<Condition>, j: nat, grown: seq<nat>)
    requires j < |conditions| && CoversConditions(history, conditions[..j]) && Grows(history, grown)
    requires CoversConditions(grown, [conditions[j]])
    ensures CoversConditions(grown, conditions[..j + 1])
  {
    assert conditions[..j + 1] == conditions[..j] + [conditions[j]];
    assert conditions[j] in [conditions[j]];
  }

  method CoverConditions(configs: seq<Config>, i: nat, before: seq<nat>) returns (history: seq<nat>)
    requires i < |configs| && Accepted(configs[i]) && Tight(configs, before)
    ensures CoversConditions(history, configs[i].conditions) && Grows(before, history) && Tight(configs, history)
  {
    var conditions := configs[i].conditions;
    history := before;
    for j := 0 to |conditions|
      invariant Grows(before, history) && CoversConditions(history, conditions[..j]) && Tight(configs, history)
    {
      var c := conditions[j];
      ghost var previous := history;
      if c.left.Source? {
        assert ValidCondition(c) && configs[i] in configs && Needed(configs, c.left.index, 1);
        RaisedStaysTight(configs, history, c.left.index, 1);
        history := Raised(history, c.left.index, 1);
      }
      ConditionsCoveredSnoc(previous, conditions, j, history);
    }
    assert conditions[..|conditions|] == conditions;
  }

  method CoverConfig(configs: seq<Config>, i: nat, before: seq<nat>) returns (history: seq<nat>)
    requires i < |configs| && Accepted(configs[i]) && Tight(configs, before)
    ensures Covers(history, configs[i]) && Grows(before, history) && Tight(configs, history)
  {
    var covered := CoverNodes(configs, i, before);
    history := CoverConditions(configs, i, covered);
  }
}
