/** A column that is given twice in one step: what the chunker and the structured
    writer make of it together. */
module RepeatedColumn {

  import opened Status
  import opened DeltaEncoding
  import C = Chunker
  import K = ChunkerSpec
  import P = Patterns
  import S = StructuredWriterSpec
  import W = StructuredWriter

  /** Values for one column only. */
  function Only(column: nat, value: P.Tensor): S.Data {
    seq(column + 1, i => if i == column then Some(value) else None)
  }

  lemma OnlyIsFresh(s: S.State, column: nat, value: P.Tensor)
    requires |S.Buffers(s)| == |s.history| && !s.open
    ensures S.Fresh(s, Only(column, value))
  {
  }

  /** Having been given, the column is filled in the open step. */
  lemma GivenTwiceRepeats(s: S.State, column: nat, value: P.Tensor)
    requires |S.Buffers(s)| == |s.history| && !s.open && column < |s.history| && s.history[column] > 0
    ensures var s' := S.Append(s, Only(column, value), false, true);
      |S.Buffers(s')| == |s'.history| && S.Repeats(s', Only(column, value), column)
  {
    var s' := S.Append(s, Only(column, value), false, true);
    assert S.Incoming(s, Only(column, value), column).Some?;
    assert s'.columns[column] == S.NextColumn(s, Only(column, value), column, true);
  }

  lemma AcceptedIsNotRefused(configs: seq<S.ConfigState>, columns: seq<P.Column>, report: nat -> Status)
    requires forall k: nat :: report(k) == Ok
    ensures !S.SomeRefused(configs, columns, false, report)
  {
  }

  /** The same step appended twice to a chunker: the second time is refused exactly
      while the chunk is open. */
  method AppendTwice(c: C.Chunker, tensor: K.Tensor, episode: nat, step: int, firstKey: nat, secondKey: nat)
    returns (first: Status, second: Status)
    requires c.Valid() && !c.s.options.compressionDisabled && C.Joins(c.s, episode, step)
    requires tensor.dtype == c.spec.dtype && tensor.shape == c.spec.shape
    requires RowFits(tensor.data, c.spec.width, c.spec.modulus)
    requires K.FreshKey(c.s, c.h, firstKey) && firstKey != secondKey && K.FreshKey(c.s, c.h, secondKey)
    modifies c
    ensures first == Ok
    ensures second == if |old(c.s.buffer)| + 1 >= old(c.s.options.maxChunkLength) then Ok else FailedPrecondition
  {
    var ref;
    first, ref := c.Append(tensor, episode, step, firstKey);
    C.RepeatAcceptedIff(c.spec, c.s, c.h, ref);
    second, ref := c.Append(tensor, episode, step, secondKey);
  }

  ghost predicate AllGuarded(s: S.State) {
    forall i :: 0 <= i < |s.configs| ==> P.Guarded(s.configs[i].config)
  }

  /** Applying the configs after the first value reads no cell outside the buffers. */
  ghost predicate Applicable(s: S.State, column: nat, value: P.Tensor) {
    |S.Buffers(s)| == |s.history| &&
      W.AllReadInside(s.configs, S.NextColumns(s, Only(column, value), true), false)
  }

  method GiveOnce(w: W.StructuredWriter, column: nat, value: P.Tensor, report: nat -> Status) returns (status: Status)
    requires w.Valid() && !w.s.open && Applicable(w.s, column, value) && forall k: nat :: report(k) == Ok
    modifies w
    ensures status == Ok && w.Valid() && w.s == S.Append(old(w.s), Only(column, value), false, true)
  {
    var data := Only(column, value);
    OnlyIsFresh(w.s, column, value);
    AcceptedIsNotRefused(w.s.configs, S.NextColumns(w.s, data, true), report);
    status := w.AppendInternal(data, false, Ok, report);
  }

  /** The same column given twice to a structured writer, when the wrapped writer
      takes the first value and answers `written` to the second. */
  method GiveTwiceToWriter(w: W.StructuredWriter, column: nat, value: P.Tensor, written: Status) returns (status: Status)
    requires w.Valid() && !w.s.open && column < |w.s.history| && w.s.history[column] > 0 && Applicable(w.s, column, value)
    modifies w
    ensures status == if written == Ok then Internal else written
  {
    var report := (k: nat) => Ok;
    GivenTwiceRepeats(w.s, column, value);
    status := GiveOnce(w, column, value, report);
    status := w.AppendInternal(Only(column, value), true, written, report);
  }

  /** A column of a new step is given in a partial call and then again. The chunker
      refuses the repetition exactly while its chunk is open. Otherwise it takes the
      value, and the structured writer runs into the error that it declares
      impossible. */
  method GiveTwice(c: C.Chunker, w: W.StructuredWriter, column: nat, value: P.Tensor, tensor: K.Tensor,
                   firstKey: nat, secondKey: nat) returns (status: Status)
    requires c.Valid() && !c.s.options.compressionDisabled && C.Joins(c.s, w.s.info.episode, w.s.info.step)
    requires tensor.dtype == c.spec.dtype && tensor.shape == c.spec.shape
    requires RowFits(tensor.data, c.spec.width, c.spec.modulus)
    requires K.FreshKey(c.s, c.h, firstKey) && firstKey != secondKey && K.FreshKey(c.s, c.h, secondKey)
    requires w.Valid() && !w.s.open && column < |w.s.history| && w.s.history[column] > 0 && Applicable(w.s, column, value)
    modifies c, w
    ensures status == if |old(c.s.buffer)| + 1 >= old(c.s.options.maxChunkLength) then Internal else FailedPrecondition
  {
    var first, second := AppendTwice(c, tensor, w.s.info.episode, w.s.info.step, firstKey, secondKey);
    status := GiveTwiceToWriter(w, column, value, second);
  }

  /** A writer with one config, which takes the newest cell of one column. */
  method NewestWriter() returns (w: W.StructuredWriter)
    ensures fresh(w) && w.Valid() && !w.s.open && AllGuarded(w.s)
    ensures w.s.info == P.Info(1, 0) && w.s.history != [] && w.s.history[0] > 0
  {
    var node := P.Node(0, None, Some(-1), None);
    var guard := P.Condition(P.BufferLength(true), P.Ge(1), false);
    var config := P.Config("t", [node], [guard]);
    NewestOnly(node, guard);
    w := new W.StructuredWriter([config], 1);
    assert w.s.configs[0].config == config && node in config.nodes;
  }

  /** Chunks of one cell make the impossible error real on the very first step. */
  method ImpossibleError() returns (status: Status)
    ensures status == Internal
  {
    var w := NewestWriter();
    W.SafeAppend(w.s, w.full, Only(0, P.Other));
    var c := new C.Chunker(K.Spec(0, [], 1, 256, true), K.Options(1, 1, false, false), 1);
    status := GiveTwice(c, w, 0, P.Other, K.Tensor(0, [], [7]), 2, 3);
  }

  lemma NewestOnly(node: P.Node, guard: P.Condition)
    requires node == P.Node(0, None, Some(-1), None) && guard == P.Condition(P.BufferLength(true), P.Ge(1), false)
    ensures P.Accepted(P.Config("t", [node], [guard])) && P.Guarded(P.Config("t", [node], [guard]))
  {
    assert [node][..0] == [] && P.OldestAge([node]) == 1;
    assert guard in [guard] && P.LooksLikeGuard(guard, 1);
  }
}
