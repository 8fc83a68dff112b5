/** `RateLimiter`: keeps the cursor `inserts * samples_per_insert - samples`
    inside a corridor, and the parameter checks of the Python wrappers. */
module RateLimiter {

  datatype Config = Config(samplesPerInsert: real, minSizeToSample: int, minDiff: real, maxDiff: real)

  /** What the constructor insists on. */
  predicate ValidConfig(c: Config) {
    c.minSizeToSample > 0 && c.samplesPerInsert > 0.0
  }

  datatype Limiter = Limiter(config: Config, inserts: nat, samples: nat, deletes: nat)
  {
    function Cursor(): real {
      inserts as real * config.samplesPerInsert - samples as real
    }

    predicate CanSample(n: nat)
      requires n > 0
    {
      && inserts - deletes >= config.minSizeToSample
      && Cursor() - n as real >= config.minDiff
    }

    predicate CanInsert(n: nat)
      requires n > 0
    {
      || inserts + n - deletes <= config.minSizeToSample
      || (n + inserts) as real * config.samplesPerInsert - samples as real <= config.maxDiff
    }
  }

  function Fresh(c: Config): Limiter {
    Limiter(c, 0, 0, 0)
  }

  // ---------------------------------------------------------------------
  // The corridor, on every run
  // ---------------------------------------------------------------------

  datatype Event = Inserted | Sampled | Deleted | WasReset

  /** Inserts and samples happen only when permitted; deletes happen at will. */
  ghost predicate Moves(l: Limiter, e: Event, l': Limiter) {
    match e
    case Inserted => l.CanInsert(1) && l' == l.(inserts := l.inserts + 1)
    case Sampled => l.CanSample(1) && l' == l.(samples := l.samples + 1)
    case Deleted => l' == l.(deletes := l.deletes + 1)
    case WasReset => l' == Fresh(l.config)
  }

  ghost predicate IsRun(trace: seq<Limiter>, events: seq<Event>) {
    && |trace| == |events| + 1
    && trace[0] == Fresh(trace[0].config) && ValidConfig(trace[0].config)
    && forall i :: 0 <= i < |events| ==> Moves(trace[i], events[i], trace[i + 1])
  }

  ghost predicate InCorridor(l: Limiter) {
    && (l.samples > 0 ==> l.Cursor() >= l.config.minDiff)
    && (l.Cursor() <= l.config.maxDiff || l.inserts - l.deletes <= l.config.minSizeToSample)
  }

  lemma CursorMoves(l: Limiter)
    ensures l.(inserts := l.inserts + 1).Cursor() == l.Cursor() + l.config.samplesPerInsert
    ensures l.(samples := l.samples + 1).Cursor() == l.Cursor() - 1.0
    ensures (1 + l.inserts) as real * l.config.samplesPerInsert - l.samples as real
         == l.Cursor() + l.config.samplesPerInsert
  {
    var r := l.config.samplesPerInsert;
    assert (l.inserts + 1) as real * r == l.inserts as real * r + r;
  }

  /** An insert or sample is permitted exactly if the limiter is on the right side of the
      corridor afterwards; inserts also while the table is small, and samples only once
      it is large enough. */
  lemma PermittedIff(l: Limiter)
    ensures var l' := l.(inserts := l.inserts + 1);
      l.CanInsert(1) <==> l'.Cursor() <= l.config.maxDiff || l'.inserts - l'.deletes <= l.config.minSizeToSample
    ensures var l' := l.(samples := l.samples + 1);
      l.CanSample(1) <==> l'.Cursor() >= l.config.minDiff && l'.inserts - l'.deletes >= l.config.minSizeToSample
  {
    CursorMoves(l);
  }

  lemma StepStaysInCorridor(l: Limiter, e: Event, l': Limiter)
    requires ValidConfig(l.config) && InCorridor(l) && Moves(l, e, l')
    ensures InCorridor(l') && l'.config == l.config
  {
    CursorMoves(l);
    if e.WasReset? {
      assert l'.Cursor() == 0.0;
    }
  }

  /** On every run, with deletes at any time: once a sample was committed the
      cursor is at least `minDiff`, and it never exceeds `maxDiff` unless the
      table is no larger than the minimum size. */
  lemma {:induction false} Corridor(trace: seq<Limiter>, events: seq<Event>, n: nat)
    requires IsRun(trace, events) && n < |trace|
    ensures trace[n].config == trace[0].config && InCorridor(trace[n])
  {
    if n == 0 {
      assert trace[0].Cursor() == 0.0;
    } else {
      Corridor(trace, events, n - 1);
      StepStaysInCorridor(trace[n - 1], events[n - 1], trace[n]);
    }
  }

  // ---------------------------------------------------------------------
  // Parameter checks
  // ---------------------------------------------------------------------

  datatype ErrorBuffer = Single(error: real) | Range(low: real, high: real)

  datatype Checked = Accepted(config: Config) | ValueError

  function Max(a: real, b: real): real {
    if a < b then b else a
  }

  /** The constructor of `SampleToInsertRatio`. */
  function SampleToInsertRatio(samplesPerInsert: real, minSizeToSample: int, buffer: ErrorBuffer): Checked {
    var offset := samplesPerInsert * minSizeToSample as real;
    var (minDiff, maxDiff) :=
      match buffer
      case Single(e) => (offset - e, offset + e)
      case Range(low, high) => (low, high);
    if samplesPerInsert <= 0.0 then ValueError
    else if maxDiff - minDiff < 2.0 * Max(1.0, samplesPerInsert) then ValueError
    else if minDiff > offset then ValueError
    else if minSizeToSample < 1 then ValueError
    else Accepted(Config(samplesPerInsert, minSizeToSample, minDiff, maxDiff))
  }

  /** The limiter of a queue or stack table of the given size. */
  function QueueConfig(size: nat): Config {
    Config(1.0, 1, 0.0, size as real)
  }

  /** A corridor wider than one sample plus one insert never blocks both sides,
      whatever the counters, even after arbitrary deletes. */
  lemma WideCorridorNeverBlocksBoth(l: Limiter)
    requires l.config.maxDiff - l.config.minDiff >= 1.0 + l.config.samplesPerInsert
    ensures l.CanInsert(1) || l.CanSample(1)
  {
    CursorMoves(l);
  }

  /** Which parameters are accepted, and what limiter they give. */
  lemma RatioIff(samplesPerInsert: real, minSize: int, buffer: ErrorBuffer)
    ensures var offset := samplesPerInsert * minSize as real;
      var c := SampleToInsertRatio(samplesPerInsert, minSize, buffer);
      && (c.Accepted? ==> c.config.samplesPerInsert == samplesPerInsert && c.config.minSizeToSample == minSize)
      && match buffer
         case Single(e) =>
           && (c.Accepted? <==> samplesPerInsert > 0.0 && minSize >= 1 && e >= 1.0 && e >= samplesPerInsert)
           && (c.Accepted? ==> c.config.minDiff + e == offset == c.config.maxDiff - e)
         case Range(low, high) =>
           && (c.Accepted? <==>
                 && samplesPerInsert > 0.0 && minSize >= 1 && low <= offset
                 && high - low >= 2.0 && high - low >= 2.0 * samplesPerInsert)
           && (c.Accepted? ==> c.config.minDiff == low && c.config.maxDiff == high)
  {
  }

  /** With a single error bound, the corridor bounds the samples against the inserts that
      came after the table first had its minimum size. */
  lemma SingleBoundsLaterInserts(samplesPerInsert: real, minSize: int, e: real, l: Limiter)
    requires SampleToInsertRatio(samplesPerInsert, minSize, Single(e)) == Accepted(l.config)
    ensures l.config.minDiff <= l.Cursor() <= l.config.maxDiff <==>
      -e <= (l.inserts - minSize) as real * samplesPerInsert - l.samples as real <= e
  {
    assert (l.inserts - minSize) as real * samplesPerInsert
        == l.inserts as real * samplesPerInsert - minSize as real * samplesPerInsert;
  }

  lemma AcceptedRatioNeverBlocksBoth(samplesPerInsert: real, minSize: int, buffer: ErrorBuffer, l: Limiter)
    requires SampleToInsertRatio(samplesPerInsert, minSize, buffer) == Accepted(l.config)
    ensures ValidConfig(l.config)
    ensures l.CanInsert(1) || l.CanSample(1)
  {
    WideCorridorNeverBlocksBoth(l);
  }

  /** Without the width check both sides can block: here after one insert. */
  lemma NarrowCorridorCanBlockBoth() returns (trace: seq<Limiter>)
    ensures IsRun(trace, [Inserted])
    ensures trace[0].config.maxDiff - trace[0].config.minDiff == 1.0
    ensures !trace[1].CanInsert(1) && !trace[1].CanSample(1)
  {
    var c := Config(1.0, 1, 0.5, 1.5);
    trace := [Fresh(c), Limiter(c, 1, 0, 0)];
  }
}
