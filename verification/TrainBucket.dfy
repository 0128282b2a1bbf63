/** The bucket that limits how many epochs are trained per new data row: a token bucket with a cap. */
module TrainBucket {
  import opened Util

  datatype Settings = Settings(
    fillPerNewRow: real,       // max_train_bucket_per_new_data
    maxBucketSize: real,
    samplesPerEpoch: real)

  predicate SettingsOk(s: Settings) { s.samplesPerEpoch > 0.0 && s.fillPerNewRow >= 0.0 }

  function Cap(s: Settings): real { MaxR(s.maxBucketSize, s.samplesPerEpoch) }

  /** atRow: the row count up to which the bucket has been filled; none before the first data. */
  datatype Bucket = Bucket(trainBucketLevel: real, levelAtRow: Option<int>)

  /** What the main loop meets: shuffled data with a new row count, or its own wish to train an epoch. */
  datatype Event = DataLoaded(totalRows: int) | WantsEpoch

  function StartBucket(s: Settings): Bucket { Bucket(s.samplesPerEpoch, None) }

  /** Rows that count as new: none on the first load, and none when the count went backward. */
  function NewRows(b: Bucket, e: Event): int {
    match e
    case DataLoaded(total) => if b.levelAtRow.Some? && total > b.levelAtRow.value then total - b.levelAtRow.value else 0
    case WantsEpoch => 0
  }

  predicate CanTrain(s: Settings, b: Bucket) { b.trainBucketLevel > 0.99 * s.samplesPerEpoch }

  function Epochs(s: Settings, b: Bucket, e: Event): nat { if e.WantsEpoch? && CanTrain(s, b) then 1 else 0 }

  function After(s: Settings, b: Bucket, e: Event): Bucket {
    match e
    case DataLoaded(total) =>
      if NewRows(b, e) > 0 then Bucket(MinR(b.trainBucketLevel + NewRows(b, e) as real * s.fillPerNewRow, Cap(s)), Some(total))
      else b.(levelAtRow := Some(total))
    case WantsEpoch => if CanTrain(s, b) then b.(trainBucketLevel := b.trainBucketLevel - s.samplesPerEpoch) else b
  }

  class TrainState {
    const settings: Settings
    var trainBucketLevel: real
    var trainBucketLevelAtRow: Option<int>

    function State(): Bucket
      reads this
    {
      Bucket(trainBucketLevel, trainBucketLevelAtRow)
    }

    constructor (settings: Settings)
      ensures this.settings == settings && State() == StartBucket(settings)
    {
      this.settings := settings;
      trainBucketLevel := settings.samplesPerEpoch;
      trainBucketLevelAtRow := None;
    }

    /** New shuffled data: fill for the rows that are new, or go back to a smaller row count. */
    method FillBucket(totalNumDataRows: int)
      modifies this
      ensures State() == After(settings, old(State()), DataLoaded(totalNumDataRows))
    {
      if trainBucketLevelAtRow == None {
        trainBucketLevelAtRow := Some(totalNumDataRows);
      }
      if totalNumDataRows > trainBucketLevelAtRow.value {
        var newRowCount := totalNumDataRows - trainBucketLevelAtRow.value;
        trainBucketLevelAtRow := Some(totalNumDataRows);
        trainBucketLevel := trainBucketLevel + newRowCount as real * settings.fillPerNewRow;
        var cap := MaxR(settings.maxBucketSize, settings.samplesPerEpoch);
        if trainBucketLevel > cap {
          trainBucketLevel := cap;
        }
      }
      if totalNumDataRows < trainBucketLevelAtRow.value {
        trainBucketLevelAtRow := Some(totalNumDataRows);
      }
    }

    /** Take one epoch's rows out of the bucket, or refuse. */
    method TakeEpoch() returns (train: bool)
      modifies this
      ensures State() == After(settings, old(State()), WantsEpoch)
      ensures train <==> Epochs(settings, old(State()), WantsEpoch) == 1
    {
      train := trainBucketLevel > 0.99 * settings.samplesPerEpoch;
      if train {
        trainBucketLevel := trainBucketLevel - settings.samplesPerEpoch;
      }
    }
  }

  // ---------------------------------------------------------------------------------------------
  // Whole runs

  function RunFrom(s: Settings, b: Bucket, events: seq<Event>): Bucket
    decreases |events|
  {
    if events == [] then b else RunFrom(s, After(s, b, events[0]), events[1..])
  }

  function EpochsIn(s: Settings, b: Bucket, events: seq<Event>): nat
    decreases |events|
  {
    if events == [] then 0 else Epochs(s, b, events[0]) + EpochsIn(s, After(s, b, events[0]), events[1..])
  }

  function NewRowsIn(s: Settings, b: Bucket, events: seq<Event>): int
    decreases |events|
  {
    if events == [] then 0 else NewRows(b, events[0]) + NewRowsIn(s, After(s, b, events[0]), events[1..])
  }

  /** Above minus a hundredth of an epoch, and no more than the cap. */
  predicate InBounds(s: Settings, b: Bucket) {
    -0.01 * s.samplesPerEpoch < b.trainBucketLevel <= Cap(s)
  }

  lemma StartInBounds(s: Settings)
    requires SettingsOk(s)
    ensures InBounds(s, StartBucket(s))
  {
  }

  lemma StepInBounds(s: Settings, b: Bucket, e: Event)
    requires SettingsOk(s) && InBounds(s, b)
    ensures InBounds(s, After(s, b, e))
  {
    if NewRows(b, e) > 0 {
      assert NewRows(b, e) as real * s.fillPerNewRow >= 0.0;
    }
  }

  /** In every run the level stays within its bounds. */
  lemma {:induction false} RunInBounds(s: Settings, b: Bucket, events: seq<Event>)
    requires SettingsOk(s) && InBounds(s, b)
    ensures InBounds(s, RunFrom(s, b, events))
    decreases |events|
  {
    if events != [] {
      StepInBounds(s, b, events[0]);
      RunInBounds(s, After(s, b, events[0]), events[1..]);
    }
  }

  lemma Distribute(a: int, b: int, r: real)
    ensures (a + b) as real * r == a as real * r + b as real * r
  {
  }

  /** What a fill spills over the cap. */
  function Spilled(s: Settings, b: Bucket, e: Event): real {
    if NewRows(b, e) > 0 then MaxR(b.trainBucketLevel + NewRows(b, e) as real * s.fillPerNewRow - Cap(s), 0.0) else 0.0
  }

  function SpilledIn(s: Settings, b: Bucket, events: seq<Event>): real
    decreases |events|
  {
    if events == [] then 0.0 else Spilled(s, b, events[0]) + SpilledIn(s, After(s, b, events[0]), events[1..])
  }

  lemma StepAccounts(s: Settings, b: Bucket, e: Event)
    ensures Epochs(s, b, e) as real * s.samplesPerEpoch + Spilled(s, b, e)
         == b.trainBucketLevel - After(s, b, e).trainBucketLevel + NewRows(b, e) as real * s.fillPerNewRow
    ensures Spilled(s, b, e) >= 0.0
  {
  }

  /** In every run the rows trained on, what the level gained and what was spilled make up the whole fill. */
  lemma {:induction false} RowsAreAccountedFor(s: Settings, b: Bucket, events: seq<Event>)
    ensures EpochsIn(s, b, events) as real * s.samplesPerEpoch + SpilledIn(s, b, events)
         == b.trainBucketLevel - RunFrom(s, b, events).trainBucketLevel + NewRowsIn(s, b, events) as real * s.fillPerNewRow
    ensures SpilledIn(s, b, events) >= 0.0
    decreases |events|
  {
    hide After, Epochs, NewRows, Spilled;
    if events != [] {
      var b' := After(s, b, events[0]);
      RowsAreAccountedFor(s, b', events[1..]);
      StepAccounts(s, b, events[0]);
      Distribute(Epochs(s, b, events[0]), EpochsIn(s, b', events[1..]), s.samplesPerEpoch);
      Distribute(NewRows(b, events[0]), NewRowsIn(s, b', events[1..]), s.fillPerNewRow);
    }
  }

  /**
   Over any stretch of any run the rows trained on stay below the cap, plus a hundredth of an
   epoch, plus the fill for the rows that were new; row counts may go backward in between.
   */
  lemma WindowBound(s: Settings, before: seq<Event>, window: seq<Event>)
    requires SettingsOk(s)
    ensures var b := RunFrom(s, StartBucket(s), before);
            EpochsIn(s, b, window) as real * s.samplesPerEpoch
            < Cap(s) + 0.01 * s.samplesPerEpoch + NewRowsIn(s, b, window) as real * s.fillPerNewRow
  {
    hide *;
    var b := RunFrom(s, StartBucket(s), before);
    StartInBounds(s);
    RunInBounds(s, StartBucket(s), before);
    RunInBounds(s, b, window);
    BoundsAre(s, b);
    BoundsAre(s, RunFrom(s, b, window));
    RowsAreAccountedFor(s, b, window);
    Combine(EpochsIn(s, b, window) as real * s.samplesPerEpoch, b.trainBucketLevel,
            RunFrom(s, b, window).trainBucketLevel, NewRowsIn(s, b, window) as real * s.fillPerNewRow, Cap(s),
            s.samplesPerEpoch);
  }

  lemma BoundsAre(s: Settings, b: Bucket)
    requires InBounds(s, b)
    ensures -0.01 * s.samplesPerEpoch < b.trainBucketLevel && b.trainBucketLevel <= Cap(s)
  {
  }

  lemma Combine(rows: real, level: real, level': real, fill: real, cap: real, epoch: real)
    requires rows <= level - level' + fill && level <= cap && -0.01 * epoch < level'
    ensures rows < cap + 0.01 * epoch + fill
  {
  }

  /** No fill of the run comes above the cap. */
  ghost predicate NeverCapped(s: Settings, b: Bucket, events: seq<Event>)
    decreases |events|
  {
    events != [] ==>
      && b.trainBucketLevel + NewRows(b, events[0]) as real * s.fillPerNewRow <= Cap(s)
      && NeverCapped(s, After(s, b, events[0]), events[1..])
  }

  /** Nothing is spilled unless a fill comes above the cap; so then every row of the fill is trained on or kept. */
  lemma {:induction false} UncappedRowsAreExact(s: Settings, b: Bucket, events: seq<Event>)
    requires NeverCapped(s, b, events)
    ensures SpilledIn(s, b, events) == 0.0
    ensures EpochsIn(s, b, events) as real * s.samplesPerEpoch
         == b.trainBucketLevel - RunFrom(s, b, events).trainBucketLevel + NewRowsIn(s, b, events) as real * s.fillPerNewRow
    decreases |events|
  {
    RowsAreAccountedFor(s, b, events);
    hide After, Epochs, NewRows;
    if events != [] {
      UncappedRowsAreExact(s, After(s, b, events[0]), events[1..]);
    }
  }

  /** One load: the level rises by the fill for the rows that are new, up to the cap; a capped fill ends at the cap. */
  lemma FillIsExact(s: Settings, b: Bucket, total: int)
    requires SettingsOk(s) && InBounds(s, b) && b.levelAtRow.Some?
    ensures var after, fill := After(s, b, DataLoaded(total)), (total - b.levelAtRow.value) as real * s.fillPerNewRow;
      && after.levelAtRow == Some(total)
      && (total <= b.levelAtRow.value ==> after.trainBucketLevel == b.trainBucketLevel)
      && (total > b.levelAtRow.value && b.trainBucketLevel + fill < Cap(s) ==> after.trainBucketLevel == b.trainBucketLevel + fill)
      && (total > b.levelAtRow.value && b.trainBucketLevel + fill >= Cap(s) ==> after.trainBucketLevel == Cap(s))
  {
  }

  /** The row count of the last data loaded in a run. */
  function LastTotal(events: seq<Event>, start: int): int {
    if events == [] then start
    else if events[|events| - 1].DataLoaded? then events[|events| - 1].totalRows
    else LastTotal(events[..|events| - 1], start)
  }

  lemma {:induction false} LastTotalFrom(events: seq<Event>, start: int)
    requires events != []
    ensures LastTotal(events, start) ==
            LastTotal(events[1..], if events[0].DataLoaded? then events[0].totalRows else start)
  {
    var n := |events| - 1;
    if n > 0 {
      assert events[1..][..n - 1] == events[..n][1..];
      if !events[n].DataLoaded? {
        LastTotalFrom(events[..n], start);
      }
    }
  }

  /** While row counts never go backward, each row counts exactly once. */
  lemma {:induction false} MonotoneRowsCountOnce(s: Settings, b: Bucket, events: seq<Event>)
    requires b.levelAtRow.Some?
    requires forall i :: 0 <= i < |events| && events[i].DataLoaded? ==> b.levelAtRow.value <= events[i].totalRows
    requires forall i, j :: 0 <= i < j < |events| && events[i].DataLoaded? && events[j].DataLoaded? ==>
      events[i].totalRows <= events[j].totalRows
    ensures RunFrom(s, b, events).levelAtRow == Some(LastTotal(events, b.levelAtRow.value))
    ensures NewRowsIn(s, b, events) == LastTotal(events, b.levelAtRow.value) - b.levelAtRow.value
    decreases |events|
  {
    if events != [] {
      LastTotalFrom(events, b.levelAtRow.value);
      MonotoneRowsCountOnce(s, After(s, b, events[0]), events[1..]);
    }
  }
}
