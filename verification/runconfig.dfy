/**
  The flush-interval and reorg settings `sinkRunE` derives from its command
  flags before it builds the loader.
 */
module RunConfig {

  import opened Changes
  import opened Apply
  import Sinker

  /** The flag values read by `sinkRunE`. */
  datatype Flags = Flags(
    undoBufferSize: i64,
    batchBlockFlushInterval: i64,
    batchRowFlushInterval: i64,
    liveBlockFlushInterval: i64,
    flushInterval: i64)

  /** The flag defaults the command declares. */
  const DefaultFlags := Flags(
    undoBufferSize := 0,
    batchBlockFlushInterval := 1_000,
    batchRowFlushInterval := 100_000,
    liveBlockFlushInterval := 1,
    flushInterval := 0)

  /** The settings handed to the loader. */
  datatype LoaderSettings = LoaderSettings(
    batchBlockFlushInterval: i64,
    batchRowFlushInterval: i64,
    liveBlockFlushInterval: i64,
    handleReorgs: bool)

  /** The deprecated `flush-interval`, when non-zero, overrides `batch-block-flush-interval`. */
  function Resolve(flags: Flags): (s: LoaderSettings)
    ensures flags.flushInterval != 0 ==> s.batchBlockFlushInterval == flags.flushInterval
    ensures flags.flushInterval == 0 ==> s.batchBlockFlushInterval == flags.batchBlockFlushInterval
    ensures s.handleReorgs <==> flags.undoBufferSize == 0
    ensures s.batchRowFlushInterval == flags.batchRowFlushInterval
    ensures s.liveBlockFlushInterval == flags.liveBlockFlushInterval
  {
    var batchBlockFlushInterval :=
      if flags.flushInterval != 0 then flags.flushInterval else flags.batchBlockFlushInterval;
    LoaderSettings(
      batchBlockFlushInterval,
      flags.batchRowFlushInterval,
      flags.liveBlockFlushInterval,
      flags.undoBufferSize == 0)
  }

  /** With a legacy value set, the newer flag no longer matters. */
  lemma LegacyIntervalWins(flags: Flags, batchBlockFlushInterval: i64)
    requires flags.flushInterval != 0
    ensures Resolve(flags.(batchBlockFlushInterval := batchBlockFlushInterval)) == Resolve(flags)
  {
  }

  /** Defaults: flush every 1000 catch-up blocks or 100000 rows, every live block, reorgs handled. */
  lemma DefaultSettings()
    ensures Resolve(DefaultFlags) == LoaderSettings(1_000, 100_000, 1, true)
  {
  }

  /** The sinker's view of a loader built with `settings`. */
  function Configure(loader: Loader, settings: LoaderSettings): (l: Loader)
    ensures l.tables == loader.tables && l.identifier == loader.identifier
    ensures l.batchBlockFlushInterval == settings.batchBlockFlushInterval
    ensures l.liveBlockFlushInterval == settings.liveBlockFlushInterval
  {
    loader.(batchBlockFlushInterval := settings.batchBlockFlushInterval,
            liveBlockFlushInterval := settings.liveBlockFlushInterval)
  }

  /**
    With default flags a catch-up block flushes exactly at multiples of 1000
    (or when the loader asks for it), and every live block flushes.
   */
  lemma DefaultFlushSchedule(loader: Loader, blockNum: u64, flushNeeded: bool)
    ensures var l := Configure(loader, Resolve(DefaultFlags));
      && (Sinker.FlushDue(l, false, blockNum, flushNeeded) <==> blockNum % 1000 == 0 || flushNeeded)
      && Sinker.FlushDue(l, true, blockNum, flushNeeded)
  {
    var l := Configure(loader, Resolve(DefaultFlags));
    Sinker.FlushTrigger(l, blockNum, flushNeeded);
  }
}
