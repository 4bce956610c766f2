/**
  The SQL sinker as a state machine over its loader: handling one block's
  data, the flush guard, undo delegation, the flush-interval choice and the
  startup cursor decision.
 */
module Sinker {

  import opened Results
  import opened Changes
  import opened Apply

  /** The interval value that turns block-count flushing off. */
  const BlockFlushIntervalDisabled: u64 := 0

  /** The output module the sinker was built for, by name and by hash. */
  datatype Stream = Stream(outputModuleName: string, outputModuleHash: string)

  /** The calls made into the loader so far, and what the last handled block left behind. */
  datatype State = State(log: seq<StoreOp>, lastSeenCursor: Option<Cursor>, lastSeenFinalBlock: u64)

  /** The sinker before its first block. */
  function Initial(log: seq<StoreOp>): State {
    State(log, None, 0)
  }

  /**
    One block of data: the name of the module that produced it, its decoded
    changes (`None` when the module's map output is empty), the block's number
    and the final block height reported with it.
   */
  datatype BlockData = BlockData(outputName: string, mapOutput: Option<seq<TableChange>>, blockNum: u64, finalBlockHeight: u64)

  datatype Step = Step(state: State, outcome: Outcome<Error>)

  /** Go's `uint64(x)` conversion of an `int`: two's-complement reinterpretation. */
  function ToUint64(x: i64): (r: u64)
    ensures x >= 0 ==> r == x
    ensures x < 0 ==> r == x + 0x1_0000_0000_0000_0000
  {
    x % 0x1_0000_0000_0000_0000
  }

  /** `batchBlockModulo`: the block interval that currently triggers a flush. */
  function BatchBlockModulo(loader: Loader, isLive: bool): (modulo: u64)
    // block-count flushing is off exactly when the interval in force is zero, or negative in catch-up mode
    ensures modulo == BlockFlushIntervalDisabled <==>
      if isLive then loader.liveBlockFlushInterval == 0 else loader.batchBlockFlushInterval <= 0
    ensures !isLive && loader.batchBlockFlushInterval > 0 ==> modulo == loader.batchBlockFlushInterval
    ensures isLive && loader.liveBlockFlushInterval >= 0 ==> modulo == loader.liveBlockFlushInterval
    ensures isLive && loader.liveBlockFlushInterval < 0 ==> modulo > 0x7fff_ffff_ffff_ffff
  {
    if isLive then ToUint64(loader.liveBlockFlushInterval)
    else if loader.batchBlockFlushInterval > 0 then ToUint64(loader.batchBlockFlushInterval)
    else BlockFlushIntervalDisabled
  }

  /** Whether handling a block ends with a flush; `flushNeeded` is the loader's own row-count verdict. */
  predicate FlushDue(loader: Loader, isLive: bool, blockNum: u64, flushNeeded: bool): (due: bool)
    // the loader's row-count verdict always forces a flush
    ensures flushNeeded ==> due
    // with block-count flushing off, only that verdict does
    ensures BatchBlockModulo(loader, isLive) == BlockFlushIntervalDisabled ==> (due <==> flushNeeded)
    // block 0 is a multiple of every interval
    ensures blockNum == 0 && BatchBlockModulo(loader, isLive) != BlockFlushIntervalDisabled ==> due
  {
    var modulo := BatchBlockModulo(loader, isLive);
    (modulo > 0 && blockNum % modulo == 0) || flushNeeded
  }

  /**
    The block-count trigger: in catch-up mode every multiple of a positive
    batch interval, never otherwise; in live mode every multiple of the live
    interval, whose negative values wrap to huge unsigned ones; the loader's
    row-count verdict fires in both modes.
   */
  lemma FlushTrigger(loader: Loader, blockNum: u64, flushNeeded: bool)
    ensures loader.batchBlockFlushInterval > 0 ==>
      (FlushDue(loader, false, blockNum, flushNeeded) <==> blockNum % loader.batchBlockFlushInterval == 0 || flushNeeded)
    ensures loader.batchBlockFlushInterval <= 0 ==>
      (FlushDue(loader, false, blockNum, flushNeeded) <==> flushNeeded)
    ensures loader.liveBlockFlushInterval > 0 ==>
      (FlushDue(loader, true, blockNum, flushNeeded) <==> blockNum % loader.liveBlockFlushInterval == 0 || flushNeeded)
    ensures loader.liveBlockFlushInterval == 0 ==>
      (FlushDue(loader, true, blockNum, flushNeeded) <==> flushNeeded)
    ensures loader.liveBlockFlushInterval < 0 ==>
      (FlushDue(loader, true, blockNum, flushNeeded) <==>
        blockNum % (loader.liveBlockFlushInterval + 0x1_0000_0000_0000_0000) == 0 || flushNeeded)
  {
  }

  /** The flush call for a state that has seen a cursor. */
  function FlushOp(stream: Stream, st: State): StoreOp
    requires st.lastSeenCursor.Some?
  {
    Flush(stream.outputModuleHash, st.lastSeenCursor.value, st.lastSeenFinalBlock)
  }

  /** `flush`: commit the pending rows with the last seen cursor, or nothing before the first block. */
  function DoFlush(stream: Stream, loader: Loader, st: State): (r: Step)
    ensures st.lastSeenCursor.None? ==> r == Step(st, Pass)
    ensures st.lastSeenCursor.Some? ==>
      && r.state == st.(log := st.log + [Flush(stream.outputModuleHash, st.lastSeenCursor.value, st.lastSeenFinalBlock)])
      && (r.outcome.Pass? <==> loader.verdict(st.log, FlushOp(stream, st)).None?)
      && (r.outcome.Fail? ==> r.outcome.error == FlushFailed(st.lastSeenCursor.value, loader.verdict(st.log, FlushOp(stream, st)).value))
  {
    match st.lastSeenCursor
    case None => Step(st, Pass)
    case Some(cursor) =>
      var op := FlushOp(stream, st);
      Step(st.(log := st.log + [op]),
        match loader.verdict(st.log, op)
        case None => Pass
        case Some(cause) => Fail(FlushFailed(cursor, cause)))
  }

  /** The loader calls a block's changes make, starting from the current log. */
  function ApplyBlock(loader: Loader, st: State, data: BlockData): Applied {
    match data.mapOutput
    case None => Applied(st.log, Pass)
    case Some(changes) => ApplyChanges(loader, st.log, changes, data.blockNum, data.finalBlockHeight)
  }

  /** `HandleBlockScopedData`: check the module, apply, record the cursor, flush when due. */
  function HandleBlockScopedData(stream: Stream, loader: Loader, st: State, data: BlockData, isLive: bool, cursor: Cursor, flushNeeded: bool): (r: Step)
    // data from another module is rejected and changes nothing
    ensures data.outputName != stream.outputModuleName ==>
      r == Step(st, Fail(WrongOutputModule(stream.outputModuleName, data.outputName)))
    // a failed apply keeps the calls it made but not the block's cursor
    ensures data.outputName == stream.outputModuleName && ApplyBlock(loader, st, data).outcome.Fail? ==>
      r == Step(st.(log := ApplyBlock(loader, st, data).log), Fail(ApplyFailed(ApplyBlock(loader, st, data).outcome.error)))
    // a successful apply records the block's cursor and final height, flushed or not
    ensures data.outputName == stream.outputModuleName && ApplyBlock(loader, st, data).outcome.Pass? ==>
      && r.state.lastSeenCursor == Some(cursor)
      && r.state.lastSeenFinalBlock == data.finalBlockHeight
    // ... and flushes exactly when due, with that cursor and height
    ensures data.outputName == stream.outputModuleName && ApplyBlock(loader, st, data).outcome.Pass? ==>
      var applied := ApplyBlock(loader, st, data).log;
      var flush := Flush(stream.outputModuleHash, cursor, data.finalBlockHeight);
      && (FlushDue(loader, isLive, data.blockNum, flushNeeded) ==> r.state.log == applied + [flush])
      && (!FlushDue(loader, isLive, data.blockNum, flushNeeded) ==> r.state.log == applied && r.outcome.Pass?)
      && (r.outcome.Pass? <==> !FlushDue(loader, isLive, data.blockNum, flushNeeded) || loader.verdict(applied, flush).None?)
      && (r.outcome.Fail? ==> r.outcome.error == FlushFailed(cursor, loader.verdict(applied, flush).value))
  {
    if data.outputName != stream.outputModuleName then
      Step(st, Fail(WrongOutputModule(stream.outputModuleName, data.outputName)))
    else
      var applied := ApplyBlock(loader, st, data);
      if applied.outcome.Fail? then
        Step(st.(log := applied.log), Fail(ApplyFailed(applied.outcome.error)))
      else
        var recorded := State(applied.log, Some(cursor), data.finalBlockHeight);
        if FlushDue(loader, isLive, data.blockNum, flushNeeded) then DoFlush(stream, loader, recorded)
        else Step(recorded, Pass)
  }

  /** How a call of the handler ends: it returns, or Go stops the process with a fatal error. */
  datatype Handled = Returned(step: Step) | Fatal(reason: string)

  /** Go's fatal error for releasing a `sync.Mutex` that is not held. */
  const UnlockOfUnlockedMutex := "sync: unlock of unlocked mutex"

  /**
    `HandleBlockScopedData` as written, with the flush mutex: it is locked only
    inside the branch for a non-empty map output, but released after that
    branch whatever the output was.
   */
  function HandleBlockScopedDataAsWritten(stream: Stream, loader: Loader, st: State, data: BlockData, isLive: bool, cursor: Cursor, flushNeeded: bool): (r: Handled)
    // an empty map output from the right module releases a mutex nobody holds
    ensures data.outputName == stream.outputModuleName && data.mapOutput.None? ==> r == Fatal(UnlockOfUnlockedMutex)
    // every other block ends as the intended handler says
    ensures data.outputName != stream.outputModuleName || data.mapOutput.Some? ==>
      r == Returned(HandleBlockScopedData(stream, loader, st, data, isLive, cursor, flushNeeded))
  {
    if data.outputName != stream.outputModuleName then
      Returned(Step(st, Fail(WrongOutputModule(stream.outputModuleName, data.outputName))))
    else
      var locked := data.mapOutput.Some?;
      var applied := ApplyBlock(loader, st, data);
      if applied.outcome.Fail? then
        Returned(Step(st.(log := applied.log), Fail(ApplyFailed(applied.outcome.error))))
      else if !locked then
        Fatal(UnlockOfUnlockedMutex)
      else
        var recorded := State(applied.log, Some(cursor), data.finalBlockHeight);
        if FlushDue(loader, isLive, data.blockNum, flushNeeded) then Returned(DoFlush(stream, loader, recorded))
        else Returned(Step(recorded, Pass))
  }

  /**
    A block from the right module with an empty map output: as written the
    process dies before the flush decision; the intended handler records the
    block's cursor and final height and goes on to decide the flush.
   */
  lemma EmptyOutputDiverges(stream: Stream, loader: Loader, st: State, blockNum: u64, finalBlockHeight: u64, isLive: bool, cursor: Cursor, flushNeeded: bool)
    ensures var data := BlockData(stream.outputModuleName, None, blockNum, finalBlockHeight);
      && HandleBlockScopedDataAsWritten(stream, loader, st, data, isLive, cursor, flushNeeded).Fatal?
      && var r := HandleBlockScopedData(stream, loader, st, data, isLive, cursor, flushNeeded);
         && r.state.lastSeenCursor == Some(cursor)
         && r.state.lastSeenFinalBlock == finalBlockHeight
         && (!FlushDue(loader, isLive, blockNum, flushNeeded) ==> r == Step(st.(lastSeenCursor := Some(cursor), lastSeenFinalBlock := finalBlockHeight), Pass))
  {
  }

  /** `HandleBlockUndoSignal`: hand the revert to the loader; the sinker's own state is untouched. */
  function HandleBlockUndoSignal(stream: Stream, loader: Loader, st: State, cursor: Cursor, lastValidBlock: u64): (r: Step)
    ensures r.state.lastSeenCursor == st.lastSeenCursor && r.state.lastSeenFinalBlock == st.lastSeenFinalBlock
    ensures r.state.log == st.log + [Revert(stream.outputModuleHash, cursor, lastValidBlock)]
    ensures r.outcome.Pass? <==> loader.verdict(st.log, Revert(stream.outputModuleHash, cursor, lastValidBlock)).None?
    // a rejected revert returns the loader's own error
    ensures r.outcome.Fail? ==>
      r.outcome.error == RevertFailed(loader.verdict(st.log, Revert(stream.outputModuleHash, cursor, lastValidBlock)).value)
  {
    var op := Revert(stream.outputModuleHash, cursor, lastValidBlock);
    Step(st.(log := st.log + [op]),
      match loader.verdict(st.log, op)
      case None => Pass
      case Some(cause) => Fail(RevertFailed(cause)))
  }

  /** The error part of the loader's `GetCursor` answer. */
  datatype CursorError = NoError | NotFound | LoadError(cause: string)

  /** `GetCursor`'s answer: a cursor, whether the stored module hash differs, and an error. */
  datatype CursorLoad = CursorLoad(cursor: Cursor, mismatch: bool, err: CursorError)

  /** The calls made at startup and the cursor the stream starts from, or the shutdown error. */
  datatype Startup = Startup(log: seq<StoreOp>, start: Result<Cursor, Error>)

  /** The cursor branch of `Run`: write a cursor row when there is none or the module changed. */
  function StartCursor(stream: Stream, loader: Loader, log: seq<StoreOp>, load: CursorLoad): (r: Startup)
    // a failing load shuts down without writing
    ensures load.err.LoadError? ==> r == Startup(log, Failure(CursorLoadFailed(load.err.cause)))
    // a found cursor with the same module hash is resumed from without writing
    ensures load.err.NoError? && !load.mismatch ==> r == Startup(log, Success(load.cursor))
    // a missing cursor row is created blank before anything else
    ensures load.err.NotFound? ==> r.log == log + [InsertCursor(stream.outputModuleHash, Blank)]
    // a module mismatch writes the loaded cursor back under the current hash
    ensures load.err.NoError? && load.mismatch ==> r.log == log + [InsertCursor(stream.outputModuleHash, load.cursor)]
    // the stream starts from the loaded cursor whenever startup succeeds
    ensures r.start.Success? ==> r.start.value == load.cursor
    ensures !load.err.LoadError? && |r.log| == |log| + 1 ==>
      (r.start.Success? <==> loader.verdict(log, r.log[|log|]).None?)
    // a rejected cursor write reports which of the two writes failed, with the loader's error
    ensures load.err.NotFound? && r.start.Failure? ==>
      r.start.error == InitialCursorWriteFailed(loader.verdict(log, r.log[|log|]).value)
    ensures load.err.NoError? && load.mismatch && r.start.Failure? ==>
      r.start.error == MismatchCursorWriteFailed(loader.verdict(log, r.log[|log|]).value)
  {
    match load.err
    case LoadError(cause) => Startup(log, Failure(CursorLoadFailed(cause)))
    case NotFound =>
      var op := InsertCursor(stream.outputModuleHash, Blank);
      Startup(log + [op],
        match loader.verdict(log, op)
        case None => Success(load.cursor)
        case Some(cause) => Failure(InitialCursorWriteFailed(cause)))
    case NoError =>
      if load.mismatch then
        var op := InsertCursor(stream.outputModuleHash, load.cursor);
        Startup(log + [op],
          match loader.verdict(log, op)
          case None => Success(load.cursor)
          case Some(cause) => Failure(MismatchCursorWriteFailed(cause)))
      else Startup(log, Success(load.cursor))
  }

  /** One event delivered by the stream. */
  datatype Event =
    | BlockEvent(data: BlockData, isLive: bool, cursor: Cursor, flushNeeded: bool)
    | UndoEvent(cursor: Cursor, lastValidBlock: u64)

  /** Handle events in delivery order until the first error, which ends the stream. */
  function Process(stream: Stream, loader: Loader, st: State, events: seq<Event>): (r: Step)
    ensures st.log <= r.state.log
    decreases |events|
  {
    if |events| == 0 then Step(st, Pass)
    else
      var step := match events[0]
        case BlockEvent(data, isLive, cursor, flushNeeded) =>
          HandleBlockScopedData(stream, loader, st, data, isLive, cursor, flushNeeded)
        case UndoEvent(cursor, lastValidBlock) =>
          HandleBlockUndoSignal(stream, loader, st, cursor, lastValidBlock);
      if step.outcome.Fail? then step
      else Process(stream, loader, step.state, events[1..])
  }

  /** Whether any block event occurs in `events`. */
  predicate HasBlock(events: seq<Event>) {
    exists i :: 0 <= i < |events| && events[i].BlockEvent?
  }

  /** The last block event of a list that has one. */
  function LastBlock(events: seq<Event>): (e: Event)
    requires HasBlock(events)
    ensures e.BlockEvent? && e in events
  {
    var last := events[|events| - 1];
    if last.BlockEvent? then last
    else
      assert HasBlock(events[..|events| - 1]) by {
        var i :| 0 <= i < |events| && events[i].BlockEvent?;
        assert events[..|events| - 1][i] == events[i];
      }
      LastBlock(events[..|events| - 1])
  }

  /**
    After a stream of events handled without error, the sinker's cursor and
    final height are those of the last block; undo signals in between do not
    move them.
   */
  lemma {:induction false} ProcessRecordsLastBlock(stream: Stream, loader: Loader, st: State, events: seq<Event>)
    requires Process(stream, loader, st, events).outcome.Pass?
    ensures HasBlock(events) ==>
      && Process(stream, loader, st, events).state.lastSeenCursor == Some(LastBlock(events).cursor)
      && Process(stream, loader, st, events).state.lastSeenFinalBlock == LastBlock(events).data.finalBlockHeight
    ensures !HasBlock(events) ==>
      && Process(stream, loader, st, events).state.lastSeenCursor == st.lastSeenCursor
      && Process(stream, loader, st, events).state.lastSeenFinalBlock == st.lastSeenFinalBlock
    decreases |events|
  {
    if |events| > 0 {
      var e := events[0];
      var step := match e
        case BlockEvent(data, isLive, cursor, flushNeeded) =>
          HandleBlockScopedData(stream, loader, st, data, isLive, cursor, flushNeeded)
        case UndoEvent(cursor, lastValidBlock) =>
          HandleBlockUndoSignal(stream, loader, st, cursor, lastValidBlock);
      var rest := events[1..];
      ProcessRecordsLastBlock(stream, loader, step.state, rest);
      assert events == [e] + rest;
      if HasBlock(rest) {
        assert LastBlock(events) == LastBlock(rest) by { LastBlockOfSuffix(e, rest); }
      } else if e.BlockEvent? {
        assert LastBlock(events) == e by { LastBlockIsFirst(e, rest); }
      } else {
        assert !HasBlock(events) by {
          forall i | 0 <= i < |events| ensures !events[i].BlockEvent? {
            if i > 0 {
              assert events[i] == rest[i - 1];
            }
          }
        }
      }
    }
  }

  /**
    From a fresh sinker, a stream handled without error that held no block
    has seen no cursor, so a flush then writes nothing and succeeds.
   */
  lemma NoFlushBeforeFirstBlock(stream: Stream, loader: Loader, log: seq<StoreOp>, events: seq<Event>)
    requires Process(stream, loader, Initial(log), events).outcome.Pass?
    requires !HasBlock(events)
    ensures Process(stream, loader, Initial(log), events).state.lastSeenCursor.None?
    ensures var st := Process(stream, loader, Initial(log), events).state;
      DoFlush(stream, loader, st) == Step(st, Pass)
  {
    ProcessRecordsLastBlock(stream, loader, Initial(log), events);
  }

  /**
    The cursor row written at startup comes before everything the stream
    then makes the loader do: every later flush, which only updates the
    cursor row, finds it already written.
   */
  lemma CursorRowFirst(stream: Stream, loader: Loader, log: seq<StoreOp>, load: CursorLoad, events: seq<Event>)
    requires StartCursor(stream, loader, log, load).start.Success?
    requires load.err.NotFound? || load.mismatch
    ensures var written := StartCursor(stream, loader, log, load).log;
      var after := Process(stream, loader, Initial(written), events).state.log;
      && written == log + [InsertCursor(stream.outputModuleHash, if load.err.NotFound? then Blank else load.cursor)]
      && written <= after
  {
  }

  /** A block event later in the list is the last one wherever the list begins. */
  lemma {:induction false} LastBlockOfSuffix(e: Event, rest: seq<Event>)
    requires HasBlock(rest)
    ensures HasBlock([e] + rest) && LastBlock([e] + rest) == LastBlock(rest)
    decreases |rest|
  {
    var events := [e] + rest;
    var i :| 0 <= i < |rest| && rest[i].BlockEvent?;
    assert events[i + 1] == rest[i];
    if !rest[|rest| - 1].BlockEvent? {
      var front := rest[..|rest| - 1];
      assert events[..|events| - 1] == [e] + front;
      assert HasBlock(front) by {
        assert i < |rest| - 1;
        assert front[i] == rest[i];
      }
      LastBlockOfSuffix(e, front);
    }
  }

  /** Without block events after it, a leading block event is the last one. */
  lemma {:induction false} LastBlockIsFirst(e: Event, rest: seq<Event>)
    requires e.BlockEvent? && !HasBlock(rest)
    ensures HasBlock([e] + rest) && LastBlock([e] + rest) == e
    decreases |rest|
  {
    var events := [e] + rest;
    assert events[0] == e;
    if |rest| > 0 {
      var front := rest[..|rest| - 1];
      assert events[..|events| - 1] == [e] + front;
      assert !HasBlock(front) by {
        forall i | 0 <= i < |front| ensures !front[i].BlockEvent? {
          assert front[i] == rest[i];
        }
      }
      assert !rest[|rest| - 1].BlockEvent?;
      LastBlockIsFirst(e, front);
    }
  }
}
