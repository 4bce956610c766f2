/**
  Applying one block's decoded database changes (`applyDatabaseChanges`):
  table check, primary-key resolution, field collection, reversibility tag
  and dispatch of one loader call per create/update/delete change.
 */
module Apply {

  import opened Results
  import opened Changes

  /**
    What the sinker sees of its loader. The loader's own code is not part of
    this model: key expansion and the verdict on each call are opaque
    functions; a verdict may depend on every call made before it.
   */
  datatype Loader = Loader(
    identifier: string,
    tables: set<string>,
    expandKey: (string, string) -> Result<map<string, string>, string>,
    verdict: (seq<StoreOp>, StoreOp) -> Option<string>,
    batchBlockFlushInterval: i64,
    liveBlockFlushInterval: i64)

  /** The loader calls made so far and whether the last step succeeded. */
  datatype Applied = Applied(log: seq<StoreOp>, outcome: Outcome<Error>)

  /** `blockNum` is tagged on a write exactly when the block is not yet final. */
  function ReversibleAt(blockNum: u64, finalBlockNum: u64): (tag: Option<u64>)
    ensures tag.Some? <==> blockNum > finalBlockNum
    ensures tag.Some? ==> tag.value == blockNum
  {
    if blockNum > finalBlockNum then Some(blockNum) else None
  }

  /** `v` is the value of the last field named `name` in `fields`. */
  ghost predicate IsLastValue(fields: seq<Field>, name: string, v: string) {
    exists i :: 0 <= i < |fields| && fields[i] == Field(name, v)
      && forall j :: i < j < |fields| ==> fields[j].name != name
  }

  /** The column names that occur in `fields`. */
  function Names(fields: seq<Field>): set<string> {
    set i | 0 <= i < |fields| :: fields[i].name
  }

  /** The column-to-value map built by assigning every field in order. */
  function FieldMap(fields: seq<Field>): (m: map<string, string>)
    ensures m.Keys == Names(fields)
    ensures forall name :: name in m ==> IsLastValue(fields, name, m[name])
  {
    if |fields| == 0 then map[]
    else
      var m := FieldMap(fields[..|fields| - 1]);
      var last := fields[|fields| - 1];
      var m' := m[last.name := last.newValue];
      LastFieldStep(fields, m, m');
      m'
  }

  /** Adding one field at the end keeps the last-value property of every other column. */
  lemma LastFieldStep(fields: seq<Field>, m: map<string, string>, m': map<string, string>)
    requires |fields| > 0
    requires m.Keys == Names(fields[..|fields| - 1])
    requires forall name :: name in m ==> IsLastValue(fields[..|fields| - 1], name, m[name])
    requires m' == m[fields[|fields| - 1].name := fields[|fields| - 1].newValue]
    ensures m'.Keys == Names(fields)
    ensures forall name :: name in m' ==> IsLastValue(fields, name, m'[name])
  {
    var last := fields[|fields| - 1];
    NamesSnoc(fields);
    forall name | name in m' ensures IsLastValue(fields, name, m'[name]) {
      if name == last.name {
        assert fields[|fields| - 1] == Field(name, m'[name]);
      } else {
        LastValueKept(fields, name, m[name]);
      }
    }
  }

  /** The names of a sequence of fields are those of its prefix and of its last field. */
  lemma NamesSnoc(fields: seq<Field>)
    requires |fields| > 0
    ensures Names(fields) == Names(fields[..|fields| - 1]) + {fields[|fields| - 1].name}
  {
    var prefix := fields[..|fields| - 1];
    forall name | name in Names(fields) ensures name in Names(prefix) + {fields[|fields| - 1].name} {
      var i :| 0 <= i < |fields| && fields[i].name == name;
      if i < |prefix| {
        assert prefix[i] == fields[i];
      }
    }
    forall name | name in Names(prefix) ensures name in Names(fields) {
      var i :| 0 <= i < |prefix| && prefix[i].name == name;
      assert fields[i] == prefix[i];
    }
  }

  /** A last value stays last when a field of another name is appended. */
  lemma LastValueKept(fields: seq<Field>, name: string, v: string)
    requires |fields| > 0 && fields[|fields| - 1].name != name
    requires IsLastValue(fields[..|fields| - 1], name, v)
    ensures IsLastValue(fields, name, v)
  {
    var prefix := fields[..|fields| - 1];
    var i :| 0 <= i < |prefix| && prefix[i] == Field(name, v)
      && forall j :: i < j < |prefix| ==> prefix[j].name != name;
    assert fields[i] == prefix[i];
    forall j | i < j < |fields| ensures fields[j].name != name {
      if j < |prefix| {
        assert fields[j] == prefix[j];
      }
    }
  }

  /** Primary-key resolution: a single key goes through the loader, a composite one is used as is. */
  function ResolveKeys(loader: Loader, change: TableChange): Result<map<string, string>, Error> {
    match change.primaryKey
    case Pk(pk) =>
      (match loader.expandKey(change.table, pk)
       case Success(keys) => Success(keys)
       case Failure(cause) => Failure(KeyExpansion(cause)))
    case CompositePk(keys) => Success(keys)
    case NoKey => Failure(UnknownKeyType)
  }

  /** The error a rejected row write is reported with. */
  function WriteError(op: StoreOp, cause: string): Error {
    match op
    case InsertRow(_, _, _, _) => InsertFailed(cause)
    case UpdateRow(_, _, _, _) => UpdateFailed(cause)
    case _ => DeleteFailed(cause)
  }

  /** Make one loader call and report the loader's verdict on it. */
  function Dispatch(loader: Loader, log: seq<StoreOp>, op: StoreOp): Applied {
    Applied(log + [op],
      match loader.verdict(log, op)
      case None => Pass
      case Some(cause) => Fail(WriteError(op, cause)))
  }

  /** The loader call a change makes once its table is known and its keys resolved. */
  function WriteFor(change: TableChange, keys: map<string, string>, tag: Option<u64>): Option<StoreOp> {
    match change.operation
    case Create => Some(InsertRow(change.table, keys, FieldMap(change.fields), tag))
    case Update => Some(UpdateRow(change.table, keys, FieldMap(change.fields), tag))
    case Delete => Some(DeleteRow(change.table, keys, tag))
    case _ => None
  }

  /** The kinds of change that make a loader call. */
  predicate IsDispatching(op: Operation) {
    op.Create? || op.Update? || op.Delete?
  }

  /** One iteration of the loop in `applyDatabaseChanges`. */
  function ApplyChange(loader: Loader, log: seq<StoreOp>, change: TableChange, blockNum: u64, finalBlockNum: u64): (r: Applied)
    // an unknown table is reported with the known ones and makes no call
    ensures change.table !in loader.tables ==>
      r == Applied(log, Fail(UnknownTable(change.table, loader.identifier, loader.tables)))
    // key resolution failures make no call
    ensures change.table in loader.tables && change.primaryKey.NoKey? ==> r == Applied(log, Fail(UnknownKeyType))
    ensures change.table in loader.tables && change.primaryKey.Pk?
      && loader.expandKey(change.table, change.primaryKey.pk).Failure?
      ==> r == Applied(log, Fail(KeyExpansion(loader.expandKey(change.table, change.primaryKey.pk).error)))
    // at most one call is made, and only for a create, update or delete
    ensures log <= r.log && |r.log| <= |log| + 1
    ensures |r.log| == |log| + 1 <==>
      change.table in loader.tables && ResolveKeys(loader, change).Success? && IsDispatching(change.operation)
    // unset and unrecognised kinds are silent successes
    ensures change.table in loader.tables && ResolveKeys(loader, change).Success?
      && !IsDispatching(change.operation)
      ==> r == Applied(log, Pass)
    // the call made carries the change's table, keys, fields and reversibility tag
    ensures |r.log| == |log| + 1 ==>
      var op := r.log[|log|];
      && IsRowWrite(op)
      && op.table == change.table
      && (op.InsertRow? <==> change.operation.Create?)
      && (op.UpdateRow? <==> change.operation.Update?)
      && (op.DeleteRow? <==> change.operation.Delete?)
      && (change.primaryKey.CompositePk? ==> op.keys == change.primaryKey.keys)
      && (change.primaryKey.Pk? ==> loader.expandKey(change.table, change.primaryKey.pk) == Success(op.keys))
      && (op.reversibleAt.Some? <==> blockNum > finalBlockNum)
      && (op.reversibleAt.Some? ==> op.reversibleAt.value == blockNum)
      && (!op.DeleteRow? ==> op.fields.Keys == Names(change.fields))
      && (!op.DeleteRow? ==> forall name :: name in op.fields ==> IsLastValue(change.fields, name, op.fields[name]))
      && (r.outcome.Pass? <==> loader.verdict(log, op).None?)
      && (r.outcome.Fail? ==> r.outcome.error == WriteError(op, loader.verdict(log, op).value))
  {
    if change.table !in loader.tables then
      Applied(log, Fail(UnknownTable(change.table, loader.identifier, loader.tables)))
    else
      match ResolveKeys(loader, change)
      case Failure(e) => Applied(log, Fail(e))
      case Success(keys) =>
        match WriteFor(change, keys, ReversibleAt(blockNum, finalBlockNum))
        case None => Applied(log, Pass)
        case Some(op) => Dispatch(loader, log, op)
  }

  /** `applyDatabaseChanges`: changes in list order, stopping at the first error. */
  function ApplyChanges(loader: Loader, log: seq<StoreOp>, changes: seq<TableChange>, blockNum: u64, finalBlockNum: u64): (r: Applied)
    ensures log <= r.log && |r.log| <= |log| + |changes|
    // a block that applies makes exactly one call per create, update or delete change
    ensures r.outcome.Pass? ==> |r.log| == |log| + DispatchingCount(changes)
    decreases |changes|
  {
    if |changes| == 0 then Applied(log, Pass)
    else
      var first := ApplyChange(loader, log, changes[0], blockNum, finalBlockNum);
      if first.outcome.Fail? then first
      else ApplyChanges(loader, first.log, changes[1..], blockNum, finalBlockNum)
  }

  /** Applying `a + b` is applying `a` and, unless that failed, `b` after it. */
  lemma {:induction false} ApplyChangesSplit(loader: Loader, log: seq<StoreOp>, a: seq<TableChange>, b: seq<TableChange>, blockNum: u64, finalBlockNum: u64)
    ensures ApplyChanges(loader, log, a + b, blockNum, finalBlockNum) ==
      var r := ApplyChanges(loader, log, a, blockNum, finalBlockNum);
      if r.outcome.Fail? then r else ApplyChanges(loader, r.log, b, blockNum, finalBlockNum)
    decreases |a|
  {
    if |a| == 0 {
      assert a + b == b;
    } else {
      assert (a + b)[0] == a[0];
      assert (a + b)[1..] == a[1..] + b;
      var first := ApplyChange(loader, log, a[0], blockNum, finalBlockNum);
      if first.outcome.Pass? {
        ApplyChangesSplit(loader, first.log, a[1..], b, blockNum, finalBlockNum);
      }
    }
  }

  /**
    The first failing change ends the block: the changes before it have made
    their calls, the failing change's result is the block's, and no later
    change makes a call.
   */
  lemma FirstFailureStops(loader: Loader, log: seq<StoreOp>, changes: seq<TableChange>, k: nat, blockNum: u64, finalBlockNum: u64)
    requires k < |changes|
    requires ApplyChanges(loader, log, changes[..k], blockNum, finalBlockNum).outcome.Pass?
    requires ApplyChange(loader, ApplyChanges(loader, log, changes[..k], blockNum, finalBlockNum).log, changes[k], blockNum, finalBlockNum).outcome.Fail?
    ensures ApplyChanges(loader, log, changes, blockNum, finalBlockNum) ==
      ApplyChange(loader, ApplyChanges(loader, log, changes[..k], blockNum, finalBlockNum).log, changes[k], blockNum, finalBlockNum)
  {
    assert changes == changes[..k] + changes[k..];
    ApplyChangesSplit(loader, log, changes[..k], changes[k..], blockNum, finalBlockNum);
    assert changes[k..][0] == changes[k];
  }

  /** A change for an unknown table fails the block after the earlier changes made their calls. */
  lemma UnknownTableStops(loader: Loader, log: seq<StoreOp>, changes: seq<TableChange>, k: nat, blockNum: u64, finalBlockNum: u64)
    requires k < |changes| && changes[k].table !in loader.tables
    requires ApplyChanges(loader, log, changes[..k], blockNum, finalBlockNum).outcome.Pass?
    ensures ApplyChanges(loader, log, changes, blockNum, finalBlockNum) ==
      Applied(ApplyChanges(loader, log, changes[..k], blockNum, finalBlockNum).log,
              Fail(UnknownTable(changes[k].table, loader.identifier, loader.tables)))
  {
    FirstFailureStops(loader, log, changes, k, blockNum, finalBlockNum);
  }

  /**
    The row writes a list of changes asks for, ignoring the loader's verdicts:
    one per create, update or delete change whose keys resolve.
   */
  function PlannedWrites(loader: Loader, changes: seq<TableChange>, blockNum: u64, finalBlockNum: u64): seq<StoreOp>
    decreases |changes|
  {
    if |changes| == 0 then []
    else
      var here := match ResolveKeys(loader, changes[0])
        case Success(keys) =>
          (match WriteFor(changes[0], keys, ReversibleAt(blockNum, finalBlockNum))
           case Some(op) => [op]
           case None => [])
        case Failure(_) => [];
      here + PlannedWrites(loader, changes[1..], blockNum, finalBlockNum)
  }

  /** The number of changes of a dispatching kind. */
  function DispatchingCount(changes: seq<TableChange>): nat {
    if |changes| == 0 then 0
    else (if IsDispatching(changes[0].operation) then 1 else 0) + DispatchingCount(changes[1..])
  }

  /**
    A block that applies without error had every table known and every key
    resolved, and made exactly the planned row writes, in list order: one per
    create, update or delete change and none for the others.
   */
  lemma {:induction false} AppliedBlockMadePlannedWrites(loader: Loader, log: seq<StoreOp>, changes: seq<TableChange>, blockNum: u64, finalBlockNum: u64)
    requires ApplyChanges(loader, log, changes, blockNum, finalBlockNum).outcome.Pass?
    ensures ApplyChanges(loader, log, changes, blockNum, finalBlockNum).log == log + PlannedWrites(loader, changes, blockNum, finalBlockNum)
    ensures |PlannedWrites(loader, changes, blockNum, finalBlockNum)| == DispatchingCount(changes)
    ensures forall k :: 0 <= k < |changes| ==>
      changes[k].table in loader.tables && ResolveKeys(loader, changes[k]).Success?
    decreases |changes|
  {
    if |changes| > 0 {
      var first := ApplyChange(loader, log, changes[0], blockNum, finalBlockNum);
      AppliedBlockMadePlannedWrites(loader, first.log, changes[1..], blockNum, finalBlockNum);
      assert first.log == log + PlannedWrites(loader, changes[..1], blockNum, finalBlockNum);
      forall k | 0 <= k < |changes|
        ensures changes[k].table in loader.tables && ResolveKeys(loader, changes[k]).Success?
      {
        if k > 0 {
          assert changes[k] == changes[1..][k - 1];
        }
      }
    }
  }

  /** Against a loader that accepts every call, a block whose tables and keys all resolve applies without error. */
  lemma {:induction false} AcceptingLoaderApplies(loader: Loader, log: seq<StoreOp>, changes: seq<TableChange>, blockNum: u64, finalBlockNum: u64)
    requires forall l, op :: loader.verdict(l, op).None?
    requires forall k :: 0 <= k < |changes| ==>
      changes[k].table in loader.tables && ResolveKeys(loader, changes[k]).Success?
    ensures ApplyChanges(loader, log, changes, blockNum, finalBlockNum).outcome.Pass?
    decreases |changes|
  {
    if |changes| > 0 {
      var first := ApplyChange(loader, log, changes[0], blockNum, finalBlockNum);
      assert first.outcome.Pass?;
      forall k | 0 <= k < |changes| - 1
        ensures changes[1..][k].table in loader.tables && ResolveKeys(loader, changes[1..][k]).Success?
      {
        assert changes[1..][k] == changes[k + 1];
      }
      AcceptingLoaderApplies(loader, first.log, changes[1..], blockNum, finalBlockNum);
    }
  }
}
