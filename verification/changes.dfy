/**
  The data model of the sink: the decoded database changes one block carries,
  the cursor, the calls the sinker makes into its loader, and the errors it returns.
 */
module Changes {

  import opened Results

  /** Go's `uint64` (block numbers, heights) and `int` (flag values). */
  type u64 = x: int | 0 <= x < 0x1_0000_0000_0000_0000
  type i64 = x: int | -0x8000_0000_0000_0000 <= x < 0x8000_0000_0000_0000

  /** The primary-key `oneof` of a table change; `NoKey` is the unset `oneof`. */
  datatype PrimaryKey =
    | Pk(pk: string)
    | CompositePk(keys: map<string, string>)
    | NoKey

  /** The operation enum; `Unrecognized` is a numeric value the enum does not name. */
  datatype Operation = Unset | Create | Update | Delete | Unrecognized(code: int)

  datatype Field = Field(name: string, newValue: string)

  datatype TableChange = TableChange(
    table: string,
    primaryKey: PrimaryKey,
    operation: Operation,
    fields: seq<Field>)

  /** A resumption cursor: blank before any block was seen, else an opaque token and its block. */
  datatype Cursor = Blank | At(token: string, blockNum: u64)

  /** One call the sinker makes into the loader, in the order it makes them. */
  datatype StoreOp =
    | InsertRow(table: string, keys: map<string, string>, fields: map<string, string>, reversibleAt: Option<u64>)
    | UpdateRow(table: string, keys: map<string, string>, fields: map<string, string>, reversibleAt: Option<u64>)
    | DeleteRow(table: string, keys: map<string, string>, reversibleAt: Option<u64>)
    | Flush(moduleHash: string, cursor: Cursor, finalBlock: u64)
    | Revert(moduleHash: string, cursor: Cursor, lastValidBlock: u64)
    | InsertCursor(moduleHash: string, cursor: Cursor)

  /** Whether an operation is one of the three row writes dispatched per table change. */
  predicate IsRowWrite(op: StoreOp) {
    op.InsertRow? || op.UpdateRow? || op.DeleteRow?
  }

  /** The errors the sinker returns; `cause` is the loader's own error text. */
  datatype Error =
    | UnknownTable(table: string, identifier: string, available: set<string>)
    | KeyExpansion(cause: string)
    | UnknownKeyType
    | InsertFailed(cause: string)
    | UpdateFailed(cause: string)
    | DeleteFailed(cause: string)
    | WrongOutputModule(expected: string, got: string)
    | ApplyFailed(inner: Error)
    | FlushFailed(cursor: Cursor, cause: string)
    | RevertFailed(cause: string)
    | CursorLoadFailed(cause: string)
    | InitialCursorWriteFailed(cause: string)
    | MismatchCursorWriteFailed(cause: string)
}
