/**
 * The generic `query_one<T>`: build the shape's query for a key, execute it,
 * step the cursor once into a one-slot buffer, and marshal the row if one
 * came back.
 */
module Query {
  import opened Com
  import opened Wmi
  import opened Records

  /** The two associated functions of `WmiRowConstructable<T>`, as a value. */
  datatype RowConstructable<T> = RowConstructable(fromRow: Row -> Result<T>, queryOne: string -> string)

  const SettingsShape: RowConstructable<VmSettings> := RowConstructable(VmSettingsFromRow, VmSettingsQuery)
  const StatusShape: RowConstructable<VmStatus> := RowConstructable(VmStatusFromRow, VmStatusQuery)

  /** ExecQuery's arguments: WQL, the query text, forward-only and return-immediately. */
  function Request(query: string): (req: ExecRequest)
    ensures req.language == "WQL" && req.query == query
    ensures req.flags == WBEM_FLAG_FORWARD_ONLY | WBEM_FLAG_RETURN_IMMEDIATELY
  {
    ExecRequest("WQL", query, WBEM_FLAG_FORWARD_ONLY | WBEM_FLAG_RETURN_IMMEDIATELY)
  }

  /** What `query_one::<T>(server, key)` returns. */
  function QueryOneOutcome<T>(ns: Namespace, shape: RowConstructable<T>, key: string): (r: Result<Option<T>>)
    ensures r.Ok? && r.value.Some? ==>
      && ns.exec(Request(shape.queryOne(key))).Enumerates?
      && ns.exec(Request(shape.queryOne(key))).rows != []
      && shape.fromRow(ns.exec(Request(shape.queryOne(key))).rows[0]) == Ok(r.value.value)
  {
    match ns.exec(Request(shape.queryOne(key)))
    case ExecFailed(code) => Err(Hr(code))
    case Enumerates(rows, fault) => FirstRowOutcome(shape, rows, fault)
  }

  /**
   * What stepping a cursor over `rows` once into a one-slot buffer, then
   * marshalling the slot, gives: the cursor's failure, `Ok(None)` for an
   * empty slot, or the first row's `from_row` result.
   */
  function FirstRowOutcome<T>(shape: RowConstructable<T>, rows: seq<Row>, fault: Option<FailCode>): (r: Result<Option<T>>)
    ensures r.Ok? && r.value.Some? ==> rows != [] && shape.fromRow(rows[0]) == Ok(r.value.value)
    ensures fault.Some? ==> r == Err(Hr(fault.value))
  {
    if fault.Some? then Err(Hr(fault.value))
    else if rows == [] then Ok(None)
    else
      match shape.fromRow(rows[0])
      case Ok(record) => Ok(Some(record))
      case Err(e) => Err(e)
  }

  /**
   * `query_one::<T>`: one ExecQuery, one Next into a buffer of one slot.
   * `cursor` is the enumerator ExecQuery made, if it made one; it is the only
   * cursor the call opens.
   */
  method QueryOne<T>(ns: Namespace, shape: RowConstructable<T>, key: string)
    returns (r: Result<Option<T>>, ghost cursor: Enumerator?)
    modifies ns
    ensures r == QueryOneOutcome(ns, shape, key)
    ensures (cursor != null) == ns.exec(Request(shape.queryOne(key))).Enumerates?
    ensures ns.cursors == old(ns.cursors) + (if cursor != null then [cursor] else [])
    ensures cursor != null ==> fresh(cursor) && cursor.nextCalls == 1 && cursor.delivered <= 1
  {
    cursor := null;
    var exec := ExecQuery(ns, Request(shape.queryOne(key)));
    if exec.Err? {
      return Err(exec.error), cursor;
    }
    cursor := exec.value;
    r := ReadFirst(exec.value, shape);
  }

  /**
   * The `Next(-1, &mut row, ..).and_then(..)` step: one Next into a fresh
   * one-slot buffer; a failing HRESULT is the result, otherwise the slot is
   * marshalled if Next filled it.
   */
  method ReadFirst<T>(e: Enumerator, shape: RowConstructable<T>) returns (r: Result<Option<T>>)
    modifies e
    ensures r == FirstRowOutcome(shape, old(e.pending), e.fault)
    ensures e.nextCalls == old(e.nextCalls) + 1 && e.delivered <= old(e.delivered) + 1
  {
    var row := new Option<Row>[1](_ => None);
    var hr, returned := e.Next(WBEM_INFINITE, row);
    if !Succeeded(hr) {
      return Err(Hr(hr));
    }
    match row[0]
    case Some(o) =>
      var record := shape.fromRow(o);
      if record.Err? {
        return Err(record.error);
      }
      r := Ok(Some(record.value));
    case None =>
      r := Ok(None);
  }

  /** An ExecQuery failure is the result, whatever the key. */
  lemma ExecFailurePropagates<T>(ns: Namespace, shape: RowConstructable<T>, key: string, code: FailCode)
    requires ns.exec(Request(shape.queryOne(key))) == ExecFailed(code)
    ensures QueryOneOutcome(ns, shape, key) == Err(Hr(code))
  {
  }

  /** A Next failure is the result, whatever rows the cursor holds. */
  lemma NextFailurePropagates<T>(ns: Namespace, shape: RowConstructable<T>, key: string, rows: seq<Row>, code: FailCode)
    requires ns.exec(Request(shape.queryOne(key))) == Enumerates(rows, Some(code))
    ensures QueryOneOutcome(ns, shape, key) == Err(Hr(code))
  {
  }

  /** No matching object is `Ok(None)`, which is no record at all. */
  lemma NoMatchIsNone<T>(ns: Namespace, shape: RowConstructable<T>, key: string)
    requires ns.exec(Request(shape.queryOne(key))) == Enumerates([], None)
    ensures QueryOneOutcome(ns, shape, key) == Ok(None)
    ensures forall record :: QueryOneOutcome(ns, shape, key) != Ok(Some(record))
  {
  }

  /** With a row in the slot, the result is that row's record or its `from_row` error. */
  lemma FirstRowDecides<T>(ns: Namespace, shape: RowConstructable<T>, key: string, rows: seq<Row>)
    requires ns.exec(Request(shape.queryOne(key))) == Enumerates(rows, None) && rows != []
    ensures shape.fromRow(rows[0]).Ok? ==> QueryOneOutcome(ns, shape, key) == Ok(Some(shape.fromRow(rows[0]).value))
    ensures shape.fromRow(rows[0]).Err? ==> QueryOneOutcome(ns, shape, key) == Err(shape.fromRow(rows[0]).error)
  {
  }

  /** The object Next puts in a one-slot buffer, if any. */
  function FirstRow(rows: seq<Row>): Option<Row> {
    if rows == [] then None else Some(rows[0])
  }

  /** At most one row is read: cursors that agree on their first row give the same result. */
  lemma OnlyFirstRowMatters<T>(ns: Namespace, other: Namespace, shape: RowConstructable<T>, key: string)
    requires ns.exec(Request(shape.queryOne(key))).Enumerates?
    requires other.exec(Request(shape.queryOne(key))).Enumerates?
    requires ns.exec(Request(shape.queryOne(key))).fault == other.exec(Request(shape.queryOne(key))).fault
    requires FirstRow(ns.exec(Request(shape.queryOne(key))).rows) == FirstRow(other.exec(Request(shape.queryOne(key))).rows)
    ensures QueryOneOutcome(ns, shape, key) == QueryOneOutcome(other, shape, key)
  {
  }

  /**
   * Finding no object is told apart from finding one with none of the
   * properties: the first is `Ok(None)`, the second a record of `None`s.
   */
  lemma NotFoundIsNotAnEmptyRecord(ns: Namespace, other: Namespace, key: string)
    requires ns.exec(Request(VmSettingsQuery(key))) == Enumerates([], None)
    requires other.exec(Request(VmSettingsQuery(key))) == Enumerates([Row(map[])], None)
    ensures QueryOneOutcome(ns, SettingsShape, key) == Ok(None)
    ensures QueryOneOutcome(other, SettingsShape, key) ==
      Ok(Some(VmSettings(None, None, None, None, None, None, None, None, None, None, None, None, None, None)))
  {
    EmptyRowIsAllNone();
  }
}
