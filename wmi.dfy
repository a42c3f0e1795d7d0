/**
 * The WMI and OLE automation provider, as far as the marshalling layer can
 * observe it.  Provider behaviour that is library code (VarFormat's
 * formatting rules, VARIANT layout, query evaluation) is an oracle: a value
 * records what the library reports for it.
 */
module Wmi {
  import opened Com
  import Utf16

  /** What VarFormat reports for a value: the BSTR's UTF-16 text, or an error. */
  datatype FormatResult =
    | Formatted(wide: seq<Utf16.CodeUnit>)
    | FormatFailed(code: FailCode)

  /**
   * A VARIANT filled by IWbemClassObject::Get. The model knows it only through
   * what VarFormat and VariantClear return for it.
   */
  datatype Variant = Variant(format: FormatResult, clear: HResult)

  /** What IWbemClassObject::Get reports for one property name. */
  datatype GetResult =
    | Got(value: Variant)
    | GetFailed(code: FailCode)

  /**
   * One IWbemClassObject: what Get reports per property name. A name the
   * object does not define is reported as WBEM_E_NOT_FOUND.
   */
  datatype Row = Row(properties: map<string, GetResult>)

  function Property(row: Row, name: string): GetResult {
    if name in row.properties then row.properties[name] else GetFailed(WBEM_E_NOT_FOUND)
  }

  /** One call into the provider made while reading a property. */
  datatype Call = GetCall(name: string) | FormatCall | ClearCall

  /**
   * The provider-side effects of reading properties: the calls made, in
   * order, and the number of VARIANTs that Get filled and that have not yet
   * been passed to VariantClear.
   */
  class Provider {
    ghost var calls: seq<Call>
    ghost var live: nat

    constructor ()
      ensures calls == [] && live == 0
    {
      calls, live := [], 0;
    }

    /** IWbemClassObject::Get into a fresh VARIANT. */
    method Get(row: Row, name: string) returns (r: GetResult)
      modifies this
      ensures r == Property(row, name)
      ensures calls == old(calls) + [GetCall(name)]
      ensures live == old(live) + (if r.Got? then 1 else 0)
    {
      r := Property(row, name);
      calls := calls + [GetCall(name)];
      if r.Got? { live := live + 1; }
    }

    /** VarFormat with system-default first day and first week. */
    method VarFormat(v: Variant) returns (r: FormatResult)
      modifies this
      ensures r == v.format
      ensures calls == old(calls) + [FormatCall] && live == old(live)
    {
      r := v.format;
      calls := calls + [FormatCall];
    }

    /** VariantClear: gives the value's resources back to the provider. */
    method VariantClear(v: Variant) returns (hr: HResult)
      requires live > 0
      modifies this
      ensures hr == v.clear
      ensures calls == old(calls) + [ClearCall] && live == old(live) - 1
    {
      hr := v.clear;
      calls := calls + [ClearCall];
      live := live - 1;
    }
  }

  /** The arguments of IWbemServices::ExecQuery that the model keeps. */
  datatype ExecRequest = ExecRequest(language: string, query: string, flags: bv32)

  /** What ExecQuery reports: a cursor over the matching objects, or an error. */
  datatype ExecOutcome =
    | Enumerates(rows: seq<Row>, fault: Option<FailCode>)   // fault: what Next will report, if it fails
    | ExecFailed(code: FailCode)


  const WBEM_FLAG_RETURN_IMMEDIATELY: bv32 := 0x10
  const WBEM_FLAG_FORWARD_ONLY: bv32 := 0x20
  /** WBEM_INFINITE, 0xFFFFFFFF read as an i32. */
  const WBEM_INFINITE: int := -1

  /** IEnumWbemClassObject: a forward-only cursor. */
  class Enumerator {
    var pending: seq<Row>            // the objects not yet handed out
    const fault: Option<FailCode>    // the failure every Next reports, if any
    ghost var nextCalls: nat
    ghost var delivered: nat

    constructor (rows: seq<Row>, fault: Option<FailCode>)
      ensures pending == rows && this.fault == fault
      ensures nextCalls == 0 && delivered == 0
    {
      pending, this.fault := rows, fault;
      nextCalls, delivered := 0, 0;
    }

    /**
     * IEnumWbemClassObject::Next: hands out up to `buffer.Length` objects,
     * filling the buffer from the front; WBEM_S_FALSE when fewer than asked
     * for were left.
     */
    method Next(timeout: int, buffer: array<Option<Row>>) returns (hr: HResult, returned: nat)
      modifies this, buffer
      ensures nextCalls == old(nextCalls) + 1
      ensures delivered == old(delivered) + returned
      ensures fault.Some? ==>
        hr == fault.value && returned == 0 && pending == old(pending) && buffer[..] == old(buffer[..])
      ensures fault.None? ==>
        && returned == (if |old(pending)| < buffer.Length then |old(pending)| else buffer.Length)
        && pending == old(pending)[returned..]
        && (forall i :: 0 <= i < returned ==> buffer[i] == Some(old(pending)[i]))
        && (forall i :: returned <= i < buffer.Length ==> buffer[i] == old(buffer[i]))
        && hr == (if returned == buffer.Length then WBEM_S_NO_ERROR else WBEM_S_FALSE)
    {
      nextCalls := nextCalls + 1;
      if fault.Some? {
        return fault.value, 0;
      }
      returned := if |pending| < buffer.Length then |pending| else buffer.Length;
      var handed := pending[..returned];
      forall i | 0 <= i < returned {
        buffer[i] := Some(handed[i]);
      }
      pending := pending[returned..];
      delivered := delivered + returned;
      hr := if returned == buffer.Length then WBEM_S_NO_ERROR else WBEM_S_FALSE;
    }
  }

  /**
   * IWbemServices: what ExecQuery answers for each request, and the cursors
   * it has opened, in order.
   */
  class Namespace {
    const exec: ExecRequest -> ExecOutcome
    ghost var cursors: seq<Enumerator>

    constructor (exec: ExecRequest -> ExecOutcome)
      ensures this.exec == exec && cursors == []
    {
      this.exec := exec;
      cursors := [];
    }
  }

  /**
   * IWbemServices::ExecQuery: the error the namespace reports, or a new,
   * unstepped cursor, which the namespace records as opened.
   */
  method ExecQuery(ns: Namespace, request: ExecRequest) returns (r: Result<Enumerator>)
    modifies ns
    ensures ns.exec(request).ExecFailed? ==> r == Err(Hr(ns.exec(request).code)) && ns.cursors == old(ns.cursors)
    ensures ns.exec(request).Enumerates? ==>
      && r.Ok? && fresh(r.value)
      && r.value.pending == ns.exec(request).rows && r.value.fault == ns.exec(request).fault
      && r.value.nextCalls == 0 && r.value.delivered == 0
      && ns.cursors == old(ns.cursors) + [r.value]
  {
    match ns.exec(request)
    case ExecFailed(code) =>
      r := Err(Hr(code));
    case Enumerates(rows, fault) =>
      var e := new Enumerator(rows, fault);
      ns.cursors := ns.cursors + [e];
      r := Ok(e);
  }
}
