/**
 * `get_row_item`: reading one property of a WMI object as optional text, and
 * the left-to-right, stop-at-first-error reading of a list of properties that
 * every `from_row` performs.
 */
module Marshal {
  import opened Com
  import opened Wmi
  import Utf16

  /**
   * The outcome of `get_row_item(row, name)`: `Ok(None)` for a missing or
   * unformattable property, `Ok(Some(text))` for a formatted one, `Err` for
   * every other failure.
   */
  function RowItem(row: Row, name: string): (r: Result<Option<string>>)
    ensures r.Ok? && r.value.Some? ==>
      && Property(row, name).Got?
      && Property(row, name).value.format == Formatted(Utf16.Encode(r.value.value))
  {
    match Property(row, name)
    case GetFailed(code) =>
      if code == WBEM_E_NOT_FOUND then Ok(None) else Err(Hr(code))
    case Got(value) =>
      match value.format
      case FormatFailed(code) =>
        if code == DISP_E_TYPEMISMATCH then Ok(None) else Err(Hr(code))
      case Formatted(wide) =>
        if !Succeeded(value.clear) then Err(Hr(value.clear))
        else
          match Utf16.Decode(wide)
          case None => Err(InvalidUtf16)
          case Some(text) =>
            Utf16.EncodeDecode(wide);
            Ok(Some(text))
  }

  /** The provider calls `get_row_item(row, name)` makes, in order. */
  function ItemCalls(row: Row, name: string): seq<Call> {
    match Property(row, name)
    case GetFailed(_) => [GetCall(name)]
    case Got(value) =>
      if value.format.FormatFailed? then [GetCall(name), FormatCall]
      else [GetCall(name), FormatCall, ClearCall]
  }

  /** How many VARIANTs `get_row_item(row, name)` leaves filled and not cleared. */
  function ItemLeaks(row: Row, name: string): nat {
    if Property(row, name).Got? && Property(row, name).value.format.FormatFailed? then 1 else 0
  }

  /** `get_row_item` as written: the early returns skip VariantClear. */
  method GetRowItem(p: Provider, row: Row, name: string) returns (r: Result<Option<string>>)
    modifies p
    ensures r == RowItem(row, name)
    ensures p.calls == old(p.calls) + ItemCalls(row, name)
    ensures p.live == old(p.live) + ItemLeaks(row, name)
  {
    var got := p.Get(row, name);
    if got.GetFailed? {
      if got.code == WBEM_E_NOT_FOUND {
        return Ok(None);
      }
      return Err(Hr(got.code));
    }
    var value := got.value;
    var bstr := p.VarFormat(value);
    if bstr.FormatFailed? {
      if bstr.code == DISP_E_TYPEMISMATCH {
        return Ok(None);
      }
      return Err(Hr(bstr.code));
    }
    var cleared := p.VariantClear(value);
    if !Succeeded(cleared) {
      return Err(Hr(cleared));
    }
    var text := Utf16.Decode(bstr.wide);
    if text.None? {
      return Err(InvalidUtf16);
    }
    return Ok(Some(text.value));
  }

  /** The calls of `get_row_item` once every filled VARIANT is cleared. */
  function ScopedItemCalls(row: Row, name: string): seq<Call> {
    match Property(row, name)
    case GetFailed(_) => [GetCall(name)]
    case Got(_) => [GetCall(name), FormatCall, ClearCall]
  }

  /**
   * `get_row_item` with the VARIANT released on every path after a
   * successful Get, as a scope guard would: same outcome, no leak. A failing
   * release on the early-return paths is ignored, as a destructor would.
   */
  method GetRowItemScoped(p: Provider, row: Row, name: string) returns (r: Result<Option<string>>)
    modifies p
    ensures r == RowItem(row, name)
    ensures p.calls == old(p.calls) + ScopedItemCalls(row, name)
    ensures p.live == old(p.live)
  {
    var got := p.Get(row, name);
    if got.GetFailed? {
      if got.code == WBEM_E_NOT_FOUND {
        return Ok(None);
      }
      return Err(Hr(got.code));
    }
    var value := got.value;
    var bstr := p.VarFormat(value);
    var cleared := p.VariantClear(value);
    if bstr.FormatFailed? {
      if bstr.code == DISP_E_TYPEMISMATCH {
        return Ok(None);
      }
      return Err(Hr(bstr.code));
    }
    if !Succeeded(cleared) {
      return Err(Hr(cleared));
    }
    var text := Utf16.Decode(bstr.wide);
    if text.None? {
      return Err(InvalidUtf16);
    }
    return Ok(Some(text.value));
  }

  // ---------------------------------------------------------------------
  // The outcome classification, case by case

  /** No such property: absent, and VarFormat is never called. */
  lemma NotFoundIsAbsent(row: Row, name: string)
    requires Property(row, name) == GetFailed(WBEM_E_NOT_FOUND)
    ensures RowItem(row, name) == Ok(None)
    ensures ItemCalls(row, name) == [GetCall(name)] && ItemLeaks(row, name) == 0
  {
  }

  /** Any other Get failure is an error carrying that code, never `Ok(None)`. */
  lemma GetFailurePropagates(row: Row, name: string, code: FailCode)
    requires Property(row, name) == GetFailed(code) && code != WBEM_E_NOT_FOUND
    ensures RowItem(row, name) == Err(Hr(code))
    ensures ItemCalls(row, name) == [GetCall(name)]
  {
  }

  /**
   * A value VarFormat cannot render is absent, any other format error is an
   * error; either way VariantClear is never reached and the value stays filled.
   */
  lemma FormatFailureSkipsClear(row: Row, name: string, code: FailCode)
    requires Property(row, name).Got? && Property(row, name).value.format == FormatFailed(code)
    ensures RowItem(row, name) == if code == DISP_E_TYPEMISMATCH then Ok(None) else Err(Hr(code))
    ensures ItemCalls(row, name) == [GetCall(name), FormatCall]
    ensures ClearCall !in ItemCalls(row, name) && ItemLeaks(row, name) == 1
  {
  }

  /**
   * Once formatting succeeds VariantClear is called exactly once, before
   * decoding: its failure is the error whatever the text, and otherwise the
   * outcome is the decoded text or a decoding error.
   */
  lemma FormattedIsClearedThenDecoded(row: Row, name: string, wide: seq<Utf16.CodeUnit>)
    requires Property(row, name).Got? && Property(row, name).value.format == Formatted(wide)
    ensures ItemCalls(row, name) == [GetCall(name), FormatCall, ClearCall] && ItemLeaks(row, name) == 0
    ensures !Succeeded(Property(row, name).value.clear) ==>
      RowItem(row, name) == Err(Hr(Property(row, name).value.clear))
    ensures Succeeded(Property(row, name).value.clear) ==>
      RowItem(row, name) == (if Utf16.Decode(wide).Some? then Ok(Some(Utf16.Decode(wide).value)) else Err(InvalidUtf16))
  {
  }

  /** The field is `Some(s)` exactly when the provider formatted the value as the UTF-16 of `s`. */
  lemma PresentIffFormattedAs(row: Row, name: string, s: string)
    ensures RowItem(row, name) == Ok(Some(s)) <==>
      && Property(row, name).Got?
      && Property(row, name).value.format == Formatted(Utf16.Encode(s))
      && Succeeded(Property(row, name).value.clear)
  {
    if Property(row, name).Got? && Property(row, name).value.format == Formatted(Utf16.Encode(s)) {
      Utf16.DecodeEncode(s);
    }
  }

  /** The field is `None` exactly for a missing property or a type mismatch. */
  lemma AbsentIffNotFoundOrMismatch(row: Row, name: string)
    ensures RowItem(row, name) == Ok(None) <==>
      || Property(row, name) == GetFailed(WBEM_E_NOT_FOUND)
      || (Property(row, name).Got? && Property(row, name).value.format == FormatFailed(DISP_E_TYPEMISMATCH))
  {
  }

  /** With the scoped release, every VARIANT Get fills is cleared exactly once. */
  lemma ScopedClearsEveryValue(row: Row, name: string)
    ensures ClearCall in ScopedItemCalls(row, name) <==> Property(row, name).Got?
    ensures |ScopedItemCalls(row, name)| == if Property(row, name).Got? then 3 else 1
  {
  }

  // ---------------------------------------------------------------------
  // Reading a list of properties as `from_row` does

  /**
   * `get_row_item` on each name in order, stopping at the first error: the
   * semantics of a struct expression whose fields end in `?`.
   */
  function ReadColumns(row: Row, names: seq<string>): (r: Result<seq<Option<string>>>)
    ensures r.Ok? ==> |r.value| == |names|
  {
    if names == [] then Ok([])
    else
      var head :- RowItem(row, names[0]);
      var tail :- ReadColumns(row, names[1..]);
      Ok([head] + tail)
  }

  /** All reads succeed exactly when no name fails, and then each field is its name's outcome. */
  lemma {:induction false} ReadColumnsOk(row: Row, names: seq<string>)
    ensures ReadColumns(row, names).Ok? <==> forall i :: 0 <= i < |names| ==> RowItem(row, names[i]).Ok?
    ensures ReadColumns(row, names).Ok? ==>
      forall i :: 0 <= i < |names| ==> ReadColumns(row, names).value[i] == RowItem(row, names[i]).value
  {
    if names != [] {
      ReadColumnsOk(row, names[1..]);
      if !RowItem(row, names[0]).Ok? {
      } else if ReadColumns(row, names[1..]).Ok? {
        assert forall i :: 1 <= i < |names| ==> names[i] == names[1..][i - 1];
      } else {
        var j :| 0 <= j < |names[1..]| && !RowItem(row, names[1..][j]).Ok?;
        assert names[1..][j] == names[j + 1];
      }
    }
  }

  /** The error is that of the first name, in list order, whose read fails. */
  lemma {:induction false} ReadColumnsFirstError(row: Row, names: seq<string>, k: nat)
    requires k < |names| && RowItem(row, names[k]).Err?
    requires forall j :: 0 <= j < k ==> RowItem(row, names[j]).Ok?
    ensures ReadColumns(row, names) == Err(RowItem(row, names[k]).error)
  {
    if k > 0 {
      assert RowItem(row, names[0]).Ok?;
      assert forall j :: 0 <= j < k - 1 ==> names[1..][j] == names[j + 1];
      ReadColumnsFirstError(row, names[1..], k - 1);
    }
  }

  /** The position of the first name whose read fails, or `|names|` when none does. */
  function FirstFailure(row: Row, names: seq<string>): (k: nat)
    ensures k <= |names|
    ensures forall j :: 0 <= j < k ==> RowItem(row, names[j]).Ok?
    ensures k < |names| ==> RowItem(row, names[k]).Err?
  {
    if names == [] || RowItem(row, names[0]).Err? then 0
    else 1 + FirstFailure(row, names[1..])
  }
}
