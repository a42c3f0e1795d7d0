# Hyper-V VM settings reader: the WMI marshalling layer

This project models the core of a small Windows diagnostic tool, `src/main.rs`.
The tool looks up a Hyper-V virtual machine by name through WMI. It then turns
one WMI object (a row) into a fixed, statically typed record. The record is
either `HyperVVmSettings` (14 optional text fields, from
`Msvm_VirtualSystemSettingData`) or `HyperVVmStatus` (13 fields, from
`Msvm_ComputerSystem`).

The model has four parts, each proved against a partner definition:

- **`get_row_item`** (`marshal.dfy`). It reads one property name and
  classifies the outcome:
  - a missing property is `Ok(None)`;
  - a value that `VarFormat` cannot render (`DISP_E_TYPEMISMATCH`) is `Ok(None)`;
  - any other failure is an `Err` carrying its HRESULT;
  - a formatted value is cleared with `VariantClear`, then decoded from
    UTF-16 into `Ok(Some(text))`.

  It is a pure outcome function `RowItem` plus an imperative method
  `GetRowItem`. The method works on a `Provider` object that records every
  provider call and counts the VARIANTs that are still unreleased.
- **`String::from_utf16`** (`utf16.dfy`). This is modelled concretely: decoding
  fails exactly on an unpaired surrogate. An encoder is the partner, with
  round-trip lemmas in both directions.
- **`from_row`** for the two record shapes (`records.dfy`). Each is a struct
  expression whose fields end in `?`. Each is proved equal to the table-driven
  read `ReadColumns` of its fixed property-name list. The `query_one(key)`
  builders splice the key into the WQL text unescaped. What that does to the
  `ElementName='…'` literal is stated with a small WQL literal reader
  (`wql.dfy`). In that reader a backslash takes the next character into the
  literal as it is, and the first unescaped quote ends the literal.
- **The generic `query_one<T>`** (`query.dfy`). It makes one `ExecQuery` and
  one `Next` into a one-slot array (`Wmi.Enumerator`). No row gives
  `Ok(None)`. A filled slot gives that row's `from_row` result. Errors of
  either call propagate.

Provider behaviour that is library code is an oracle:
- `Wmi.Variant` records what `VarFormat` and `VariantClear` return for a value.
- `Wmi.Row` records what `Get` returns for each name; an undefined name gives
  `WBEM_E_NOT_FOUND`.
- `Wmi.Namespace` records what `ExecQuery` answers for each request, and keeps a ghost list of the cursors it has opened.

HRESULTs are signed 32-bit integers, so `WBEM_E_NOT_FOUND` is 0x80041002 read as
an i32.

Some consequences of the code that the model keeps:
- Zero matching objects gives `Ok(None)`; there is no separate not-found error.
- A missing or unrenderable property is always `None`, for every field.
- The settings shape has 14 fields and the status shape 13.
- The VARIANT is not released on every path (see Findings).

## Model

| member | source | states |
|---|---|---|
| `Utf16.Decode` | src/main.rs:113 | `String::from_utf16` from the front: a high surrogate followed by a low one is one scalar value, a lone surrogate fails the whole decode, any other unit is its own character |
| `Utf16.DecodeLength` | src/main.rs:113 | a decoded text has between half as many and as many characters as there are code units |
| `Utf16.DecodeSucceedsIffWellFormed` | src/main.rs:113 | `String::from_utf16` succeeds exactly when no high surrogate lacks a following low one and no low surrogate lacks a preceding high one |
| `Utf16.DecodeEncode` | src/main.rs:113 | every string decodes back from its UTF-16 form |
| `Utf16.EncodeDecode` | src/main.rs:113 | whatever decodes re-encodes to the very same code units |
| `Utf16.DecodeIsEncodeInverse` | src/main.rs:113 | decoding `w` gives `s` if and only if `w` is the UTF-16 form of `s` |
| `Wmi.Provider.Get` | src/main.rs:76-85 | Get reports the object's entry for the name, is recorded in `calls`, and one more VARIANT is live when it succeeds |
| `Wmi.Provider.VarFormat` | src/main.rs:95-101 | VarFormat reports the value's formatting, is recorded in `calls`, and releases nothing |
| `Wmi.Provider.VariantClear` | src/main.rs:112 | VariantClear reports the value's clear status, is recorded in `calls`, and one VARIANT fewer is live |
| `Wmi.ExecQuery` | src/main.rs:214-219 | an ExecQuery failure is an `Err` with its code and opens nothing; otherwise a new cursor over the matching objects, not yet stepped, which the namespace records among the cursors it has opened |
| `Wmi.Enumerator.Next` | src/main.rs:221-224 | Next either reports the cursor's failure and fills nothing, or fills the first min(slots, remaining) slots with the next objects in order, leaves the other slots alone, and returns WBEM_S_FALSE when it filled fewer than asked |
| `Marshal.RowItem` | src/main.rs:75-115 | a `Some(text)` outcome only arises when Get succeeded and VarFormat produced exactly the UTF-16 form of `text` |
| `Marshal.GetRowItem` | src/main.rs:75-115 | the method's result is `RowItem`; its provider calls are `ItemCalls`; it leaves `ItemLeaks` VARIANTs unreleased |
| `Marshal.GetRowItemScoped` | src/main.rs:75-115 | the same result as `get_row_item`, with every filled VARIANT cleared, so no VARIANT stays live |
| `Marshal.NotFoundIsAbsent` | src/main.rs:79-88 | WBEM_E_NOT_FOUND gives `Ok(None)` after Get alone, with VarFormat never called |
| `Marshal.GetFailurePropagates` | src/main.rs:89-92 | any other Get failure is `Err` with that code, never `Ok(None)` |
| `Marshal.FormatFailureSkipsClear` | src/main.rs:102-110 | a type mismatch gives `Ok(None)` and any other format error `Err` with its code; on both paths VariantClear is never called and the VARIANT stays live |
| `Marshal.FormattedIsClearedThenDecoded` | src/main.rs:112-113 | after a successful format VariantClear is called exactly once; its failure is the error, otherwise the result is the decoded text or the decoding error |
| `Marshal.PresentIffFormattedAs` | src/main.rs:95-113 | the field is `Some(s)` if and only if VarFormat gave the UTF-16 form of `s` and VariantClear succeeded |
| `Marshal.AbsentIffNotFoundOrMismatch` | src/main.rs:79-110 | the field is `None` if and only if the property is missing or its type cannot be formatted |
| `Marshal.ScopedClearsEveryValue` | src/main.rs:102-112 | with scoped release, VariantClear is called exactly when Get filled a VARIANT |
| `Marshal.ReadColumns` | src/main.rs:143-158 | a left-to-right read of a name list that stops at the first error has one field per name |
| `Marshal.ReadColumnsOk` | src/main.rs:143-158 | the read succeeds if and only if every name reads without error, and then field i is the outcome for name i |
| `Marshal.ReadColumnsFirstError` | src/main.rs:143-158 | the error is that of the first failing name in list order |
| `Records.VmSettingsFrom` | src/main.rs:142-159 | the `HyperVVmSettings` struct expression over a property reader: the 14 properties in declaration order, each field from its own name, the first error ending the read |
| `Records.VmSettingsFromRow` | src/main.rs:142-159 | `from_row` for the settings shape: that struct expression with `get_row_item(row, _)` as the reader |
| `Records.VmSettingsFromRowFields` | src/main.rs:142-159 | a `HyperVVmSettings` is produced if and only if all 14 properties read without error, and each field is its own property's outcome |
| `Records.VmSettingsFromRowFirstError` | src/main.rs:143-158 | the settings error is that of the first failing property in declaration order |
| `Records.VmSettingsFromRowReadsColumns` | src/main.rs:142-159 | the settings struct expression equals the table-driven read of its column list: the same record or the same error |
| `Records.VmSettingsFromRowStopsAtError` | src/main.rs:143-158 | properties after the first failing one are never read: changing them changes nothing |
| `Records.VmStatusFrom` | src/main.rs:185-201 | the `HyperVVmStatus` struct expression over a property reader: the 13 properties in declaration order, `processId` from `ProcessID`, the first error ending the read |
| `Records.VmStatusFromRow` | src/main.rs:185-201 | `from_row` for the status shape: that struct expression with `get_row_item(row, _)` as the reader |
| `Records.VmStatusFromRowFields` | src/main.rs:185-201 | a `HyperVVmStatus` is produced if and only if all 13 properties read without error, and each field is its own property's outcome |
| `Records.VmStatusFromRowFirstError` | src/main.rs:186-200 | the status error is that of the first failing property in declaration order |
| `Records.VmStatusFromRowReadsColumns` | src/main.rs:185-201 | the status struct expression equals the table-driven read of its column list |
| `Records.VmStatusFromRowStopsAtError` | src/main.rs:186-200 | status properties after the first failing one are never read |
| `Records.VmSettingsMismatchIsNone` | src/main.rs:142-159 | a type-mismatched settings property is `None` in its own field and never decides whether the record is built |
| `Records.VmStatusMismatchIsNone` | src/main.rs:185-201 | a type-mismatched status property is `None` in its own field and never decides whether the record is built |
| `Records.SecureBootOnlyScenario` | src/main.rs:144-157 | an object with `SecureBootEnabled` formatted as "True" and no other property gives a record with only `secure_boot_enabled = Some("True")` |
| `Records.EmptyRowIsAllNone` | src/main.rs:143-158 | an object with none of the properties still gives a settings record, with every field `None` |
| `Records.VmSettingsQuery` | src/main.rs:161-163 | `HyperVVmSettings::query_one(key)`: `SELECT * FROM Msvm_VirtualSystemSettingData WHERE ElementName='`, then the key verbatim, then `'` |
| `Records.VmStatusQuery` | src/main.rs:203-205 | `HyperVVmStatus::query_one(key)`: `SELECT * FROM Msvm_ComputerSystem WHERE ElementName='`, then the key verbatim, then `'` |
| `Records.VmSettingsQueryFilter` | src/main.rs:161-163 | the settings query compares ElementName with exactly the key if and only if the key holds neither a quote nor a backslash; a quote with no backslash before it ends the literal there and the rest of the key becomes query text |
| `Records.VmStatusQueryFilter` | src/main.rs:203-205 | the same for the Msvm_ComputerSystem query |
| `Records.QuotedKeyWidensFilter` | src/main.rs:161-163 | the key `x' OR ElementName<>'` yields the literal `x` followed by ` OR ElementName<>''` |
| `Records.TrailingBackslashLeavesLiteralOpen` | src/main.rs:161-163 | the key `vm\` escapes the closing quote, so the settings query's literal is never closed |
| `Records.EscapedQuoteStaysInLiteral` | src/main.rs:161-163 | the key `O\'Neil` is compared as `O'Neil`, with nothing after the literal |
| `Wql.SplicedKeyFilter` | src/main.rs:161-163 | a key with no backslash before its first quote, spliced between quotes, is read as the literal up to that quote, with the rest of the key as query text |
| `Wql.EscapedQuoteInLiteral` | src/main.rs:161-163 | between two stretches with no quote or backslash, `\'` puts a quote into the literal and the next quote closes it |
| `Wql.SplicedKeyVerbatimIffPlain` | src/main.rs:203-205 | the spliced key is the literal, with nothing after it, if and only if it holds neither a quote nor a backslash |
| `Query.Request` | src/main.rs:214-219 | the query text is submitted unchanged, in the language `WQL`, with exactly the forward-only and return-immediately flags |
| `Query.QueryOneOutcome` | src/main.rs:208-232 | an `Ok(Some(record))` result is the `from_row` record of the first object the executed query yields |
| `Query.FirstRowOutcome` | src/main.rs:224-230 | a cursor failure is the result; a `Some` record only comes from the first row's `from_row` |
| `Query.ReadFirst` | src/main.rs:221-230 | one Next into a fresh one-slot buffer gives `FirstRowOutcome` of the cursor's rows and fault; the cursor is stepped exactly once and hands out at most one object |
| `Query.QueryOne` | src/main.rs:208-232 | the method returns `QueryOneOutcome`; the namespace's opened cursors grow by exactly one new cursor when ExecQuery succeeds and by none otherwise, and that cursor is stepped exactly once and hands out at most one object |
| `Query.ExecFailurePropagates` | src/main.rs:214-219 | an ExecQuery failure is the result |
| `Query.NextFailurePropagates` | src/main.rs:224 | a Next failure is the result, whatever rows the cursor holds |
| `Query.NoMatchIsNone` | src/main.rs:225-229 | an empty cursor gives `Ok(None)`, which is no record at all |
| `Query.FirstRowDecides` | src/main.rs:225-227 | a filled slot gives that object's record, or its `from_row` error |
| `Query.OnlyFirstRowMatters` | src/main.rs:221-230 | cursors that agree on the first object give the same result: at most one row is read |
| `Query.NotFoundIsNotAnEmptyRecord` | src/main.rs:221-230 | no matching object (`Ok(None)`) is told apart from an object with no properties (a record of `None`s) |

## Left out

- `init_com` and `connect_hyperv_wmi` (src/main.rs:39-73) are not modelled. They are one-shot COM calls whose only logic is `?` propagation. The namespace handle they produce is the `Wmi.Namespace` parameter.
- `Args`, clap parsing, the tracing subscriber, the log messages and `main` (src/main.rs:28-37, 234-251) are not modelled. They are I/O only.
- How `VarFormat` actually formats a value (locale, first day and first week, VARIANT types) is not modelled. Each `Wmi.Variant` records what VarFormat returns for it.
- WMI query evaluation is not modelled. `Wmi.Namespace` maps each request to a cursor or an error, so no real class or filter is evaluated.
- COM reference counting is not modelled. That covers releasing the row objects, the enumerator (including rows never handed out), the BSTR and the HSTRING. `Provider.live` counts only VARIANTs filled by Get and not yet passed to VariantClear.
- `Wmi.Enumerator.Next`: the timeout argument is kept but has no effect, so `WBEM_S_TIMEDOUT` never arises. The code passes `WBEM_INFINITE`.
- `Wmi.Enumerator.Next`: a cursor that fails does so on every call. The code calls Next only once.
- The WQL reader reads a backslash before any character as taking that character literally. WQL defines `\\` and `\'`; what the provider does with other escapes is not modelled.
- The `Debug` output of the records is not modelled.
- Concurrency is not modelled: the code is single-threaded and synchronous.

## Findings

| source | as written | input that shows it | evidently intended | confidence | as-written member | corrected member |
|---|---|---|---|---|---|---|
| src/main.rs:102-110 | On a `VarFormat` failure, both the `DISP_E_TYPEMISMATCH` path and the other-error path return before `VariantClear(&mut value)` at line 112. `VARIANT` from `windows::Win32::System::Com` has no destructor, so the value filled by a successful `Get` is never released. | A property whose value VarFormat rejects with `DISP_E_TYPEMISMATCH`, such as an array-valued property. `get_row_item` returns `Ok(None)` with one VARIANT still live. | The VARIANT is cleared on every path after a successful Get, with the same outcome. | medium; not executed | `Marshal.FormatFailureSkipsClear` (with `Marshal.GetRowItem`) | `Marshal.GetRowItemScoped` (with `Marshal.ScopedClearsEveryValue`) |

Both versions have the same outcome function, `Marshal.RowItem`. So the record
and query layers are the same for the as-written and the corrected reader. The
corrected reader also ends with exactly as many live VARIANTs as it started
with.
