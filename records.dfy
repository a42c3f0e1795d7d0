/**
 * The two record shapes of src/main.rs, `HyperVVmSettings` and
 * `HyperVVmStatus`: their `from_row` struct expressions and their
 * `query_one(key)` query texts.
 */
module Records {
  import opened Com
  import opened Wmi
  import opened Marshal
  import Utf16
  import Wql

  /** Reads one property by name, as `get_row_item(row, _)` does for a fixed row. */
  type Reader = string -> Result<Option<string>>

  function ItemReader(row: Row): Reader {
    name => RowItem(row, name)
  }

  /** `HyperVVmSettings`: a snapshot of an Msvm_VirtualSystemSettingData object. */
  datatype VmSettings = VmSettings(
    virtualSystemIdentifier: Option<string>,
    configurationDataRoot: Option<string>,
    configurationFile: Option<string>,
    firmwareFile: Option<string>,
    firmwareParameters: Option<string>,
    guestStateDataRoot: Option<string>,
    guestStateFile: Option<string>,
    guestStateIsolationEnabled: Option<string>,
    guestStateIsolationType: Option<string>,
    isSaved: Option<string>,
    virtualSystemSubType: Option<string>,
    secureBootEnabled: Option<string>,
    turnOffOnGuestRestart: Option<string>,
    version: Option<string>
  )

  /** The property names `VmSettingsFromRow` reads, in declaration order. */
  const SettingsColumns: seq<string> := [
    "VirtualSystemIdentifier",
    "ConfigurationDataRoot",
    "ConfigurationFile",
    "FirmwareFile",
    "FirmwareParameters",
    "GuestStateDataRoot",
    "GuestStateFile",
    "GuestStateIsolationEnabled",
    "GuestStateIsolationType",
    "IsSaved",
    "VirtualSystemSubType",
    "SecureBootEnabled",
    "TurnOffOnGuestRestart",
    "Version"
  ]

  /** The fields of a `VmSettings`, in declaration order. */
  function SettingsFields(r: VmSettings): (fs: seq<Option<string>>)
    ensures |fs| == |SettingsColumns|
  {
    [r.virtualSystemIdentifier, r.configurationDataRoot, r.configurationFile, r.firmwareFile, r.firmwareParameters, r.guestStateDataRoot, r.guestStateFile, r.guestStateIsolationEnabled, r.guestStateIsolationType, r.isSaved, r.virtualSystemSubType, r.secureBootEnabled, r.turnOffOnGuestRestart, r.version]
  }

  /** The struct expression of `from_row`, with `get_row_item(row, _)` as `read`. */
  function VmSettingsFrom(read: Reader): Result<VmSettings> {
    var virtualSystemIdentifier :- read("VirtualSystemIdentifier");
    var configurationDataRoot :- read("ConfigurationDataRoot");
    var configurationFile :- read("ConfigurationFile");
    var firmwareFile :- read("FirmwareFile");
    var firmwareParameters :- read("FirmwareParameters");
    var guestStateDataRoot :- read("GuestStateDataRoot");
    var guestStateFile :- read("GuestStateFile");
    var guestStateIsolationEnabled :- read("GuestStateIsolationEnabled");
    var guestStateIsolationType :- read("GuestStateIsolationType");
    var isSaved :- read("IsSaved");
    var virtualSystemSubType :- read("VirtualSystemSubType");
    var secureBootEnabled :- read("SecureBootEnabled");
    var turnOffOnGuestRestart :- read("TurnOffOnGuestRestart");
    var version :- read("Version");
    Ok(VmSettings(virtualSystemIdentifier, configurationDataRoot, configurationFile, firmwareFile, firmwareParameters, guestStateDataRoot, guestStateFile, guestStateIsolationEnabled, guestStateIsolationType, isSaved, virtualSystemSubType, secureBootEnabled, turnOffOnGuestRestart, version))
  }

  /** `from_row`: each field from its own property, the first error aborting the record. */
  function VmSettingsFromRow(row: Row): Result<VmSettings> {
    VmSettingsFrom(ItemReader(row))
  }

  lemma VmSettingsFromOkIff(read: Reader)
    ensures VmSettingsFrom(read).Ok? <==> forall i :: 0 <= i < |SettingsColumns| ==> read(SettingsColumns[i]).Ok?
  {
    var c := SettingsColumns;
    if forall i :: 0 <= i < |c| ==> read(c[i]).Ok? {
      assert read(c[0]).Ok? && read(c[1]).Ok? && read(c[2]).Ok? && read(c[3]).Ok?;
      assert read(c[4]).Ok? && read(c[5]).Ok? && read(c[6]).Ok? && read(c[7]).Ok?;
      assert read(c[8]).Ok? && read(c[9]).Ok? && read(c[10]).Ok? && read(c[11]).Ok?;
      assert read(c[12]).Ok? && read(c[13]).Ok?;
    }
  }

  lemma VmSettingsFromValues(read: Reader)
    requires forall i :: 0 <= i < |SettingsColumns| ==> read(SettingsColumns[i]).Ok?
    ensures VmSettingsFrom(read).Ok?
    ensures forall i :: 0 <= i < |SettingsColumns| ==> SettingsFields(VmSettingsFrom(read).value)[i] == read(SettingsColumns[i]).value
  {
    var c := SettingsColumns;
    assert read(c[0]).Ok? && read(c[1]).Ok? && read(c[2]).Ok? && read(c[3]).Ok?;
    assert read(c[4]).Ok? && read(c[5]).Ok? && read(c[6]).Ok? && read(c[7]).Ok?;
    assert read(c[8]).Ok? && read(c[9]).Ok? && read(c[10]).Ok? && read(c[11]).Ok?;
    assert read(c[12]).Ok? && read(c[13]).Ok?;
    assert VmSettingsFrom(read) == Ok(VmSettings(
      read(c[0]).value, read(c[1]).value, read(c[2]).value, read(c[3]).value, read(c[4]).value,
      read(c[5]).value, read(c[6]).value, read(c[7]).value, read(c[8]).value, read(c[9]).value,
      read(c[10]).value, read(c[11]).value, read(c[12]).value, read(c[13]).value));
  }

  lemma VmSettingsFromFirstErrorEarly(read: Reader, k: nat)
    requires 0 <= k < 5 && read(SettingsColumns[k]).Err?
    requires forall j :: 0 <= j < k ==> read(SettingsColumns[j]).Ok?
    ensures VmSettingsFrom(read) == Err(read(SettingsColumns[k]).error)
  {
    var c := SettingsColumns;
    if k == 0 {
    } else if k == 1 {
      assert read(c[0]).Ok?;
    } else if k == 2 {
      assert read(c[0]).Ok? && read(c[1]).Ok?;
    } else if k == 3 {
      assert read(c[0]).Ok? && read(c[1]).Ok? && read(c[2]).Ok?;
    } else {
      assert read(c[0]).Ok? && read(c[1]).Ok? && read(c[2]).Ok? && read(c[3]).Ok?;
    }
  }

  lemma VmSettingsFromFirstErrorMiddle(read: Reader, k: nat)
    requires 5 <= k < 10 && read(SettingsColumns[k]).Err?
    requires forall j :: 0 <= j < k ==> read(SettingsColumns[j]).Ok?
    ensures VmSettingsFrom(read) == Err(read(SettingsColumns[k]).error)
  {
    var c := SettingsColumns;
    if k == 5 {
      assert read(c[0]).Ok? && read(c[1]).Ok? && read(c[2]).Ok? && read(c[3]).Ok?;
      assert read(c[4]).Ok?;
    } else if k == 6 {
      assert read(c[0]).Ok? && read(c[1]).Ok? && read(c[2]).Ok? && read(c[3]).Ok?;
      assert read(c[4]).Ok? && read(c[5]).Ok?;
    } else if k == 7 {
      assert read(c[0]).Ok? && read(c[1]).Ok? && read(c[2]).Ok? && read(c[3]).Ok?;
      assert read(c[4]).Ok? && read(c[5]).Ok? && read(c[6]).Ok?;
    } else if k == 8 {
      assert read(c[0]).Ok? && read(c[1]).Ok? && read(c[2]).Ok? && read(c[3]).Ok?;
      assert read(c[4]).Ok? && read(c[5]).Ok? && read(c[6]).Ok? && read(c[7]).Ok?;
    } else {
      assert read(c[0]).Ok? && read(c[1]).Ok? && read(c[2]).Ok? && read(c[3]).Ok?;
      assert read(c[4]).Ok? && read(c[5]).Ok? && read(c[6]).Ok? && read(c[7]).Ok?;
      assert read(c[8]).Ok?;
    }
  }

  lemma VmSettingsFromFirstErrorLate(read: Reader, k: nat)
    requires 10 <= k < 14 && read(SettingsColumns[k]).Err?
    requires forall j :: 0 <= j < k ==> read(SettingsColumns[j]).Ok?
    ensures VmSettingsFrom(read) == Err(read(SettingsColumns[k]).error)
  {
    var c := SettingsColumns;
    if k == 10 {
      assert read(c[0]).Ok? && read(c[1]).Ok? && read(c[2]).Ok? && read(c[3]).Ok?;
      assert read(c[4]).Ok? && read(c[5]).Ok? && read(c[6]).Ok? && read(c[7]).Ok?;
      assert read(c[8]).Ok? && read(c[9]).Ok?;
    } else if k == 11 {
      assert read(c[0]).Ok? && read(c[1]).Ok? && read(c[2]).Ok? && read(c[3]).Ok?;
      assert read(c[4]).Ok? && read(c[5]).Ok? && read(c[6]).Ok? && read(c[7]).Ok?;
      assert read(c[8]).Ok? && read(c[9]).Ok? && read(c[10]).Ok?;
    } else if k == 12 {
      assert read(c[0]).Ok? && read(c[1]).Ok? && read(c[2]).Ok? && read(c[3]).Ok?;
      assert read(c[4]).Ok? && read(c[5]).Ok? && read(c[6]).Ok? && read(c[7]).Ok?;
      assert read(c[8]).Ok? && read(c[9]).Ok? && read(c[10]).Ok? && read(c[11]).Ok?;
    } else {
      assert read(c[0]).Ok? && read(c[1]).Ok? && read(c[2]).Ok? && read(c[3]).Ok?;
      assert read(c[4]).Ok? && read(c[5]).Ok? && read(c[6]).Ok? && read(c[7]).Ok?;
      assert read(c[8]).Ok? && read(c[9]).Ok? && read(c[10]).Ok? && read(c[11]).Ok?;
      assert read(c[12]).Ok?;
    }
  }

  lemma VmSettingsFromFirstError(read: Reader, k: nat)
    requires k < |SettingsColumns| && read(SettingsColumns[k]).Err?
    requires forall j :: 0 <= j < k ==> read(SettingsColumns[j]).Ok?
    ensures VmSettingsFrom(read) == Err(read(SettingsColumns[k]).error)
  {
    if k < 5 { VmSettingsFromFirstErrorEarly(read, k); }
    else if k < 10 { VmSettingsFromFirstErrorMiddle(read, k); }
    else { VmSettingsFromFirstErrorLate(read, k); }
  }

  /**
   * A record is produced exactly when every property reads without error,
   * and then each field is the outcome for its own property name.
   */
  lemma VmSettingsFromRowFields(row: Row)
    ensures VmSettingsFromRow(row).Ok? <==>
      forall i :: 0 <= i < |SettingsColumns| ==> RowItem(row, SettingsColumns[i]).Ok?
    ensures VmSettingsFromRow(row).Ok? ==>
      forall i :: 0 <= i < |SettingsColumns| ==>
        SettingsFields(VmSettingsFromRow(row).value)[i] == RowItem(row, SettingsColumns[i]).value
  {
    VmSettingsFromOkIff(ItemReader(row));
    if VmSettingsFromRow(row).Ok? { VmSettingsFromValues(ItemReader(row)); }
  }

  /** The error is that of the first property, in declaration order, whose read fails. */
  lemma VmSettingsFromRowFirstError(row: Row, k: nat)
    requires k < |SettingsColumns| && RowItem(row, SettingsColumns[k]).Err?
    requires forall j :: 0 <= j < k ==> RowItem(row, SettingsColumns[j]).Ok?
    ensures VmSettingsFromRow(row) == Err(RowItem(row, SettingsColumns[k]).error)
  {
    VmSettingsFromFirstError(ItemReader(row), k);
  }

  /**
   * The hand-written struct expression is the table-driven read of
   * `SettingsColumns`: the same record, or the same error.
   */
  lemma VmSettingsFromRowReadsColumns(row: Row)
    ensures VmSettingsFromRow(row).Ok? <==> ReadColumns(row, SettingsColumns).Ok?
    ensures VmSettingsFromRow(row).Ok? ==>
      SettingsFields(VmSettingsFromRow(row).value) == ReadColumns(row, SettingsColumns).value
    ensures VmSettingsFromRow(row).Err? ==> VmSettingsFromRow(row).error == ReadColumns(row, SettingsColumns).error
  {
    VmSettingsFromRowFields(row);
    ReadColumnsOk(row, SettingsColumns);
    if VmSettingsFromRow(row).Err? {
      var k := FirstFailure(row, SettingsColumns);
      VmSettingsFromRowFirstError(row, k);
      ReadColumnsFirstError(row, SettingsColumns, k);
    }
  }

  /**
   * Properties after the first failing one are never read: a row that
   * agrees up to that property gives the same result, whatever follows.
   */
  lemma VmSettingsFromRowStopsAtError(row: Row, other: Row, k: nat)
    requires k < |SettingsColumns| && RowItem(row, SettingsColumns[k]).Err?
    requires forall j :: 0 <= j < k ==> RowItem(row, SettingsColumns[j]).Ok?
    requires forall j :: 0 <= j <= k ==> Property(other, SettingsColumns[j]) == Property(row, SettingsColumns[j])
    ensures VmSettingsFromRow(other) == VmSettingsFromRow(row)
  {
    assert forall j :: 0 <= j <= k ==> RowItem(other, SettingsColumns[j]) == RowItem(row, SettingsColumns[j]);
    VmSettingsFromRowFirstError(row, k);
    VmSettingsFromRowFirstError(other, k);
  }

  /** `HyperVVmStatus`: a snapshot of an Msvm_ComputerSystem object. */
  datatype VmStatus = VmStatus(
    communicationStatus: Option<string>,
    healthState: Option<string>,
    hwThreadsPerCoreRealized: Option<string>,
    installDate: Option<string>,
    name: Option<string>,
    numberOfNumaNodes: Option<string>,
    onTimeInMilliseconds: Option<string>,
    operatingStatus: Option<string>,
    powerManagementCapabilities: Option<string>,
    primaryStatus: Option<string>,
    processId: Option<string>,
    resetCapability: Option<string>,
    status: Option<string>
  )

  /** The property names `VmStatusFromRow` reads, in declaration order. */
  const StatusColumns: seq<string> := [
    "CommunicationStatus",
    "HealthState",
    "HwThreadsPerCoreRealized",
    "InstallDate",
    "Name",
    "NumberOfNumaNodes",
    "OnTimeInMilliseconds",
    "OperatingStatus",
    "PowerManagementCapabilities",
    "PrimaryStatus",
    "ProcessID",
    "ResetCapability",
    "Status"
  ]

  /** The fields of a `VmStatus`, in declaration order. */
  function StatusFields(r: VmStatus): (fs: seq<Option<string>>)
    ensures |fs| == |StatusColumns|
  {
    [r.communicationStatus, r.healthState, r.hwThreadsPerCoreRealized, r.installDate, r.name, r.numberOfNumaNodes, r.onTimeInMilliseconds, r.operatingStatus, r.powerManagementCapabilities, r.primaryStatus, r.processId, r.resetCapability, r.status]
  }

  /** The struct expression of `from_row`, with `get_row_item(row, _)` as `read`. */
  function VmStatusFrom(read: Reader): Result<VmStatus> {
    var communicationStatus :- read("CommunicationStatus");
    var healthState :- read("HealthState");
    var hwThreadsPerCoreRealized :- read("HwThreadsPerCoreRealized");
    var installDate :- read("InstallDate");
    var name :- read("Name");
    var numberOfNumaNodes :- read("NumberOfNumaNodes");
    var onTimeInMilliseconds :- read("OnTimeInMilliseconds");
    var operatingStatus :- read("OperatingStatus");
    var powerManagementCapabilities :- read("PowerManagementCapabilities");
    var primaryStatus :- read("PrimaryStatus");
    var processId :- read("ProcessID");
    var resetCapability :- read("ResetCapability");
    var status :- read("Status");
    Ok(VmStatus(communicationStatus, healthState, hwThreadsPerCoreRealized, installDate, name, numberOfNumaNodes, onTimeInMilliseconds, operatingStatus, powerManagementCapabilities, primaryStatus, processId, resetCapability, status))
  }

  /** `from_row`: each field from its own property, the first error aborting the record. */
  function VmStatusFromRow(row: Row): Result<VmStatus> {
    VmStatusFrom(ItemReader(row))
  }

  lemma VmStatusFromOkIff(read: Reader)
    ensures VmStatusFrom(read).Ok? <==> forall i :: 0 <= i < |StatusColumns| ==> read(StatusColumns[i]).Ok?
  {
    var c := StatusColumns;
    if forall i :: 0 <= i < |c| ==> read(c[i]).Ok? {
      assert read(c[0]).Ok? && read(c[1]).Ok? && read(c[2]).Ok? && read(c[3]).Ok?;
      assert read(c[4]).Ok? && read(c[5]).Ok? && read(c[6]).Ok? && read(c[7]).Ok?;
      assert read(c[8]).Ok? && read(c[9]).Ok? && read(c[10]).Ok? && read(c[11]).Ok?;
      assert read(c[12]).Ok?;
    }
  }

  lemma VmStatusFromValues(read: Reader)
    requires forall i :: 0 <= i < |StatusColumns| ==> read(StatusColumns[i]).Ok?
    ensures VmStatusFrom(read).Ok?
    ensures forall i :: 0 <= i < |StatusColumns| ==> StatusFields(VmStatusFrom(read).value)[i] == read(StatusColumns[i]).value
  {
    var c := StatusColumns;
    forall i | 0 <= i < |c| ensures read(c[i]).Ok? { }
    assert VmStatusFrom(read) == Ok(VmStatus(
      read(c[0]).value, read(c[1]).value, read(c[2]).value, read(c[3]).value, read(c[4]).value,
      read(c[5]).value, read(c[6]).value, read(c[7]).value, read(c[8]).value, read(c[9]).value,
      read(c[10]).value, read(c[11]).value, read(c[12]).value));
    assert StatusFields(VmStatusFrom(read).value) == [
      read(c[0]).value, read(c[1]).value, read(c[2]).value, read(c[3]).value, read(c[4]).value,
      read(c[5]).value, read(c[6]).value, read(c[7]).value, read(c[8]).value, read(c[9]).value,
      read(c[10]).value, read(c[11]).value, read(c[12]).value];
  }

  lemma VmStatusFromFirstErrorEarly(read: Reader, k: nat)
    requires 0 <= k < 5 && read(StatusColumns[k]).Err?
    requires forall j :: 0 <= j < k ==> read(StatusColumns[j]).Ok?
    ensures VmStatusFrom(read) == Err(read(StatusColumns[k]).error)
  {
    var c := StatusColumns;
    if k == 0 {
    } else if k == 1 {
      assert read(c[0]).Ok?;
    } else if k == 2 {
      assert read(c[0]).Ok? && read(c[1]).Ok?;
    } else if k == 3 {
      assert read(c[0]).Ok? && read(c[1]).Ok? && read(c[2]).Ok?;
    } else {
      assert read(c[0]).Ok? && read(c[1]).Ok? && read(c[2]).Ok? && read(c[3]).Ok?;
    }
  }

  lemma VmStatusFromFirstErrorMiddle(read: Reader, k: nat)
    requires 5 <= k < 10 && read(StatusColumns[k]).Err?
    requires forall j :: 0 <= j < k ==> read(StatusColumns[j]).Ok?
    ensures VmStatusFrom(read) == Err(read(StatusColumns[k]).error)
  {
    var c := StatusColumns;
    if k == 5 {
      assert read(c[0]).Ok? && read(c[1]).Ok? && read(c[2]).Ok? && read(c[3]).Ok?;
      assert read(c[4]).Ok?;
    } else if k == 6 {
      assert read(c[0]).Ok? && read(c[1]).Ok? && read(c[2]).Ok? && read(c[3]).Ok?;
      assert read(c[4]).Ok? && read(c[5]).Ok?;
    } else if k == 7 {
      assert read(c[0]).Ok? && read(c[1]).Ok? && read(c[2]).Ok? && read(c[3]).Ok?;
      assert read(c[4]).Ok? && read(c[5]).Ok? && read(c[6]).Ok?;
    } else if k == 8 {
      assert read(c[0]).Ok? && read(c[1]).Ok? && read(c[2]).Ok? && read(c[3]).Ok?;
      assert read(c[4]).Ok? && read(c[5]).Ok? && read(c[6]).Ok? && read(c[7]).Ok?;
    } else {
      assert read(c[0]).Ok? && read(c[1]).Ok? && read(c[2]).Ok? && read(c[3]).Ok?;
      assert read(c[4]).Ok? && read(c[5]).Ok? && read(c[6]).Ok? && read(c[7]).Ok?;
      assert read(c[8]).Ok?;
    }
  }

  lemma VmStatusFromFirstErrorLate(read: Reader, k: nat)
    requires 10 <= k < 13 && read(StatusColumns[k]).Err?
    requires forall j :: 0 <= j < k ==> read(StatusColumns[j]).Ok?
    ensures VmStatusFrom(read) == Err(read(StatusColumns[k]).error)
  {
    var c := StatusColumns;
    if k == 10 {
      assert read(c[0]).Ok? && read(c[1]).Ok? && read(c[2]).Ok? && read(c[3]).Ok?;
      assert read(c[4]).Ok? && read(c[5]).Ok? && read(c[6]).Ok? && read(c[7]).Ok?;
      assert read(c[8]).Ok? && read(c[9]).Ok?;
    } else if k == 11 {
      assert read(c[0]).Ok? && read(c[1]).Ok? && read(c[2]).Ok? && read(c[3]).Ok?;
      assert read(c[4]).Ok? && read(c[5]).Ok? && read(c[6]).Ok? && read(c[7]).Ok?;
      assert read(c[8]).Ok? && read(c[9]).Ok? && read(c[10]).Ok?;
    } else {
      assert read(c[0]).Ok? && read(c[1]).Ok? && read(c[2]).Ok? && read(c[3]).Ok?;
      assert read(c[4]).Ok? && read(c[5]).Ok? && read(c[6]).Ok? && read(c[7]).Ok?;
      assert read(c[8]).Ok? && read(c[9]).Ok? && read(c[10]).Ok? && read(c[11]).Ok?;
    }
  }

  lemma VmStatusFromFirstError(read: Reader, k: nat)
    requires k < |StatusColumns| && read(StatusColumns[k]).Err?
    requires forall j :: 0 <= j < k ==> read(StatusColumns[j]).Ok?
    ensures VmStatusFrom(read) == Err(read(StatusColumns[k]).error)
  {
    if k < 5 { VmStatusFromFirstErrorEarly(read, k); }
    else if k < 10 { VmStatusFromFirstErrorMiddle(read, k); }
    else { VmStatusFromFirstErrorLate(read, k); }
  }

  /**
   * A record is produced exactly when every property reads without error,
   * and then each field is the outcome for its own property name.
   */
  lemma VmStatusFromRowFields(row: Row)
    ensures VmStatusFromRow(row).Ok? <==>
      forall i :: 0 <= i < |StatusColumns| ==> RowItem(row, StatusColumns[i]).Ok?
    ensures VmStatusFromRow(row).Ok? ==>
      forall i :: 0 <= i < |StatusColumns| ==>
        StatusFields(VmStatusFromRow(row).value)[i] == RowItem(row, StatusColumns[i]).value
  {
    VmStatusFromOkIff(ItemReader(row));
    if VmStatusFromRow(row).Ok? { VmStatusFromValues(ItemReader(row)); }
  }

  /** The error is that of the first property, in declaration order, whose read fails. */
  lemma VmStatusFromRowFirstError(row: Row, k: nat)
    requires k < |StatusColumns| && RowItem(row, StatusColumns[k]).Err?
    requires forall j :: 0 <= j < k ==> RowItem(row, StatusColumns[j]).Ok?
    ensures VmStatusFromRow(row) == Err(RowItem(row, StatusColumns[k]).error)
  {
    VmStatusFromFirstError(ItemReader(row), k);
  }

  /**
   * The hand-written struct expression is the table-driven read of
   * `StatusColumns`: the same record, or the same error.
   */
  lemma VmStatusFromRowReadsColumns(row: Row)
    ensures VmStatusFromRow(row).Ok? <==> ReadColumns(row, StatusColumns).Ok?
    ensures VmStatusFromRow(row).Ok? ==>
      StatusFields(VmStatusFromRow(row).value) == ReadColumns(row, StatusColumns).value
    ensures VmStatusFromRow(row).Err? ==> VmStatusFromRow(row).error == ReadColumns(row, StatusColumns).error
  {
    VmStatusFromRowFields(row);
    ReadColumnsOk(row, StatusColumns);
    if VmStatusFromRow(row).Err? {
      var k := FirstFailure(row, StatusColumns);
      VmStatusFromRowFirstError(row, k);
      ReadColumnsFirstError(row, StatusColumns, k);
    }
  }

  /**
   * Properties after the first failing one are never read: a row that
   * agrees up to that property gives the same result, whatever follows.
   */
  lemma VmStatusFromRowStopsAtError(row: Row, other: Row, k: nat)
    requires k < |StatusColumns| && RowItem(row, StatusColumns[k]).Err?
    requires forall j :: 0 <= j < k ==> RowItem(row, StatusColumns[j]).Ok?
    requires forall j :: 0 <= j <= k ==> Property(other, StatusColumns[j]) == Property(row, StatusColumns[j])
    ensures VmStatusFromRow(other) == VmStatusFromRow(row)
  {
    assert forall j :: 0 <= j <= k ==> RowItem(other, StatusColumns[j]) == RowItem(row, StatusColumns[j]);
    VmStatusFromRowFirstError(row, k);
    VmStatusFromRowFirstError(other, k);
  }

  // ---------------------------------------------------------------------
  // Properties the record shapes share with the marshalling policy

  /** A type-mismatched property is `None` in its own field and never aborts the record. */
  lemma VmSettingsMismatchIsNone(row: Row, i: nat)
    requires i < |SettingsColumns|
    requires Property(row, SettingsColumns[i]).Got?
    requires Property(row, SettingsColumns[i]).value.format == FormatFailed(DISP_E_TYPEMISMATCH)
    ensures VmSettingsFromRow(row).Ok? <==>
      forall j :: 0 <= j < |SettingsColumns| && j != i ==> RowItem(row, SettingsColumns[j]).Ok?
    ensures VmSettingsFromRow(row).Ok? ==> SettingsFields(VmSettingsFromRow(row).value)[i] == None
  {
    VmSettingsFromRowFields(row);
    AbsentIffNotFoundOrMismatch(row, SettingsColumns[i]);
  }

  /** A type-mismatched property is `None` in its own field and never aborts the record. */
  lemma VmStatusMismatchIsNone(row: Row, i: nat)
    requires i < |StatusColumns|
    requires Property(row, StatusColumns[i]).Got?
    requires Property(row, StatusColumns[i]).value.format == FormatFailed(DISP_E_TYPEMISMATCH)
    ensures VmStatusFromRow(row).Ok? <==>
      forall j :: 0 <= j < |StatusColumns| && j != i ==> RowItem(row, StatusColumns[j]).Ok?
    ensures VmStatusFromRow(row).Ok? ==> StatusFields(VmStatusFromRow(row).value)[i] == None
  {
    VmStatusFromRowFields(row);
    AbsentIffNotFoundOrMismatch(row, StatusColumns[i]);
  }

  /**
   * An object with `SecureBootEnabled` formatted as "True" and no `Version`
   * (nor any other property) gives a record with just that one field set.
   */
  lemma SecureBootOnlyScenario()
    ensures VmSettingsFromRow(Row(map["SecureBootEnabled" := Got(Variant(Formatted(Utf16.Encode("True")), 0))])) ==
      Ok(VmSettings(None, None, None, None, None, None, None, None, None, None, None, Some("True"), None, None))
  {
    var row := Row(map["SecureBootEnabled" := Got(Variant(Formatted(Utf16.Encode("True")), 0))]);
    PresentIffFormattedAs(row, "SecureBootEnabled", "True");
    assert RowItem(row, "VirtualSystemIdentifier") == Ok(None);
    assert RowItem(row, "ConfigurationDataRoot") == Ok(None);
    assert RowItem(row, "ConfigurationFile") == Ok(None);
    assert RowItem(row, "FirmwareFile") == Ok(None);
    assert RowItem(row, "FirmwareParameters") == Ok(None);
    assert RowItem(row, "GuestStateDataRoot") == Ok(None);
    assert RowItem(row, "GuestStateFile") == Ok(None);
    assert RowItem(row, "GuestStateIsolationEnabled") == Ok(None);
    assert RowItem(row, "GuestStateIsolationType") == Ok(None);
    assert RowItem(row, "IsSaved") == Ok(None);
    assert RowItem(row, "VirtualSystemSubType") == Ok(None);
    assert RowItem(row, "TurnOffOnGuestRestart") == Ok(None);
    assert RowItem(row, "Version") == Ok(None);
  }

  /** An object with none of the properties still gives a record, every field `None`. */
  lemma EmptyRowIsAllNone()
    ensures VmSettingsFromRow(Row(map[])) ==
      Ok(VmSettings(None, None, None, None, None, None, None, None, None, None, None, None, None, None))
  {
    var row := Row(map[]);
    assert RowItem(row, "VirtualSystemIdentifier") == Ok(None);
    assert RowItem(row, "ConfigurationDataRoot") == Ok(None);
    assert RowItem(row, "ConfigurationFile") == Ok(None);
    assert RowItem(row, "FirmwareFile") == Ok(None);
    assert RowItem(row, "FirmwareParameters") == Ok(None);
    assert RowItem(row, "GuestStateDataRoot") == Ok(None);
    assert RowItem(row, "GuestStateFile") == Ok(None);
    assert RowItem(row, "GuestStateIsolationEnabled") == Ok(None);
    assert RowItem(row, "GuestStateIsolationType") == Ok(None);
    assert RowItem(row, "IsSaved") == Ok(None);
    assert RowItem(row, "VirtualSystemSubType") == Ok(None);
    assert RowItem(row, "SecureBootEnabled") == Ok(None);
    assert RowItem(row, "TurnOffOnGuestRestart") == Ok(None);
    assert RowItem(row, "Version") == Ok(None);
  }

  // ---------------------------------------------------------------------
  // `query_one(key)`

  /** The text of each query up to the opening quote of its ElementName literal. */
  const SettingsQueryOpening := "SELECT * FROM Msvm_VirtualSystemSettingData WHERE ElementName='"
  const StatusQueryOpening := "SELECT * FROM Msvm_ComputerSystem WHERE ElementName='"

  /** `HyperVVmSettings::query_one(key)`: the key is spliced in as it is. */
  function VmSettingsQuery(key: string): string {
    SettingsQueryOpening + key + "'"
  }

  /** `HyperVVmStatus::query_one(key)`: the key is spliced in as it is. */
  function VmStatusQuery(key: string): string {
    StatusQueryOpening + key + "'"
  }

  /**
   * The settings query selects on exactly the key if and only if the key holds
   * no quote and no backslash; a quote with no backslash before it ends the
   * literal early and the rest of the key is read as query text.
   */
  lemma VmSettingsQueryFilter(key: string)
    ensures Wql.ElementNameFilter(VmSettingsQuery(key), SettingsQueryOpening) == Some(Wql.Filter(key, ""))
        <==> '\'' !in key && '\\' !in key
    ensures '\'' in key && '\\' !in key[..Wql.FirstQuote(key)] ==>
      var i := Wql.FirstQuote(key);
      Wql.ElementNameFilter(VmSettingsQuery(key), SettingsQueryOpening) ==
        Some(Wql.Filter(key[..i], key[i + 1..] + "'"))
  {
    Wql.SplicedKeyFilter(SettingsQueryOpening, key);
    Wql.SplicedKeyVerbatimIffPlain(SettingsQueryOpening, key);
  }

  /** The status query: the same splicing, over Msvm_ComputerSystem. */
  lemma VmStatusQueryFilter(key: string)
    ensures Wql.ElementNameFilter(VmStatusQuery(key), StatusQueryOpening) == Some(Wql.Filter(key, ""))
        <==> '\'' !in key && '\\' !in key
    ensures '\'' in key && '\\' !in key[..Wql.FirstQuote(key)] ==>
      var i := Wql.FirstQuote(key);
      Wql.ElementNameFilter(VmStatusQuery(key), StatusQueryOpening) ==
        Some(Wql.Filter(key[..i], key[i + 1..] + "'"))
  {
    Wql.SplicedKeyFilter(StatusQueryOpening, key);
    Wql.SplicedKeyVerbatimIffPlain(StatusQueryOpening, key);
  }

  /** A key such as `x' OR ElementName<>'` turns the filter into one that matches every object. */
  lemma QuotedKeyWidensFilter()
    ensures Wql.ElementNameFilter(VmSettingsQuery("x' OR ElementName<>'"), SettingsQueryOpening) ==
      Some(Wql.Filter("x", " OR ElementName<>''"))
  {
    var key := "x' OR ElementName<>'";
    assert key[1] == '\'';
    assert Wql.FirstQuote(key) == 1;
    assert key[..1] == "x";
    VmSettingsQueryFilter(key);
    assert key[2..] + "'" == " OR ElementName<>''";
  }

  /** A key ending in a backslash escapes the closing quote, so the literal is never closed. */
  lemma TrailingBackslashLeavesLiteralOpen()
    ensures Wql.ElementNameFilter(VmSettingsQuery("vm\\"), SettingsQueryOpening) == None
  {
    Wql.FilterAfterOpening(SettingsQueryOpening, "vm\\'");
    assert SettingsQueryOpening + "vm\\" + "'" == SettingsQueryOpening + "vm\\'";
    assert "vm\\'"[1..] == "m\\'" && "m\\'"[1..] == "\\'" && "\\'"[2..] == [];
  }

  /** An escaped quote in the key stays inside the literal, without its backslash. */
  lemma EscapedQuoteStaysInLiteral()
    ensures Wql.ElementNameFilter(VmSettingsQuery("O\\'Neil"), SettingsQueryOpening) ==
      Some(Wql.Filter("O'Neil", ""))
  {
    Wql.EscapedQuoteSpliced(SettingsQueryOpening);
  }
}
