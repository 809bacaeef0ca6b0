/** The current detector (rpi_bad_power/__init__.py): find the hwmon
    device the Raspberry Pi firmware driver registers as "rpi_volt", fall
    back to the firmware's get_throttled file on older kernels, and read
    the under-voltage flag through whichever of the two was found. */
module RpiBadPower {
  import opened Wrappers
  import opened PythonStr
  import opened SysFs
  import opened PythonInt
  import Decoders

  const HwmonName: string := "rpi_volt"
  const HwmonDir: string := "/sys/class/hwmon"
  const HwmonAlarmFile: string := "in0_lcrit_alarm"
  const LegacyThrottledPath: string := "/sys/devices/platform/soc/soc:firmware/get_throttled"

  /** A reader created by discovery and never changed afterwards: the hwmon
      device directory it was bound to, or the legacy firmware file. */
  datatype UnderVoltage = Hwmon(dir: string) | Legacy

  function EntryDir(entry: string): string
  {
    Join(HwmonDir, entry)
  }

  function NamePath(entry: string): string
  {
    Join(EntryDir(entry), "name")
  }

  function AlarmPath(dir: string): string
  {
    Join(dir, HwmonAlarmFile)
  }

  /** The entry has a `name` file whose stripped text is "rpi_volt". */
  predicate IsRpiVolt(fs: FileSystem, entry: string)
  {
    HasFile(fs, NamePath(entry)) && Strip(Contents(fs, NamePath(entry))) == HwmonName
  }

  predicate HasRpiVolt(fs: FileSystem, entries: seq<string>)
  {
    exists i :: 0 <= i < |entries| && IsRpiVolt(fs, entries[i])
  }

  /** Entry `i` is the first "rpi_volt" device in listing order. */
  predicate IsFirstRpiVolt(fs: FileSystem, entries: seq<string>, i: int)
  {
    0 <= i < |entries| && IsRpiVolt(fs, entries[i])
    && forall j :: 0 <= j < i ==> !IsRpiVolt(fs, entries[j])
  }

  /** The name test only looks at the text between surrounding whitespace:
      an entry qualifies exactly when its name file reads "rpi_volt" padded
      with whitespace on either side, such as "rpi_volt\n". */
  lemma IsRpiVoltPadded(fs: FileSystem, entry: string)
    ensures IsRpiVolt(fs, entry) <==>
      HasFile(fs, NamePath(entry)) && exists i :: PaddedAt(Contents(fs, NamePath(entry)), i, HwmonName)
  {
    if HasFile(fs, NamePath(entry)) {
      StripIsWord(Contents(fs, NamePath(entry)), HwmonName);
    }
  }

  /** Position of the first "rpi_volt" entry, if any. */
  function FirstRpiVolt(fs: FileSystem, entries: seq<string>): (r: Option<nat>)
    ensures r.Some? ==> IsFirstRpiVolt(fs, entries, r.value)
    ensures r.None? <==> !HasRpiVolt(fs, entries)
    decreases |entries|
  {
    if entries == [] then None
    else if IsRpiVolt(fs, entries[0]) then Some(0)
    else
      match FirstRpiVolt(fs, entries[1..])
      case None => None
      case Some(i) => Some(i + 1)
  }

  /** What get_rpi_volt_hwmon returns: the directory of the first entry, in
      listing order, whose stripped name is "rpi_volt"; None when no entry
      qualifies; FileNotFoundError when the hwmon directory is missing. */
  function ScanHwmon(fs: FileSystem): (r: Result<Option<string>, PyError>)
    ensures r.Failure? <==> fs.hwmonEntries.None?
    ensures r.Failure? ==> r.error == FileNotFoundError(HwmonDir)
    ensures r.Success? ==> (r.value.None? <==> !HasRpiVolt(fs, fs.hwmonEntries.value))
    ensures r.Success? && r.value.Some? ==>
      exists i :: IsFirstRpiVolt(fs, fs.hwmonEntries.value, i)
                  && r.value.value == EntryDir(fs.hwmonEntries.value[i])
  {
    match fs.hwmonEntries
    case None => Failure(FileNotFoundError(HwmonDir))
    case Some(entries) =>
      match FirstRpiVolt(fs, entries)
      case None => Success(None)
      case Some(i) =>
        assert IsFirstRpiVolt(fs, entries, i);
        Success(Some(EntryDir(entries[i])))
  }

  /** Discovery returns the directory of the first "rpi_volt" entry. */
  lemma LocateFindsFirst(fs: FileSystem, i: int)
    requires fs.hwmonEntries.Some? && IsFirstRpiVolt(fs, fs.hwmonEntries.value, i)
    ensures Locate(fs) == Success(Some(Hwmon(EntryDir(fs.hwmonEntries.value[i]))))
  {
  }

  /** The accesses the scan makes for one entry: os.path.isfile on its name
      file, then open() when that file exists. */
  function EntryProbes(fs: FileSystem, entry: string): seq<Probe>
  {
    [IsFile(NamePath(entry))] + (if HasFile(fs, NamePath(entry)) then [Open(NamePath(entry))] else [])
  }

  /** The accesses the scan makes, entry by entry, up to the first match. */
  function ScanProbes(fs: FileSystem, entries: seq<string>): seq<Probe>
    decreases |entries|
  {
    if entries == [] then []
    else EntryProbes(fs, entries[0]) + (if IsRpiVolt(fs, entries[0]) then [] else ScanProbes(fs, entries[1..]))
  }

  /** get_rpi_volt_hwmon: list the hwmon directory and walk its entries in
      order, returning at the first one named "rpi_volt". */
  method GetRpiVoltHwmon(fs: FileSystem) returns (hwmon: Result<Option<string>, PyError>, probes: seq<Probe>)
    ensures hwmon == ScanHwmon(fs)
    ensures probes == [ListDir(HwmonDir)] + (if fs.hwmonEntries.Some? then ScanProbes(fs, fs.hwmonEntries.value) else [])
  {
    probes := [ListDir(HwmonDir)];
    if fs.hwmonEntries.None? {
      return Failure(FileNotFoundError(HwmonDir)), probes;
    }
    var entries := fs.hwmonEntries.value;
    var i := 0;
    assert entries[i..] == entries;
    while i < |entries|
      invariant 0 <= i <= |entries|
      invariant forall j :: 0 <= j < i ==> !IsRpiVolt(fs, entries[j])
      invariant probes + ScanProbes(fs, entries[i..]) == [ListDir(HwmonDir)] + ScanProbes(fs, entries)
    {
      ScanProbesStep(fs, entries, i);
      var isRpiVolt, entryProbes := CheckEntry(fs, entries[i]);
      probes := probes + entryProbes;
      if isRpiVolt {
        FirstRpiVoltIs(fs, entries, i);
        return Success(Some(EntryDir(entries[i]))), probes;
      }
      i := i + 1;
    }
    assert !HasRpiVolt(fs, entries);
    return Success(None), probes;
  }

  /** One step of the scan: os.path.isfile on the entry's name file, then,
      when it exists, open it and compare its stripped text with "rpi_volt". */
  method CheckEntry(fs: FileSystem, entry: string) returns (isRpiVolt: bool, probes: seq<Probe>)
    ensures isRpiVolt == IsRpiVolt(fs, entry)
    ensures probes == EntryProbes(fs, entry)
  {
    var nameFile := NamePath(entry);
    probes := [IsFile(nameFile)];
    isRpiVolt := false;
    if HasFile(fs, nameFile) {
      probes := probes + [Open(nameFile)];
      var hwmonName := Strip(Contents(fs, nameFile));
      isRpiVolt := hwmonName == HwmonName;
    }
  }

  lemma ScanProbesStep(fs: FileSystem, entries: seq<string>, i: nat)
    requires i < |entries|
    ensures ScanProbes(fs, entries[i..]) ==
      EntryProbes(fs, entries[i]) + (if IsRpiVolt(fs, entries[i]) then [] else ScanProbes(fs, entries[i + 1..]))
  {
    assert entries[i..][1..] == entries[i + 1..];
  }

  /** The first match is the one FirstRpiVolt reports. */
  lemma FirstRpiVoltIs(fs: FileSystem, entries: seq<string>, i: int)
    requires IsFirstRpiVolt(fs, entries, i)
    ensures FirstRpiVolt(fs, entries) == Some(i)
  {
    assert HasRpiVolt(fs, entries);
  }

  /** What new_under_voltage returns. An hwmon match wins whether or not
      the legacy file exists; the legacy reader is chosen exactly when the
      scan finds nothing and get_throttled exists; otherwise None. A
      missing hwmon directory is raised, not mapped to None. */
  function Locate(fs: FileSystem): (r: Result<Option<UnderVoltage>, PyError>)
    ensures r.Failure? <==> fs.hwmonEntries.None?
    ensures r.Failure? ==> r.error == FileNotFoundError(HwmonDir)
    ensures r.Success? ==>
      ((r.value.Some? && r.value.value.Hwmon?) <==> HasRpiVolt(fs, fs.hwmonEntries.value))
    ensures r.Success? && r.value.Some? && r.value.value.Hwmon? ==>
      exists i :: IsFirstRpiVolt(fs, fs.hwmonEntries.value, i)
                  && r.value.value.dir == EntryDir(fs.hwmonEntries.value[i])
    ensures r == Success(Some(Legacy)) <==>
      fs.hwmonEntries.Some? && !HasRpiVolt(fs, fs.hwmonEntries.value) && HasFile(fs, LegacyThrottledPath)
    ensures r == Success(None) <==>
      fs.hwmonEntries.Some? && !HasRpiVolt(fs, fs.hwmonEntries.value) && !HasFile(fs, LegacyThrottledPath)
  {
    match ScanHwmon(fs)
    case Failure(e) => Failure(e)
    case Success(hwmon) =>
      // `if hwmon:` is false for None and for the empty string; a found
      // directory is never empty.
      if hwmon.Some? && hwmon.value != "" then Success(Some(Hwmon(hwmon.value)))
      else if HasFile(fs, LegacyThrottledPath) then Success(Some(Legacy))
      else Success(None)
  }

  /** new_under_voltage as written: UnderVoltageLegacy inherits
      UnderVoltage.__init__(self, hwmon), so the fallback's call without an
      argument raises TypeError. The legacy reader is never returned; every
      other outcome is the intended one. */
  function LocateAsWritten(fs: FileSystem): (r: Result<Option<UnderVoltage>, PyError>)
    ensures r == Failure(TypeError("hwmon")) <==>
      fs.hwmonEntries.Some? && !HasRpiVolt(fs, fs.hwmonEntries.value) && HasFile(fs, LegacyThrottledPath)
    ensures r.Success? ==> r.value != Some(Legacy)
    ensures r != Failure(TypeError("hwmon")) ==> r == Locate(fs)
  {
    var intended := Locate(fs);
    if intended == Success(Some(Legacy)) then Failure(TypeError("hwmon")) else intended
  }

  /** The accesses new_under_voltage makes: the listing, the scan, and the
      legacy isfile check only when the scan found nothing. */
  function LocateProbes(fs: FileSystem): seq<Probe>
  {
    match fs.hwmonEntries
    case None => [ListDir(HwmonDir)]
    case Some(entries) =>
      [ListDir(HwmonDir)] + ScanProbes(fs, entries)
      + (if HasRpiVolt(fs, entries) then [] else [IsFile(LegacyThrottledPath)])
  }

  /** new_under_voltage: scan for the hwmon device, fall back to the legacy
      file, and build the matching reader. */
  method NewUnderVoltage(fs: FileSystem) returns (reader: Result<Option<UnderVoltage>, PyError>, probes: seq<Probe>)
    ensures reader == Locate(fs)
    ensures probes == LocateProbes(fs)
  {
    var hwmon;
    hwmon, probes := GetRpiVoltHwmon(fs);
    if hwmon.Failure? {
      return Failure(hwmon.error), probes;
    }
    if hwmon.value.Some? && hwmon.value.value != "" {
      return Success(Some(Hwmon(hwmon.value.value))), probes;
    }
    probes := probes + [IsFile(LegacyThrottledPath)];
    if HasFile(fs, LegacyThrottledPath) {
      return Success(Some(Legacy)), probes;
    }
    return Success(None), probes;
  }

  /** `get` of either reader: read the bound file now and decode it. The
      hwmon reader fails only when its alarm file is gone, and reports
      under-voltage exactly for a raw "1" followed by one character or by
      "\r\n" (text mode turns "\r\n" into "\n"). The legacy reader fails
      when get_throttled is gone or does not hold hexadecimal digits, and
      otherwise reports bit 16 of the value. */
  function Get(reader: UnderVoltage, fs: FileSystem): (r: Result<bool, PyError>)
    ensures reader.Hwmon? ==>
      (r.Failure? <==> !HasFile(fs, AlarmPath(reader.dir)))
    ensures reader.Hwmon? && r.Failure? ==> r.error == FileNotFoundError(AlarmPath(reader.dir))
    ensures reader.Hwmon? ==>
      (r == Success(true) <==>
         HasFile(fs, AlarmPath(reader.dir)) && AlarmRawOn(fs.files[AlarmPath(reader.dir)]))
    ensures reader.Legacy? && !HasFile(fs, LegacyThrottledPath) ==>
      r == Failure(FileNotFoundError(LegacyThrottledPath))
    ensures reader.Legacy? && HasFile(fs, LegacyThrottledPath) ==>
      var text := Contents(fs, LegacyThrottledPath);
      (r.Failure? <==> |text| <= 1 || !AllHexDigits(text[..|text| - 1]))
      && (r.Success? ==> (r.value <==> IsBitSet(HexValue(text[..|text| - 1]), 16)))
  {
    match reader
    case Hwmon(dir) =>
      (match ReadText(fs, AlarmPath(dir))
       case Failure(e) => Failure(e)
       case Success(bit) =>
         AlarmRawOnDecodes(fs.files[AlarmPath(dir)]);
         Success(Decoders.DecodeAlarm(bit)))
    case Legacy =>
      match ReadText(fs, LegacyThrottledPath)
      case Failure(e) => Failure(e)
      case Success(throttled) => Decoders.DecodeThrottled(throttled)
  }

  /** The hwmon reader reports what its alarm file currently holds. */
  lemma GetHwmonReads(fs: FileSystem, dir: string, raw: string)
    requires HasFile(fs, AlarmPath(dir)) && fs.files[AlarmPath(dir)] == raw
    ensures Get(Hwmon(dir), fs) == Success(AlarmRawOn(raw))
  {
  }

  /** Raw alarm-file contents that read as under-voltage. */
  predicate AlarmRawOn(raw: string)
  {
    (|raw| == 2 && raw[0] == '1') || raw == "1\r\n"
  }

  lemma AlarmRawOnDecodes(raw: string)
    ensures Decoders.DecodeAlarm(UniversalNewlines(raw)) <==> AlarmRawOn(raw)
  {
    if raw != [] && raw[0] != '\r' {
      var rest := raw[1..];
      var text := UniversalNewlines(raw);
      assert text == [raw[0]] + UniversalNewlines(rest);
      UniversalNewlinesSingle(rest);
      assert |text| == 2 <==> |rest| == 1 || rest == "\r\n";
      assert raw == [raw[0]] + rest;
      assert raw == "1\r\n" <==> raw[0] == '1' && rest == "\r\n";
    }
  }

  /** The selection depends on nothing but whether each entry is "rpi_volt". */
  lemma {:induction false} FirstRpiVoltSameNames(fs1: FileSystem, fs2: FileSystem, entries: seq<string>)
    requires forall e :: e in entries ==> (IsRpiVolt(fs1, e) <==> IsRpiVolt(fs2, e))
    ensures FirstRpiVolt(fs1, entries) == FirstRpiVolt(fs2, entries)
    decreases |entries|
  {
    if entries != [] {
      assert entries[0] in entries;
      assert forall e :: e in entries[1..] ==> e in entries;
      FirstRpiVoltSameNames(fs1, fs2, entries[1..]);
    }
  }

  /** A path ends with "/name": the only kind of file discovery opens. */
  predicate IsNameFile(path: string)
  {
    |path| >= 5 && path[|path| - 5..] == "/name"
  }

  lemma NamePathIsNameFile(entry: string)
    ensures IsNameFile(NamePath(entry))
  {
    var p := NamePath(entry);
    assert p == EntryDir(entry) + "/name";
    assert p[|p| - 5..] == "/name";
  }

  lemma StatusFilesAreNotNameFiles(dir: string)
    ensures !IsNameFile(LegacyThrottledPath)
    ensures !IsNameFile(AlarmPath(dir))
  {
    var p := AlarmPath(dir);
    assert p[|p| - 1] == 'm';
    assert LegacyThrottledPath[|LegacyThrottledPath| - 1] == 'd';
  }

  /** The scan only checks and opens name files. */
  lemma {:induction false} ScanProbesTouchNameFiles(fs: FileSystem, entries: seq<string>)
    ensures forall p :: p in ScanProbes(fs, entries) ==> !p.ListDir? && IsNameFile(p.path)
    decreases |entries|
  {
    if entries != [] {
      NamePathIsNameFile(entries[0]);
      ScanProbesTouchNameFiles(fs, entries[1..]);
    }
  }

  /** Discovery lists the hwmon directory exactly once, first, and never
      opens an alarm file or the legacy file: no status is read until
      `get` is called. */
  lemma LocateReadsNoStatus(fs: FileSystem)
    ensures LocateProbes(fs)[0] == ListDir(HwmonDir)
    ensures forall k :: 0 < k < |LocateProbes(fs)| ==> !LocateProbes(fs)[k].ListDir?
    ensures Open(LegacyThrottledPath) !in LocateProbes(fs)
    ensures forall dir :: Open(AlarmPath(dir)) !in LocateProbes(fs)
  {
    StatusFilesAreNotNameFiles("");
    if fs.hwmonEntries.Some? {
      var entries := fs.hwmonEntries.value;
      ScanProbesTouchNameFiles(fs, entries);
      var probes := LocateProbes(fs);
      forall k | 0 < k < |probes| ensures !probes[k].ListDir? {
        assert probes[k] in probes[1..];
      }
      forall dir ensures Open(AlarmPath(dir)) !in probes {
        StatusFilesAreNotNameFiles(dir);
      }
    }
  }

  /** The legacy file is checked with os.path.isfile exactly once when the
      scan finds nothing, and not at all otherwise. */
  lemma LocateChecksLegacyOnce(fs: FileSystem)
    ensures multiset(LocateProbes(fs))[IsFile(LegacyThrottledPath)] ==
      if fs.hwmonEntries.Some? && !HasRpiVolt(fs, fs.hwmonEntries.value) then 1 else 0
  {
    StatusFilesAreNotNameFiles("");
    if fs.hwmonEntries.Some? {
      ScanProbesTouchNameFiles(fs, fs.hwmonEntries.value);
      assert IsFile(LegacyThrottledPath) !in ScanProbes(fs, fs.hwmonEntries.value);
    }
  }

  /** An hwmon match is chosen whether or not get_throttled exists: adding
      or removing the legacy file does not change the outcome. */
  lemma HwmonWinsOverLegacy(fs: FileSystem, raw: string)
    requires fs.hwmonEntries.Some? && HasRpiVolt(fs, fs.hwmonEntries.value)
    ensures Locate(fs.(files := fs.files[LegacyThrottledPath := raw])) == Locate(fs)
    ensures Locate(fs.(files := fs.files - {LegacyThrottledPath})) == Locate(fs)
  {
    var entries := fs.hwmonEntries.value;
    var with := fs.(files := fs.files[LegacyThrottledPath := raw]);
    var without := fs.(files := fs.files - {LegacyThrottledPath});
    forall e | e in entries
      ensures (IsRpiVolt(with, e) <==> IsRpiVolt(fs, e)) && (IsRpiVolt(without, e) <==> IsRpiVolt(fs, e))
    {
      NamePathIsNameFile(e);
      StatusFilesAreNotNameFiles("");
    }
    FirstRpiVoltSameNames(with, fs, entries);
    FirstRpiVoltSameNames(without, fs, entries);
  }

  /** new_under_voltage as its test suite expects it (test_non_rpi with no
      hwmon directory): a missing directory counts as an empty one, so
      discovery never raises and falls back to the legacy file. */
  function LocateTolerant(fs: FileSystem): (r: Result<Option<UnderVoltage>, PyError>)
    ensures r.Success?
    ensures fs.hwmonEntries.Some? ==> r == Locate(fs)
    ensures fs.hwmonEntries.None? ==>
      (r.value == Some(Legacy) <==> HasFile(fs, LegacyThrottledPath))
      && (r.value == None <==> !HasFile(fs, LegacyThrottledPath))
  {
    match fs.hwmonEntries
    case None => Locate(fs.(hwmonEntries := Some([])))
    case Some(_) => Locate(fs)
  }

  /** What `get` reads: the alarm file of the bound device, or get_throttled. */
  function ReadPath(reader: UnderVoltage): string
  {
    match reader
    case Hwmon(dir) => AlarmPath(dir)
    case Legacy => LegacyThrottledPath
  }

  /** `get` keeps no state and caches nothing: it is decided by the current
      content of the one file it reads, so repeated calls over unchanged
      content agree, whatever else on the system changed. */
  lemma GetDependsOnlyOnItsFile(reader: UnderVoltage, fs1: FileSystem, fs2: FileSystem)
    requires ReadPath(reader) in fs1.files <==> ReadPath(reader) in fs2.files
    requires ReadPath(reader) in fs1.files ==> fs1.files[ReadPath(reader)] == fs2.files[ReadPath(reader)]
    ensures Get(reader, fs1) == Get(reader, fs2)
  {
  }
}
