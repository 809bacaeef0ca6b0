/** The filesystem layouts of the package's test suite, and what both
    detectors do on them. A mocked file holds the value the test gives it
    followed by "\n". */
module TestVectors {
  import opened Wrappers
  import opened SysFs
  import opened PythonStr
  import opened PythonInt
  import opened RpiBadPower
  import Decoders
  import FixedPath = FixedPathRpiBadPower

  function AlarmText(underVoltage: bool): string
  {
    if underVoltage then "1\n" else "0\n"
  }

  /** hwmon0 is a thermal sensor, hwmon1 has no name file, hwmon2 is rpi_volt. */
  function MultiLayout(underVoltage: bool): FileSystem
  {
    FileSystem(
      map["/sys/class/hwmon/hwmon0/name" := "cpu_thermal\n",
          "/sys/class/hwmon/hwmon2/name" := "rpi_volt\n",
          "/sys/class/hwmon/hwmon2/in0_lcrit_alarm" := AlarmText(underVoltage)],
      Some(["hwmon0", "hwmon1", "hwmon2"]))
  }

  /** A single hwmon entry, hwmon0, which is rpi_volt. */
  function SingleLayout(underVoltage: bool): FileSystem
  {
    FileSystem(
      map["/sys/class/hwmon/hwmon0/name" := "rpi_volt\n",
          "/sys/class/hwmon/hwmon0/in0_lcrit_alarm" := AlarmText(underVoltage)],
      Some(["hwmon0"]))
  }

  /** An older kernel: an empty hwmon directory and the firmware file. */
  function LegacyLayout(underVoltage: bool): FileSystem
  {
    FileSystem(
      map[LegacyThrottledPath := if underVoltage then "50005\n" else "0\n"],
      Some([]))
  }

  /** Not a Raspberry Pi: an empty hwmon directory and nothing else. */
  function EmptyLayout(): FileSystem
  {
    FileSystem(map[], Some([]))
  }

  /** No hwmon directory at all. */
  function NoHwmonLayout(): FileSystem
  {
    FileSystem(map[], None)
  }

  /** A name file written as the mock writes it, the name and a newline,
      qualifies exactly when the name is "rpi_volt". */
  lemma MockName(fs: FileSystem, entry: string, name: string)
    requires name != [] && !IsSpace(name[0]) && !IsSpace(name[|name| - 1])
    requires forall i :: 0 <= i < |name| ==> name[i] != '\r'
    requires HasFile(fs, NamePath(entry)) && fs.files[NamePath(entry)] == name + "\n"
    ensures IsRpiVolt(fs, entry) <==> name == HwmonName
  {
    var raw := name + "\n";
    assert raw[..0] == [] && raw[0..|name|] == name && raw[|name|..] == "\n";
    assert PaddedAt(raw, 0, name);
    StripPadded(raw, name, 0);
  }

  lemma MultiHwmon0(underVoltage: bool)
    ensures !IsRpiVolt(MultiLayout(underVoltage), "hwmon0")
  {
    assert NamePath("hwmon0") == "/sys/class/hwmon/hwmon0/name";
    assert MultiLayout(underVoltage).files["/sys/class/hwmon/hwmon0/name"] == "cpu_thermal" + "\n";
    MockName(MultiLayout(underVoltage), "hwmon0", "cpu_thermal");
  }

  lemma MultiHwmon1(underVoltage: bool)
    ensures !IsRpiVolt(MultiLayout(underVoltage), "hwmon1")
  {
    assert NamePath("hwmon1") == "/sys/class/hwmon/hwmon1/name";
    assert "/sys/class/hwmon/hwmon1/name" !in MultiLayout(underVoltage).files;
  }

  lemma MultiHwmon2(underVoltage: bool)
    ensures IsRpiVolt(MultiLayout(underVoltage), "hwmon2")
  {
    assert NamePath("hwmon2") == "/sys/class/hwmon/hwmon2/name";
    assert MultiLayout(underVoltage).files["/sys/class/hwmon/hwmon2/name"] == "rpi_volt" + "\n";
    MockName(MultiLayout(underVoltage), "hwmon2", "rpi_volt");
  }

  lemma LocateThird(fs: FileSystem, e0: string, e1: string, e2: string)
    requires fs.hwmonEntries == Some([e0, e1, e2])
    requires !IsRpiVolt(fs, e0) && !IsRpiVolt(fs, e1) && IsRpiVolt(fs, e2)
    ensures Locate(fs) == Success(Some(Hwmon(EntryDir(e2))))
  {
    LocateFindsFirst(fs, 2);
  }

  lemma LocateOnly(fs: FileSystem, e: string)
    requires fs.hwmonEntries == Some([e]) && IsRpiVolt(fs, e)
    ensures Locate(fs) == Success(Some(Hwmon(EntryDir(e))))
  {
    LocateFindsFirst(fs, 0);
  }

  /** test_multi: the third entry is found past one that is named otherwise
      and one without a name file, and its alarm decides the status. */
  lemma MultiSelectsHwmon2(underVoltage: bool)
    ensures Locate(MultiLayout(underVoltage)) == Success(Some(Hwmon("/sys/class/hwmon/hwmon2")))
    ensures Get(Hwmon("/sys/class/hwmon/hwmon2"), MultiLayout(underVoltage)) == Success(underVoltage)
  {
    MultiLocate(underVoltage);
    EntryDirs();
    MultiAlarm(underVoltage);
  }

  lemma MultiLocate(underVoltage: bool)
    ensures Locate(MultiLayout(underVoltage)) == Success(Some(Hwmon(EntryDir("hwmon2"))))
  {
    MultiHwmon0(underVoltage);
    MultiHwmon1(underVoltage);
    MultiHwmon2(underVoltage);
    LocateThird(MultiLayout(underVoltage), "hwmon0", "hwmon1", "hwmon2");
  }

  lemma EntryDirs()
    ensures EntryDir("hwmon0") == "/sys/class/hwmon/hwmon0"
    ensures EntryDir("hwmon2") == "/sys/class/hwmon/hwmon2"
  {
  }

  lemma MultiAlarm(underVoltage: bool)
    ensures Get(Hwmon("/sys/class/hwmon/hwmon2"), MultiLayout(underVoltage)) == Success(underVoltage)
  {
    assert "/sys/class/hwmon/hwmon2" + "/in0_lcrit_alarm" == "/sys/class/hwmon/hwmon2/in0_lcrit_alarm";
    AlarmReads(MultiLayout(underVoltage), "/sys/class/hwmon/hwmon2", underVoltage);
  }

  /** An alarm file the mock wrote reads back as the flag it was given. */
  lemma AlarmReads(fs: FileSystem, dir: string, underVoltage: bool)
    requires dir + "/in0_lcrit_alarm" in fs.files && fs.files[dir + "/in0_lcrit_alarm"] == AlarmText(underVoltage)
    ensures Get(Hwmon(dir), fs) == Success(underVoltage)
  {
    assert AlarmPath(dir) == dir + "/in0_lcrit_alarm";
    GetHwmonReads(fs, dir, AlarmText(underVoltage));
  }

  lemma SingleHwmon0(underVoltage: bool)
    ensures IsRpiVolt(SingleLayout(underVoltage), "hwmon0")
  {
    assert NamePath("hwmon0") == "/sys/class/hwmon/hwmon0/name";
    assert SingleLayout(underVoltage).files["/sys/class/hwmon/hwmon0/name"] == "rpi_volt" + "\n";
    MockName(SingleLayout(underVoltage), "hwmon0", "rpi_volt");
  }

  /** test_new: a single rpi_volt entry. */
  lemma SingleSelectsHwmon0(underVoltage: bool)
    ensures Locate(SingleLayout(underVoltage)) == Success(Some(Hwmon("/sys/class/hwmon/hwmon0")))
    ensures Get(Hwmon("/sys/class/hwmon/hwmon0"), SingleLayout(underVoltage)) == Success(underVoltage)
  {
    SingleLocate(underVoltage);
    EntryDirs();
    SingleAlarm(underVoltage);
  }

  lemma SingleLocate(underVoltage: bool)
    ensures Locate(SingleLayout(underVoltage)) == Success(Some(Hwmon(EntryDir("hwmon0"))))
  {
    SingleHwmon0(underVoltage);
    LocateOnly(SingleLayout(underVoltage), "hwmon0");
  }

  lemma SingleAlarm(underVoltage: bool)
    ensures Get(Hwmon("/sys/class/hwmon/hwmon0"), SingleLayout(underVoltage)) == Success(underVoltage)
  {
    assert "/sys/class/hwmon/hwmon0" + "/in0_lcrit_alarm" == "/sys/class/hwmon/hwmon0/in0_lcrit_alarm";
    AlarmReads(SingleLayout(underVoltage), "/sys/class/hwmon/hwmon0", underVoltage);
  }

  /** test_legacy: the legacy reader is chosen after a single isfile check
      of get_throttled, and "50005" (bit 16 set) means under-voltage. */
  lemma LegacySelected(underVoltage: bool)
    ensures Locate(LegacyLayout(underVoltage)) == Success(Some(Legacy))
    ensures LocateProbes(LegacyLayout(underVoltage)) == [ListDir(HwmonDir), IsFile(LegacyThrottledPath)]
    ensures Get(Legacy, LegacyLayout(underVoltage)) == Success(underVoltage)
  {
    assert !HasRpiVolt(LegacyLayout(underVoltage), []);
    LegacyReads(underVoltage);
  }

  lemma LegacyReads(underVoltage: bool)
    ensures Get(Legacy, LegacyLayout(underVoltage)) == Success(underVoltage)
  {
    var fs := LegacyLayout(underVoltage);
    if underVoltage {
      assert Contents(fs, LegacyThrottledPath) == "50005\n";
      Throttled50005();
    } else {
      assert Contents(fs, LegacyThrottledPath) == "0\n";
      Throttled0();
    }
  }

  /** test_legacy as the code is written: the fallback raises TypeError
      where the test expects the legacy reader. */
  lemma LegacyFallbackRaises(underVoltage: bool)
    ensures LocateAsWritten(LegacyLayout(underVoltage)) == Failure(TypeError("hwmon"))
    ensures Locate(LegacyLayout(underVoltage)) == Success(Some(Legacy))
  {
    assert !HasRpiVolt(LegacyLayout(underVoltage), []);
  }

  /** The first test_non_rpi: nothing is found, the hwmon directory is
      listed once and the legacy file is only checked for. */
  lemma NonRpiFindsNothing()
    ensures Locate(EmptyLayout()) == Success(None)
    ensures LocateProbes(EmptyLayout()) == [ListDir(HwmonDir), IsFile(LegacyThrottledPath)]
  {
    assert !HasRpiVolt(EmptyLayout(), []);
  }

  /** The second test_non_rpi expects None without a hwmon directory; the
      code as written raises FileNotFoundError there instead. */
  lemma NoHwmonDirRaises()
    ensures Locate(NoHwmonLayout()) == Failure(FileNotFoundError(HwmonDir))
    ensures LocateTolerant(NoHwmonLayout()) == Success(None)
  {
    assert !HasRpiVolt(NoHwmonLayout(), []);
  }

  /** The alarm vectors: "1\n" is under-voltage, "0\n", empty and a bare
      "1" are not. */
  lemma AlarmVectors()
    ensures Decoders.DecodeAlarm("1\n")
    ensures !Decoders.DecodeAlarm("0\n") && !Decoders.DecodeAlarm("") && !Decoders.DecodeAlarm("1")
  {
  }

  /** "50005": bit 16 is set. */
  lemma Throttled50005()
    ensures Decoders.DecodeThrottled("50005\n") == Success(true)
  {
    var t := "50005\n";
    assert t[..5] == "50005";
    assert AllHexDigits(t[..5]);
    assert DigitValue(t[0]) == 5;
  }

  /** "40005": bit 18 and the low bits are set, bit 16 is not. */
  lemma Throttled40005()
    ensures Decoders.DecodeThrottled("40005\n") == Success(false)
  {
    var t := "40005\n";
    assert t[..5] == "40005";
    assert AllHexDigits(t[..5]);
    assert DigitValue(t[0]) == 4;
  }

  lemma Throttled0()
    ensures Decoders.DecodeThrottled("0\n") == Success(false)
  {
    var t := "0\n";
    assert t[..1] == "0";
    assert AllHexDigits(t[..1]);
  }

  /** Empty content, and a character that is not a hexadecimal digit, raise
      ValueError of the trimmed text. */
  lemma ThrottledMalformed()
    ensures Decoders.DecodeThrottled("") == Failure(ValueError(""))
    ensures Decoders.DecodeThrottled("\n") == Failure(ValueError(""))
    ensures Decoders.DecodeThrottled("50g05\n") == Failure(ValueError("50g05"))
  {
    var t := "50g05\n";
    assert t[..5] == "50g05";
    assert !IsHexDigit(t[..5][2]);
  }

  /** The earlier version finds the sensor only at hwmon0: on the
      multi-entry layout it finds nothing, while the current one finds
      hwmon2. */
  lemma FixedPathMissesHwmon2(underVoltage: bool)
    ensures FixedPath.NewUnderVoltage(MultiLayout(underVoltage)) == None
    ensures Locate(MultiLayout(underVoltage)).value.Some?
  {
    MultiSelectsHwmon2(underVoltage);
    MultiLacksFixedFiles(underVoltage);
  }

  lemma MultiLacksFixedFiles(underVoltage: bool)
    ensures FixedPath.Sysfile !in MultiLayout(underVoltage).files
    ensures LegacyThrottledPath !in MultiLayout(underVoltage).files
  {
    var alarm2 := "/sys/class/hwmon/hwmon2/in0_lcrit_alarm";
    assert |FixedPath.Sysfile| == |alarm2| == 39;
    assert FixedPath.Sysfile[22] == '0' && alarm2[22] == '2';
    assert |"/sys/class/hwmon/hwmon0/name"| == |"/sys/class/hwmon/hwmon2/name"| == 28;
    assert |LegacyThrottledPath| == 52;
  }

  /** hwmon0 is rpi_volt, but it has no alarm file. */
  function NoAlarmLayout(): FileSystem
  {
    FileSystem(map["/sys/class/hwmon/hwmon0/name" := "rpi_volt\n"], Some(["hwmon0"]))
  }

  /** The earlier version needs hwmon0's alarm file, not its name: without
      that file it finds nothing, while the current one still binds hwmon0. */
  lemma FixedPathNeedsAlarmFile()
    ensures FixedPath.NewUnderVoltage(NoAlarmLayout()) == None
    ensures Locate(NoAlarmLayout()) == Success(Some(Hwmon(EntryDir("hwmon0"))))
  {
    NoAlarmLocate();
    NoAlarmLacksFixedFiles();
  }

  lemma NoAlarmLocate()
    ensures Locate(NoAlarmLayout()) == Success(Some(Hwmon(EntryDir("hwmon0"))))
  {
    var fs := NoAlarmLayout();
    assert NamePath("hwmon0") == "/sys/class/hwmon/hwmon0/name";
    assert fs.files["/sys/class/hwmon/hwmon0/name"] == "rpi_volt" + "\n";
    MockName(fs, "hwmon0", "rpi_volt");
    LocateOnly(fs, "hwmon0");
  }

  lemma NoAlarmLacksFixedFiles()
    ensures FixedPath.Sysfile !in NoAlarmLayout().files
    ensures LegacyThrottledPath !in NoAlarmLayout().files
  {
    assert |FixedPath.Sysfile| == 39 && |LegacyThrottledPath| == 52;
    assert |"/sys/class/hwmon/hwmon0/name"| == 28;
  }

  /** On the single-entry layout the earlier version agrees with the
      current one: it binds hwmon0 and reads its alarm. */
  lemma FixedPathFindsHwmon0(underVoltage: bool)
    ensures FixedPath.NewUnderVoltage(SingleLayout(underVoltage)) == Some(FixedPath.Hwmon0)
    ensures FixedPath.Get(FixedPath.Hwmon0, SingleLayout(underVoltage)) == Success(underVoltage)
  {
    SingleSelectsHwmon0(underVoltage);
    FixedPath.SysfileIsHwmon0Alarm();
    assert FixedPath.Sysfile in SingleLayout(underVoltage).files;
  }
}
