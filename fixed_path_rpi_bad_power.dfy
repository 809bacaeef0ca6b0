/** The earlier detector (rpi-bad-power/__init__.py). Instead of scanning
    the hwmon class directory it assumes the voltage sensor is always
    hwmon0 and tests one fixed alarm path; the decoding rules are the same
    as in the current detector. */
module FixedPathRpiBadPower {
  import opened Wrappers
  import opened SysFs
  import Decoders
  import RpiBadPower

  const Sysfile: string := "/sys/class/hwmon/hwmon0/in0_lcrit_alarm"

  /** The reader this version creates: the fixed hwmon0 alarm file, or the
      legacy firmware file. */
  datatype UnderVoltage = Hwmon0 | Legacy

  /** The fixed path is where the current detector reads when it finds the
      sensor at hwmon0. */
  lemma SysfileIsHwmon0Alarm()
    ensures Sysfile == RpiBadPower.AlarmPath(RpiBadPower.EntryDir("hwmon0"))
  {
  }

  /** new_under_voltage of this version: the hwmon0 reader exactly when the
      fixed alarm file exists, even if get_throttled exists too; the legacy
      reader exactly when only get_throttled exists; otherwise None. It
      never lists a directory and so never raises. */
  function NewUnderVoltage(fs: FileSystem): (r: Option<UnderVoltage>)
    ensures r == Some(Hwmon0) <==> HasFile(fs, Sysfile)
    ensures r == Some(Legacy) <==> !HasFile(fs, Sysfile) && HasFile(fs, RpiBadPower.LegacyThrottledPath)
    ensures r == None <==> !HasFile(fs, Sysfile) && !HasFile(fs, RpiBadPower.LegacyThrottledPath)
  {
    if HasFile(fs, Sysfile) then Some(Hwmon0)
    else if HasFile(fs, RpiBadPower.LegacyThrottledPath) then Some(Legacy)
    else None
  }

  /** `get` of this version decodes exactly as the current one does, with
      the hwmon reader bound to hwmon0. */
  function Get(reader: UnderVoltage, fs: FileSystem): (r: Result<bool, PyError>)
    ensures reader.Hwmon0? ==> r == RpiBadPower.Get(RpiBadPower.Hwmon(RpiBadPower.EntryDir("hwmon0")), fs)
    ensures reader.Legacy? ==> r == RpiBadPower.Get(RpiBadPower.Legacy, fs)
  {
    SysfileIsHwmon0Alarm();
    match reader
    case Hwmon0 =>
      (match ReadText(fs, Sysfile)
       case Failure(e) => Failure(e)
       case Success(bit) => Success(Decoders.DecodeAlarm(bit)))
    case Legacy =>
      match ReadText(fs, RpiBadPower.LegacyThrottledPath)
      case Failure(e) => Failure(e)
      case Success(throttled) => Decoders.DecodeThrottled(throttled)
  }

  /** Where the sensor is hwmon0 and is the only hwmon entry, both versions
      choose readers that report the same status on every later read. */
  lemma AgreesWithScanOnSingleDevice(fs: FileSystem, later: FileSystem)
    requires fs.hwmonEntries == Some(["hwmon0"])
    requires RpiBadPower.IsRpiVolt(fs, "hwmon0") && HasFile(fs, Sysfile)
    ensures NewUnderVoltage(fs) == Some(Hwmon0)
    ensures RpiBadPower.Locate(fs) == Success(Some(RpiBadPower.Hwmon(RpiBadPower.EntryDir("hwmon0"))))
    ensures Get(Hwmon0, later) == RpiBadPower.Get(RpiBadPower.Locate(fs).value.value, later)
  {
    assert RpiBadPower.IsFirstRpiVolt(fs, ["hwmon0"], 0);
  }
}
