# rpi-bad-power under-voltage detector, modelled in Dafny

This project models the detection engine of `rpi_bad_power`. The engine answers one question on a Raspberry Pi: has the board's supply voltage dropped below its limit? It does this in two steps:

- **Discovery** (`new_under_voltage`) walks the entries of `/sys/class/hwmon` in listing order. It picks the first entry whose `name` file, stripped of surrounding whitespace, reads `rpi_volt`. When no entry qualifies, it is meant to fall back to the firmware file `/sys/devices/platform/soc/soc:firmware/get_throttled`. As written, that fallback raises `TypeError` (see Findings). When that file is missing too, it returns nothing.
- **Reading** (`get`) opens the chosen file, drops its last character and decodes the rest:
  - hwmon: the remainder equals `"1"`;
  - legacy: bit 16 (`1 << 16`, the firmware's sticky under-voltage flag) of the remainder read as base 16.

The older copy of the engine (`rpi-bad-power/__init__.py`) skips the scan. It always tests the fixed path `/sys/class/hwmon/hwmon0/in0_lcrit_alarm` and decodes the same way.

Modules, one file each:

- `Wrappers`: `Option` and `Result`.
- `PythonStr`: `str.strip()` with Python's whitespace set, and `s[:-1]`.
- `PythonInt`: `int(s, 16)` on plain hexadecimal digits, Python's `&` on non-negative integers, and the bit test `(n / 2^k) % 2 == 1`.
- `SysFs`: the filesystem as a value, the exceptions that escape, and the record of accesses a call makes.
  - Files map absolute paths to raw content.
  - The hwmon listing is `None` when `os.listdir` raises.
  - Accesses are `os.listdir`, `os.path.isfile` and `open`.
  - Reads go through text mode's newline translation.
- `Decoders`: the hwmon rule and the legacy rule.
- `RpiBadPower`: the current engine.
  - The scan is a method with a loop, proved equal to a specification function.
  - Discovery is a method proved equal to its own function.
  - The readers are an immutable datatype `Hwmon(dir) | Legacy`, since the one field `_hwmon` is set once and never changed.
  - `get` is a function of the reader and the filesystem.
- `FixedPathRpiBadPower`: the older engine, related to the current one.
- `TestVectors`: the layouts of the package's test suite and the decoder vectors. Each is stated as a lemma about the model.

Where the documented intent and the code disagree, the model follows the code, with one exception:

- The legacy fallback at rpi_bad_power/__init__.py:37 raises `TypeError` as written. `RpiBadPower.LocateAsWritten` follows the code there. `RpiBadPower.Locate`, `RpiBadPower.NewUnderVoltage`, `RpiBadPower.LocateTolerant` and `TestVectors.LegacySelected` give the intended legacy reader instead (Findings, first row). On every other input they agree with the code.

- `[:-1]` drops the last character, whatever it is. It is not a newline strip, so `"1"` alone reads as not under-voltage, and so does `"1\n\n"`.
- A missing hwmon directory raises `FileNotFoundError`. It does not count as "no source" (see Findings).
- `get` raises instead of returning `False` when its file is missing or holds non-hexadecimal text.

Notes on the test suite (test_rpi_bad_power.py), which are not modelled:

- Line 6 imports `UnderVoltageNew`, which the package does not define.
- `test_non_rpi` is defined twice (lines 102 and 109), so the first definition is shadowed.
- The mock checks that every opened file is closed (lines 70-72, 98). The code never closes the files it opens, so the engine does not promise this.

## Model

| member | source | states |
|---|---|---|
| PythonStr.StripIsPadded | rpi_bad_power/__init__.py:26 | `strip()` leaves no whitespace at either end, and its input is its result with only whitespace before and after |
| PythonStr.StripIsWord | rpi_bad_power/__init__.py:26 | for a word without edge whitespace, `strip(s)` equals the word exactly when `s` is that word padded with whitespace on either side (both directions) |
| PythonStr.DropLast | rpi_bad_power/__init__.py:50 | `s[:-1]` is `s` without its last character, whatever that character is; on the empty string it is empty |
| PythonInt.ParseHex | rpi_bad_power/__init__.py:64 | `int(s, base=16)` restricted to plain hexadecimal digits: the parse fails exactly on the empty string and on a string holding a character that is not a hexadecimal digit; a success is below `16^len(s)` |
| PythonInt.ParseHexToHex | rpi_bad_power/__init__.py:64 | the parse inverts `'%x'` printing: every natural number survives the round trip |
| PythonInt.HexValueDigit | rpi_bad_power/__init__.py:64 | base-16 digit `k` of the parsed value is the `k`-th character from the right, and zero past the string |
| PythonInt.BitAndPow2 | rpi_bad_power/__init__.py:64-65 | `n & 2^k` is `2^k` when bit `k` of `n` is set and `0` otherwise |
| SysFs.UniversalNewlines | rpi_bad_power/__init__.py:50 | text-mode `read()` yields no `'\r'`, is no longer than the raw content, is empty only for empty content, and changes nothing in content without `'\r'` |
| SysFs.UniversalNewlinesSingle | rpi_bad_power/__init__.py:50 | a read yields exactly one character when the raw content is one character or `"\r\n"` |
| Decoders.StickyBitIsBit16 | rpi_bad_power/__init__.py:16 | `1 << 16` is `2^16`, which is `16^4` |
| Decoders.DecodeAlarm | rpi_bad_power/__init__.py:50-52 | the hwmon rule reports under-voltage exactly for a two-character text starting with `'1'` |
| Decoders.DecodeThrottled | rpi_bad_power/__init__.py:61-66 | the legacy rule fails with `ValueError` of the trimmed text exactly when that text is empty or not all hexadecimal digits; otherwise it reports bit 16 of the parsed value, which is the low bit of the fifth digit from the right |
| Decoders.StickyBitsAgree | rpi_bad_power/__init__.py:64-66 | for a hexadecimal literal, the mask test `n & (1 << 16) == 1 << 16`, bit 16 of `n`, and "fifth digit from the right is odd" all agree |
| Decoders.MaskIsBit16 | rpi_bad_power/__init__.py:64-66 | the mask test is the bit-16 test for every non-negative value |
| Decoders.Bit16IsFifthDigit | rpi_bad_power/__init__.py:64 | bit 16 of a parsed literal is set exactly when its fifth digit from the right is odd |
| RpiBadPower.IsRpiVoltPadded | rpi_bad_power/__init__.py:24-27 | an entry qualifies exactly when its `name` file exists and reads `rpi_volt` padded with whitespace, for example `"rpi_volt\n"` |
| RpiBadPower.FirstRpiVolt | rpi_bad_power/__init__.py:23-28 | the position found is a match and no earlier entry matches; nothing is found exactly when no entry matches |
| RpiBadPower.FirstRpiVoltIs | rpi_bad_power/__init__.py:23-28 | the first matching position is the one the search reports |
| RpiBadPower.FirstRpiVoltSameNames | rpi_bad_power/__init__.py:23-28 | the selection depends only on which entries qualify |
| RpiBadPower.ScanHwmon | rpi_bad_power/__init__.py:21-29 | `get_rpi_volt_hwmon` raises `FileNotFoundError` exactly when the directory is missing; it returns `None` exactly when no entry qualifies, and otherwise the directory of the first qualifying entry |
| RpiBadPower.CheckEntry | rpi_bad_power/__init__.py:24-27 | one loop step decides whether the entry qualifies, calling `isfile` on its `name` file and opening that file only when it exists |
| RpiBadPower.GetRpiVoltHwmon | rpi_bad_power/__init__.py:21-29 | the loop returns what `ScanHwmon` specifies; its accesses are the one listing and then, entry by entry up to the first match, the `isfile` and `open` of each name file |
| RpiBadPower.LocateFindsFirst | rpi_bad_power/__init__.py:33-35 | when entry `i` is the first match, discovery returns the hwmon reader for that entry's directory |
| RpiBadPower.Locate | rpi_bad_power/__init__.py:31-38 | the corrected definition of line 37 (Findings, first row): discovery raises exactly when the directory is missing; it returns an hwmon reader exactly when some entry matches, bound to the first; a legacy reader exactly when none matches and `get_throttled` exists; `None` exactly when neither holds |
| RpiBadPower.LocateAsWritten | rpi_bad_power/__init__.py:36-45 | as written, the fallback raises `TypeError` exactly when none matches and `get_throttled` exists; it never returns a legacy reader; every other outcome is the intended one |
| RpiBadPower.NewUnderVoltage | rpi_bad_power/__init__.py:31-38 | with line 37 corrected (Findings, first row), the method returns what `Locate` specifies, and its accesses are the listing, the scan, then one `isfile` of the legacy file only when the scan found nothing |
| RpiBadPower.ScanProbesTouchNameFiles | rpi_bad_power/__init__.py:24-26 | the scan only checks and opens `name` files and never lists a directory |
| RpiBadPower.LocateReadsNoStatus | rpi_bad_power/__init__.py:31-38 | discovery lists the hwmon directory once, first, and opens neither an alarm file nor `get_throttled` |
| RpiBadPower.LocateChecksLegacyOnce | rpi_bad_power/__init__.py:36 | `get_throttled` is checked with `isfile` once when the scan finds nothing, and not at all otherwise |
| RpiBadPower.HwmonWinsOverLegacy | rpi_bad_power/__init__.py:33-37 | when an entry matches, adding or removing `get_throttled` does not change the outcome |
| RpiBadPower.LocateTolerant | test_rpi_bad_power.py:109-112 | a missing hwmon directory counts as an empty one: discovery never raises and otherwise agrees with `Locate` |
| RpiBadPower.Get | rpi_bad_power/__init__.py:47-66 | hwmon `get` fails exactly when the alarm file is missing, and is true exactly for raw `"1"` plus one character or `"1\r\n"`; legacy `get` raises `FileNotFoundError` when the file is gone, fails exactly on non-hexadecimal trimmed text, and otherwise reports bit 16 |
| RpiBadPower.GetHwmonReads | rpi_bad_power/__init__.py:47-52 | the hwmon reader reports what its alarm file currently holds |
| RpiBadPower.AlarmRawOnDecodes | rpi_bad_power/__init__.py:50-52 | after text-mode reading, the hwmon rule is true exactly for raw `"1"` plus one character or `"1\r\n"` |
| RpiBadPower.GetDependsOnlyOnItsFile | rpi_bad_power/__init__.py:44-66 | `get` keeps no state: two filesystems that agree on the reader's one file give the same result |
| FixedPathRpiBadPower.SysfileIsHwmon0Alarm | rpi-bad-power/__init__.py:10 | the fixed path is the alarm file of the entry `hwmon0` |
| FixedPathRpiBadPower.NewUnderVoltage | rpi-bad-power/__init__.py:19-25 | the older discovery returns the hwmon reader exactly when the fixed alarm file exists, whether or not `get_throttled` exists; the legacy reader exactly when only `get_throttled` exists; otherwise `None` |
| FixedPathRpiBadPower.Get | rpi-bad-power/__init__.py:31-50 | the older `get` equals the current `get` on `hwmon0` and on the legacy file |
| FixedPathRpiBadPower.AgreesWithScanOnSingleDevice | rpi-bad-power/__init__.py:19-36 | with `rpi_volt` as the only entry, `hwmon0`, and its `in0_lcrit_alarm` present, both versions choose readers that report the same status on every later read |
| TestVectors.MockName | test_rpi_bad_power.py:9-12 | a name file the mock writes (the name plus `"\n"`) qualifies exactly when the name is `rpi_volt` |
| TestVectors.MultiLocate | test_rpi_bad_power.py:38-41 | hwmon0 named `cpu_thermal`, hwmon1 with no name file and hwmon2 named `rpi_volt`: hwmon2 is selected |
| TestVectors.MultiSelectsHwmon2 | test_rpi_bad_power.py:115-123 | on that layout the reader is hwmon2's, and it reports the alarm the mock wrote |
| TestVectors.SingleSelectsHwmon0 | test_rpi_bad_power.py:126-134 | a single `rpi_volt` entry is selected, and its reader reports the alarm the mock wrote |
| TestVectors.LegacySelected | test_rpi_bad_power.py:137-146 | with an empty directory and `get_throttled`, the legacy reader is chosen after one listing and one `isfile`; `"50005"` means under-voltage, `"0"` does not |
| TestVectors.LegacyReads | test_rpi_bad_power.py:45-46 | the legacy reader reports the flag the mock encoded |
| TestVectors.LegacyFallbackRaises | rpi_bad_power/__init__.py:36-45 | on the legacy layout, the code as written raises `TypeError` where the intended engine returns the legacy reader |
| TestVectors.NonRpiFindsNothing | test_rpi_bad_power.py:102-106 | an empty directory and no legacy file give `None` after one listing and one `isfile` |
| TestVectors.NoHwmonDirRaises | test_rpi_bad_power.py:109-112 | without the hwmon directory the code raises `FileNotFoundError`, while the tolerant definition returns `None` as the test expects |
| TestVectors.AlarmVectors | rpi_bad_power/__init__.py:50-52 | `"1\n"` is under-voltage; `"0\n"`, `""` and `"1"` are not |
| TestVectors.Throttled50005 | test_rpi_bad_power.py:46 | `"50005\n"` reports under-voltage |
| TestVectors.Throttled40005 | rpi_bad_power/__init__.py:61-66 | `"40005\n"` does not: bit 18 is set and bit 16 is not |
| TestVectors.Throttled0 | test_rpi_bad_power.py:46 | `"0\n"` reports no under-voltage |
| TestVectors.ThrottledMalformed | rpi_bad_power/__init__.py:64 | empty content and a lone `"\n"` raise `ValueError("")`, and `"50g05\n"` raises `ValueError("50g05")`, never `False` |
| TestVectors.FixedPathMissesHwmon2 | rpi-bad-power/__init__.py:10-25 | on the multi-entry layout the older engine finds nothing, while the current one finds a reader |
| TestVectors.FixedPathNeedsAlarmFile | rpi-bad-power/__init__.py:19-25 | with `rpi_volt` as the only entry, `hwmon0`, but no alarm file, the older engine finds nothing while the current one binds `hwmon0` |
| TestVectors.FixedPathFindsHwmon0 | rpi-bad-power/__init__.py:19-36 | on the single-entry layout the older engine binds hwmon0 and reports the mock's alarm |

## Left out

- PythonInt.ParseHex: accepts only a non-empty string of the ASCII digits `0`-`9`, `a`-`f` and `A`-`F`. Python's `int(s, 16)` also accepts a sign, a `0x` prefix, underscores between digits, surrounding whitespace (so `"50005\n\n"` trimmed to `"50005\n"` parses in Python) and non-ASCII digits. On those inputs the model fails where Python succeeds.
- Decoders.DecodeThrottled: accepts only plain hexadecimal digits. Python's `int(s, 16)` also accepts a sign, a `0x` prefix, underscores, surrounding whitespace and non-ASCII digits, so the model fails on some literals Python accepts (such as `"0x50005"`). A negative value in the bit test cannot occur.
- RpiBadPower.Get: inherits the same restriction on the legacy path.
- FixedPathRpiBadPower.Get: inherits the same restriction on the legacy path.
- Real I/O: `os.listdir`, `os.path.isfile` and `open` are replaced by a filesystem value passed in. The filesystem cannot change during one call. Failures other than a missing path (permissions, I/O errors, decoding bytes to text) are not modelled.
- File handles: the code never closes them, so closing is not part of the model.
- `_LOGGER.debug` calls: they only log.
- `os.path.join`: modelled as concatenation with `"/"`, which is what it does for these relative, separator-free components.
- `DESCRIPTION_NORMALIZED` and `DESCRIPTION_UNDER_VOLTAGE`: plain string constants with no behaviour.
- setup.py: packaging metadata.
- The test suite's mock machinery (`MockFile`, `MockSysFiles`, `patch`): only its layouts and vectors are used, as lemmas.
- The hwmon listing's order is whatever the kernel reports, and the model takes it as given.
- Python's class machinery: the two reader classes are modelled as a tagged datatype. Method dispatch through inheritance is not modelled, except for the constructor argument that causes the first finding.

## Findings

| source | as written | input that shows it | evidently intended | confidence | as-written member | corrected member |
|---|---|---|---|---|---|---|
| rpi_bad_power/__init__.py:37 | `UnderVoltageLegacy()` is called without an argument. The class inherits `UnderVoltage.__init__(self, hwmon)` (line 44), so the call raises `TypeError` and the legacy reader is never returned | an empty hwmon directory with `get_throttled` present (the layout of test_legacy) | return the legacy reader, as test_legacy expects and as the older engine (whose `UnderVoltage` has no constructor) does | high; not executed | RpiBadPower.LocateAsWritten, TestVectors.LegacyFallbackRaises | RpiBadPower.Locate |
| rpi_bad_power/__init__.py:23 | `os.listdir` is not guarded, so a missing `/sys/class/hwmon` propagates `FileNotFoundError` out of discovery | a filesystem without `/sys/class/hwmon` (the second test_non_rpi) | discovery returns `None`, as test_rpi_bad_power.py:109-112 expects | medium; not executed | RpiBadPower.Locate, TestVectors.NoHwmonDirRaises | RpiBadPower.LocateTolerant |

The second row differs from the first. Either the code or its test could be the one in error, so for this row the rest of the model keeps the code's behaviour: `Locate` and `NewUnderVoltage` raise on a missing directory. They carry only the first row's correction. The tolerant definition and its agreement with `Locate` on every listed directory are proved beside it.
