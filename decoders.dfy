/** The two rules that turn the text of a status file into the
    under-voltage flag. Both versions of the package apply the same rules;
    they differ only in which file they read. */
module Decoders {
  import opened Wrappers
  import opened PythonStr
  import opened PythonInt
  import opened SysFs

  /** `1 << 16`: the firmware's sticky "under-voltage has occurred" flag. */
  const UnderVoltageStickyBit: nat := 0x1_0000

  lemma StickyBitIsBit16()
    ensures UnderVoltageStickyBit == Pow(2, 16) == Pow(16, 4)
  {
    PowAdd(2, 2, 2);
    PowAdd(2, 4, 4);
    PowAdd(2, 8, 8);
    PowAdd(16, 2, 2);
  }

  /** The hwmon rule: drop the last character, whatever it is, and compare
      the rest with "1". Only a two-character text starting with '1' means
      under-voltage; "1" alone, "01" or "1\n\n" do not. */
  function DecodeAlarm(text: string): (underVoltage: bool)
    ensures underVoltage <==> |text| == 2 && text[0] == '1'
  {
    DropLast(text) == "1"
  }

  /** The legacy rule: drop the last character, parse the rest as base 16,
      and test the sticky bit with `&`. Parsing fails on an empty or
      non-hexadecimal remainder, and that failure is raised, never read as
      "no under-voltage". Bit 16 is the lowest bit of the fifth hexadecimal
      digit from the right, so no other digit matters. */
  function DecodeThrottled(text: string): (r: Result<bool, PyError>)
    ensures r.Failure? <==> |text| <= 1 || !AllHexDigits(text[..|text| - 1])
    ensures r.Failure? ==> r.error == ValueError(DropLast(text))
    ensures r.Success? ==> (r.value <==> IsBitSet(HexValue(text[..|text| - 1]), 16))
    ensures r.Success? ==> (r.value <==> |text| >= 6 && DigitValue(text[|text| - 6]) % 2 == 1)
  {
    var throttled := DropLast(text);
    match ParseHex(throttled)
    case None => Failure(ValueError(throttled))
    case Some(n) =>
      StickyBitsAgree(throttled);
      Success(BitAnd(n, UnderVoltageStickyBit) == UnderVoltageStickyBit)
  }

  /** For a hexadecimal literal, masking with the sticky bit, testing bit 16
      and looking at the fifth digit from the right all agree. */
  lemma StickyBitsAgree(s: string)
    requires AllHexDigits(s)
    ensures (BitAnd(HexValue(s), UnderVoltageStickyBit) == UnderVoltageStickyBit)
            == IsBitSet(HexValue(s), 16)
            == (|s| >= 5 && DigitValue(s[|s| - 5]) % 2 == 1)
  {
    MaskIsBit16(HexValue(s));
    Bit16IsFifthDigit(s);
  }

  lemma MaskIsBit16(n: nat)
    ensures (BitAnd(n, UnderVoltageStickyBit) == UnderVoltageStickyBit) == IsBitSet(n, 16)
  {
    StickyBitIsBit16();
    BitAndPow2(n, 16);
  }

  lemma Bit16IsFifthDigit(s: string)
    requires AllHexDigits(s)
    ensures IsBitSet(HexValue(s), 16) == (|s| >= 5 && DigitValue(s[|s| - 5]) % 2 == 1)
  {
    var q := HexValue(s) / Pow(16, 4);
    StickyBitIsBit16();
    assert HexValue(s) / Pow(2, 16) == q;
    HexValueDigit(s, 4);
    ModTwoOfModSixteen(q);
  }
}
