/** The printable names of the controller's commands (devices/epd7in5bhd/
    command_string.go): every opcode's name is a slice of one concatenated
    string, and an opcode without a name prints as "command(<decimal>)". */
module CommandString {
  import opened Bytes
  import opened Commands

  /** The name of each opcode, keyed by its numeric value: the identifier of
      the constant that declares it (for 0x1A, the first of its two names). */
  const CommandMap: map<int, string> := map[
    1 := "setGateDriver", 3 := "setGateDrivingVoltage", 4 := "setSourceDrivingVoltage",
    12 := "softStart", 16 := "deepSleepMode", 17 := "dataEntryMode",
    18 := "displayRefresh", 20 := "hvReadyDetection", 21 := "vciDetection",
    24 := "tempSensorControl", 26 := "tempSensorWrite", 28 := "tempSensorControlExt",
    32 := "masterActivation", 33 := "displayUpdateControl1", 34 := "displayUpdateControl2",
    36 := "writeRAMBW", 38 := "writeRAMRed", 39 := "readRAM",
    40 := "vcomSense", 41 := "vcomSenseDuration", 42 := "vcomOTP",
    43 := "vcomControlRegister", 44 := "vcomWriteRegister", 45 := "otpRegisterRead",
    52 := "crcCalculation", 53 := "crcStatusRead", 54 := "otpProgramSelect",
    55 := "displayOptionRegister", 56 := "userOptionRegister", 60 := "borderWaveformControl",
    65 := "readRamOption", 68 := "setRamXStart", 69 := "setRamYStart",
    70 := "autoWriteRamRed", 71 := "autoWriteRamBW", 78 := "setRamXAddressCtr",
    79 := "setRamYAddressCtr"]

  function Digit(d: nat): char
    requires d < 10
  {
    "0123456789"[d]
  }

  predicate IsDigit(ch: char)
  {
    '0' <= ch <= '9'
  }

  /** strconv.FormatInt(n, 10) for a non-negative n. */
  function Decimal(n: nat): (s: string)
    ensures |s| > 0 && Digits(s)
    ensures s[0] == '0' ==> n == 0
  {
    if n < 10 then [Digit(n)] else Decimal(n / 10) + [Digit(n % 10)]
  }

  predicate Digits(s: string)
  {
    forall i :: 0 <= i < |s| ==> IsDigit(s[i])
  }

  /** The value a string of decimal digits denotes. */
  function ParseDecimal(s: string): nat
    requires Digits(s)
  {
    if s == [] then 0
    else
      var last := s[|s| - 1];
      assert IsDigit(last);
      10 * ParseDecimal(s[..|s| - 1]) + (last as int - '0' as int)
  }

  /** Reading back a formatted number gives the number. */
  lemma {:induction false} DecimalRoundTrip(n: nat)
    ensures ParseDecimal(Decimal(n)) == n
  {
    var s := Decimal(n);
    if n >= 10 {
      DecimalRoundTrip(n / 10);
      assert s[..|s| - 1] == Decimal(n / 10);
    }
  }

  /** command.String: the opcode's name, or "command(<decimal value>)" for a
      byte that is not an opcode. */
  function Name(c: byte): (s: string)
    ensures c as int in CommandMap ==> s == CommandMap[c as int]
    ensures c as int !in CommandMap ==> s == "command(" + Decimal(c as int) + ")"
    ensures c as int !in CommandMap ==> exists d :: s == "command(" + d + ")" && Digits(d) && ParseDecimal(d) == c as int
  {
    if c as int in CommandMap then CommandMap[c as int]
    else
      var d := Decimal(c as int);
      DecimalRoundTrip(c as int);
      "command(" + d + ")"
  }

  /** The numeric values of the four runs of opcodes. */
  const LowSet: set<int> := {1, 3, 4, 12, 16, 17, 18, 20, 21, 24}
  const MidLowSet: set<int> := {26, 28, 32, 33, 34, 36, 38, 39, 40}
  const MidHighSet: set<int> := {41, 42, 43, 44, 45, 52, 53, 54, 55}
  const HighSet: set<int> := {56, 60, 65, 68, 69, 70, 71, 78, 79}

  lemma LowKeys(c: byte) ensures c in LowOps <==> c as int in LowSet {}
  lemma MidLowKeys(c: byte) ensures c in MidLowOps <==> c as int in MidLowSet {}
  lemma MidHighKeys(c: byte) ensures c in MidHighOps <==> c as int in MidHighSet {}
  lemma HighKeys(c: byte) ensures c in HighOps <==> c as int in HighSet {}

  lemma MapKeys()
    ensures CommandMap.Keys == {1, 3, 4, 12, 16, 17, 18, 20, 21, 24, 26, 28, 32, 33, 34, 36,
      38, 39, 40, 41, 42, 43, 44, 45, 52, 53, 54, 55, 56, 60, 65, 68, 69, 70, 71, 78, 79}
  {
  }

  lemma InAppend(a: seq<byte>, b: seq<byte>, c: byte)
    ensures c in a + b <==> c in a || c in b
  {
  }

  lemma KeyMembership(k: int)
    ensures k in CommandMap <==> k in LowSet || k in MidLowSet || k in MidHighSet || k in HighSet
  {
    MapKeys();
  }

  lemma OpcodeMembership(c: byte)
    ensures c in Opcodes() <==> c as int in LowSet || c as int in MidLowSet || c as int in MidHighSet || c as int in HighSet
  {
    LowKeys(c); MidLowKeys(c); MidHighKeys(c); HighKeys(c);
    InAppend(LowOps, MidLowOps, c);
    InAppend(LowOps + MidLowOps, MidHighOps, c);
    InAppend(LowOps + MidLowOps + MidHighOps, HighOps, c);
  }

  /** Exactly the opcodes of the command table have names. */
  lemma NamedOpcodes(c: byte)
    ensures c as int in CommandMap <==> c in Opcodes()
  {
    KeyMembership(c as int);
    OpcodeMembership(c);
  }

  /** Names are pairwise different. */
  lemma NamesDistinct()
    ensures forall a, b :: a in CommandMap && b in CommandMap && CommandMap[a] == CommandMap[b] ==> a == b
  {
  }

  /** No name is empty or ends in ')', unlike the fallback form. */
  lemma NamesEndInLetters()
    ensures forall a :: a in CommandMap ==> |CommandMap[a]| > 0 && CommandMap[a][|CommandMap[a]| - 1] != ')'
  {
  }

  /** Text between a fixed prefix and suffix is determined by the whole. */
  lemma Unwrap(p: string, x: string, y: string, q: string)
    requires p + x + q == p + y + q
    ensures x == y
  {
    var w := p + x + q;
    assert |x| == |y|;
    assert x == w[|p|..|p| + |x|];
    assert y == (p + y + q)[|p|..|p| + |y|];
  }

  /** The fallback form determines the byte it was printed from. */
  lemma FallbackInjective(m: nat, n: nat)
    requires "command(" + Decimal(m) + ")" == "command(" + Decimal(n) + ")"
    ensures m == n
  {
    var dm, dn := Decimal(m), Decimal(n);
    Unwrap("command(", dm, dn, ")");
    DecimalRoundTrip(m);
    DecimalRoundTrip(n);
  }

  /** A name and a fallback form never coincide. */
  lemma NameNotFallback(a: byte, b: byte)
    requires a as int in CommandMap && b as int !in CommandMap
    ensures Name(a) != Name(b)
  {
    var s := Name(b);
    assert s == "command(" + Decimal(b as int) + ")";
    assert s[|s| - 1] == ')';
    NamesEndInLetters();
  }

  /** Two bytes that are not opcodes print differently. */
  lemma FallbackNames(a: byte, b: byte)
    requires a as int !in CommandMap && b as int !in CommandMap
    ensures Name(a) == Name(b) ==> a == b
  {
    assert Name(a) == "command(" + Decimal(a as int) + ")";
    assert Name(b) == "command(" + Decimal(b as int) + ")";
    if Name(a) == Name(b) {
      FallbackInjective(a as int, b as int);
      ByteValue(a, b);
    }
  }

  /** A byte is determined by its numeric value. */
  lemma ByteValue(a: byte, b: byte)
    requires a as int == b as int
    ensures a == b
  {
  }

  /** Different bytes print differently: String is injective. */
  lemma NameInjective(a: byte, b: byte)
    ensures Name(a) == Name(b) ==> a == b
  {
    var ka, kb := a as int, b as int;
    if ka in CommandMap && kb in CommandMap {
      NamesDistinct();
    } else if ka !in CommandMap && kb !in CommandMap {
      FallbackNames(a, b);
    } else if ka in CommandMap {
      NameNotFallback(a, b);
    } else {
      NameNotFallback(b, a);
    }
  }

  /** Two named opcodes print as their identifiers. */
  lemma SampleNames()
    ensures Name(DisplayRefresh) == "displayRefresh"
    ensures Name(SetRamYAddressCtr) == "setRamYAddressCtr"
  {
  }

  /** The two names of 0x1A print as the first one. */
  lemma AliasName()
    ensures Name(TempSensorRead) == Name(TempSensorWrite) == "tempSensorWrite"
  {
  }

  /** Bytes that are not opcodes print as their decimal value. */
  lemma FallbackExamples()
    ensures Name(0x00) == "command(0)"
    ensures Name(0xFF) == "command(255)"
  {
    assert Decimal(2) == "2";
    assert Decimal(25) == "25";
    assert Decimal(255) == "255";
    assert Name(0x00) == "command(" + Decimal(0) + ")";
    assert Name(0xFF) == "command(" + Decimal(255) + ")";
  }
}
