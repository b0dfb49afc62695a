/** The controller's command opcodes (devices/epd7in5bhd/commands.go). A
    command is one byte; the table is fixed by the panel controller. */
module Commands {
  import opened Bytes

  const SetGateDriver: byte := 0x01
  const SetGateDrivingVoltage: byte := 0x03
  const SetSourceDrivingVoltage: byte := 0x04
  const DeepSleepMode: byte := 0x10
  const DataEntryMode: byte := 0x11
  const DisplayRefresh: byte := 0x12
  const HvReadyDetection: byte := 0x14
  const VciDetection: byte := 0x15
  const TempSensorControl: byte := 0x18
  const TempSensorWrite: byte := 0x1A
  const TempSensorRead: byte := 0x1A
  const TempSensorControlExt: byte := 0x1C
  const MasterActivation: byte := 0x20
  const DisplayUpdateControl1: byte := 0x21
  const DisplayUpdateControl2: byte := 0x22
  const WriteRAMBW: byte := 0x24
  const WriteRAMRed: byte := 0x26
  const ReadRAM: byte := 0x27
  const VcomSense: byte := 0x28
  const VcomSenseDuration: byte := 0x29
  const VcomOTP: byte := 0x2A
  const VcomControlRegister: byte := 0x2B
  const VcomWriteRegister: byte := 0x2C
  const OtpRegisterRead: byte := 0x2D
  const CrcCalculation: byte := 0x34
  const CrcStatusRead: byte := 0x35
  const OtpProgramSelect: byte := 0x36
  const DisplayOptionRegister: byte := 0x37
  const UserOptionRegister: byte := 0x38
  const BorderWaveformControl: byte := 0x3C
  const ReadRamOption: byte := 0x41
  const SetRamXStart: byte := 0x44
  const SetRamYStart: byte := 0x45
  const AutoWriteRamRed: byte := 0x46
  const AutoWriteRamBW: byte := 0x47
  const SetRamXAddressCtr: byte := 0x4E
  const SetRamYAddressCtr: byte := 0x4F
  const SoftStart: byte := 0x0C

  /** Every declared constant, in declaration order (38 names). */
  const Declared: seq<byte> := [
    SetGateDriver, SetGateDrivingVoltage, SetSourceDrivingVoltage, DeepSleepMode,
    DataEntryMode, DisplayRefresh, HvReadyDetection, VciDetection, TempSensorControl,
    TempSensorWrite, TempSensorRead, TempSensorControlExt, MasterActivation,
    DisplayUpdateControl1, DisplayUpdateControl2, WriteRAMBW, WriteRAMRed, ReadRAM,
    VcomSense, VcomSenseDuration, VcomOTP, VcomControlRegister, VcomWriteRegister,
    OtpRegisterRead, CrcCalculation, CrcStatusRead, OtpProgramSelect,
    DisplayOptionRegister, UserOptionRegister, BorderWaveformControl, ReadRamOption,
    SetRamXStart, SetRamYStart, AutoWriteRamRed, AutoWriteRamBW, SetRamXAddressCtr,
    SetRamYAddressCtr, SoftStart]

  /** The distinct opcode values in increasing order, written as numbers and
      split into four runs so that each run is checked on its own; the lemma
      DistinctOpcodes ties them to the named constants. */
  const LowOps: seq<byte> := [0x01, 0x03, 0x04, 0x0C, 0x10, 0x11, 0x12, 0x14, 0x15, 0x18]
  const MidLowOps: seq<byte> := [0x1A, 0x1C, 0x20, 0x21, 0x22, 0x24, 0x26, 0x27, 0x28]
  const MidHighOps: seq<byte> := [0x29, 0x2A, 0x2B, 0x2C, 0x2D, 0x34, 0x35, 0x36, 0x37]
  const HighOps: seq<byte> := [0x38, 0x3C, 0x41, 0x44, 0x45, 0x46, 0x47, 0x4E, 0x4F]

  /** The 37 distinct opcodes, in increasing order. */
  function Opcodes(): seq<byte>
  {
    LowOps + MidLowOps + MidHighOps + HighOps
  }

  predicate Increasing(s: seq<byte>)
  {
    |s| < 2 || (s[0] < s[1] && Increasing(s[1..]))
  }

  lemma {:induction false} IncreasingAppend(a: seq<byte>, b: seq<byte>)
    requires Increasing(a) && Increasing(b) && |a| > 0 && |b| > 0 && a[|a| - 1] < b[0]
    ensures Increasing(a + b)
  {
    if |a| > 1 {
      assert (a + b)[1..] == a[1..] + b;
      IncreasingAppend(a[1..], b);
    }
  }

  /** An increasing sequence has strictly ordered, hence distinct, entries. */
  lemma {:induction false} IncreasingOrdered(s: seq<byte>)
    requires Increasing(s)
    ensures forall i, j :: 0 <= i < j < |s| ==> s[i] < s[j]
  {
    if |s| >= 2 {
      IncreasingOrdered(s[1..]);
      forall i, j | 0 <= i < j < |s| ensures s[i] < s[j] {
        if i > 0 { assert s[i] == s[1..][i - 1] && s[j] == s[1..][j - 1]; }
        else if j > 1 { assert s[1] == s[1..][0] && s[j] == s[1..][j - 1]; }
      }
    }
  }

  /** A sequence with distinct entries has as many values as entries. */
  lemma {:induction false} DistinctCount(s: seq<byte>)
    requires forall i, j :: 0 <= i < j < |s| ==> s[i] != s[j]
    ensures |set c | c in s| == |s|
  {
    if s != [] {
      var t := s[1..];
      DistinctCount(t);
      assert (set c | c in s) == {s[0]} + (set c | c in t);
      assert s[0] !in (set c | c in t);
    }
  }

  lemma LowIncreasing() ensures Increasing(LowOps) {}
  lemma MidLowIncreasing() ensures Increasing(MidLowOps) {}
  lemma MidHighIncreasing() ensures Increasing(MidHighOps) {}
  lemma HighIncreasing() ensures Increasing(HighOps) {}

  lemma UpperIncreasing()
    ensures Increasing(MidHighOps + HighOps)
  {
    MidHighIncreasing(); HighIncreasing();
    IncreasingAppend(MidHighOps, HighOps);
  }

  lemma MiddleIncreasing()
    ensures Increasing(MidLowOps + (MidHighOps + HighOps))
  {
    MidLowIncreasing(); UpperIncreasing();
    assert (MidHighOps + HighOps)[0] == MidHighOps[0];
    IncreasingAppend(MidLowOps, MidHighOps + HighOps);
  }

  lemma OpcodesIncreasing()
    ensures Increasing(Opcodes())
  {
    LowIncreasing(); MiddleIncreasing();
    assert (MidLowOps + (MidHighOps + HighOps))[0] == MidLowOps[0];
    IncreasingAppend(LowOps, MidLowOps + (MidHighOps + HighOps));
    assert Opcodes() == LowOps + (MidLowOps + (MidHighOps + HighOps));
  }

  /** Every declared constant is one of the listed opcodes. */
  lemma DeclaredListed()
    ensures forall c :: c in Declared ==> c in Opcodes()
  {
    forall c | c in Declared ensures c in Opcodes() {
      assert c in LowOps || c in MidLowOps || c in MidHighOps || c in HighOps;
    }
  }

  /** Every listed opcode is the value of a declared constant. */
  lemma ListedDeclared()
    ensures forall c :: c in Opcodes() ==> c in Declared
  {
    forall c | c in Opcodes() ensures c in Declared {
      assert c in LowOps || c in MidLowOps || c in MidHighOps || c in HighOps;
    }
  }

  /** The declared constants take exactly the values of the increasing list. */
  lemma DeclaredValues()
    ensures (set c | c in Declared) == (set c | c in Opcodes())
  {
    DeclaredListed();
    ListedDeclared();
  }

  /** The opcode table: tempSensorWrite and tempSensorRead share 0x1A, every
      other declared constant has its own value, so the 38 names denote
      exactly 37 distinct opcodes. */
  lemma DistinctOpcodes()
    ensures |Declared| == 38
    ensures TempSensorWrite == TempSensorRead == 0x1A
    ensures |set c | c in Declared| == 37
  {
    OpcodesIncreasing();
    IncreasingOrdered(Opcodes());
    DistinctCount(Opcodes());
    DeclaredValues();
  }
}
