// The command layer of the tinySA client: each command method checks its
// argument against a fixed domain and, when the argument is accepted, writes
// `name + ' ' + str(val) + '\r\n'` to the port. Here every command is a row
// of a descriptor table, and the check and the formatting are one function
// of the row, decided before any I/O.

module Commands {
  import opened Wrappers
  import opened Bytes

  /** An argument as a command method receives it; NoArg is Python's None.
      (Floats, booleans and other Python values are not modelled.) */
  datatype Arg = Int(i: int) | Str(s: string) | NoArg

  /** What a command method does before touching the port: send a wire
      command, return a sentinel without I/O, or raise a TypeError (a
      comparison between a non-integer and an int) without I/O. */
  datatype Decision = Send(wire: string) | Reject(sentinel: seq<Byte>) | Raise

  /** The values a command accepts: the strings in `words`, the integers
      satisfying `ints`; `bare` when None sends the command without argument;
      `strict` when a value outside the domain that is not an integer makes
      the range check raise instead of being rejected. */
  datatype Domain = Domain(words: set<string>, ints: int -> bool, bare: bool, strict: bool)

  /** A row of the table: wire name, domain, and what a rejection returns. */
  datatype Command = Command(name: string, domain: Domain, sentinel: seq<Byte>)

  // ---------------------------------------------------------------------
  // str() of an integer, and its inverse

  function DigitChar(d: nat): char
    requires d < 10
  {
    ('0' as int + d) as char
  }

  function DigitValue(c: char): nat
    requires '0' <= c <= '9'
  {
    c as int - '0' as int
  }

  /** Decimal digits of n, most significant first, no leading zero. */
  function NatToString(n: nat): (s: string)
    ensures |s| >= 1
    ensures forall k :: 0 <= k < |s| ==> '0' <= s[k] <= '9'
    ensures |s| > 1 ==> s[0] != '0'
    decreases n
  {
    if n < 10 then [DigitChar(n)] else NatToString(n / 10) + [DigitChar(n % 10)]
  }

  /** Python's `str(i)` for an int. */
  function IntToString(i: int): (s: string)
    ensures |s| >= 1
    ensures i < 0 <==> s[0] == '-'
  {
    if i < 0 then "-" + NatToString(-i) else NatToString(i)
  }

  /** Reads back the decimal form NatToString produces; None for any other
      string. */
  function ParseNat(s: string): Option<nat>
    decreases |s|
  {
    if s == [] || !('0' <= s[|s| - 1] <= '9') then None
    else if |s| == 1 then Some(DigitValue(s[0]))
    else match ParseNat(s[..|s| - 1])
      case None => None
      case Some(p) => Some(10 * p + DigitValue(s[|s| - 1]))
  }

  /** Reads back the decimal form IntToString produces; None for any other
      string. */
  function ParseInt(s: string): Option<int>
  {
    if |s| > 0 && s[0] == '-' then
      match ParseNat(s[1..])
      case None => None
      case Some(n) => Some(-(n as int))
    else
      match ParseNat(s)
      case None => None
      case Some(n) => Some(n)
  }

  lemma {:induction false} ParseNatToString(n: nat)
    ensures ParseNat(NatToString(n)) == Some(n)
    decreases n
  {
    if n >= 10 {
      var s := NatToString(n);
      ParseNatToString(n / 10);
      assert s[..|s| - 1] == NatToString(n / 10);
    }
  }

  /** `int(str(i)) == i`: the decimal form of an argument names it exactly. */
  lemma IntToStringParses(i: int)
    ensures ParseInt(IntToString(i)) == Some(i)
  {
    if i < 0 {
      NegativeParses(-i);
    } else {
      var n := NatToString(i);
      ParseNatToString(i);
      assert '0' <= n[0] <= '9';
    }
  }

  lemma NegativeParses(n: nat)
    requires n > 0
    ensures ParseInt("-" + NatToString(n)) == Some(-(n as int))
  {
    var s := "-" + NatToString(n);
    assert |s| > 0 && s[0] == '-' && s[1..] == NatToString(n);
    ParseNatToString(n);
    assert ParseNat(s[1..]) == Some(n);
  }

  /** The wire form of an integer is plain ASCII: digits and a minus sign. */
  lemma IntToStringAscii(i: int)
    ensures IsAscii(IntToString(i))
  {
  }

  /** The line written for an accepted integer is plain ASCII, so it goes on
      the wire one byte per character, each byte the character's code. */
  lemma IntLineBytes(name: string, i: int)
    requires IsAscii(name)
    ensures var line := Format(name, IntToString(i));
      |Utf8(line)| == |line| && forall k :: 0 <= k < |line| ==> Utf8(line)[k] as int == line[k] as int
  {
    var line := Format(name, IntToString(i));
    IntToStringAscii(i);
    assert IsAscii(line);
    Utf8OfAscii(line);
  }

  /** Python's `str(val)`. */
  function Show(v: Arg): string
  {
    match v
    case Int(i) => IntToString(i)
    case Str(s) => s
    case NoArg => "None"
  }

  // ---------------------------------------------------------------------
  // The generic check-then-format step of every command method

  /** `name + ' ' + text + '\r\n'`, the line a command with an argument writes. */
  function Format(name: string, text: string): string
  {
    name + " " + text + "\r\n"
  }

  /** `name + '\r\n'`, the line a command without an argument writes. */
  function Bare(name: string): string
  {
    name + "\r\n"
  }

  /** The check-then-format step shared by the command methods. An integer
      is sent exactly when the row's range holds it; a rejection always
      returns the row's sentinel; only a strict row raises, and only for a
      non-integer. */
  function Validate(c: Command, v: Arg): (d: Decision)
    ensures v.Int? ==> (d.Send? <==> c.domain.ints(v.i))
    ensures v.Str? ==> (d.Send? <==> v.s in c.domain.words)
    ensures v == NoArg ==> (d.Send? <==> c.domain.bare)
    ensures d.Reject? ==> d.sentinel == c.sentinel
    ensures d.Raise? <==> !v.Int? && !d.Send? && c.domain.strict
  {
    match v
    case Int(i) =>
      if c.domain.ints(i) then Send(Format(c.name, IntToString(i))) else Reject(c.sentinel)
    case Str(s) =>
      if s in c.domain.words then Send(Format(c.name, s))
      else if c.domain.strict then Raise
      else Reject(c.sentinel)
    case NoArg =>
      if c.domain.bare then Send(Bare(c.name))
      else if c.domain.strict then Raise
      else Reject(c.sentinel)
  }

  /** Reading a wire command back: the argument after "name ", or NoArg for
      a bare "name\r\n"; None if the text is not one of these. */
  function ArgOfWire(c: Command, wire: string): Option<Arg>
  {
    if wire == Bare(c.name) then Some(NoArg)
    else if |wire| >= |c.name| + 3 && wire[..|c.name| + 1] == c.name + " "
            && wire[|wire| - 2..] == "\r\n" then
      var text := wire[|c.name| + 1..|wire| - 2];
      if text in c.domain.words then Some(Str(text))
      else match ParseInt(text)
        case Some(i) => Some(Int(i))
        case None => None
    else None
  }

  /** No accepted word reads as a number, so words and integers cannot be
      confused on the wire. */
  predicate WellFormed(c: Command)
  {
    forall w :: w in c.domain.words ==> ParseInt(w) == None
  }

  /** Formatting loses nothing: every accepted argument can be read back
      from the command written for it. */
  lemma {:induction false} WireDeterminesArg(c: Command, v: Arg)
    requires WellFormed(c) && Validate(c, v).Send?
    ensures ArgOfWire(c, Validate(c, v).wire) == Some(v)
  {
    match v
    case NoArg =>
    case Str(s) =>
      FormatParts(c.name, s);
    case Int(i) =>
      FormatParts(c.name, IntToString(i));
      IntToStringParses(i);
  }

  /** Where the name and the argument text sit in a formatted line. */
  lemma FormatParts(name: string, text: string)
    ensures var w := Format(name, text);
      w != Bare(name) && |w| >= |name| + 3 && w[..|name| + 1] == name + " "
      && w[|w| - 2..] == "\r\n" && w[|name| + 1..|w| - 2] == text
  {
  }

  // ---------------------------------------------------------------------
  // The table

  /** b'ERROR', what `agc` returns for a rejected argument. */
  const ERROR: seq<Byte> := [0x45, 0x52, 0x52, 0x4F, 0x52]

  const AUTO: set<string> := {"auto"}
  const ON_OFF: set<string> := {"on", "off"}

  const AGC := Command("agc", Domain(AUTO, i => 0 <= i <= 7, false, false), ERROR)
  const ATTENUATE := Command("attenuate", Domain(AUTO, i => 0 <= i < 31, false, false), [])
  const CALOUTPUT := Command("caloutput", Domain({"off"}, i => i in {1, 2, 3, 4, 10, 15, 30}, false, false), [])
  const DAC := Command("dac", Domain({}, i => 0 <= i <= 4095, true, false), [])
  const DATA := Command("data", Domain({}, i => i in {0, 1, 2}, false, false), [])
  const DEVICEID := Command("deviceid", Domain({}, i => true, true, false), [])
  const EXT_GAIN := Command("ext_gain", Domain({}, i => -100 <= i <= 100, false, false), [])
  const FREQ := Command("freq", Domain({}, i => 100 * 1000 <= i <= 53 * 100000000, false, false), [])
  const IF := Command("if", Domain({}, i => i == 0 || 433 * 1000000 <= i <= 435 * 1000000, false, true), [])
  const IF1 := Command("if1", Domain({}, i => i == 0 || 975 * 1000000 <= i <= 979 * 1000000, false, true), [])
  const LEVELCHANGE := Command("levelchange", Domain({}, i => -70 <= i < 71, false, false), [])
  const LOAD := Command("load", Domain({}, i => i in {0, 1, 2, 3, 4}, false, false), [])
  const LNA := Command("lna", Domain(ON_OFF, i => false, false, false), [])
  const LNA2 := Command("lna2", Domain(AUTO, i => i in {0, 1, 2, 3, 4, 5, 6, 7}, false, false), [])
  const OUTPUT := Command("output", Domain(ON_OFF, i => false, false, false), [])
  const RBW := Command("rbw", Domain(AUTO, i => 3 * 1000 <= i <= 600 * 1000, false, false), [])
  const RECALL := Command("recall", Domain({}, i => i in {0, 1, 2, 3, 4}, false, false), [])
  const REFRESH := Command("refresh", Domain(ON_OFF, i => false, false, false), [])
  const SAVE := Command("save", Domain({}, i => i in {0, 1, 2, 3, 4}, false, false), [])
  const SELFTEST := Command("selftest", Domain({}, i => i in {0, 1, 2, 3, 4, 5, 6, 7, 8, 9}, false, false), [])
  const SPUR := Command("spur", Domain(ON_OFF, i => false, false, false), [])
  const VBAT_OFFSET := Command("vbat_offset", Domain({}, i => 0 <= i <= 4095, true, false), [])

  lemma TableWellFormed()
    ensures WellFormed(AGC) && WellFormed(ATTENUATE) && WellFormed(CALOUTPUT) && WellFormed(LNA2)
    ensures WellFormed(LNA) && WellFormed(OUTPUT) && WellFormed(REFRESH) && WellFormed(SPUR)
    ensures WellFormed(RBW)
    ensures WellFormed(DAC) && WellFormed(DATA) && WellFormed(DEVICEID) && WellFormed(EXT_GAIN)
    ensures WellFormed(FREQ) && WellFormed(IF) && WellFormed(IF1) && WellFormed(LEVELCHANGE)
    ensures WellFormed(LOAD) && WellFormed(RECALL) && WellFormed(SAVE) && WellFormed(SELFTEST)
    ensures WellFormed(VBAT_OFFSET)
  {
    assert ParseInt("auto") == None;
    assert ParseInt("on") == None;
    assert ParseInt("off") == None;
  }

  // ---------------------------------------------------------------------
  // One function per command method: the domain it accepts, exactly, and
  // the command it writes

  /** `agc`: "auto" or 0..7; a rejection returns b'ERROR'. */
  function Agc(v: Arg): (d: Decision)
    ensures d == if v == Str("auto") || (v.Int? && 0 <= v.i <= 7)
                 then Send(Format("agc", Show(v))) else Reject(ERROR)
  {
    Validate(AGC, v)
  }

  /** `attenuate`: "auto" or 0..30 (`np.arange(0, 31)` stops before 31). */
  function Attenuate(v: Arg): (d: Decision)
    ensures d == if v == Str("auto") || (v.Int? && 0 <= v.i <= 30)
                 then Send(Format("attenuate", Show(v))) else Reject([])
  {
    Validate(ATTENUATE, v)
  }

  /** `caloutput`: "off" or one of the calibration frequencies 1, 2, 3, 4,
      10, 15, 30 MHz. */
  function Caloutput(v: Arg): (d: Decision)
    ensures d == if v == Str("off") || (v.Int? && v.i in {1, 2, 3, 4, 10, 15, 30})
                 then Send(Format("caloutput", Show(v))) else Reject([])
  {
    Validate(CALOUTPUT, v)
  }

  /** `dac`: None queries the value, 0..4095 sets it (as corrected, see
      DacAsWritten), anything else is rejected. */
  function Dac(v: Arg): (d: Decision)
    ensures v == NoArg ==> d == Send(Bare("dac"))
    ensures v.Int? && 0 <= v.i <= 4095 ==> d == Send(Format("dac", IntToString(v.i)))
    ensures (v.Int? && !(0 <= v.i <= 4095)) || v.Str? ==> d == Reject([])
  {
    Validate(DAC, v)
  }

  /** `data`: trace 0, 1 or 2. */
  function Data(v: Arg): (d: Decision)
    ensures d == if v.Int? && 0 <= v.i <= 2 then Send(Format("data", Show(v))) else Reject([])
  {
    Validate(DATA, v)
  }

  /** `deviceid`: None queries the id, any integer sets it. */
  function Deviceid(v: Arg): (d: Decision)
    ensures v == NoArg ==> d == Send(Bare("deviceid"))
    ensures v.Int? ==> d == Send(Format("deviceid", IntToString(v.i)))
    ensures v.Str? ==> d == Reject([])
  {
    Validate(DEVICEID, v)
  }

  /** `ext_gain`: an integer in -100..100. */
  function ExtGain(v: Arg): (d: Decision)
    ensures d == if v.Int? && -100 <= v.i <= 100 then Send(Format("ext_gain", Show(v))) else Reject([])
  {
    Validate(EXT_GAIN, v)
  }

  /** `freq`: an integer number of Hz from 100 kHz to 5.3 GHz. */
  function Freq(v: Arg): (d: Decision)
    ensures d == if v.Int? && 100000 <= v.i <= 5300000000 then Send(Format("freq", Show(v))) else Reject([])
  {
    Validate(FREQ, v)
  }

  /** `setIF` (wire name `if`): 0 (automatic) or 433..435 MHz; an integer
      outside is rejected, a non-integer makes the range comparison raise. */
  function SetIF(v: Arg): (d: Decision)
    ensures v.Int? ==> d == if v.i == 0 || 433000000 <= v.i <= 435000000
                            then Send(Format("if", IntToString(v.i))) else Reject([])
    ensures !v.Int? ==> d == Raise
  {
    Validate(IF, v)
  }

  /** `if1`: 0 or 975..979 MHz; a non-integer raises as for `setIF`. */
  function If1(v: Arg): (d: Decision)
    ensures v.Int? ==> d == if v.i == 0 || 975000000 <= v.i <= 979000000
                            then Send(Format("if1", IntToString(v.i))) else Reject([])
    ensures !v.Int? ==> d == Raise
  {
    Validate(IF1, v)
  }

  /** `levelchange`: -70..70 (`np.arange(-70, 71)`). */
  function Levelchange(v: Arg): (d: Decision)
    ensures d == if v.Int? && -70 <= v.i <= 70 then Send(Format("levelchange", Show(v))) else Reject([])
  {
    Validate(LEVELCHANGE, v)
  }

  /** `load`: preset 0..4. */
  function Load(v: Arg): (d: Decision)
    ensures d == if v.Int? && 0 <= v.i <= 4 then Send(Format("load", Show(v))) else Reject([])
  {
    Validate(LOAD, v)
  }

  /** `lna`: "on" or "off". */
  function Lna(v: Arg): (d: Decision)
    ensures d == if v == Str("on") || v == Str("off") then Send(Format("lna", Show(v))) else Reject([])
  {
    Validate(LNA, v)
  }

  /** `lna2`: "auto" or 0..7. */
  function Lna2(v: Arg): (d: Decision)
    ensures d == if v == Str("auto") || (v.Int? && 0 <= v.i <= 7)
                 then Send(Format("lna2", Show(v))) else Reject([])
  {
    Validate(LNA2, v)
  }

  /** `output`: "on" or "off". */
  function Output(v: Arg): (d: Decision)
    ensures d == if v == Str("on") || v == Str("off") then Send(Format("output", Show(v))) else Reject([])
  {
    Validate(OUTPUT, v)
  }

  /** `rbw`: "auto" or an integer in 3000..600000. */
  function Rbw(v: Arg): (d: Decision)
    ensures d == if v == Str("auto") || (v.Int? && 3000 <= v.i <= 600000)
                 then Send(Format("rbw", Show(v))) else Reject([])
  {
    Validate(RBW, v)
  }

  /** `recall`: preset 0..4. */
  function Recall(v: Arg): (d: Decision)
    ensures d == if v.Int? && 0 <= v.i <= 4 then Send(Format("recall", Show(v))) else Reject([])
  {
    Validate(RECALL, v)
  }

  /** `refresh`: "on" or "off". */
  function Refresh(v: Arg): (d: Decision)
    ensures d == if v == Str("on") || v == Str("off") then Send(Format("refresh", Show(v))) else Reject([])
  {
    Validate(REFRESH, v)
  }

  /** `save`: preset 0..4. */
  function Save(v: Arg): (d: Decision)
    ensures d == if v.Int? && 0 <= v.i <= 4 then Send(Format("save", Show(v))) else Reject([])
  {
    Validate(SAVE, v)
  }

  /** `selftest`: test 0..9. */
  function Selftest(v: Arg): (d: Decision)
    ensures d == if v.Int? && 0 <= v.i <= 9 then Send(Format("selftest", Show(v))) else Reject([])
  {
    Validate(SELFTEST, v)
  }

  /** `spur`: "on" or "off". */
  function Spur(v: Arg): (d: Decision)
    ensures d == if v == Str("on") || v == Str("off") then Send(Format("spur", Show(v))) else Reject([])
  {
    Validate(SPUR, v)
  }

  /** `vbat_offset`: None queries, 0..4095 sets (as corrected, see
      VbatOffsetAsWritten), anything else is rejected. */
  function VbatOffset(v: Arg): (d: Decision)
    ensures v == NoArg ==> d == Send(Bare("vbat_offset"))
    ensures v.Int? && 0 <= v.i <= 4095 ==> d == Send(Format("vbat_offset", IntToString(v.i)))
    ensures (v.Int? && !(0 <= v.i <= 4095)) || v.Str? ==> d == Reject([])
  {
    Validate(VBAT_OFFSET, v)
  }

  /** The two boundary scenarios for `attenuate`: 15 is sent as
      "attenuate 15\r\n", 31 and 99 are rejected. */
  lemma AttenuateScenarios()
    ensures Attenuate(Int(15)) == Send("attenuate 15\r\n")
    ensures Attenuate(Int(31)) == Reject([]) && Attenuate(Int(99)) == Reject([])
  {
    assert NatToString(15) == "15";
  }

  // ---------------------------------------------------------------------
  // The setter branches of `dac` and `vbat_offset` as the source writes them:
  // they format `str(id)`, the builtin function `id`, not the argument.

  /** `str(id)` in CPython. */
  const ID_REPR: string := "<built-in function id>"

  function DacAsWritten(v: Arg): (d: Decision)
    ensures v.Int? && 0 <= v.i <= 4095 ==> d == Send(Format("dac", ID_REPR))
    ensures !(v.Int? && 0 <= v.i <= 4095) ==> d == Dac(v)
  {
    if v.Int? && 0 <= v.i <= 4095 then Send(Format("dac", ID_REPR)) else Validate(DAC, v)
  }

  function VbatOffsetAsWritten(v: Arg): (d: Decision)
    ensures v.Int? && 0 <= v.i <= 4095 ==> d == Send(Format("vbat_offset", ID_REPR))
    ensures !(v.Int? && 0 <= v.i <= 4095) ==> d == VbatOffset(v)
  {
    if v.Int? && 0 <= v.i <= 4095 then Send(Format("vbat_offset", ID_REPR)) else Validate(VBAT_OFFSET, v)
  }

  /** As written, the value never reaches the wire: `dac(1)` and `dac(2)`
      send the same command, and no value can be read back from it, whereas
      the corrected `Dac` sends a command that names its value. */
  lemma DacAsWrittenLosesValue(i: int)
    requires 0 <= i <= 4095
    ensures DacAsWritten(Int(i)) == DacAsWritten(Int(0))
    ensures ArgOfWire(DAC, DacAsWritten(Int(i)).wire) == None
    ensures ArgOfWire(DAC, Dac(Int(i)).wire) == Some(Int(i))
  {
    var w := DacAsWritten(Int(i)).wire;
    assert w[|DAC.name| + 1..|w| - 2] == ID_REPR;
    assert ID_REPR[|ID_REPR| - 1] == '>';
    TableWellFormed();
    WireDeterminesArg(DAC, Int(i));
  }

  lemma VbatOffsetAsWrittenLosesValue(i: int)
    requires 0 <= i <= 4095
    ensures VbatOffsetAsWritten(Int(i)) == VbatOffsetAsWritten(Int(0))
    ensures ArgOfWire(VBAT_OFFSET, VbatOffsetAsWritten(Int(i)).wire) == None
    ensures ArgOfWire(VBAT_OFFSET, VbatOffset(Int(i)).wire) == Some(Int(i))
  {
    var w := VbatOffsetAsWritten(Int(i)).wire;
    assert w[|VBAT_OFFSET.name| + 1..|w| - 2] == ID_REPR;
    assert ID_REPR[|ID_REPR| - 1] == '>';
    TableWellFormed();
    WireDeterminesArg(VBAT_OFFSET, Int(i));
  }

  // ---------------------------------------------------------------------
  // Commands without an argument, and commands not implemented

  /** The commands that write a fixed line and return the cleaned reply.
      (`reset` and `sd_list` are methods of their own.) */
  datatype Query =
    | ActualFreq | Capture | ClearConfig | FreqCorr | Frequencies | Help | Info | Nf
    | Pause | Release | Repeat | Resume | SaveConfig | Status | Threads | TouchCal
    | TouchTest | UsartCfg | Vbat | Version | Wait

  /** The line each of them writes: the bare command name, except that
      `clearconfig` carries the password 1234. */
  function QueryWire(q: Query): string
  {
    if q == ClearConfig then Format("clearconfig", "1234") else Bare(QueryName(q))
  }

  function QueryName(q: Query): string
  {
    match q
    case ActualFreq => "actual_freq"
    case Capture => "capture"
    case ClearConfig => "clearconfig"
    case FreqCorr => "freq_corr"
    case Frequencies => "frequencies"
    case Help => "help"
    case Info => "info"
    case Nf => "nf"
    case Pause => "pause"
    case Release => "release"
    case Repeat => "repeat"
    case Resume => "resume"
    case SaveConfig => "saveconfig"
    case Status => "status"
    case Threads => "threads"
    case TouchCal => "touchcal"
    case TouchTest => "touchtest"
    case UsartCfg => "usart_cfg"
    case Vbat => "vbat"
    case Version => "version"
    case Wait => "wait"
  }

  /** The methods that only print "Function does not exist yet" and return
      None. */
  datatype Stub =
    | Bulk | Calc | Color | Correction | Direct | Fill | Hop | Level | LevelOffset
    | Line | Marker | Mode | Modulation | Scan | ScanRaw | SdDelete | SdRead | Sweep
    | SweepTime | Touch | Trace | Trigger | Ultra | Zero
}
