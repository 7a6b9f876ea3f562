/**
 * Serial line settings: building them from separate values, and parsing the
 * four-field text form `baud,parity,data_bits,stop_bits` (for example
 * `115200,0,8,1`, parity 0 = none, 1 = odd, 2 = even).
 */
module Config {
  import Wrappers
  import opened Bytes
  import Decimal
  import Text
  import Seqs

  /** An unsigned 32-bit value (`u32`). */
  type u32 = n: int | 0 <= n < 0x1_0000_0000

  const U32Bound: nat := 0x1_0000_0000
  const U8Bound: nat := 0x100

  datatype DataBits = Five | Six | Seven | Eight
  datatype Parity = None | Odd | Even
  datatype StopBits = One | Two

  datatype SerialConfig = SerialConfig(baud: u32, dataBits: DataBits, parity: Parity, stopBits: StopBits)

  /** Every way building or parsing a configuration can fail, one per distinct message. */
  datatype ConfigError =
    | WrongFieldCount
    | UnreadableBaud
    | UnreadableParity
    | ParityOutOfRange
    | UnreadableDataBits
    | UnreadableStopBits
    | InvalidDataBits(bits: byte)
    | InvalidParity(name: string)
    | InvalidStopBits(bits: byte)

  type Result<T> = Wrappers.Result<T, ConfigError>

  /** The text each error is reported with. */
  function Message(e: ConfigError): string {
    match e
    case WrongFieldCount => "Invalid config format. Expected: baud,parity,data_bits,stop_bits (e.g., 57600,0,8,1)"
    case UnreadableBaud => "Invalid baud rate"
    case UnreadableParity => "Invalid parity (0=none, 1=odd, 2=even)"
    case ParityOutOfRange => "Parity must be 0 (none), 1 (odd), or 2 (even)"
    case UnreadableDataBits => "Invalid data bits"
    case UnreadableStopBits => "Invalid stop bits"
    case InvalidDataBits(bits) => "Invalid data bits: " + Decimal.ToDecimal(bits)
    case InvalidParity(name) => "Invalid parity: " + name
    case InvalidStopBits(bits) => "Invalid stop bits: " + Decimal.ToDecimal(bits)
  }

  /** The number of data bits a setting stands for. */
  function DataBitsValue(d: DataBits): byte {
    match d
    case Five => 5
    case Six => 6
    case Seven => 7
    case Eight => 8
  }

  function StopBitsValue(s: StopBits): byte {
    match s
    case One => 1
    case Two => 2
  }

  /** The numeric parity code of the text form. */
  function ParityCode(p: Parity): byte {
    match p
    case None => 0
    case Odd => 1
    case Even => 2
  }

  /** The lower-case names accepted for each parity. */
  function ParityNames(p: Parity): set<string> {
    match p
    case None => {"none", "n"}
    case Odd => {"odd", "o"}
    case Even => {"even", "e"}
  }

  /** The long name of a parity. */
  function ParityName(p: Parity): (name: string)
    ensures name in ParityNames(p)
  {
    match p
    case None => "none"
    case Odd => "odd"
    case Even => "even"
  }

  /** Only 5 to 8 data bits are accepted. */
  function ParseDataBits(bits: byte): (r: Result<DataBits>)
    ensures r.Ok? <==> 5 <= bits <= 8
    ensures r.Ok? ==> DataBitsValue(r.value) == bits
    ensures r.Err? ==> r.error == InvalidDataBits(bits)
  {
    match bits
    case 5 => Wrappers.Ok(Five)
    case 6 => Wrappers.Ok(Six)
    case 7 => Wrappers.Ok(Seven)
    case 8 => Wrappers.Ok(Eight)
    case _ => Wrappers.Err(InvalidDataBits(bits))
  }

  /** A parity name in any letter case: `none`/`n`, `odd`/`o` or `even`/`e`. */
  function ParseParity(name: string): (r: Result<Parity>)
    ensures forall p :: r == Wrappers.Ok(p) <==> Text.ToAsciiLower(name) in ParityNames(p)
    ensures r.Err? ==> r.error == InvalidParity(name)
  {
    match Text.ToAsciiLower(name)
    case "none" => Wrappers.Ok(None)
    case "n" => Wrappers.Ok(None)
    case "odd" => Wrappers.Ok(Odd)
    case "o" => Wrappers.Ok(Odd)
    case "even" => Wrappers.Ok(Even)
    case "e" => Wrappers.Ok(Even)
    case _ => Wrappers.Err(InvalidParity(name))
  }

  /** Only 1 or 2 stop bits are accepted. */
  function ParseStopBits(bits: byte): (r: Result<StopBits>)
    ensures r.Ok? <==> bits == 1 || bits == 2
    ensures r.Ok? ==> StopBitsValue(r.value) == bits
    ensures r.Err? ==> r.error == InvalidStopBits(bits)
  {
    match bits
    case 1 => Wrappers.Ok(One)
    case 2 => Wrappers.Ok(Two)
    case _ => Wrappers.Err(InvalidStopBits(bits))
  }

  /**
   * A configuration from separate values. The data bits are checked first,
   * then the parity name, then the stop bits; the first failure is reported.
   */
  function New(baud: u32, dataBits: byte, parity: string, stopBits: byte): (r: Result<SerialConfig>)
    ensures r.Ok? <==> 5 <= dataBits <= 8 && ParseParity(parity).Ok? && (stopBits == 1 || stopBits == 2)
    ensures r.Ok? ==>
      && r.value.baud == baud
      && DataBitsValue(r.value.dataBits) == dataBits
      && Text.ToAsciiLower(parity) in ParityNames(r.value.parity)
      && StopBitsValue(r.value.stopBits) == stopBits
    ensures !(5 <= dataBits <= 8) ==> r == Wrappers.Err(InvalidDataBits(dataBits))
    ensures 5 <= dataBits <= 8 && ParseParity(parity).Err? ==> r == Wrappers.Err(InvalidParity(parity))
    ensures 5 <= dataBits <= 8 && ParseParity(parity).Ok? && !(stopBits == 1 || stopBits == 2) ==>
      r == Wrappers.Err(InvalidStopBits(stopBits))
  {
    match ParseDataBits(dataBits)
    case Err(e) => Wrappers.Err(e)
    case Ok(d) =>
      match ParseParity(parity)
      case Err(e) => Wrappers.Err(e)
      case Ok(p) =>
        match ParseStopBits(stopBits)
        case Err(e) => Wrappers.Err(e)
        case Ok(s) => Wrappers.Ok(SerialConfig(baud, d, p, s))
  }

  /** 115200 baud, 8 data bits, no parity, 1 stop bit. */
  function Default(): SerialConfig {
    SerialConfig(115200, Eight, None, One)
  }

  /** The parity for a numeric code, or nothing for codes other than 0, 1 and 2. */
  function ParityOfCode(code: nat): (r: Wrappers.Option<Parity>)
    ensures r.Some? <==> code <= 2
    ensures r.Some? ==> ParityCode(r.value) == code
  {
    if code == 0 then Wrappers.Some(None)
    else if code == 1 then Wrappers.Some(Odd)
    else if code == 2 then Wrappers.Some(Even)
    else Wrappers.None
  }

  /** The four fields, each read the way the text form reads it, describe `c`. */
  predicate FieldsDescribe(fields: seq<string>, c: SerialConfig) {
    && |fields| == 4
    && Decimal.ParseUnsigned(fields[0], U32Bound) == Wrappers.Some(c.baud as nat)
    && Decimal.ParseUnsigned(fields[1], U8Bound) == Wrappers.Some(ParityCode(c.parity) as nat)
    && Decimal.ParseUnsigned(fields[2], U8Bound) == Wrappers.Some(DataBitsValue(c.dataBits) as nat)
    && Decimal.ParseUnsigned(fields[3], U8Bound) == Wrappers.Some(StopBitsValue(c.stopBits) as nat)
  }

  /**
   * `r` is the error of the first field that fails, in the order: baud
   * unreadable, parity code unreadable, parity code above 2, data bits
   * unreadable, data bits outside 5..8, stop bits unreadable, stop bits
   * other than 1 or 2.
   */
  predicate ReportsFirstFailure(parts: seq<string>, r: Result<SerialConfig>)
    requires |parts| == 4
  {
    var baud := Decimal.ParseUnsigned(parts[0], U32Bound);
    var code := Decimal.ParseUnsigned(parts[1], U8Bound);
    var dataBits := Decimal.ParseUnsigned(parts[2], U8Bound);
    var stopBits := Decimal.ParseUnsigned(parts[3], U8Bound);
    var parityRead := baud.Some? && code.Some? && code.value <= 2;
    var dataBitsRead := parityRead && dataBits.Some? && 5 <= dataBits.value <= 8;
    && (baud.None? ==> r == Wrappers.Err(UnreadableBaud))
    && (baud.Some? && code.None? ==> r == Wrappers.Err(UnreadableParity))
    && (baud.Some? && code.Some? && code.value > 2 ==> r == Wrappers.Err(ParityOutOfRange))
    && (parityRead && dataBits.None? ==> r == Wrappers.Err(UnreadableDataBits))
    && (parityRead && dataBits.Some? && !(5 <= dataBits.value <= 8) ==>
          r == Wrappers.Err(InvalidDataBits(dataBits.value as byte)))
    && (dataBitsRead && stopBits.None? ==> r == Wrappers.Err(UnreadableStopBits))
    && (dataBitsRead && stopBits.Some? && !(stopBits.value == 1 || stopBits.value == 2) ==>
          r == Wrappers.Err(InvalidStopBits(stopBits.value as byte)))
  }

  /**
   * Parses `baud,parity,data_bits,stop_bits`. Exactly four comma-separated
   * fields are required; they are then read by `ReadFields`.
   */
  function FromString(config: string): (r: Result<SerialConfig>)
    ensures r.Ok? ==> FieldsDescribe(Text.Split(config, ','), r.value)
    ensures |Text.Split(config, ',')| == 4 ==> ReportsFirstFailure(Text.Split(config, ','), r)
  {
    var parts := Text.Split(config, ',');
    if |parts| != 4 then Wrappers.Err(WrongFieldCount) else ReadFields(parts)
  }

  /**
   * Reads four fields, each as an unsigned integer of the field's width (32
   * bits for the baud rate, 8 for the others), and checks them in the order
   * baud, parity, data bits, stop bits. The first failure is reported.
   */
  function ReadFields(parts: seq<string>): (r: Result<SerialConfig>)
    requires |parts| == 4
    ensures r != Wrappers.Err(WrongFieldCount)
    ensures r.Ok? ==> FieldsDescribe(parts, r.value)
    ensures ReportsFirstFailure(parts, r)
  {
    match Decimal.ParseUnsigned(parts[0], U32Bound)
    case None => Wrappers.Err(UnreadableBaud)
    case Some(baud) =>
      match Decimal.ParseUnsigned(parts[1], U8Bound)
      case None => Wrappers.Err(UnreadableParity)
      case Some(code) =>
        match ParityOfCode(code)
        case None => Wrappers.Err(ParityOutOfRange)
        case Some(parity) =>
          match Decimal.ParseUnsigned(parts[2], U8Bound)
          case None => Wrappers.Err(UnreadableDataBits)
          case Some(dataBits) =>
            match ParseDataBits(dataBits)
            case Err(e) => Wrappers.Err(e)
            case Ok(d) =>
              match Decimal.ParseUnsigned(parts[3], U8Bound)
              case None => Wrappers.Err(UnreadableStopBits)
              case Some(stopBits) =>
                match ParseStopBits(stopBits)
                case Err(e) => Wrappers.Err(e)
                case Ok(s) => Wrappers.Ok(SerialConfig(baud, d, parity, s))
  }

  /** The text form of a configuration, fields in decimal. */
  function ToConfigString(c: SerialConfig): string {
    Text.Join(Fields(c), ',')
  }

  function Fields(c: SerialConfig): seq<string> {
    [ Decimal.ToDecimal(c.baud), Decimal.ToDecimal(ParityCode(c.parity)),
      Decimal.ToDecimal(DataBitsValue(c.dataBits)), Decimal.ToDecimal(StopBitsValue(c.stopBits)) ]
  }

  /** The text form is accepted exactly when its four fields read as the configuration's values. */
  lemma FromStringAccepts(config: string, c: SerialConfig)
    ensures FromString(config) == Wrappers.Ok(c) <==> FieldsDescribe(Text.Split(config, ','), c)
  {
    var parts := Text.Split(config, ',');
    if FieldsDescribe(parts, c) {
      assert ParityOfCode(ParityCode(c.parity) as nat) == Wrappers.Some(c.parity);
      assert ParseDataBits(DataBitsValue(c.dataBits)) == Wrappers.Ok(c.dataBits);
      assert ParseStopBits(StopBitsValue(c.stopBits)) == Wrappers.Ok(c.stopBits);
    }
  }

  lemma DecimalHasNoComma(n: nat)
    ensures ',' !in Decimal.ToDecimal(n)
  {
    var s := Decimal.ToDecimal(n);
    assert forall i | 0 <= i < |s| :: s[i] != ',' by {
      assert Decimal.AllDigits(s);
    }
  }

  /** Writing a configuration in the text form and parsing it back gives the same configuration. */
  lemma ConfigStringRoundTrip(c: SerialConfig)
    ensures FromString(ToConfigString(c)) == Wrappers.Ok(c)
  {
    var f := Fields(c);
    forall i | 0 <= i < |f|
      ensures ',' !in f[i]
    {
      DecimalHasNoComma(if i == 0 then c.baud else if i == 1 then ParityCode(c.parity)
        else if i == 2 then DataBitsValue(c.dataBits) else StopBitsValue(c.stopBits));
    }
    Text.SplitJoin(f, ',');
    Decimal.ParseToDecimal(c.baud, U32Bound);
    Decimal.ParseToDecimal(ParityCode(c.parity), U8Bound);
    Decimal.ParseToDecimal(DataBitsValue(c.dataBits), U8Bound);
    Decimal.ParseToDecimal(StopBitsValue(c.stopBits), U8Bound);
    FromStringAccepts(ToConfigString(c), c);
  }

  /** The field-count error is reported exactly when the text does not hold three commas. */
  lemma FieldCountError(config: string)
    ensures FromString(config) == Wrappers.Err(WrongFieldCount) <==> Seqs.Occurrences(config, ',') != 3
  {
    Text.SplitCount(config, ',');
  }

  /** Parity names are matched without regard to ASCII letter case. */
  lemma ParseParityIgnoresCase(name: string)
    ensures ParseParity(name).Ok? == ParseParity(Text.ToAsciiLower(name)).Ok?
    ensures ParseParity(name).Ok? ==> ParseParity(name) == ParseParity(Text.ToAsciiLower(name))
  {
    var lower := Text.ToAsciiLower(name);
    assert Text.ToAsciiLower(lower) == lower;
  }

  /** Every accepted name, in any letter case, selects its parity. */
  lemma ParseParityNames(p: Parity, name: string)
    requires Text.ToAsciiLower(name) in ParityNames(p)
    ensures ParseParity(name) == Wrappers.Ok(p)
  {
  }

  /** Building a configuration from its own values gives it back. */
  lemma NewRoundTrip(c: SerialConfig)
    ensures New(c.baud, DataBitsValue(c.dataBits), ParityName(c.parity), StopBitsValue(c.stopBits)) == Wrappers.Ok(c)
  {
    var name := ParityName(c.parity);
    assert Text.ToAsciiLower(name) == name;
  }

  /** The example of the format's documentation is the default configuration. */
  lemma DefaultText()
    ensures FromString("115200,0,8,1") == Wrappers.Ok(Default())
  {
    DefaultTextFields();
    DefaultTextJoin();
    FromFourFields("115200,0,8,1", "115200", "0", "8", "1");
  }

  lemma DefaultTextJoin()
    ensures "115200,0,8,1" == "115200" + [','] + ("0" + [','] + ("8" + [','] + "1"))
  {
  }

  lemma DefaultTextFields()
    ensures ReadFields(["115200", "0", "8", "1"]) == Wrappers.Ok(Default())
  {
    Baud115200();
    assert Decimal.ParseUnsigned("0", U8Bound) == Wrappers.Some(0);
    assert Decimal.ParseUnsigned("8", U8Bound) == Wrappers.Some(8);
    assert Decimal.ParseUnsigned("1", U8Bound) == Wrappers.Some(1);
  }

  /** Three fields instead of four are refused before any field is read. */
  lemma MissingField()
    ensures FromString("115200,0,8") == Wrappers.Err(WrongFieldCount)
  {
    MissingFieldSplit();
  }

  lemma MissingFieldSplit()
    ensures |Text.Split("115200,0,8", ',')| == 3
  {
    ThreeFields("115200", "0", "8");
    assert "115200,0,8" == "115200" + [','] + ("0" + [','] + "8");
  }

  /** Five fields are refused before any field is read. */
  lemma ExtraField()
    ensures FromString("115200,0,8,1,extra") == Wrappers.Err(WrongFieldCount)
  {
    FromFiveFields("115200,0,8,1,extra", "115200", "0", "8", "1", "extra");
  }

  /** Text made of five comma-free fields is refused for its field count. */
  lemma FromFiveFields(config: string, a: string, b: string, c: string, d: string, e: string)
    requires ',' !in a && ',' !in b && ',' !in c && ',' !in d && ',' !in e
    requires config == a + [','] + (b + [','] + (c + [','] + (d + [','] + e)))
    ensures FromString(config) == Wrappers.Err(WrongFieldCount)
  {
    FourFields(b, c, d, e);
    Text.SplitPrefix(a, b + [','] + (c + [','] + (d + [','] + e)), ',');
  }

  /** The empty text is one empty field, not four. */
  lemma EmptyText()
    ensures FromString("") == Wrappers.Err(WrongFieldCount)
  {
    FieldCountError("");
  }

  lemma TwoFields(c: string, d: string)
    requires ',' !in c && ',' !in d
    ensures Text.Split(c + [','] + d, ',') == [c, d]
  {
    Text.SplitNoSep(d, ',');
    Text.SplitPrefix(c, d, ',');
  }

  lemma ThreeFields(b: string, c: string, d: string)
    requires ',' !in b && ',' !in c && ',' !in d
    ensures Text.Split(b + [','] + (c + [','] + d), ',') == [b, c, d]
  {
    TwoFields(c, d);
    Text.SplitPrefix(b, c + [','] + d, ',');
  }

  /** Text made of four comma-free fields is read field by field. */
  lemma FromFourFields(config: string, a: string, b: string, c: string, d: string)
    requires ',' !in a && ',' !in b && ',' !in c && ',' !in d
    requires config == a + [','] + (b + [','] + (c + [','] + d))
    ensures FromString(config) == ReadFields([a, b, c, d])
  {
    FourFields(a, b, c, d);
  }

  /** Four comma-free fields joined with commas split back into those four fields. */
  lemma FourFields(a: string, b: string, c: string, d: string)
    requires ',' !in a && ',' !in b && ',' !in c && ',' !in d
    ensures Text.Split(a + [','] + (b + [','] + (c + [','] + d)), ',') == [a, b, c, d]
  {
    ThreeFields(b, c, d);
    Text.SplitPrefix(a, b + [','] + (c + [','] + d), ',');
  }

  lemma NineSixHundred()
    ensures Decimal.ParseUnsigned("9600", U32Bound) == Wrappers.Some(9600)
  {
    assert Decimal.ToDecimal(9600) == "9600";
    Decimal.ParseToDecimal(9600, U32Bound);
  }

  lemma Baud115200()
    ensures Decimal.ParseUnsigned("115200", U32Bound) == Wrappers.Some(115200)
  {
    assert Decimal.DigitsValue("1") == 1;
    assert Decimal.DigitsValue("11") == 11 by {
      Decimal.DigitsValueSnoc("1", '1');
      assert "1" + ['1'] == "11";
    }
    assert Decimal.DigitsValue("115") == 115 by {
      Decimal.DigitsValueSnoc("11", '5');
      assert "11" + ['5'] == "115";
    }
    assert Decimal.DigitsValue("1152") == 1152 by {
      Decimal.DigitsValueSnoc("115", '2');
      assert "115" + ['2'] == "1152";
    }
    assert Decimal.DigitsValue("11520") == 11520 by {
      Decimal.DigitsValueSnoc("1152", '0');
      assert "1152" + ['0'] == "11520";
    }
    assert Decimal.DigitsValue("115200") == 115200 by {
      Decimal.DigitsValueSnoc("11520", '0');
      assert "11520" + ['0'] == "115200";
    }
  }

  /** A parity code that fits in a byte but is not 0, 1 or 2 is out of range. */
  lemma ParityCodeOutOfRange()
    ensures FromString("115200,5,8,1") == Wrappers.Err(ParityOutOfRange)
  {
    ParityCodeOutOfRangeFields();
    FromFourFields("115200,5,8,1", "115200", "5", "8", "1");
  }

  lemma ParityCodeOutOfRangeFields()
    ensures ReadFields(["115200", "5", "8", "1"]) == Wrappers.Err(ParityOutOfRange)
  {
    Baud115200();
    assert Decimal.ParseUnsigned("5", U8Bound) == Wrappers.Some(5);
  }

  /** A parity code too wide for a byte is unreadable rather than out of range. */
  lemma ParityCodeTooWide()
    ensures FromString("9600,256,8,1") == Wrappers.Err(UnreadableParity)
  {
    ParityCodeTooWideFields();
    FromFourFields("9600,256,8,1", "9600", "256", "8", "1");
  }

  lemma ParityCodeTooWideFields()
    ensures ReadFields(["9600", "256", "8", "1"]) == Wrappers.Err(UnreadableParity)
  {
    NineSixHundred();
    assert Decimal.ToDecimal(256) == "256";
    Decimal.DigitsValueOfDecimal(256);
    assert Decimal.ParseUnsigned("256", U8Bound) == Wrappers.None;
  }

  /** An out-of-range data-bit count is reported whatever the stop-bit field holds. */
  lemma DataBitsCheckedBeforeStopBits(baud: string, parity: string, dataBits: string, stopBits: string, bits: byte)
    requires ',' !in baud && ',' !in parity && ',' !in dataBits && ',' !in stopBits
    requires Decimal.ParseUnsigned(baud, U32Bound).Some?
    requires Decimal.ParseUnsigned(parity, U8Bound).Some? && Decimal.ParseUnsigned(parity, U8Bound).value <= 2
    requires Decimal.ParseUnsigned(dataBits, U8Bound) == Wrappers.Some(bits as nat) && !(5 <= bits <= 8)
    ensures FromString(baud + [','] + (parity + [','] + (dataBits + [','] + stopBits))) == Wrappers.Err(InvalidDataBits(bits))
  {
    FromFourFields(baud + [','] + (parity + [','] + (dataBits + [','] + stopBits)), baud, parity, dataBits, stopBits);
  }

  /** Four data bits are read and then refused with the value in the message. */
  lemma FourDataBits()
    ensures FromString("9600,0,4,1") == Wrappers.Err(InvalidDataBits(4))
  {
    assert "9600,0,4,1" == "9600" + [','] + ("0" + [','] + ("4" + [','] + "1"));
    assert Decimal.ParseUnsigned("0", U8Bound) == Wrappers.Some(0);
    assert Decimal.ParseUnsigned("4", U8Bound) == Wrappers.Some(4);
    NineSixHundred();
    DataBitsCheckedBeforeStopBits("9600", "0", "4", "1", 4);
  }

  /** The data-bit error carries the refused count in decimal. */
  lemma FourDataBitsMessage()
    ensures Message(InvalidDataBits(4)) == "Invalid data bits: 4"
  {
    assert Decimal.ToDecimal(4) == "4";
  }

  /** Three stop bits are read and then refused. */
  lemma ThreeStopBits()
    ensures FromString("9600,0,8,3") == Wrappers.Err(InvalidStopBits(3))
  {
    ThreeStopBitsFields();
    FromFourFields("9600,0,8,3", "9600", "0", "8", "3");
  }

  lemma ThreeStopBitsFields()
    ensures ReadFields(["9600", "0", "8", "3"]) == Wrappers.Err(InvalidStopBits(3))
  {
    NineSixHundred();
    assert Decimal.ParseUnsigned("0", U8Bound) == Wrappers.Some(0);
    assert Decimal.ParseUnsigned("8", U8Bound) == Wrappers.Some(8);
    assert Decimal.ParseUnsigned("3", U8Bound) == Wrappers.Some(3);
  }

  /** Fields are not trimmed: a space after a comma makes the field after it unreadable. */
  lemma SpaceAfterComma()
    ensures FromString("115200, 0, 8, 1") == Wrappers.Err(UnreadableParity)
  {
    SpaceAfterCommaFields();
    FromFourFields("115200, 0, 8, 1", "115200", " 0", " 8", " 1");
  }

  lemma SpaceAfterCommaFields()
    ensures ReadFields(["115200", " 0", " 8", " 1"]) == Wrappers.Err(UnreadableParity)
  {
    Baud115200();
    Decimal.ParseRejectsNonDigit(" 0", U8Bound, 0);
  }

  /** Fields are not trimmed: a padded baud rate is unreadable. */
  lemma SpaceBeforeBaud()
    ensures FromString(" 9600,0,8,1") == Wrappers.Err(UnreadableBaud)
  {
    SpaceBeforeBaudFields();
    FromFourFields(" 9600,0,8,1", " 9600", "0", "8", "1");
  }

  lemma SpaceBeforeBaudFields()
    ensures ReadFields([" 9600", "0", "8", "1"]) == Wrappers.Err(UnreadableBaud)
  {
    Decimal.ParseRejectsNonDigit(" 9600", U32Bound, 0);
  }

  /** Parity names are matched in any letter case when building from separate values. */
  lemma UpperCaseParityNames()
    ensures New(9600, 8, "NONE", 1) == Wrappers.Ok(SerialConfig(9600, Eight, None, One))
    ensures New(9600, 8, "ODD", 1) == Wrappers.Ok(SerialConfig(9600, Eight, Odd, One))
    ensures New(9600, 8, "EVEN", 1) == Wrappers.Ok(SerialConfig(9600, Eight, Even, One))
    ensures New(9600, 8, "None", 1) == Wrappers.Ok(SerialConfig(9600, Eight, None, One))
  {
    assert Text.ToAsciiLower("NONE") == "none";
    assert Text.ToAsciiLower("ODD") == "odd";
    assert Text.ToAsciiLower("EVEN") == "even";
    assert Text.ToAsciiLower("None") == "none";
  }
}
