/** SunSpec points: an integer register that counts units of a power of ten kept
    in another register, with one content per type reserved for "not implemented". */
module ScaledSetpoint {
  import opened Numbers
  import opened RegisterCodec

  datatype PointType = I16 | U16 | I32 | Acc32 | Enum16 | Bitfield32 | ScaleFactor

  /** `scaled`: the point has a scale-factor point. */
  datatype Point = Point(kind: PointType, writable: bool, scaled: bool)

  function DataTypeOf(kind: PointType): DataType {
    match kind
    case I16 => Int16
    case ScaleFactor => Int16
    case U16 => Uint16
    case Enum16 => Uint16
    case I32 => Int32
    case Acc32 => Uint32
    case Bitfield32 => Uint32
  }

  /** The register content reserved for "not implemented". */
  function NotImplemented(kind: PointType): seq<Register> {
    match kind
    case I16 => [0x8000]
    case ScaleFactor => [0x8000]
    case U16 => [0xFFFF]
    case Enum16 => [0xFFFF]
    case I32 => [0x8000, 0x0000]
    case Acc32 => [0x0000, 0x0000]
    case Bitfield32 => [0xFFFF, 0xFFFF]
  }

  /** A read of a point's registers, unless they hold the reserved content. */
  function Implemented(kind: PointType, words: seq<Register>): Result<seq<Register>> {
    if words == NotImplemented(kind) then Err("not implemented") else Ok(words)
  }

  function PowerOfTen(e: int): (r: real)
    ensures r > 0.0
    decreases if e < 0 then -e else e
  {
    if e == 0 then 1.0 else if e > 0 then 10.0 * PowerOfTen(e - 1) else PowerOfTen(e + 1) / 10.0
  }

  /** Each step of the exponent is a factor of ten, from 1 at 0. */
  lemma PowersOfTen(e: int)
    ensures PowerOfTen(0) == 1.0 && PowerOfTen(e + 1) == 10.0 * PowerOfTen(e)
  {
  }

  function Exponent(word: Register): int { Reinterpreted(word, Int16.Span()) }

  function ApplyScale(raw: real, word: Register): Result<real> {
    if word == 0x8000 then Err("scale factor not implemented") else Ok(Engineering(raw, PowerOfTen(Exponent(word))))
  }

  /** The units a point's register counts: 1, or the power of ten read from its
      scale register, whose read fails if that holds the reserved content. */
  function Scale(point: Point, word: Register): Result<real> {
    if !point.scaled then Ok(1.0)
    else
      var read := Implemented(ScaleFactor, [word]);
      if read.Err? then Err(read.reason) else ApplyScale(1.0, read.value[0])
  }

  /** A setpoint write; a bitfield is written only one bit at a time. */
  function Write(point: Point, word: Register, value: real): Result<seq<Register>> {
    if !point.writable || point.kind == Bitfield32 then Err("not writable as a setpoint")
    else
      var scale := Scale(point, word);
      if scale.Err? then Err(scale.reason)
      else EncodeRaw(Counts(value, Unit(point, word)), DataTypeOf(point.kind), HighLow)
  }

  /** The value of a good scale. */
  function Unit(point: Point, word: Register): (r: real)
    ensures r > 0.0
    ensures Scale(point, word).Ok? ==> Scale(point, word).value == r
  {
    if point.scaled then PowerOfTen(Exponent(word)) else 1.0
  }

  function Read(point: Point, word: Register, words: seq<Register>): Result<real>
    requires |words| == DataTypeOf(point.kind).Registers()
  {
    var read := Implemented(point.kind, words);
    if read.Err? then Err(read.reason)
    else
      var raw := DecodeRaw(read.value, DataTypeOf(point.kind), HighLow);
      if !point.scaled then Ok(raw)
      else
        var sf := Implemented(ScaleFactor, [word]);
        if sf.Err? then Err(sf.reason) else ApplyScale(raw, sf.value[0])
  }

  /** The number the reserved content would stand for. */
  function Reserved(kind: PointType): int {
    match kind
    case I16 => -0x8000
    case ScaleFactor => -0x8000
    case U16 => 0xFFFF
    case Enum16 => 0xFFFF
    case I32 => -0x8000_0000
    case Acc32 => 0
    case Bitfield32 => 0xFFFF_FFFF
  }

  lemma DecodeReserved(kind: PointType)
    ensures |NotImplemented(kind)| == DataTypeOf(kind).Registers()
    ensures Decode(NotImplemented(kind), DataTypeOf(kind), HighLow) == Reserved(kind)
  {
  }

  lemma ReservedContent(kind: PointType, value: int)
    requires Fits(DataTypeOf(kind), value)
    ensures Encode(value, DataTypeOf(kind), HighLow) == NotImplemented(kind) <==> value == Reserved(kind)
  {
    EncodeThenDecode(value, DataTypeOf(kind), HighLow);
    DecodeReserved(kind);
    DecodeThenEncode(NotImplemented(kind), DataTypeOf(kind), HighLow);
  }

  /** A setpoint is accepted exactly when the point takes one, its scale is
      implemented, and the value itself, in engineering units, is less than half
      a unit outside what the register can stand for. */
  lemma RefusedExactly(point: Point, word: Register, value: real)
    ensures Write(point, word, value).Ok? <==>
            && point.writable && point.kind != Bitfield32
            && (point.scaled ==> word != 0x8000)
            && var t, unit := DataTypeOf(point.kind), Unit(point, word);
               Engineering(Least(t) as real - 0.5, unit) < value < Engineering(Limit(t) as real - 0.5, unit)
  {
    var t, unit := DataTypeOf(point.kind), Unit(point, word);
    RawRoundTrip(Counts(value, unit), t, HighLow);
    CountsBetween(value, unit, Least(t) as real - 0.5, Limit(t) as real - 0.5);
  }

  /** What was written reads back within half a unit of the setpoint, unless
      the count is the type's reserved one; that is written all the same, and
      the point then reads as not implemented. */
  lemma ReadBack(point: Point, word: Register, value: real)
    requires Write(point, word, value).Ok?
    ensures var words, unit := Write(point, word, value).value, Unit(point, word);
            && |words| == DataTypeOf(point.kind).Registers()
            && (Read(point, word, words).Ok? <==> Round(Counts(value, unit)) != Reserved(point.kind))
            && (Read(point, word, words).Ok? ==> Abs(Read(point, word, words).value - value) <= unit / 2.0)
  {
    var t, unit := DataTypeOf(point.kind), Unit(point, word);
    var raw := Counts(value, unit);
    RawRoundTrip(raw, t, HighLow);
    ReservedContent(point.kind, Round(raw));
    NearestCount(value, unit, Round(raw) as real);
  }

  /** Such a setpoint exists: 65535 counts in an unsigned 16-bit register. */
  lemma ReservedIsWritten(word: Register)
    requires word != 0x8000
    ensures var point, value := Point(U16, true, true), Engineering(65535.0, PowerOfTen(Exponent(word)));
            Write(point, word, value) == Ok([0xFFFF]) && Read(point, word, [0xFFFF]).Err?
  {
    EngineeringBack(65535.0, Unit(Point(U16, true, true), word));
    assert EncodeRaw(65535.0, Uint16, HighLow) == Ok([0xFFFF]);
  }

  /** The scale register holds a signed power of ten: a setpoint is counted in
      units of 10^word, or of 10^(word - 65536) from 0x8001 on. */
  lemma CountedInPowersOfTen(point: Point, word: Register, value: real)
    requires Write(point, word, value).Ok? && point.scaled
    ensures Decode(Write(point, word, value).value, DataTypeOf(point.kind), HighLow) ==
            Round(value / PowerOfTen(if word < 0x8000 then word else word - 0x1_0000))
  {
    RawRoundTrip(Counts(value, Unit(point, word)), DataTypeOf(point.kind), HighLow);
  }

  /** 250 kW with a scale word of 1 is 25000 counts, and -2.5 W with 0xFFFF is -25. */
  lemma CountExamples()
    ensures Write(Point(U16, true, true), 1, 250000.0) == Ok([25000])
    ensures Write(Point(I16, true, true), 0xFFFF, -2.5) == Ok([0x1_0000 - 25])
  {
    PowersOfTen(0);
    PowersOfTen(-1);
    assert PowerOfTen(Exponent(1)) == 10.0 && PowerOfTen(Exponent(0xFFFF)) == 0.1;
    assert Counts(250000.0, 10.0) == 25000.0 && Counts(-2.5, 0.1) == -25.0;
    assert Round(25000.0) == 25000 && Round(-25.0) == -25;
  }
}
