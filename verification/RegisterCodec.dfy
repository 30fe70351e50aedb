/** Numbers in 16-bit registers. Integers here are mathematical: a cast that
    wraps is written out, and a register is a number below 65536. */
module RegisterCodec {
  import opened Numbers

  type Register = r: int | 0 <= r < 0x1_0000

  datatype WordOrder = HighLow | LowHigh

  datatype DataType = Int16 | Uint16 | Int32 | Uint32 | Int64 {
    function Registers(): nat {
      match this
      case Int16 => 1
      case Uint16 => 1
      case Int32 => 2
      case Uint32 => 2
      case Int64 => 4
    }

    predicate IsSigned() { Int16? || Int32? || Int64? }

    /** How many values the type holds. */
    function Span(): int {
      match this
      case Int16 => 0x1_0000
      case Uint16 => 0x1_0000
      case Int32 => 0x1_0000_0000
      case Uint32 => 0x1_0000_0000
      case Int64 => 0x1_0000_0000_0000_0000
    }
  }

  /** `value as unsigned` for a signed value of the given span. */
  function Wrapped(value: int, span: int): int
    requires span > 0
  {
    value % span
  }

  /** `value as signed` for an unsigned value of the given span. */
  function Reinterpreted(value: int, span: int): int {
    if 2 * value >= span then value - span else value
  }

  function Least(t: DataType): int { if t.IsSigned() then -(t.Span() / 2) else 0 }

  /** One past the largest value the type holds. */
  function Limit(t: DataType): int { if t.IsSigned() then t.Span() / 2 else t.Span() }

  predicate Fits(t: DataType, value: int) { Least(t) <= value < Limit(t) }

  function Ordered(words: seq<Register>, order: WordOrder): (r: seq<Register>)
    ensures |r| == |words|
  {
    if order == HighLow then words else Backwards(words)
  }

  function Backwards(words: seq<Register>): (r: seq<Register>)
    ensures |r| == |words|
  {
    seq(|words|, i requires 0 <= i < |words| => words[|words| - 1 - i])
  }

  /** `high << 16 | low`. */
  function Joined(high: int, low: Register): int { high * 0x1_0000 + low }

  function DecodeUint32(words: seq<Register>, order: WordOrder): int
    requires |words| >= 2
  {
    if order == HighLow then Joined(words[0], words[1]) else Joined(words[1], words[0])
  }

  function EncodeUint32(value: int, order: WordOrder): seq<Register>
    requires 0 <= value < 0x1_0000_0000
  {
    var high, low := Low(High(value)), Low(value);
    if order == HighLow then [high, low] else [low, high]
  }

  /** The words shifted in one by one, the first the most significant. */
  function Shifted(words: seq<Register>): (r: int)
    ensures r >= 0
  {
    if words == [] then 0 else Joined(Shifted(words[..|words| - 1]), words[|words| - 1])
  }

  function DecodeInt64(words: seq<Register>, order: WordOrder): int
    requires |words| >= 4
  {
    Reinterpreted(Shifted(Ordered(words[..4], order)), Int64.Span())
  }

  /** The low 16 bits: `raw as u16`. */
  function Low(raw: int): Register { raw % 0x1_0000 }

  /** The rest: `raw >> 16`. */
  function High(raw: int): int { raw / 0x1_0000 }

  function BigEndian(raw: int): seq<Register> {
    [Low(High(High(High(raw)))), Low(High(High(raw))), Low(High(raw)), Low(raw)]
  }

  function EncodeInt64(value: int, order: WordOrder): seq<Register> {
    Ordered(BigEndian(Wrapped(value, Int64.Span())), order)
  }

  function Decode(words: seq<Register>, t: DataType, order: WordOrder): int
    requires |words| >= t.Registers()
  {
    match t
    case Uint16 => words[0]
    case Int16 => Reinterpreted(words[0], t.Span())
    case Int32 => Reinterpreted(DecodeUint32(words, order), t.Span())
    case Uint32 => DecodeUint32(words, order)
    case Int64 => DecodeInt64(words, order)
  }

  function Encode(value: int, t: DataType, order: WordOrder): seq<Register>
    requires Fits(t, value)
  {
    match t
    case Uint16 => [value]
    case Int16 => [Wrapped(value, t.Span())]
    case Int32 => EncodeUint32(Wrapped(value, t.Span()), order)
    case Uint32 => EncodeUint32(value, order)
    case Int64 => EncodeInt64(value, order)
  }

  function DecodeRaw(words: seq<Register>, t: DataType, order: WordOrder): real
    requires |words| >= t.Registers()
  {
    Decode(words, t, order) as real
  }

  /** Refused unless the rounded value fits the type. */
  function EncodeRaw(raw: real, t: DataType, order: WordOrder): Result<seq<Register>> {
    if Fits(t, Round(raw)) then Ok(Encode(Round(raw), t, order)) else Err("doesn't fit the register")
  }

  // ----- round trips

  lemma RoundIsNearest(x: real)
    ensures -0.5 <= Round(x) as real - x <= 0.5
  {
  }

  lemma WrappedBack(value: int, t: DataType)
    requires t.IsSigned() && Fits(t, value)
    ensures 0 <= Wrapped(value, t.Span()) < t.Span()
    ensures Reinterpreted(Wrapped(value, t.Span()), t.Span()) == value
  {
    if value < 0 { assert Wrapped(value, t.Span()) == value + t.Span(); }
  }

  lemma ReinterpretedBack(raw: int, t: DataType)
    requires t.IsSigned() && 0 <= raw < t.Span()
    ensures Fits(t, Reinterpreted(raw, t.Span()))
    ensures Wrapped(Reinterpreted(raw, t.Span()), t.Span()) == raw
  {
  }

  lemma TwiceBackwards(words: seq<Register>, order: WordOrder)
    ensures Ordered(Ordered(words, order), order) == words
  {
  }

  lemma HighLow16(raw: int, n: int)
    requires 0 <= raw < n * 0x1_0000
    ensures 0 <= High(raw) < n && High(raw) * 0x1_0000 + Low(raw) == raw
  {
  }

  lemma Shift(words: seq<Register>, w: Register)
    ensures Shifted(words + [w]) == Shifted(words) * 0x1_0000 + w
    ensures High(Shifted(words + [w])) == Shifted(words) && Low(Shifted(words + [w])) == w
  {
    assert (words + [w])[..|words|] == words;
  }

  /** Shifting four words in, word by word. */
  lemma ShiftFour(a: Register, b: Register, c: Register, d: Register)
    ensures Shifted([a]) == a
    ensures Shifted([a, b, c, d]) == ((a * 0x1_0000 + b) * 0x1_0000 + c) * 0x1_0000 + d
    ensures BigEndian(Shifted([a, b, c, d])) == [a, b, c, d]
  {
    Shift([], a);
    Shift([a], b);
    Shift([a, b], c);
    Shift([a, b, c], d);
    assert [] + [a] == [a] && [a] + [b] == [a, b] && [a, b] + [c] == [a, b, c] && [a, b, c] + [d] == [a, b, c, d];
  }

  /** Shifting four words in, and splitting a 64-bit value into its words, undo each other. */
  lemma ShiftedWords(words: seq<Register>)
    requires |words| == 4
    ensures BigEndian(Shifted(words)) == words && 0 <= Shifted(words) < Int64.Span()
  {
    ShiftFour(words[0], words[1], words[2], words[3]);
    assert words == [words[0], words[1], words[2], words[3]];
  }

  lemma WordsShifted(raw: int)
    requires 0 <= raw < Int64.Span()
    ensures Shifted(BigEndian(raw)) == raw
  {
    HighLow16(raw, 0x1_0000_0000_0000);
    HighLow16(High(raw), 0x1_0000_0000);
    HighLow16(High(High(raw)), 0x1_0000);
    HighLow16(High(High(High(raw))), 1);
    ShiftFour(Low(High(High(High(raw)))), Low(High(High(raw))), Low(High(raw)), Low(raw));
  }

  lemma Int64RoundTrip(value: int, order: WordOrder)
    requires Fits(Int64, value)
    ensures DecodeInt64(EncodeInt64(value, order), order) == value
  {
    var raw := Wrapped(value, Int64.Span());
    WrappedBack(value, Int64);
    TwiceBackwards(BigEndian(raw), order);
    assert EncodeInt64(value, order)[..4] == EncodeInt64(value, order);
    WordsShifted(raw);
  }

  lemma Uint32RoundTrip(value: int, order: WordOrder)
    requires Fits(Uint32, value)
    ensures |EncodeUint32(value, order)| == 2 && DecodeUint32(EncodeUint32(value, order), order) == value
    ensures EncodeUint32(value, LowHigh) == Backwards(EncodeUint32(value, HighLow))
  {
    HighLow16(value, 0x1_0000);
  }

  /** Decoding what was encoded gives the value back, for every width, sign and
      word order, and the two orders are each other's reversal. */
  lemma EncodeThenDecode(value: int, t: DataType, order: WordOrder)
    requires Fits(t, value)
    ensures |Encode(value, t, order)| == t.Registers()
    ensures Decode(Encode(value, t, order), t, order) == value
    ensures Encode(value, t, LowHigh) == Backwards(Encode(value, t, HighLow))
  {
    match t
    case Uint16 =>
    case Uint32 => Uint32RoundTrip(value, order);
    case Int16 => WrappedBack(value, t);
    case Int32 => WrappedBack(value, t); Uint32RoundTrip(Wrapped(value, t.Span()), order);
    case Int64 => Int64RoundTrip(value, order);
  }

  /** With the high word first the first register counts the most, and a negative
      number is the unsigned one of its width that wraps to it. */
  lemma FirstCountsMost(value: int, t: DataType)
    requires Fits(t, value)
    ensures var w := Encode(value, t, HighLow);
            match t
            case Uint16 => w == [value]
            case Int16 => w == [if value < 0 then value + 0x1_0000 else value]
            case Uint32 => |w| == 2 && w[0] as int * 0x1_0000 + w[1] as int == value
            case Int32 =>
              |w| == 2 && w[0] as int * 0x1_0000 + w[1] as int == if value < 0 then value + 0x1_0000_0000 else value
            case Int64 =>
              |w| == 4 &&
                ((w[0] as int * 0x1_0000 + w[1] as int) * 0x1_0000 + w[2] as int) * 0x1_0000 + w[3] as int ==
                if value < 0 then value + 0x1_0000_0000_0000_0000 else value
  {
    match t
    case Uint16 =>
    case Int16 => WrappedIs(value, t);
    case Uint32 => HighLow16(value, 0x1_0000);
    case Int32 => WrappedIs(value, t); HighLow16(Wrapped(value, t.Span()), 0x1_0000);
    case Int64 =>
      var raw := Wrapped(value, t.Span());
      WrappedIs(value, t);
      WordsShifted(raw);
      ShiftFour(Low(High(High(High(raw)))), Low(High(High(raw))), Low(High(raw)), Low(raw));
  }

  lemma WrappedIs(value: int, t: DataType)
    requires t.IsSigned() && Fits(t, value)
    ensures Wrapped(value, t.Span()) == if value < 0 then value + t.Span() else value
    ensures 0 <= Wrapped(value, t.Span()) < t.Span()
  {
    WrappedBack(value, t);
  }

  lemma Int64Words(words: seq<Register>, order: WordOrder)
    requires |words| == 4
    ensures Fits(Int64, DecodeInt64(words, order)) && EncodeInt64(DecodeInt64(words, order), order) == words
  {
    var ordered := Ordered(words, order);
    assert words[..4] == words;
    TwiceBackwards(words, order);
    ShiftedWords(ordered);
    ReinterpretedBack(Shifted(ordered), Int64);
  }

  lemma Uint32Words(words: seq<Register>, order: WordOrder)
    requires |words| == 2
    ensures Fits(Uint32, DecodeUint32(words, order)) && EncodeUint32(DecodeUint32(words, order), order) == words
  {
    var high, low := if order == HighLow then words[0] else words[1], if order == HighLow then words[1] else words[0];
    assert High(Joined(high, low)) == high && Low(Joined(high, low)) == low;
  }

  /** Every register content is the encoding of what it decodes to. */
  lemma DecodeThenEncode(words: seq<Register>, t: DataType, order: WordOrder)
    requires |words| == t.Registers()
    ensures Fits(t, Decode(words, t, order)) && Encode(Decode(words, t, order), t, order) == words
  {
    match t
    case Uint16 =>
    case Uint32 => Uint32Words(words, order);
    case Int16 => ReinterpretedBack(words[0], t);
    case Int32 => Uint32Words(words, order); ReinterpretedBack(DecodeUint32(words, order), t);
    case Int64 => Int64Words(words, order);
  }

  /** Rounding half away from zero, a value fits exactly if it is less than a
      half outside the type's range. */
  lemma RoundFits(raw: real, t: DataType)
    ensures Fits(t, Round(raw)) <==> Least(t) as real - 0.5 < raw < Limit(t) as real - 0.5
  {
    var least, limit := Least(t), Limit(t);
    RoundAtLeast(raw, least);
    RoundBelow(raw, limit);
  }

  lemma RoundAtLeast(raw: real, least: int)
    requires least <= 0
    ensures Round(raw) >= least <==> raw > least as real - 0.5
  {
  }

  lemma RoundBelow(raw: real, limit: int)
    requires limit > 0
    ensures Round(raw) < limit <==> raw < limit as real - 0.5
  {
  }

  /** A value is refused exactly when it is a half or more outside the type's
      range; otherwise what comes back is the rounded value, at most a half away. */
  lemma RawRoundTrip(raw: real, t: DataType, order: WordOrder)
    ensures EncodeRaw(raw, t, order).Ok? <==> Least(t) as real - 0.5 < raw < Limit(t) as real - 0.5
    ensures EncodeRaw(raw, t, order).Ok? ==>
              var words := EncodeRaw(raw, t, order).value;
              && |words| == t.Registers()
              && DecodeRaw(words, t, order) == Round(raw) as real
              && -0.5 <= DecodeRaw(words, t, order) - raw <= 0.5
  {
    RoundIsNearest(raw);
    RoundFits(raw, t);
    if Fits(t, Round(raw)) { EncodeThenDecode(Round(raw), t, order); }
  }

  // ----- a binding's own scale and offset

  /** `raw` counts, in engineering units. */
  function Engineering(raw: real, unit: real): real { raw * unit }

  /** A value's count of units. */
  function Counts(value: real, unit: real): real
    requires unit != 0.0
  {
    value / unit
  }

  /** A Modbus setpoint; a zero scale has no raw value and is refused. */
  function WriteScaled(value: real, scale: real, offset: real, t: DataType, order: WordOrder): Result<seq<Register>> {
    if scale == 0.0 then Err("not finite") else EncodeRaw(Counts(value - offset, scale), t, order)
  }

  function ReadScaled(words: seq<Register>, scale: real, offset: real, t: DataType, order: WordOrder): real
    requires |words| >= t.Registers()
  {
    Engineering(DecodeRaw(words, t, order), scale) + offset
  }

  lemma CountsBack(value: real, unit: real)
    requires unit != 0.0
    ensures Engineering(Counts(value, unit), unit) == value
  {
  }

  lemma EngineeringBack(raw: real, unit: real)
    requires unit != 0.0
    ensures Counts(Engineering(raw, unit), unit) == raw
  {
  }

  lemma ProductOrder(x: real, y: real, factor: real)
    requires x <= y && factor >= 0.0
    ensures x * factor <= y * factor
  {
  }

  /** Counts within a half of each other stand for values within half a unit. */
  lemma UnitError(raw: real, back: real, unit: real)
    requires -0.5 <= back - raw <= 0.5
    ensures Abs(Engineering(back, unit) - Engineering(raw, unit)) <= Abs(unit) / 2.0
  {
    var e := back - raw;
    assert Engineering(back, unit) - Engineering(raw, unit) == e * unit;
    ProductOrder(e, 0.5, Abs(unit));
    ProductOrder(-0.5, e, Abs(unit));
    if unit < 0.0 { assert e * Abs(unit) == -(e * unit); }
  }

  /** Ordering counts is ordering what they stand for. */
  lemma CountsBetween(value: real, unit: real, low: real, high: real)
    requires unit > 0.0
    ensures low < Counts(value, unit) < high <==> Engineering(low, unit) < value < Engineering(high, unit)
  {
    CountsBack(value, unit);
    ScaleStrict(low, Counts(value, unit), unit);
    ScaleStrict(Counts(value, unit), high, unit);
  }

  lemma StrictProduct(x: real, y: real)
    requires x > 0.0 && y > 0.0
    ensures x * y > 0.0
  {
  }

  lemma EngineeringStrict(a: real, b: real, unit: real)
    requires a < b && unit > 0.0
    ensures Engineering(a, unit) < Engineering(b, unit)
  {
    StrictProduct(b - a, unit);
    assert Engineering(b, unit) == Engineering(a, unit) + (b - a) * unit;
  }

  lemma ScaleStrict(a: real, b: real, unit: real)
    requires unit > 0.0
    ensures a < b <==> Engineering(a, unit) < Engineering(b, unit)
  {
    if a < b {
      EngineeringStrict(a, b, unit);
    } else if b < a {
      EngineeringStrict(b, a, unit);
    }
  }

  lemma NearestCount(value: real, unit: real, back: real)
    requires unit != 0.0 && -0.5 <= back - Counts(value, unit) <= 0.5
    ensures Abs(Engineering(back, unit) - value) <= Abs(unit) / 2.0
  {
    UnitError(Counts(value, unit), back, unit);
    CountsBack(value, unit);
  }

  /** A setpoint the register can hold reads back within half the scale. */
  lemma ScaledRoundTrip(value: real, scale: real, offset: real, t: DataType, order: WordOrder)
    requires WriteScaled(value, scale, offset, t, order).Ok?
    ensures var words := WriteScaled(value, scale, offset, t, order).value;
            |words| == t.Registers() && Abs(ReadScaled(words, scale, offset, t, order) - value) <= Abs(scale) / 2.0
  {
    var raw := Counts(value - offset, scale);
    RawRoundTrip(raw, t, order);
    NearestCount(value - offset, scale, Round(raw) as real);
  }
}
