/**
 * The renderer of log messages: printf-style and fmt-style placeholders in one
 * format string, with dynamic widths and precisions taken from the arguments.
 * Text is a sequence of UTF-16 code units. Floating-point printing, UTF-8
 * decoding and the conversion of text or a big integer to a number belong to
 * the host and are parameters.
 */
module Render {
  import opened Bytes
  import opened Numerals
  import opened On9logPacket

  type Units = seq<nat>

  const MAX_FORMAT_WIDTH := 4096
  const MAX_RENDER_OUTPUT := 1_000_000
  const MAX_FORMAT_PRECISION := 100

  const SPACE := 0x20
  const HASH := 0x23
  const PERCENT := 0x25
  const STAR := 0x2a
  const PLUS := 0x2b
  const MINUS := 0x2d
  const DOT := 0x2e
  const ZERO := 0x30
  const COLON := 0x3a
  const LESS := 0x3c
  const GREATER := 0x3e
  const CARET := 0x5e
  const OPEN := 0x7b
  const CLOSE := 0x7d

  /**
   * What the host supplies; `toInteger` is none for text that is not an integer number, and a float is given by its
   * bits.
   */
  datatype Host = Host(
    decode: seq<Byte> -> Units,
    number: nat -> nat,
    toInteger: Units -> Option<int>,
    toFixed: (nat, nat) -> Units,
    toExponential: (nat, nat) -> Units,
    toPrecision: (nat, nat) -> Option<Units>,
    isInteger: nat -> bool
  )

  function Ascii(s: string): Units { seq(|s|, i requires 0 <= i < |s| => s[i] as nat) }

  predicate IsDigit(c: nat) { ZERO <= c <= ZERO + 9 }

  /** The kinds of units that are skipped in runs: flags, length modifiers (one of `hlLjzt`) and digits. */
  datatype Class = Flags | Modifiers | Decimals

  predicate Is(k: Class, c: nat) {
    match k
    case Flags => c == MINUS || c == PLUS || c == SPACE || c == HASH || c == ZERO
    case Modifiers => c == 0x68 || c == 0x6c || c == 0x4c || c == 0x6a || c == 0x7a || c == 0x74
    case Decimals => IsDigit(c)
  }

  /** How many units at the front are of a class. */
  function Count(s: Units, k: Class): (n: nat)
    ensures n <= |s|
  {
    if s == [] || !Is(k, s[0]) then 0 else 1 + Count(s[1..], k)
  }

  // --- Reading a format ----------------------------------------------------

  datatype Amount = Given(n: nat) | FromArgument

  datatype Token =
    | Literal(c: nat)
    | Place(inner: Units)
    | Conversion(flags: Units, width: Amount, precision: Option<Amount>, conv: nat)

  datatype Lexed = Bad | Lexed(token: Token, rest: Units)

  /** Position of the brace that closes a placeholder whose content starts here. */
  function FindClosing(s: Units, depth: nat): (r: Option<nat>)
    ensures r.Some? ==> r.value < |s| && s[r.value] == CLOSE
  {
    if s == [] then None
    else if s[0] == CLOSE && depth == 0 then Some(0)
    else
      var r := FindClosing(s[1..], if s[0] == OPEN then depth + 1 else if s[0] == CLOSE then depth - 1 else depth);
      if r.None? then None else Some(r.value + 1)
  }

  datatype Reading = TooBig | Fits(n: nat, rest: Units)

  function ReadNumber(s: Units, acc: nat, max: nat): (r: Reading)
    ensures r.Fits? ==> |r.rest| <= |s| && (acc <= max ==> r.n <= max)
  {
    if s == [] || !IsDigit(s[0]) then Fits(acc, s)
    else
      var n := acc * 10 + (s[0] - ZERO);
      if n > max then TooBig else ReadNumber(s[1..], n, max)
  }

  predicate StartsWith(s: Units, c: nat) { s != [] && s[0] == c }

  function LexEnd(flags: Units, width: Amount, precision: Option<Amount>, s: Units): (r: Lexed)
    ensures r.Lexed? ==> |r.rest| < |s|
  {
    var t := s[Count(s, Modifiers)..];
    if t == [] then Bad else Lexed(Conversion(flags, width, precision, t[0]), t[1..])
  }

  function LexPrecision(flags: Units, width: Amount, s: Units): (r: Lexed)
    ensures r.Lexed? ==> |r.rest| < |s|
  {
    if !StartsWith(s, DOT) then LexEnd(flags, width, None, s)
    else if StartsWith(s[1..], STAR) then LexEnd(flags, width, Some(FromArgument), s[2..])
    else
      match ReadNumber(s[1..], 0, MAX_FORMAT_PRECISION)
      case TooBig => Bad
      case Fits(p, rest) => LexEnd(flags, width, Some(Given(p)), rest)
  }

  /** What follows the percent sign. */
  function LexConversion(s: Units): (r: Lexed)
    ensures r.Lexed? ==> |r.rest| < |s|
  {
    var k := Count(s, Flags);
    LexWidth(s[..k], s[k..])
  }

  function LexWidth(flags: Units, s: Units): (r: Lexed)
    ensures r.Lexed? ==> |r.rest| < |s|
  {
    match ReadNumber(s, 0, MAX_FORMAT_WIDTH)
    case TooBig => Bad
    case Fits(w, rest) =>
      if StartsWith(rest, STAR) then LexPrecision(flags, FromArgument, rest[1..])
      else LexPrecision(flags, Given(w), rest)
  }

  function Lex(s: Units): (r: Lexed)
    requires s != []
    ensures r.Lexed? ==> |r.rest| < |s|
  {
    var c := s[0];
    if c == OPEN then
      if StartsWith(s[1..], OPEN) then Lexed(Literal(OPEN), s[2..])
      else
        var close := FindClosing(s[1..], 0);
        if close.None? then Bad else Lexed(Place(s[1..][..close.value]), s[1..][close.value + 1..])
    else if c == CLOSE then
      if StartsWith(s[1..], CLOSE) then Lexed(Literal(CLOSE), s[2..]) else Bad
    else if c != PERCENT then Lexed(Literal(c), s[1..])
    else if StartsWith(s[1..], PERCENT) then Lexed(Literal(PERCENT), s[2..])
    else LexConversion(s[1..])
  }

  // --- Numerals and padding ------------------------------------------------

  function DigitUnit(d: nat): nat { if d < 10 then ZERO + d else 0x61 + (d - 10) }

  function Digits(n: nat, base: nat): Units
    requires 2 <= base <= 36
  {
    Numeral(n, base, DigitUnit)
  }

  function ToText(v: int, base: nat): Units
    requires 2 <= base <= 36
  {
    if v < 0 then [MINUS] + Digits(-v, base) else Digits(v, base)
  }

  function UpperUnit(c: nat): nat { if 0x61 <= c <= 0x7a then c - 0x20 else c }

  function Upper(s: Units): Units { seq(|s|, i requires 0 <= i < |s| => UpperUnit(s[i])) }

  function Repeat(c: nat, n: nat): Units { seq(n, _ => c) }

  const TWO31 := 0x8000_0000
  const TWO63 := 0x8000_0000_0000_0000
  const TWO64 := 0x1_0000_0000_0000_0000

  function Int32(x: nat): int { var m := x % TWO32; if m >= TWO31 then m - TWO32 else m }

  function SignExtend64(v: nat): int { if v >= TWO63 then v - TWO64 else v }

  function DisplaySigned(v: nat): int {
    if v < TWO32 then (if v >= TWO31 then v - TWO32 else v) else SignExtend64(v)
  }

  /** Length of a sign or of a base prefix such as `0x` at the front. */
  function PrefixLength(s: Units, binary: bool): (n: nat)
    ensures n <= |s|
  {
    if s != [] && (s[0] == PLUS || s[0] == MINUS) then 1
    else if |s| >= 2 && s[0] == ZERO && (s[1] == 0x78 || s[1] == 0x58) then 2
    else if binary && |s| >= 2 && s[0] == ZERO && (s[1] == 0x62 || s[1] == 0x42) then 2
    else 0
  }

  function ZeroPad(s: Units, pad: nat, binary: bool): Units {
    var k := PrefixLength(s, binary);
    s[..k] + Repeat(ZERO, pad) + s[k..]
  }

  function PadString(s: Units, width: nat, flags: Units): Units {
    if width <= |s| then s
    else
      var pad := width - |s|;
      if ZERO in flags && MINUS !in flags then ZeroPad(s, pad, false)
      else if MINUS in flags then s + Repeat(SPACE, pad)
      else Repeat(SPACE, pad) + s
  }

  // --- Arguments -----------------------------------------------------------

  function IntOf(a: Arg): Option<nat> {
    match a
    case Bits32(w) => Some(w % TWO32)
    case Bits64(l) => Some(l)
    case Pointer(p) => Some(p)
    case Text(_) => None
    case TextView(_) => None
  }

  function ArgText(h: Host, a: Arg): Units {
    match a
    case Bits32(w) => Digits(w % TWO32, 10)
    case Bits64(l) => Digits(l, 10)
    case Pointer(p) => Ascii("0x") + Digits(p, 16)
    case Text(t) => if t.None? then Ascii("(null)") else h.decode(t.value)
    case TextView(t) => if t.None? then Ascii("(null)") else h.decode(t.value)
  }

  function PointerText(a: Arg): Option<Units> {
    if !a.Pointer? && !a.Bits32? then None
    else
      var hex := Digits((if a.Pointer? then a.address else a.word) % TWO32, 16);
      Some(Ascii("0x") + (if |hex| < 8 then Repeat(ZERO, 8 - |hex|) + hex else hex))
  }

  /** How many arguments were assigned, whether an explicit index was used, the output, and every index read so far. */
  datatype State = State(next: nat, positional: bool, out: Units, taken: seq<nat>)

  const START := State(0, false, [], [])

  /** Reads the argument with the given index. */
  function Take(args: seq<Arg>, index: int, st: State): Option<(Arg, State)> {
    if 0 <= index < |args| then Some((args[index], st.(taken := st.taken + [index]))) else None
  }

  function TakeInt(args: seq<Arg>, index: int, st: State): Option<(nat, State)> {
    var a := Take(args, index, st);
    if a.None? || IntOf(a.value.0).None? then None else Some((IntOf(a.value.0).value, a.value.1))
  }

  /** The state in which the next argument is assigned. */
  function Assign(st: State): State { st.(next := st.next + 1) }

  function Push(st: State, text: Units): Option<State> {
    if |st.out| + |text| > MAX_RENDER_OUTPUT then None else Some(st.(out := st.out + text))
  }

  // --- printf conversions --------------------------------------------------

  datatype Field = Field(width: nat, flags: Units, precision: Option<nat>)

  /** A negative width, read as 32 bits, means left-justify. */
  function WidthField(flags: Units, width: nat): (r: Option<Field>)
    ensures r.Some? ==> r.value.width <= MAX_FORMAT_WIDTH
  {
    var signed := Int32(width);
    var w := if signed < 0 then -signed else width;
    if w > MAX_FORMAT_WIDTH then None
    else Some(Field(w, if signed < 0 && MINUS !in flags then flags + [MINUS] else flags, None))
  }

  /** What the rendering of a format depends on beside it: how numbers are read and how one argument is shown. */
  datatype Engine = Engine(
    number: nat -> nat,
    toInteger: Units -> Option<int>,
    prefix: Units -> (Spec, Units),
    convert: (nat, Arg, Field) -> Option<Units>,
    show: (Arg, Spec) -> Option<Units>
  )

  function TakeAmount(e: Engine, amount: Amount, args: seq<Arg>, st: State): Option<(nat, State)> {
    match amount
    case Given(n) => Some((n, st))
    case FromArgument =>
      var v := TakeInt(args, st.next, Assign(st));
      if v.None? then None else Some((e.number(v.value.0), v.value.1))
  }

  /** The field of a conversion, and the state after its width and precision. */
  function FieldOf(e: Engine, t: Token, args: seq<Arg>, st: State): (r: Option<(Field, State)>)
    requires t.Conversion?
    ensures r.Some? ==> r.value.0.width <= MAX_FORMAT_WIDTH
    ensures r.Some? && r.value.0.precision.Some? ==> r.value.0.precision.value <= MAX_FORMAT_PRECISION
  {
    var w := TakeAmount(e, t.width, args, st);
    if w.None? then None
    else
      var f := WidthField(t.flags, w.value.0);
      if f.None? then None
      else if t.precision.None? then Some((f.value, w.value.1))
      else
        var p := TakeAmount(e, t.precision.value, args, w.value.1);
        if p.None? || p.value.0 > MAX_FORMAT_PRECISION then None
        else Some((f.value.(precision := Some(p.value.0)), p.value.1))
  }

  function WithSign(s: Units, plus: bool, space: bool): Units {
    if plus && !StartsWith(s, MINUS) then [PLUS] + s
    else if space && !StartsWith(s, MINUS) then [SPACE] + s
    else s
  }

  function FormatSigned(v: nat, f: Field, unsigned: bool): Units {
    var s := if unsigned then Digits(v, 10) else ToText(DisplaySigned(v), 10);
    PadString(WithSign(s, PLUS in f.flags, SPACE in f.flags), f.width, f.flags)
  }

  function FormatHex(v: nat, f: Field, upper: bool): Units {
    var s := if upper then Upper(Digits(v, 16)) else Digits(v, 16);
    PadString(if HASH in f.flags then Ascii(if upper then "0X" else "0x") + s else s, f.width, f.flags)
  }

  function Truncated(s: Units, precision: Option<nat>): Units {
    if precision.Some? && precision.value < |s| then s[..precision.value] else s
  }

  function Precision(p: Option<nat>): nat { if p.Some? then p.value else 6 }

  function Convert(h: Host, conv: nat, a: Arg, f: Field): Option<Units> {
    var v := IntOf(a);
    if conv == 0x64 || conv == 0x69 then // d i
      if v.None? then None else Some(FormatSigned(v.value, f, false))
    else if conv == 0x75 then // u
      if v.None? then None else Some(FormatSigned(v.value, f, true))
    else if conv == 0x78 || conv == 0x58 then // x X
      if v.None? then None else Some(FormatHex(v.value, f, conv == 0x58))
    else if conv == 0x70 then // p
      PointerText(a)
    else if conv == 0x63 then // c
      if v.None? then None else Some([h.number(v.value) % 256])
    else if conv == 0x73 then // s
      if !a.Text? && !a.TextView? then None
      else Some(PadString(Truncated(ArgText(h, a), f.precision), f.width, f.flags))
    else if conv == 0x66 || conv == 0x46 then // f F
      if !a.Bits64? then None
      else
        var s := h.toFixed(a.long, Precision(f.precision));
        Some(PadString(WithSign(s, PLUS in f.flags, false), f.width, f.flags))
    else if conv == 0x65 || conv == 0x45 || conv == 0x67 || conv == 0x47 then // e E g G
      if !a.Bits64? then None
      else
        var s := h.toExponential(a.long, Precision(f.precision));
        Some(PadString(if conv == 0x45 || conv == 0x47 then Upper(s) else s, f.width, f.flags))
    else None
  }

  function EvalConversion(e: Engine, t: Token, args: seq<Arg>, st: State): Option<State>
    requires t.Conversion?
  {
    var f := FieldOf(e, t, args, st);
    if f.None? then None
    else
      var a := Take(args, f.value.1.next, Assign(f.value.1));
      if a.None? then None
      else
        var text := e.convert(t.conv, a.value.0, f.value.0);
        if text.None? then None else Push(a.value.1, text.value)
  }

  // --- fmt placeholders ----------------------------------------------------

  datatype Spec = Spec(
    fill: nat,
    align: Option<nat>,
    sign: Option<nat>,
    alternate: bool,
    zero: bool,
    width: nat,
    precision: Option<nat>,
    kind: Option<nat>
  )

  function IndexOf(s: Units, c: nat): (r: Option<nat>)
    ensures r.Some? ==> r.value < |s| && s[r.value] == c
    ensures r.None? <==> c !in s
  {
    if s == [] then None
    else if s[0] == c then Some(0)
    else
      var r := IndexOf(s[1..], c);
      if r.None? then None else Some(r.value + 1)
  }

  /** A nested width or precision: the next argument, or the one with the given index. */
  function ReadNested(e: Engine, inner: Units, args: seq<Arg>, st: State): Option<(nat, State)> {
    if inner == [] then TakeInt(args, st.next, Assign(st))
    else
      var n := e.toInteger(inner);
      if n.None? then None else TakeInt(args, n.value, st.(positional := true))
  }

  /** A width or a precision: digits, or a nested placeholder; with the rest of the text. */
  function ReadAmount(e: Engine, s: Units, args: seq<Arg>, st: State): Option<(nat, Units, State)> {
    if StartsWith(s, OPEN) then
      var close := IndexOf(s, CLOSE);
      if close.None? then None
      else
        var v := ReadNested(e, s[1..close.value], args, st);
        if v.None? then None else Some((e.number(v.value.0), s[close.value + 1..], v.value.1))
    else
      var k := Count(s, Decimals);
      Some((NumberOf(s[..k]), s[k..], st))
  }

  function DigitOf(c: nat): nat { if IsDigit(c) then c - ZERO else 0 }

  function NumberOf(s: Units): nat { Value(s, 10, DigitOf) }

  predicate IsAlign(c: nat) { c == LESS || c == GREATER || c == CARET }

  /** Everything before the width, and the text that is left. */
  function ReadPrefix(raw: Units): (Spec, Units) {
    var (a, s1) := ReadAlign(if StartsWith(raw, COLON) then raw[1..] else raw);
    var (b, s2) := ReadSign(a, s1);
    var (c, s3) := ReadHash(b, s2);
    ReadZero(c, s3)
  }

  function ReadAlign(s: Units): (Spec, Units) {
    var plain := Spec(SPACE, None, None, false, false, 0, None, None);
    if |s| >= 2 && IsAlign(s[1]) then (plain.(fill := s[0], align := Some(s[1])), s[2..])
    else if s != [] && IsAlign(s[0]) then (plain.(align := Some(s[0])), s[1..])
    else (plain, s)
  }

  function ReadSign(spec: Spec, s: Units): (Spec, Units) {
    if s != [] && (s[0] == PLUS || s[0] == MINUS || s[0] == SPACE) then (spec.(sign := Some(s[0])), s[1..])
    else (spec, s)
  }

  function ReadHash(spec: Spec, s: Units): (Spec, Units) {
    if StartsWith(s, HASH) then (spec.(alternate := true), s[1..]) else (spec, s)
  }

  function ReadZero(spec: Spec, s: Units): (Spec, Units) {
    if StartsWith(s, ZERO) then (spec.(zero := true), s[1..]) else (spec, s)
  }

  function ReadKind(spec: Spec, s: Units): Option<Spec> {
    if |s| > 1 || (spec.precision.Some? && spec.precision.value > MAX_FORMAT_PRECISION) then None
    else Some(if s == [] then spec else spec.(kind := Some(s[0])))
  }

  function ParseFmtSpec(e: Engine, raw: Units, args: seq<Arg>, st: State): (r: Option<(Spec, State)>)
    ensures r.Some? ==> r.value.0.width <= MAX_FORMAT_WIDTH
    ensures r.Some? && r.value.0.precision.Some? ==> r.value.0.precision.value <= MAX_FORMAT_PRECISION
  {
    var (spec, s) := e.prefix(raw);
    var w := ReadAmount(e, s, args, st);
    if w.None? || w.value.0 > MAX_FORMAT_WIDTH then None
    else
      var (width, s1, st1) := w.value;
      var p := if StartsWith(s1, DOT) then ReadAmount(e, s1[1..], args, st1) else None;
      if StartsWith(s1, DOT) && p.None? then None
      else
        var r := if p.None? then ReadKind(spec.(width := width, precision := None), s1)
                 else ReadKind(spec.(width := width, precision := Some(p.value.0)), p.value.1);
        if r.None? then None else Some((r.value, if p.None? then st1 else p.value.2))
  }

  function FmtPad(s: Units, spec: Spec): Units {
    if spec.width <= |s| then s
    else
      var pad := spec.width - |s|;
      if spec.align == Some(LESS) then s + Repeat(spec.fill, pad)
      else if spec.align == Some(CARET) then Repeat(spec.fill, pad / 2) + s + Repeat(spec.fill, pad - pad / 2)
      else if spec.zero then ZeroPad(s, pad, true)
      else Repeat(spec.fill, pad) + s
  }

  /** The value that an integer presentation shows. */
  function Shown(a: Arg, raw: nat, base: nat, unsigned: bool): int {
    var plain := unsigned || base != 10;
    if a.Bits64? then (if plain then raw else DisplaySigned(raw))
    else if plain then raw % TWO32
    else Int32(raw)
  }

  function FmtInt(a: Arg, base: nat, unsigned: bool, spec: Spec, upper: bool): Option<Units>
    requires base in {2, 8, 10, 16}
  {
    var raw := IntOf(a);
    if raw.None? then None
    else
      var digits := ToText(Shown(a, raw.value, base, unsigned), base);
      var s := if upper then Upper(digits) else digits;
      var t := if !spec.alternate then s
        else if base == 16 then Ascii(if upper then "0X" else "0x") + s
        else if base == 8 && !StartsWith(s, ZERO) then [ZERO] + s
        else if base == 2 then Ascii(if upper then "0B" else "0b") + s
        else s;
      Some(FmtPad(WithSign(t, spec.sign == Some(PLUS), spec.sign == Some(SPACE)), spec))
  }

  function DropZeros(s: Units): Units {
    if s != [] && s[|s| - 1] == ZERO then DropZeros(s[..|s| - 1]) else s
  }

  function Trimmed(s: Units): Units {
    if DOT !in s then s
    else
      var t := DropZeros(s);
      if t != [] && t[|t| - 1] == DOT then t[..|t| - 1] else t
  }

  function TrimFloat(s: Units): Units { if 0x65 in s || 0x45 in s then s else Trimmed(s) }

  function FmtFloat(h: Host, kind: nat, a: Arg, spec: Spec): Option<Units> {
    if !a.Bits64? then None
    else
      var p := Precision(spec.precision);
      var body :=
        if kind == 0x66 || kind == 0x46 then Some(h.toFixed(a.long, p))
        else if kind == 0x65 || kind == 0x45 then Some(h.toExponential(a.long, p))
        else
          var s := h.toPrecision(a.long, p);
          if s.None? then None else Some(Trimmed(s.value));
      if body.None? then None
      else
        var s := WithSign(body.value, spec.sign == Some(PLUS), false);
        Some(FmtPad(if spec.alternate && DOT !in s then s + [DOT] else s, spec))
  }

  const INFINITY_BITS := 0x7ff0_0000_0000_0000

  /** A 64-bit argument without a presentation is shown as a float if it is a plausible one. */
  function FmtDefault64(h: Host, a: Arg, spec: Spec): Option<Units>
    requires a.Bits64?
  {
    var signed := SignExtend64(a.long);
    var magnitude := if signed < 0 then -signed else signed;
    var exponent := (a.long / 0x10_0000_0000_0000) % 0x800;
    if magnitude < 0x20_0000_0000_0000 then FmtInt(a, 10, false, spec, false)
    else if exponent == 0x7ff && a.long % 0x10_0000_0000_0000 != 0 then Some(FmtPad(Ascii("nan"), spec))
    else if a.long == INFINITY_BITS then Some(FmtPad(Ascii("inf"), spec))
    else if a.long == INFINITY_BITS + TWO63 then Some(FmtPad(Ascii("-inf"), spec))
    else if 0x300 <= exponent <= 0x500 && !h.isInteger(a.long) then
      var s := h.toPrecision(a.long, 6);
      if s.None? then None else Some(FmtPad(TrimFloat(s.value), spec))
    else FmtInt(a, 10, false, spec, false)
  }

  function RenderFmtArg(h: Host, a: Arg, spec: Spec): Option<Units> {
    if spec.kind.None? then
      if a.Text? || a.TextView? then Some(FmtPad(ArgText(h, a), spec))
      else if a.Pointer? then PointerText(a)
      else if a.Bits64? then FmtDefault64(h, a, spec)
      else FmtInt(a, 10, false, spec, false)
    else
      var k := spec.kind.value;
      if k == 0x64 || k == 0x69 then FmtInt(a, 10, false, spec, false)  // d i
      else if k == 0x75 then FmtInt(a, 10, true, spec, false)           // u
      else if k == 0x78 then FmtInt(a, 16, false, spec, false)          // x
      else if k == 0x58 then FmtInt(a, 16, false, spec, true)           // X
      else if k == 0x6f then FmtInt(a, 8, false, spec, false)           // o
      else if k == 0x62 then FmtInt(a, 2, false, spec, false)           // b
      else if k == 0x42 then FmtInt(a, 2, false, spec, true)            // B
      else if k == 0x63 then                                            // c
        var v := IntOf(a);
        if v.None? then None else Some([h.number(v.value) % 256])
      else if k == 0x73 then Some(FmtPad(Truncated(ArgText(h, a), spec.precision), spec)) // s
      else if k == 0x70 then PointerText(a)                             // p
      else if k == 0x66 || k == 0x46 || k == 0x65 || k == 0x45 || k == 0x67 || k == 0x47 then FmtFloat(h, k, a, spec)
      else None
  }

  /** Length of an explicit index at the front of a placeholder: digits up to a colon or the end. */
  function IndexLength(inner: Units): (k: nat)
    ensures k <= |inner|
  {
    var k := Count(inner, Decimals);
    if k == |inner| || inner[k] == COLON then k else 0
  }

  /** Shows the argument with the given index as the spec text says. */
  function EvalAt(e: Engine, raw: Units, index: nat, args: seq<Arg>, st: State): Option<State> {
    var spec := ParseFmtSpec(e, raw, args, st);
    if spec.None? then None
    else
      var a := Take(args, index, spec.value.1);
      if a.None? then None
      else
        var text := e.show(a.value.0, spec.value.0);
        if text.None? then None else Push(a.value.1, text.value)
  }

  datatype Target = Target(raw: Units, index: nat, st: State)

  /** Which argument a placeholder shows: the one with its explicit index, or the next one. */
  function TargetOf(inner: Units, st: State): Target {
    var k := IndexLength(inner);
    if k > 0 then Target(inner[k..], NumberOf(inner[..k]), st.(positional := true))
    else Target(inner, st.next, Assign(st))
  }

  function EvalPlace(e: Engine, inner: Units, args: seq<Arg>, st: State): Option<State> {
    var t := TargetOf(inner, st);
    EvalAt(e, t.raw, t.index, args, t.st)
  }

  /** The renderer of the log viewer. */
  function Standard(h: Host): Engine {
    Engine(h.number, h.toInteger, ReadPrefix, (conv, a, f) => Convert(h, conv, a, f),
      (a, spec) => RenderFmtArg(h, a, spec))
  }

  // --- Rendering -----------------------------------------------------------

  function Eval(e: Engine, t: Token, args: seq<Arg>, st: State): Option<State> {
    match t
    case Literal(c) => Push(st, [c])
    case Place(inner) => EvalPlace(e, inner, args, st)
    case Conversion(_, _, _, _) => EvalConversion(e, t, args, st)
  }

  function RunFrom(e: Engine, format: Units, args: seq<Arg>, st: State): Option<State>
    decreases |format|
  {
    if format == [] then Some(st)
    else
      match Lex(format)
      case Bad => None
      case Lexed(t, rest) =>
        var r := Eval(e, t, args, st);
        if r.None? then None else RunFrom(e, rest, args, r.value)
  }

  /** Arguments that no placeholder took are an error, unless explicit indices were used. */
  predicate Complete(st: State, args: seq<Arg>) { st.positional || st.next >= |args| }

  function Render(e: Engine, format: Units, args: seq<Arg>): Option<Units> {
    var r := RunFrom(e, format, args, START);
    if r.None? || !Complete(r.value, args) then None else Some(r.value.out)
  }

  // --- Text after a token does not change it -------------------------------

  lemma {:induction false} CountStable(s: Units, g: Units, k: Class)
    requires Count(s, k) < |s|
    ensures Count(s + g, k) == Count(s, k)
  {
    assert (s + g)[0] == s[0];
    if Is(k, s[0]) {
      assert (s + g)[1..] == s[1..] + g;
      CountStable(s[1..], g, k);
    }
  }

  lemma {:induction false} FindClosingStable(s: Units, g: Units, depth: nat)
    requires FindClosing(s, depth).Some?
    ensures FindClosing(s + g, depth) == FindClosing(s, depth)
  {
    assert (s + g)[0] == s[0];
    if !(s[0] == CLOSE && depth == 0) {
      assert (s + g)[1..] == s[1..] + g;
      FindClosingStable(s[1..], g, if s[0] == OPEN then depth + 1 else if s[0] == CLOSE then depth - 1 else depth);
    }
  }

  lemma {:induction false} ReadNumberStable(s: Units, g: Units, acc: nat, max: nat)
    requires var r := ReadNumber(s, acc, max); r.Fits? && r.rest != []
    ensures var r := ReadNumber(s, acc, max); ReadNumber(s + g, acc, max) == Fits(r.n, r.rest + g)
  {
    assert (s + g)[0] == s[0];
    if IsDigit(s[0]) {
      assert (s + g)[1..] == s[1..] + g;
      ReadNumberStable(s[1..], g, acc * 10 + (s[0] - ZERO), max);
    }
  }

  /** The token read is the same and so is what is left, up to the text appended. */
  predicate Same(a: Lexed, b: Lexed, g: Units) {
    a.Lexed? ==> b == Lexed(a.token, a.rest + g)
  }

  lemma LexEndStable(flags: Units, width: Amount, precision: Option<Amount>, s: Units, g: Units)
    ensures Same(LexEnd(flags, width, precision, s), LexEnd(flags, width, precision, s + g), g)
  {
    var k := Count(s, Modifiers);
    if k < |s| {
      CountStable(s, g, Modifiers);
      assert (s + g)[k..] == s[k..] + g;
      assert (s[k..] + g)[1..] == s[k..][1..] + g;
    }
  }

  lemma TailAppend(s: Units, g: Units, k: nat)
    requires k <= |s|
    ensures (s + g)[k..] == s[k..] + g && (s + g)[..k] == s[..k]
  {
  }

  lemma LexPrecisionStable(flags: Units, width: Amount, s: Units, g: Units)
    ensures Same(LexPrecision(flags, width, s), LexPrecision(flags, width, s + g), g)
  {
    if LexPrecision(flags, width, s).Lexed? {
      TailAppend(s, g, 1);
      if !StartsWith(s, DOT) {
        LexEndStable(flags, width, None, s, g);
      } else if StartsWith(s[1..], STAR) {
        TailAppend(s, g, 2);
        LexEndStable(flags, width, Some(FromArgument), s[2..], g);
      } else {
        var r := ReadNumber(s[1..], 0, MAX_FORMAT_PRECISION);
        ReadNumberStable(s[1..], g, 0, MAX_FORMAT_PRECISION);
        LexEndStable(flags, width, Some(Given(r.n)), r.rest, g);
        PrecisionDigits(s[1..], g);
      }
    }
  }

  lemma PrecisionDigits(s: Units, g: Units)
    requires s != [] && !StartsWith(s, STAR)
    ensures !StartsWith(s + g, STAR)
  {
  }

  lemma LexConversionStable(s: Units, g: Units)
    ensures Same(LexConversion(s), LexConversion(s + g), g)
  {
    if LexConversion(s).Lexed? {
      var k := Count(s, Flags);
      var r := ReadNumber(s[k..], 0, MAX_FORMAT_WIDTH);
      CountStable(s, g, Flags);
      TailAppend(s, g, k);
      ReadNumberStable(s[k..], g, 0, MAX_FORMAT_WIDTH);
      if StartsWith(r.rest, STAR) {
        TailAppend(r.rest, g, 1);
        LexPrecisionStable(s[..k], FromArgument, r.rest[1..], g);
      } else {
        LexPrecisionStable(s[..k], Given(r.n), r.rest, g);
      }
    }
  }

  lemma LexStable(s: Units, g: Units)
    requires s != []
    ensures Same(Lex(s), Lex(s + g), g)
  {
    if Lex(s).Lexed? {
      TailAppend(s, g, 1);
      if |s| > 1 { TailAppend(s, g, 2); }
      if s[0] == OPEN && !StartsWith(s[1..], OPEN) {
        var k := FindClosing(s[1..], 0).value;
        FindClosingStable(s[1..], g, 0);
        TailAppend(s[1..], g, k);
        TailAppend(s[1..], g, k + 1);
      } else if s[0] == PERCENT && !StartsWith(s[1..], PERCENT) {
        LexConversionStable(s[1..], g);
      }
    }
  }

  /** Rendering a format up to its end and going on with another is rendering both joined. */
  lemma {:induction false} RunConcat(e: Engine, f: Units, g: Units, args: seq<Arg>, st: State)
    requires RunFrom(e, f, args, st).Some?
    ensures RunFrom(e, f + g, args, st) == RunFrom(e, g, args, RunFrom(e, f, args, st).value)
    decreases |f|
  {
    if f == [] {
      assert f + g == g;
    } else {
      LexStable(f, g);
      var l := Lex(f);
      RunConcat(e, l.rest, g, args, Eval(e, l.token, args, st).value);
    }
  }

  // --- Where arguments are taken from --------------------------------------

  /** Indices as they are with `k` arguments more in front. */
  function Shifted(indices: seq<nat>, k: nat): seq<nat> {
    seq(|indices|, i requires 0 <= i < |indices| => indices[i] + k)
  }

  /** Surroundings of a run: other arguments before and after its own, and what was put out and read before it. */
  datatype Around = Around(pre: seq<Arg>, post: seq<Arg>, out: Units, taken: seq<nat>) {
    function Args(args: seq<Arg>): seq<Arg> { pre + args + post }

    function Of(st: State): State {
      State(st.next + |pre|, st.positional, out + st.out, taken + Shifted(st.taken, |pre|))
    }

    predicate Fits(st: State) { |out| + |st.out| <= MAX_RENDER_OUTPUT }
  }

  /** What a step does to the argument counter and the mode, when it puts nothing out. */
  predicate Advances(a: State, b: State, args: seq<Arg>) {
    a.next <= b.next && (b.next > a.next ==> b.next <= |args|) && (a.positional ==> b.positional)
  }

  lemma TakeAround(x: Around, args: seq<Arg>, index: nat, st: State)
    requires index < |args|
    ensures Take(x.Args(args), index + |x.pre|, x.Of(st)) == Some((args[index], x.Of(Take(args, index, st).value.1)))
  {
    var all := Shifted(st.taken + [index], |x.pre|);
    assert all == Shifted(st.taken, |x.pre|) + [index + |x.pre|];
    Assoc(x.taken, Shifted(st.taken, |x.pre|), [index + |x.pre|]);
  }

  lemma TakeIntAround(x: Around, args: seq<Arg>, st: State)
    requires TakeInt(args, st.next, Assign(st)).Some?
    ensures var r := TakeInt(args, st.next, Assign(st)).value;
      && TakeInt(x.Args(args), x.Of(st).next, Assign(x.Of(st))) == Some((r.0, x.Of(r.1)))
      && Advances(st, r.1, args) && r.1.out == st.out
  {
    TakeAround(x, args, st.next, Assign(st));
    assert Assign(x.Of(st)) == x.Of(Assign(st));
  }

  lemma AmountAround(e: Engine, amount: Amount, x: Around, args: seq<Arg>, st: State)
    requires TakeAmount(e, amount, args, st).Some?
    ensures var r := TakeAmount(e, amount, args, st).value;
      && TakeAmount(e, amount, x.Args(args), x.Of(st)) == Some((r.0, x.Of(r.1)))
      && Advances(st, r.1, args) && r.1.out == st.out
  {
    if amount.FromArgument? { TakeIntAround(x, args, st); }
  }

  lemma FieldAround(e: Engine, t: Token, x: Around, args: seq<Arg>, st: State)
    requires t.Conversion? && FieldOf(e, t, args, st).Some?
    ensures var r := FieldOf(e, t, args, st).value;
      && FieldOf(e, t, x.Args(args), x.Of(st)) == Some((r.0, x.Of(r.1)))
      && Advances(st, r.1, args) && r.1.out == st.out
  {
    AmountAround(e, t.width, x, args, st);
    if t.precision.Some? {
      AmountAround(e, t.precision.value, x, args, TakeAmount(e, t.width, args, st).value.1);
    }
  }

  lemma PushAround(st: State, text: Units, x: Around)
    requires Push(st, text).Some? && x.Fits(Push(st, text).value)
    ensures Push(x.Of(st), text) == Some(x.Of(Push(st, text).value))
  {
    Assoc(x.out, st.out, text);
  }

  lemma ConversionAround(e: Engine, t: Token, x: Around, args: seq<Arg>, st: State)
    requires t.Conversion? && EvalConversion(e, t, args, st).Some?
    ensures Advances(st, EvalConversion(e, t, args, st).value, args)
    ensures var r := EvalConversion(e, t, args, st).value;
      x.Fits(r) ==> EvalConversion(e, t, x.Args(args), x.Of(st)) == Some(x.Of(r))
  {
    FieldAround(e, t, x, args, st);
    var (f, st1) := FieldOf(e, t, args, st).value;
    TakeAround(x, args, st1.next, Assign(st1));
    assert Assign(x.Of(st1)) == x.Of(Assign(st1));
    var (a, st2) := Take(args, st1.next, Assign(st1)).value;
    var text := e.convert(t.conv, a, f).value;
    if x.Fits(Push(st2, text).value) { PushAround(st2, text, x); }
  }

  lemma ReadAmountAround(e: Engine, s: Units, x: Around, args: seq<Arg>, st: State)
    requires ReadAmount(e, s, args, st).Some?
    ensures var r := ReadAmount(e, s, args, st).value;
      && Advances(st, r.2, args) && r.2.out == st.out
      && (!r.2.positional ==> ReadAmount(e, s, x.Args(args), x.Of(st)) == Some((r.0, r.1, x.Of(r.2))))
  {
    if StartsWith(s, OPEN) {
      var inner := s[1..IndexOf(s, CLOSE).value];
      if inner == [] { TakeIntAround(x, args, st); }
    }
  }

  lemma {:induction false} SpecAround(e: Engine, raw: Units, x: Around, args: seq<Arg>, st: State)
    requires ParseFmtSpec(e, raw, args, st).Some?
    ensures var r := ParseFmtSpec(e, raw, args, st).value;
      && Advances(st, r.1, args) && r.1.out == st.out
      && (!r.1.positional ==> ParseFmtSpec(e, raw, x.Args(args), x.Of(st)) == Some((r.0, x.Of(r.1))))
  {
    var s := e.prefix(raw).1;
    ReadAmountAround(e, s, x, args, st);
    var w := ReadAmount(e, s, args, st).value;
    if StartsWith(w.1, DOT) {
      ReadAmountAround(e, w.1[1..], x, args, w.2);
    }
  }

  lemma {:induction false} AtAround(e: Engine, raw: Units, index: nat, x: Around, args: seq<Arg>, st: State)
    requires EvalAt(e, raw, index, args, st).Some?
    ensures var r := EvalAt(e, raw, index, args, st).value;
      index < |args| && Advances(st, r, args) && |st.out| <= |r.out| <= MAX_RENDER_OUTPUT
    ensures var r := EvalAt(e, raw, index, args, st).value;
      !r.positional && x.Fits(r) ==> EvalAt(e, raw, index + |x.pre|, x.Args(args), x.Of(st)) == Some(x.Of(r))
  {
    SpecAround(e, raw, x, args, st);
    var (spec, st1) := ParseFmtSpec(e, raw, args, st).value;
    TakeAround(x, args, index, st1);
    var (a, st2) := Take(args, index, st1).value;
    var text := e.show(a, spec).value;
    if x.Fits(Push(st2, text).value) { PushAround(st2, text, x); }
  }

  lemma TargetMoved(inner: Units, st: State, x: Around)
    ensures var t := TargetOf(inner, st);
      && (t.st.positional || TargetOf(inner, x.Of(st)) == Target(t.raw, t.index + |x.pre|, x.Of(t.st)))
      && t.st.out == st.out && (st.positional ==> t.st.positional)
      && (t.st.next == st.next || (t.st.next == st.next + 1 && t.index == st.next))
  {
  }

  lemma {:induction false} PlaceAround(e: Engine, inner: Units, x: Around, args: seq<Arg>, st: State)
    requires EvalPlace(e, inner, args, st).Some?
    ensures var r := EvalPlace(e, inner, args, st).value;
      Advances(st, r, args) && |st.out| <= |r.out| <= MAX_RENDER_OUTPUT
    ensures var r := EvalPlace(e, inner, args, st).value;
      !r.positional && x.Fits(r) ==> EvalPlace(e, inner, x.Args(args), x.Of(st)) == Some(x.Of(r))
  {
    var t := TargetOf(inner, st);
    TargetMoved(inner, st, x);
    AtAround(e, t.raw, t.index, x, args, t.st);
  }

  lemma EvalAround(e: Engine, t: Token, x: Around, args: seq<Arg>, st: State)
    requires Eval(e, t, args, st).Some?
    ensures var r := Eval(e, t, args, st).value;
      Advances(st, r, args) && |st.out| <= |r.out| <= MAX_RENDER_OUTPUT
    ensures var r := Eval(e, t, args, st).value;
      !r.positional && x.Fits(r) ==> Eval(e, t, x.Args(args), x.Of(st)) == Some(x.Of(r))
  {
    match t
    case Literal(c) => if x.Fits(Push(st, [c]).value) { PushAround(st, [c], x); }
    case Place(inner) => PlaceAround(e, inner, x, args, st);
    case Conversion(_, _, _, _) =>
      ConversionAround(e, t, x, args, st);
      FieldAround(e, t, x, args, st);
  }

  const NOTHING := Around([], [], [], [])

  /**
   * A run takes no more arguments than there are, never forgets an explicit index and stays within the output
   * limit.
   */
  lemma {:induction false} RunAdvances(e: Engine, f: Units, args: seq<Arg>, st: State)
    requires RunFrom(e, f, args, st).Some? && |st.out| <= MAX_RENDER_OUTPUT
    ensures var r := RunFrom(e, f, args, st).value;
      Advances(st, r, args) && |st.out| <= |r.out| <= MAX_RENDER_OUTPUT
    decreases |f|
  {
    if f != [] {
      var l := Lex(f);
      EvalAround(e, l.token, NOTHING, args, st);
      RunAdvances(e, l.rest, args, Eval(e, l.token, args, st).value);
    }
  }

  /** A run that uses no explicit index does the same with other arguments before and after its own. */
  lemma {:induction false} RunAround(e: Engine, f: Units, x: Around, args: seq<Arg>, st: State)
    requires RunFrom(e, f, args, st).Some? && !RunFrom(e, f, args, st).value.positional
    requires x.Fits(RunFrom(e, f, args, st).value) && |st.out| <= MAX_RENDER_OUTPUT
    ensures RunFrom(e, f, x.Args(args), x.Of(st)) == Some(x.Of(RunFrom(e, f, args, st).value))
    decreases |f|
  {
    if f != [] {
      var l := Lex(f);
      var m := Eval(e, l.token, args, st).value;
      EvalAround(e, l.token, x, args, st);
      RunAdvances(e, l.rest, args, m);
      RunAround(e, l.rest, x, args, m);
    }
  }

  // --- Which arguments are read, and in what order --------------------------

  function Range(a: nat, b: nat): seq<nat> { if a >= b then [] else seq(b - a, i requires 0 <= i => a + i) }

  /** What one token reads: a printf conversion in order, a placeholder its width and precision and then its value. */
  function Block(from: nat, to: nat, placeholder: bool): seq<nat> {
    if placeholder then Range(from + 1, to) + [from] else Range(from, to)
  }

  lemma RangeJoin(taken: seq<nat>, a: nat, b: nat, c: nat)
    requires a <= b <= c
    ensures taken + Range(a, b) + Range(b, c) == taken + Range(a, c)
  {
  }

  lemma AmountReads(e: Engine, amount: Amount, args: seq<Arg>, st: State)
    requires TakeAmount(e, amount, args, st).Some?
    ensures var r := TakeAmount(e, amount, args, st).value.1;
      st.next <= r.next && r.taken == st.taken + Range(st.next, r.next) && r.positional == st.positional
  {
  }

  lemma ConversionReads(e: Engine, t: Token, args: seq<Arg>, st: State)
    requires t.Conversion? && EvalConversion(e, t, args, st).Some?
    ensures var r := EvalConversion(e, t, args, st).value;
      st.next < r.next && r.taken == st.taken + Range(st.next, r.next)
  {
    var w := TakeAmount(e, t.width, args, st).value.1;
    AmountReads(e, t.width, args, st);
    var (f, st1) := FieldOf(e, t, args, st).value;
    if t.precision.Some? {
      AmountReads(e, t.precision.value, args, w);
      RangeJoin(st.taken, st.next, w.next, st1.next);
    }
    RangeJoin(st.taken, st.next, st1.next, st1.next + 1);
    assert Range(st1.next, st1.next + 1) == [st1.next];
  }

  lemma ReadAmountReads(e: Engine, s: Units, args: seq<Arg>, st: State)
    requires ReadAmount(e, s, args, st).Some? && !ReadAmount(e, s, args, st).value.2.positional
    ensures var r := ReadAmount(e, s, args, st).value.2;
      st.next <= r.next && r.taken == st.taken + Range(st.next, r.next) && !st.positional
  {
  }

  lemma {:induction false} SpecReads(e: Engine, raw: Units, args: seq<Arg>, st: State)
    requires ParseFmtSpec(e, raw, args, st).Some? && !ParseFmtSpec(e, raw, args, st).value.1.positional
    ensures var r := ParseFmtSpec(e, raw, args, st).value.1;
      st.next <= r.next && r.taken == st.taken + Range(st.next, r.next) && !st.positional
  {
    var s := e.prefix(raw).1;
    var w := ReadAmount(e, s, args, st).value;
    if StartsWith(w.1, DOT) {
      var p := ReadAmount(e, w.1[1..], args, w.2).value;
      ReadAmountReads(e, w.1[1..], args, w.2);
      ReadAmountReads(e, s, args, st);
      RangeJoin(st.taken, st.next, w.2.next, p.2.next);
    } else {
      ReadAmountReads(e, s, args, st);
    }
  }

  lemma {:induction false} PlaceReads(e: Engine, inner: Units, args: seq<Arg>, st: State)
    requires EvalPlace(e, inner, args, st).Some? && !EvalPlace(e, inner, args, st).value.positional
    ensures var r := EvalPlace(e, inner, args, st).value;
      st.next < r.next && r.taken == st.taken + Block(st.next, r.next, true)
  {
    var t := TargetOf(inner, st);
    AtReads(e, t.raw, t.index, args, t.st);
    TargetReads(inner, st, EvalAt(e, t.raw, t.index, args, t.st).value);
  }

  lemma TargetReads(inner: Units, st: State, r: State)
    requires var t := TargetOf(inner, st);
      t.st.next <= r.next && r.taken == t.st.taken + Range(t.st.next, r.next) + [t.index] && !t.st.positional
    ensures st.next < r.next && r.taken == st.taken + Block(st.next, r.next, true)
  {
    TargetNext(inner, st);
    PlaceBlock(st.taken, st.next, r.next, r.taken);
  }

  lemma TargetNext(inner: Units, st: State)
    ensures !TargetOf(inner, st).st.positional ==> TargetOf(inner, st) == Target(inner, st.next, Assign(st))
  {
  }

  lemma PlaceBlock(taken: seq<nat>, a: nat, b: nat, r: seq<nat>)
    requires r == taken + Range(a + 1, b) + [a]
    ensures r == taken + Block(a, b, true)
  {
    Assoc(taken, Range(a + 1, b), [a]);
  }

  lemma {:induction false} AtReads(e: Engine, raw: Units, index: nat, args: seq<Arg>, st: State)
    requires EvalAt(e, raw, index, args, st).Some? && !EvalAt(e, raw, index, args, st).value.positional
    ensures var r := EvalAt(e, raw, index, args, st).value;
      st.next <= r.next && r.taken == st.taken + Range(st.next, r.next) + [index] && !st.positional
  {
    SpecReads(e, raw, args, st);
  }

  /** Without an explicit index, a token reads exactly the arguments assigned to it, each once, in its order. */
  lemma {:induction false} TokenReads(e: Engine, t: Token, args: seq<Arg>, st: State)
    requires Eval(e, t, args, st).Some? && !Eval(e, t, args, st).value.positional
    ensures var r := Eval(e, t, args, st).value;
      if t.Literal? then r.next == st.next && r.taken == st.taken
      else st.next < r.next && r.taken == st.taken + Block(st.next, r.next, t.Place?)
  {
    match t
    case Literal(_) =>
    case Place(inner) => PlaceReads(e, inner, args, st);
    case Conversion(_, _, _, _) => ConversionReads(e, t, args, st);
  }

  /** The indices below n in the blocks of successive tokens. */
  ghost predicate InTurn(taken: seq<nat>, n: nat)
    decreases n
  {
    |taken| == n && (n == 0 || exists m: nat, p: bool :: m < n && BlockAt(taken, m, n, p) && InTurn(taken[..m], m))
  }

  predicate BlockAt(taken: seq<nat>, m: nat, n: nat, p: bool) {
    m <= n == |taken| && taken[m..] == Block(m, n, p)
  }

  lemma InTurnExtends(taken: seq<nat>, m: nat, n: nat, p: bool)
    requires InTurn(taken, m) && m < n
    ensures InTurn(taken + Block(m, n, p), n)
  {
    var more := taken + Block(m, n, p);
    assert more[..m] == taken && more[m..] == Block(m, n, p);
    assert BlockAt(more, m, n, p);
  }

  lemma {:induction false} RunReads(e: Engine, f: Units, args: seq<Arg>, st: State)
    requires RunFrom(e, f, args, st).Some? && !RunFrom(e, f, args, st).value.positional
    requires InTurn(st.taken, st.next) && |st.out| <= MAX_RENDER_OUTPUT
    ensures var r := RunFrom(e, f, args, st).value; InTurn(r.taken, r.next)
    decreases |f|
  {
    if f != [] {
      var l := Lex(f);
      var m := Eval(e, l.token, args, st).value;
      EvalAround(e, l.token, NOTHING, args, st);
      RunAdvances(e, l.rest, args, m);
      TokenReads(e, l.token, args, st);
      if !l.token.Literal? { InTurnExtends(st.taken, st.next, m.next, l.token.Place?); }
      RunReads(e, l.rest, args, m);
    }
  }

  lemma {:induction false} RangeOnce(a: nat, b: nat, i: nat)
    ensures multiset(Range(a, b))[i] == if a <= i < b then 1 else 0
    decreases b
  {
    if a < b {
      RangeOnce(a, b - 1, i);
      assert Range(a, b) == Range(a, b - 1) + [b - 1];
    }
  }

  lemma BlockOnce(m: nat, n: nat, p: bool, i: nat)
    requires m < n
    ensures multiset(Block(m, n, p))[i] == if m <= i < n then 1 else 0
  {
    RangeOnce(m, n, i);
    RangeOnce(m + 1, n, i);
  }

  lemma CountSplit(taken: seq<nat>, m: nat, i: nat)
    requires m <= |taken|
    ensures multiset(taken)[i] == multiset(taken[..m])[i] + multiset(taken[m..])[i]
  {
    assert taken == taken[..m] + taken[m..];
  }

  /** Arguments read in turn are each read exactly once. */
  lemma {:induction false} InTurnOnce(taken: seq<nat>, n: nat, i: nat)
    requires InTurn(taken, n)
    ensures multiset(taken)[i] == if i < n then 1 else 0
    decreases n
  {
    if n > 0 {
      var m: nat, p: bool :| m < n && BlockAt(taken, m, n, p) && InTurn(taken[..m], m);
      InTurnOnce(taken[..m], m, i);
      BlockOnce(m, n, p, i);
      CountSplit(taken, m, i);
    }
  }

  /** A format none of whose tokens is a placeholder. */
  predicate Printf(format: Units)
    decreases |format|
  {
    format == [] || (Lex(format).Lexed? ==> !Lex(format).token.Place? && Printf(Lex(format).rest))
  }

  lemma RangeFromStart(taken: seq<nat>, a: nat, b: nat)
    requires taken == Range(0, a) && a <= b
    ensures taken + Block(a, b, false) == Range(0, b)
  {
  }

  lemma {:induction false} PrintfReads(e: Engine, f: Units, args: seq<Arg>, st: State)
    requires RunFrom(e, f, args, st).Some? && !RunFrom(e, f, args, st).value.positional && Printf(f)
    requires st.taken == Range(0, st.next) && |st.out| <= MAX_RENDER_OUTPUT
    ensures var r := RunFrom(e, f, args, st).value; r.taken == Range(0, r.next)
    decreases |f|
  {
    if f != [] {
      var l := Lex(f);
      var m := Eval(e, l.token, args, st).value;
      EvalAround(e, l.token, NOTHING, args, st);
      RunAdvances(e, l.rest, args, m);
      TokenReads(e, l.token, args, st);
      if !l.token.Literal? { RangeFromStart(st.taken, st.next, m.next); }
      PrintfReads(e, l.rest, args, m);
    }
  }

  // --- What rendering promises ---------------------------------------------

  /**
   * Output stays within the limit. Without explicit indices every argument is read exactly once, token by token in
   * order: ascending by printf conversions, and by a placeholder its width and precision before its value.
   */
  lemma TakesEveryArgument(e: Engine, format: Units, args: seq<Arg>)
    requires Render(e, format, args).Some?
    ensures |Render(e, format, args).value| <= MAX_RENDER_OUTPUT
    ensures var r := RunFrom(e, format, args, START).value;
      !r.positional ==>
        && r.next == |args| == |r.taken| && InTurn(r.taken, |args|)
        && (forall i: nat :: i < |args| ==> multiset(r.taken)[i] == 1)
        && (Printf(format) ==> r.taken == Range(0, |args|))
  {
    RunAdvances(e, format, args, START);
    var r := RunFrom(e, format, args, START).value;
    if !r.positional {
      RunReads(e, format, args, START);
      forall i: nat | i < |args| ensures multiset(r.taken)[i] == 1 { InTurnOnce(r.taken, |args|, i); }
      if Printf(format) { PrintfReads(e, format, args, START); }
    }
  }

  predicate Sequential(e: Engine, format: Units, args: seq<Arg>) {
    Render(e, format, args).Some? && !RunFrom(e, format, args, START).value.positional
  }

  /**
   * Two formats without explicit indices that render alone render joined, the first on the first arguments and
   * the second on the others.
   */
  lemma RenderConcat(e: Engine, f: Units, a: seq<Arg>, g: Units, b: seq<Arg>)
    requires Sequential(e, f, a) && Sequential(e, g, b)
    requires |Render(e, f, a).value| + |Render(e, g, b).value| <= MAX_RENDER_OUTPUT
    ensures Render(e, f + g, a + b) == Some(Render(e, f, a).value + Render(e, g, b).value)
    ensures Sequential(e, f + g, a + b)
  {
    TakesEveryArgument(e, f, a);
    TakesEveryArgument(e, g, b);
    var x := RunFrom(e, f, a, START).value;
    MoreAfter(e, f, a, b);
    RunConcat(e, f, g, a + b, START);
    MoreBefore(e, g, a, b, x);
  }

  lemma MoreAfter(e: Engine, f: Units, a: seq<Arg>, b: seq<Arg>)
    requires Sequential(e, f, a)
    ensures RunFrom(e, f, a + b, START) == RunFrom(e, f, a, START)
  {
    TakesEveryArgument(e, f, a);
    RunAround(e, f, Around([], b, [], []), a, START);
    OnlyAfter(a, b, START);
    OnlyAfter(a, b, RunFrom(e, f, a, START).value);
  }

  lemma OnlyAfter(a: seq<Arg>, b: seq<Arg>, st: State)
    ensures Around([], b, [], []).Args(a) == a + b && Around([], b, [], []).Of(st) == st
  {
    assert Shifted(st.taken, 0) == st.taken;
    assert [] + st.taken == st.taken && [] + st.out == st.out;
  }

  lemma {:induction false} MoreBefore(e: Engine, g: Units, a: seq<Arg>, b: seq<Arg>, x: State)
    requires Sequential(e, g, b) && x.next == |a| && !x.positional
    requires |x.out| + |Render(e, g, b).value| <= MAX_RENDER_OUTPUT
    ensures RunFrom(e, g, a + b, x) == Some(Around(a, [], x.out, x.taken).Of(RunFrom(e, g, b, START).value))
  {
    var around := Around(a, [], x.out, x.taken);
    RunAround(e, g, around, b, START);
    assert around.Args(b) == a + b;
    assert around.Of(START) == x;
  }

  function Escape(s: Units): Units {
    if s == [] then []
    else
      var c := s[|s| - 1];
      Escape(s[..|s| - 1]) + if c == PERCENT || c == OPEN || c == CLOSE then [c, c] else [c]
  }

  lemma EscapedUnit(e: Engine, c: nat, args: seq<Arg>, st: State)
    ensures RunFrom(e, if c == PERCENT || c == OPEN || c == CLOSE then [c, c] else [c], args, st) == Push(st, [c])
  {
    var f := if c == PERCENT || c == OPEN || c == CLOSE then [c, c] else [c];
    assert Lex(f) == Lexed(Literal(c), []);
    var r := Push(st, [c]);
    if r.Some? { assert RunFrom(e, [], args, r.value) == r; }
  }

  lemma {:induction false} RunEscaped(e: Engine, s: Units)
    requires |s| <= MAX_RENDER_OUTPUT
    ensures RunFrom(e, Escape(s), [], START) == Some(State(0, false, s, []))
  {
    if s != [] {
      var front, c := s[..|s| - 1], s[|s| - 1];
      RunEscaped(e, front);
      RunConcat(e, Escape(front), if c == PERCENT || c == OPEN || c == CLOSE then [c, c] else [c], [], START);
      EscapedUnit(e, c, [], State(0, false, front, []));
      assert front + [c] == s;
    }
  }

  /** Text with its special units doubled renders back to itself exactly when it fits the output limit. */
  lemma {:induction false} EscapeRoundTrip(e: Engine, s: Units)
    ensures Render(e, Escape(s), []) == Some(s) <==> |s| <= MAX_RENDER_OUTPUT
  {
    if |s| <= MAX_RENDER_OUTPUT {
      RunEscaped(e, s);
    } else if Render(e, Escape(s), []).Some? {
      TakesEveryArgument(e, Escape(s), []);
    }
  }

  predicate Filled(s: Units, from: nat, to: nat, c: nat) {
    to <= |s| && forall i :: from <= i < to ==> s[i] == c
  }

  /** The text stands at place `at`, and the rest is the padding unit. */
  predicate Padded(r: Units, s: Units, at: nat, c: nat) {
    at + |s| <= |r| && r[at..at + |s|] == s && Filled(r, 0, at, c) && Filled(r, at + |s|, |r|, c)
  }

  /** Zeros stand between the sign or base prefix of the text and the rest of it. */
  predicate ZeroPadded(r: Units, s: Units, binary: bool) {
    var k := PrefixLength(s, binary);
    |s| <= |r| && r[..k] == s[..k] && r[|r| - (|s| - k)..] == s[k..] && Filled(r, k, |r| - (|s| - k), ZERO)
  }

  lemma PadBoth(s: Units, left: nat, right: nat, c: nat)
    ensures Padded(Repeat(c, left) + s + Repeat(c, right), s, left, c)
  {
    var r := Repeat(c, left) + s + Repeat(c, right);
    assert r[left..left + |s|] == s;
  }

  lemma PadBefore(s: Units, pad: nat, c: nat)
    ensures Padded(Repeat(c, pad) + s, s, pad, c)
  {
    PadBoth(s, pad, 0, c);
    assert Repeat(c, pad) + s + Repeat(c, 0) == Repeat(c, pad) + s;
  }

  lemma PadAfter(s: Units, pad: nat, c: nat)
    ensures Padded(s + Repeat(c, pad), s, 0, c)
  {
    PadBoth(s, 0, pad, c);
    assert Repeat(c, 0) + s + Repeat(c, pad) == s + Repeat(c, pad);
  }

  lemma PadZeros(s: Units, pad: nat, binary: bool)
    ensures ZeroPadded(ZeroPad(s, pad, binary), s, binary) && |ZeroPad(s, pad, binary)| == |s| + pad
  {
    var r, k := ZeroPad(s, pad, binary), PrefixLength(s, binary);
    assert r[..k] == s[..k] && r[k + pad..] == s[k..];
  }

  /** Padding reaches exactly the width: spaces after the text, zeros after its sign, or spaces before it. */
  lemma PadMeaning(s: Units, width: nat, flags: Units)
    ensures var r := PadString(s, width, flags);
      && |r| == (if width <= |s| then |s| else width)
      && (if MINUS in flags then Padded(r, s, 0, SPACE)
          else if ZERO in flags then ZeroPadded(r, s, false)
          else Padded(r, s, |r| - |s|, SPACE))
  {
    if width > |s| {
      PadAfter(s, width - |s|, SPACE);
      PadZeros(s, width - |s|, false);
      PadBefore(s, width - |s|, SPACE);
    }
  }

  /** The same for a placeholder: fill after, around or before the text, or zeros after its sign. */
  lemma FmtPadMeaning(s: Units, spec: Spec)
    ensures var r := FmtPad(s, spec);
      && |r| == (if spec.width <= |s| then |s| else spec.width)
      && (if spec.align == Some(LESS) then Padded(r, s, 0, spec.fill)
          else if spec.align == Some(CARET) then Padded(r, s, (|r| - |s|) / 2, spec.fill)
          else if spec.zero then ZeroPadded(r, s, true)
          else Padded(r, s, |r| - |s|, spec.fill))
  {
    if spec.width > |s| {
      var pad := spec.width - |s|;
      PadAfter(s, pad, spec.fill);
      PadBoth(s, pad / 2, pad - pad / 2, spec.fill);
      PadZeros(s, pad, true);
      PadBefore(s, pad, spec.fill);
    }
  }

  /**
   * A 32-bit width from the arguments is accepted exactly when its signed magnitude is within the limit, which is
   * the width used.
   */
  lemma StarWidth(flags: Units, w: nat)
    requires w < TWO32
    ensures var magnitude := if Int32(w) < 0 then -Int32(w) else Int32(w);
      var r := WidthField(flags, w);
      (r.Some? <==> magnitude <= MAX_FORMAT_WIDTH)
      && (r.Some? ==> r.value.width == magnitude && (MINUS in r.value.flags <==> Int32(w) < 0 || MINUS in flags))
  {
  }

  /** A 64-bit value is shown as its two's complement exactly when it is outside [2^31, 2^32). */
  lemma DisplaySignedMeaning(v: nat)
    requires v < TWO64
    ensures DisplaySigned(v) == SignExtend64(v) <==> !(TWO31 <= v < TWO32)
    ensures -TWO63 <= DisplaySigned(v) < TWO63
  {
  }

  // --- Braces inside a placeholder -----------------------------------------

  lemma {:induction false} ClosingInside(s: Units, depth: nat)
    requires FindClosing(s, depth).Some? && depth > 0
    ensures CLOSE in s[..FindClosing(s, depth).value]
  {
    var k := FindClosing(s, depth).value;
    if s[0] == CLOSE {
      assert s[..k][0] == CLOSE;
    } else {
      ClosingInside(s[1..], if s[0] == OPEN then depth + 1 else depth);
      assert s[..k] == [s[0]] + s[1..][..k - 1];
    }
  }

  lemma SliceOfTail(s: Units, p: nat, k: nat)
    requires 1 <= p <= k <= |s|
    ensures s[1..][p - 1..k - 1] == s[p..k]
  {
  }

  /** A nested placeholder inside one that was found is itself closed inside it. */
  lemma {:induction false} NestedBraceCloses(s: Units, depth: nat, p: nat)
    requires FindClosing(s, depth).Some? && p < FindClosing(s, depth).value && s[p] == OPEN
    ensures CLOSE in s[p..FindClosing(s, depth).value]
  {
    var k := FindClosing(s, depth).value;
    if p == 0 {
      ClosingInside(s[1..], depth + 1);
      SliceOfTail(s, 1, k);
      assert s[0..k] == [s[0]] + s[1..k];
    } else {
      NestedBraceCloses(s[1..], if s[0] == OPEN then depth + 1 else if s[0] == CLOSE then depth - 1 else depth, p - 1);
      SliceOfTail(s, p, k);
    }
  }

  /** Decimal text denotes the number printed. */
  lemma DigitsValue(n: nat)
    ensures forall i :: 0 <= i < |Digits(n, 10)| ==> IsDigit(Digits(n, 10)[i])
    ensures NumberOf(Digits(n, 10)) == n
  {
    NumeralDigits(n, 10, DigitUnit, IsDigit);
    NumeralRoundTrip(n, 10, DigitUnit, DigitOf);
  }

  // --- The scanning loops --------------------------------------------------

  /** What is left of a text from a position on. */
  lemma Tail(s: Units, i: nat)
    requires i < |s|
    ensures s[i..] != [] && s[i..][0] == s[i] && s[i..][1..] == s[i + 1..]
  {
  }

  function Later(r: Option<nat>, k: nat): Option<nat> { if r.None? then None else Some(r.value + k) }

  lemma ClosingStep(s: Units, i: nat, depth: nat)
    requires i < |s|
    ensures Later(FindClosing(s[i..], depth), i) ==
      if s[i] == CLOSE && depth == 0 then Some(i)
      else
        var d := if s[i] == OPEN then depth + 1 else if s[i] == CLOSE then depth - 1 else depth;
        Later(FindClosing(s[i + 1..], d), i + 1)
  {
    Tail(s, i);
  }

  /** Position of the brace that closes a placeholder whose content starts here, or -1. */
  method FindClosingBrace(s: Units) returns (close: int)
    ensures -1 <= close < |s|
    ensures FindClosing(s, 0) == if close == -1 then None else Some(close)
  {
    var depth: nat := 0;
    for i := 0 to |s|
      invariant Later(FindClosing(s, 0), 0) == Later(FindClosing(s[i..], depth), i)
    {
      ClosingStep(s, i, depth);
      if s[i] == OPEN {
        depth := depth + 1;
      } else if s[i] == CLOSE {
        if depth == 0 { return i; }
        depth := depth - 1;
      }
    }
    return -1;
  }

  /** How many units at the front are of a class. */
  method CountWhile(s: Units, k: Class) returns (n: nat)
    ensures n == Count(s, k)
  {
    n := 0;
    while n < |s| && Is(k, s[n])
      invariant n <= |s| && Count(s, k) == n + Count(s[n..], k)
    {
      Tail(s, n);
      n := n + 1;
    }
  }

  method ScanNumber(s: Units, max: nat) returns (r: Reading)
    ensures r == ReadNumber(s, 0, max)
  {
    var i: nat, n: nat := 0, 0;
    while i < |s| && IsDigit(s[i])
      invariant 0 <= i <= |s| && ReadNumber(s, 0, max) == ReadNumber(s[i..], n, max)
    {
      Tail(s, i);
      n := n * 10 + (s[i] - ZERO);
      if n > max { return TooBig; }
      i := i + 1;
    }
    return Fits(n, s[i..]);
  }

  /** Scans what follows the percent sign of a conversion. */
  method ScanConversion(s: Units) returns (r: Lexed)
    ensures r == LexConversion(s)
  {
    var n := CountWhile(s, Flags);
    r := ScanWidth(s[..n], s[n..]);
  }

  method ScanWidth(flags: Units, s: Units) returns (r: Lexed)
    ensures r == LexWidth(flags, s)
  {
    var w := ScanNumber(s, MAX_FORMAT_WIDTH);
    if w.TooBig? { return Bad; }
    if |w.rest| > 0 && w.rest[0] == STAR {
      r := ScanPrecision(flags, FromArgument, w.rest[1..]);
    } else {
      r := ScanPrecision(flags, Given(w.n), w.rest);
    }
  }

  method ScanPrecision(flags: Units, width: Amount, s: Units) returns (r: Lexed)
    ensures r == LexPrecision(flags, width, s)
  {
    if |s| == 0 || s[0] != DOT {
      r := ScanEnd(flags, width, None, s);
    } else if |s| > 1 && s[1] == STAR {
      r := ScanEnd(flags, width, Some(FromArgument), s[2..]);
    } else {
      var p := ScanNumber(s[1..], MAX_FORMAT_PRECISION);
      if p.TooBig? { return Bad; }
      r := ScanEnd(flags, width, Some(Given(p.n)), p.rest);
    }
  }

  method ScanEnd(flags: Units, width: Amount, precision: Option<Amount>, s: Units) returns (r: Lexed)
    ensures r == LexEnd(flags, width, precision, s)
  {
    var n := CountWhile(s, Modifiers);
    if n == |s| { return Bad; }
    Tail(s, n);
    return Lexed(Conversion(flags, width, precision, s[n]), s[n + 1..]);
  }

  /** One pass of the main loop up to the point where the token is known. */
  method ScanToken(s: Units) returns (r: Lexed)
    requires s != []
    ensures r == Lex(s)
  {
    var ch := s[0];
    var doubled := |s| > 1 && s[1] == ch;
    if ch == OPEN && !doubled {
      var close := FindClosingBrace(s[1..]);
      if close == -1 { return Bad; }
      return Lexed(Place(s[1..][..close]), s[1..][close + 1..]);
    }
    if ch == CLOSE && !doubled { return Bad; }
    if ch == OPEN || ch == CLOSE { return Lexed(Literal(ch), s[2..]); }
    if ch != PERCENT { return Lexed(Literal(ch), s[1..]); }
    if doubled { return Lexed(Literal(PERCENT), s[2..]); }
    r := ScanConversion(s[1..]);
  }

  /** The main loop: `rest` is the format from the current position on. */
  method RenderFormat(e: Engine, format: Units, args: seq<Arg>) returns (r: Option<Units>)
    ensures r == Render(e, format, args)
  {
    var st := START;
    var rest := format;
    while rest != []
      invariant RunFrom(e, rest, args, st) == RunFrom(e, format, args, START)
      decreases |rest|
    {
      var token := ScanToken(rest);
      if token.Bad? { return None; }
      var after := Eval(e, token.token, args, st);
      if after.None? { return None; }
      st := after.value;
      rest := token.rest;
    }
    if !st.positional && st.next < |args| { return None; }
    return Some(st.out);
  }
}
