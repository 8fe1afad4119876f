/**
 * Whole formats of the log renderer: a conversion or placeholder written out
 * from its parts is read back to those parts, and rendering it shows the
 * argument as `RenderValues` says, unless the output limit is exceeded.
 */
module RenderFormats {
  import opened Bytes
  import opened Numerals
  import opened On9logPacket
  import opened Render
  import opened RenderValues

  // --- Reading back digits and runs ----------------------------------------

  predicate Only(s: Units, k: Class) { forall i :: 0 <= i < |s| ==> Is(k, s[i]) }

  predicate Ends(s: Units, k: Class) { s == [] || !Is(k, s[0]) }

  lemma {:induction false} CountRun(s: Units, t: Units, k: Class)
    requires Only(s, k) && Ends(t, k)
    ensures Count(s + t, k) == |s|
    decreases |s|
  {
    if s == [] {
      assert s + t == t;
    } else {
      assert (s + t)[1..] == s[1..] + t;
      CountRun(s[1..], t, k);
    }
  }

  lemma {:induction false} NumberRun(s: Units, t: Units, max: nat)
    requires Only(s, Decimals) && NumberOf(s) <= max
    ensures ReadNumber(s + t, 0, max) == ReadNumber(t, NumberOf(s), max)
    decreases |s|
  {
    if s == [] {
      assert s + t == t;
    } else {
      var front, d := s[..|s| - 1], s[|s| - 1];
      assert IsDigit(d);
      NumberRun(front, [d] + t, max);
      assert front + ([d] + t) == s + t;
      assert ([d] + t)[1..] == t;
    }
  }

  lemma DigitsRun(n: nat)
    ensures Only(Digits(n, 10), Decimals) && NumberOf(Digits(n, 10)) == n && |Digits(n, 10)| > 0
    ensures n > 0 ==> Digits(n, 10)[0] != ZERO
  {
    DigitsValue(n);
    NoLeadingZero(n, 10);
  }

  /** A number in a format is read back, whatever follows that is not a digit. */
  lemma NumberReads(n: nat, t: Units, max: nat)
    requires n <= max && Ends(t, Decimals)
    ensures ReadNumber(Digits(n, 10) + t, 0, max) == Fits(n, t)
  {
    DigitsRun(n);
    NumberRun(Digits(n, 10), t, max);
  }

  // --- printf conversions as written ---------------------------------------

  /** A width: digits, a star, or nothing for none. */
  function WidthText(w: Amount): Units {
    match w
    case Given(n) => if n == 0 then [] else Digits(n, 10)
    case FromArgument => [42]
  }

  function PrecisionText(p: Option<Amount>): Units {
    if p.None? then [] else [46] + (match p.value case Given(n) => Digits(n, 10) case FromArgument => [42])
  }

  /** `%`, flags, width, precision, length modifiers and the letter of the conversion. */
  function ConversionText(t: Token, modifiers: Units): Units
    requires t.Conversion?
  {
    [37] + (t.flags + (WidthText(t.width) + (PrecisionText(t.precision) + (modifiers + [t.conv]))))
  }

  /** A letter other than a length modifier. */
  predicate Letter(c: nat) { (65 <= c <= 90 || 97 <= c <= 122) && c !in {0x68, 0x6c, 0x4c, 0x6a, 0x7a, 0x74} }

  /** What can be written: known flags, a letter, and amounts within the limits. */
  predicate Writable(t: Token) {
    && t.Conversion? && Letter(t.conv)
    && (forall i :: 0 <= i < |t.flags| ==> t.flags[i] in {45, 43, 32, 35, 48})
    && (t.width.Given? ==> t.width.n <= 4096)
    && (t.precision.Some? && t.precision.value.Given? ==> t.precision.value.n <= 100)
  }

  predicate Modifying(s: Units) { forall i :: 0 <= i < |s| ==> s[i] in {0x68, 0x6c, 0x4c, 0x6a, 0x7a, 0x74} }

  /** Neither a flag, a digit, a star nor a dot: what the parts after them begin with. */
  predicate Plain(s: Units) { s != [] && !Is(Flags, s[0]) && !IsDigit(s[0]) && s[0] != STAR && s[0] != DOT }

  lemma EndPlain(modifiers: Units, conv: nat)
    requires Modifying(modifiers) && Letter(conv)
    ensures Plain(modifiers + [conv])
  {
    if modifiers != [] { assert modifiers[0] in {0x68, 0x6c, 0x4c, 0x6a, 0x7a, 0x74}; }
  }

  lemma EndReads(flags: Units, width: Amount, precision: Option<Amount>, modifiers: Units, conv: nat)
    requires Modifying(modifiers) && Letter(conv)
    ensures LexEnd(flags, width, precision, modifiers + [conv]) == Lexed(Conversion(flags, width, precision, conv), [])
  {
    var s := modifiers + [conv];
    CountRun(modifiers, [conv], Modifiers);
    assert s[|modifiers|..] == [conv];
  }

  lemma PrecisionReads(flags: Units, width: Amount, precision: Option<Amount>, s: Units)
    requires Plain(s) && (precision.Some? && precision.value.Given? ==> precision.value.n <= MAX_FORMAT_PRECISION)
    ensures LexPrecision(flags, width, PrecisionText(precision) + s) == LexEnd(flags, width, precision, s)
  {
    var t := PrecisionText(precision) + s;
    if precision.None? {
      assert t == s;
    } else if precision.value.FromArgument? {
      assert t[1..] == [42] + s && t[2..] == s;
    } else {
      var n := precision.value.n;
      assert t[1..] == Digits(n, 10) + s;
      DigitsRun(n);
      assert IsDigit(t[1..][0]);
      NumberReads(n, s, MAX_FORMAT_PRECISION);
    }
  }

  lemma PrecisionPlain(precision: Option<Amount>, s: Units)
    requires Plain(s)
    ensures var t := PrecisionText(precision) + s; t != [] && Ends(t, Flags) && Ends(t, Decimals) && t[0] != STAR
  {
    if precision.None? { assert PrecisionText(precision) + s == s; }
  }

  lemma WidthReads(flags: Units, width: Amount, s: Units)
    requires s != [] && Ends(s, Decimals) && s[0] != STAR && (width.Given? ==> width.n <= MAX_FORMAT_WIDTH)
    ensures LexWidth(flags, WidthText(width) + s) == LexPrecision(flags, width, s)
  {
    var t := WidthText(width) + s;
    if width.FromArgument? {
      assert t[1..] == s;
    } else if width.n == 0 {
      assert t == s;
    } else {
      NumberReads(width.n, s, MAX_FORMAT_WIDTH);
    }
  }

  lemma WidthPlain(width: Amount, s: Units)
    requires s != [] && Ends(s, Flags)
    ensures var t := WidthText(width) + s; t != [] && Ends(t, Flags)
  {
    if width == Given(0) {
      assert WidthText(width) + s == s;
    } else if width.Given? {
      DigitsRun(width.n);
      assert IsDigit(Digits(width.n, 10)[0]);
    }
  }

  lemma FlagsRead(flags: Units, s: Units)
    requires Only(flags, Flags) && Ends(s, Flags)
    ensures LexConversion(flags + s) == LexWidth(flags, s)
  {
    CountRun(flags, s, Flags);
    assert (flags + s)[..|flags|] == flags && (flags + s)[|flags|..] == s;
  }

  /** A conversion as written is read back to its parts, and the text after it is left. */
  lemma ConversionReadBack(t: Token, modifiers: Units, rest: Units)
    requires Writable(t) && Modifying(modifiers)
    ensures Lex(ConversionText(t, modifiers) + rest) == Lexed(t, rest)
  {
    var end := modifiers + [t.conv];
    EndPlain(modifiers, t.conv);
    EndReads(t.flags, t.width, t.precision, modifiers, t.conv);
    var s := PrecisionText(t.precision) + end;
    PrecisionReads(t.flags, t.width, t.precision, end);
    PrecisionPlain(t.precision, end);
    WidthReads(t.flags, t.width, s);
    WidthPlain(t.width, s);
    FlagsRead(t.flags, WidthText(t.width) + s);
    PercentReads(t.flags, WidthText(t.width) + s);
    LexStable(ConversionText(t, modifiers), rest);
    assert [] + rest == rest;
  }

  lemma PercentReads(flags: Units, s: Units)
    requires Only(flags, Flags) && s != [] && (flags == [] ==> s[0] != PERCENT)
    ensures Lex([37] + (flags + s)) == LexConversion(flags + s)
  {
    assert ([37] + (flags + s))[1..] == flags + s;
  }

  // --- Rendering one conversion --------------------------------------------

  /** What is put out: the text, unless it exceeds the output limit. */
  function Limited(text: Option<Units>): Option<Units> {
    if text.Some? && |text.value| <= 1_000_000 then text else None
  }

  /** The arguments of a conversion in order: its width and its precision where they are stars, and its value. */
  function ConversionArgs(t: Token, w: Arg, p: Arg, a: Arg): seq<Arg>
    requires t.Conversion?
  {
    (if t.width.FromArgument? then [w] else []) + (if t.precision == Some(FromArgument) then [p] else []) + [a]
  }

  /** A width that is negative as 32 bits asks for left-justification in its magnitude. */
  function SignedWidth(width: Amount, n: nat): int {
    if width.Given? then width.n else if Wrapped32(n) < 0 then Wrapped32(n) else n
  }

  function PrecisionOf(precision: Option<Amount>, n: nat): Option<nat> {
    if precision.None? then None else if precision.value.Given? then Some(precision.value.n) else Some(n)
  }

  function FieldFor(flags: Units, width: int, precision: Option<nat>): Field {
    Field(Magnitude(width), if width < 0 && 45 !in flags then flags + [45] else flags, precision)
  }

  lemma WidthTaken(h: Host, t: Token, w: Arg, v: nat, args: seq<Arg>, st: State)
    requires Writable(t) && (t.width.FromArgument? ==> st.next < |args| && args[st.next] == w && Numeric(w, v))
    ensures var r := TakeAmount(Standard(h), t.width, args, st);
      var signed := SignedWidth(t.width, h.number(v));
      && r.Some? && r.value.1.next == st.next + (if t.width.FromArgument? then 1 else 0) && r.value.1.out == st.out
      && WidthField(t.flags, r.value.0)
        == if Magnitude(signed) <= 4096 then Some(FieldFor(t.flags, signed, None)) else None
  {
  }

  lemma PrecisionTaken(h: Host, precision: Amount, p: Arg, v: nat, args: seq<Arg>, st: State)
    requires precision.FromArgument? ==> st.next < |args| && args[st.next] == p && Numeric(p, v)
    ensures var r := TakeAmount(Standard(h), precision, args, st);
      && r.Some? && r.value.1.next == st.next + (if precision.FromArgument? then 1 else 0) && r.value.1.out == st.out
      && Some(r.value.0) == PrecisionOf(Some(precision), h.number(v))
  {
  }

  /** The field that a conversion with these amounts asks for; none beyond the limits. */
  function Asked(t: Token, w: nat, p: nat): Option<Field>
    requires t.Conversion?
  {
    var width, precision := SignedWidth(t.width, w), PrecisionOf(t.precision, p);
    if Magnitude(width) <= 4096 && (precision.Some? ==> precision.value <= 100)
    then Some(FieldFor(t.flags, width, precision)) else None
  }

  lemma FieldTaken(h: Host, t: Token, w: Arg, p: Arg, a: Arg, wv: nat, pv: nat)
    requires Writable(t)
    requires t.width.FromArgument? ==> Numeric(w, wv)
    requires t.precision == Some(FromArgument) ==> Numeric(p, pv)
    ensures var r := FieldOf(Standard(h), t, ConversionArgs(t, w, p, a), START);
      var f := Asked(t, h.number(wv), h.number(pv));
      && (r.None? <==> f.None?)
      && (r.Some? ==> r.value.0 == f.value && r.value.1.next + 1 == |ConversionArgs(t, w, p, a)| && r.value.1.out == [])
  {
    var args := ConversionArgs(t, w, p, a);
    WidthTaken(h, t, w, wv, args, START);
    var st := TakeAmount(Standard(h), t.width, args, START).value.1;
    if t.precision.Some? { PrecisionTaken(h, t.precision.value, p, pv, args, st); }
  }

  /**
   * A conversion as written, with the arguments for its stars in front, renders its argument in the field asked for:
   * refused exactly when a width or precision exceeds its limit, the conversion refuses the argument or the text
   * exceeds the output limit.
   */
  lemma ConversionRenders(h: Host, t: Token, modifiers: Units, w: Arg, p: Arg, a: Arg, wv: nat, pv: nat)
    requires Writable(t) && Modifying(modifiers)
    requires t.width.FromArgument? ==> Numeric(w, wv)
    requires t.precision == Some(FromArgument) ==> Numeric(p, pv)
    ensures var f := Asked(t, h.number(wv), h.number(pv));
      Render.Render(Standard(h), ConversionText(t, modifiers), ConversionArgs(t, w, p, a))
        == if f.None? then None else Limited(Convert(h, t.conv, a, f.value))
  {
    var e, s, args := Standard(h), ConversionText(t, modifiers), ConversionArgs(t, w, p, a);
    ConversionReadBack(t, modifiers, []);
    assert s + [] == s;
    FieldTaken(h, t, w, p, a, wv, pv);
    OneToken(e, s, t, args);
    EvalTaken(h, t, args, a, Asked(t, h.number(wv), h.number(pv)));
  }

  lemma OneToken(e: Engine, s: Units, t: Token, args: seq<Arg>)
    requires s != [] && Lex(s) == Lexed(t, [])
    ensures RunFrom(e, s, args, START) == Eval(e, t, args, START)
  {
    var r := Eval(e, t, args, START);
    if r.Some? { assert RunFrom(e, [], args, r.value) == r; }
  }

  lemma EvalTaken(h: Host, t: Token, args: seq<Arg>, a: Arg, f: Option<Field>)
    requires t.Conversion? && args != [] && args[|args| - 1] == a
    requires var r := FieldOf(Standard(h), t, args, START);
      && (r.None? <==> f.None?)
      && (r.Some? ==> r.value.0 == f.value && r.value.1.next + 1 == |args| && r.value.1.out == [])
    ensures var r := EvalConversion(Standard(h), t, args, START);
      var text := if f.None? then None else Limited(Convert(h, t.conv, a, f.value));
      && (r.None? <==> text.None?) && (r.Some? ==> r.value.out == text.value && r.value.next == |args|)
  {
    if f.Some? && Convert(h, t.conv, a, f.value).Some? {
      var text := Convert(h, t.conv, a, f.value).value;
      assert [] + text == text;
    }
  }

  // --- The integer conversions ---------------------------------------------

  function Pow2(k: nat): nat { if k == 0 then 1 else 2 * Pow2(k - 1) }

  lemma {:induction false} SpellsShort(s: Units, base: nat, upper: bool, n: nat, k: nat)
    requires base >= 2 && Spells(s, base, upper, n) && n < Pow2(k) && k >= 1
    ensures |s| <= k
    decreases k
  {
    LastDigit(s, base, upper, n);
    if n >= base {
      Halved(n, base, Pow2(k - 1));
      SpellsShort(s[..|s| - 1], base, upper, n / base, k - 1);
    }
  }

  lemma Halved(n: nat, base: nat, half: nat)
    requires 2 <= base <= n < 2 * half
    ensures n / base < half && half > 1
  {
    QuotientSmaller(n, base);
    Monotone(n / base, 2, base);
  }

  lemma Pow64()
    ensures Pow2(64) == 0x1_0000_0000_0000_0000
  {
    Pow2Eight(0);
    Pow2Eight(8);
    Pow2Eight(16);
    Pow2Eight(24);
    Pow2Eight(32);
    Pow2Eight(40);
    Pow2Eight(48);
    Pow2Eight(56);
  }

  lemma Pow2Eight(k: nat)
    ensures Pow2(k + 8) == 0x100 * Pow2(k)
  {
    assert Pow2(k + 4) == 2 * Pow2(k + 3) == 4 * Pow2(k + 2) == 8 * Pow2(k + 1) == 16 * Pow2(k);
    assert Pow2(k + 8) == 2 * Pow2(k + 7) == 4 * Pow2(k + 6) == 8 * Pow2(k + 5) == 16 * Pow2(k + 4);
  }

  /** An integer of at most 64 bits in a field is far below the output limit. */
  lemma FieldWithin(r: Option<Units>, f: Field, v: int, base: nat, upper: bool, lead: Units, plus: bool, space: bool)
    requires IntegerField(r, f, v, base, upper, lead, plus, space)
    requires base >= 2 && Magnitude(v) < 0x1_0000_0000_0000_0000 && |lead| <= 2 && f.width <= 4096
    ensures Limited(r) == r
  {
    var s :| Shows(s, v, base, upper, lead, plus, space) && InField(r.value, s, f);
    ShownShort(s, v, base, upper, lead, plus, space);
  }

  lemma ShownShort(s: Units, v: int, base: nat, upper: bool, lead: Units, plus: bool, space: bool)
    requires Shows(s, v, base, upper, lead, plus, space)
    requires base >= 2 && Magnitude(v) < 0x1_0000_0000_0000_0000 && |lead| <= 2
    ensures |s| <= 67
  {
    var digits :| Spells(digits, base, upper, Magnitude(v)) && s == Mark(v, plus, space) + lead + digits;
    Pow64();
    SpellsShort(digits, base, upper, Magnitude(v), 64);
  }

  /** A conversion without stars, in its field. */
  function OwnField(t: Token): Field
    requires t.Conversion? && t.width.Given?
  {
    Field(t.width.n, t.flags, PrecisionOf(t.precision, 0))
  }

  lemma OwnAsked(t: Token, n: nat)
    requires Writable(t) && t.width.Given? && t.precision != Some(FromArgument)
    ensures Asked(t, n, n) == Some(OwnField(t))
  {
  }

  lemma PlainRenders(h: Host, t: Token, modifiers: Units, a: Arg)
    requires Writable(t) && Modifying(modifiers) && t.width.Given? && t.precision != Some(FromArgument)
    ensures Render.Render(Standard(h), ConversionText(t, modifiers), [a]) == Limited(Convert(h, t.conv, a, OwnField(t)))
  {
    assert ConversionArgs(t, a, a, a) == [a];
    ConversionRenders(h, t, modifiers, a, a, a, 0, 0);
    OwnAsked(t, h.number(0));
  }

  lemma DecimalWithin(h: Host, conv: nat, a: Arg, f: Field, v: nat)
    requires Numeric(a, v) && v < 0x1_0000_0000_0000_0000 && conv in {0x64, 0x69, 0x75} && f.width <= 4096
    ensures IntegerField(Limited(Convert(h, conv, a, f)), f, if conv == 0x75 then v else SignedValue(v), 10, false, [],
      43 in f.flags, 32 in f.flags)
  {
    DecimalConversion(h, a, f, v);
    FieldWithin(Convert(h, conv, a, f), f, if conv == 0x75 then v else SignedValue(v), 10, false, [],
      43 in f.flags, 32 in f.flags);
  }

  /** `%d` and `%i` render the signed value of an argument and `%u` the unsigned one, with their flags and width. */
  lemma DecimalRenders(h: Host, t: Token, modifiers: Units, a: Arg, v: nat)
    requires Writable(t) && Modifying(modifiers) && t.width.Given? && t.precision != Some(FromArgument)
    requires Numeric(a, v) && v < 0x1_0000_0000_0000_0000 && t.conv in {0x64, 0x69, 0x75}
    ensures IntegerField(Render.Render(Standard(h), ConversionText(t, modifiers), [a]), OwnField(t),
      if t.conv == 0x75 then v else SignedValue(v), 10, false, [], 43 in t.flags, 32 in t.flags)
  {
    PlainRenders(h, t, modifiers, a);
    DecimalWithin(h, t.conv, a, OwnField(t), v);
  }

  /** `%x` and `%X` render the unsigned value in base 16. */
  lemma HexRenders(h: Host, t: Token, modifiers: Units, a: Arg, v: nat)
    requires Writable(t) && Modifying(modifiers) && t.width.Given? && t.precision != Some(FromArgument)
    requires Numeric(a, v) && v < 0x1_0000_0000_0000_0000 && t.conv in {0x78, 0x58}
    ensures IntegerField(Render.Render(Standard(h), ConversionText(t, modifiers), [a]), OwnField(t), v, 16, t.conv
      == 0x58,
      if 35 !in t.flags then [] else if t.conv == 0x58 then [48, 88] else [48, 120], false, false)
  {
    PlainRenders(h, t, modifiers, a);
    HexConversion(h, a, OwnField(t), v);
    FieldWithin(Convert(h, t.conv, a, OwnField(t)), OwnField(t), v, 16, t.conv == 0x58,
      if 35 !in t.flags then [] else if t.conv == 0x58 then [48, 88] else [48, 120], false, false);
  }

  /** `%s` renders the string, or its first units, unless it exceeds the output limit; `%c` the low byte. */
  lemma TextRenders(h: Host, t: Token, modifiers: Units, a: Arg)
    requires Writable(t) && Modifying(modifiers) && t.width.Given? && t.precision != Some(FromArgument)
    ensures t.conv == 0x73 && (a.Text? || a.TextView?) ==>
      var shown := Cut(Characters(h, a), PrecisionOf(t.precision, 0));
      var r := Render.Render(Standard(h), ConversionText(t, modifiers), [a]);
      (r.Some? <==> |shown| <= 1_000_000) && (r.Some? ==> InField(r.value, shown, OwnField(t)))
    ensures t.conv == 0x63 ==> forall v | Numeric(a, v) ::
      Render.Render(Standard(h), ConversionText(t, modifiers), [a]) == Some([h.number(v) % 256])
    ensures !Takes(t.conv, a) ==> Render.Render(Standard(h), ConversionText(t, modifiers), [a]).None?
  {
    PlainRenders(h, t, modifiers, a);
    TakesExactly(h, t.conv, a, OwnField(t));
    if a.Text? || a.TextView? { StringConversion(h, a, OwnField(t)); }
    forall v | Numeric(a, v) ensures Convert(h, 0x63, a, OwnField(t)) == Some([h.number(v) % 256]) {
      CharConversion(h, a, OwnField(t), v);
    }
  }
}
