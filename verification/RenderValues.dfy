/**
 * What the log renderer shows for a value: the text of every integer, character
 * and string conversion, said from the value through an independent reader of
 * numerals, and which arguments each conversion refuses.
 */
module RenderValues {
  import opened Bytes
  import opened Numerals
  import opened On9logPacket
  import opened Render

  // --- Numerals read back --------------------------------------------------

  /** The value of a digit in either case; 99 for anything else. */
  function DigitRead(c: nat): nat {
    if 48 <= c <= 57 then c - 48 else if 97 <= c <= 122 then c - 87 else if 65 <= c <= 90 then c - 55 else 99
  }

  /** A digit of the base, letters in the given case. */
  predicate DigitIn(c: nat, base: nat, upper: bool) {
    (48 <= c <= 57 || (if upper then 65 <= c <= 90 else 97 <= c <= 122)) && DigitRead(c) < base
  }

  /** The text is the numeral of n: digits of the base in the given case, read to n, without a leading zero. */
  predicate Spells(s: Units, base: nat, upper: bool, n: nat) {
    && s != [] && (|s| > 1 ==> s[0] != 48)
    && (forall i :: 0 <= i < |s| ==> DigitIn(s[i], base, upper))
    && Value(s, base, DigitRead) == n
  }

  lemma DigitReadBack(d: nat, base: nat)
    requires d < base <= 36
    ensures DigitRead(DigitUnit(d)) == d && DigitIn(DigitUnit(d), base, false)
  {
  }

  lemma {:induction false} NoLeadingZero(n: nat, base: nat)
    requires 2 <= base <= 36
    ensures |Digits(n, base)| > 1 ==> Digits(n, base)[0] != 48
    ensures n > 0 ==> Digits(n, base)[0] != 48
    decreases n
  {
    if n >= base {
      QuotientSmaller(n, base);
      assert n / base > 0;
      NoLeadingZero(n / base, base);
    }
  }

  lemma DigitsSpell(n: nat, base: nat)
    requires 2 <= base <= 36
    ensures Spells(Digits(n, base), base, false, n)
  {
    forall d: nat | d < base ensures DigitRead(DigitUnit(d)) == d && DigitIn(DigitUnit(d), base, false) {
      DigitReadBack(d, base);
    }
    NumeralRoundTrip(n, base, DigitUnit, DigitRead);
    NumeralDigits(n, base, DigitUnit, (c: nat) => DigitIn(c, base, false));
    NoLeadingZero(n, base);
  }

  lemma {:induction false} UpperReads(s: Units, base: nat)
    requires forall i :: 0 <= i < |s| ==> DigitIn(s[i], base, false)
    ensures Value(Upper(s), base, DigitRead) == Value(s, base, DigitRead)
    decreases |s|
  {
    if s != [] {
      var front := s[..|s| - 1];
      UpperReads(front, base);
      assert Upper(s)[..|s| - 1] == Upper(front);
    }
  }

  lemma UpperSpells(s: Units, base: nat, n: nat)
    requires Spells(s, base, false, n)
    ensures Spells(Upper(s), base, true, n)
  {
    UpperReads(s, base);
  }

  /** A number has one numeral, so a text that spells it is determined. */
  lemma {:induction false} SpellsUnique(s: Units, t: Units, base: nat, upper: bool, n: nat)
    requires base >= 2 && Spells(s, base, upper, n) && Spells(t, base, upper, n)
    ensures s == t
    decreases n
  {
    LastDigit(s, base, upper, n);
    LastDigit(t, base, upper, n);
    var a, b := s[..|s| - 1], t[..|t| - 1];
    assert s == a + [s[|s| - 1]] && t == b + [t[|t| - 1]];
    if n >= base {
      QuotientSmaller(n, base);
      SpellsUnique(a, b, base, upper, n / base);
    }
  }

  lemma LastDigit(s: Units, base: nat, upper: bool, n: nat)
    requires base >= 2 && Spells(s, base, upper, n)
    ensures DigitRead(s[|s| - 1]) == n % base
    ensures if n < base then |s| == 1 else |s| > 1 && Spells(s[..|s| - 1], base, upper, n / base)
  {
    var front, d := s[..|s| - 1], DigitRead(s[|s| - 1]);
    var q := Value(front, base, DigitRead);
    assert DigitIn(s[|s| - 1], base, upper);
    QuotientRemainder(n, base, q, d);
    if |s| > 1 {
      assert DigitIn(s[0], base, upper) && front[0] == s[0];
      LeadingCounts(front, base, upper);
    }
  }

  lemma Monotone(k: nat, a: nat, b: nat)
    requires a <= b
    ensures k * a <= k * b
  {
  }

  lemma QuotientRemainder(n: nat, base: nat, q: nat, d: nat)
    requires base >= 2 && n == base * q + d && d < base
    ensures n / base == q && n % base == d && (q > 0 ==> n >= base)
  {
    var p := n / base;
    assert n == base * p + n % base;
    assert base * (p + 1) == base * p + base && base * (q + 1) == base * q + base;
    if p < q {
      Monotone(base, p + 1, q);
    } else if q < p {
      Monotone(base, q + 1, p);
    }
    if q > 0 { Monotone(base, 1, q); }
  }

  lemma {:induction false} LeadingCounts(s: Units, base: nat, upper: bool)
    requires s != [] && s[0] != 48 && base >= 2 && forall i :: 0 <= i < |s| ==> DigitIn(s[i], base, upper)
    ensures Value(s, base, DigitRead) > 0
    decreases |s|
  {
    var front := s[..|s| - 1];
    if |s| > 1 {
      LeadingCounts(front, base, upper);
      Monotone(Value(front, base, DigitRead), 1, base);
    } else {
      assert front == [] && DigitIn(s[0], base, upper);
    }
  }

  // --- Integers as text ----------------------------------------------------

  /** The mark in front of a number: a minus, or what the flags ask for in front of any other number. */
  function Mark(v: int, plus: bool, space: bool): Units {
    if v < 0 then [45] else if plus then [43] else if space then [32] else []
  }

  function Magnitude(v: int): nat { if v < 0 then -v else v }

  /** The text of an integer: mark, base prefix and numeral. */
  ghost predicate Shows(s: Units, v: int, base: nat, upper: bool, lead: Units, plus: bool, space: bool) {
    exists digits ::
      Spells(digits, base, upper, Magnitude(v)) && s == Mark(v, plus, space) + lead + digits
  }

  /** Bits of an argument as an unsigned number; strings have none. */
  predicate Numeric(a: Arg, v: nat) {
    || (a.Bits32? && v == a.word % 0x1_0000_0000)
    || (a.Bits64? && v == a.long)
    || (a.Pointer? && v == a.address)
  }

  /** Signed display: 32-bit two's complement below 2^32, and 64-bit two's complement from there on. */
  function SignedValue(v: nat): int {
    if v < 0x8000_0000 then v
    else if v < 0x1_0000_0000 then v - 0x1_0000_0000
    else if v < 0x8000_0000_0000_0000 then v
    else v - 0x1_0000_0000_0000_0000
  }

  lemma NotMinus(digits: Units, base: nat, upper: bool)
    requires digits != [] && DigitIn(digits[0], base, upper)
    ensures digits[0] != 45
  {
  }

  lemma SignSplits(v: int, digits: Units, plus: bool, space: bool)
    requires digits != [] && digits[0] != 45 && digits == Digits(Magnitude(v), 10)
    ensures WithSign(ToText(v, 10), plus, space) == Mark(v, plus, space) + [] + digits
  {
    assert [] + [] + digits == digits;
    if v < 0 { assert ToText(v, 10) == [45] + digits; }
  }

  lemma SignedText(v: int, plus: bool, space: bool)
    ensures Shows(WithSign(ToText(v, 10), plus, space), v, 10, false, [], plus, space)
  {
    var digits := Digits(Magnitude(v), 10);
    DigitsSpell(Magnitude(v), 10);
    NotMinus(digits, 10, false);
    SignSplits(v, digits, plus, space);
  }

  lemma LeadText(v: nat, base: nat, upper: bool, lead: Units, plus: bool, space: bool)
    requires 2 <= base <= 36 && (lead == [] || lead[0] != 45)
    ensures var digits := if upper then Upper(Digits(v, base)) else Digits(v, base);
      Shows(WithSign(lead + digits, plus, space), v, base, upper, lead, plus, space)
  {
    var digits := if upper then Upper(Digits(v, base)) else Digits(v, base);
    DigitsSpell(v, base);
    if upper { UpperSpells(Digits(v, base), base, v); }
    assert DigitIn(digits[0], base, upper);
    assert WithSign(lead + digits, plus, space) == Mark(v, plus, space) + lead + digits;
  }

  // --- printf --------------------------------------------------------------

  /** The text as padded for a field. */
  predicate InField(r: Units, s: Units, f: Field) {
    && |r| == (if f.width <= |s| then |s| else f.width)
    && (if 45 in f.flags then Padded(r, s, 0, 32)
        else if 48 in f.flags then ZeroPadded(r, s, false)
        else Padded(r, s, |r| - |s|, 32))
  }

  ghost predicate IntegerField(r: Option<Units>, f: Field, v: int, base: nat, upper: bool, lead: Units, plus: bool,
      space: bool) {
    r.Some? && exists s :: Shows(s, v, base, upper, lead, plus, space) && InField(r.value, s, f)
  }

  lemma FieldShows(s: Units, f: Field, v: int, base: nat, upper: bool, lead: Units, plus: bool, space: bool)
    requires Shows(s, v, base, upper, lead, plus, space)
    ensures IntegerField(Some(PadString(s, f.width, f.flags)), f, v, base, upper, lead, plus, space)
  {
    PadMeaning(s, f.width, f.flags);
  }

  lemma ConvertIs(h: Host, a: Arg, f: Field, v: nat)
    requires Numeric(a, v)
    ensures Convert(h, 0x64, a, f) == Convert(h, 0x69, a, f) == Some(
      PadString(WithSign(ToText(SignedValue(v), 10), 43 in f.flags, 32 in f.flags), f.width, f.flags))
    ensures Convert(h, 0x75, a, f) == Some(
      PadString(WithSign(ToText(v, 10), 43 in f.flags, 32 in f.flags), f.width, f.flags))
    ensures Convert(h, 0x78, a, f) == Some(FormatHex(v, f, false))
    ensures Convert(h, 0x58, a, f) == Some(FormatHex(v, f, true))
    ensures Convert(h, 0x63, a, f) == Some([h.number(v) % 256])
  {
  }

  /** `%d` and `%i` show the signed value, `%u` the unsigned one, with the sign flags. */
  lemma DecimalConversion(h: Host, a: Arg, f: Field, v: nat)
    requires Numeric(a, v)
    ensures IntegerField(Convert(h, 0x64, a, f), f, SignedValue(v), 10, false, [], 43 in f.flags, 32 in f.flags)
    ensures IntegerField(Convert(h, 0x69, a, f), f, SignedValue(v), 10, false, [], 43 in f.flags, 32 in f.flags)
    ensures IntegerField(Convert(h, 0x75, a, f), f, v, 10, false, [], 43 in f.flags, 32 in f.flags)
  {
    ConvertIs(h, a, f, v);
    DecimalField(SignedValue(v), f);
    DecimalField(v, f);
  }

  lemma DecimalField(v: int, f: Field)
    ensures var s := WithSign(ToText(v, 10), 43 in f.flags, 32 in f.flags);
      IntegerField(Some(PadString(s, f.width, f.flags)), f, v, 10, false, [], 43 in f.flags, 32 in f.flags)
  {
    SignedText(v, 43 in f.flags, 32 in f.flags);
    FieldShows(WithSign(ToText(v, 10), 43 in f.flags, 32 in f.flags), f, v, 10, false, [], 43 in f.flags,
      32 in f.flags);
  }

  /** `%x` and `%X` show the unsigned value in base 16 in their case, with `0x` or `0X` if asked for. */
  lemma HexConversion(h: Host, a: Arg, f: Field, v: nat)
    requires Numeric(a, v)
    ensures IntegerField(Convert(h, 0x78, a, f), f, v, 16, false, if 35 in f.flags then [48, 120] else [], false, false)
    ensures IntegerField(Convert(h, 0x58, a, f), f, v, 16, true, if 35 in f.flags then [48, 88] else [], false, false)
  {
    ConvertIs(h, a, f, v);
    HexField(v, f, false);
    HexField(v, f, true);
  }

  function HexLead(f: Field, upper: bool): Units {
    if 35 in f.flags then (if upper then [48, 88] else [48, 120]) else []
  }

  lemma HexBody(v: nat, f: Field, upper: bool)
    ensures var digits := if upper then Upper(Digits(v, 16)) else Digits(v, 16);
      FormatHex(v, f, upper) == PadString(HexLead(f, upper) + digits, f.width, f.flags)
  {
    var digits := if upper then Upper(Digits(v, 16)) else Digits(v, 16);
    assert Ascii("0x") == [48, 120] && Ascii("0X") == [48, 88];
    assert [] + digits == digits;
  }

  lemma HexField(v: nat, f: Field, upper: bool)
    ensures IntegerField(Some(FormatHex(v, f, upper)), f, v, 16, upper, HexLead(f, upper), false, false)
  {
    var digits := if upper then Upper(Digits(v, 16)) else Digits(v, 16);
    HexBody(v, f, upper);
    LeadText(v, 16, upper, HexLead(f, upper), false, false);
    FieldShows(HexLead(f, upper) + digits, f, v, 16, upper, HexLead(f, upper), false, false);
  }

  /** The characters of a string argument. */
  function Characters(h: Host, a: Arg): Units
    requires a.Text? || a.TextView?
  {
    if a.text.None? then [40, 110, 117, 108, 108, 41] else h.decode(a.text.value)
  }

  /** A text, or its first units where a precision asks for fewer. */
  function Cut(t: Units, precision: Option<nat>): Units {
    if precision.None? || |t| <= precision.value then t else t[..precision.value]
  }

  /** `%s` shows the string, or its first units. */
  lemma StringConversion(h: Host, a: Arg, f: Field)
    requires a.Text? || a.TextView?
    ensures var r := Convert(h, 0x73, a, f); r.Some? && InField(r.value, Cut(Characters(h, a), f.precision), f)
  {
    CharactersAre(h, a);
    FieldFits(Cut(Characters(h, a), f.precision), f);
  }

  lemma CharactersAre(h: Host, a: Arg)
    requires a.Text? || a.TextView?
    ensures ArgText(h, a) == Characters(h, a)
  {
    assert Ascii("(null)") == [40, 110, 117, 108, 108, 41];
  }

  lemma ConvertPointer(h: Host, a: Arg, f: Field)
    ensures Convert(h, 0x70, a, f) == PointerText(a)
  {
  }

  /** `%c` shows the low byte, `%p` at least eight hex digits of a pointer or a 32-bit argument. */
  lemma CharConversion(h: Host, a: Arg, f: Field, v: nat)
    requires Numeric(a, v)
    ensures Convert(h, 0x63, a, f) == Some([h.number(v) % 256])
    ensures a.Bits32? || a.Pointer? ==> PointerShows(Convert(h, 0x70, a, f), v % 0x1_0000_0000)
  {
    ConvertIs(h, a, f, v);
    ConvertPointer(h, a, f);
    if a.Bits32? || a.Pointer? { PointerMeaning(a, v % 0x1_0000_0000); }
  }

  /** `0x` and at least eight digits: the numeral with zeros in front. */
  ghost predicate PointerShows(r: Option<Units>, v: nat) {
    r.Some? && exists digits, zeros: nat ::
      && Spells(digits, 16, false, v) && (if |digits| < 8 then zeros + |digits| == 8 else zeros == 0)
      && r.value == [48, 120] + Repeat(48, zeros) + digits
  }

  lemma PointerMeaning(a: Arg, v: nat)
    requires (a.Bits32? && v == a.word % 0x1_0000_0000) || (a.Pointer? && v == a.address % 0x1_0000_0000)
    ensures PointerShows(PointerText(a), v)
  {
    var hex := Digits(v, 16);
    DigitsSpell(v, 16);
    assert Ascii("0x") == [48, 120];
    var zeros: nat := if |hex| < 8 then 8 - |hex| else 0;
    assert Repeat(48, 0) == [];
    assert PointerText(a).value == [48, 120] + Repeat(48, zeros) + hex;
  }

  /** `%f` and `%F` show what the host prints with the precision or six digits, and a plus if asked for. */
  lemma FixedConversion(h: Host, a: Arg, f: Field)
    requires a.Bits64?
    ensures var s := h.toFixed(a.long, if f.precision.Some? then f.precision.value else 6);
      var t := if 43 in f.flags && !(s != [] && s[0] == 45) then [43] + s else s;
      && Convert(h, 0x66, a, f).Some? && InField(Convert(h, 0x66, a, f).value, t, f)
      && Convert(h, 0x46, a, f) == Convert(h, 0x66, a, f)
  {
    var s := h.toFixed(a.long, Precision(f.precision));
    FieldFits(WithSign(s, 43 in f.flags, false), f);
  }

  /** `%e` and `%g` show the host's exponential form, `%E` and `%G` in upper case. */
  lemma ExponentialConversion(h: Host, a: Arg, f: Field)
    requires a.Bits64?
    ensures var s := h.toExponential(a.long, if f.precision.Some? then f.precision.value else 6);
      && Convert(h, 0x65, a, f).Some? && InField(Convert(h, 0x65, a, f).value, s, f)
      && Convert(h, 0x45, a, f).Some? && InField(Convert(h, 0x45, a, f).value, Upper(s), f)
      && Convert(h, 0x67, a, f) == Convert(h, 0x65, a, f) && Convert(h, 0x47, a, f) == Convert(h, 0x45, a, f)
  {
    var s := h.toExponential(a.long, Precision(f.precision));
    FieldFits(s, f);
    FieldFits(Upper(s), f);
  }

  /** Which arguments a printf conversion takes; everything else is refused. */
  predicate Takes(conv: nat, a: Arg) {
    if conv in {0x64, 0x69, 0x75, 0x78, 0x58, 0x63} then !a.Text? && !a.TextView?
    else if conv == 0x70 then a.Pointer? || a.Bits32?
    else if conv == 0x73 then a.Text? || a.TextView?
    else if conv in {0x66, 0x46, 0x65, 0x45, 0x67, 0x47} then a.Bits64?
    else false
  }

  lemma TakesExactly(h: Host, conv: nat, a: Arg, f: Field)
    ensures Convert(h, conv, a, f).Some? <==> Takes(conv, a)
  {
  }

  // --- fmt -----------------------------------------------------------------

  /** The text as padded for a placeholder. */
  predicate InPlace(r: Units, s: Units, spec: Spec) {
    && |r| == (if spec.width <= |s| then |s| else spec.width)
    && (if spec.align == Some(60) then Padded(r, s, 0, spec.fill)
        else if spec.align == Some(94) then Padded(r, s, (|r| - |s|) / 2, spec.fill)
        else if spec.zero then ZeroPadded(r, s, true)
        else Padded(r, s, |r| - |s|, spec.fill))
  }

  ghost predicate IntegerPlace(r: Option<Units>, spec: Spec, v: int, base: nat, upper: bool, lead: Units) {
    r.Some? && exists s ::
      Shows(s, v, base, upper, lead, spec.sign == Some(43), spec.sign == Some(32)) && InPlace(r.value, s, spec)
  }

  /** The value that a signed presentation shows: two's complement of the argument's own width, see SignedValue. */
  predicate SignedNumeric(a: Arg, v: int) {
    || (a.Bits32? && v == Wrapped32(a.word))
    || (a.Pointer? && v == Wrapped32(a.address))
    || (a.Bits64? && v == SignedValue(a.long))
  }

  function Wrapped32(n: nat): int {
    var m := n % 0x1_0000_0000;
    if m < 0x8000_0000 then m else m - 0x1_0000_0000
  }

  /** The value that an unsigned presentation shows: pointers are cut to 32 bits as well. */
  predicate UnsignedNumeric(a: Arg, v: nat) {
    || (a.Bits32? && v == a.word % 0x1_0000_0000)
    || (a.Pointer? && v == a.address % 0x1_0000_0000)
    || (a.Bits64? && v == a.long)
  }

  /** The prefix of the alternate form. */
  function AlternateLead(spec: Spec, base: nat, upper: bool, v: nat): Units {
    if !spec.alternate then []
    else if base == 16 then (if upper then [48, 88] else [48, 120])
    else if base == 8 then (if v == 0 then [] else [48])
    else if base == 2 then (if upper then [48, 66] else [48, 98])
    else []
  }

  lemma PlaceShows(s: Units, spec: Spec, v: int, base: nat, upper: bool, lead: Units)
    requires Shows(s, v, base, upper, lead, spec.sign == Some(43), spec.sign == Some(32))
    ensures IntegerPlace(Some(FmtPad(s, spec)), spec, v, base, upper, lead)
  {
    PlaceFits(s, spec);
  }

  lemma PlaceFits(s: Units, spec: Spec)
    ensures InPlace(FmtPad(s, spec), s, spec)
  {
    FmtPadMeaning(s, spec);
  }

  lemma FieldFits(s: Units, f: Field)
    ensures InField(PadString(s, f.width, f.flags), s, f)
  {
    PadMeaning(s, f.width, f.flags);
  }

  lemma SignedIs(a: Arg, spec: Spec, v: int)
    requires SignedNumeric(a, v)
    ensures FmtInt(a, 10, false, spec, false)
      == Some(FmtPad(WithSign(ToText(v, 10), spec.sign == Some(43), spec.sign == Some(32)), spec))
  {
    assert Shown(a, IntOf(a).value, 10, false) == v;
  }

  lemma SignedPlace(a: Arg, spec: Spec, v: int)
    requires SignedNumeric(a, v)
    ensures IntegerPlace(FmtInt(a, 10, false, spec, false), spec, v, 10, false, [])
  {
    var s := WithSign(ToText(v, 10), spec.sign == Some(43), spec.sign == Some(32));
    SignedText(v, spec.sign == Some(43), spec.sign == Some(32));
    PlaceShows(s, spec, v, 10, false, []);
    SignedIs(a, spec, v);
  }

  lemma UnsignedIs(a: Arg, base: nat, unsigned: bool, spec: Spec, upper: bool, v: nat)
    requires base in {2, 8, 10, 16} && (unsigned || base != 10) && UnsignedNumeric(a, v)
    ensures var digits := if upper then Upper(Digits(v, base)) else Digits(v, base);
      var s := WithSign(AlternateLead(spec, base, upper, v) + digits, spec.sign == Some(43), spec.sign == Some(32));
      FmtInt(a, base, unsigned, spec, upper) == Some(FmtPad(s, spec))
  {
    var digits := if upper then Upper(Digits(v, base)) else Digits(v, base);
    assert Ascii("0x") == [48, 120] && Ascii("0X") == [48, 88] && Ascii("0b") == [48, 98] && Ascii("0B") == [48, 66];
    assert [] + digits == digits;
    FirstDigit(v, base);
    assert Shown(a, IntOf(a).value, base, unsigned) == v;
  }

  lemma FirstDigit(v: nat, base: nat)
    requires 2 <= base <= 36
    ensures Digits(v, base)[0] == 48 <==> v == 0
    ensures Upper(Digits(v, base))[0] == 48 <==> v == 0
  {
    NoLeadingZero(v, base);
    DigitsSpell(v, base);
    assert DigitIn(Digits(v, base)[0], base, false);
  }

  lemma UnsignedPlace(a: Arg, base: nat, unsigned: bool, spec: Spec, upper: bool, v: nat)
    requires base in {2, 8, 10, 16} && (unsigned || base != 10) && UnsignedNumeric(a, v)
    ensures IntegerPlace(FmtInt(a, base, unsigned, spec, upper), spec, v, base, upper,
      AlternateLead(spec, base, upper, v))
  {
    var digits := if upper then Upper(Digits(v, base)) else Digits(v, base);
    var lead := AlternateLead(spec, base, upper, v);
    UnsignedIs(a, base, unsigned, spec, upper, v);
    LeadText(v, base, upper, lead, spec.sign == Some(43), spec.sign == Some(32));
    PlaceShows(WithSign(lead + digits, spec.sign == Some(43), spec.sign == Some(32)), spec, v, base, upper, lead);
  }

  /** `{:d}` and `{:i}` show the signed value. */
  lemma SignedPlaceholder(h: Host, a: Arg, spec: Spec, v: int)
    requires SignedNumeric(a, v)
    ensures spec.kind == Some(0x64) || spec.kind == Some(0x69) ==>
      IntegerPlace(RenderFmtArg(h, a, spec), spec, v, 10, false, [])
    ensures spec.kind.None? && a.Bits32? ==> IntegerPlace(RenderFmtArg(h, a, spec), spec, v, 10, false, [])
  {
    SignedPlace(a, spec, v);
  }

  /** `{:u}`, `{:x}`, `{:X}`, `{:o}`, `{:b}` and `{:B}` show the unsigned value in their base and case. */
  lemma UnsignedPlaceholder(h: Host, a: Arg, spec: Spec, v: nat)
    requires UnsignedNumeric(a, v) && spec.kind.Some?
    ensures spec.kind.value == 0x75 ==> IntegerPlace(RenderFmtArg(h, a, spec), spec, v, 10, false, [])
    ensures spec.kind.value == 0x78 ==>
      IntegerPlace(RenderFmtArg(h, a, spec), spec, v, 16, false, AlternateLead(spec, 16, false, v))
    ensures spec.kind.value == 0x58 ==>
      IntegerPlace(RenderFmtArg(h, a, spec), spec, v, 16, true, AlternateLead(spec, 16, true, v))
    ensures spec.kind.value == 0x6f ==>
      IntegerPlace(RenderFmtArg(h, a, spec), spec, v, 8, false, AlternateLead(spec, 8, false, v))
    ensures spec.kind.value == 0x62 ==>
      IntegerPlace(RenderFmtArg(h, a, spec), spec, v, 2, false, AlternateLead(spec, 2, false, v))
    ensures spec.kind.value == 0x42 ==>
      IntegerPlace(RenderFmtArg(h, a, spec), spec, v, 2, true, AlternateLead(spec, 2, true, v))
  {
    var k := spec.kind.value;
    if k == 0x75 {
      UnsignedPlace(a, 10, true, spec, false, v);
    } else if k == 0x78 || k == 0x58 {
      UnsignedPlace(a, 16, false, spec, k == 0x58, v);
    } else if k == 0x6f {
      UnsignedPlace(a, 8, false, spec, false, v);
    } else if k == 0x62 || k == 0x42 {
      UnsignedPlace(a, 2, false, spec, k == 0x42, v);
    }
  }

  /** `{}` of a 64-bit argument below 2^53 in magnitude, read as 64-bit two's complement, shows its signed value. */
  lemma SmallPlaceholder(h: Host, a: Arg, spec: Spec)
    requires a.Bits64? && spec.kind.None?
    requires a.long < 0x20_0000_0000_0000
      || 0x1_0000_0000_0000_0000 - 0x20_0000_0000_0000 < a.long < 0x1_0000_0000_0000_0000
    ensures IntegerPlace(RenderFmtArg(h, a, spec), spec, SignedValue(a.long), 10, false, [])
  {
    SignedPlace(a, spec, SignedValue(a.long));
  }

  /** `{}` of a string shows it, `{:s}` its first units. */
  lemma TextPlaceholder(h: Host, a: Arg, spec: Spec)
    requires a.Text? || a.TextView?
    ensures spec.kind.None? ==>
      RenderFmtArg(h, a, spec).Some? && InPlace(RenderFmtArg(h, a, spec).value, Characters(h, a), spec)
    ensures spec.kind == Some(0x73) ==>
      && RenderFmtArg(h, a, spec).Some?
      && InPlace(RenderFmtArg(h, a, spec).value, Cut(Characters(h, a), spec.precision), spec)
  {
    CharactersAre(h, a);
    PlaceFits(Characters(h, a), spec);
    PlaceFits(Cut(Characters(h, a), spec.precision), spec);
  }

  lemma PointerIs(h: Host, a: Arg, spec: Spec)
    requires spec.kind == Some(0x70) || (spec.kind.None? && a.Pointer?)
    ensures RenderFmtArg(h, a, spec) == PointerText(a)
  {
  }

  /** `{:p}`, and `{}` of a pointer, show at least eight hex digits. */
  lemma PointerPlaceholder(h: Host, a: Arg, spec: Spec, v: nat)
    requires UnsignedNumeric(a, v) && !a.Bits64? && (spec.kind == Some(0x70) || (spec.kind.None? && a.Pointer?))
    ensures PointerShows(RenderFmtArg(h, a, spec), v)
  {
    PointerIs(h, a, spec);
    PointerMeaning(a, v);
  }

  /** `{:c}` shows the low byte. */
  lemma CharPlaceholder(h: Host, a: Arg, spec: Spec, v: nat)
    requires Numeric(a, v) && spec.kind == Some(0x63)
    ensures RenderFmtArg(h, a, spec) == Some([h.number(v) % 256])
  {
  }

  /** A 64-bit argument that `{}` takes for a float: large, with a plausible exponent, and not an integer as one. */
  predicate PlausibleFloat(h: Host, bits: nat) {
    var signed := if bits < 0x8000_0000_0000_0000 then bits else bits - 0x1_0000_0000_0000_0000;
    var exponent := (bits / 0x10_0000_0000_0000) % 0x800;
    (signed >= 0x20_0000_0000_0000 || signed <= -0x20_0000_0000_0000) && 0x300 <= exponent <= 0x500 &&
      !h.isInteger(bits)
  }

  /** Sign and exponent in the high bits, fraction in the low 52: an infinity has all exponent bits and no fraction. */
  lemma InfinityBits(bits: nat)
    requires bits < 0x1_0000_0000_0000_0000
    ensures bits == INFINITY_BITS || bits == INFINITY_BITS + TWO63
      <==> (bits / 0x10_0000_0000_0000) % 0x800 == 0x7ff && bits % 0x10_0000_0000_0000 == 0
  {
    var q := bits / 0x10_0000_0000_0000;
    assert bits == 0x10_0000_0000_0000 * q + bits % 0x10_0000_0000_0000;
    assert q < 0x1000;
    assert q % 0x800 == 0x7ff <==> q == 0x7ff || q == 0xfff;
  }

  /** `{}` of any other 64-bit argument: as a float if it is plausible as one, else its signed value. */
  lemma LargePlaceholder(h: Host, a: Arg, spec: Spec)
    requires a.Bits64? && spec.kind.None?
    requires 0x20_0000_0000_0000 <= a.long <= 0x1_0000_0000_0000_0000 - 0x20_0000_0000_0000
    ensures var exponent, fraction := (a.long / 0x10_0000_0000_0000) % 0x800, a.long % 0x10_0000_0000_0000;
      var r := RenderFmtArg(h, a, spec);
      if exponent == 0x7ff then
        r.Some? && InPlace(r.value, NotFinite(fraction != 0, a.long >= 0x8000_0000_0000_0000), spec)
      else if 0x300 <= exponent <= 0x500 && !h.isInteger(a.long) then
        var s := h.toPrecision(a.long, 6);
        (r.Some? <==> s.Some?) && (r.Some? ==> ShownPlain(r.value, s.value, spec))
      else IntegerPlace(r, spec, SignedValue(a.long), 10, false, [])
  {
    var exponent := (a.long / 0x10_0000_0000_0000) % 0x800;
    InfinityBits(a.long);
    DefaultIs(h, a, spec);
    if exponent == 0x7ff {
      PlaceFits(NotFinite(a.long % 0x10_0000_0000_0000 != 0, a.long >= 0x8000_0000_0000_0000), spec);
    } else if 0x300 <= exponent <= 0x500 && !h.isInteger(a.long) {
      if h.toPrecision(a.long, 6).Some? { PlainFits(h.toPrecision(a.long, 6).value, spec); }
    } else {
      SignedPlace(a, spec, SignedValue(a.long));
    }
  }

  /** nan, -inf or inf. */
  function NotFinite(nan: bool, negative: bool): Units {
    if nan then [110, 97, 110] else if negative then [45, 105, 110, 102] else [105, 110, 102]
  }

  lemma DefaultIs(h: Host, a: Arg, spec: Spec)
    requires a.Bits64? && spec.kind.None?
    requires 0x20_0000_0000_0000 <= a.long <= 0x1_0000_0000_0000_0000 - 0x20_0000_0000_0000
    ensures var exponent, fraction := (a.long / 0x10_0000_0000_0000) % 0x800, a.long % 0x10_0000_0000_0000;
      RenderFmtArg(h, a, spec) ==
        if exponent == 0x7ff then
          Some(FmtPad(NotFinite(fraction != 0, a.long >= 0x8000_0000_0000_0000), spec))
        else if 0x300 <= exponent <= 0x500 && !h.isInteger(a.long) then
          var s := h.toPrecision(a.long, 6);
          if s.None? then None else Some(FmtPad(TrimFloat(s.value), spec))
        else FmtInt(a, 10, false, spec, false)
  {
    InfinityBits(a.long);
    assert Ascii("nan") == [110, 97, 110] && Ascii("inf") == [105, 110, 102] && Ascii("-inf") == [45, 105, 110, 102];
    assert RenderFmtArg(h, a, spec) == FmtDefault64(h, a, spec);
  }

  /** Shortened, unless it has an exponent. */
  ghost predicate ShownPlain(r: Units, s: Units, spec: Spec) {
    exists t :: InPlace(r, t, spec) && (if 101 in s || 69 in s then t == s else Shortened(t, s))
  }

  lemma PlainFits(s: Units, spec: Spec)
    ensures ShownPlain(FmtPad(TrimFloat(s), spec), s, spec)
  {
    TrimMeaning(s);
    PlaceFits(TrimFloat(s), spec);
  }

  /** A decimal fraction without the zeros at its end and without a dot left bare; other texts stay as they are. */
  ghost predicate Shortened(r: Units, s: Units) {
    if 46 !in s then r == s
    else
      exists zeros: nat ::
        || (s == r + Repeat(48, zeros) && (r == [] || r[|r| - 1] !in {46, 48}))
        || s == r + [46] + Repeat(48, zeros)
  }

  lemma {:induction false} ZerosDropped(s: Units) returns (zeros: nat)
    ensures s == DropZeros(s) + Repeat(48, zeros)
    ensures DropZeros(s) == [] || DropZeros(s)[|DropZeros(s)| - 1] != 48
    decreases |s|
  {
    if s != [] && s[|s| - 1] == 48 {
      var n := ZerosDropped(s[..|s| - 1]);
      zeros := n + 1;
      assert Repeat(48, zeros) == Repeat(48, n) + [48];
      Assoc(DropZeros(s), Repeat(48, n), [48]);
    } else {
      zeros := 0;
      assert Repeat(48, 0) == [];
    }
  }

  lemma DotStays(t: Units, zeros: nat)
    ensures 46 in t + Repeat(48, zeros) <==> 46 in t
  {
    if 46 in t {
      var i :| 0 <= i < |t| && t[i] == 46;
      assert (t + Repeat(48, zeros))[i] == 46;
    }
  }

  lemma TrimMeaning(s: Units)
    ensures Shortened(Trimmed(s), s)
  {
    if 46 in s {
      var zeros := ZerosDropped(s);
      var t, r := DropZeros(s), Trimmed(s);
      DotStays(t, zeros);
      if t[|t| - 1] == 46 { assert t == r + [46]; }
    }
  }

  /**
   * What the float presentations show before padding: a plus if asked for, and a dot if the alternate form lacks
   * one.
   */
  function Pointed(s: Units, spec: Spec): Units {
    var t := if spec.sign == Some(43) && !(s != [] && s[0] == 45) then [43] + s else s;
    if spec.alternate && 46 !in t then t + [46] else t
  }

  ghost predicate ShownShortened(r: Units, s: Units, spec: Spec) {
    exists t :: Shortened(t, s) && InPlace(r, Pointed(t, spec), spec)
  }

  lemma FloatIs(h: Host, kind: nat, a: Arg, spec: Spec)
    requires a.Bits64? && kind in {0x66, 0x46, 0x65, 0x45, 0x67, 0x47}
    ensures var p := if spec.precision.Some? then spec.precision.value else 6;
      FmtFloat(h, kind, a, spec) ==
        if kind in {0x66, 0x46} then Some(FmtPad(Pointed(h.toFixed(a.long, p), spec), spec))
        else if kind in {0x65, 0x45} then Some(FmtPad(Pointed(h.toExponential(a.long, p), spec), spec))
        else
          var s := h.toPrecision(a.long, p);
          if s.None? then None else Some(FmtPad(Pointed(Trimmed(s.value), spec), spec))
  {
  }

  lemma ShownAsFloat(h: Host, a: Arg, spec: Spec)
    requires spec.kind.Some? && spec.kind.value in {0x66, 0x46, 0x65, 0x45, 0x67, 0x47}
    ensures RenderFmtArg(h, a, spec) == FmtFloat(h, spec.kind.value, a, spec)
  {
  }

  /** `{:f}` and `{:e}` show the host's text for the precision or six digits. */
  lemma FloatPlaceholder(h: Host, a: Arg, spec: Spec)
    requires a.Bits64? && spec.kind in {Some(0x66), Some(0x46), Some(0x65), Some(0x45)}
    ensures var p := if spec.precision.Some? then spec.precision.value else 6;
      var s := if spec.kind in {Some(0x66), Some(0x46)} then h.toFixed(a.long, p) else h.toExponential(a.long, p);
      var r := RenderFmtArg(h, a, spec);
      r.Some? && InPlace(r.value, Pointed(s, spec), spec)
  {
    var k, p := spec.kind.value, Precision(spec.precision);
    var s := if k in {0x66, 0x46} then h.toFixed(a.long, p) else h.toExponential(a.long, p);
    FloatIs(h, k, a, spec);
    ShownAsFloat(h, a, spec);
    PlaceFits(Pointed(s, spec), spec);
  }

  lemma GeneralIs(h: Host, a: Arg, spec: Spec)
    requires a.Bits64? && spec.kind in {Some(0x67), Some(0x47)}
    ensures var s := h.toPrecision(a.long, if spec.precision.Some? then spec.precision.value else 6);
      RenderFmtArg(h, a, spec) == if s.None? then None else Some(FmtPad(Pointed(Trimmed(s.value), spec), spec))
  {
    FloatIs(h, spec.kind.value, a, spec);
    ShownAsFloat(h, a, spec);
  }

  lemma GeneralFits(s: Units, spec: Spec)
    ensures ShownShortened(FmtPad(Pointed(Trimmed(s), spec), spec), s, spec)
  {
    TrimMeaning(s);
    PlaceFits(Pointed(Trimmed(s), spec), spec);
  }

  /** `{:g}` shows the host's text for the precision or six digits, shortened. */
  lemma GeneralPlaceholder(h: Host, a: Arg, spec: Spec)
    requires a.Bits64? && spec.kind in {Some(0x67), Some(0x47)}
    ensures var s := h.toPrecision(a.long, if spec.precision.Some? then spec.precision.value else 6);
      var r := RenderFmtArg(h, a, spec);
      (r.Some? <==> s.Some?) && (r.Some? ==> ShownShortened(r.value, s.value, spec))
  {
    var s := h.toPrecision(a.long, Precision(spec.precision));
    GeneralIs(h, a, spec);
    if s.Some? { GeneralFits(s.value, spec); }
  }

  /** Which arguments a placeholder refuses for their type or its presentation; `g` also if the host cannot print it. */
  predicate Refuses(h: Host, a: Arg, spec: Spec) {
    if spec.kind.None? then a.Bits64? && PlausibleFloat(h, a.long) && h.toPrecision(a.long, 6).None?
    else
      var k := spec.kind.value;
      if k in {0x64, 0x69, 0x75, 0x78, 0x58, 0x6f, 0x62, 0x42, 0x63} then a.Text? || a.TextView?
      else if k == 0x73 then false
      else if k == 0x70 then !a.Pointer? && !a.Bits32?
      else if k in {0x66, 0x46, 0x65, 0x45} then !a.Bits64?
      else if k in {0x67, 0x47} then
        !a.Bits64? || h.toPrecision(a.long, if spec.precision.Some? then spec.precision.value else 6).None?
      else true
  }

  lemma RefusesExactly(h: Host, a: Arg, spec: Spec)
    ensures RenderFmtArg(h, a, spec).None? <==> Refuses(h, a, spec)
  {
  }
}
