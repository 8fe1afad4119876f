/**
 * Whole placeholders of the log renderer: a placeholder written out from its
 * specification is read back to it, and rendering it shows the argument as
 * `RenderValues` says, unless the output limit is exceeded.
 */
module RenderPlaces {
  import opened Bytes
  import opened Numerals
  import opened On9logPacket
  import opened Render
  import opened RenderValues
  import opened RenderFormats

  // --- A specification as written ------------------------------------------

  /** Digits, or an empty nested placeholder for the next argument. */
  function AmountText(n: Amount): Units {
    match n
    case Given(k) => Digits(k, 10)
    case FromArgument => [123, 125]
  }

  function KindText(kind: Option<nat>): Units { if kind.None? then [] else [kind.value] }

  /** Precision and presentation. */
  function PointText(precision: Option<Amount>, kind: Option<nat>): Units {
    (if precision.None? then [] else [46] + AmountText(precision.value)) + KindText(kind)
  }

  /** Width, precision and presentation. */
  function TailText(width: Amount, precision: Option<Amount>, kind: Option<nat>): Units {
    (if width == Given(0) then [] else AmountText(width)) + PointText(precision, kind)
  }

  function AlignText(spec: Spec): Units { if spec.align.None? then [] else [spec.fill, spec.align.value] }

  function SignText(spec: Spec): Units { if spec.sign.None? then [] else [spec.sign.value] }

  function HashText(spec: Spec): Units { if spec.alternate then [35] else [] }

  function ZeroText(spec: Spec): Units { if spec.zero then [48] else [] }

  /** Fill and alignment, sign, alternate form and zeros, in that order after the colon. */
  function PrefixText(spec: Spec, tail: Units): Units {
    [58] + (AlignText(spec) + (SignText(spec) + (HashText(spec) + (ZeroText(spec) + tail))))
  }

  predicate AnyLetter(c: nat) { 65 <= c <= 90 || 97 <= c <= 122 }

  predicate Written(spec: Spec) {
    && (if spec.align.None? then spec.fill == 32 else spec.align.value in {60, 62, 94})
    && (spec.sign.Some? ==> spec.sign.value in {43, 45, 32})
    && (spec.kind.Some? ==> AnyLetter(spec.kind.value))
  }

  lemma AlignReads(spec: Spec, s: Units)
    requires Written(spec) && (spec.align.None? ==> NoAlign(s))
    ensures ReadAlign(AlignText(spec) + s) == (Spec(spec.fill, spec.align, None, false, false, 0, None, None), s)
  {
    Rest(AlignText(spec), s);
  }

  lemma SignReads(a: Spec, spec: Spec, s: Units)
    requires Written(spec) && a.sign.None? && (s != [] ==> s[0] !in {43, 45, 32})
    ensures ReadSign(a, SignText(spec) + s) == (a.(sign := spec.sign), s)
  {
    Rest(SignText(spec), s);
  }

  lemma HashReads(a: Spec, spec: Spec, s: Units)
    requires !a.alternate && !StartsWith(s, 35)
    ensures ReadHash(a, HashText(spec) + s) == (a.(alternate := spec.alternate), s)
  {
    Rest(HashText(spec), s);
  }

  lemma ZeroReads(a: Spec, spec: Spec, s: Units)
    requires !a.zero && !StartsWith(s, 48)
    ensures ReadZero(a, ZeroText(spec) + s) == (a.(zero := spec.zero), s)
  {
    Rest(ZeroText(spec), s);
  }

  /** The prefix of a specification is read back, in front of a text that cannot continue it. */
  lemma PrefixReads(spec: Spec, tail: Units)
    requires Written(spec) && NoMarks(tail)
    ensures ReadPrefix(PrefixText(spec, tail)) == (spec.(width := 0, precision := None, kind := None), tail)
  {
    var s3 := ZeroText(spec) + tail;
    var s2 := HashText(spec) + s3;
    var s1 := SignText(spec) + s2;
    assert PrefixText(spec, tail)[1..] == AlignText(spec) + s1;
    SignsNoAlign(spec, tail);
    Firsts(spec, tail);
    var a := Spec(spec.fill, spec.align, None, false, false, 0, None, None);
    AlignReads(spec, s1);
    SignReads(a, spec, s2);
    HashReads(a.(sign := spec.sign), spec, s3);
    ZeroReads(a.(sign := spec.sign, alternate := spec.alternate), spec, tail);
  }

  lemma Firsts(spec: Spec, tail: Units)
    requires NoMarks(tail)
    ensures var s3 := ZeroText(spec) + tail;
      var s2 := HashText(spec) + s3;
      !StartsWith(s3, 35) && (s2 != [] ==> s2[0] !in {43, 45, 32})
  {
  }

  lemma Rest(a: Units, s: Units)
    ensures (a + s)[|a|..] == s && (a == [] ==> a + s == s) && (a != [] ==> (a + s)[0] == a[0])
  {
  }

  /** Nothing that could be an alignment, and no sign, hash or zero first. */
  predicate NoMarks(s: Units) {
    NoAlign(s) && (s != [] ==> s[0] !in {43, 45, 32, 35, 48})
  }

  predicate NoAlign(s: Units) { forall i :: 0 <= i < |s| ==> !IsAlign(s[i]) }

  lemma NoAlignJoin(s: Units, t: Units)
    requires NoAlign(s) && NoAlign(t)
    ensures NoAlign(s + t)
  {
  }

  lemma SignsNoAlign(spec: Spec, tail: Units)
    requires Written(spec) && NoAlign(tail)
    ensures NoAlign(SignText(spec) + (HashText(spec) + (ZeroText(spec) + tail)))
  {
    NoAlignJoin(ZeroText(spec), tail);
    NoAlignJoin(HashText(spec), ZeroText(spec) + tail);
    NoAlignJoin(SignText(spec), HashText(spec) + (ZeroText(spec) + tail));
  }

  lemma DigitsNoAlign(n: nat)
    ensures NoAlign(Digits(n, 10))
  {
    DigitsRun(n);
    forall i | 0 <= i < |Digits(n, 10)| ensures !IsAlign(Digits(n, 10)[i]) {
      assert Is(Decimals, Digits(n, 10)[i]);
    }
  }

  lemma AmountNoAlign(n: Amount)
    ensures NoAlign(AmountText(n)) && |AmountText(n)| > 0
    ensures n != Given(0) ==> AmountText(n)[0] !in {43, 45, 32, 35, 48}
  {
    if n.Given? {
      DigitsNoAlign(n.n);
      DigitsRun(n.n);
      assert Is(Decimals, Digits(n.n, 10)[0]);
    }
  }

  lemma TailNoMarks(width: Amount, precision: Option<Amount>, kind: Option<nat>)
    requires kind.Some? ==> AnyLetter(kind.value)
    ensures NoMarks(TailText(width, precision, kind))
  {
    AmountNoAlign(width);
    var point := if precision.None? then [] else [46] + AmountText(precision.value);
    if precision.Some? { AmountNoAlign(precision.value); }
    assert NoAlign(point);
    NoAlignJoin(point, if kind.None? then [] else [kind.value]);
    var w := if width == Given(0) then [] else AmountText(width);
    NoAlignJoin(w, PointText(precision, kind));
  }

  // --- Amounts read back ---------------------------------------------------

  /** A width or precision as written is what `TakeAmount` supplies, and the text after it is left. */
  lemma AmountReads(e: Engine, n: Amount, t: Units, args: seq<Arg>, st: State)
    requires Ends(t, Decimals)
    ensures var r := TakeAmount(e, n, args, st);
      ReadAmount(e, AmountText(n) + t, args, st) == if r.None? then None else Some((r.value.0, t, r.value.1))
  {
    var s := AmountText(n) + t;
    match n
    case Given(k) =>
      DigitsRun(k);
      assert Is(Decimals, s[0]);
      CountRun(Digits(k, 10), t, Decimals);
      assert s[..|Digits(k, 10)|] == Digits(k, 10) && s[|Digits(k, 10)|..] == t;
    case FromArgument =>
      assert s[1..][0] == CLOSE && IndexOf(s[1..], CLOSE) == Some(0);
      assert s[1..1] == [] && s[2..] == t;
  }

  lemma NoAmount(e: Engine, t: Units, args: seq<Arg>, st: State)
    requires Ends(t, Decimals) && !StartsWith(t, OPEN)
    ensures ReadAmount(e, t, args, st) == Some((0, t, st))
  {
    assert t[..0] == [] && t[0..] == t;
  }

  /** What a specification asks for once its width and precision are known. */
  function Filled(spec: Spec, width: nat, precision: Option<nat>): Option<Spec> {
    if width <= 4096 && (precision.Some? ==> precision.value <= 100)
    then Some(spec.(width := width, precision := precision)) else None
  }

  lemma WidthPart(e: Engine, width: Amount, t: Units, args: seq<Arg>, st: State)
    requires Ends(t, Decimals) && !StartsWith(t, OPEN)
    ensures var r := TakeAmount(e, width, args, st);
      ReadAmount(e, (if width == Given(0) then [] else AmountText(width)) + t, args, st)
        == if r.None? then None else Some((r.value.0, t, r.value.1))
  {
    if width == Given(0) {
      NoAmount(e, t, args, st);
      assert [] + t == t;
    } else {
      AmountReads(e, width, t, args, st);
    }
  }

  lemma KindEnds(precision: Option<Amount>, kind: Option<nat>)
    requires kind.Some? ==> AnyLetter(kind.value)
    ensures var t := PointText(precision, kind); Ends(t, Decimals) && !StartsWith(t, OPEN)
    ensures Ends(KindText(kind), Decimals) && (precision.None? ==> !StartsWith(PointText(precision, kind), DOT))
    ensures precision.None? ==> PointText(precision, kind) == KindText(kind)
    ensures precision.Some? ==>
      StartsWith(PointText(precision, kind), DOT)
      && PointText(precision, kind)[1..] == AmountText(precision.value) + KindText(kind)
  {
  }

  lemma ParsesPlain(e: Engine, raw: Units, args: seq<Arg>, st: State,
      bare: Spec, s: Units, n: nat, st1: State, kind: Option<nat>)
    requires e.prefix(raw) == (bare, s) && bare.kind.None? && bare.precision.None?
    requires ReadAmount(e, s, args, st) == Some((n, KindText(kind), st1)) && !StartsWith(KindText(kind), DOT)
    ensures var full := Filled(bare.(kind := kind), n, None);
      ParseFmtSpec(e, raw, args, st) == if full.None? then None else Some((full.value, st1))
  {
  }

  lemma ParsesPrecise(e: Engine, raw: Units, args: seq<Arg>, st: State,
      bare: Spec, s: Units, n: nat, s1: Units, st1: State, p: nat, st2: State, kind: Option<nat>)
    requires e.prefix(raw) == (bare, s) && bare.kind.None? && bare.precision.None?
    requires ReadAmount(e, s, args, st) == Some((n, s1, st1)) && StartsWith(s1, DOT)
    requires ReadAmount(e, s1[1..], args, st1) == Some((p, KindText(kind), st2))
    ensures var full := Filled(bare.(kind := kind), n, Some(p));
      ParseFmtSpec(e, raw, args, st) == if full.None? then None else Some((full.value, st2))
  {
  }

  lemma HeadReadBack(e: Engine, spec: Spec, width: Amount, precision: Option<Amount>, args: seq<Arg>, st: State)
    requires Written(spec) && TakeAmount(e, width, args, st).Some?
    ensures var tail := TailText(width, precision, spec.kind);
      var (n, st1) := TakeAmount(e, width, args, st).value;
      && ReadPrefix(PrefixText(spec, tail)) == (spec.(width := 0, precision := None, kind := None), tail)
      && ReadAmount(e, tail, args, st) == Some((n, PointText(precision, spec.kind), st1))
  {
    TailNoMarks(width, precision, spec.kind);
    PrefixReads(spec, TailText(width, precision, spec.kind));
    KindEnds(precision, spec.kind);
    WidthPart(e, width, PointText(precision, spec.kind), args, st);
  }

  lemma PlainReadBack(e: Engine, spec: Spec, width: Amount, args: seq<Arg>, st: State)
    requires Written(spec) && TakeAmount(e, width, args, st).Some?
    requires var raw := PrefixText(spec, TailText(width, None, spec.kind)); e.prefix(raw) == ReadPrefix(raw)
    ensures var (n, st1) := TakeAmount(e, width, args, st).value;
      var full := Filled(spec, n, None);
      ParseFmtSpec(e, PrefixText(spec, TailText(width, None, spec.kind)), args, st)
        == if full.None? then None else Some((full.value, st1))
  {
    var tail := TailText(width, None, spec.kind);
    HeadReadBack(e, spec, width, None, args, st);
    KindEnds(None, spec.kind);
    var (n, st1) := TakeAmount(e, width, args, st).value;
    ParsesPlain(e, PrefixText(spec, tail), args, st, spec.(width := 0, precision := None, kind := None), tail, n, st1,
      spec.kind);
  }

  lemma PointReads(e: Engine, precision: Amount, kind: Option<nat>, args: seq<Arg>, st: State)
    requires TakeAmount(e, precision, args, st).Some? && (kind.Some? ==> AnyLetter(kind.value))
    ensures var point := PointText(Some(precision), kind);
      var (p, st1) := TakeAmount(e, precision, args, st).value;
      StartsWith(point, DOT) && ReadAmount(e, point[1..], args, st) == Some((p, KindText(kind), st1))
  {
    KindEnds(Some(precision), kind);
    AmountReads(e, precision, KindText(kind), args, st);
  }

  lemma PreciseReadBack(e: Engine, spec: Spec, width: Amount, precision: Amount, args: seq<Arg>, st: State)
    requires Written(spec) && TakeAmount(e, width, args, st).Some?
    requires TakeAmount(e, precision, args, TakeAmount(e, width, args, st).value.1).Some?
    requires var raw := PrefixText(spec, TailText(width, Some(precision), spec.kind)); e.prefix(raw) == ReadPrefix(raw)
    ensures var (n, st1) := TakeAmount(e, width, args, st).value;
      var (p, st2) := TakeAmount(e, precision, args, st1).value;
      var full := Filled(spec, n, Some(p));
      ParseFmtSpec(e, PrefixText(spec, TailText(width, Some(precision), spec.kind)), args, st)
        == if full.None? then None else Some((full.value, st2))
  {
    var tail, point := TailText(width, Some(precision), spec.kind), PointText(Some(precision), spec.kind);
    HeadReadBack(e, spec, width, Some(precision), args, st);
    var (n, st1) := TakeAmount(e, width, args, st).value;
    PointReads(e, precision, spec.kind, args, st1);
    var (p, st2) := TakeAmount(e, precision, args, st1).value;
    ParsesPrecise(e, PrefixText(spec, tail), args, st, spec.(width := 0, precision := None, kind := None), tail, n,
      point, st1, p, st2, spec.kind);
  }

  /** A specification as written is read back: its amounts are literal or the next arguments. */
  lemma SpecReadBack(h: Host, spec: Spec, width: Amount, precision: Option<Amount>, args: seq<Arg>, st: State)
    requires Written(spec) && TakeAmount(Standard(h), width, args, st).Some?
    requires precision.Some? ==>
      TakeAmount(Standard(h), precision.value, args, TakeAmount(Standard(h), width, args, st).value.1).Some?
    ensures var (n, st1) := TakeAmount(Standard(h), width, args, st).value;
      var (p, st2) := if precision.None? then (None, st1)
        else var r := TakeAmount(Standard(h), precision.value, args, st1).value; (Some(r.0), r.1);
      var full := Filled(spec, n, p);
      ParseFmtSpec(Standard(h), PrefixText(spec, TailText(width, precision, spec.kind)), args, st)
        == if full.None? then None else Some((full.value, st2))
  {
    if precision.None? {
      PlainReadBack(Standard(h), spec, width, args, st);
    } else {
      PreciseReadBack(Standard(h), spec, width, precision.value, args, st);
    }
  }

  // --- Braces around a specification ---------------------------------------

  /** The search for the closing brace goes on behind this text at the same depth. */
  ghost predicate Passes(s: Units) {
    forall t: Units, depth: nat {:trigger FindClosing(s + t, depth)} ::
      FindClosing(s + t, depth) == Later(FindClosing(t, depth), |s|)
  }

  predicate NoBrace(s: Units) { forall i :: 0 <= i < |s| ==> s[i] != OPEN && s[i] != CLOSE }

  lemma {:induction false} FindsBehind(s: Units, t: Units, depth: nat)
    requires NoBrace(s)
    ensures FindClosing(s + t, depth) == Later(FindClosing(t, depth), |s|)
    decreases |s|
  {
    if s == [] {
      assert s + t == t;
    } else {
      assert (s + t)[1..] == s[1..] + t;
      FindsBehind(s[1..], t, depth);
    }
  }

  lemma NoBracePasses(s: Units)
    requires NoBrace(s)
    ensures Passes(s)
  {
    forall t: Units, depth: nat ensures FindClosing(s + t, depth) == Later(FindClosing(t, depth), |s|) {
      FindsBehind(s, t, depth);
    }
  }

  lemma NestedPasses()
    ensures Passes([123, 125])
  {
    forall t: Units, depth: nat ensures FindClosing([123, 125] + t, depth) == Later(FindClosing(t, depth), 2) {
      var s := [123, 125] + t;
      assert s[1..] == [125] + t && s[1..][1..] == t;
      assert FindClosing(s[1..], depth + 1) == Later(FindClosing(t, depth), 1);
    }
  }

  lemma PassesJoin(s: Units, t: Units)
    requires Passes(s) && Passes(t)
    ensures Passes(s + t)
  {
    forall u: Units, depth: nat ensures FindClosing(s + t + u, depth) == Later(FindClosing(u, depth), |s + t|) {
      Assoc(s, t, u);
      PassesBehind(s, t + u, depth);
      PassesBehind(t, u, depth);
    }
  }

  lemma PassesBehind(s: Units, t: Units, depth: nat)
    requires Passes(s)
    ensures FindClosing(s + t, depth) == Later(FindClosing(t, depth), |s|)
  {
  }

  lemma AmountPasses(n: Amount)
    ensures Passes(AmountText(n))
  {
    match n
    case Given(k) =>
      DigitsRun(k);
      forall i | 0 <= i < |Digits(k, 10)| ensures Digits(k, 10)[i] != OPEN && Digits(k, 10)[i] != CLOSE {
        assert Is(Decimals, Digits(k, 10)[i]);
      }
      NoBracePasses(Digits(k, 10));
    case FromArgument => NestedPasses();
  }

  lemma TailPasses(width: Amount, precision: Option<Amount>, kind: Option<nat>)
    requires kind.Some? ==> AnyLetter(kind.value)
    ensures Passes(TailText(width, precision, kind))
  {
    NoBracePasses([]);
    AmountPasses(width);
    NoBracePasses([46]);
    if precision.Some? {
      AmountPasses(precision.value);
      PassesJoin([46], AmountText(precision.value));
    }
    NoBracePasses(KindText(kind));
    PassesJoin(if precision.None? then [] else [46] + AmountText(precision.value), KindText(kind));
    PassesJoin(if width == Given(0) then [] else AmountText(width), PointText(precision, kind));
  }

  lemma PrefixPasses(spec: Spec, tail: Units)
    requires Written(spec) && spec.fill != OPEN && spec.fill != CLOSE && Passes(tail)
    ensures Passes(PrefixText(spec, tail))
  {
    var s3 := ZeroText(spec) + tail;
    var s2 := HashText(spec) + s3;
    var s1 := SignText(spec) + s2;
    NoBracePasses(ZeroText(spec));
    PassesJoin(ZeroText(spec), tail);
    NoBracePasses(HashText(spec));
    PassesJoin(HashText(spec), s3);
    NoBracePasses(SignText(spec));
    PassesJoin(SignText(spec), s2);
    NoBracePasses(AlignText(spec));
    PassesJoin(AlignText(spec), s1);
    NoBracePasses([58]);
    PassesJoin([58], AlignText(spec) + s1);
  }

  /** A placeholder whose content passes is one token. */
  lemma PlaceLexes(inner: Units, rest: Units)
    requires Passes(inner) && !StartsWith(inner, OPEN)
    ensures Lex([OPEN] + inner + [CLOSE] + rest) == Lexed(Place(inner), rest)
  {
    var s := [OPEN] + inner + [CLOSE] + rest;
    assert s[1..] == inner + ([CLOSE] + rest);
    assert FindClosing([CLOSE] + rest, 0) == Some(0);
    assert s[1..][..|inner|] == inner && s[1..][|inner| + 1..] == rest;
  }

  // --- Rendering one placeholder -------------------------------------------

  /** The arguments of a placeholder in order: its value, then its width and precision where they are nested. */
  function PlaceArgs(width: Amount, precision: Option<Amount>, a: Arg, w: Arg, p: Arg): seq<Arg> {
    [a] + (if width.FromArgument? then [w] else []) + (if precision == Some(FromArgument) then [p] else [])
  }

  function WidthOf(width: Amount, n: nat): nat { if width.Given? then width.n else n }

  /** What the placeholder asks for. */
  function Meant(h: Host, spec: Spec, width: Amount, precision: Option<Amount>, wv: nat, pv: nat): Option<Spec> {
    Filled(spec, WidthOf(width, h.number(wv)), PrecisionOf(precision, h.number(pv)))
  }

  /** Reading the width and the precision of a placeholder takes the arguments behind its own. */
  lemma PlaceTakes(h: Host, spec: Spec, width: Amount, precision: Option<Amount>, a: Arg, w: Arg, p: Arg, wv: nat,
      pv: nat)
    requires Written(spec)
    requires width.FromArgument? ==> Numeric(w, wv)
    requires precision == Some(FromArgument) ==> Numeric(p, pv)
    ensures var args := PlaceArgs(width, precision, a, w, p);
      var r := ParseFmtSpec(Standard(h), PrefixText(spec, TailText(width, precision, spec.kind)), args, Assign(START));
      var full := Meant(h, spec, width, precision, wv, pv);
      && (r.None? <==> full.None?)
      && (r.Some? ==> r.value.0 == full.value && r.value.1.next == |args| && r.value.1.out == [])
  {
    var args, e, st := PlaceArgs(width, precision, a, w, p), Standard(h), Assign(START);
    SupplyOf(h, width, w, wv, args, st);
    var st1 := TakeAmount(e, width, args, st).value.1;
    if precision.Some? { SupplyOf(h, precision.value, p, pv, args, st1); }
    SpecReadBack(h, spec, width, precision, args, st);
  }

  lemma SupplyOf(h: Host, n: Amount, w: Arg, v: nat, args: seq<Arg>, st: State)
    requires n.FromArgument? ==> st.next < |args| && args[st.next] == w && Numeric(w, v)
    ensures var r := TakeAmount(Standard(h), n, args, st);
      && r.Some? && r.value.0 == WidthOf(n, h.number(v)) && r.value.1.out == st.out
      && r.value.1.next == st.next + (if n.FromArgument? then 1 else 0)
  {
  }

  function PlaceText(spec: Spec, width: Amount, precision: Option<Amount>): Units {
    [OPEN] + PrefixText(spec, TailText(width, precision, spec.kind)) + [CLOSE]
  }

  /**
   * A placeholder as written, with the arguments for its nested width and precision behind its own, renders its
   * argument as specified: refused exactly when a width or precision exceeds its limit, the presentation refuses the
   * argument or the text exceeds the output limit.
   */
  lemma PlaceRenders(h: Host, spec: Spec, width: Amount, precision: Option<Amount>, a: Arg, w: Arg, p: Arg, wv: nat,
      pv: nat)
    requires Written(spec) && spec.fill != OPEN && spec.fill != CLOSE
    requires width.FromArgument? ==> Numeric(w, wv)
    requires precision == Some(FromArgument) ==> Numeric(p, pv)
    ensures var full := Meant(h, spec, width, precision, wv, pv);
      Render.Render(Standard(h), PlaceText(spec, width, precision), PlaceArgs(width, precision, a, w, p))
        == if full.None? then None else Limited(RenderFmtArg(h, a, full.value))
  {
    var e, args := Standard(h), PlaceArgs(width, precision, a, w, p);
    var inner, s := PrefixText(spec, TailText(width, precision, spec.kind)), PlaceText(spec, width, precision);
    TailPasses(width, precision, spec.kind);
    PrefixPasses(spec, TailText(width, precision, spec.kind));
    PlaceLexes(inner, []);
    assert s + [] == s;
    OneToken(e, s, Place(inner), args);
    NextTarget(inner);
    PlaceTakes(h, spec, width, precision, a, w, p, wv, pv);
    ShowsTaken(h, inner, 0, args, Assign(START), Meant(h, spec, width, precision, wv, pv));
  }

  lemma NextTarget(inner: Units)
    requires StartsWith(inner, COLON)
    ensures TargetOf(inner, START) == Target(inner, 0, Assign(START))
  {
  }

  /** What showing an argument puts out, once the specification is read and the text to show is known. */
  lemma ShowsText(e: Engine, raw: Units, index: nat, args: seq<Arg>, st: State, full: Option<Spec>, text: Option<Units>)
    requires index < |args| && (if full.None? then text.None? else e.show(args[index], full.value) == text)
    requires var r := ParseFmtSpec(e, raw, args, st);
      && (r.None? <==> full.None?)
      && (r.Some? ==> r.value.0 == full.value && r.value.1.out == [] && Complete(r.value.1, args))
    ensures var r := EvalAt(e, raw, index, args, st);
      && (r.None? <==> Limited(text).None?) && (r.Some? ==> r.value.out == text.value && Complete(r.value, args))
  {
    if text.Some? { assert [] + text.value == text.value; }
  }

  lemma ShowsTaken(h: Host, raw: Units, index: nat, args: seq<Arg>, st: State, full: Option<Spec>)
    requires index < |args|
    requires var r := ParseFmtSpec(Standard(h), raw, args, st);
      && (r.None? <==> full.None?)
      && (r.Some? ==> r.value.0 == full.value && r.value.1.out == [] && Complete(r.value.1, args))
    ensures var r := EvalAt(Standard(h), raw, index, args, st);
      var text := if full.None? then None else Limited(RenderFmtArg(h, args[index], full.value));
      && (r.None? <==> text.None?) && (r.Some? ==> r.value.out == text.value && Complete(r.value, args))
  {
    var text := if full.None? then None else RenderFmtArg(h, args[index], full.value);
    ShowsText(Standard(h), raw, index, args, st, full, text);
  }

  // --- Explicit indices and the empty placeholder --------------------------

  const BARE := Spec(32, None, None, false, false, 0, None, None)

  /** The specification after an index: nothing at all, or one with literal amounts. */
  function OwnText(spec: Spec): Units {
    if spec == BARE then []
    else PrefixText(spec, TailText(Given(spec.width), GivenOf(spec.precision), spec.kind))
  }

  function GivenOf(n: Option<nat>): Option<Amount> { if n.None? then None else Some(Given(n.value)) }

  predicate OwnSpec(spec: Spec) {
    && Written(spec) && spec.fill != OPEN && spec.fill != CLOSE && spec.width <= 4096
    && (spec.precision.Some? ==> spec.precision.value <= 100)
  }

  lemma OwnReadBack(h: Host, spec: Spec, args: seq<Arg>, st: State)
    requires OwnSpec(spec)
    ensures ParseFmtSpec(Standard(h), OwnText(spec), args, st) == Some((spec, st))
  {
    if spec == BARE {
      NoAmount(Standard(h), [], args, st);
    } else {
      SpecReadBack(h, spec, Given(spec.width), GivenOf(spec.precision), args, st);
    }
  }

  lemma OwnPasses(spec: Spec)
    requires OwnSpec(spec)
    ensures Passes(OwnText(spec)) && (OwnText(spec) == [] || OwnText(spec)[0] == COLON)
  {
    NoBracePasses([]);
    TailPasses(Given(spec.width), GivenOf(spec.precision), spec.kind);
    PrefixPasses(spec, TailText(Given(spec.width), GivenOf(spec.precision), spec.kind));
  }

  lemma IndexTarget(k: nat, raw: Units)
    requires raw == [] || raw[0] == COLON
    ensures TargetOf(Digits(k, 10) + raw, START) == Target(raw, k, START.(positional := true))
    ensures TargetOf(raw, START) == Target(raw, 0, Assign(START))
  {
    var inner := Digits(k, 10) + raw;
    DigitsRun(k);
    CountRun(Digits(k, 10), raw, Decimals);
    assert inner[..|Digits(k, 10)|] == Digits(k, 10) && inner[|Digits(k, 10)|..] == raw;
  }

  /** A placeholder with literal amounts shows the one argument there is. */
  lemma OwnRenders(h: Host, spec: Spec, a: Arg)
    requires OwnSpec(spec)
    ensures Render.Render(Standard(h), [OPEN] + OwnText(spec) + [CLOSE], [a]) == Limited(RenderFmtArg(h, a, spec))
  {
    var inner := OwnText(spec);
    OwnPasses(spec);
    PlaceLexes(inner, []);
    assert [OPEN] + inner + [CLOSE] + [] == [OPEN] + inner + [CLOSE];
    OneToken(Standard(h), [OPEN] + inner + [CLOSE], Place(inner), [a]);
    IndexTarget(0, inner);
    OwnReadBack(h, spec, [a], Assign(START));
    ShowsTaken(h, inner, 0, [a], Assign(START), Some(spec));
  }

  /** With an explicit index it shows the argument at that index, and is refused exactly where there is none. */
  lemma IndexRenders(h: Host, k: nat, spec: Spec, args: seq<Arg>)
    requires OwnSpec(spec)
    ensures Render.Render(Standard(h), [OPEN] + (Digits(k, 10) + OwnText(spec)) + [CLOSE], args)
      == if k < |args| then Limited(RenderFmtArg(h, args[k], spec)) else None
  {
    var inner := Digits(k, 10) + OwnText(spec);
    OwnPasses(spec);
    DigitsRun(k);
    AmountPasses(Given(k));
    PassesJoin(Digits(k, 10), OwnText(spec));
    assert Is(Decimals, inner[0]);
    PlaceLexes(inner, []);
    assert [OPEN] + inner + [CLOSE] + [] == [OPEN] + inner + [CLOSE];
    OneToken(Standard(h), [OPEN] + inner + [CLOSE], Place(inner), args);
    IndexTarget(k, OwnText(spec));
    IndexShows(h, k, spec, args);
  }

  lemma IndexShows(h: Host, k: nat, spec: Spec, args: seq<Arg>)
    requires OwnSpec(spec)
    ensures var r := EvalAt(Standard(h), OwnText(spec), k, args, START.(positional := true));
      var text := if k < |args| then Limited(RenderFmtArg(h, args[k], spec)) else None;
      (r.None? <==> text.None?) && (r.Some? ==> r.value.out == text.value && Complete(r.value, args))
  {
    OwnReadBack(h, spec, args, START.(positional := true));
    if k < |args| { ShowsTaken(h, OwnText(spec), k, args, START.(positional := true), Some(spec)); }
  }

  // --- The integer presentations -------------------------------------------

  lemma PlaceWithin(r: Option<Units>, spec: Spec, v: int, base: nat, upper: bool, lead: Units)
    requires IntegerPlace(r, spec, v, base, upper, lead)
    requires base >= 2 && Magnitude(v) < 0x1_0000_0000_0000_0000 && |lead| <= 2 && spec.width <= 4096
    ensures Limited(r) == r
  {
    var s :| Shows(s, v, base, upper, lead, spec.sign == Some(43), spec.sign == Some(32)) && InPlace(r.value, s, spec);
    ShownShort(s, v, base, upper, lead, spec.sign == Some(43), spec.sign == Some(32));
  }

  /** `{:d}` and `{:i}`, and `{}` of a 32-bit argument, render the signed value in base ten. */
  lemma SignedRenders(h: Host, spec: Spec, a: Arg, v: int)
    requires OwnSpec(spec) && SignedNumeric(a, v) && Magnitude(v) < 0x1_0000_0000_0000_0000
    requires spec.kind in {Some(0x64), Some(0x69)} || (spec.kind.None? && a.Bits32?)
    ensures IntegerPlace(Render.Render(Standard(h), [OPEN] + OwnText(spec) + [CLOSE], [a]), spec, v, 10, false, [])
  {
    OwnRenders(h, spec, a);
    SignedPlaceholder(h, a, spec, v);
    PlaceWithin(RenderFmtArg(h, a, spec), spec, v, 10, false, []);
  }

  /** Base and case of the unsigned presentations. */
  predicate Unsigned(kind: nat, base: nat, upper: bool) {
    (kind, base, upper) in
      {(0x75, 10, false), (0x78, 16, false), (0x58, 16, true), (0x6f, 8, false), (0x62, 2, false), (0x42, 2, true)}
  }

  /** `{:u}`, `{:x}`, `{:X}`, `{:o}`, `{:b}` and `{:B}` render the unsigned value in their base and case. */
  lemma UnsignedRenders(h: Host, spec: Spec, a: Arg, v: nat, base: nat, upper: bool)
    requires OwnSpec(spec) && UnsignedNumeric(a, v) && v < 0x1_0000_0000_0000_0000
    requires spec.kind.Some? && Unsigned(spec.kind.value, base, upper)
    ensures IntegerPlace(Render.Render(Standard(h), [OPEN] + OwnText(spec) + [CLOSE], [a]), spec, v, base, upper,
      AlternateLead(spec, base, upper, v))
  {
    OwnRenders(h, spec, a);
    UnsignedPlaceholder(h, a, spec, v);
    TenHasNoLead(spec, upper, v);
    PlaceWithin(RenderFmtArg(h, a, spec), spec, v, base, upper, AlternateLead(spec, base, upper, v));
  }

  lemma TenHasNoLead(spec: Spec, upper: bool, v: nat)
    ensures AlternateLead(spec, 10, upper, v) == []
  {
  }
}
