/**
 * The canonical JSON printer used for manifests, over UTF-16 code units.
 * Strings are quoted as in section 7 of RFC 8259, with lone surrogates escaped.
 */
module CanonicalJson {
  import opened Bytes
  import Numerals

  type Unit = x: int | 0 <= x < 65536
  type Text = seq<Unit>

  /** A number is the bit pattern of a 64-bit IEEE 754 double; a hole is a missing item of a sparse array. */
  datatype Json =
    | Null
    | Bool(b: bool)
    | Number(bits: nat)
    | Str(s: Text)
    | Array(items: seq<Json>)
    | Object(entries: seq<Entry>)
    | Hole
    | Unsupported

  datatype Entry = Entry(key: Text, value: Json)

  predicate Finite(bits: nat) { (bits / 0x10_0000_0000_0000) % 2048 != 2047 }

  /** The same bits, or zero and minus zero. */
  predicate SameNumber(x: nat, y: nat) {
    x == y || (x in {0, 0x8000_0000_0000_0000} && y in {0, 0x8000_0000_0000_0000})
  }

  // --- Strings -------------------------------------------------------------

  predicate High(u: Unit) { 0xd800 <= u <= 0xdbff }
  predicate Low(u: Unit) { 0xdc00 <= u <= 0xdfff }

  const QUOTE: Unit := 34
  const BACKSLASH: Unit := 92

  function HexDigit(d: nat): Unit
    requires d < 16
  {
    if d < 10 then 48 + d else 87 + d
  }

  function UnicodeEscape(u: Unit): Text {
    [BACKSLASH, 117, HexDigit(u / 16 / 16 / 16), HexDigit(u / 16 / 16 % 16), HexDigit(u / 16 % 16), HexDigit(u % 16)]
  }

  /** The letter of a two-unit escape, if the unit has one. */
  function Short(u: Unit): int {
    if u == 8 then 98 else if u == 9 then 116 else if u == 10 then 110 else if u == 12 then 102
    else if u == 13 then 114 else if u == QUOTE then QUOTE else if u == BACKSLASH then BACKSLASH else -1
  }

  /** A unit that is not half of a surrogate pair. */
  function Token(u: Unit): Text {
    if Short(u) >= 0 then [BACKSLASH, Short(u)]
    else if u < 32 || High(u) || Low(u) then UnicodeEscape(u)
    else [u]
  }

  predicate Paired(s: Text) { |s| >= 2 && High(s[0]) && Low(s[1]) }

  function Body(s: Text): Text {
    if s == [] then []
    else if Paired(s) then [s[0], s[1]] + Body(s[2..])
    else Token(s[0]) + Body(s[1..])
  }

  function Quote(s: Text): Text { [QUOTE] + Body(s) + [QUOTE] }

  // --- Key order -----------------------------------------------------------

  /** The order in which JavaScript compares strings: by code units. */
  predicate Before(a: Text, b: Text) {
    b != [] && (a == [] || a[0] < b[0] || (a[0] == b[0] && Before(a[1..], b[1..])))
  }

  lemma {:induction false} BeforeTotal(a: Text, b: Text)
    ensures Before(a, b) || Before(b, a) || a == b
    ensures !(Before(a, b) && Before(b, a)) && !Before(a, a)
  {
    if a != [] {
      BeforeTotal(a[1..], if b == [] then [] else b[1..]);
      if b != [] && a[0] == b[0] && a[1..] == b[1..] {
        assert a == [a[0]] + a[1..] == b;
      }
    }
  }

  lemma {:induction false} BeforeTransitive(a: Text, b: Text, c: Text)
    requires Before(a, b) && Before(b, c)
    ensures Before(a, c)
  {
    if a != [] && a[0] == b[0] == c[0] {
      BeforeTransitive(a[1..], b[1..], c[1..]);
    }
  }

  function Insert(e: Entry, es: seq<Entry>): (r: seq<Entry>)
    ensures multiset(r) == multiset([e]) + multiset(es) && |r| == |es| + 1
  {
    if es == [] then [e]
    else if Before(e.key, es[0].key) then [e] + es
    else
      assert es == [es[0]] + es[1..];
      [es[0]] + Insert(e, es[1..])
  }

  function Sort(es: seq<Entry>): (r: seq<Entry>)
    ensures multiset(r) == multiset(es) && |r| == |es|
  {
    if es == [] then []
    else
      assert es == [es[0]] + es[1..];
      Insert(es[0], Sort(es[1..]))
  }

  // --- Printing ------------------------------------------------------------

  function Size(v: Json): nat
    decreases v, 0
  {
    match v
    case Array(items) => 1 + ItemsSize(items)
    case Object(entries) => 1 + EntriesSize(entries)
    case _ => 1
  }

  function ItemsSize(vs: seq<Json>): nat
    decreases vs, 1
  {
    if vs == [] then 0 else 1 + Size(vs[0]) + ItemsSize(vs[1..])
  }

  function EntriesSize(es: seq<Entry>): nat
    decreases es, 1
  {
    if es == [] then 0 else 1 + Size(es[0].value) + EntriesSize(es[1..])
  }

  lemma {:induction false} InsertSize(e: Entry, es: seq<Entry>)
    ensures EntriesSize(Insert(e, es)) == 1 + Size(e.value) + EntriesSize(es)
  {
    if es == [] {
      assert [e][1..] == [];
    } else if Before(e.key, es[0].key) {
      assert ([e] + es)[1..] == es;
    } else {
      InsertSize(e, es[1..]);
      assert Insert(e, es)[1..] == Insert(e, es[1..]);
    }
  }

  lemma {:induction false} SortSize(es: seq<Entry>)
    ensures EntriesSize(Sort(es)) == EntriesSize(es)
  {
    if es != [] {
      SortSize(es[1..]);
      InsertSize(es[0], Sort(es[1..]));
    }
  }

  const NULL: Text := [110, 117, 108, 108]
  const TRUE: Text := [116, 114, 117, 101]
  const FALSE: Text := [102, 97, 108, 115, 101]
  const COMMA: Unit := 44
  const COLON: Unit := 58
  const OPEN_ARRAY: Unit := 91
  const CLOSE_ARRAY: Unit := 93
  const OPEN_OBJECT: Unit := 123
  const CLOSE_OBJECT: Unit := 125

  /** `number` stands for the printing of finite doubles, see NumberPrinter. */
  function Print(number: nat -> Text, v: Json): Text
    decreases Size(v), 0
  {
    match v
    case Null => NULL
    case Bool(b) => if b then TRUE else FALSE
    case Number(bits) => number(bits)
    case Str(s) => Quote(s)
    case Array(items) => [OPEN_ARRAY] + PrintItems(number, items) + [CLOSE_ARRAY]
    case Object(entries) =>
      SortSize(entries);
      [OPEN_OBJECT] + PrintEntries(number, Sort(entries)) + [CLOSE_OBJECT]
    case Hole => []
    case Unsupported => []
  }

  function PrintItems(number: nat -> Text, vs: seq<Json>): Text
    decreases ItemsSize(vs), 1
  {
    if vs == [] then []
    else Print(number, vs[0]) + ItemsTail(number, vs)
  }

  function ItemsTail(number: nat -> Text, vs: seq<Json>): Text
    requires vs != []
    decreases ItemsSize(vs), 0
  {
    if |vs| == 1 then [] else [COMMA] + PrintItems(number, vs[1..])
  }

  function PrintEntries(number: nat -> Text, es: seq<Entry>): Text
    decreases EntriesSize(es), 1
  {
    if es == [] then []
    else
      Quote(es[0].key) + [COLON] + (Print(number, es[0].value) + EntriesTail(number, es))
  }

  function EntriesTail(number: nat -> Text, es: seq<Entry>): Text
    requires es != []
    decreases EntriesSize(es), 0
  {
    if |es| == 1 then [] else [COMMA] + PrintEntries(number, es[1..])
  }

  /** No non-finite number and no unsupported value anywhere: otherwise the printer throws. Only arrays have holes. */
  predicate Accepted(v: Json) {
    match v
    case Number(bits) => Finite(bits)
    case Array(items) => forall i :: 0 <= i < |items| ==> items[i].Hole? || Accepted(items[i])
    case Object(entries) => forall i :: 0 <= i < |entries| ==> Accepted(entries[i].value)
    case Hole => false
    case Unsupported => false
    case _ => true
  }

  function Canonical(number: nat -> Text, v: Json): Result {
    if Accepted(v) then Printed(Print(number, v)) else Thrown
  }

  datatype Result = Printed(text: Text) | Thrown

  // --- What the printer is meant to identify -------------------------------

  predicate DistinctKeys(es: seq<Entry>) {
    forall i, j :: 0 <= i < j < |es| ==> es[i].key != es[j].key
  }

  /** Objects have no repeated key, at any depth; every JavaScript object is such. */
  predicate WellFormed(v: Json) {
    match v
    case Array(items) => forall i :: 0 <= i < |items| ==> WellFormed(items[i])
    case Object(entries) => DistinctKeys(entries) && forall i :: 0 <= i < |entries| ==> WellFormed(entries[i].value)
    case _ => true
  }

  predicate HasKey(es: seq<Entry>, key: Text) {
    exists i :: 0 <= i < |es| && es[i].key == key
  }

  /** Joining the items of an empty array and of a single hole gives the same text. */
  predicate NoItems(vs: seq<Json>) { vs == [] || vs == [Hole] }

  /** Equality up to the order of object keys and the sign of zero; an array of one hole counts as empty. */
  ghost predicate Same(a: Json, b: Json) {
    match a
    case Null => b.Null?
    case Bool(x) => b == a
    case Number(x) => b.Number? && SameNumber(x, b.bits)
    case Str(s) => b == a
    case Array(xs) =>
      && b.Array?
      && ((NoItems(xs) && NoItems(b.items))
          || (|xs| == |b.items| && forall i :: 0 <= i < |xs| ==> Same(xs[i], b.items[i])))
    case Object(es) =>
      && b.Object?
      && (forall i :: 0 <= i < |es| ==>
           exists j :: 0 <= j < |b.entries| && b.entries[j].key == es[i].key && Same(es[i].value, b.entries[j].value))
      && (forall j :: 0 <= j < |b.entries| ==> HasKey(es, b.entries[j].key))
    case Hole => b.Hole?
    case Unsupported => b.Unsupported?
  }

  /** Characters of a printed number. */
  predicate NumberUnit(u: Unit) {
    48 <= u <= 57 || u in {43, 45, 46, 101}
  }

  predicate NumberText(t: Text) {
    t != [] && (48 <= t[0] <= 57 || t[0] == 45) && forall i :: 0 <= i < |t| ==> NumberUnit(t[i])
  }

  /**
   * What the printer relies on: number texts are JSON numbers and tell finite doubles apart, save for the sign of
   * zero.
   */
  ghost predicate NumberPrinter(number: nat -> Text) {
    && (forall x: nat :: Finite(x) ==> NumberText(number(x)))
    && (forall x: nat, y: nat :: Finite(x) && Finite(y) ==> (number(x) == number(y) <==> SameNumber(x, y)))
  }

  // --- Quoted strings can be read back -------------------------------------

  lemma Cancel<T>(a: seq<T>, x: seq<T>, b: seq<T>, y: seq<T>)
    requires a + x == b + y && |a| == |b|
    ensures a == b && x == y
  {
    assert a == (a + x)[..|a|] && b == (b + y)[..|b|];
    assert x == (a + x)[|a|..] && y == (b + y)[|b|..];
  }

  lemma HexInjective(u: Unit, v: Unit)
    requires UnicodeEscape(u) == UnicodeEscape(v)
    ensures u == v
  {
    var s, t := UnicodeEscape(u), UnicodeEscape(v);
    assert s[2] == t[2] && s[3] == t[3] && s[4] == t[4] && s[5] == t[5];
    assert u / 16 / 16 == v / 16 / 16;
    assert u / 16 == v / 16;
  }

  lemma TokenStart(u: Unit)
    ensures Token(u) != [] && Token(u)[0] != QUOTE && !High(Token(u)[0])
    ensures Token(u)[0] == BACKSLASH <==> |Token(u)| > 1
    ensures |Token(u)| > 1 ==> (Token(u)[1] == 117 <==> Token(u) == UnicodeEscape(u))
    ensures |Token(u)| > 1 && Token(u)[1] != 117 ==> Token(u) == [BACKSLASH, Short(u)]
  {
  }

  lemma TokenPrefix(u: Unit, v: Unit, x: Text, y: Text)
    requires Token(u) + x == Token(v) + y
    ensures u == v && x == y
  {
    TokenStart(u);
    TokenStart(v);
    assert (Token(u) + x)[0] == Token(u)[0] && (Token(v) + y)[0] == Token(v)[0];
    if |Token(u)| > 1 {
      assert (Token(u) + x)[1] == Token(u)[1] && (Token(v) + y)[1] == Token(v)[1];
    }
    Cancel(Token(u), x, Token(v), y);
    if |Token(u)| > 1 && Token(u)[1] == 117 { HexInjective(u, v); }
  }

  /** The body of a quoted string ends at the first unescaped quote: it determines the string. */
  lemma {:induction false} BodyPrefix(s: Text, t: Text, x: Text, y: Text)
    requires Body(s) + ([QUOTE] + x) == Body(t) + ([QUOTE] + y)
    ensures s == t && x == y
    decreases |s|
  {
    if s == [] || t == [] {
      BodyPrefixEmpty(s, t, x, y);
    } else {
      var l := Body(s) + ([QUOTE] + x);
      BodyStart(s);
      BodyStart(t);
      assert l[0] == Body(s)[0] && l[0] == Body(t)[0];
      if Paired(s) {
        BodyPrefixPair(s, t, x, y);
        BodyPrefix(s[2..], t[2..], x, y);
        assert s == [s[0], s[1]] + s[2..] && t == [t[0], t[1]] + t[2..];
      } else {
        BodyPrefixToken(s, t, x, y);
        BodyPrefix(s[1..], t[1..], x, y);
        assert s == [s[0]] + s[1..] && t == [t[0]] + t[1..];
      }
    }
  }

  lemma QuoteOrBody(s: Text, x: Text)
    ensures (Body(s) + ([QUOTE] + x))[0] == QUOTE <==> s == []
  {
    if s != [] { BodyStart(s); }
  }

  lemma BodyPrefixEmpty(s: Text, t: Text, x: Text, y: Text)
    requires Body(s) + ([QUOTE] + x) == Body(t) + ([QUOTE] + y) && (s == [] || t == [])
    ensures s == t && x == y
  {
    QuoteOrBody(s, x);
    QuoteOrBody(t, y);
    Cancel(Body(s), [QUOTE] + x, Body(t), [QUOTE] + y);
    Cancel([QUOTE], x, [QUOTE], y);
  }

  lemma BodyPrefixPair(s: Text, t: Text, x: Text, y: Text)
    requires Body(s) + ([QUOTE] + x) == Body(t) + ([QUOTE] + y) && Paired(s) && Paired(t)
    ensures s[0] == t[0] && s[1] == t[1]
    ensures Body(s[2..]) + ([QUOTE] + x) == Body(t[2..]) + ([QUOTE] + y)
  {
    var p, q := [s[0], s[1]], [t[0], t[1]];
    Assoc(p, Body(s[2..]), [QUOTE] + x);
    Assoc(q, Body(t[2..]), [QUOTE] + y);
    Cancel(p, Body(s[2..]) + ([QUOTE] + x), q, Body(t[2..]) + ([QUOTE] + y));
    assert p[0] == q[0] && p[1] == q[1];
  }

  lemma {:induction false} BodyPrefixToken(s: Text, t: Text, x: Text, y: Text)
    requires Body(s) + ([QUOTE] + x) == Body(t) + ([QUOTE] + y)
    requires s != [] && t != [] && !Paired(s) && !Paired(t)
    ensures s[0] == t[0]
    ensures Body(s[1..]) + ([QUOTE] + x) == Body(t[1..]) + ([QUOTE] + y)
  {
    Assoc(Token(s[0]), Body(s[1..]), [QUOTE] + x);
    Assoc(Token(t[0]), Body(t[1..]), [QUOTE] + y);
    TokenPrefix(s[0], t[0], Body(s[1..]) + ([QUOTE] + x), Body(t[1..]) + ([QUOTE] + y));
  }

  lemma BodyStart(s: Text)
    requires s != []
    ensures Body(s) != [] && Body(s)[0] != QUOTE
    ensures High(Body(s)[0]) <==> Paired(s)
    ensures Paired(s) ==> Body(s)[0] == s[0] && Body(s) == [s[0], s[1]] + Body(s[2..])
  {
    TokenStart(s[0]);
  }

  lemma QuotePrefix(s: Text, t: Text, x: Text, y: Text)
    requires Quote(s) + x == Quote(t) + y
    ensures s == t && x == y
  {
    assert Quote(s) + x == [QUOTE] + (Body(s) + ([QUOTE] + x));
    assert Quote(t) + y == [QUOTE] + (Body(t) + ([QUOTE] + y));
    Cancel([QUOTE], Body(s) + ([QUOTE] + x), [QUOTE], Body(t) + ([QUOTE] + y));
    BodyPrefix(s, t, x, y);
  }

  // --- Sorting -------------------------------------------------------------

  predicate Ascending(es: seq<Entry>) {
    forall i, j :: 0 <= i < j < |es| ==> Before(es[i].key, es[j].key)
  }

  lemma KeyFirstOrLater(es: seq<Entry>, key: Text)
    requires es != []
    ensures HasKey(es, key) <==> es[0].key == key || HasKey(es[1..], key)
  {
    assert forall i :: 1 <= i < |es| ==> es[i] == es[1..][i - 1];
    assert forall i :: 0 <= i < |es| - 1 ==> es[1..][i] == es[i + 1];
  }

  lemma {:induction false} InsertKeys(e: Entry, es: seq<Entry>, key: Text)
    ensures HasKey(Insert(e, es), key) <==> e.key == key || HasKey(es, key)
  {
    var r := Insert(e, es);
    if es == [] {
      assert r[0] == e;
    } else if Before(e.key, es[0].key) {
      KeyFirstOrLater(r, key);
      assert r[1..] == es;
    } else {
      InsertKeys(e, es[1..], key);
      var t := Insert(e, es[1..]);
      KeyFirstOrLater(es, key);
      KeyFirstOrLater(r, key);
      assert r[1..] == t;
    }
  }

  lemma {:induction false} InsertAscending(e: Entry, es: seq<Entry>)
    requires Ascending(es) && !HasKey(es, e.key)
    ensures Ascending(Insert(e, es))
  {
    if es != [] {
      BeforeTotal(e.key, es[0].key);
      if Before(e.key, es[0].key) {
        forall i | 1 <= i < |es| ensures Before(e.key, es[i].key) {
          BeforeTransitive(e.key, es[0].key, es[i].key);
        }
      } else {
        assert !HasKey(es[1..], e.key);
        InsertAscending(e, es[1..]);
        var t := Insert(e, es[1..]);
        forall i | 0 <= i < |t| ensures Before(es[0].key, t[i].key) {
          assert HasKey(t, t[i].key);
          InsertKeys(e, es[1..], t[i].key);
        }
      }
    }
  }

  lemma {:induction false} SortKeys(es: seq<Entry>, key: Text)
    ensures HasKey(Sort(es), key) <==> HasKey(es, key)
  {
    if es != [] {
      SortKeys(es[1..], key);
      InsertKeys(es[0], Sort(es[1..]), key);
      KeyFirstOrLater(es, key);
    }
  }

  lemma {:induction false} SortAscending(es: seq<Entry>)
    requires DistinctKeys(es)
    ensures Ascending(Sort(es))
  {
    if es != [] {
      SortAscending(es[1..]);
      SortKeys(es[1..], es[0].key);
      InsertAscending(es[0], Sort(es[1..]));
    }
  }

  /** Sorted lists with the same keys line up. */
  lemma {:induction false} Aligned(xs: seq<Entry>, ys: seq<Entry>)
    requires Ascending(xs) && Ascending(ys)
    requires forall key :: HasKey(xs, key) <==> HasKey(ys, key)
    ensures |xs| == |ys| && forall i :: 0 <= i < |xs| ==> xs[i].key == ys[i].key
  {
    if xs == [] || ys == [] {
      if xs != [] { assert HasKey(xs, xs[0].key); }
      if ys != [] { assert HasKey(ys, ys[0].key); }
    } else {
      FirstKeys(xs, ys);
      forall key ensures HasKey(xs[1..], key) <==> HasKey(ys[1..], key) {
        TailKeys(xs, key);
        TailKeys(ys, key);
      }
      Aligned(xs[1..], ys[1..]);
    }
  }

  lemma FirstKeys(xs: seq<Entry>, ys: seq<Entry>)
    requires Ascending(xs) && Ascending(ys) && xs != [] && ys != []
    requires HasKey(xs, ys[0].key) && HasKey(ys, xs[0].key)
    ensures xs[0].key == ys[0].key
  {
    BeforeTotal(xs[0].key, ys[0].key);
  }

  lemma TailKeys(xs: seq<Entry>, key: Text)
    requires Ascending(xs) && xs != []
    ensures HasKey(xs[1..], key) <==> HasKey(xs, key) && key != xs[0].key
  {
    BeforeTotal(xs[0].key, xs[0].key);
    KeyFirstOrLater(xs, key);
  }

  // --- Printed values can be told apart ------------------------------------

  /** What may follow a printed value: nothing, or a separator or closing bracket. */
  predicate Ends(x: Text) {
    x != [] ==> x[0] in {COMMA, CLOSE_ARRAY, CLOSE_OBJECT}
  }

  lemma NumberPrefix(a: Text, b: Text, x: Text, y: Text)
    requires NumberText(a) && NumberText(b) && Ends(x) && Ends(y) && a + x == b + y
    ensures a == b && x == y
  {
    NumberLength(a, b, x, y);
    NumberLength(b, a, y, x);
    Cancel(a, x, b, y);
  }

  lemma NumberLength(a: Text, b: Text, x: Text, y: Text)
    requires NumberText(a) && NumberText(b) && Ends(x) && a + x == b + y
    ensures |b| <= |a|
  {
    assert x != [] ==> !NumberUnit((a + x)[|a|]);
    assert forall i :: 0 <= i < |b| ==> NumberUnit((b + y)[i]);
  }

  /** The kind of value that a first unit announces. */
  function Lead(u: Unit): nat {
    if u == 110 then 1 else if u == 116 then 2 else if u == 102 then 3
    else if 48 <= u <= 57 || u == 45 then 4
    else if u == QUOTE then 5 else if u == OPEN_ARRAY then 6 else if u == OPEN_OBJECT then 7 else 0
  }

  function Kind(v: Json): nat {
    match v
    case Null => 1
    case Bool(b) => if b then 2 else 3
    case Number(_) => 4
    case Str(_) => 5
    case Array(_) => 6
    case Object(_) => 7
    case Hole => 0
    case Unsupported => 0
  }

  lemma PrintStart(number: nat -> Text, v: Json)
    requires NumberPrinter(number) && Accepted(v)
    ensures Print(number, v) != [] && Lead(Print(number, v)[0]) == Kind(v) > 0
  {
  }

  predicate Good(v: Json) { Accepted(v) && WellFormed(v) }

  predicate GoodItems(vs: seq<Json>) { forall i :: 0 <= i < |vs| ==> vs[i].Hole? || Good(vs[i]) }

  predicate GoodEntries(es: seq<Entry>) { forall i :: 0 <= i < |es| ==> Good(es[i].value) }

  ghost predicate SameItems(xs: seq<Json>, ys: seq<Json>) {
    |xs| == |ys| && forall i :: 0 <= i < |xs| ==> Same(xs[i], ys[i])
  }

  ghost predicate SameEntries(xs: seq<Entry>, ys: seq<Entry>) {
    |xs| == |ys| && forall i :: 0 <= i < |xs| ==> xs[i].key == ys[i].key && Same(xs[i].value, ys[i].value)
  }

  lemma SortedPlace(es: seq<Entry>, i: nat) returns (k: nat)
    requires i < |es|
    ensures k < |Sort(es)| && Sort(es)[k] == es[i]
  {
    assert es[i] in multiset(Sort(es));
    k :| k < |Sort(es)| && Sort(es)[k] == es[i];
  }

  lemma {:induction false} UnsortedPlace(es: seq<Entry>, k: nat) returns (i: nat)
    requires k < |Sort(es)|
    ensures i < |es| && es[i] == Sort(es)[k]
  {
    assert Sort(es)[k] in multiset(es);
    i :| i < |es| && es[i] == Sort(es)[k];
  }

  lemma SortGood(es: seq<Entry>)
    requires GoodEntries(es)
    ensures GoodEntries(Sort(es))
  {
    forall k | 0 <= k < |Sort(es)| ensures Good(Sort(es)[k].value) {
      var i := UnsortedPlace(es, k);
    }
  }

  /**
   * Prefix-unambiguity: if two printed values, each followed by something that
   * can end a value, give the same text, the values are the same and so is
   * what follows them.
   */
  lemma {:induction false} Unambiguous(number: nat -> Text, a: Json, b: Json, x: Text, y: Text)
    requires NumberPrinter(number) && Good(a) && Good(b) && Ends(x) && Ends(y)
    requires Print(number, a) + x == Print(number, b) + y
    ensures Same(a, b) && x == y
    decreases Size(a), 0
  {
    var pa, pb := Print(number, a), Print(number, b);
    PrintStart(number, a);
    PrintStart(number, b);
    assert (pa + x)[0] == pa[0] && (pb + y)[0] == pb[0];
    assert Kind(a) == Kind(b);
    match a
    case Null => Cancel(pa, x, pb, y);
    case Bool(_) => Cancel(pa, x, pb, y);
    case Number(_) => NumberPrefix(pa, pb, x, y);
    case Str(_) => QuotePrefix(a.s, b.s, x, y);
    case Array(_) => ArrayUnambiguous(number, a, b, x, y);
    case Object(_) => ObjectUnambiguous(number, a, b, x, y);
  }

  lemma {:induction false} ArrayUnambiguous(number: nat -> Text, a: Json, b: Json, x: Text, y: Text)
    requires NumberPrinter(number) && Good(a) && Good(b) && a.Array? && b.Array?
    requires Print(number, a) + x == Print(number, b) + y
    ensures Same(a, b) && x == y
    decreases ItemsSize(a.items), 3
  {
    Unwrap(OPEN_ARRAY, PrintItems(number, a.items), CLOSE_ARRAY, x);
    Unwrap(OPEN_ARRAY, PrintItems(number, b.items), CLOSE_ARRAY, y);
    Cancel([OPEN_ARRAY], PrintItems(number, a.items) + ([CLOSE_ARRAY] + x),
           [OPEN_ARRAY], PrintItems(number, b.items) + ([CLOSE_ARRAY] + y));
    if NoItems(a.items) {
      ItemsEmpty(number, a.items, x);
      ItemsEmpty(number, b.items, y);
      Cancel([CLOSE_ARRAY], x, [CLOSE_ARRAY], y);
    } else {
      ItemsEmpty(number, a.items, x);
      ItemsEmpty(number, b.items, y);
      ItemsUnambiguous(number, a.items, b.items, x, y);
    }
  }

  lemma Unwrap(open: Unit, inner: Text, close: Unit, x: Text)
    ensures ([open] + inner + [close]) + x == [open] + (inner + ([close] + x))
  {
  }

  lemma ItemsEmpty(number: nat -> Text, vs: seq<Json>, x: Text)
    requires NumberPrinter(number) && GoodItems(vs)
    ensures (PrintItems(number, vs) + ([CLOSE_ARRAY] + x))[0] == CLOSE_ARRAY <==> NoItems(vs)
    ensures NoItems(vs) ==> PrintItems(number, vs) + ([CLOSE_ARRAY] + x) == [CLOSE_ARRAY] + x
  {
    if vs != [] && !vs[0].Hole? { PrintStart(number, vs[0]); }
  }

  /** A slot of an array: a value or a hole. */
  lemma {:induction false} SlotUnambiguous(number: nat -> Text, a: Json, b: Json, x: Text, y: Text)
    requires NumberPrinter(number) && (a.Hole? || Good(a)) && (b.Hole? || Good(b)) && x != [] && y != [] &&
      Ends(x) && Ends(y)
    requires Print(number, a) + x == Print(number, b) + y
    ensures Same(a, b) && x == y
    decreases Size(a), 1
  {
    SlotStart(number, a, x);
    SlotStart(number, b, y);
    if a.Hole? {
      assert Print(number, a) + x == x && Print(number, b) + y == y;
    } else {
      Unambiguous(number, a, b, x, y);
    }
  }

  lemma SlotStart(number: nat -> Text, a: Json, x: Text)
    requires NumberPrinter(number) && (a.Hole? || Good(a)) && x != [] && Ends(x)
    ensures a.Hole? <==> Lead((Print(number, a) + x)[0]) == 0
  {
    if !a.Hole? { PrintStart(number, a); }
  }

  lemma {:induction false} ItemsUnambiguous(number: nat -> Text, xs: seq<Json>, ys: seq<Json>, x: Text, y: Text)
    requires NumberPrinter(number) && GoodItems(xs) && GoodItems(ys) && xs != [] && ys != []
    requires PrintItems(number, xs) + ([CLOSE_ARRAY] + x) == PrintItems(number, ys) + ([CLOSE_ARRAY] + y)
    ensures SameItems(xs, ys) && x == y
    decreases ItemsSize(xs), 2
  {
    var tx, ty := ItemsTail(number, xs), ItemsTail(number, ys);
    Assoc(Print(number, xs[0]), tx, [CLOSE_ARRAY] + x);
    Assoc(Print(number, ys[0]), ty, [CLOSE_ARRAY] + y);
    SlotUnambiguous(number, xs[0], ys[0], tx + ([CLOSE_ARRAY] + x), ty + ([CLOSE_ARRAY] + y));
    ItemsTailUnambiguous(number, xs, ys, x, y);
  }

  lemma {:induction false} ItemsTailUnambiguous(number: nat -> Text, xs: seq<Json>, ys: seq<Json>, x: Text, y: Text)
    requires NumberPrinter(number) && GoodItems(xs) && GoodItems(ys) && xs != [] && ys != []
    requires Same(xs[0], ys[0])
    requires ItemsTail(number, xs) + ([CLOSE_ARRAY] + x) == ItemsTail(number, ys) + ([CLOSE_ARRAY] + y)
    ensures SameItems(xs, ys) && x == y
    decreases ItemsSize(xs), 1
  {
    var tx, ty := ItemsTail(number, xs), ItemsTail(number, ys);
    assert (tx + ([CLOSE_ARRAY] + x))[0] == if |xs| == 1 then CLOSE_ARRAY else COMMA;
    assert (ty + ([CLOSE_ARRAY] + y))[0] == if |ys| == 1 then CLOSE_ARRAY else COMMA;
    if |xs| == 1 {
      Cancel(tx, [CLOSE_ARRAY] + x, ty, [CLOSE_ARRAY] + y);
      Cancel([CLOSE_ARRAY], x, [CLOSE_ARRAY], y);
    } else {
      Assoc([COMMA], PrintItems(number, xs[1..]), [CLOSE_ARRAY] + x);
      Assoc([COMMA], PrintItems(number, ys[1..]), [CLOSE_ARRAY] + y);
      Cancel([COMMA], PrintItems(number, xs[1..]) + ([CLOSE_ARRAY] + x),
             [COMMA], PrintItems(number, ys[1..]) + ([CLOSE_ARRAY] + y));
      ItemsUnambiguous(number, xs[1..], ys[1..], x, y);
    }
  }

  lemma {:induction false} ObjectUnambiguous(number: nat -> Text, a: Json, b: Json, x: Text, y: Text)
    requires NumberPrinter(number) && Good(a) && Good(b) && a.Object? && b.Object?
    requires Print(number, a) + x == Print(number, b) + y
    ensures Same(a, b) && x == y
    decreases EntriesSize(a.entries), 3
  {
    var xs, ys := Sort(a.entries), Sort(b.entries);
    SortSize(a.entries);
    SortGood(a.entries);
    SortGood(b.entries);
    Unwrap(OPEN_OBJECT, PrintEntries(number, xs), CLOSE_OBJECT, x);
    Unwrap(OPEN_OBJECT, PrintEntries(number, ys), CLOSE_OBJECT, y);
    Cancel([OPEN_OBJECT], PrintEntries(number, xs) + ([CLOSE_OBJECT] + x),
           [OPEN_OBJECT], PrintEntries(number, ys) + ([CLOSE_OBJECT] + y));
    EntriesUnambiguous(number, xs, ys, x, y);
    SameFromSorted(a.entries, b.entries);
  }

  lemma {:induction false} SameFromSorted(es: seq<Entry>, fs: seq<Entry>)
    requires SameEntries(Sort(es), Sort(fs))
    ensures Same(Object(es), Object(fs))
  {
    forall i | 0 <= i < |es|
      ensures exists j :: 0 <= j < |fs| && fs[j].key == es[i].key && Same(es[i].value, fs[j].value)
    {
      var j := FindSame(es, fs, i);
    }
    forall j | 0 <= j < |fs| ensures HasKey(es, fs[j].key) {
      FindKey(es, fs, j);
    }
  }

  lemma {:induction false} FindSame(es: seq<Entry>, fs: seq<Entry>, i: nat) returns (j: nat)
    requires SameEntries(Sort(es), Sort(fs)) && i < |es|
    ensures j < |fs| && fs[j].key == es[i].key && Same(es[i].value, fs[j].value)
  {
    var k := SortedPlace(es, i);
    j := UnsortedPlace(fs, k);
  }

  lemma {:induction false} FindKey(es: seq<Entry>, fs: seq<Entry>, j: nat)
    requires SameEntries(Sort(es), Sort(fs)) && j < |fs|
    ensures HasKey(es, fs[j].key)
  {
    var k := SortedPlace(fs, j);
    var i := UnsortedPlace(es, k);
  }

  lemma EntriesEmpty(number: nat -> Text, es: seq<Entry>, x: Text)
    ensures (PrintEntries(number, es) + ([CLOSE_OBJECT] + x))[0] == CLOSE_OBJECT <==> es == []
  {
    if es != [] { assert PrintEntries(number, es)[0] == QUOTE; }
  }

  lemma {:induction false} EntriesUnambiguous(number: nat -> Text, xs: seq<Entry>, ys: seq<Entry>, x: Text, y: Text)
    requires NumberPrinter(number) && GoodEntries(xs) && GoodEntries(ys)
    requires PrintEntries(number, xs) + ([CLOSE_OBJECT] + x) == PrintEntries(number, ys) + ([CLOSE_OBJECT] + y)
    ensures SameEntries(xs, ys) && x == y
    decreases EntriesSize(xs), 2
  {
    EntriesEmpty(number, xs, x);
    EntriesEmpty(number, ys, y);
    if xs == [] {
      Cancel(PrintEntries(number, xs), [CLOSE_OBJECT] + x, PrintEntries(number, ys), [CLOSE_OBJECT] + y);
      Cancel([CLOSE_OBJECT], x, [CLOSE_OBJECT], y);
    } else {
      var tx, ty := EntriesTail(number, xs), EntriesTail(number, ys);
      EntrySplit(number, xs, x);
      EntrySplit(number, ys, y);
      var vx := Print(number, xs[0].value) + (tx + ([CLOSE_OBJECT] + x));
      var vy := Print(number, ys[0].value) + (ty + ([CLOSE_OBJECT] + y));
      QuotePrefix(xs[0].key, ys[0].key, [COLON] + vx, [COLON] + vy);
      Cancel([COLON], vx, [COLON], vy);
      Unambiguous(number, xs[0].value, ys[0].value, tx + ([CLOSE_OBJECT] + x), ty + ([CLOSE_OBJECT] + y));
      EntriesTailUnambiguous(number, xs, ys, x, y);
    }
  }

  lemma EntrySplit(number: nat -> Text, es: seq<Entry>, x: Text)
    requires es != []
    ensures PrintEntries(number, es) + ([CLOSE_OBJECT] + x)
         == Quote(es[0].key) +
           ([COLON] + (Print(number, es[0].value) + (EntriesTail(number, es) + ([CLOSE_OBJECT] + x))))
  {
    Regroup(Quote(es[0].key), [COLON], Print(number, es[0].value), EntriesTail(number, es), [CLOSE_OBJECT] + x);
  }

  lemma Regroup(a: Text, b: Text, c: Text, d: Text, e: Text)
    ensures (a + b + (c + d)) + e == a + (b + (c + (d + e)))
  {
    Assoc(a + b, c + d, e);
    Assoc(a, b, (c + d) + e);
    Assoc(c, d, e);
  }

  lemma {:induction false} EntriesTailUnambiguous(number: nat -> Text, xs: seq<Entry>, ys: seq<Entry>, x: Text, y: Text)
    requires NumberPrinter(number) && GoodEntries(xs) && GoodEntries(ys) && xs != [] && ys != []
    requires xs[0].key == ys[0].key && Same(xs[0].value, ys[0].value)
    requires EntriesTail(number, xs) + ([CLOSE_OBJECT] + x) == EntriesTail(number, ys) + ([CLOSE_OBJECT] + y)
    ensures SameEntries(xs, ys) && x == y
    decreases EntriesSize(xs), 1
  {
    var tx, ty := EntriesTail(number, xs), EntriesTail(number, ys);
    assert (tx + ([CLOSE_OBJECT] + x))[0] == if |xs| == 1 then CLOSE_OBJECT else COMMA;
    assert (ty + ([CLOSE_OBJECT] + y))[0] == if |ys| == 1 then CLOSE_OBJECT else COMMA;
    if |xs| == 1 {
      Cancel(tx, [CLOSE_OBJECT] + x, ty, [CLOSE_OBJECT] + y);
      Cancel([CLOSE_OBJECT], x, [CLOSE_OBJECT], y);
    } else {
      Assoc([COMMA], PrintEntries(number, xs[1..]), [CLOSE_OBJECT] + x);
      Assoc([COMMA], PrintEntries(number, ys[1..]), [CLOSE_OBJECT] + y);
      Cancel([COMMA], PrintEntries(number, xs[1..]) + ([CLOSE_OBJECT] + x),
             [COMMA], PrintEntries(number, ys[1..]) + ([CLOSE_OBJECT] + y));
      EntriesUnambiguous(number, xs[1..], ys[1..], x, y);
    }
  }

  // --- Same values print the same ------------------------------------------

  lemma {:induction false} SamePrints(number: nat -> Text, a: Json, b: Json)
    requires NumberPrinter(number) && Good(a) && Good(b) && Same(a, b)
    ensures Print(number, a) == Print(number, b)
    decreases Size(a), 0
  {
    match a
    case Number(_) =>
    case Array(_) =>
      if NoItems(a.items) && NoItems(b.items) {
        NoItemsPrint(number, a.items);
        NoItemsPrint(number, b.items);
      } else {
        ItemsPrintSame(number, a.items, b.items);
      }
    case Object(_) =>
      var xs, ys := Sort(a.entries), Sort(b.entries);
      SortSize(a.entries);
      SortGood(a.entries);
      SortGood(b.entries);
      SortedFromSame(a.entries, b.entries);
      EntriesPrintSame(number, xs, ys);
    case _ =>
  }

  lemma NoItemsPrint(number: nat -> Text, vs: seq<Json>)
    requires NoItems(vs)
    ensures PrintItems(number, vs) == []
  {
    if vs == [Hole] { assert PrintItems(number, vs) == Print(number, Hole) + ItemsTail(number, vs); }
  }

  lemma SameKeys(es: seq<Entry>, fs: seq<Entry>, key: Text)
    requires Same(Object(es), Object(fs))
    ensures HasKey(es, key) <==> HasKey(fs, key)
  {
  }

  lemma {:induction false} SortedFromSame(es: seq<Entry>, fs: seq<Entry>)
    requires DistinctKeys(es) && DistinctKeys(fs) && Same(Object(es), Object(fs))
    ensures SameEntries(Sort(es), Sort(fs))
  {
    var xs, ys := Sort(es), Sort(fs);
    SortAscending(es);
    SortAscending(fs);
    forall key ensures HasKey(xs, key) <==> HasKey(ys, key) {
      SortKeys(es, key);
      SortKeys(fs, key);
      SameKeys(es, fs, key);
    }
    Aligned(xs, ys);
    forall k | 0 <= k < |xs| ensures Same(xs[k].value, ys[k].value) {
      var i := UnsortedPlace(es, k);
      var m := UnsortedPlace(fs, k);
      SameAt(es, fs, i, m);
    }
  }

  lemma SameAt(es: seq<Entry>, fs: seq<Entry>, i: nat, m: nat)
    requires DistinctKeys(fs) && Same(Object(es), Object(fs)) && i < |es| && m < |fs| && es[i].key == fs[m].key
    ensures Same(es[i].value, fs[m].value)
  {
    var j :| 0 <= j < |fs| && fs[j].key == es[i].key && Same(es[i].value, fs[j].value);
    assert j == m;
  }

  lemma {:induction false} ItemsPrintSame(number: nat -> Text, xs: seq<Json>, ys: seq<Json>)
    requires NumberPrinter(number) && GoodItems(xs) && GoodItems(ys) && SameItems(xs, ys)
    ensures PrintItems(number, xs) == PrintItems(number, ys)
    decreases ItemsSize(xs), 1
  {
    if xs != [] {
      if !xs[0].Hole? { SamePrints(number, xs[0], ys[0]); }
      ItemsPrintSame(number, xs[1..], ys[1..]);
    }
  }

  lemma {:induction false} EntriesPrintSame(number: nat -> Text, xs: seq<Entry>, ys: seq<Entry>)
    requires NumberPrinter(number) && GoodEntries(xs) && GoodEntries(ys) && SameEntries(xs, ys)
    ensures PrintEntries(number, xs) == PrintEntries(number, ys)
    decreases EntriesSize(xs), 1
  {
    if xs != [] {
      SamePrints(number, xs[0].value, ys[0].value);
      EntriesPrintSame(number, xs[1..], ys[1..]);
    }
  }

  /**
   * Two JSON values print to the same text exactly when they are the same up to key order and the sign of zero;
   * the one further identification, of an array of one hole with the empty array, is part of `Same`.
   */
  lemma CanonicalIffSame(number: nat -> Text, a: Json, b: Json)
    requires NumberPrinter(number) && WellFormed(a) && WellFormed(b) && Accepted(a) && Accepted(b)
    ensures Canonical(number, a) == Canonical(number, b) <==> Same(a, b)
  {
    if Same(a, b) {
      SamePrints(number, a, b);
    }
    if Print(number, a) == Print(number, b) {
      assert Print(number, a) + [] == Print(number, b) + [];
      Unambiguous(number, a, b, [], []);
    }
  }

  /** The one pair of different arrays that the printer confuses. */
  lemma LoneHole(number: nat -> Text)
    ensures Canonical(number, Array([Hole])) == Canonical(number, Array([])) && Array([Hole]) != Array([])
    ensures forall vs :: Accepted(Array(vs)) && WellFormed(Array(vs)) && NumberPrinter(number) ==>
      (Canonical(number, Array(vs)) == Canonical(number, Array([])) <==> NoItems(vs))
  {
    forall vs | Accepted(Array(vs)) && WellFormed(Array(vs)) && NumberPrinter(number)
      ensures Canonical(number, Array(vs)) == Canonical(number, Array([])) <==> NoItems(vs)
    {
      CanonicalIffSame(number, Array(vs), Array([]));
    }
  }

  // --- Such number printers exist ------------------------------------------

  function DecimalUnit(d: nat): Unit { 48 + d % 10 }

  function UnitValue(u: Unit): nat { if 48 <= u <= 57 then u - 48 else 0 }

  /** Prints the bits in decimal, with both zeros alike. */
  function BitsText(bits: nat): Text {
    Numerals.Numeral(if bits == 0x8000_0000_0000_0000 then 0 else bits, 10, DecimalUnit)
  }

  lemma NumberPrinterExists()
    ensures NumberPrinter(BitsText)
  {
    forall x: nat ensures NumberText(BitsText(x)) {
      Numerals.NumeralDigits(if x == 0x8000_0000_0000_0000 then 0 else x, 10, DecimalUnit, (u: Unit) => 48 <= u <= 57);
    }
    forall x: nat, y: nat | BitsText(x) == BitsText(y) ensures SameNumber(x, y) {
      Numerals.NumeralRoundTrip(if x == 0x8000_0000_0000_0000 then 0 else x, 10, DecimalUnit, UnitValue);
      Numerals.NumeralRoundTrip(if y == 0x8000_0000_0000_0000 then 0 else y, 10, DecimalUnit, UnitValue);
    }
  }
}
