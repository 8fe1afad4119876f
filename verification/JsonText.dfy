/**
 * What canonical JSON text looks like: strings read back by the rules of
 * section 7 of RFC 8259, arrays and objects as joined texts, keys in the
 * lexicographic order of their units, and which values are refused.
 */
module JsonText {
  import opened Bytes
  import opened CanonicalJson

  // --- Strings read back ---------------------------------------------------

  /** A lower-case hexadecimal digit; 16 for anything else. */
  function HexValue(u: Unit): nat { if 48 <= u <= 57 then u - 48 else if 97 <= u <= 102 then u - 87 else 16 }

  predicate FourHex(t: Text) {
    |t| >= 4 && HexValue(t[0]) < 16 && HexValue(t[1]) < 16 && HexValue(t[2]) < 16 && HexValue(t[3]) < 16
  }

  function HexNumber(t: Text): Unit
    requires FourHex(t)
  {
    0x1000 * HexValue(t[0]) + 0x100 * HexValue(t[1]) + 0x10 * HexValue(t[2]) + HexValue(t[3])
  }

  /** The unit that a letter after a backslash stands for; -1 for none. */
  function Escaped(letter: Unit): int {
    match letter
    case 34 => 34
    case 92 => 92
    case 47 => 47
    case 98 => 8
    case 102 => 12
    case 110 => 10
    case 114 => 13
    case 116 => 9
    case _ => -1
  }

  /** The characters of a string up to its closing quote, and the text behind it. */
  function ReadBody(t: Text): Option<(Text, Text)> {
    if t == [] || t[0] < 32 then None
    else if t[0] == 34 then Some(([], t[1..]))
    else if t[0] != 92 then WithUnit(t[0], ReadBody(t[1..]))
    else if |t| >= 2 && Escaped(t[1]) >= 0 then WithUnit(Escaped(t[1]), ReadBody(t[2..]))
    else if |t| >= 6 && t[1] == 117 && FourHex(t[2..]) then WithUnit(HexNumber(t[2..]), ReadBody(t[6..]))
    else None
  }

  function WithUnit(u: Unit, r: Option<(Text, Text)>): Option<(Text, Text)> {
    if r.None? then None else Some(([u] + r.value.0, r.value.1))
  }

  function ReadString(t: Text): Option<(Text, Text)> {
    if t == [] || t[0] != 34 then None else ReadBody(t[1..])
  }

  lemma HexReads(u: Unit, x: Text)
    ensures var t := UnicodeEscape(u) + x;
      && t[0] == 92 && t[1] == 117 && FourHex(t[2..]) && HexNumber(t[2..]) == u && t[6..] == x && |t| >= 6
  {
    var t := UnicodeEscape(u) + x;
    assert t[2..][0] == HexDigit(u / 16 / 16 / 16) && t[2..][1] == HexDigit(u / 16 / 16 % 16);
    assert t[2..][2] == HexDigit(u / 16 % 16) && t[2..][3] == HexDigit(u % 16);
    HexParts(u);
  }

  lemma HexParts(u: Unit)
    ensures u / 16 / 16 / 16 < 16
    ensures u == 0x1000 * (u / 16 / 16 / 16) + 0x100 * (u / 16 / 16 % 16) + 0x10 * (u / 16 % 16) + u % 16
  {
  }

  lemma ShortEscaped(u: Unit)
    requires Short(u) >= 0
    ensures Escaped(Short(u)) == u && Token(u) == [92, Short(u)]
  {
  }

  lemma ShortReads(u: Unit, x: Text)
    requires Short(u) >= 0
    ensures ReadBody(Token(u) + x) == WithUnit(u, ReadBody(x))
  {
    var t := Token(u) + x;
    ShortEscaped(u);
    assert t[0] == 92 && t[1] == Short(u) && t[2..] == x;
  }

  lemma NumericReads(u: Unit, x: Text)
    requires Short(u) < 0 && (u < 32 || High(u) || Low(u))
    ensures ReadBody(Token(u) + x) == WithUnit(u, ReadBody(x))
  {
    HexReads(u, x);
    assert Token(u) == UnicodeEscape(u);
  }

  lemma PlainReads(u: Unit, x: Text)
    requires Short(u) < 0 && u >= 32 && !High(u) && !Low(u)
    ensures ReadBody(Token(u) + x) == WithUnit(u, ReadBody(x))
  {
    var t := Token(u) + x;
    assert Token(u) == [u] && u != 34 && u != 92;
    assert t[1..] == x;
  }

  lemma TokenReads(u: Unit, x: Text)
    ensures ReadBody(Token(u) + x) == WithUnit(u, ReadBody(x))
  {
    if Short(u) >= 0 {
      ShortReads(u, x);
    } else if u < 32 || High(u) || Low(u) {
      NumericReads(u, x);
    } else {
      PlainReads(u, x);
    }
  }

  lemma {:induction false} BodyReads(s: Text, x: Text)
    ensures ReadBody(Body(s) + ([QUOTE] + x)) == Some((s, x))
    decreases |s|
  {
    var end := [QUOTE] + x;
    if s == [] {
      assert Body(s) + end == end && end[1..] == x;
    } else if Paired(s) {
      var more := Body(s[2..]) + end;
      BodyReads(s[2..], x);
      PairReads(s[0], s[1], more);
      Assoc([s[0], s[1]], Body(s[2..]), end);
      assert s == [s[0]] + ([s[1]] + s[2..]);
    } else {
      var more := Body(s[1..]) + end;
      BodyReads(s[1..], x);
      TokenReads(s[0], more);
      Assoc(Token(s[0]), Body(s[1..]), end);
      HeadTail(s);
    }
  }

  lemma PairReads(u: Unit, v: Unit, x: Text)
    requires High(u) && Low(v)
    ensures ReadBody([u, v] + x) == WithUnit(u, WithUnit(v, ReadBody(x)))
  {
    assert ([u, v] + x)[1..] == [v] + x && ([v] + x)[1..] == x;
  }

  /** A quoted string is a JSON string that stands for the string, and it ends at its closing quote. */
  lemma QuoteReads(s: Text, x: Text)
    ensures ReadString(Quote(s) + x) == Some((s, x))
  {
    BodyReads(s, x);
    assert (Quote(s) + x)[1..] == Body(s) + ([QUOTE] + x);
  }

  /** A unit has its two-unit escape if there is one, else a numeric one if it is a control or a surrogate. */
  lemma TokenShape(u: Unit)
    ensures u in {8, 9, 10, 12, 13, 34, 92} ==> |Token(u)| == 2
    ensures u !in {8, 9, 10, 12, 13, 34, 92} ==>
      if u < 32 || 0xd800 <= u <= 0xdfff then |Token(u)| == 6 else Token(u) == [u]
  {
  }

  // --- Arrays and objects --------------------------------------------------

  /** Texts with a separator between each two. */
  function Joined(ts: seq<Text>, separator: Unit): Text {
    if ts == [] then []
    else if |ts| == 1 then ts[0]
    else Joined(ts[..|ts| - 1], separator) + [separator] + ts[|ts| - 1]
  }

  lemma {:induction false} JoinedFirst(ts: seq<Text>, separator: Unit)
    requires |ts| >= 2
    ensures Joined(ts, separator) == ts[0] + ([separator] + Joined(ts[1..], separator))
    decreases |ts|
  {
    var front, last := ts[..|ts| - 1], ts[|ts| - 1];
    assert ts[1..][..|ts| - 2] == front[1..];
    if |ts| == 2 {
      assert Joined(front, separator) == ts[0] && Joined(ts[1..], separator) == last;
    } else {
      JoinedFirst(front, separator);
      var rest := Joined(front[1..], separator);
      assert Joined(ts[1..], separator) == rest + [separator] + last;
      assert ts[0] + ([separator] + rest) + [separator] + last == ts[0] + ([separator] + (rest + [separator] + last));
    }
  }

  function ItemTexts(number: nat -> Text, vs: seq<Json>): seq<Text> {
    seq(|vs|, i requires 0 <= i < |vs| => Print(number, vs[i]))
  }

  lemma {:induction false} ItemsJoin(number: nat -> Text, vs: seq<Json>)
    ensures PrintItems(number, vs) == Joined(ItemTexts(number, vs), 44)
    decreases |vs|
  {
    if |vs| == 1 {
      assert ItemsTail(number, vs) == [];
    } else if |vs| > 1 {
      ItemsJoin(number, vs[1..]);
      assert ItemTexts(number, vs)[1..] == ItemTexts(number, vs[1..]);
      JoinedFirst(ItemTexts(number, vs), 44);
    }
  }

  /** Key in quotes, a colon and the value. */
  function EntryText(number: nat -> Text, e: Entry): Text { Quote(e.key) + [58] + Print(number, e.value) }

  function EntryTexts(number: nat -> Text, es: seq<Entry>): seq<Text> {
    seq(|es|, i requires 0 <= i < |es| => EntryText(number, es[i]))
  }

  lemma {:induction false} EntriesJoin(number: nat -> Text, es: seq<Entry>)
    ensures PrintEntries(number, es) == Joined(EntryTexts(number, es), 44)
    decreases |es|
  {
    if |es| == 1 {
      assert EntriesTail(number, es) == [];
      assert Quote(es[0].key) + [58] + (Print(number, es[0].value) + []) == EntryText(number, es[0]);
    } else if |es| > 1 {
      EntriesJoin(number, es[1..]);
      assert EntryTexts(number, es)[1..] == EntryTexts(number, es[1..]);
      JoinedFirst(EntryTexts(number, es), 44);
      Assoc(Quote(es[0].key) + [58], Print(number, es[0].value), [44] + PrintEntries(number, es[1..]));
    }
  }

  /** The first unit in which the keys differ decides, and a key that continues another comes after it. */
  ghost predicate Precedes(a: Text, b: Text) {
    exists k: nat :: k <= |a| && k < |b| && a[..k] == b[..k] && (k == |a| || a[k] < b[k])
  }

  lemma {:induction false} BeforeIs(a: Text, b: Text)
    ensures Before(a, b) <==> Precedes(a, b)
    decreases |a|
  {
    if a == [] {
      if b != [] { assert a[..0] == b[..0]; }
    } else if b != [] {
      if a[0] == b[0] {
        BeforeIs(a[1..], b[1..]);
        PrecedesTail(a, b);
      } else {
        assert a[..0] == b[..0];
        forall k: nat | k <= |a| && k < |b| && a[..k] == b[..k] ensures k == 0 { FirstAgrees(a, b, k); }
      }
    }
  }

  lemma FirstAgrees(a: Text, b: Text, k: nat)
    requires k <= |a| && k <= |b| && a[..k] == b[..k]
    ensures k == 0 || a[0] == b[0]
  {
    if k > 0 { assert a[..k][0] == a[0] && b[..k][0] == b[0]; }
  }

  lemma PrecedesTail(a: Text, b: Text)
    requires a != [] && b != [] && a[0] == b[0]
    ensures Precedes(a[1..], b[1..]) <==> Precedes(a, b)
  {
    HeadTail(a);
    HeadTail(b);
    forall k: nat | k <= |a[1..]| && k < |b[1..]| && a[1..][..k] == b[1..][..k]
      ensures a[..k + 1] == b[..k + 1]
    {
      assert a[..k + 1] == [a[0]] + a[1..][..k] && b[..k + 1] == [b[0]] + b[1..][..k];
    }
    forall k: nat | 0 < k <= |a| && k < |b| && a[..k] == b[..k]
      ensures a[1..][..k - 1] == b[1..][..k - 1]
    {
      assert a[1..][..k - 1] == a[..k][1..] && b[1..][..k - 1] == b[..k][1..];
    }
    if Precedes(a[1..], b[1..]) {
      var k: nat :| k <= |a[1..]| && k < |b[1..]| && a[1..][..k] == b[1..][..k] &&
        (k == |a[1..]| || a[1..][k] < b[1..][k]);
      assert a[..k + 1] == b[..k + 1];
    }
    if Precedes(a, b) {
      var k: nat :| k <= |a| && k < |b| && a[..k] == b[..k] && (k == |a| || a[k] < b[k]);
      assert k > 0;
      assert a[1..][..k - 1] == b[1..][..k - 1];
    }
  }

  ghost predicate KeysInOrder(es: seq<Entry>) {
    forall i, j :: 0 <= i < j < |es| ==> Precedes(es[i].key, es[j].key)
  }

  lemma OrderIs(es: seq<Entry>)
    ensures Ascending(es) <==> KeysInOrder(es)
  {
    forall i, j | 0 <= i < j < |es| ensures Before(es[i].key, es[j].key) <==> Precedes(es[i].key, es[j].key) {
      BeforeIs(es[i].key, es[j].key);
    }
  }

  lemma OnePlace(es: seq<Entry>, i: nat, j: nat)
    requires Ascending(es) && i < |es| && j < |es| && es[i].key == es[j].key
    ensures i == j
  {
    BeforeTotal(es[i].key, es[j].key);
  }

  /** Entries in key order are determined by which entries they are. */
  lemma SortedUnique(es: seq<Entry>, xs: seq<Entry>)
    requires DistinctKeys(es) && multiset(xs) == multiset(es) && Ascending(xs)
    ensures xs == Sort(es)
  {
    var ys := Sort(es);
    SortAscending(es);
    forall key ensures HasKey(xs, key) <==> HasKey(ys, key) {
      SameMembers(xs, ys, key);
      SameMembers(ys, xs, key);
    }
    Aligned(xs, ys);
    forall i | 0 <= i < |xs| ensures xs[i] == ys[i] {
      assert xs[i] in multiset(ys);
      var j :| 0 <= j < |ys| && ys[j] == xs[i];
      OnePlace(ys, i, j);
    }
  }

  lemma SameMembers(xs: seq<Entry>, ys: seq<Entry>, key: Text)
    requires multiset(xs) == multiset(ys)
    ensures HasKey(xs, key) ==> HasKey(ys, key)
  {
    if HasKey(xs, key) {
      var i :| 0 <= i < |xs| && xs[i].key == key;
      assert xs[i] in multiset(ys);
      var j :| 0 <= j < |ys| && ys[j] == xs[i];
    }
  }

  /** The text of every value in terms of the texts of its parts; `xs` is an object's entries in key order. */
  lemma TextMeaning(number: nat -> Text, vs: seq<Json>, es: seq<Entry>, xs: seq<Entry>, s: Text)
    requires DistinctKeys(es) && multiset(xs) == multiset(es) && KeysInOrder(xs)
    ensures Print(number, Null) == [110, 117, 108, 108]
    ensures Print(number, Bool(true)) == [116, 114, 117, 101]
    ensures Print(number, Bool(false)) == [102, 97, 108, 115, 101]
    ensures Print(number, Str(s)) == Quote(s)
    ensures Print(number, Array(vs)) == [91] + Joined(ItemTexts(number, vs), 44) + [93]
    ensures Print(number, Object(es)) == [123] + Joined(EntryTexts(number, xs), 44) + [125]
    ensures Print(number, Hole) == []
  {
    ItemsJoin(number, vs);
    OrderIs(xs);
    SortedUnique(es, xs);
    SortSize(es);
    EntriesJoin(number, xs);
  }

  // --- Which values are refused --------------------------------------------

  /** A number that is infinite or no number, something that is not JSON, or either anywhere inside; holes are items. */
  predicate Offends(v: Json) {
    match v
    case Null => false
    case Bool(_) => false
    case Number(bits) => (bits / 0x10_0000_0000_0000) % 0x800 == 0x7ff
    case Str(_) => false
    case Array(items) => exists i :: 0 <= i < |items| && !items[i].Hole? && Offends(items[i])
    case Object(entries) => exists i :: 0 <= i < |entries| && Offends(entries[i].value)
    case Hole => true
    case Unsupported => true
  }

  lemma {:induction false} ThrowsExactly(number: nat -> Text, v: Json)
    ensures Accepted(v) <==> !Offends(v)
    ensures Canonical(number, v) == if Offends(v) then Thrown else Printed(Print(number, v))
    decreases v
  {
    match v
    case Array(items) =>
      forall i | 0 <= i < |items| ensures Accepted(items[i]) <==> !Offends(items[i]) {
        ThrowsExactly(number, items[i]);
      }
    case Object(entries) =>
      forall i | 0 <= i < |entries| ensures Accepted(entries[i].value) <==> !Offends(entries[i].value) {
        ThrowsExactly(number, entries[i].value);
      }
    case _ =>
  }
}
