/**
 * The log upload container: one raw packet, or a MessagePack array of packets
 * that is scanned structurally. Byte formats follow the "Formats" section of
 * the MessagePack specification.
 */
module MsgBundle {
  import opened Bytes
  import opened BigEndian

  const RAW_MAGIC: Byte := 0x9a
  const MSG_MAGIC: Byte := 0x01
  const MAX_BUNDLE_ELEMENTS := 4096
  const MAX_SKIP_DEPTH := 128

  // --- MessagePack values --------------------------------------------------

  /**
   * What follows a format byte: a fixed number of bytes; a big-endian length
   * and that many bytes plus `extra`; a number of values given by the byte
   * itself; or a big-endian count of groups of `factor` values.
   */
  datatype Format =
    | Fixed(size: nat)
    | Sized(width: nat, extra: nat)
    | Items(count: nat)
    | Counted(width: nat, factor: nat)
    | Unused

  function FormatOf(first: Byte): Format {
    if first <= 0x7f || first >= 0xe0 then Fixed(0)
    else if first <= 0x8f then Items(2 * (first - 0x80))
    else if first <= 0x9f then Items(first - 0x90)
    else if first <= 0xbf then Fixed(first - 0xa0)
    else if first == 0xc1 then Unused
    else if first <= 0xc3 then Fixed(0)
    else if first <= 0xc6 then Sized(Width(first - 0xc4), 0)
    else if first <= 0xc9 then Sized(Width(first - 0xc7), 1)
    else if first <= 0xcb then Fixed(if first == 0xca then 4 else 8)
    else if first <= 0xcf then Fixed(Scalar(first - 0xcc))
    else if first <= 0xd3 then Fixed(Scalar(first - 0xd0))
    else if first <= 0xd8 then Fixed(1 + if first == 0xd8 then 16 else Scalar(first - 0xd4))
    else if first <= 0xdb then Sized(Width(first - 0xd9), 0)
    else if first <= 0xdd then Counted(if first == 0xdc then 2 else 4, 1)
    else Counted(if first == 0xde then 2 else 4, 2)
  }

  /** Length fields are 1, 2 or 4 bytes wide. */
  function Width(k: nat): nat { if k == 0 then 1 else if k == 1 then 2 else 4 }

  /** Numbers, and the data of the small extensions, take 1, 2, 4 or 8 bytes. */
  function Scalar(k: nat): nat { if k == 0 then 1 else if k == 1 then 2 else if k == 2 then 4 else 8 }

  /** A value together with the format it was written in. */
  datatype Value =
    | Plain(first: Byte, body: seq<Byte>)
    | Blob(first: Byte, body: seq<Byte>)
    | Group(first: Byte, items: seq<Value>)

  predicate WellFormed(v: Value) {
    match v
    case Plain(first, body) => FormatOf(first) == Fixed(|body|)
    case Blob(first, body) =>
      var f := FormatOf(first);
      f.Sized? && f.extra <= |body| && |body| - f.extra < Pow256(f.width)
    case Group(first, items) =>
      var f := FormatOf(first);
      && (f == Items(|items|)
          || (f.Counted? && f.factor > 0 && |items| % f.factor == 0 && |items| / f.factor < Pow256(f.width)))
      && forall i :: 0 <= i < |items| ==> WellFormed(items[i])
  }

  predicate AllWellFormed(vs: seq<Value>) {
    forall i :: 0 <= i < |vs| ==> WellFormed(vs[i])
  }

  function Depth(v: Value): nat
    decreases v, 1
  {
    match v
    case Plain(_, _) => 1
    case Blob(_, _) => 1
    case Group(_, items) => 1 + MaxDepth(items)
  }

  function MaxDepth(vs: seq<Value>): nat
    decreases vs, 0
  {
    if vs == [] then 0
    else if Depth(vs[0]) > MaxDepth(vs[1..]) then Depth(vs[0]) else MaxDepth(vs[1..])
  }

  function Encode(v: Value): seq<Byte>
    decreases v, 1
  {
    match v
    case Plain(first, body) => [first] + body
    case Blob(first, body) =>
      var f := FormatOf(first);
      if f.Sized? && f.extra <= |body| then [first] + Digits(|body| - f.extra, f.width) + body else [first] + body
    case Group(first, items) =>
      var f := FormatOf(first);
      if f.Counted? && f.factor > 0
      then [first] + Digits(|items| / f.factor, f.width) + EncodeAll(items)
      else [first] + EncodeAll(items)
  }

  function EncodeAll(vs: seq<Value>): seq<Byte>
    decreases vs, 0
  {
    if vs == [] then [] else Encode(vs[0]) + EncodeAll(vs[1..])
  }

  // --- Reading values back -------------------------------------------------

  function ReadNumber(b: seq<Byte>, width: nat): Read<nat> {
    if |b| < width then Fail else Got(Number(b[..width]), b[width..])
  }

  /** One value nested at most `levels` deep. */
  function ReadValue(b: seq<Byte>, levels: nat): (r: Read<Value>)
    ensures r.Got? ==> |r.rest| < |b|
    decreases |b|, 0
  {
    if b == [] || levels == 0 then Fail
    else
      var first, tail := b[0], b[1..];
      match FormatOf(first)
      case Unused => Fail
      case Fixed(size) =>
        (match ReadBytes(tail, size)
         case Fail => Fail
         case Got(body, rest) => Got(Plain(first, body), rest))
      case Sized(width, extra) =>
        (match ReadNumber(tail, width)
         case Fail => Fail
         case Got(n, tail2) =>
           match ReadBytes(tail2, n + extra)
           case Fail => Fail
           case Got(body, rest) => Got(Blob(first, body), rest))
      case Items(count) =>
        (match ReadItems(tail, count, levels - 1)
         case Fail => Fail
         case Got(items, rest) => Got(Group(first, items), rest))
      case Counted(width, factor) =>
        (match ReadNumber(tail, width)
         case Fail => Fail
         case Got(n, tail2) =>
           match ReadItems(tail2, n * factor, levels - 1)
           case Fail => Fail
           case Got(items, rest) => Got(Group(first, items), rest))
  }

  function ReadItems(b: seq<Byte>, n: nat, levels: nat): (r: Read<seq<Value>>)
    ensures r.Got? ==> |r.rest| <= |b|
    decreases |b|, 1
  {
    if n == 0 then Got([], b)
    else
      match ReadValue(b, levels)
      case Fail => Fail
      case Got(v, rest) =>
        match ReadItems(rest, n - 1, levels)
        case Fail => Fail
        case Got(vs, end) => Got([v] + vs, end)
  }

  lemma FormatShapes(first: Byte)
    ensures FormatOf(first).Sized? ==> FormatOf(first).width in {1, 2, 4}
    ensures FormatOf(first).Counted? ==> FormatOf(first).width in {2, 4} && FormatOf(first).factor in {1, 2}
  {
  }

  /** What is read is a well-formed value within the depth, and its encoding is what was consumed. */
  lemma {:induction false} ReadValueSound(b: seq<Byte>, levels: nat)
    requires ReadValue(b, levels).Got?
    ensures var r := ReadValue(b, levels);
            WellFormed(r.value) && Depth(r.value) <= levels && b == Encode(r.value) + r.rest
    decreases |b|, 0
  {
    var first, tail := b[0], b[1..];
    var r := ReadValue(b, levels);
    FormatShapes(first);
    match FormatOf(first)
    case Unused =>
    case Fixed(size) =>
      FixedSound(b, size);
    case Sized(width, extra) =>
      SizedSound(b, width, extra, r.value.body, r.rest);
    case Items(count) =>
      ReadItemsSound(tail, count, levels - 1);
      InlineSound(b, count, r.value.items, r.rest);
    case Counted(width, factor) =>
      var n, tail2 := Number(tail[..width]), tail[width..];
      ReadItemsSound(tail2, n * factor, levels - 1);
      CountedSound(b, width, factor, r.value.items, r.rest);
  }

  lemma Rejoin(b: seq<Byte>, width: nat, body: seq<Byte>, rest: seq<Byte>)
    requires 1 + width <= |b| && b[1..][width..] == body + rest
    ensures b == [b[0]] + b[1..][..width] + body + rest
  {
    var tail := b[1..];
    assert b == [b[0]] + tail && tail == tail[..width] + tail[width..];
  }

  lemma FixedSound(b: seq<Byte>, size: nat)
    requires b != [] && FormatOf(b[0]) == Fixed(size) && size <= |b| - 1
    ensures WellFormed(Plain(b[0], b[1..][..size])) && b == Encode(Plain(b[0], b[1..][..size])) + b[1..][size..]
  {
  }

  lemma InlineSound(b: seq<Byte>, count: nat, items: seq<Value>, rest: seq<Byte>)
    requires b != [] && FormatOf(b[0]) == Items(count) && |items| == count && AllWellFormed(items)
    requires b[1..] == EncodeAll(items) + rest
    ensures WellFormed(Group(b[0], items)) && b == Encode(Group(b[0], items)) + rest
  {
    HeadTail(b);
    Assoc([b[0]], EncodeAll(items), rest);
  }

  lemma SizedSound(b: seq<Byte>, width: nat, extra: nat, body: seq<Byte>, rest: seq<Byte>)
    requires b != [] && FormatOf(b[0]) == Sized(width, extra) && width + 1 <= |b|
    requires ReadBytes(b[1..][width..], Number(b[1..][..width]) + extra) == Got(body, rest)
    ensures WellFormed(Blob(b[0], body)) && b == Encode(Blob(b[0], body)) + rest
  {
    var length := b[1..][..width];
    assert b[1..][width..] == body + rest;
    Rejoin(b, width, body, rest);
    DigitsOfNumber(length);
    assert |body| - extra == Number(length);
  }

  lemma CountedSound(b: seq<Byte>, width: nat, factor: nat, items: seq<Value>, rest: seq<Byte>)
    requires b != [] && FormatOf(b[0]) == Counted(width, factor) && factor in {1, 2} && width + 1 <= |b|
    requires |items| == Number(b[1..][..width]) * factor && AllWellFormed(items)
    requires b[1..][width..] == EncodeAll(items) + rest
    ensures WellFormed(Group(b[0], items)) && b == Encode(Group(b[0], items)) + rest
  {
    Rejoin(b, width, EncodeAll(items), rest);
    DigitsOfNumber(b[1..][..width]);
    Multiple(Number(b[1..][..width]), factor);
  }

  lemma Multiple(n: nat, factor: nat)
    requires factor in {1, 2}
    ensures (n * factor) / factor == n && (n * factor) % factor == 0
    ensures n % factor == 0 ==> (n / factor) * factor == n
  {
    if factor == 1 {
      assert n * factor == n;
    } else {
      assert n * factor == 2 * n;
    }
  }

  lemma {:induction false} ReadItemsSound(b: seq<Byte>, n: nat, levels: nat)
    requires ReadItems(b, n, levels).Got?
    ensures var r := ReadItems(b, n, levels);
            && |r.value| == n && AllWellFormed(r.value) && MaxDepth(r.value) <= levels
            && b == EncodeAll(r.value) + r.rest
    decreases |b|, 1
  {
    if n > 0 {
      var v := ReadValue(b, levels);
      ReadValueSound(b, levels);
      ReadItemsSound(v.rest, n - 1, levels);
      var r, t := ReadItems(b, n, levels), ReadItems(v.rest, n - 1, levels);
      ItemsJoin(v.value, t.value, t.rest, levels);
    }
  }

  lemma ItemsJoin(v: Value, vs: seq<Value>, rest: seq<Byte>, levels: nat)
    requires WellFormed(v) && AllWellFormed(vs) && Depth(v) <= levels && MaxDepth(vs) <= levels
    ensures AllWellFormed([v] + vs) && MaxDepth([v] + vs) <= levels
    ensures EncodeAll([v] + vs) + rest == Encode(v) + (EncodeAll(vs) + rest)
  {
    TailOfCons(v, vs);
    Assoc(Encode(v), EncodeAll(vs), rest);
  }

  /** Every well-formed value within the depth is read back from its encoding, whatever follows it. */
  lemma {:induction false} ReadValueComplete(v: Value, rest: seq<Byte>, levels: nat)
    requires WellFormed(v) && Depth(v) <= levels
    ensures ReadValue(Encode(v) + rest, levels) == Got(v, rest)
    decreases v
  {
    match v
    case Plain(_, _) => PlainComplete(v, rest, levels);
    case Blob(_, _) => BlobComplete(v, rest, levels);
    case Group(_, items) =>
      ReadItemsComplete(items, rest, levels - 1);
      if FormatOf(v.first).Counted? {
        CountedComplete(v, rest, levels);
      } else {
        InlineComplete(v, rest, levels);
      }
  }

  lemma PlainComplete(v: Value, rest: seq<Byte>, levels: nat)
    requires v.Plain? && WellFormed(v) && levels > 0
    ensures ReadValue(Encode(v) + rest, levels) == Got(v, rest)
  {
    var b := Encode(v) + rest;
    assert b[0] == v.first && b[1..] == v.body + rest;
    assert ReadBytes(v.body + rest, |v.body|) == Got(v.body, rest);
  }

  lemma BlobComplete(v: Value, rest: seq<Byte>, levels: nat)
    requires v.Blob? && WellFormed(v) && levels > 0
    ensures ReadValue(Encode(v) + rest, levels) == Got(v, rest)
  {
    var f := FormatOf(v.first);
    var n := |v.body| - f.extra;
    LengthRead(v.first, n, f.width, v.body + rest);
    assert Encode(v) + rest == [v.first] + Digits(n, f.width) + (v.body + rest);
    assert ReadBytes(v.body + rest, n + f.extra) == Got(v.body, rest);
  }

  lemma InlineComplete(v: Value, rest: seq<Byte>, levels: nat)
    requires v.Group? && WellFormed(v) && FormatOf(v.first).Items? && levels > 0
    requires ReadItems(EncodeAll(v.items) + rest, |v.items|, levels - 1) == Got(v.items, rest)
    ensures ReadValue(Encode(v) + rest, levels) == Got(v, rest)
  {
    var b := Encode(v) + rest;
    assert b[0] == v.first && b[1..] == EncodeAll(v.items) + rest;
  }

  /** A length field in front of `tail` is read back. */
  lemma LengthRead(first: Byte, n: nat, width: nat, tail: seq<Byte>)
    requires n < Pow256(width)
    ensures var b := [first] + Digits(n, width) + tail;
            b[0] == first && ReadNumber(b[1..], width) == Got(n, tail)
  {
    NumberOfDigits(n, width);
    var b := [first] + Digits(n, width) + tail;
    assert b[1..] == Digits(n, width) + tail;
  }

  lemma CountedComplete(v: Value, rest: seq<Byte>, levels: nat)
    requires v.Group? && WellFormed(v) && FormatOf(v.first).Counted? && levels > 0
    requires ReadItems(EncodeAll(v.items) + rest, |v.items|, levels - 1) == Got(v.items, rest)
    ensures ReadValue(Encode(v) + rest, levels) == Got(v, rest)
  {
    var f, items := FormatOf(v.first), v.items;
    FormatShapes(v.first);
    var n := |items| / f.factor;
    Multiple(|items|, f.factor);
    LengthRead(v.first, n, f.width, EncodeAll(items) + rest);
    var b := [v.first] + Digits(n, f.width) + (EncodeAll(items) + rest);
    Assoc([v.first] + Digits(n, f.width), EncodeAll(items), rest);
  }

  lemma {:induction false} ReadItemsComplete(vs: seq<Value>, rest: seq<Byte>, levels: nat)
    requires AllWellFormed(vs) && MaxDepth(vs) <= levels
    ensures ReadItems(EncodeAll(vs) + rest, |vs|, levels) == Got(vs, rest)
    decreases vs
  {
    if vs == [] {
      assert EncodeAll(vs) + rest == rest;
    } else {
      var tail := EncodeAll(vs[1..]) + rest;
      Assoc(Encode(vs[0]), EncodeAll(vs[1..]), rest);
      ReadValueComplete(vs[0], tail, levels);
      ReadItemsComplete(vs[1..], rest, levels);
      HeadTail(vs);
    }
  }

  // --- The bundle ----------------------------------------------------------

  datatype ErrorKind = InvalidMagic | InvalidMsgpack | TooManyElements

  datatype Container = Container(elements: seq<seq<Byte>>, dropped: nat)

  datatype Result = Ok(container: Container) | Err(kind: ErrorKind)

  /** The packets a bundle delivers: bodies of its non-empty bin8 and bin16 elements, in order. */
  function Packets(vs: seq<Value>): (ps: seq<seq<Byte>>)
    ensures |ps| <= |vs|
  {
    if vs == [] then []
    else
      (if vs[0].first in {0xc4, 0xc5} && vs[0].Blob? && vs[0].body != [] then [vs[0].body] else [])
      + Packets(vs[1..])
  }

  function ReadArrayHeader(b: seq<Byte>): Read<nat> {
    if b == [] then Fail
    else if 0x90 <= b[0] <= 0x9f then Got(b[0] - 0x90, b[1..])
    else if b[0] == 0xdc then ReadNumber(b[1..], 2)
    else if b[0] == 0xdd then ReadNumber(b[1..], 4)
    else Fail
  }

  function Bundle(payload: seq<Byte>): Result {
    match ReadArrayHeader(payload)
    case Fail => Err(InvalidMsgpack)
    case Got(declared, tail) =>
      if declared > MAX_BUNDLE_ELEMENTS then Err(TooManyElements)
      else if declared == 0 then Err(InvalidMsgpack)
      else
        match ReadItems(tail, declared, MAX_SKIP_DEPTH)
        case Fail => Err(InvalidMsgpack)
        case Got(vs, rest) =>
          if rest != [] then Err(InvalidMsgpack)
          else ReadItemsSound(tail, declared, MAX_SKIP_DEPTH);
               Ok(Container(Packets(vs), declared - |Packets(vs)|))
  }

  /** The three ways of writing an array header for n elements. */
  predicate ArrayHeader(h: seq<Byte>, n: nat) {
    || (n <= 15 && h == [0x90 + n])
    || (n < 65536 && h == [0xdc] + Digits(n, 2))
    || (n < 4294967296 && h == [0xdd] + Digits(n, 4))
  }

  lemma ReadArrayHeaderSound(b: seq<Byte>)
    requires ReadArrayHeader(b).Got?
    ensures var r := ReadArrayHeader(b); exists h :: ArrayHeader(h, r.value) && b == h + r.rest
  {
    var r := ReadArrayHeader(b);
    var width := if b[0] == 0xdc then 2 else if b[0] == 0xdd then 4 else 0;
    assert Pow256(2) == 65536 && Pow256(4) == 4294967296;
    if width > 0 { DigitsOfNumber(b[1..][..width]); }
    var h := [b[0]] + b[1..][..width];
    assert b == h + r.rest;
    assert ArrayHeader(h, r.value);
  }

  lemma ReadArrayHeaderComplete(h: seq<Byte>, n: nat, rest: seq<Byte>)
    requires ArrayHeader(h, n)
    ensures ReadArrayHeader(h + rest) == Got(n, rest)
  {
    assert Pow256(2) == 65536 && Pow256(4) == 4294967296;
    var b := h + rest;
    if h[0] == 0xdc {
      NumberOfDigits(n, 2);
      assert b[1..] == Digits(n, 2) + rest;
    } else if h[0] == 0xdd {
      NumberOfDigits(n, 4);
      assert b[1..] == Digits(n, 4) + rest;
    } else {
      assert b[1..] == rest;
    }
  }

  /** `payload` is an array header for |vs| elements, then exactly the elements vs. */
  ghost predicate IsBundle(payload: seq<Byte>, vs: seq<Value>) {
    && 1 <= |vs| <= 4096
    && AllWellFormed(vs) && MaxDepth(vs) <= 128
    && exists h :: ArrayHeader(h, |vs|) && payload == h + EncodeAll(vs)
  }

  /** A bundle is accepted exactly when it is one, and then yields exactly its packets. */
  lemma BundleAccepted(payload: seq<Byte>)
    ensures Bundle(payload).Ok? <==> exists vs :: IsBundle(payload, vs)
    ensures forall vs :: IsBundle(payload, vs) ==>
              Bundle(payload) == Ok(Container(Packets(vs), |vs| - |Packets(vs)|))
  {
    forall vs | IsBundle(payload, vs)
      ensures Bundle(payload) == Ok(Container(Packets(vs), |vs| - |Packets(vs)|))
    {
      IsBundleParses(payload, vs);
    }
    if Bundle(payload).Ok? {
      ReadArrayHeaderSound(payload);
      var r := ReadArrayHeader(payload);
      ReadItemsSound(r.rest, r.value, MAX_SKIP_DEPTH);
      var vs := ReadItems(r.rest, r.value, MAX_SKIP_DEPTH).value;
      assert r.rest == EncodeAll(vs);
      assert IsBundle(payload, vs);
    }
  }

  lemma IsBundleParses(payload: seq<Byte>, vs: seq<Value>)
    requires IsBundle(payload, vs)
    ensures Bundle(payload) == Ok(Container(Packets(vs), |vs| - |Packets(vs)|))
  {
    var h :| ArrayHeader(h, |vs|) && payload == h + EncodeAll(vs);
    ReadArrayHeaderComplete(h, |vs|, EncodeAll(vs));
    ReadItemsComplete(vs, [], MAX_SKIP_DEPTH);
    assert EncodeAll(vs) + [] == EncodeAll(vs);
  }

  /** The element list of a bundle is determined by its bytes. */
  lemma BundleUnambiguous(payload: seq<Byte>, vs: seq<Value>, ws: seq<Value>)
    requires IsBundle(payload, vs) && IsBundle(payload, ws)
    ensures vs == ws
  {
    var h :| ArrayHeader(h, |vs|) && payload == h + EncodeAll(vs);
    var k :| ArrayHeader(k, |ws|) && payload == k + EncodeAll(ws);
    ReadArrayHeaderComplete(h, |vs|, EncodeAll(vs));
    ReadArrayHeaderComplete(k, |ws|, EncodeAll(ws));
    ReadItemsComplete(vs, [], MAX_SKIP_DEPTH);
    ReadItemsComplete(ws, [], MAX_SKIP_DEPTH);
    assert EncodeAll(vs) + [] == EncodeAll(vs);
    assert EncodeAll(ws) + [] == EncodeAll(ws);
  }

  /** A payload declares this many elements. */
  ghost predicate Declares(payload: seq<Byte>, n: nat) {
    exists h, rest :: ArrayHeader(h, n) && payload == h + rest
  }

  /** A bundle that declares more than 4096 elements is refused as such; every other refusal is for its bytes. */
  lemma BundleErrors(payload: seq<Byte>)
    ensures Bundle(payload) == Err(TooManyElements) <==> exists n :: n > 4096 && Declares(payload, n)
    ensures Bundle(payload) in {Err(TooManyElements), Err(InvalidMsgpack)} || Bundle(payload).Ok?
  {
    if ReadArrayHeader(payload).Got? {
      ReadArrayHeaderSound(payload);
      var r := ReadArrayHeader(payload);
      assert Declares(payload, r.value);
    }
    forall n | n > 4096 && Declares(payload, n) ensures Bundle(payload) == Err(TooManyElements) {
      var h, rest :| ArrayHeader(h, n) && payload == h + rest;
      ReadArrayHeaderComplete(h, n, rest);
    }
  }

  /** The packets of two runs of elements, one after the other. */
  lemma {:induction false} PacketsJoin(vs: seq<Value>, ws: seq<Value>)
    ensures Packets(vs + ws) == Packets(vs) + Packets(ws)
  {
    if vs == [] {
      assert vs + ws == ws;
    } else {
      assert (vs + ws)[0] == vs[0] && (vs + ws)[1..] == vs[1..] + ws;
      PacketsJoin(vs[1..], ws);
    }
  }

  /** The format byte in front of each kind of value, from the table of the MessagePack specification. */
  lemma FormatTable(k: nat)
    ensures k <= 0x7f ==> FormatOf(k) == Fixed(0)
    ensures k <= 0x1f ==> FormatOf(0xe0 + k) == Fixed(0) && FormatOf(0xa0 + k) == Fixed(k)
    ensures k <= 0x0f ==> FormatOf(0x90 + k) == Items(k) && FormatOf(0x80 + k) == Items(k + k)
    ensures FormatOf(0xc0) == FormatOf(0xc2) == FormatOf(0xc3) == Fixed(0) && FormatOf(0xc1) == Unused
    ensures FormatOf(0xc4) == FormatOf(0xd9) == Sized(1, 0)
    ensures FormatOf(0xc5) == FormatOf(0xda) == Sized(2, 0)
    ensures FormatOf(0xc6) == FormatOf(0xdb) == Sized(4, 0)
    ensures FormatOf(0xc7) == Sized(1, 1) && FormatOf(0xc8) == Sized(2, 1) && FormatOf(0xc9) == Sized(4, 1)
    ensures FormatOf(0xcc) == FormatOf(0xd0) == Fixed(1) && FormatOf(0xcd) == FormatOf(0xd1) == Fixed(2)
    ensures FormatOf(0xca) == FormatOf(0xce) == FormatOf(0xd2) == Fixed(4)
    ensures FormatOf(0xcb) == FormatOf(0xcf) == FormatOf(0xd3) == Fixed(8)
    ensures FormatOf(0xd4) == Fixed(2) && FormatOf(0xd5) == Fixed(3) && FormatOf(0xd6) == Fixed(5)
    ensures FormatOf(0xd7) == Fixed(9) && FormatOf(0xd8) == Fixed(17)
    ensures FormatOf(0xdc) == Counted(2, 1) && FormatOf(0xdd) == Counted(4, 1)
    ensures FormatOf(0xde) == Counted(2, 2) && FormatOf(0xdf) == Counted(4, 2)
  {
  }

  lemma NumberAppend(bs: seq<Byte>, d: Byte)
    ensures Number(bs + [d]) == 0x100 * Number(bs) + d
  {
    assert (bs + [d])[..|bs|] == bs;
  }

  /** Length fields have their most significant byte first. */
  lemma LengthMeaning(x: Byte, y: Byte, z: Byte, w: Byte, rest: seq<Byte>)
    ensures ReadNumber([x] + rest, 1) == Got(x, rest)
    ensures ReadNumber([x, y] + rest, 2) == Got(0x100 * x as nat + y as nat, rest)
    ensures ReadNumber([x, y, z, w] + rest, 4)
      == Got(0x100_0000 * x as nat + 0x1_0000 * y as nat + 0x100 * z as nat + w as nat, rest)
  {
    NumberAppend([], x);
    NumberAppend([x], y);
    NumberAppend([x, y], z);
    NumberAppend([x, y, z], w);
    assert [] + [x] == [x] && [x] + [y] == [x, y] && [x, y] + [z] == [x, y, z] && [x, y, z] + [w] == [x, y, z, w];
    assert ([x] + rest)[..1] == [x] && ([x] + rest)[1..] == rest;
    assert ([x, y] + rest)[..2] == [x, y] && ([x, y] + rest)[2..] == rest;
    assert ([x, y, z, w] + rest)[..4] == [x, y, z, w] && ([x, y, z, w] + rest)[4..] == rest;
  }

  /** An upload is one packet as it is, a bundle behind its magic byte, or neither. */
  lemma ContainerMeaning(bytes: seq<Byte>, vs: seq<Value>)
    ensures ParseContainer(bytes) == Err(InvalidMagic) <==> bytes == [] || bytes[0] !in {0x9a, 0x01}
    ensures bytes != [] && bytes[0] == 0x9a ==> ParseContainer(bytes) == Ok(Container([bytes], 0))
    ensures bytes != [] && bytes[0] == 0x01 && IsBundle(bytes[1..], vs) ==>
      ParseContainer(bytes) == Ok(Container(Packets(vs), |vs| - |Packets(vs)|))
    ensures bytes != [] && bytes[0] == 0x01 && ParseContainer(bytes).Ok? ==> exists ws :: IsBundle(bytes[1..], ws)
  {
    if bytes != [] && bytes[0] == 0x01 {
      BundleErrors(bytes[1..]);
      BundleAccepted(bytes[1..]);
    }
  }

  function ParseContainer(bytes: seq<Byte>): Result {
    if bytes == [] then Err(InvalidMagic)
    else if bytes[0] == RAW_MAGIC then Ok(Container([bytes], 0))
    else if bytes[0] != MSG_MAGIC then Err(InvalidMagic)
    else Bundle(bytes[1..])
  }

  // --- The scanner ---------------------------------------------------------

  /** A byte reader that never moves past the end. */
  class Reader {
    const bytes: seq<Byte>
    var pos: nat

    constructor (bytes: seq<Byte>)
      ensures this.bytes == bytes && pos == 0 && Valid()
    {
      this.bytes := bytes;
      pos := 0;
    }

    ghost predicate Valid()
      reads this
    {
      pos <= |bytes|
    }

    ghost function Rest(): seq<Byte>
      requires Valid()
      reads this
    {
      bytes[pos..]
    }

    method U8() returns (v: Option<Byte>)
      requires Valid()
      modifies this
      ensures Valid() && old(pos) <= pos
      ensures v.None? <==> old(Rest()) == []
      ensures v.None? ==> Rest() == old(Rest())
      ensures v.Some? ==> old(Rest()) == [v.value] + Rest() && pos == old(pos) + 1
    {
      if |bytes| - pos < 1 { return None; }
      v := Some(bytes[pos]);
      pos := pos + 1;
    }

    /** The 1-, 2- and 4-byte length reads. */
    method Count(width: nat) returns (v: Option<nat>)
      requires Valid()
      modifies this
      ensures Valid() && old(pos) <= pos
      ensures v.None? <==> ReadNumber(old(Rest()), width).Fail?
      ensures v.Some? ==> ReadNumber(old(Rest()), width) == Got(v.value, Rest())
    {
      if |bytes| - pos < width { return None; }
      var n: nat := 0;
      ghost var start := pos;
      var i := 0;
      while i < width
        invariant i <= width && pos == start + i <= |bytes|
        invariant n == Number(bytes[start..pos])
      {
        assert bytes[start..pos + 1][..i] == bytes[start..pos];
        n := 256 * n + bytes[pos];
        pos := pos + 1;
        i := i + 1;
      }
      assert old(Rest())[..width] == bytes[start..pos];
      v := Some(n);
    }

    method Take(n: nat) returns (v: Option<seq<Byte>>)
      requires Valid()
      modifies this
      ensures Valid() && old(pos) <= pos
      ensures v.None? <==> ReadBytes(old(Rest()), n).Fail?
      ensures v.Some? ==> ReadBytes(old(Rest()), n) == Got(v.value, Rest())
    {
      if n > |bytes| - pos { return None; }
      v := Some(bytes[pos..pos + n]);
      assert v.value == Rest()[..n];
      pos := pos + n;
    }
  }

  /** Nesting levels left to a value skipped at `depth`. */
  function LevelsAt(depth: nat): nat {
    if depth > MAX_SKIP_DEPTH then 0 else MAX_SKIP_DEPTH + 1 - depth
  }

  /** One value can be read after its first byte, and what is left then. */
  ghost predicate Skips(before: seq<Byte>, first: Byte, depth: nat, ok: bool, after: seq<Byte>) {
    var r := ReadValue([first] + before, LevelsAt(depth));
    (ok <==> r.Got?) && (ok ==> r.rest == after)
  }

  lemma SkipsUnfold(before: seq<Byte>, first: Byte)
    ensures ([first] + before)[0] == first && ([first] + before)[1..] == before
  {
  }

  method SkipFixed(reader: Reader, first: Byte, size: nat, depth: nat) returns (ok: bool)
    requires reader.Valid() && 1 <= depth <= MAX_SKIP_DEPTH && FormatOf(first) == Fixed(size)
    modifies reader
    ensures reader.Valid() && old(reader.pos) <= reader.pos
    ensures Skips(old(reader.Rest()), first, depth, ok, reader.Rest())
  {
    SkipsUnfold(reader.Rest(), first);
    var data := reader.Take(size);
    ok := data.Some?;
  }

  lemma SizedUnfold(before: seq<Byte>, first: Byte, width: nat, extra: nat, depth: nat)
    requires 1 <= depth <= MAX_SKIP_DEPTH && FormatOf(first) == Sized(width, extra)
    ensures var r := ReadValue([first] + before, LevelsAt(depth));
      match ReadNumber(before, width)
      case Fail => r.Fail?
      case Got(n, tail) =>
        match ReadBytes(tail, n + extra)
        case Fail => r.Fail?
        case Got(_, rest) => r.Got? && r.rest == rest
  {
    SkipsUnfold(before, first);
  }

  method SkipSized(reader: Reader, first: Byte, width: nat, extra: nat, depth: nat) returns (ok: bool)
    requires reader.Valid() && 1 <= depth <= MAX_SKIP_DEPTH && FormatOf(first) == Sized(width, extra)
    modifies reader
    ensures reader.Valid() && old(reader.pos) <= reader.pos
    ensures Skips(old(reader.Rest()), first, depth, ok, reader.Rest())
  {
    SizedUnfold(reader.Rest(), first, width, extra, depth);
    var len := reader.Count(width);
    if len.None? { return false; }
    var data := reader.Take(len.value + extra);
    ok := data.Some?;
  }

  /** The element loop shared by every array and map format. */
  method SkipItems(reader: Reader, n: nat, depth: nat) returns (ok: bool)
    requires reader.Valid() && 1 <= depth
    modifies reader
    ensures reader.Valid() && old(reader.pos) <= reader.pos
    ensures ok <==> ReadItems(old(reader.Rest()), n, LevelsAt(depth)).Got?
    ensures ok ==> ReadItems(old(reader.Rest()), n, LevelsAt(depth)).rest == reader.Rest()
    decreases |reader.bytes| - reader.pos, 1
  {
    ghost var whole := ReadItems(reader.Rest(), n, LevelsAt(depth));
    var i := 0;
    while i < n
      invariant 0 <= i <= n && reader.Valid() && old(reader.pos) <= reader.pos
      invariant whole.Got? <==> ReadItems(reader.Rest(), n - i, LevelsAt(depth)).Got?
      invariant whole.Got? ==> whole.rest == ReadItems(reader.Rest(), n - i, LevelsAt(depth)).rest
      decreases n - i
    {
      ghost var rest := reader.Rest();
      var b := reader.U8();
      if b.None? { return false; }
      assert rest == [b.value] + reader.Rest();
      var one := SkipMsgValue(reader, b.value, depth);
      if !one { return false; }
      i := i + 1;
    }
    ok := true;
  }

  method SkipInline(reader: Reader, first: Byte, count: nat, depth: nat) returns (ok: bool)
    requires reader.Valid() && 1 <= depth <= MAX_SKIP_DEPTH && FormatOf(first) == Items(count)
    modifies reader
    ensures reader.Valid() && old(reader.pos) <= reader.pos
    ensures Skips(old(reader.Rest()), first, depth, ok, reader.Rest())
    decreases |reader.bytes| - reader.pos, 2
  {
    SkipsUnfold(reader.Rest(), first);
    ok := SkipItems(reader, count, depth + 1);
  }

  method SkipCounted(reader: Reader, first: Byte, width: nat, factor: nat, depth: nat) returns (ok: bool)
    requires reader.Valid() && 1 <= depth <= MAX_SKIP_DEPTH && FormatOf(first) == Counted(width, factor)
    modifies reader
    ensures reader.Valid() && old(reader.pos) <= reader.pos
    ensures Skips(old(reader.Rest()), first, depth, ok, reader.Rest())
    decreases |reader.bytes| - reader.pos, 2
  {
    SkipsUnfold(reader.Rest(), first);
    var len := reader.Count(width);
    if len.None? { return false; }
    ok := SkipItems(reader, len.value * factor, depth + 1);
  }

  /** Skips one value whose first byte has been consumed. */
  method SkipMsgValue(reader: Reader, first: Byte, depth: nat) returns (ok: bool)
    requires reader.Valid() && depth >= 1
    modifies reader
    ensures reader.Valid() && old(reader.pos) <= reader.pos
    ensures Skips(old(reader.Rest()), first, depth, ok, reader.Rest())
    decreases |reader.bytes| - reader.pos, 3
  {
    if depth > MAX_SKIP_DEPTH { return false; }
    if first <= 0x7f || first >= 0xe0 { ok := SkipFixed(reader, first, 0, depth); }
    else if 0xa0 <= first <= 0xbf { ok := SkipFixed(reader, first, first - 0xa0, depth); }
    else if 0x90 <= first <= 0x9f { ok := SkipInline(reader, first, first - 0x90, depth); }
    else if 0x80 <= first <= 0x8f { ok := SkipInline(reader, first, 2 * (first - 0x80), depth); }
    else {
      match first
      case 0xc0 => ok := SkipFixed(reader, first, 0, depth);
      case 0xc2 => ok := SkipFixed(reader, first, 0, depth);
      case 0xc3 => ok := SkipFixed(reader, first, 0, depth);
      case 0xc4 => ok := SkipSized(reader, first, 1, 0, depth);
      case 0xc5 => ok := SkipSized(reader, first, 2, 0, depth);
      case 0xc6 => ok := SkipSized(reader, first, 4, 0, depth);
      case 0xca => ok := SkipFixed(reader, first, 4, depth);
      case 0xcb => ok := SkipFixed(reader, first, 8, depth);
      case 0xcc => ok := SkipFixed(reader, first, 1, depth);
      case 0xd0 => ok := SkipFixed(reader, first, 1, depth);
      case 0xcd => ok := SkipFixed(reader, first, 2, depth);
      case 0xd1 => ok := SkipFixed(reader, first, 2, depth);
      case 0xce => ok := SkipFixed(reader, first, 4, depth);
      case 0xd2 => ok := SkipFixed(reader, first, 4, depth);
      case 0xcf => ok := SkipFixed(reader, first, 8, depth);
      case 0xd3 => ok := SkipFixed(reader, first, 8, depth);
      case 0xd4 => ok := SkipFixed(reader, first, 2, depth);
      case 0xd5 => ok := SkipFixed(reader, first, 3, depth);
      case 0xd6 => ok := SkipFixed(reader, first, 5, depth);
      case 0xd7 => ok := SkipFixed(reader, first, 9, depth);
      case 0xd8 => ok := SkipFixed(reader, first, 17, depth);
      case 0xc7 => ok := SkipSized(reader, first, 1, 1, depth);
      case 0xc8 => ok := SkipSized(reader, first, 2, 1, depth);
      case 0xc9 => ok := SkipSized(reader, first, 4, 1, depth);
      case 0xd9 => ok := SkipSized(reader, first, 1, 0, depth);
      case 0xda => ok := SkipSized(reader, first, 2, 0, depth);
      case 0xdb => ok := SkipSized(reader, first, 4, 0, depth);
      case 0xdc => ok := SkipCounted(reader, first, 2, 1, depth);
      case 0xdd => ok := SkipCounted(reader, first, 4, 1, depth);
      case 0xde => ok := SkipCounted(reader, first, 2, 2, depth);
      case 0xdf => ok := SkipCounted(reader, first, 4, 2, depth);
      case _ =>
        SkipsUnfold(reader.Rest(), first);
        ok := false;
    }
  }

  /** The elements and drop count after some of the bundle's values, and what is still to be read. */
  ghost predicate Scanned(start: seq<Byte>, declared: nat, i: nat, rest: seq<Byte>,
                          elements: seq<seq<Byte>>, dropped: nat)
    requires i <= declared
  {
    && |elements| + dropped == i
    && var whole := ReadItems(start, declared, MAX_SKIP_DEPTH);
       var more := ReadItems(rest, declared - i, MAX_SKIP_DEPTH);
       && (whole.Got? <==> more.Got?)
       && (whole.Got? ==> whole.rest == more.rest
                          && Packets(whole.value) == elements + Packets(more.value))
  }

  /** Reading one more value moves the scan past it. */
  lemma ScanOne(start: seq<Byte>, declared: nat, i: nat, rest: seq<Byte>,
                elements: seq<seq<Byte>>, dropped: nat)
    requires i < declared && Scanned(start, declared, i, rest, elements, dropped)
    requires ReadValue(rest, MAX_SKIP_DEPTH).Got?
    ensures var r := ReadValue(rest, MAX_SKIP_DEPTH);
            var ps := Packets([r.value]);
            Scanned(start, declared, i + 1, r.rest, elements + ps, dropped + 1 - |ps|)
  {
    var r := ReadValue(rest, MAX_SKIP_DEPTH);
    var more := ReadItems(rest, declared - i, MAX_SKIP_DEPTH);
    var next := ReadItems(r.rest, declared - i - 1, MAX_SKIP_DEPTH);
    if more.Got? {
      assert more.value[0] == r.value && more.value[1..] == next.value;
      PacketsOne(r.value);
      assert Packets(more.value) == Packets([r.value]) + Packets(next.value);
      assert elements + (Packets([r.value]) + Packets(next.value))
        == elements + Packets([r.value]) + Packets(next.value);
    }
  }

  lemma PacketsOne(v: Value)
    ensures Packets([v]) == if v.first in {0xc4, 0xc5} && v.Blob? && v.body != [] then [v.body] else []
  {
    assert [v][1..] == [];
  }

  /** One element of the bundle: its packet if it delivers one, or a drop; false on truncation. */
  method ScanElement(reader: Reader) returns (ok: bool, packet: Option<seq<Byte>>)
    requires reader.Valid()
    modifies reader
    ensures reader.Valid()
    ensures ok <==> ReadValue(old(reader.Rest()), MAX_SKIP_DEPTH).Got?
    ensures ok ==> var r := ReadValue(old(reader.Rest()), MAX_SKIP_DEPTH);
                   && r.rest == reader.Rest()
                   && Packets([r.value]) == (if packet.Some? then [packet.value] else [])
  {
    packet := None;
    ghost var rest := reader.Rest();
    var kind := reader.U8();
    if kind.None? { return false, None; }
    SkipsUnfold(reader.Rest(), kind.value);
    assert rest == [kind.value] + reader.Rest();
    if kind.value == 0xc4 || kind.value == 0xc5 {
      var len := reader.Count(if kind.value == 0xc4 then 1 else 2);
      if len.None? { return false, None; }
      var data := reader.Take(len.value);
      if data.None? { return false, None; }
      PacketsOne(ReadValue(rest, MAX_SKIP_DEPTH).value);
      return true, if len.value == 0 then None else data;
    }
    if kind.value == 0xc6 {
      ok := SkipSized(reader, kind.value, 4, 0, 1);
    } else {
      ok := SkipMsgValue(reader, kind.value, 1);
    }
    if ok { PacketsOne(ReadValue(rest, MAX_SKIP_DEPTH).value); }
  }

  method ParseMsgBundle(payload: seq<Byte>) returns (r: Result)
    ensures r == Bundle(payload)
  {
    var reader := new Reader(payload);
    assert reader.Rest() == payload;
    var first := reader.U8();
    var declared: Option<nat> := None;
    if first.Some? && 0x90 <= first.value <= 0x9f {
      declared := Some(first.value - 0x90);
    } else if first.Some? && first.value == 0xdc {
      declared := reader.Count(2);
    } else if first.Some? && first.value == 0xdd {
      declared := reader.Count(4);
    } else {
      return Err(InvalidMsgpack);
    }
    if declared.None? { return Err(InvalidMsgpack); }
    if declared.value > MAX_BUNDLE_ELEMENTS { return Err(TooManyElements); }
    if declared.value == 0 { return Err(InvalidMsgpack); }
    assert ReadArrayHeader(payload) == Got(declared.value, reader.Rest());
    r := ScanElements(reader, declared.value);
  }

  method ScanElements(reader: Reader, declared: nat) returns (r: Result)
    requires reader.Valid()
    modifies reader
    ensures var all := ReadItems(old(reader.Rest()), declared, MAX_SKIP_DEPTH);
            if all.Got? && all.rest == []
            then |Packets(all.value)| <= declared
                 && r == Ok(Container(Packets(all.value), declared - |Packets(all.value)|))
            else r == Err(InvalidMsgpack)
  {
    var elements: seq<seq<Byte>>, dropped: nat := [], 0;
    ghost var start := reader.Rest();
    var i := 0;
    while i < declared
      invariant 0 <= i <= declared && reader.Valid()
      invariant Scanned(start, declared, i, reader.Rest(), elements, dropped)
    {
      ghost var rest := reader.Rest();
      var ok, packet := ScanElement(reader);
      if !ok { return Err(InvalidMsgpack); }
      ScanOne(start, declared, i, rest, elements, dropped);
      if packet.Some? {
        elements := elements + [packet.value];
      } else {
        assert elements + [] == elements;
        dropped := dropped + 1;
      }
      i := i + 1;
    }
    if reader.pos != |reader.bytes| { return Err(InvalidMsgpack); }
    assert Packets([]) == [] && elements + [] == elements;
    r := Ok(Container(elements, dropped));
  }

  method ParseLogContainer(bytes: seq<Byte>) returns (r: Result)
    ensures r == ParseContainer(bytes)
  {
    if |bytes| == 0 { return Err(InvalidMagic); }
    if bytes[0] == RAW_MAGIC { return Ok(Container([bytes], 0)); }
    if bytes[0] != MSG_MAGIC { return Err(InvalidMagic); }
    r := ParseMsgBundle(bytes[1..]);
  }
}
