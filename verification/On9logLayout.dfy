/**
 * The layout of an on9log packet, read at fixed offsets from the start of the
 * packet, and that the parser reads exactly this layout.
 */
module On9logLayout {
  import opened Bytes
  import opened LittleEndian
  import opened On9logPacket

  /** Two and four bytes, least significant first. */
  function Half(b: seq<Byte>, i: nat): nat
    requires i + 2 <= |b|
  {
    b[i] as nat + 0x100 * b[i + 1] as nat
  }

  function Word(b: seq<Byte>, i: nat): nat
    requires i + 4 <= |b|
  {
    b[i] as nat + 0x100 * b[i + 1] as nat + 0x1_0000 * b[i + 2] as nat + 0x100_0000 * b[i + 3] as nat
  }

  /**
   * Magic in byte 0, kind and level in the halves of byte 1, then sequence at 2, time at 4, tag at 8, format at 12 and
   * payload length at 16.
   */
  function HeaderAt(b: seq<Byte>): Option<Header> {
    if |b| < 18 || b[0] != 0x9a then None
    else Some(Header(b[1] / 16, b[1] % 16, Half(b, 2), Word(b, 4), Word(b, 8), Word(b, 12), Half(b, 16)))
  }

  /** The argument types from a position on: up to a zero, which is skipped, or as many as announced. */
  function TypesAt(b: seq<Byte>, i: nat, n: nat): Option<(seq<Byte>, nat)>
    decreases n
  {
    if n == 0 then Some(([], i))
    else if i >= |b| then None
    else if b[i] == 0 then Some(([], i + 1))
    else
      var more := TypesAt(b, i + 1, n - 1);
      if more.None? then None else Some(([b[i]] + more.value.0, more.value.1))
  }

  /** A string: its length, all ones for none, and its bytes. */
  function TextFrom(b: seq<Byte>, i: nat): Option<(Option<seq<Byte>>, nat)> {
    if i + 4 > |b| then None
    else if Word(b, i) == 0xffff_ffff then Some((None, i + 4))
    else if Word(b, i) > 65536 || i + 4 + Word(b, i) > |b| then None
    else Some((Some(b[i + 4..i + 4 + Word(b, i)]), i + 4 + Word(b, i)))
  }

  /** One argument and the position behind it. */
  function ArgFrom(b: seq<Byte>, i: nat, t: Byte): Option<(Arg, nat)> {
    match t
    case 1 => if i + 4 > |b| then None else Some((Bits32(Word(b, i)), i + 4))
    case 2 => if i + 8 > |b| then None else Some((Bits64(Word(b, i) + 0x1_0000_0000 * Word(b, i + 4)), i + 8))
    case 3 => if i + 4 > |b| then None else Some((Pointer(Word(b, i)), i + 4))
    case 4 =>
      var text := TextFrom(b, i);
      if text.None? then None else Some((Text(text.value.0), text.value.1))
    case 5 =>
      var text := TextFrom(b, i);
      if text.None? then None else Some((TextView(text.value.0), text.value.1))
    case _ => None
  }

  function ArgsFrom(b: seq<Byte>, i: nat, types: seq<Byte>): Option<(seq<Arg>, nat)>
    decreases |types|
  {
    if types == [] then Some(([], i))
    else
      var one := ArgFrom(b, i, types[0]);
      if one.None? then None
      else
        var more := ArgsFrom(b, one.value.1, types[1..]);
        if more.None? then None else Some(([one.value.0] + more.value.0, more.value.1))
  }

  /** A log: argument count at 18, types from 19, arguments behind them. */
  function LogAt(h: Header, b: seq<Byte>): Option<(Packet, nat)> {
    if h.level > 5 || |b| < 19 then None
    else
      var types := TypesAt(b, 19, b[18]);
      if types.None? then None
      else
        var args := ArgsFrom(b, types.value.1, types.value.0);
        if args.None? then None else Some((Log(h, b[18], types.value.0, args.value.0), args.value.1))
  }

  /** A buffer: total length at 18, offset at 22, chunk length at 26 and the chunk from 30, inside the total. */
  function BufferAt(h: Header, b: seq<Byte>): Option<(Packet, nat)> {
    if |b| < 30 || Word(b, 22) + Word(b, 26) > Word(b, 18) || |b| < 30 + Word(b, 26) then None
    else Some((Buffer(h, Word(b, 18), Word(b, 22), b[30..30 + Word(b, 26)]), 30 + Word(b, 26)))
  }

  function PayloadAt(h: Header, b: seq<Byte>): Option<(Packet, nat)> {
    match h.kind
    case 0 => LogAt(h, b)
    case 1 => if |b| < 22 then None else Some((Dropped(h, Word(b, 18)), 22))
    case 2 => if |b| < 26 then None else Some((TimeSync(h, Word(b, 18), Word(b, 22)), 26))
    case 3 => if |b| < 18 then None else Some((Boot(h, b[18..]), |b|))
    case 4 => BufferAt(h, b)
    case _ => None
  }

  /** A packet whose length field is not all ones ends where the field says, and its payload ends there too. */
  function PacketAt(b: seq<Byte>): Option<Packet> {
    var h := HeaderAt(b);
    if h.None? then None
    else
      var p := PayloadAt(h.value, b);
      if p.None? then None
      else if h.value.payloadLen == 0xffff then Some(p.value.0)
      else if |b| == 18 + h.value.payloadLen && p.value.1 == |b| then Some(p.value.0)
      else None
  }

  // --- The readers at an offset --------------------------------------------

  /** What a reader got from a position on is what stands there, and what it left is the rest behind it. */
  predicate Reads<T(==)>(r: Read<T>, o: Option<(T, nat)>, b: seq<Byte>) {
    && (r.Got? <==> o.Some?)
    && (r.Got? ==> r.value == o.value.0 && o.value.1 <= |b| && r.rest == b[o.value.1..])
  }

  lemma NumberOfTwo(x: Byte, y: Byte)
    ensures Number([x]) == x && Number([x, y]) == x as nat + 0x100 * y as nat
  {
    assert [x][1..] == [] && [x, y][1..] == [y] && [y][1..] == [];
  }

  lemma NumberOfFour(x: Byte, y: Byte, z: Byte, w: Byte)
    ensures Number([x, y, z, w]) == x as nat + 0x100 * y as nat + 0x1_0000 * z as nat + 0x100_0000 * w as nat
  {
    assert [x, y, z, w][1..] == [y, z, w] && [y, z, w][1..] == [z, w];
    NumberOfTwo(z, w);
  }

  lemma NumberFrom(b: seq<Byte>, i: nat, width: nat)
    requires i <= |b|
    ensures ReadNumber(b[i..], width)
      == if i + width > |b| then Fail else Got(Number(b[i..i + width]), b[i + width..])
  {
    if i + width <= |b| { assert b[i..][..width] == b[i..i + width] && b[i..][width..] == b[i + width..]; }
  }

  lemma ByteFrom(b: seq<Byte>, i: nat)
    requires i <= |b|
    ensures ReadNumber(b[i..], 1) == if i >= |b| then Fail else Got(b[i], b[i + 1..])
  {
    NumberFrom(b, i, 1);
    if i < |b| {
      assert b[i..i + 1] == [b[i]];
      NumberOfTwo(b[i], 0);
    }
  }

  lemma HalfFrom(b: seq<Byte>, i: nat)
    requires i + 2 <= |b|
    ensures ReadNumber(b[i..], 2) == Got(Half(b, i), b[i + 2..])
  {
    NumberFrom(b, i, 2);
    assert b[i..i + 2] == [b[i], b[i + 1]];
    NumberOfTwo(b[i], b[i + 1]);
  }

  lemma WordFrom(b: seq<Byte>, i: nat)
    requires i <= |b|
    ensures ReadNumber(b[i..], 4) == if i + 4 > |b| then Fail else Got(Word(b, i), b[i + 4..])
  {
    NumberFrom(b, i, 4);
    if i + 4 <= |b| {
      assert b[i..i + 4] == [b[i], b[i + 1], b[i + 2], b[i + 3]];
      NumberOfFour(b[i], b[i + 1], b[i + 2], b[i + 3]);
    }
  }

  /** One field, and the others after it. */
  lemma FieldFirst(b: seq<Byte>, i: nat, width: nat, widths: seq<nat>, n: nat, ns: seq<nat>, all: seq<nat>, end: nat)
    requires i + width <= end <= |b| && all != [] && all[0] == width && all[1..] == widths
    requires ReadNumber(b[i..], width) == Got(n, b[i + width..])
    requires ReadFields(b[i + width..], widths) == Got(ns, b[end..])
    ensures ReadFields(b[i..], all) == Got([n] + ns, b[end..])
  {
  }

  lemma NoField(b: seq<Byte>, i: nat, all: seq<nat>)
    requires i <= |b| && all != [] && |b| < i + all[0]
    ensures ReadFields(b[i..], all).Fail?
  {
  }

  lemma OneWord(b: seq<Byte>, i: nat)
    requires i <= |b|
    ensures ReadFields(b[i..], [4]) == if i + 4 > |b| then Fail else Got([Word(b, i)], b[i + 4..])
  {
    WordFrom(b, i);
    if i + 4 <= |b| {
      FieldFirst(b, i, 4, [], Word(b, i), [], [4], i + 4);
      assert [Word(b, i)] + [] == [Word(b, i)];
    } else {
      NoField(b, i, [4]);
    }
  }

  lemma TwoWords(b: seq<Byte>, i: nat)
    requires i <= |b|
    ensures ReadFields(b[i..], [4, 4]) == if i + 8 > |b| then Fail else Got([Word(b, i), Word(b, i + 4)], b[i + 8..])
  {
    WordFrom(b, i);
    assert [4, 4][1..] == [4];
    if i + 4 <= |b| { OneWord(b, i + 4); }
    if i + 8 <= |b| {
      FieldFirst(b, i, 4, [4], Word(b, i), [Word(b, i + 4)], [4, 4], i + 8);
      assert [Word(b, i)] + [Word(b, i + 4)] == [Word(b, i), Word(b, i + 4)];
    } else if i + 4 > |b| {
      NoField(b, i, [4, 4]);
    }
  }

  lemma ThreeWords(b: seq<Byte>, i: nat)
    requires i <= |b|
    ensures ReadFields(b[i..], [4, 4, 4])
      == if i + 12 > |b| then Fail else Got([Word(b, i), Word(b, i + 4), Word(b, i + 8)], b[i + 12..])
  {
    WordFrom(b, i);
    assert [4, 4, 4][1..] == [4, 4];
    if i + 4 <= |b| { TwoWords(b, i + 4); }
    if i + 12 <= |b| {
      var x, y, z := Word(b, i), Word(b, i + 4), Word(b, i + 8);
      FieldFirst(b, i, 4, [4, 4], x, [y, z], [4, 4, 4], i + 12);
      assert [x] + [y, z] == [x, y, z];
    } else if i + 4 > |b| {
      NoField(b, i, [4, 4, 4]);
    }
  }

  // --- The header ----------------------------------------------------------

  lemma LastFields(b: seq<Byte>)
    requires |b| >= 18
    ensures ReadFields(b[12..], [4, 2]) == Got([Word(b, 12), Half(b, 16)], b[18..])
  {
    HalfFrom(b, 16);
    FieldFirst(b, 16, 2, [], Half(b, 16), [], [2], 18);
    assert [Half(b, 16)] + [] == [Half(b, 16)];
    WordFrom(b, 12);
    assert [4, 2][1..] == [2];
    FieldFirst(b, 12, 4, [2], Word(b, 12), [Half(b, 16)], [4, 2], 18);
    assert [Word(b, 12)] + [Half(b, 16)] == [Word(b, 12), Half(b, 16)];
  }

  lemma MiddleFields(b: seq<Byte>)
    requires |b| >= 18
    ensures ReadFields(b[4..], [4, 4, 4, 2]) == Got([Word(b, 4), Word(b, 8), Word(b, 12), Half(b, 16)], b[18..])
  {
    LastFields(b);
    var x, y, z, w := Word(b, 4), Word(b, 8), Word(b, 12), Half(b, 16);
    WordFrom(b, 8);
    assert [4, 4, 2][1..] == [4, 2];
    FieldFirst(b, 8, 4, [4, 2], y, [z, w], [4, 4, 2], 18);
    assert [y] + [z, w] == [y, z, w];
    WordFrom(b, 4);
    assert [4, 4, 4, 2][1..] == [4, 4, 2];
    FieldFirst(b, 4, 4, [4, 4, 2], x, [y, z, w], [4, 4, 4, 2], 18);
    assert [x] + [y, z, w] == [x, y, z, w];
  }

  lemma LaterFields(b: seq<Byte>)
    requires |b| >= 18
    ensures ReadFields(b[2..], [2, 4, 4, 4, 2])
      == Got([Half(b, 2), Word(b, 4), Word(b, 8), Word(b, 12), Half(b, 16)], b[18..])
  {
    MiddleFields(b);
    var last := [Word(b, 4), Word(b, 8), Word(b, 12), Half(b, 16)];
    HalfFrom(b, 2);
    assert [2, 4, 4, 4, 2][1..] == [4, 4, 4, 2];
    FieldFirst(b, 2, 2, [4, 4, 4, 2], Half(b, 2), last, [2, 4, 4, 4, 2], 18);
    assert [Half(b, 2)] + last == [Half(b, 2), Word(b, 4), Word(b, 8), Word(b, 12), Half(b, 16)];
  }

  lemma AfterMagic(b: seq<Byte>)
    requires |b| >= 18
    ensures ReadFields(b[1..], [1, 2, 4, 4, 4, 2])
      == Got([b[1], Half(b, 2), Word(b, 4), Word(b, 8), Word(b, 12), Half(b, 16)], b[18..])
  {
    LaterFields(b);
    var last := [Half(b, 2), Word(b, 4), Word(b, 8), Word(b, 12), Half(b, 16)];
    ByteFrom(b, 1);
    assert [1, 2, 4, 4, 4, 2][1..] == [2, 4, 4, 4, 2];
    FieldFirst(b, 1, 1, [2, 4, 4, 4, 2], b[1], last, [1, 2, 4, 4, 4, 2], 18);
    assert [b[1]] + last == [b[1], Half(b, 2), Word(b, 4), Word(b, 8), Word(b, 12), Half(b, 16)];
  }

  lemma AllFields(b: seq<Byte>)
    requires |b| >= 18
    ensures ReadFields(b, HEADER_WIDTHS)
      == Got([b[0], b[1], Half(b, 2), Word(b, 4), Word(b, 8), Word(b, 12), Half(b, 16)], b[18..])
  {
    AfterMagic(b);
    var last := [b[1], Half(b, 2), Word(b, 4), Word(b, 8), Word(b, 12), Half(b, 16)];
    ByteFrom(b, 0);
    HeaderFirst();
    FieldFirst(b, 0, 1, [1, 2, 4, 4, 4, 2], b[0], last, HEADER_WIDTHS, 18);
    assert b[0..] == b;
    assert [b[0]] + last == [b[0], b[1], Half(b, 2), Word(b, 4), Word(b, 8), Word(b, 12), Half(b, 16)];
  }

  lemma HeaderFirst()
    ensures HEADER_WIDTHS[0] == 1 && HEADER_WIDTHS[1..] == [1, 2, 4, 4, 4, 2]
  {
  }

  lemma HeaderReads(b: seq<Byte>)
    ensures var h := HeaderAt(b);
      ReadHeader(b) == if h.None? then Fail else Got(h.value, b[18..])
  {
    if |b| >= 18 {
      AllFields(b);
    } else if ReadHeader(b).Got? {
      HeaderSound(b);
      HeaderComplete(ReadHeader(b).value, []);
      assert false;
    }
  }

  // --- The payload ---------------------------------------------------------

  lemma {:induction false} TypesRead(b: seq<Byte>, i: nat, n: nat)
    requires i <= |b|
    ensures Reads(ReadTypes(b[i..], n), TypesAt(b, i, n), b)
    decreases n
  {
    if n > 0 && i < |b| && b[i] != 0 {
      TypesRead(b, i + 1, n - 1);
      assert b[i..][1..] == b[i + 1..];
    } else if n > 0 && i < |b| {
      assert b[i..][1..] == b[i + 1..];
    }
  }

  lemma TextReads(b: seq<Byte>, i: nat)
    requires i <= |b|
    ensures Reads(ReadText(b[i..]), TextFrom(b, i), b)
  {
    WordFrom(b, i);
    if i + 4 <= |b| && i + 4 + Word(b, i) <= |b| {
      var n := Word(b, i);
      assert b[i + 4..][..n] == b[i + 4..i + 4 + n] && b[i + 4..][n..] == b[i + 4 + n..];
    }
  }

  lemma ArgReads(b: seq<Byte>, i: nat, t: Byte)
    requires i <= |b|
    ensures Reads(ReadArg(b[i..], t), ArgFrom(b, i, t), b)
  {
    if t == 1 || t == 3 {
      WordFrom(b, i);
    } else if t == 2 {
      TwoWords(b, i);
    } else if t == 4 || t == 5 {
      TextReads(b, i);
    }
  }

  lemma {:induction false} ArgsRead(b: seq<Byte>, i: nat, types: seq<Byte>)
    requires i <= |b|
    ensures Reads(ReadArgs(b[i..], types), ArgsFrom(b, i, types), b)
    decreases |types|
  {
    if types != [] {
      ArgReads(b, i, types[0]);
      var one := ArgFrom(b, i, types[0]);
      if one.Some? { ArgsRead(b, one.value.1, types[1..]); }
    }
  }

  lemma LogReads(h: Header, b: seq<Byte>)
    requires |b| >= 18
    ensures Reads(ReadLog(h, b[18..]), LogAt(h, b), b)
  {
    ByteFrom(b, 18);
    if |b| >= 19 {
      TypesRead(b, 19, b[18]);
      var types := TypesAt(b, 19, b[18]);
      if types.Some? { ArgsRead(b, types.value.1, types.value.0); }
    }
  }

  lemma BufferReads(h: Header, b: seq<Byte>)
    requires |b| >= 18
    ensures Reads(ReadBuffer(h, b[18..]), BufferAt(h, b), b)
  {
    ThreeWords(b, 18);
    if |b| >= 30 && |b| >= 30 + Word(b, 26) {
      var n := Word(b, 26);
      assert b[30..][..n] == b[30..30 + n] && b[30..][n..] == b[30 + n..];
    }
  }

  lemma PayloadReads(h: Header, b: seq<Byte>)
    requires |b| >= 18
    ensures Reads(ReadPayload(h, b[18..]), PayloadAt(h, b), b)
  {
    if h.kind == 0 {
      LogReads(h, b);
    } else if h.kind == 1 {
      WordFrom(b, 18);
    } else if h.kind == 2 {
      TwoWords(b, 18);
    } else if h.kind == 4 {
      BufferReads(h, b);
    }
  }

  /** The parser accepts exactly the packets of this layout and reads them as laid out. */
  lemma ParseReadsLayout(b: seq<Byte>)
    ensures Parse(b) == PacketAt(b)
  {
    HeaderReads(b);
    if HeaderAt(b).Some? { PayloadReads(HeaderAt(b).value, b); }
  }
}
