/** The on9log binary packet format: parsing, printing, and that each undoes the other. */
module On9logPacket {
  import opened Bytes
  import opened LittleEndian

  const MAGIC := 0x9a
  const STREAMING := 0xffff
  const HEADER_SIZE := 18
  const MAX_DYNAMIC_STRING_LEN := 65536
  const NULL_LENGTH := 0xffff_ffff
  const TWO32 := 0x1_0000_0000

  const LOG := 0
  const DROPPED := 1
  const TIME_SYNC := 2
  const BOOT := 3
  const BUFFER := 4

  // --- Packets -------------------------------------------------------------

  datatype Header = Header(kind: nat, level: nat, sequence: nat, timeMs: nat, tagId: nat, fmtId: nat, payloadLen: nat)

  datatype Arg =
    | Bits32(word: nat)
    | Bits64(long: nat)
    | Pointer(address: nat)
    | Text(text: Option<seq<Byte>>)
    | TextView(text: Option<seq<Byte>>)

  datatype Packet =
    | Log(header: Header, argCount: nat, argTypes: seq<Byte>, args: seq<Arg>)
    | Dropped(header: Header, droppedCount: nat)
    | TimeSync(header: Header, bootTimeMs: nat, utcUnixMs: nat)
    | Boot(header: Header, payload: seq<Byte>)
    | Buffer(header: Header, totalLen: nat, offset: nat, chunk: seq<Byte>)

  predicate Streaming(h: Header) { h.payloadLen == STREAMING }

  // --- Parsing -------------------------------------------------------------

  const HEADER_WIDTHS: seq<nat> := [1, 1, 2, 4, 4, 4, 2]

  function ReadHeader(b: seq<Byte>): Read<Header> {
    var (f, rest) :- ReadFields(b, HEADER_WIDTHS);
    ReadFieldsSound(b, HEADER_WIDTHS);
    if f[0] != MAGIC then Fail
    else Got(Header(f[1] / 16, f[1] % 16, f[2], f[3], f[4], f[5], f[6]), rest)
  }

  /** The type table ends at the NONE sentinel, or after `n` entries without one. */
  function ReadTypes(b: seq<Byte>, n: nat): Read<seq<Byte>> {
    if n == 0 then Got([], b)
    else if b == [] then Fail
    else if b[0] == 0 then Got([], b[1..])
    else
      var (ts, rest) :- ReadTypes(b[1..], n - 1);
      Got([b[0]] + ts, rest)
  }

  function ReadText(b: seq<Byte>): Read<Option<seq<Byte>>> {
    var (len, tail) :- ReadNumber(b, 4);
    if len == NULL_LENGTH then Got(None, tail)
    else if len > MAX_DYNAMIC_STRING_LEN then Fail
    else
      var (text, rest) :- ReadBytes(tail, len);
      Got(Some(text), rest)
  }

  function ReadArg(b: seq<Byte>, t: Byte): Read<Arg> {
    if t == 1 then
      var (v, rest) :- ReadNumber(b, 4);
      Got(Bits32(v), rest)
    else if t == 2 then
      var (f, rest) :- ReadFields(b, [4, 4]);
      ReadFieldsSound(b, [4, 4]);
      Got(Bits64(f[1] * TWO32 + f[0]), rest)
    else if t == 3 then
      var (v, rest) :- ReadNumber(b, 4);
      Got(Pointer(v), rest)
    else if t == 4 then
      var (text, rest) :- ReadText(b);
      Got(Text(text), rest)
    else if t == 5 then
      var (text, rest) :- ReadText(b);
      Got(TextView(text), rest)
    else Fail
  }

  function ReadArgs(b: seq<Byte>, types: seq<Byte>): Read<seq<Arg>>
    decreases |types|
  {
    if types == [] then Got([], b)
    else
      var (a, tail) :- ReadArg(b, types[0]);
      var (more, rest) :- ReadArgs(tail, types[1..]);
      Got([a] + more, rest)
  }

  function ReadLog(h: Header, payload: seq<Byte>): Read<Packet> {
    if h.level > 5 then Fail
    else
      var (argCount, b1) :- ReadNumber(payload, 1);
      var (types, b2) :- ReadTypes(b1, argCount);
      var (args, rest) :- ReadArgs(b2, types);
      Got(Log(h, argCount, types, args), rest)
  }

  function ReadBuffer(h: Header, payload: seq<Byte>): Read<Packet> {
    var (f, b1) :- ReadFields(payload, [4, 4, 4]);
    ReadFieldsSound(payload, [4, 4, 4]);
    if f[1] + f[2] > f[0] then Fail
    else
      var (chunk, rest) :- ReadBytes(b1, f[2]);
      Got(Buffer(h, f[0], f[1], chunk), rest)
  }

  function ReadPayload(h: Header, payload: seq<Byte>): Read<Packet> {
    if h.kind == LOG then ReadLog(h, payload)
    else if h.kind == DROPPED then
      var (n, rest) :- ReadNumber(payload, 4);
      Got(Dropped(h, n), rest)
    else if h.kind == TIME_SYNC then
      var (f, rest) :- ReadFields(payload, [4, 4]);
      ReadFieldsSound(payload, [4, 4]);
      Got(TimeSync(h, f[0], f[1]), rest)
    else if h.kind == BUFFER then ReadBuffer(h, payload)
    else if h.kind == BOOT then Got(Boot(h, payload), [])
    else Fail
  }

  /** A streaming packet may have bytes left over; any other must match its length exactly. */
  function Parse(b: seq<Byte>): Option<Packet> {
    match ReadHeader(b)
    case Fail => None
    case Got(h, payload) =>
      if !Streaming(h) && |b| != HEADER_SIZE + h.payloadLen then None
      else Finished(h, ReadPayload(h, payload))
  }

  function Finished(h: Header, r: Read<Packet>): Option<Packet> {
    match r
    case Fail => None
    case Got(p, rest) => if !Streaming(h) && rest != [] then None else Some(p)
  }

  // --- Printing ------------------------------------------------------------

  function HeaderFields(h: Header): seq<nat> {
    [MAGIC, 16 * h.kind + h.level, h.sequence, h.timeMs, h.tagId, h.fmtId, h.payloadLen]
  }

  function PrintHeader(h: Header): seq<Byte> {
    PrintFields(HeaderFields(h), HEADER_WIDTHS)
  }

  /** The NONE sentinel is written exactly when the table is shorter than announced. */
  function PrintTypes(types: seq<Byte>, n: nat): seq<Byte> {
    types + (if |types| < n then [0] else [])
  }

  function PrintText(text: Option<seq<Byte>>): seq<Byte> {
    match text
    case None => Digits(NULL_LENGTH, 4)
    case Some(t) => Digits(|t|, 4) + t
  }

  function PrintArg(a: Arg): seq<Byte> {
    match a
    case Bits32(v) => Digits(v, 4)
    case Bits64(v) => PrintFields([v % TWO32, v / TWO32], [4, 4])
    case Pointer(v) => Digits(v, 4)
    case Text(t) => PrintText(t)
    case TextView(t) => PrintText(t)
  }

  function PrintArgs(args: seq<Arg>): seq<Byte> {
    if args == [] then [] else PrintArg(args[0]) + PrintArgs(args[1..])
  }

  function PrintPayload(p: Packet): seq<Byte> {
    match p
    case Log(_, n, types, args) => Digits(n, 1) + PrintTypes(types, n) + PrintArgs(args)
    case Dropped(_, n) => Digits(n, 4)
    case TimeSync(_, boot, utc) => PrintFields([boot, utc], [4, 4])
    case Boot(_, payload) => payload
    case Buffer(_, total, offset, chunk) => PrintFields([total, offset, |chunk|], [4, 4, 4]) + chunk
  }

  function Print(p: Packet): seq<Byte> {
    PrintHeader(p.header) + PrintPayload(p)
  }

  // --- Well-formed packets -------------------------------------------------

  predicate ValidHeader(h: Header) {
    h.kind < 16 && h.level < 16 && h.sequence < 65536 && h.timeMs < TWO32 && h.tagId < TWO32
    && h.fmtId < TWO32 && h.payloadLen < 65536
  }

  function ArgType(a: Arg): Byte {
    match a
    case Bits32(_) => 1
    case Bits64(_) => 2
    case Pointer(_) => 3
    case Text(_) => 4
    case TextView(_) => 5
  }

  predicate ValidText(text: Option<seq<Byte>>) {
    text.Some? ==> |text.value| <= MAX_DYNAMIC_STRING_LEN
  }

  predicate ValidArg(a: Arg) {
    match a
    case Bits32(v) => v < TWO32
    case Bits64(v) => v < TWO32 * TWO32
    case Pointer(v) => v < TWO32
    case Text(t) => ValidText(t)
    case TextView(t) => ValidText(t)
  }

  predicate ValidArgs(types: seq<Byte>, args: seq<Arg>) {
    |types| == |args| && forall i :: 0 <= i < |args| ==> types[i] == ArgType(args[i]) && ValidArg(args[i])
  }

  predicate ValidPacket(p: Packet) {
    && ValidHeader(p.header)
    && match p
       case Log(h, n, types, args) =>
         h.kind == LOG && h.level <= 5 && n < 256 && |types| <= n && ValidArgs(types, args)
       case Dropped(h, n) => h.kind == DROPPED && n < TWO32
       case TimeSync(h, boot, utc) => h.kind == TIME_SYNC && boot < TWO32 && utc < TWO32
       case Boot(h, _) => h.kind == BOOT
       case Buffer(h, total, offset, chunk) => h.kind == BUFFER && offset + |chunk| <= total < TWO32
  }

  // --- Each reader undoes its printer --------------------------------------

  lemma Powers()
    ensures Pow256(1) == 256 && Pow256(2) == 65536 && Pow256(4) == TWO32
  {
    assert Pow256(3) == 16777216;
  }

  lemma HeaderSound(b: seq<Byte>)
    requires ReadHeader(b).Got?
    ensures var r := ReadHeader(b); ValidHeader(r.value) && b == PrintHeader(r.value) + r.rest
  {
    Powers();
    ReadFieldsSound(b, HEADER_WIDTHS);
    var f := ReadFields(b, HEADER_WIDTHS).value;
    assert forall i :: 0 <= i < 7 ==> f[i] < Pow256(HEADER_WIDTHS[i]);
    var h := ReadHeader(b).value;
    assert HeaderFields(h) == f;
  }

  lemma HeaderComplete(h: Header, rest: seq<Byte>)
    requires ValidHeader(h)
    ensures ReadHeader(PrintHeader(h) + rest) == Got(h, rest) && |PrintHeader(h)| == HEADER_SIZE
  {
    Powers();
    var f := HeaderFields(h);
    assert Fit(f, HEADER_WIDTHS);
    ReadFieldsComplete(f, HEADER_WIDTHS, rest);
    SumHeader();
    assert f[1] / 16 == h.kind && f[1] % 16 == h.level;
  }

  lemma SumHeader()
    ensures Sum(HEADER_WIDTHS) == HEADER_SIZE
  {
    var w := HEADER_WIDTHS;
    assert w[1..] == [1, 2, 4, 4, 4, 2] && w[1..][1..] == [2, 4, 4, 4, 2];
    assert Sum([4, 2]) == 6;
    assert [4, 4, 2][1..] == [4, 2] && Sum([4, 4, 2]) == 10;
    assert [4, 4, 4, 2][1..] == [4, 4, 2] && Sum([4, 4, 4, 2]) == 14;
    assert [2, 4, 4, 4, 2][1..] == [4, 4, 4, 2] && Sum([2, 4, 4, 4, 2]) == 16;
  }

  lemma {:induction false} TypesSound(b: seq<Byte>, n: nat)
    requires ReadTypes(b, n).Got?
    ensures var r := ReadTypes(b, n);
            && |r.value| <= n && (forall i :: 0 <= i < |r.value| ==> r.value[i] != 0)
            && b == PrintTypes(r.value, n) + r.rest
  {
    if n > 0 && b[0] != 0 {
      TypesSound(b[1..], n - 1);
      var r, t := ReadTypes(b, n), ReadTypes(b[1..], n - 1);
      assert b == [b[0]] + (PrintTypes(t.value, n - 1) + t.rest);
      assert PrintTypes(r.value, n) == [b[0]] + PrintTypes(t.value, n - 1);
    }
  }

  lemma {:induction false} TypesComplete(types: seq<Byte>, n: nat, rest: seq<Byte>)
    requires |types| <= n && forall i :: 0 <= i < |types| ==> types[i] != 0
    ensures ReadTypes(PrintTypes(types, n) + rest, n) == Got(types, rest)
  {
    var b := PrintTypes(types, n) + rest;
    if types == [] {
      if n == 0 { assert b == rest; } else { assert b == [0] + rest; }
    } else {
      TypesComplete(types[1..], n - 1, rest);
      assert b[0] == types[0] && b[1..] == PrintTypes(types[1..], n - 1) + rest;
      assert types == [types[0]] + types[1..];
    }
  }

  lemma TextSound(b: seq<Byte>)
    requires ReadText(b).Got?
    ensures var r := ReadText(b); ValidText(r.value) && b == PrintText(r.value) + r.rest
  {
    var len := ReadNumber(b, 4);
    ReadNumberInverse(b, 4, len.value, len.rest);
    if len.value != NULL_LENGTH {
      var text := ReadBytes(len.rest, len.value);
      ReadBytesInverse(len.rest, len.value, text.value, text.rest);
      assert b == Digits(len.value, 4) + (text.value + text.rest);
    }
  }

  lemma TextComplete(text: Option<seq<Byte>>, rest: seq<Byte>)
    requires ValidText(text)
    ensures ReadText(PrintText(text) + rest) == Got(text, rest)
  {
    Powers();
    match text
    case None =>
      ReadNumberInverse(PrintText(text) + rest, 4, NULL_LENGTH, rest);
    case Some(t) =>
      assert PrintText(text) + rest == Digits(|t|, 4) + (t + rest);
      ReadNumberInverse(PrintText(text) + rest, 4, |t|, t + rest);
      ReadBytesInverse(t + rest, |t|, t, rest);
  }

  lemma ArgSound(b: seq<Byte>, t: Byte)
    requires ReadArg(b, t).Got?
    ensures var r := ReadArg(b, t); ValidArg(r.value) && ArgType(r.value) == t && b == PrintArg(r.value) + r.rest
  {
    Powers();
    var r := ReadArg(b, t);
    if t == 1 || t == 3 {
      var v := ReadNumber(b, 4);
      ReadNumberInverse(b, 4, v.value, v.rest);
    } else if t == 2 {
      ReadFieldsSound(b, [4, 4]);
      var f := ReadFields(b, [4, 4]).value;
      assert f[0] < Pow256([4, 4][0]) && f[1] < Pow256([4, 4][1]);
      assert r.value.long % TWO32 == f[0] && r.value.long / TWO32 == f[1];
      assert [f[0], f[1]] == f;
    } else {
      TextSound(b);
    }
  }

  lemma ArgComplete(a: Arg, rest: seq<Byte>)
    requires ValidArg(a)
    ensures ReadArg(PrintArg(a) + rest, ArgType(a)) == Got(a, rest)
  {
    Powers();
    match a
    case Bits32(v) => ReadNumberInverse(PrintArg(a) + rest, 4, v, rest);
    case Bits64(v) =>
      assert v / TWO32 < TWO32;
      assert Fit([v % TWO32, v / TWO32], [4, 4]);
      ReadFieldsComplete([v % TWO32, v / TWO32], [4, 4], rest);
    case Pointer(v) => ReadNumberInverse(PrintArg(a) + rest, 4, v, rest);
    case Text(t) => TextComplete(t, rest);
    case TextView(t) => TextComplete(t, rest);
  }

  lemma {:induction false} ArgsSound(b: seq<Byte>, types: seq<Byte>)
    requires ReadArgs(b, types).Got?
    ensures var r := ReadArgs(b, types); ValidArgs(types, r.value) && b == PrintArgs(r.value) + r.rest
    decreases |types|
  {
    if types != [] {
      var one := ReadArg(b, types[0]);
      ArgSound(b, types[0]);
      ArgsSound(one.rest, types[1..]);
      var r, t := ReadArgs(b, types), ReadArgs(one.rest, types[1..]);
      TailOfCons(one.value, t.value);
      Assoc(PrintArg(one.value), PrintArgs(t.value), t.rest);
    }
  }

  lemma {:induction false} ArgsComplete(types: seq<Byte>, args: seq<Arg>, rest: seq<Byte>)
    requires ValidArgs(types, args)
    ensures ReadArgs(PrintArgs(args) + rest, types) == Got(args, rest)
  {
    if args == [] {
      assert PrintArgs(args) + rest == rest;
    } else {
      var tail := PrintArgs(args[1..]) + rest;
      ArgsComplete(types[1..], args[1..], rest);
      ArgComplete(args[0], tail);
      Assoc(PrintArg(args[0]), PrintArgs(args[1..]), rest);
      HeadTail(args);
    }
  }

  lemma LogSound(h: Header, b: seq<Byte>)
    requires ValidHeader(h) && h.kind == LOG && ReadLog(h, b).Got?
    ensures var r := ReadLog(h, b);
            ValidPacket(r.value) && r.value.header == h && b == PrintPayload(r.value) + r.rest
  {
    Powers();
    var count := ReadNumber(b, 1);
    ReadNumberInverse(b, 1, count.value, count.rest);
    var types := ReadTypes(count.rest, count.value);
    TypesSound(count.rest, count.value);
    var args := ReadArgs(types.rest, types.value);
    ArgsSound(types.rest, types.value);
    Reassociate(Digits(count.value, 1), PrintTypes(types.value, count.value), PrintArgs(args.value), args.rest);
  }

  lemma Reassociate(a: seq<Byte>, b: seq<Byte>, c: seq<Byte>, d: seq<Byte>)
    ensures a + (b + (c + d)) == a + b + c + d
  {
    assert b + (c + d) == b + c + d;
  }

  lemma LogComplete(p: Packet, rest: seq<Byte>)
    requires ValidPacket(p) && p.Log?
    ensures ReadLog(p.header, PrintPayload(p) + rest) == Got(p, rest)
  {
    Powers();
    var b2 := PrintArgs(p.args) + rest;
    var b1 := PrintTypes(p.argTypes, p.argCount) + b2;
    Reassociate(Digits(p.argCount, 1), PrintTypes(p.argTypes, p.argCount), PrintArgs(p.args), rest);
    ReadNumberInverse(PrintPayload(p) + rest, 1, p.argCount, b1);
    TypesComplete(p.argTypes, p.argCount, b2);
    ArgsComplete(p.argTypes, p.args, rest);
  }

  lemma BufferSound(h: Header, b: seq<Byte>)
    requires ValidHeader(h) && h.kind == BUFFER && ReadBuffer(h, b).Got?
    ensures var r := ReadBuffer(h, b);
            ValidPacket(r.value) && r.value.header == h && b == PrintPayload(r.value) + r.rest
  {
    Powers();
    ReadFieldsSound(b, [4, 4, 4]);
    var fields := ReadFields(b, [4, 4, 4]);
    var f := fields.value;
    assert f[0] < Pow256([4, 4, 4][0]);
    var chunk := ReadBytes(fields.rest, f[2]);
    ReadBytesInverse(fields.rest, f[2], chunk.value, chunk.rest);
    assert [f[0], f[1], |chunk.value|] == f;
    assert b == PrintFields(f, [4, 4, 4]) + (chunk.value + chunk.rest);
  }

  lemma BufferComplete(p: Packet, rest: seq<Byte>)
    requires ValidPacket(p) && p.Buffer?
    ensures ReadBuffer(p.header, PrintPayload(p) + rest) == Got(p, rest)
  {
    Powers();
    var f := [p.totalLen, p.offset, |p.chunk|];
    assert Fit(f, [4, 4, 4]);
    ReadFieldsComplete(f, [4, 4, 4], p.chunk + rest);
    assert PrintPayload(p) + rest == PrintFields(f, [4, 4, 4]) + (p.chunk + rest);
    ReadBytesInverse(p.chunk + rest, |p.chunk|, p.chunk, rest);
  }

  lemma PayloadSound(h: Header, b: seq<Byte>)
    requires ValidHeader(h) && ReadPayload(h, b).Got?
    ensures var r := ReadPayload(h, b);
            && ValidPacket(r.value) && r.value.header == h && b == PrintPayload(r.value) + r.rest
            && (r.value.Boot? ==> r.rest == [])
  {
    Powers();
    if h.kind == LOG {
      LogSound(h, b);
    } else if h.kind == DROPPED {
      var v := ReadNumber(b, 4);
      ReadNumberInverse(b, 4, v.value, v.rest);
    } else if h.kind == TIME_SYNC {
      ReadFieldsSound(b, [4, 4]);
      var f := ReadFields(b, [4, 4]).value;
      assert f[0] < Pow256([4, 4][0]) && f[1] < Pow256([4, 4][1]);
      assert [f[0], f[1]] == f;
    } else if h.kind == BUFFER {
      BufferSound(h, b);
    } else {
      assert b == b + [];
    }
  }

  lemma PayloadComplete(p: Packet, rest: seq<Byte>)
    requires ValidPacket(p) && (p.Boot? ==> rest == [])
    ensures ReadPayload(p.header, PrintPayload(p) + rest) == Got(p, rest)
  {
    Powers();
    match p
    case Log(_, _, _, _) => LogComplete(p, rest);
    case Dropped(_, n) => ReadNumberInverse(PrintPayload(p) + rest, 4, n, rest);
    case TimeSync(_, boot, utc) =>
      assert Fit([boot, utc], [4, 4]);
      ReadFieldsComplete([boot, utc], [4, 4], rest);
    case Boot(_, payload) => assert payload + [] == payload;
    case Buffer(_, _, _, _) => BufferComplete(p, rest);
  }

  // --- Main results --------------------------------------------------------

  /** The bytes left over after a packet's printed form are allowed to be there. */
  predicate MayTrail(p: Packet, rest: seq<Byte>) {
    if Streaming(p.header) then p.Boot? ==> rest == []
    else rest == [] && p.header.payloadLen == |PrintPayload(p)|
  }

  /** Parsing succeeds with p exactly on the printed form of the well-formed packet p, plus what may trail it. */
  lemma ParseInverse(b: seq<Byte>, p: Packet)
    ensures Parse(b) == Some(p)
       <==> ValidPacket(p) && Print(p) <= b && MayTrail(p, b[|Print(p)|..])
  {
    if Parse(b) == Some(p) {
      ParseSound(b, p);
    }
    if ValidPacket(p) && Print(p) <= b && MayTrail(p, b[|Print(p)|..]) {
      ParseComplete(b, p);
    }
  }

  lemma ParseSound(b: seq<Byte>, p: Packet)
    requires Parse(b) == Some(p)
    ensures ValidPacket(p) && Print(p) <= b && MayTrail(p, b[|Print(p)|..])
  {
    var hr := ReadHeader(b);
    HeaderSound(b);
    HeaderComplete(hr.value, hr.rest);
    var pr := ReadPayload(hr.value, hr.rest);
    PayloadSound(hr.value, hr.rest);
    assert b == Print(p) + pr.rest;
    assert b[|Print(p)|..] == pr.rest;
  }

  lemma ParseComplete(b: seq<Byte>, p: Packet)
    requires ValidPacket(p) && Print(p) <= b && MayTrail(p, b[|Print(p)|..])
    ensures Parse(b) == Some(p)
  {
    var rest := b[|Print(p)|..];
    assert b == PrintHeader(p.header) + (PrintPayload(p) + rest);
    HeaderComplete(p.header, PrintPayload(p) + rest);
    PayloadComplete(p, rest);
  }

  /** Packets after which nothing may trail: those with a length, and boot packets, which take all that follows. */
  predicate Exact(p: Packet) { !Streaming(p.header) || p.Boot? }

  /** Parse, then print, gives back the same bytes wherever nothing may trail. */
  lemma PrintParse(b: seq<Byte>)
    requires Parse(b).Some? && Exact(Parse(b).value)
    ensures ValidPacket(Parse(b).value) && Print(Parse(b).value) == b
  {
    ParseInverse(b, Parse(b).value);
  }

  /** Every well-formed packet whose header announces its own length prints to bytes that parse back to it. */
  lemma ParsePrint(p: Packet)
    requires ValidPacket(p) && p.header.payloadLen == |PrintPayload(p)|
    ensures Parse(Print(p)) == Some(p)
  {
    assert Print(p)[|Print(p)|..] == [];
    ParseInverse(Print(p), p);
  }

  /** Which byte strings parse alike: those that are the print, or only start with it where more may trail. */
  lemma ParseAlike(a: seq<Byte>, b: seq<Byte>)
    requires Parse(a).Some?
    ensures var p := Parse(a).value;
      Parse(b) == Parse(a) <==> Print(p) <= b && (Exact(p) ==> b == Print(p))
  {
    var p := Parse(a).value;
    ParseInverse(a, p);
    ParseInverse(b, p);
    if Print(p) <= b { assert b[|Print(p)|..] == [] <==> b == Print(p); }
  }

  /** A result comes from one byte string only, exactly if it is a packet with a length or a boot packet. */
  lemma InjectiveExactly(a: seq<Byte>)
    requires Parse(a).Some?
    ensures (forall b :: Parse(b) == Parse(a) ==> b == a) <==> Exact(Parse(a).value)
  {
    var p := Parse(a).value;
    ParseAlike(a, a);
    if Exact(p) {
      forall b | Parse(b) == Parse(a) ensures b == a { ParseAlike(a, b); }
    } else {
      ParseAlike(a, a + [0]);
      assert a + [0] != a && Parse(a + [0]) == Parse(a);
    }
  }

  /** A streaming packet with a byte to spare: the parser is not injective there. */
  lemma StreamingNotInjective()
    ensures exists a, b :: a != b && Parse(a).Some? && Parse(a) == Parse(b)
  {
    var p := Dropped(Header(DROPPED, 0, 0, 0, 0, 0, STREAMING), 7);
    var a := Print(p);
    var b := Print(p) + [1];
    ParseInverse(a, p);
    ParseInverse(b, p);
    assert |a| != |b|;
  }

  // --- The parser ----------------------------------------------------------

  /** A cursor over the packet; where the parser throws on truncation, a read yields None. */
  class Reader {
    const buf: seq<Byte>
    var pos: nat

    constructor (buf: seq<Byte>)
      ensures Valid() && Rest() == buf && this.buf == buf
    {
      this.buf := buf;
      pos := 0;
    }

    ghost predicate Valid()
      reads this
    {
      pos <= |buf|
    }

    ghost function Rest(): seq<Byte>
      requires Valid()
      reads this
    {
      buf[pos..]
    }

    /** The u8, u16 and u32 reads. */
    method Unsigned(width: nat) returns (v: Option<nat>)
      requires Valid()
      modifies this
      ensures Valid()
      ensures v.None? <==> ReadNumber(old(Rest()), width).Fail?
      ensures v.Some? ==> ReadNumber(old(Rest()), width) == Got(v.value, Rest())
    {
      if pos + width > |buf| { return None; }
      var n: nat := 0;
      var i := width;
      ghost var field := buf[pos..pos + width];
      while i > 0
        invariant 0 <= i <= width && n == Number(field[i..])
      {
        i := i - 1;
        assert field[i..][1..] == field[i + 1..];
        n := buf[pos + i] + 256 * n;
      }
      assert field[0..] == field == Rest()[..width];
      pos := pos + width;
      v := Some(n);
    }

    method Take(n: nat) returns (v: Option<seq<Byte>>)
      requires Valid()
      modifies this
      ensures Valid()
      ensures v.None? <==> ReadBytes(old(Rest()), n).Fail?
      ensures v.Some? ==> ReadBytes(old(Rest()), n) == Got(v.value, Rest())
    {
      if pos + n > |buf| { return None; }
      v := Some(buf[pos..pos + n]);
      assert v.value == Rest()[..n];
      pos := pos + n;
    }

    /** One of several consecutive fields: `taken` are behind the cursor, `left` after this one. */
    method Field(width: nat, ghost start: seq<Byte>, ghost widths: seq<nat>, ghost taken: seq<nat>,
        ghost left: seq<nat>)
      returns (v: Option<nat>)
      requires Valid() && Continues(start, widths, taken, Rest(), [width] + left)
      modifies this
      ensures Valid()
      ensures v.None? ==> ReadFields(start, widths).Fail?
      ensures v.Some? ==> Continues(start, widths, taken + [v.value], Rest(), left)
    {
      ghost var before := Rest();
      ReadFieldsStep(before, width, left);
      v := Unsigned(width);
      if v.Some? {
        assert forall more :: taken + ([v.value] + more) == (taken + [v.value]) + more;
      }
    }
  }

  /** Reading all fields comes to reading the ones left from `rest` and putting `taken` in front. */
  ghost predicate Continues(start: seq<Byte>, widths: seq<nat>, taken: seq<nat>, rest: seq<Byte>, left: seq<nat>) {
    var whole := ReadFields(start, widths);
    var more := ReadFields(rest, left);
    (whole.Got? <==> more.Got?) && (whole.Got? ==> whole == Got(taken + more.value, more.rest))
  }

  lemma ContinuesStart(start: seq<Byte>, width: nat, left: seq<nat>)
    ensures Continues(start, [width] + left, [], start, [width] + left)
  {
    var whole := ReadFields(start, [width] + left);
    if whole.Got? { assert [] + whole.value == whole.value; }
  }

  lemma ContinuesEnd(start: seq<Byte>, widths: seq<nat>, taken: seq<nat>, rest: seq<Byte>)
    requires Continues(start, widths, taken, rest, [])
    ensures ReadFields(start, widths) == Got(taken, rest)
  {
    assert taken + [] == taken;
  }

  method ParseOn9logHeader(packet: seq<Byte>) returns (h: Option<Header>)
    ensures h == match ReadHeader(packet) case Fail => None case Got(v, _) => Some(v)
  {
    var reader := new Reader(packet);
    var ok := CheckMagic(reader, packet);
    if !ok { return None; }
    h := HeaderTail(reader, packet);
  }

  lemma HeaderStart(packet: seq<Byte>)
    ensures Continues(packet, HEADER_WIDTHS, [], packet, [1] + HEADER_WIDTHS[1..])
  {
    assert HEADER_WIDTHS == [1] + HEADER_WIDTHS[1..];
    ContinuesStart(packet, 1, HEADER_WIDTHS[1..]);
  }

  lemma MagicFirst(packet: seq<Byte>, magic: nat, rest: seq<Byte>, left: seq<nat>)
    requires Continues(packet, HEADER_WIDTHS, [] + [magic], rest, left) && magic != MAGIC
    ensures ReadHeader(packet).Fail?
  {
  }

  method CheckMagic(reader: Reader, ghost packet: seq<Byte>) returns (ok: bool)
    requires reader.Valid() && reader.Rest() == packet
    modifies reader
    ensures reader.Valid()
    ensures !ok ==> ReadHeader(packet).Fail?
    ensures ok ==> Continues(packet, HEADER_WIDTHS, [] + [MAGIC], reader.Rest(), HEADER_WIDTHS[1..])
  {
    HeaderStart(packet);
    ghost var after: seq<nat> := HEADER_WIDTHS[1..];
    var magic := reader.Field(1, packet, HEADER_WIDTHS, [], after);
    if magic.None? { return false; }
    if magic.value != MAGIC {
      MagicFirst(packet, magic.value, reader.Rest(), after);
      return false;
    }
    ok := true;
  }

  /** The six fields after the magic. */
  method HeaderTail(reader: Reader, ghost packet: seq<Byte>) returns (h: Option<Header>)
    requires reader.Valid()
    requires Continues(packet, HEADER_WIDTHS, [] + [MAGIC], reader.Rest(), HEADER_WIDTHS[1..])
    modifies reader
    ensures h == match ReadHeader(packet) case Fail => None case Got(v, _) => Some(v)
  {
    ghost var w := HEADER_WIDTHS;
    ghost var t := [] + [MAGIC];
    assert w[1..] == [1] + [2, 4, 4, 4, 2];
    var typeLevel := reader.Field(1, packet, w, t, [2, 4, 4, 4, 2]);
    if typeLevel.None? { return None; }
    t := t + [typeLevel.value];
    assert [2, 4, 4, 4, 2] == [2] + [4, 4, 4, 2];
    var sequence := reader.Field(2, packet, w, t, [4, 4, 4, 2]);
    if sequence.None? { return None; }
    t := t + [sequence.value];
    assert [4, 4, 4, 2] == [4] + [4, 4, 2];
    var timeMs := reader.Field(4, packet, w, t, [4, 4, 2]);
    if timeMs.None? { return None; }
    t := t + [timeMs.value];
    assert [4, 4, 2] == [4] + [4, 2];
    var tagId := reader.Field(4, packet, w, t, [4, 2]);
    if tagId.None? { return None; }
    t := t + [tagId.value];
    assert [4, 2] == [4] + [2];
    var fmtId := reader.Field(4, packet, w, t, [2]);
    if fmtId.None? { return None; }
    t := t + [fmtId.value];
    assert [2] == [2] + [];
    var payloadLen := reader.Field(2, packet, w, t, []);
    if payloadLen.None? { return None; }
    t := t + [payloadLen.value];
    ContinuesEnd(packet, w, t, reader.Rest());
    h := Some(Header(typeLevel.value / 16, typeLevel.value % 16, sequence.value, timeMs.value, tagId.value,
                     fmtId.value, payloadLen.value));
  }

  method DecodeArg(reader: Reader, t: Byte) returns (a: Option<Arg>)
    requires reader.Valid()
    modifies reader
    ensures reader.Valid()
    ensures a.None? <==> ReadArg(old(reader.Rest()), t).Fail?
    ensures a.Some? ==> ReadArg(old(reader.Rest()), t) == Got(a.value, reader.Rest())
  {
    if t == 1 {
      var v := reader.Unsigned(4);
      a := if v.None? then None else Some(Bits32(v.value));
    } else if t == 2 {
      ghost var start := reader.Rest();
      assert [4, 4] == [4] + [4];
      ContinuesStart(start, 4, [4]);
      var lo := reader.Field(4, start, [4, 4], [], [4]);
      if lo.None? { return None; }
      assert [4] == [4] + [];
      var hi := reader.Field(4, start, [4, 4], [] + [lo.value], []);
      if hi.None? { return None; }
      ContinuesEnd(start, [4, 4], [] + [lo.value] + [hi.value], reader.Rest());
      a := Some(Bits64(hi.value * TWO32 + lo.value));
    } else if t == 3 {
      var v := reader.Unsigned(4);
      a := if v.None? then None else Some(Pointer(v.value));
    } else if t == 4 || t == 5 {
      var text := DecodeText(reader);
      a := if text.None? then None else Some(if t == 4 then Text(text.value) else TextView(text.value));
    } else {
      a := None;
    }
  }

  method DecodeText(reader: Reader) returns (text: Option<Option<seq<Byte>>>)
    requires reader.Valid()
    modifies reader
    ensures reader.Valid()
    ensures text.None? <==> ReadText(old(reader.Rest())).Fail?
    ensures text.Some? ==> ReadText(old(reader.Rest())) == Got(text.value, reader.Rest())
  {
    var len := reader.Unsigned(4);
    if len.None? { return None; }
    if len.value == NULL_LENGTH { return Some(None); }
    if len.value > MAX_DYNAMIC_STRING_LEN { return None; }
    var bytes := reader.Take(len.value);
    text := if bytes.None? then None else Some(bytes);
  }

  /** The type table loop. */
  method ReadTypeTable(reader: Reader, argCount: nat) returns (types: Option<seq<Byte>>)
    requires reader.Valid()
    modifies reader
    ensures reader.Valid()
    ensures types.None? <==> ReadTypes(old(reader.Rest()), argCount).Fail?
    ensures types.Some? ==> ReadTypes(old(reader.Rest()), argCount) == Got(types.value, reader.Rest())
  {
    ghost var whole := ReadTypes(reader.Rest(), argCount);
    var found: seq<Byte> := [];
    var i := 0;
    if whole.Got? { assert found + whole.value == whole.value; }
    while i < argCount
      invariant 0 <= i <= argCount && reader.Valid()
      invariant whole.Got? <==> ReadTypes(reader.Rest(), argCount - i).Got?
      invariant whole.Got? ==>
        whole == Got(found + ReadTypes(reader.Rest(), argCount - i).value, ReadTypes(reader.Rest(), argCount - i).rest)
    {
      if reader.pos == |reader.buf| { return None; }
      var t := reader.buf[reader.pos];
      ghost var rest := reader.Rest();
      reader.pos := reader.pos + 1;
      assert rest == [t] + reader.Rest();
      if t == 0 {
        assert found + [] == found;
        return Some(found);
      }
      assert forall more: seq<Byte> :: found + ([t] + more) == (found + [t]) + more;
      found := found + [t];
      i := i + 1;
    }
    assert found + [] == found;
    types := Some(found);
  }

  /** The argument loop. */
  method ReadArguments(reader: Reader, types: seq<Byte>) returns (args: Option<seq<Arg>>)
    requires reader.Valid()
    modifies reader
    ensures reader.Valid()
    ensures args.None? <==> ReadArgs(old(reader.Rest()), types).Fail?
    ensures args.Some? ==> ReadArgs(old(reader.Rest()), types) == Got(args.value, reader.Rest())
  {
    ghost var whole := ReadArgs(reader.Rest(), types);
    var found: seq<Arg> := [];
    var i := 0;
    if whole.Got? { assert found + whole.value == whole.value; }
    assert types[0..] == types;
    while i < |types|
      invariant 0 <= i <= |types| && reader.Valid()
      invariant whole.Got? <==> ReadArgs(reader.Rest(), types[i..]).Got?
      invariant whole.Got? ==>
        whole == Got(found + ReadArgs(reader.Rest(), types[i..]).value, ReadArgs(reader.Rest(), types[i..]).rest)
    {
      assert types[i..][0] == types[i] && types[i..][1..] == types[i + 1..];
      var a := DecodeArg(reader, types[i]);
      if a.None? { return None; }
      assert forall more: seq<Arg> :: found + ([a.value] + more) == (found + [a.value]) + more;
      found := found + [a.value];
      i := i + 1;
    }
    assert found + [] == found;
    args := Some(found);
  }

  method ParseLogPacket(h: Header, reader: Reader) returns (p: Option<Packet>)
    requires reader.Valid()
    modifies reader
    ensures reader.Valid()
    ensures p.None? <==> ReadLog(h, old(reader.Rest())).Fail?
    ensures p.Some? ==> ReadLog(h, old(reader.Rest())) == Got(p.value, reader.Rest())
  {
    if h.level > 5 { return None; }
    var argCount := reader.Unsigned(1);
    if argCount.None? { return None; }
    var types := ReadTypeTable(reader, argCount.value);
    if types.None? { return None; }
    var args := ReadArguments(reader, types.value);
    if args.None? { return None; }
    p := Some(Log(h, argCount.value, types.value, args.value));
  }

  method ParseBufferPacket(h: Header, reader: Reader) returns (p: Option<Packet>)
    requires reader.Valid()
    modifies reader
    ensures reader.Valid()
    ensures p.None? <==> ReadBuffer(h, old(reader.Rest())).Fail?
    ensures p.Some? ==> ReadBuffer(h, old(reader.Rest())) == Got(p.value, reader.Rest())
  {
    ghost var start, w := reader.Rest(), [4, 4, 4];
    assert w == [4] + [4, 4];
    ContinuesStart(start, 4, [4, 4]);
    var totalLen := reader.Field(4, start, w, [], [4, 4]);
    if totalLen.None? { return None; }
    assert [4, 4] == [4] + [4];
    var offset := reader.Field(4, start, w, [] + [totalLen.value], [4]);
    if offset.None? { return None; }
    assert [4] == [4] + [];
    var chunkLen := reader.Field(4, start, w, [] + [totalLen.value] + [offset.value], []);
    if chunkLen.None? { return None; }
    ContinuesEnd(start, w, [] + [totalLen.value] + [offset.value] + [chunkLen.value], reader.Rest());
    if chunkLen.value > totalLen.value || offset.value > totalLen.value
       || offset.value + chunkLen.value > totalLen.value {
      return None;
    }
    var chunk := reader.Take(chunkLen.value);
    if chunk.None? { return None; }
    p := Some(Buffer(h, totalLen.value, offset.value, chunk.value));
  }

  method ParseTimeSyncPacket(h: Header, reader: Reader) returns (p: Option<Packet>)
    requires reader.Valid()
    modifies reader
    ensures reader.Valid()
    ensures p.None? <==> ReadFields(old(reader.Rest()), [4, 4]).Fail?
    ensures p.Some? ==> p.value.TimeSync? && p.value.header == h
                        && ReadFields(old(reader.Rest()), [4, 4])
                          == Got([p.value.bootTimeMs, p.value.utcUnixMs], reader.Rest())
  {
    ghost var start := reader.Rest();
    assert [4, 4] == [4] + [4];
    ContinuesStart(start, 4, [4]);
    var boot := reader.Field(4, start, [4, 4], [], [4]);
    if boot.None? { return None; }
    assert [4] == [4] + [];
    var utc := reader.Field(4, start, [4, 4], [] + [boot.value], []);
    if utc.None? { return None; }
    ContinuesEnd(start, [4, 4], [] + [boot.value] + [utc.value], reader.Rest());
    assert [] + [boot.value] + [utc.value] == [boot.value, utc.value];
    p := Some(TimeSync(h, boot.value, utc.value));
  }

  method ParseOn9logPacket(packet: seq<Byte>) returns (p: Option<Packet>)
    ensures p == Parse(packet)
  {
    var header := ParseOn9logHeader(packet);
    if header.None? { return None; }
    var h := header.value;
    if h.payloadLen != STREAMING {
      if |packet| != HEADER_SIZE + h.payloadLen { return None; }
    }
    HeaderRest(packet);
    p := ParsePayload(h, packet[HEADER_SIZE..]);
  }

  lemma HeaderRest(packet: seq<Byte>)
    requires ReadHeader(packet).Got?
    ensures |packet| >= HEADER_SIZE && ReadHeader(packet).rest == packet[HEADER_SIZE..]
  {
    HeaderSound(packet);
    var r := ReadHeader(packet);
    HeaderComplete(r.value, r.rest);
  }

  method ParsePayload(h: Header, payload: seq<Byte>) returns (p: Option<Packet>)
    ensures p == Finished(h, ReadPayload(h, payload))
  {
    if h.kind == BOOT { return Some(Boot(h, payload)); }
    var reader := new Reader(payload);
    p := ParseKind(h, reader);
    if p.None? { return None; }
    assert reader.Rest() == [] <==> reader.pos == |reader.buf|;
    if h.payloadLen != STREAMING && reader.pos != |reader.buf| { return None; }
  }

  /** Every kind but the boot packet, which takes its payload as it is. */
  method ParseKind(h: Header, reader: Reader) returns (p: Option<Packet>)
    requires reader.Valid() && h.kind != BOOT
    modifies reader
    ensures reader.Valid()
    ensures p.None? <==> ReadPayload(h, old(reader.Rest())).Fail?
    ensures p.Some? ==> ReadPayload(h, old(reader.Rest())) == Got(p.value, reader.Rest())
  {
    if h.kind == LOG {
      p := ParseLogPacket(h, reader);
    } else if h.kind == DROPPED {
      var n := reader.Unsigned(4);
      p := if n.None? then None else Some(Dropped(h, n.value));
    } else if h.kind == TIME_SYNC {
      p := ParseTimeSyncPacket(h, reader);
    } else if h.kind == BUFFER {
      p := ParseBufferPacket(h, reader);
    } else {
      p := None;
    }
  }
}
