/**
 * Strings in a firmware ELF: the scanner that builds the dictionary of a
 * section, the direct lookup of a string at a virtual address, and when the two
 * agree. Text decoding is a parameter, and so is the rounding of a big integer
 * to a floating-point number, which is exact up to 2^53.
 */
module ElfStrings {
  import opened Bytes

  type Text = seq<nat>
  type Decoder = seq<Byte> -> Text
  type Rounding = nat -> nat

  const SHT_NOBITS := 8
  const EXACT := 0x20_0000_0000_0000

  ghost predicate Rounds(number: Rounding) {
    (forall x: nat :: x <= EXACT ==> number(x) == x) && (forall x: nat :: x >= EXACT ==> number(x) >= EXACT)
  }

  datatype Section = Section(kind: nat, flags: nat, addr: nat, offset: nat, size: nat)
  datatype Load = Load(vaddr: nat, offset: nat, filesz: nat)
  datatype Elf = Elf(sections: seq<Section>, loads: seq<Load>)
  datatype ElfString = ElfString(addr: nat, value: Text)

  function Min(a: nat, b: nat): nat { if a < b then a else b }

  /** Bounds computed in floating point are right wherever they matter: inside the file. */
  lemma BoundsExact(number: Rounding, offset: nat, size: nat, length: nat)
    requires Rounds(number) && length <= EXACT
    ensures Min(number(offset), length) == Min(offset, length)
    ensures Min(number(number(offset) + number(size)), length) == Min(offset + size, length)
  {
  }

  // --- Plausible text ------------------------------------------------------

  predicate Printable(c: nat) {
    (c >= 0x20 || c == 0x09 || c == 0x0a || c == 0x0d) && c != 0x7f
  }

  predicate LikelyText(s: Text) { forall i :: 0 <= i < |s| ==> Printable(s[i]) }

  method IsLikelyText(s: Text) returns (r: bool)
    ensures r <==> LikelyText(s)
  {
    for i := 0 to |s|
      invariant forall k :: 0 <= k < i ==> Printable(s[k])
    {
      var code := s[i];
      if code < 0x20 && code != 0x09 && code != 0x0a && code != 0x0d { return false; }
      if code == 0x7f { return false; }
    }
    return true;
  }

  // --- Runs without a NUL --------------------------------------------------

  datatype Span = Span(from: nat, to: nat)

  /** A longest stretch of non-zero bytes between two positions of the file. */
  predicate MaximalRun(data: seq<Byte>, lo: nat, limit: nat, s: Span)
    requires limit <= |data|
  {
    lo <= s.from < s.to <= limit
    && (forall k :: s.from <= k < s.to ==> data[k] != 0)
    && (s.from == lo || data[s.from - 1] == 0)
    && (s.to == limit || data[s.to] == 0)
  }

  function RunEnd(data: seq<Byte>, i: nat, limit: nat): (end: nat)
    requires i <= limit <= |data|
    ensures i <= end <= limit
    ensures forall k :: i <= k < end ==> data[k] != 0
    ensures end == limit || data[end] == 0
    decreases limit - i
  {
    if i == limit || data[i] == 0 then i else RunEnd(data, i + 1, limit)
  }

  function Runs(data: seq<Byte>, i: nat, limit: nat): seq<Span>
    requires limit <= |data|
    decreases limit - i
  {
    if i >= limit then []
    else if data[i] == 0 then Runs(data, i + 1, limit)
    else
      var end := RunEnd(data, i, limit);
      [Span(i, end)] + Runs(data, end, limit)
  }

  /** Disjoint and in order of position. */
  predicate InOrder(spans: seq<Span>) {
    forall i, j :: 0 <= i < j < |spans| ==> spans[i].to < spans[j].from
  }

  /** A position at which no run is under way. */
  predicate Boundary(data: seq<Byte>, lo: nat, limit: nat, i: nat)
    requires limit <= |data|
  {
    lo <= i && (i == lo || i >= limit || data[i] == 0 || data[i - 1] == 0)
  }

  lemma {:induction false} RunsExact(data: seq<Byte>, lo: nat, i: nat, limit: nat)
    requires limit <= |data| && Boundary(data, lo, limit, i)
    ensures forall s :: s in Runs(data, i, limit) <==> MaximalRun(data, lo, limit, s) && i <= s.from
    ensures InOrder(Runs(data, i, limit))
    decreases limit - i
  {
    if i < limit {
      if data[i] == 0 {
        RunsExact(data, lo, i + 1, limit);
      } else {
        var end := RunEnd(data, i, limit);
        RunsExact(data, lo, end, limit);
        RunsSplit(data, lo, i, end, limit);
      }
    }
  }

  lemma RunsSplit(data: seq<Byte>, lo: nat, i: nat, end: nat, limit: nat)
    requires lo <= i < end <= limit <= |data| && MaximalRun(data, lo, limit, Span(i, end))
    requires forall s :: s in Runs(data, end, limit) <==> MaximalRun(data, lo, limit, s) && end <= s.from
    requires InOrder(Runs(data, end, limit))
    ensures forall s :: s in [Span(i, end)] + Runs(data, end, limit) <==> MaximalRun(data, lo, limit, s) && i <= s.from
    ensures InOrder([Span(i, end)] + Runs(data, end, limit))
  {
    var rest := Runs(data, end, limit);
    forall s | MaximalRun(data, lo, limit, s) && i <= s.from < end ensures s == Span(i, end) {
      if s.from > i { assert false; }
    }
    forall s | s in rest ensures end < s.from {
      if s.from == end { assert data[end] == 0; }
    }
    forall j | 0 <= j < |rest| ensures end < rest[j].from { assert rest[j] in rest; }
  }

  // --- The dictionary of a section -----------------------------------------

  /** Text is kept if it is terminated, or the section ends at the end of the file, and if it is plausible. */
  predicate Kept(decode: Decoder, data: seq<Byte>, limit: nat, s: Span)
    requires s.from <= s.to <= limit <= |data|
  {
    var value := decode(data[s.from..s.to]);
    (s.to < limit || limit == |data|) && value != [] && LikelyText(value)
  }

  function Limit(data: seq<Byte>, sec: Section): nat { Min(sec.offset + sec.size, |data|) }

  /** The strings of a section, as positions in the file. */
  function KeptRuns(decode: Decoder, data: seq<Byte>, limit: nat, spans: seq<Span>): seq<Span>
    requires limit <= |data| && forall s :: s in spans ==> s.from <= s.to <= limit
  {
    if spans == [] then []
    else (if Kept(decode, data, limit, spans[0]) then [spans[0]] else []) + KeptRuns(decode, data, limit, spans[1..])
  }

  function EntryOf(number: Rounding, decode: Decoder, data: seq<Byte>, sec: Section, s: Span): ElfString
    requires sec.offset <= s.from <= s.to <= |data|
  {
    ElfString(number(number(sec.addr) + (s.from - sec.offset)), decode(data[s.from..s.to]))
  }

  lemma {:induction false} KeptRunsExact(decode: Decoder, data: seq<Byte>, limit: nat, spans: seq<Span>)
    requires limit <= |data| && forall s :: s in spans ==> s.from <= s.to <= limit
    ensures forall s :: s in KeptRuns(decode, data, limit, spans) <==> s in spans && Kept(decode, data, limit, s)
  {
    if spans != [] {
      KeptRunsExact(decode, data, limit, spans[1..]);
      HeadTail(spans);
    }
  }

  lemma {:induction false} KeptRunsInOrder(decode: Decoder, data: seq<Byte>, limit: nat, spans: seq<Span>)
    requires limit <= |data| && (forall s :: s in spans ==> s.from <= s.to <= limit) && InOrder(spans)
    ensures InOrder(KeptRuns(decode, data, limit, spans))
  {
    if spans != [] {
      var rest := KeptRuns(decode, data, limit, spans[1..]);
      KeptRunsInOrder(decode, data, limit, spans[1..]);
      KeptRunsExact(decode, data, limit, spans[1..]);
      HeadTail(spans);
      Prepend(spans[0], spans[1..], rest);
    }
  }

  lemma Prepend(s: Span, spans: seq<Span>, rest: seq<Span>)
    requires InOrder([s] + spans) && InOrder(rest) && forall r :: r in rest ==> r in spans
    ensures InOrder([s] + rest)
  {
    forall j | 0 <= j < |rest| ensures s.to < rest[j].from {
      assert rest[j] in rest;
      var k :| 0 <= k < |spans| && spans[k] == rest[j];
      assert ([s] + spans)[k + 1] == rest[j] && ([s] + spans)[0] == s;
    }
  }

  function SectionRuns(data: seq<Byte>, sec: Section): seq<Span> {
    if sec.kind == SHT_NOBITS then [] else Runs(data, sec.offset, Limit(data, sec))
  }

  lemma SectionRunsInside(data: seq<Byte>, sec: Section)
    ensures forall s :: s in SectionRuns(data, sec) ==> sec.offset <= s.from < s.to <= Limit(data, sec)
    ensures InOrder(SectionRuns(data, sec))
    ensures forall s :: s in SectionRuns(data, sec) <==>
      sec.kind != SHT_NOBITS && MaximalRun(data, sec.offset, Limit(data, sec), s)
  {
    if sec.kind != SHT_NOBITS { RunsExact(data, sec.offset, sec.offset, Limit(data, sec)); }
  }

  function SectionStrings(decode: Decoder, data: seq<Byte>, sec: Section): (found: seq<Span>)
  {
    SectionRunsInside(data, sec);
    KeptRuns(decode, data, Limit(data, sec), SectionRuns(data, sec))
  }

  /** The strings of a section are exactly its maximal runs that decode to plausible text, in address order. */
  lemma SectionStringsExact(decode: Decoder, data: seq<Byte>, sec: Section)
    ensures InOrder(SectionStrings(decode, data, sec))
    ensures forall s :: s in SectionStrings(decode, data, sec) <==>
      sec.kind != SHT_NOBITS && MaximalRun(data, sec.offset, Limit(data, sec), s) &&
        Kept(decode, data, Limit(data, sec), s)
  {
    SectionRunsInside(data, sec);
    KeptRunsExact(decode, data, Limit(data, sec), SectionRuns(data, sec));
    KeptRunsInOrder(decode, data, Limit(data, sec), SectionRuns(data, sec));
  }

  /** The entries found so far, one for each span. */
  ghost predicate EntriesOf(number: Rounding, decode: Decoder, data: seq<Byte>, sec: Section, out: seq<ElfString>,
      found: seq<Span>) {
    |out| == |found|
    && forall k :: 0 <= k < |out| ==>
      sec.offset <= found[k].from <= found[k].to <= |data| && out[k] == EntryOf(number, decode, data, sec, found[k])
  }

  /** What the scan from `i` will still find. */
  ghost function Rest(decode: Decoder, data: seq<Byte>, i: nat, limit: nat): seq<Span>
    requires limit <= |data|
  {
    RunsExact(data, i, i, limit);
    KeptRuns(decode, data, limit, Runs(data, i, limit))
  }

  lemma RestSplits(decode: Decoder, data: seq<Byte>, i: nat, limit: nat)
    requires i < limit <= |data| && data[i] != 0
    ensures var end := RunEnd(data, i, limit);
      Rest(decode, data, i, limit)
        == (if Kept(decode, data, limit, Span(i, end)) then [Span(i, end)] else []) + Rest(decode, data, end, limit)
  {
    var end := RunEnd(data, i, limit);
    assert Runs(data, i, limit)[1..] == Runs(data, end, limit);
  }

  /** Skips padding zeros. */
  method SkipZeros(ghost decode: Decoder, data: seq<Byte>, from: nat, limit: nat) returns (i: nat)
    requires from <= limit <= |data|
    ensures from <= i <= limit && (i == limit || data[i] != 0)
    ensures Rest(decode, data, i, limit) == Rest(decode, data, from, limit)
  {
    i := from;
    while i < limit && data[i] == 0
      invariant from <= i <= limit && Rest(decode, data, i, limit) == Rest(decode, data, from, limit)
    {
      i := i + 1;
    }
  }

  method FindEnd(data: seq<Byte>, from: nat, limit: nat) returns (i: nat)
    requires from <= limit <= |data|
    ensures i == RunEnd(data, from, limit)
  {
    i := from;
    while i < limit && data[i] != 0
      invariant from <= i <= limit && RunEnd(data, from, limit) == RunEnd(data, i, limit)
    {
      i := i + 1;
    }
  }

  /** The spans found and those still to come are the strings of the section. */
  ghost predicate Scanned(decode: Decoder, data: seq<Byte>, sec: Section, found: seq<Span>, i: nat) {
    found + Rest(decode, data, i, Limit(data, sec)) == SectionStrings(decode, data, sec)
  }

  lemma ScanOne(decode: Decoder, data: seq<Byte>, sec: Section, found: seq<Span>, i: nat)
    requires i < Limit(data, sec) && data[i] != 0 && Scanned(decode, data, sec, found, i)
    ensures var end := RunEnd(data, i, Limit(data, sec));
      var one := if Kept(decode, data, Limit(data, sec), Span(i, end)) then [Span(i, end)] else [];
      Scanned(decode, data, sec, found + one, end)
  {
    var limit := Limit(data, sec);
    var end := RunEnd(data, i, limit);
    RestSplits(decode, data, i, limit);
    var one := if Kept(decode, data, limit, Span(i, end)) then [Span(i, end)] else [];
    Reassociate(found, one, Rest(decode, data, end, limit));
  }

  lemma Reassociate(a: seq<Span>, b: seq<Span>, c: seq<Span>)
    ensures a + (b + c) == (a + b) + c
  {
  }

  lemma EntryAdded(number: Rounding, decode: Decoder, data: seq<Byte>, sec: Section, out: seq<ElfString>,
      found: seq<Span>, s: Span)
    requires EntriesOf(number, decode, data, sec, out, found) && sec.offset <= s.from <= s.to <= |data|
    ensures EntriesOf(number, decode, data, sec, out + [EntryOf(number, decode, data, sec, s)], found + [s])
  {
  }

  lemma ScanDone(number: Rounding, decode: Decoder, data: seq<Byte>, sec: Section, out: seq<ElfString>,
      found: seq<Span>, i: nat)
    requires EntriesOf(number, decode, data, sec, out, found) && Scanned(decode, data, sec, found, i) &&
      i >= Limit(data, sec)
    ensures EntriesOf(number, decode, data, sec, out, SectionStrings(decode, data, sec))
  {
    assert found + [] == found;
  }

  method ExtractStrings(number: Rounding, decode: Decoder, data: seq<Byte>, sec: Section) returns (out: seq<ElfString>)
    requires Rounds(number) && |data| <= EXACT
    ensures EntriesOf(number, decode, data, sec, out, SectionStrings(decode, data, sec))
  {
    if sec.kind == SHT_NOBITS { return []; }
    var start := number(sec.offset);
    var size := number(sec.size);
    var limit := Min(number(start + size), |data|);
    BoundsExact(number, sec.offset, sec.size, |data|);
    if start >= limit { return []; }
    out := ScanSection(number, decode, data, sec, start, limit);
  }

  method ScanSection(number: Rounding, decode: Decoder, data: seq<Byte>, sec: Section, start: nat, limit: nat)
      returns (out: seq<ElfString>)
    requires sec.kind != SHT_NOBITS && start == sec.offset < limit == Limit(data, sec)
    ensures EntriesOf(number, decode, data, sec, out, SectionStrings(decode, data, sec))
  {
    out := [];
    ghost var found: seq<Span> := [];
    var i := start;
    while i < limit
      invariant start <= i <= limit && Scanned(decode, data, sec, found, i)
      invariant EntriesOf(number, decode, data, sec, out, found)
    {
      i := SkipZeros(decode, data, i, limit);
      if i >= limit { break; }
      var strStart := i;
      i := FindEnd(data, i, limit);
      ScanOne(decode, data, sec, found, strStart);
      var entry := ScannedEntry(number, decode, data, sec, strStart, i, limit);
      if entry.Some? {
        EntryAdded(number, decode, data, sec, out, found, Span(strStart, i));
        out := out + [entry.value];
        found := found + [Span(strStart, i)];
      } else {
        Reassociate(found, [], []);
      }
    }
    ScanDone(number, decode, data, sec, out, found, i);
  }

  /** The entry of one run; none for an unterminated tail inside the file or for implausible text. */
  method ScannedEntry(number: Rounding, decode: Decoder, data: seq<Byte>, sec: Section, strStart: nat, i: nat,
      limit: nat)
    returns (r: Option<ElfString>)
    requires sec.offset <= strStart < i <= limit <= |data| && forall k :: strStart <= k < i ==> data[k] != 0
    ensures var s := Span(strStart, i);
      r == if Kept(decode, data, limit, s) then Some(EntryOf(number, decode, data, sec, s)) else None
  {
    if i >= limit && data[limit - 1] != 0 {
      if limit != |data| { return None; }
    }
    var value := decode(data[strStart..i]);
    var likely := IsLikelyText(value);
    if |value| > 0 && likely {
      return Some(ElfString(number(number(sec.addr) + (strStart - sec.offset)), value));
    }
    return None;
  }

  // --- Lookup by address ---------------------------------------------------

  predicate LoadCovers(l: Load, target: nat) { l.vaddr <= target < l.vaddr + l.filesz }

  predicate SectionCovers(s: Section, target: nat) {
    s.kind != SHT_NOBITS && s.size != 0 && (s.flags / 2) % 2 == 1 && s.addr <= target < s.addr + s.size
  }

  function ByLoads(loads: seq<Load>, target: nat): Option<Span> {
    if loads == [] then None
    else if LoadCovers(loads[0], target) then
      Some(Span(loads[0].offset + (target - loads[0].vaddr), loads[0].offset + loads[0].filesz))
    else ByLoads(loads[1..], target)
  }

  function BySections(sections: seq<Section>, target: nat): Option<Span> {
    if sections == [] then None
    else if SectionCovers(sections[0], target) then
      Some(Span(sections[0].offset + (target - sections[0].addr), sections[0].offset + sections[0].size))
    else BySections(sections[1..], target)
  }

  /** The file range an address stands for: load segments first, then allocated sections. */
  function Resolve(elf: Elf, target: nat): Option<Span> {
    var loaded := ByLoads(elf.loads, target);
    if loaded.Some? then loaded else BySections(elf.sections, target)
  }

  /** The terminated, plausible text between two positions. */
  function Bounded(decode: Decoder, data: seq<Byte>, start: nat, lim: nat): Option<Text>
    requires lim <= |data|
  {
    if start >= |data| then None
    else
      var end := if start < lim then RunEnd(data, start, lim) else start;
      if end >= lim && (lim == 0 || data[lim - 1] != 0) then None
      else
        var value := decode(data[start..end]);
        if LikelyText(value) then Some(value) else None
  }

  function Window(data: seq<Byte>, m: Span, maxLen: nat): nat { Min(Min(m.to, |data|), m.from + maxLen) }

  function TextAt(decode: Decoder, elf: Elf, data: seq<Byte>, target: nat, maxLen: nat): Option<Text> {
    var m := Resolve(elf, target);
    if m.None? then None else Bounded(decode, data, m.value.from, Window(data, m.value, maxLen))
  }

  method ReadBounded(number: Rounding, decode: Decoder, data: seq<Byte>, start: nat, limit: nat, maxLen: nat)
      returns (r: Option<Text>)
    requires Rounds(number) && |data| <= EXACT
    ensures r == Bounded(decode, data, start, Window(data, Span(start, limit), maxLen))
  {
    var off := number(start);
    var lim := Min(Min(number(limit), |data|), number(off + maxLen));
    if off >= |data| { return None; }
    assert lim == Window(data, Span(start, limit), maxLen);
    var end := off;
    while end < lim && data[end] != 0
      invariant off <= end && (off < lim ==> end <= lim && RunEnd(data, off, lim) == RunEnd(data, end, lim))
      invariant off >= lim ==> end == off
    {
      end := end + 1;
    }
    if end >= lim && (lim == 0 || data[lim - 1] != 0) { return None; }
    var value := decode(data[off..end]);
    var likely := IsLikelyText(value);
    return if likely then Some(value) else None;
  }

  lemma SuffixTail<T>(s: seq<T>, i: nat)
    requires i < |s|
    ensures s[i..] != [] && s[i..][0] == s[i] && s[i..][1..] == s[i + 1..]
  {
  }

  /** The first load segment that holds the address, if any. */
  method FindLoad(loads: seq<Load>, vaddr: nat) returns (r: Option<Span>)
    ensures r == ByLoads(loads, vaddr)
  {
    for i := 0 to |loads|
      invariant ByLoads(loads, vaddr) == ByLoads(loads[i..], vaddr)
    {
      var load := loads[i];
      SuffixTail(loads, i);
      if vaddr >= load.vaddr && vaddr < load.vaddr + load.filesz {
        return Some(Span(load.offset + (vaddr - load.vaddr), load.offset + load.filesz));
      }
    }
    return None;
  }

  /** The first allocated section that holds the address, if any. */
  method FindSection(sections: seq<Section>, vaddr: nat) returns (r: Option<Span>)
    ensures r == BySections(sections, vaddr)
  {
    for i := 0 to |sections|
      invariant BySections(sections, vaddr) == BySections(sections[i..], vaddr)
    {
      var sec := sections[i];
      SuffixTail(sections, i);
      if sec.kind == SHT_NOBITS || sec.size == 0 { continue; }
      if (sec.flags / 2) % 2 == 0 { continue; }
      if vaddr >= sec.addr && vaddr < sec.addr + sec.size {
        return Some(Span(sec.offset + (vaddr - sec.addr), sec.offset + sec.size));
      }
    }
    return None;
  }

  method ReadStringAtVaddr(number: Rounding, decode: Decoder, elf: Elf, data: seq<Byte>, vaddr: nat, maxLen: nat)
      returns (r: Option<Text>)
    requires Rounds(number) && |data| <= EXACT
    ensures r == TextAt(decode, elf, data, vaddr, maxLen)
  {
    var m := FindLoad(elf.loads, vaddr);
    if m.None? { m := FindSection(elf.sections, vaddr); }
    if m.None? { return None; }
    r := ReadBounded(number, decode, data, m.value.from, m.value.to, maxLen);
  }

  // --- Agreement -----------------------------------------------------------

  lemma RunEndIs(data: seq<Byte>, i: nat, end: nat, limit: nat)
    requires i <= end <= limit <= |data| && (forall k :: i <= k < end ==> data[k] != 0) &&
      (end == limit || data[end] == 0)
    ensures RunEnd(data, i, limit) == end
    decreases end - i
  {
    if i < end { RunEndIs(data, i + 1, end, limit); }
  }

  /** A bounded read that starts at a terminated run returns it exactly when its end lies inside the bound. */
  lemma BoundedFindsRun(decode: Decoder, data: seq<Byte>, s: Span, lim: nat)
    requires s.from < s.to < |data| && lim <= |data| && data[s.to] == 0
    requires forall k :: s.from <= k < s.to ==> data[k] != 0
    requires decode([]) == [] && decode(data[s.from..s.to]) != [] && LikelyText(decode(data[s.from..s.to]))
    ensures Bounded(decode, data, s.from, lim) == Some(decode(data[s.from..s.to])) <==> s.to < lim
  {
    if s.to < lim {
      RunEndIs(data, s.from, s.to, lim);
    } else if s.from < lim {
      RunEndIs(data, s.from, lim, lim);
    } else {
      assert data[s.from..s.from] == [];
    }
  }

  /**
   * A terminated dictionary entry is what the lookup returns at its address exactly when its end lies inside
   * the range that the address stands for and inside the length limit, wherever the address stands for its bytes.
   */
  lemma LookupAgrees(number: Rounding, decode: Decoder, elf: Elf, data: seq<Byte>, sec: Section, s: Span, maxLen: nat)
    requires Rounds(number) && decode([]) == []
    requires s in SectionStrings(decode, data, sec) && s.from <= s.to < Limit(data, sec) && sec.offset <= s.from
    requires sec.addr + (s.from - sec.offset) < EXACT
    ensures var e, m := EntryOf(number, decode, data, sec, s), Resolve(elf, sec.addr + (s.from - sec.offset));
      m.Some? && m.value.from == s.from ==>
        (TextAt(decode, elf, data, e.addr, maxLen) == Some(e.value) <==> s.to < Min(m.value.to, s.from + maxLen))
  {
    SectionStringsExact(decode, data, sec);
    var m := Resolve(elf, sec.addr + (s.from - sec.offset));
    if m.Some? && m.value.from == s.from {
      BoundedFindsRun(decode, data, s, Window(data, m.value, maxLen));
    }
  }

  lemma {:induction false} ResolveSection(sections: seq<Section>, k: nat, target: nat)
    requires k < |sections| && SectionCovers(sections[k], target)
    requires forall i :: 0 <= i < k ==> !SectionCovers(sections[i], target)
    ensures BySections(sections, target) ==
      Some(Span(sections[k].offset + (target - sections[k].addr), sections[k].offset + sections[k].size))
  {
    if k > 0 {
      assert sections[1..][k - 1] == sections[k];
      forall i | 0 <= i < k - 1 ensures !SectionCovers(sections[1..][i], target) {
        assert sections[1..][i] == sections[i + 1];
      }
      ResolveSection(sections[1..], k - 1, target);
    }
  }

  lemma {:induction false} NoLoad(loads: seq<Load>, target: nat)
    requires forall l :: l in loads ==> !LoadCovers(l, target)
    ensures ByLoads(loads, target).None?
  {
    if loads != [] { NoLoad(loads[1..], target); }
  }

  /**
   * In an allocated section, a terminated entry whose address lies in no load segment and no earlier allocated
   * section is what the lookup returns there exactly when it is shorter than the length limit.
   */
  lemma DictionaryAgrees(number: Rounding, decode: Decoder, elf: Elf, data: seq<Byte>, k: nat, s: Span, maxLen: nat)
    requires Rounds(number) && decode([]) == [] && k < |elf.sections|
    requires var sec := elf.sections[k];
      s in SectionStrings(decode, data, sec) && sec.offset <= s.from <= s.to < Limit(data, sec) &&
        (sec.flags / 2) % 2 == 1
    requires var target := elf.sections[k].addr + (s.from - elf.sections[k].offset);
      target < EXACT
      && (forall l :: l in elf.loads ==> !LoadCovers(l, target))
      && (forall i :: 0 <= i < k ==> !SectionCovers(elf.sections[i], target))
    ensures var e := EntryOf(number, decode, data, elf.sections[k], s);
      TextAt(decode, elf, data, e.addr, maxLen) == Some(e.value) <==> s.to - s.from < maxLen
  {
    var sec := elf.sections[k];
    var target := sec.addr + (s.from - sec.offset);
    SectionStringsExact(decode, data, sec);
    NoLoad(elf.loads, target);
    ResolveSection(elf.sections, k, target);
    LookupAgrees(number, decode, elf, data, sec, s, maxLen);
  }

  // --- What an address stands for ------------------------------------------

  /** Tabs, line ends and everything from the space on except the delete character. */
  predicate PlainText(s: Text) {
    forall i :: 0 <= i < |s| ==> s[i] == 9 || s[i] == 10 || s[i] == 13 || 32 <= s[i] <= 126 || s[i] >= 128
  }

  lemma LikelyTextIs(s: Text)
    ensures LikelyText(s) <==> PlainText(s)
  {
    if PlainText(s) {
      forall i | 0 <= i < |s| ensures Printable(s[i]) {}
    }
    if LikelyText(s) {
      forall i | 0 <= i < |s| ensures s[i] == 9 || s[i] == 10 || s[i] == 13 || 32 <= s[i] <= 126 || s[i] >= 128 {
        assert Printable(s[i]);
      }
    }
  }

  /**
   * A section that has bytes in the file yields exactly the longest stretches of non-zero bytes inside it that are
   * followed by a zero of the section or end with the file, and that decode to text that is plain and not empty.
   */
  lemma StringsMeaning(decode: Decoder, data: seq<Byte>, sec: Section, s: Span)
    ensures var end := if sec.offset + sec.size < |data| then sec.offset + sec.size else |data|;
      s in SectionStrings(decode, data, sec) <==>
        && sec.kind != 8 && sec.offset <= s.from < s.to <= end
        && (forall k :: s.from <= k < s.to ==> data[k] != 0)
        && (s.from == sec.offset || data[s.from - 1] == 0)
        && (if s.to < end then data[s.to] == 0 else end == |data|)
        && decode(data[s.from..s.to]) != [] && PlainText(decode(data[s.from..s.to]))
  {
    SectionStringsExact(decode, data, sec);
    if s.from <= s.to <= |data| { LikelyTextIs(decode(data[s.from..s.to])); }
  }

  /** The first load segment that holds the address places it in the file. */
  predicate LoadPlaces(loads: seq<Load>, k: nat, target: nat, m: Span)
    requires k < |loads|
  {
    && loads[k].vaddr <= target < loads[k].vaddr + loads[k].filesz
    && (forall i :: 0 <= i < k ==> target < loads[i].vaddr || target >= loads[i].vaddr + loads[i].filesz)
    && m.from - loads[k].offset == target - loads[k].vaddr
    && m.to == loads[k].offset + loads[k].filesz
  }

  predicate InNoLoad(loads: seq<Load>, target: nat) {
    forall l :: l in loads ==> target < l.vaddr || target >= l.vaddr + l.filesz
  }

  /** The section is allocated, has bytes in the file and holds the address. */
  predicate SectionHolds(s: Section, target: nat) {
    s.kind != 8 && s.flags % 4 >= 2 && s.addr <= target < s.addr + s.size
  }

  predicate SectionPlaces(sections: seq<Section>, k: nat, target: nat, m: Span)
    requires k < |sections|
  {
    && SectionHolds(sections[k], target) && (forall i :: 0 <= i < k ==> !SectionHolds(sections[i], target))
    && m.from - sections[k].offset == target - sections[k].addr
    && m.to == sections[k].offset + sections[k].size
  }

  lemma AllocatedBit(flags: nat)
    ensures (flags / 2) % 2 == 1 <==> flags % 4 >= 2
  {
  }

  lemma SectionHoldsIs(s: Section, target: nat)
    ensures SectionCovers(s, target) <==> SectionHolds(s, target)
  {
    AllocatedBit(s.flags);
  }

  lemma {:induction false} LoadsPlace(loads: seq<Load>, k: nat, target: nat, m: Span)
    requires k < |loads| && LoadPlaces(loads, k, target, m)
    ensures ByLoads(loads, target) == Some(m)
  {
    if k > 0 {
      assert loads[1..][k - 1] == loads[k];
      LoadsPlace(loads[1..], k - 1, target, m);
    }
  }

  lemma SectionsPlace(sections: seq<Section>, k: nat, target: nat, m: Span)
    requires k < |sections| && SectionPlaces(sections, k, target, m)
    ensures BySections(sections, target) == Some(m)
  {
    forall i | 0 <= i <= k ensures SectionCovers(sections[i], target) <==> SectionHolds(sections[i], target) {
      SectionHoldsIs(sections[i], target);
    }
    ResolveSection(sections, k, target);
  }

  lemma {:induction false} NoSection(sections: seq<Section>, target: nat)
    requires forall s :: s in sections ==> !SectionHolds(s, target)
    ensures BySections(sections, target).None?
  {
    if sections != [] {
      SectionHoldsIs(sections[0], target);
      NoSection(sections[1..], target);
    }
  }

  /**
   * The file range an address stands for: that of the first load segment that holds it, that of the first allocated
   * section that holds it if no segment does, and none otherwise.
   */
  lemma ResolveMeaning(elf: Elf, target: nat, k: nat, m: Span)
    ensures k < |elf.loads| && LoadPlaces(elf.loads, k, target, m) ==> Resolve(elf, target) == Some(m)
    ensures InNoLoad(elf.loads, target) && k < |elf.sections| && SectionPlaces(elf.sections, k, target, m) ==>
      Resolve(elf, target) == Some(m)
    ensures InNoLoad(elf.loads, target) && (forall s :: s in elf.sections ==> !SectionHolds(s, target)) ==>
      Resolve(elf, target).None?
  {
    if k < |elf.loads| && LoadPlaces(elf.loads, k, target, m) { LoadsPlace(elf.loads, k, target, m); }
    if InNoLoad(elf.loads, target) {
      NoLoad(elf.loads, target);
      if k < |elf.sections| && SectionPlaces(elf.sections, k, target, m) { SectionsPlace(elf.sections, k, target, m); }
      if forall s :: s in elf.sections ==> !SectionHolds(s, target) { NoSection(elf.sections, target); }
    }
  }

  /**
   * A terminated entry whose address lies in a load segment that places it where the section does is what the lookup
   * returns there exactly when it ends inside the segment's bytes and is shorter than the length limit.
   */
  lemma LoadAgrees(number: Rounding, decode: Decoder, elf: Elf, data: seq<Byte>, sec: Section, s: Span, maxLen: nat,
      k: nat, m: Span)
    requires Rounds(number) && decode([]) == [] && k < |elf.loads|
    requires s in SectionStrings(decode, data, sec) && sec.offset <= s.from <= s.to < Limit(data, sec)
    requires sec.addr + (s.from - sec.offset) < EXACT
    requires LoadPlaces(elf.loads, k, sec.addr + (s.from - sec.offset), m) && m.from == s.from
    ensures var e := EntryOf(number, decode, data, sec, s);
      TextAt(decode, elf, data, e.addr, maxLen) == Some(e.value) <==>
        s.to < elf.loads[k].offset + elf.loads[k].filesz && s.to - s.from < maxLen
  {
    ResolveMeaning(elf, sec.addr + (s.from - sec.offset), k, m);
    LookupAgrees(number, decode, elf, data, sec, s, maxLen);
  }

  /** What is read at a position: the bytes up to the first zero below the bound, if there is one and they are plain. */
  lemma BoundedMeaning(decode: Decoder, data: seq<Byte>, start: nat, lim: nat, end: nat)
    requires start < lim <= |data| && start <= end <= lim && forall k :: start <= k < end ==> data[k] != 0
    ensures end < lim && data[end] == 0 ==>
      Bounded(decode, data, start, lim)
        == if PlainText(decode(data[start..end])) then Some(decode(data[start..end])) else None
    ensures end == lim ==> Bounded(decode, data, start, lim).None?
  {
    LikelyTextIs(decode(data[start..end]));
    if end == lim || data[end] == 0 { RunEndIs(data, start, end, lim); }
  }

  /** From a position at or behind the bound nothing is read: the empty text if the bound follows a zero, else none. */
  lemma BoundedOutside(decode: Decoder, data: seq<Byte>, start: nat, lim: nat)
    requires lim <= |data| && lim <= start
    ensures Bounded(decode, data, start, lim)
      == if start < |data| && lim > 0 && data[lim - 1] == 0 && PlainText(decode([])) then Some(decode([])) else None
  {
    LikelyTextIs(decode([]));
    if start < |data| { assert data[start..start] == []; }
  }
}
