/**
 * MQTT frames carried over WebSocket messages: the read-side pre-scan and the
 * write-side coalescer. Frame lengths follow section 2.2.3 of MQTT 3.1.1.
 */
module MqttFraming {
  import opened Bytes

  // --- The fixed header ----------------------------------------------------

  datatype Scan = Incomplete | Frame(total: nat) | Malformed

  function ScanFrom(buf: seq<Byte>, i: nat, remaining: nat, multiplier: nat): Scan
    decreases |buf| - i
  {
    if i >= |buf| then Incomplete
    else
      var sum := remaining + (buf[i] % 128) * multiplier;
      if buf[i] < 128 then Frame(1 + i + sum)
      else if i + 1 > 4 then Malformed
      else ScanFrom(buf, i + 1, sum, multiplier * 128)
  }

  function ScanHeader(buf: seq<Byte>): Scan {
    if |buf| < 2 then Incomplete else ScanFrom(buf, 1, 0, 1)
  }

  method ScanMqttFrameLength(buf: seq<Byte>) returns (scan: Scan)
    ensures scan == ScanHeader(buf)
  {
    if |buf| < 2 { return Incomplete; }
    var i: nat, remaining: nat, multiplier: nat := 1, 0, 1;
    while i < |buf|
      invariant 1 <= i <= |buf|
      invariant ScanFrom(buf, i, remaining, multiplier) == ScanHeader(buf)
    {
      var b := buf[i];
      remaining := remaining + (b % 128) * multiplier;
      if b < 128 { return Frame(1 + i + remaining); }
      multiplier := multiplier * 128;
      i := i + 1;
      if i > 4 { return Malformed; }
    }
    return Incomplete;
  }

  /** Positions from..to all carry the continuation bit. */
  predicate Continued(buf: seq<Byte>, from: nat, to: nat)
    requires to <= |buf|
  {
    forall j :: from <= j < to ==> buf[j] >= 128
  }

  /** The number that a run of length bytes denotes: base 128, least significant first. */
  function Digits(bs: seq<Byte>): nat {
    if bs == [] then 0 else bs[0] % 128 + 128 * Digits(bs[1..])
  }

  /** Remaining Length as the standard encodes it. */
  function RemainingLength(n: nat): seq<Byte> {
    if n < 128 then [n] else [128 + n % 128] + RemainingLength(n / 128)
  }

  lemma DigitsFrom(buf: seq<Byte>, i: nat, k: nat)
    requires i <= k < |buf|
    ensures Digits(buf[i..k + 1]) == buf[i] % 128 + 128 * if i == k then 0 else Digits(buf[i + 1..k + 1])
  {
    assert buf[i..k + 1][0] == buf[i] && buf[i..k + 1][1..] == buf[i + 1..k + 1];
  }

  lemma ScanFromContinues(buf: seq<Byte>, i: nat, remaining: nat, multiplier: nat)
    requires 1 <= i < 4 && i < |buf| && buf[i] >= 128
    ensures ScanFrom(buf, i, remaining, multiplier)
         == ScanFrom(buf, i + 1, remaining + (buf[i] % 128) * multiplier, multiplier * 128)
  {
  }

  /** A header ending at position k denotes the frame length 1 + k + Remaining Length. */
  lemma {:induction false} ScanFromFinds(buf: seq<Byte>, i: nat, k: nat, remaining: nat, multiplier: nat)
    requires 1 <= i <= k <= 4 && k < |buf|
    requires Continued(buf, i, k) && buf[k] < 128
    ensures ScanFrom(buf, i, remaining, multiplier)
         == Frame(1 + k + remaining + multiplier * Digits(buf[i..k + 1]))
    decreases k - i
  {
    DigitsFrom(buf, i, k);
    if i == k {
      Distribute(multiplier, buf[i] % 128, 0);
    } else {
      ScanFromContinues(buf, i, remaining, multiplier);
      ScanFromFinds(buf, i + 1, k, remaining + (buf[i] % 128) * multiplier, multiplier * 128);
      Distribute(multiplier, buf[i] % 128, Digits(buf[i + 1..k + 1]));
    }
  }

  lemma Distribute(m: nat, a: nat, b: nat)
    ensures a * m + (m * 128) * b == m * (a + 128 * b)
  {
  }

  lemma {:induction false} ScanFromRunsOut(buf: seq<Byte>, i: nat, remaining: nat, multiplier: nat)
    requires 1 <= i <= |buf| <= 4
    requires Continued(buf, i, |buf|)
    ensures ScanFrom(buf, i, remaining, multiplier) == Incomplete
    decreases |buf| - i
  {
    if i < |buf| {
      ScanFromRunsOut(buf, i + 1, remaining + (buf[i] % 128) * multiplier, multiplier * 128);
    }
  }

  lemma {:induction false} ScanFromOverflows(buf: seq<Byte>, i: nat, remaining: nat, multiplier: nat)
    requires 1 <= i <= 4 && |buf| >= 5
    requires Continued(buf, i, 5)
    ensures ScanFrom(buf, i, remaining, multiplier) == Malformed
    decreases 4 - i
  {
    if i < 4 {
      ScanFromOverflows(buf, i + 1, remaining + (buf[i] % 128) * multiplier, multiplier * 128);
    }
  }

  /** The length field ends at the first byte without a continuation bit, at position k. */
  predicate HeaderEndsAt(buf: seq<Byte>, k: nat) {
    1 <= k <= 4 && k < |buf| && Continued(buf, 1, k) && buf[k] < 128
  }

  /** The scan says exactly what the standard's definition of the header says. */
  lemma ScanMeaning(buf: seq<Byte>)
    ensures forall k: nat :: HeaderEndsAt(buf, k) ==> ScanHeader(buf) == Frame(1 + k + Digits(buf[1..k + 1]))
    ensures ScanHeader(buf).Frame? <==> exists k: nat :: HeaderEndsAt(buf, k)
    ensures ScanHeader(buf) == Malformed <==> |buf| >= 5 && Continued(buf, 1, 5)
    ensures ScanHeader(buf) == Incomplete <==> |buf| <= 4 && Continued(buf, 1, |buf|)
  {
    forall k: nat | HeaderEndsAt(buf, k)
      ensures ScanHeader(buf) == Frame(1 + k + Digits(buf[1..k + 1]))
    {
      ScanFromFinds(buf, 1, k, 0, 1);
    }
    if |buf| >= 5 && Continued(buf, 1, 5) {
      ScanFromOverflows(buf, 1, 0, 1);
    } else if |buf| <= 4 && Continued(buf, 1, |buf|) {
      if |buf| >= 2 { ScanFromRunsOut(buf, 1, 0, 1); }
    } else {
      var k := FirstEnd(buf, 1);
    }
  }

  lemma FirstEnd(buf: seq<Byte>, i: nat) returns (k: nat)
    requires 1 <= i <= 4 && i < |buf| && Continued(buf, 1, i)
    requires !(|buf| >= 5 && Continued(buf, 1, 5)) && !(|buf| <= 4 && Continued(buf, 1, |buf|))
    ensures HeaderEndsAt(buf, k)
    decreases 5 - i
  {
    if buf[i] < 128 { return i; }
    k := FirstEnd(buf, i + 1);
  }

  lemma {:induction false} RemainingLengthShape(n: nat, limit: nat)
    requires 1 <= limit <= 4 && n < Pow128(limit)
    ensures var e := RemainingLength(n);
            1 <= |e| <= limit && Continued(e, 0, |e| - 1) && e[|e| - 1] < 128 && Digits(e) == n
  {
    if n >= 128 {
      RemainingLengthShape(n / 128, limit - 1);
      var e, t := RemainingLength(n), RemainingLength(n / 128);
      assert e[1..] == t;
    } else {
      assert RemainingLength(n)[1..] == [];
    }
  }

  function Pow128(k: nat): nat {
    if k == 0 then 1 else 128 * Pow128(k - 1)
  }

  /** Encoding a length and scanning it back: the round trip for every length MQTT allows. */
  lemma ScanOfEncoded(kind: Byte, n: nat, tail: seq<Byte>)
    requires n <= 268435455
    ensures ScanHeader([kind] + RemainingLength(n) + tail) == Frame(1 + |RemainingLength(n)| + n)
  {
    assert Pow128(4) == 268435456;
    RemainingLengthShape(n, 4);
    var e := RemainingLength(n);
    var buf := [kind] + e + tail;
    assert buf[1..|e| + 1] == e;
    assert HeaderEndsAt(buf, |e|);
    ScanFromFinds(buf, 1, |e|, 0, 1);
  }

  lemma {:induction false} ScanFromExtend(a: seq<Byte>, b: seq<Byte>, i: nat, remaining: nat, multiplier: nat)
    requires ScanFrom(a, i, remaining, multiplier) != Incomplete
    ensures ScanFrom(a + b, i, remaining, multiplier) == ScanFrom(a, i, remaining, multiplier)
    decreases |a| - i
  {
    if i < |a| && a[i] >= 128 && i + 1 <= 4 {
      ScanFromExtend(a, b, i + 1, remaining + (a[i] % 128) * multiplier, multiplier * 128);
    }
  }

  lemma ScanExtend(a: seq<Byte>, b: seq<Byte>)
    requires ScanHeader(a) != Incomplete
    ensures ScanHeader(a + b) == ScanHeader(a)
  {
    ScanFromExtend(a, b, 1, 0, 1);
  }

  lemma {:induction false} ScanFromTotal(buf: seq<Byte>, i: nat, remaining: nat, multiplier: nat)
    requires 1 <= i && ScanFrom(buf, i, remaining, multiplier).Frame?
    ensures ScanFrom(buf, i, remaining, multiplier).total >= 2
    decreases |buf| - i
  {
    if buf[i] >= 128 {
      ScanFromTotal(buf, i + 1, remaining + (buf[i] % 128) * multiplier, multiplier * 128);
    }
  }

  // --- Cutting a byte stream into frames -----------------------------------

  /** `limit` is the ceiling for one declared frame; the write side has none. */
  predicate TooBig(limit: Option<nat>, total: nat) {
    limit.Some? && total > limit.value
  }

  datatype Parsed = Parsed(frames: seq<seq<Byte>>, rest: seq<Byte>, rejected: bool)

  function Parse(s: seq<Byte>, limit: Option<nat>): Parsed
    decreases |s|
  {
    match ScanHeader(s)
    case Incomplete => Parsed([], s, false)
    case Malformed => Parsed([], s, true)
    case Frame(total) =>
      if TooBig(limit, total) then Parsed([], s, true)
      else if total > |s| then Parsed([], s, false)
      else
        ScanFromTotal(s, 1, 0, 1);
        var p := Parse(s[total..], limit);
        Parsed([s[..total]] + p.frames, p.rest, p.rejected)
  }

  /** A complete MQTT frame, neither short nor with bytes to spare. */
  predicate CompleteFrame(f: seq<Byte>, limit: Option<nat>) {
    ScanHeader(f) == Frame(|f|) && !TooBig(limit, |f|)
  }

  predicate AllComplete(fs: seq<seq<Byte>>, limit: Option<nat>) {
    forall f :: f in fs ==> CompleteFrame(f, limit)
  }

  /** A header that the read side refuses. */
  predicate Refused(s: seq<Byte>, limit: Option<nat>) {
    ScanHeader(s) == Malformed || (ScanHeader(s).Frame? && TooBig(limit, ScanHeader(s).total))
  }

  lemma {:induction false} ScanFromLocal(s: seq<Byte>, n: nat, i: nat, remaining: nat, multiplier: nat)
    requires 1 <= i && ScanFrom(s, i, remaining, multiplier).Frame?
    requires ScanFrom(s, i, remaining, multiplier).total <= n <= |s|
    ensures ScanFrom(s[..n], i, remaining, multiplier) == ScanFrom(s, i, remaining, multiplier)
    decreases |s| - i
  {
    ScanFromReach(s, i, remaining, multiplier);
    if s[i] >= 128 {
      ScanFromLocal(s, n, i + 1, remaining + (s[i] % 128) * multiplier, multiplier * 128);
    }
  }

  lemma {:induction false} ScanFromReach(s: seq<Byte>, i: nat, remaining: nat, multiplier: nat)
    requires ScanFrom(s, i, remaining, multiplier).Frame?
    ensures ScanFrom(s, i, remaining, multiplier).total > i
    decreases |s| - i
  {
    if s[i] >= 128 {
      ScanFromReach(s, i + 1, remaining + (s[i] % 128) * multiplier, multiplier * 128);
    }
  }

  lemma {:induction false} ParseRebuilds(s: seq<Byte>, limit: Option<nat>)
    ensures Flatten(Parse(s, limit).frames) + Parse(s, limit).rest == s
    decreases |s|
  {
    var scan := ScanHeader(s);
    if scan.Frame? && !TooBig(limit, scan.total) && scan.total <= |s| {
      var t := scan.total;
      ScanFromTotal(s, 1, 0, 1);
      ParseRebuilds(s[t..], limit);
      var q := Parse(s[t..], limit);
      assert Parse(s, limit).frames[1..] == q.frames;
      assert s == s[..t] + (Flatten(q.frames) + q.rest);
    }
  }

  lemma {:induction false} ParseStops(s: seq<Byte>, limit: Option<nat>)
    ensures var p := Parse(s, limit);
            && AllComplete(p.frames, limit)
            && (p.rejected <==> Refused(p.rest, limit))
            && (!p.rejected ==>
                  ScanHeader(p.rest) == Incomplete
                  || (ScanHeader(p.rest).Frame? && ScanHeader(p.rest).total > |p.rest|))
    decreases |s|
  {
    var scan := ScanHeader(s);
    if scan.Frame? && !TooBig(limit, scan.total) && scan.total <= |s| {
      ScanFromTotal(s, 1, 0, 1);
      ScanFromLocal(s, scan.total, 1, 0, 1);
      ParseStops(s[scan.total..], limit);
    }
  }

  /** Cutting loses nothing, every piece is a complete frame, and it stops for one of two reasons. */
  lemma ParseSound(s: seq<Byte>, limit: Option<nat>)
    ensures var p := Parse(s, limit);
            && Flatten(p.frames) + p.rest == s
            && AllComplete(p.frames, limit)
            && (p.rejected <==> Refused(p.rest, limit))
            && (!p.rejected ==>
                  ScanHeader(p.rest) == Incomplete
                  || (ScanHeader(p.rest).Frame? && ScanHeader(p.rest).total > |p.rest|))
  {
    ParseRebuilds(s, limit);
    ParseStops(s, limit);
  }

  /** Greedy cutting is longest: any other run of complete frames is an initial run of it. */
  lemma {:induction false} ParseLongest(s: seq<Byte>, limit: Option<nat>, fs: seq<seq<Byte>>)
    requires AllComplete(fs, limit) && Flatten(fs) <= s
    ensures fs <= Parse(s, limit).frames
    decreases |fs|
  {
    if fs != [] {
      var f := fs[0];
      assert f in fs;
      assert f == s[..|f|];
      assert s == f + s[|f|..];
      ScanExtend(f, s[|f|..]);
      ScanFromTotal(s, 1, 0, 1);
      assert Flatten(fs)[|f|..] == Flatten(fs[1..]);
      assert Flatten(fs)[|f|..] <= s[|f|..];
      ParseLongest(s[|f|..], limit, fs[1..]);
      assert fs == [f] + fs[1..];
    }
  }

  /** Cutting a longer stream goes on from where cutting the shorter one stopped. */
  lemma {:induction false} ParseExtend(a: seq<Byte>, b: seq<Byte>, limit: Option<nat>)
    ensures var p := Parse(a, limit);
            var q := Parse(p.rest + b, limit);
            && Parse(a + b, limit) == Parsed(p.frames + q.frames, q.rest, q.rejected)
            && (p.rejected ==> q == Parsed([], p.rest + b, true))
    decreases |a|
  {
    var scan := ScanHeader(a);
    if scan != Incomplete { ScanExtend(a, b); }
    if scan.Frame? && !TooBig(limit, scan.total) && scan.total <= |a| {
      var t := scan.total;
      ScanFromTotal(a, 1, 0, 1);
      assert (a + b)[..t] == a[..t] && (a + b)[t..] == a[t..] + b;
      ParseExtend(a[t..], b, limit);
      ParseExtendStep(a, b, limit, t);
    } else {
      assert Parse(a, limit).frames == [] && Parse(a, limit).rest == a;
    }
  }

  lemma {:induction false} ParseExtendStep(a: seq<Byte>, b: seq<Byte>, limit: Option<nat>, t: nat)
    requires 2 <= t <= |a| && ScanHeader(a) == Frame(t) && ScanHeader(a + b) == Frame(t) && !TooBig(limit, t)
    requires (a + b)[..t] == a[..t] && (a + b)[t..] == a[t..] + b
    requires var p := Parse(a[t..], limit);
             var q := Parse(p.rest + b, limit);
             Parse(a[t..] + b, limit) == Parsed(p.frames + q.frames, q.rest, q.rejected)
    ensures var p := Parse(a, limit);
            var q := Parse(p.rest + b, limit);
            Parse(a + b, limit) == Parsed(p.frames + q.frames, q.rest, q.rejected)
  {
    var p := Parse(a[t..], limit);
    var q := Parse(p.rest + b, limit);
    assert [a[..t]] + (p.frames + q.frames) == ([a[..t]] + p.frames) + q.frames;
  }

  /** What is kept back is short: a partial header, or less than one allowed frame. */
  lemma RetainedBound(s: seq<Byte>, max: nat)
    requires !Parse(s, Some(max)).rejected
    ensures |Parse(s, Some(max)).rest| <= if max - 1 > 4 then max - 1 else 4
  {
    ParseSound(s, Some(max));
    ScanMeaning(Parse(s, Some(max)).rest);
  }

  // --- Read side: messages in, frames out ----------------------------------

  datatype Conn = Open(partial: seq<Byte>, forwarded: seq<Byte>) | Rejected(forwarded: seq<Byte>)

  function Receive(c: Conn, message: seq<Byte>, max: nat): Conn {
    match c
    case Rejected(_) => c
    case Open(partial, forwarded) =>
      var p := Parse(partial + message, Some(max));
      if p.rejected then Rejected(forwarded) else Open(p.rest, forwarded + Flatten(p.frames))
  }

  /** The connection after a list of WebSocket messages. */
  function Feed(messages: seq<seq<Byte>>, max: nat): Conn {
    if messages == [] then Open([], [])
    else Receive(Feed(messages[..|messages| - 1], max), messages[|messages| - 1], max)
  }

  lemma {:induction false} FlattenSplitLast(messages: seq<seq<Byte>>)
    requires messages != []
    ensures Flatten(messages) == Flatten(messages[..|messages| - 1]) + messages[|messages| - 1]
  {
    assert messages == messages[..|messages| - 1] + [messages[|messages| - 1]];
    FlattenAppend(messages[..|messages| - 1], messages[|messages| - 1]);
  }

  /** However the stream is split into messages, the outcome is that of the whole stream. */
  lemma {:induction false} FeedIsParse(messages: seq<seq<Byte>>, max: nat)
    ensures var p := Parse(Flatten(messages), Some(max));
            var c := Feed(messages, max);
            && (c.Rejected? <==> p.rejected)
            && (c.Open? ==> c == Open(p.rest, Flatten(p.frames)))
    decreases |messages|
  {
    if messages != [] {
      var before, last := messages[..|messages| - 1], messages[|messages| - 1];
      FeedIsParse(before, max);
      FlattenSplitLast(messages);
      ParseExtend(Flatten(before), last, Some(max));
      var p := Parse(Flatten(before), Some(max));
      FlattenConcat(p.frames, Parse(p.rest + last, Some(max)).frames);
    }
  }

  /** Two ways of splitting one stream are rejected together, or forward and retain the same bytes. */
  lemma SplitIndependence(one: seq<seq<Byte>>, other: seq<seq<Byte>>, max: nat)
    requires Flatten(one) == Flatten(other)
    ensures Feed(one, max).Rejected? <==> Feed(other, max).Rejected?
    ensures Feed(one, max).Open? ==> Feed(one, max) == Feed(other, max)
  {
    FeedIsParse(one, max);
    FeedIsParse(other, max);
  }

  /**
   * While a connection is not rejected: forwarded bytes followed by retained
   * bytes are the bytes received, no longer run of complete frames starts the
   * stream, and the retained part is bounded.
   */
  lemma ReadSide(messages: seq<seq<Byte>>, max: nat)
    requires Feed(messages, max).Open?
    ensures var c := Feed(messages, max);
            && c.forwarded + c.partial == Flatten(messages)
            && |c.partial| <= (if max - 1 > 4 then max - 1 else 4)
            && (exists fs: seq<seq<Byte>> :: AllComplete(fs, Some(max)) && Flatten(fs) == c.forwarded)
            && (forall fs: seq<seq<Byte>> :: AllComplete(fs, Some(max)) && Flatten(fs) <= Flatten(messages)
                   ==> Flatten(fs) <= c.forwarded)
  {
    FeedIsParse(messages, max);
    var s := Flatten(messages);
    var p := Parse(s, Some(max));
    ParseSound(s, Some(max));
    RetainedBound(s, max);
    assert AllComplete(p.frames, Some(max));
    forall fs: seq<seq<Byte>> | AllComplete(fs, Some(max)) && Flatten(fs) <= s
      ensures Flatten(fs) <= Flatten(p.frames)
    {
      ParseLongest(s, Some(max), fs);
      assert p.frames == fs + p.frames[|fs|..];
      FlattenConcat(fs, p.frames[|fs|..]);
    }
  }

  /** A stream is rejected exactly when, after some complete frames, a refused header follows. */
  lemma RejectionMeaning(messages: seq<seq<Byte>>, max: nat)
    ensures Feed(messages, max).Rejected?
       <==> exists fs: seq<seq<Byte>>, h: seq<Byte> ::
         AllComplete(fs, Some(max)) && Flatten(fs) + h == Flatten(messages) && Refused(h, Some(max))
  {
    FeedIsParse(messages, max);
    var s := Flatten(messages);
    var p := Parse(s, Some(max));
    ParseSound(s, Some(max));
    if p.rejected {
      assert Flatten(p.frames) + p.rest == s;
    }
    forall fs: seq<seq<Byte>>, h: seq<Byte> | AllComplete(fs, Some(max)) && Flatten(fs) + h == s &&
      Refused(h, Some(max))
      ensures p.rejected
    {
      ParseOfFrames(fs, h, Some(max));
    }
  }

  lemma {:induction false} ParseOfFrames(fs: seq<seq<Byte>>, h: seq<Byte>, limit: Option<nat>)
    requires AllComplete(fs, limit) && Refused(h, limit)
    ensures Parse(Flatten(fs) + h, limit).rejected
    decreases |fs|
  {
    if fs == [] {
      assert Flatten(fs) + h == h;
    } else {
      var f, s := fs[0], Flatten(fs) + h;
      assert f in fs;
      assert s == f + (Flatten(fs[1..]) + h);
      ScanExtend(f, Flatten(fs[1..]) + h);
      ScanFromTotal(s, 1, 0, 1);
      assert s[|f|..] == Flatten(fs[1..]) + h;
      ParseOfFrames(fs[1..], h, limit);
    }
  }

  // --- Acceptance in the terms of the standard -----------------------------

  /** A fixed header and as many bytes behind it as its Remaining Length says. */
  ghost predicate StandardFrame(f: seq<Byte>) {
    exists k: nat :: HeaderEndsAt(f, k) && |f| - (1 + k) == Digits(f[1..k + 1])
  }

  /** A header of a frame above the ceiling, or one whose length field does not end within four bytes. */
  ghost predicate BadHeader(h: seq<Byte>, max: nat) {
    || (exists k: nat :: HeaderEndsAt(h, k) && 1 + k + Digits(h[1..k + 1]) > max)
    || (|h| >= 5 && Continued(h, 1, 5))
  }

  lemma StandardIs(f: seq<Byte>, max: nat)
    ensures CompleteFrame(f, Some(max)) <==> StandardFrame(f) && |f| <= max
    ensures CompleteFrame(f, None) <==> StandardFrame(f)
    ensures Refused(f, Some(max)) <==> BadHeader(f, max)
    ensures Refused(f, None) <==> |f| >= 5 && Continued(f, 1, 5)
  {
    ScanMeaning(f);
  }

  ghost predicate AllStandard(fs: seq<seq<Byte>>) { forall f :: f in fs ==> StandardFrame(f) }

  predicate AllWithin(fs: seq<seq<Byte>>, max: nat) { forall f :: f in fs ==> |f| <= max }

  lemma AllStandardIs(fs: seq<seq<Byte>>, max: nat)
    ensures AllComplete(fs, Some(max)) <==> AllStandard(fs) && AllWithin(fs, max)
    ensures AllComplete(fs, None) <==> AllStandard(fs)
  {
    forall f | f in fs
      ensures CompleteFrame(f, Some(max)) <==> StandardFrame(f) && |f| <= max
      ensures CompleteFrame(f, None) <==> StandardFrame(f)
    {
      StandardIs(f, max);
    }
  }

  lemma {:induction false} ParseWhole(fs: seq<seq<Byte>>, limit: Option<nat>)
    requires AllComplete(fs, limit)
    ensures Parse(Flatten(fs), limit) == Parsed(fs, [], false)
    decreases |fs|
  {
    if fs != [] {
      var f, s := fs[0], Flatten(fs);
      assert f in fs && s == f + Flatten(fs[1..]);
      ScanExtend(f, Flatten(fs[1..]));
      ScanFromTotal(s, 1, 0, 1);
      assert s[..|f|] == f && s[|f|..] == Flatten(fs[1..]);
      ParseWhole(fs[1..], limit);
      assert [f] + fs[1..] == fs;
    }
  }

  /** Frames of at most the ceiling are forwarded as they are, however they are spread over messages. */
  lemma FramesForwarded(fs: seq<seq<Byte>>, messages: seq<seq<Byte>>, max: nat)
    requires AllStandard(fs) && AllWithin(fs, max) && Flatten(messages) == Flatten(fs)
    ensures Feed(messages, max) == Open([], Flatten(fs))
  {
    AllStandardIs(fs, max);
    ParseWhole(fs, Some(max));
    FeedIsParse(messages, max);
  }

  /** A stream is rejected exactly when a bad header follows frames of at most the ceiling. */
  lemma RejectedExactly(messages: seq<seq<Byte>>, max: nat)
    ensures Feed(messages, max).Rejected?
       <==> exists fs: seq<seq<Byte>>, h: seq<Byte> ::
         AllStandard(fs) && AllWithin(fs, max) && Flatten(fs) + h == Flatten(messages) && BadHeader(h, max)
  {
    RejectionMeaning(messages, max);
    forall fs: seq<seq<Byte>>, h: seq<Byte>
      ensures AllComplete(fs, Some(max)) <==> AllStandard(fs) && AllWithin(fs, max)
      ensures Refused(h, Some(max)) <==> BadHeader(h, max)
    {
      AllStandardIs(fs, max);
      StandardIs(h, max);
    }
  }

  /** Bytes carried over between messages: the chunks kept, and their total length. */
  datatype Partial = NoPartial | Partial(chunks: seq<seq<Byte>>, length: nat)

  function PartialBytes(p: Partial): seq<Byte> {
    if p.NoPartial? then [] else Flatten(p.chunks)
  }

  datatype Outcome = Ignored | Closed | Buffered | Forwarded(bytes: seq<Byte>)

  /** The frames found so far make up the buffer to `offset`; the rest is still to be cut. */
  ghost predicate CutAt(buf: seq<Byte>, limit: Option<nat>, offset: nat, frames: seq<seq<Byte>>) {
    && offset <= |buf|
    && Flatten(frames) == buf[..offset]
    && var p := Parse(buf[offset..], limit);
       Parse(buf, limit) == Parsed(frames + p.frames, p.rest, p.rejected)
  }

  /** One more complete frame at `offset` moves the cut point past it. */
  lemma AdvanceOne(buf: seq<Byte>, limit: Option<nat>, offset: nat, total: nat, frames: seq<seq<Byte>>)
    requires CutAt(buf, limit, offset, frames) && ScanHeader(buf[offset..]) == Frame(total)
    requires !TooBig(limit, total) && total <= |buf| - offset
    ensures total >= 2 && CutAt(buf, limit, offset + total, frames + [buf[offset..][..total]])
  {
    var rest := buf[offset..];
    ScanFromTotal(rest, 1, 0, 1);
    assert rest[total..] == buf[offset + total..];
    FlattenAppend(frames, rest[..total]);
    assert buf[..offset] + rest[..total] == buf[..offset + total];
    var p := Parse(buf[offset + total..], limit);
    assert frames + ([rest[..total]] + p.frames) == (frames + [rest[..total]]) + p.frames;
  }

  lemma CutStart(buf: seq<Byte>, limit: Option<nat>)
    ensures CutAt(buf, limit, 0, [])
  {
    assert buf[0..] == buf && buf[..0] == [];
    var p := Parse(buf, limit);
    assert [] + p.frames == p.frames;
  }

  lemma CutEnd(buf: seq<Byte>, limit: Option<nat>, offset: nat, frames: seq<seq<Byte>>)
    requires CutAt(buf, limit, offset, frames)
    requires var scan := ScanHeader(buf[offset..]);
      scan == Incomplete || (scan.Frame? && !TooBig(limit, scan.total) && scan.total > |buf| - offset)
    ensures var p := Parse(buf, limit);
      !p.rejected && Flatten(p.frames) == buf[..offset] && p.rest == buf[offset..]
  {
    assert Parse(buf[offset..], limit).frames == [];
    assert frames + [] == frames;
  }

  /** The handler's scan: how far the buffer is made of complete frames, unless it is rejected. */
  method CutPoint(buf: seq<Byte>, max: nat) returns (rejected: bool, offset: nat)
    ensures rejected == Parse(buf, Some(max)).rejected
    ensures offset <= |buf|
    ensures !rejected ==> buf[..offset] == Flatten(Parse(buf, Some(max)).frames)
    ensures !rejected ==> buf[offset..] == Parse(buf, Some(max)).rest
  {
    offset := 0;
    ghost var frames: seq<seq<Byte>> := [];
    CutStart(buf, Some(max));
    while true
      invariant CutAt(buf, Some(max), offset, frames)
      decreases |buf| - offset
    {
      var rest := buf[offset..];
      var scan := ScanMqttFrameLength(rest);
      if scan == Incomplete { break; }
      if scan == Malformed || scan.total > max { return true, offset; }
      if scan.total > |rest| { break; }
      AdvanceOne(buf, Some(max), offset, scan.total, frames);
      frames := frames + [rest[..scan.total]];
      offset := offset + scan.total;
    }
    rejected := false;
    CutEnd(buf, Some(max), offset, frames);
  }

  /** The per-socket state of the message handler. */
  class WsConnection {
    const maxPacketBytes: nat
    var hasDuplex: bool
    var partial: Partial

    ghost predicate Valid()
      reads this
    {
      partial.Partial? ==> partial.chunks != [] && partial.length == |Flatten(partial.chunks)|
    }

    constructor (max: nat)
      ensures Valid() && PartialBytes(partial) == [] && hasDuplex && maxPacketBytes == max
    {
      maxPacketBytes := max;
      hasDuplex := true;
      partial := NoPartial;
    }

    method OnMessage(bytes: seq<Byte>) returns (out: Outcome)
      requires Valid()
      modifies this`partial
      ensures Valid()
      ensures out == Ignored <==> !hasDuplex || bytes == []
      ensures out == Ignored ==> partial == old(partial)
      ensures out != Ignored ==>
        var before := Open(old(PartialBytes(partial)), []);
        match Receive(before, bytes, maxPacketBytes)
        case Rejected(_) => out == Closed && partial == NoPartial
        case Open(rest, sent) =>
          && PartialBytes(partial) == rest
          && out == (if sent == [] then Buffered else Forwarded(sent))
    {
      if !hasDuplex { return Ignored; }
      if |bytes| == 0 { return Ignored; }
      ghost var kept := PartialBytes(partial);
      var buf := bytes;
      if partial.Partial? && |partial.chunks| > 0 {
        FlattenAppend(partial.chunks, bytes);
        partial := Partial(partial.chunks + [bytes], partial.length + |bytes|);
        buf := Flatten(partial.chunks);
      }
      assert buf == kept + bytes;

      var rejected, offset := CutPoint(buf, maxPacketBytes);
      if rejected {
        partial := NoPartial;
        return Closed;
      }
      if offset == 0 {
        if partial.NoPartial? {
          FlattenOne(bytes);
          partial := Partial([bytes], |bytes|);
        }
        return Buffered;
      }
      if offset < |buf| {
        var tail := buf[offset..];
        FlattenOne(tail);
        partial := Partial([tail], |tail|);
      } else {
        partial := NoPartial;
      }
      return Forwarded(buf[..offset]);
    }
  }

  // --- Write side: chunks in, whole frames out -----------------------------

  /** What the coalescer has emitted, and what it holds, after a list of writes. */
  function Coalesce(chunks: seq<seq<Byte>>): Parsed {
    if chunks == [] then Parsed([], [], false)
    else
      var before := Coalesce(chunks[..|chunks| - 1]);
      var p := Parse(before.rest + chunks[|chunks| - 1], None);
      Parsed(before.frames + p.frames, p.rest, p.rejected)
  }

  /** The frames emitted depend on the bytes written and not on how they were chunked. */
  lemma {:induction false} CoalesceIsParse(chunks: seq<seq<Byte>>)
    ensures Coalesce(chunks) == Parse(Flatten(chunks), None)
    decreases |chunks|
  {
    if chunks != [] {
      var before, last := chunks[..|chunks| - 1], chunks[|chunks| - 1];
      CoalesceIsParse(before);
      FlattenSplitLast(chunks);
      ParseExtend(Flatten(before), last, None);
    }
  }

  /** Frames of any size come out as they were written, however they were chunked. */
  lemma FramesEmitted(fs: seq<seq<Byte>>, chunks: seq<seq<Byte>>)
    requires AllStandard(fs) && Flatten(chunks) == Flatten(fs)
    ensures Coalesce(chunks) == Parsed(fs, [], false)
  {
    AllStandardIs(fs, 0);
    ParseWhole(fs, None);
    CoalesceIsParse(chunks);
  }

  class MqttFrameBuffer {
    var buf: seq<Byte>

    constructor ()
      ensures buf == []
    {
      buf := [];
    }

    /** `threw` reports the exception for a malformed length; frames before it are emitted. */
    method Push(chunk: seq<Byte>) returns (frames: seq<seq<Byte>>, threw: bool)
      modifies this
      ensures Parse(old(buf) + chunk, None) == Parsed(frames, buf, threw)
    {
      frames := [];
      buf := if |buf| == 0 then chunk else buf + chunk;
      assert buf == old(buf) + chunk;
      ghost var whole := Parse(buf, None);
      while true
        invariant whole == Parsed(frames + Parse(buf, None).frames, Parse(buf, None).rest, Parse(buf, None).rejected)
        decreases |buf|
      {
        var scan := ScanMqttFrameLength(buf);
        if scan == Incomplete { break; }
        if scan == Malformed { return frames, true; }
        if scan.total > |buf| { break; }
        ScanFromTotal(buf, 1, 0, 1);
        assert frames + Parse(buf, None).frames
            == (frames + [buf[..scan.total]]) + Parse(buf[scan.total..], None).frames;
        frames := frames + [buf[..scan.total]];
        buf := buf[scan.total..];
      }
      threw := false;
    }
  }
}
