/** Fixed-width little-endian numbers, alone and in records of several fields. */
module LittleEndian {
  import opened Bytes

  function Number(bs: seq<Byte>): nat {
    if bs == [] then 0 else bs[0] + 256 * Number(bs[1..])
  }

  function Digits(n: nat, width: nat): seq<Byte> {
    if width == 0 then [] else [n % 256] + Digits(n / 256, width - 1)
  }

  lemma {:induction false} DigitsOfNumber(bs: seq<Byte>)
    ensures Number(bs) < Pow256(|bs|) && Digits(Number(bs), |bs|) == bs
  {
    if bs != [] {
      DigitsOfNumber(bs[1..]);
      assert Number(bs) / 256 == Number(bs[1..]) && Number(bs) % 256 == bs[0];
    }
  }

  lemma {:induction false} NumberOfDigits(n: nat, width: nat)
    requires n < Pow256(width)
    ensures |Digits(n, width)| == width && Number(Digits(n, width)) == n
  {
    if width > 0 {
      NumberOfDigits(n / 256, width - 1);
      assert Digits(n, width)[1..] == Digits(n / 256, width - 1);
    }
  }

  function ReadNumber(b: seq<Byte>, width: nat): Read<nat> {
    if |b| < width then Fail else Got(Number(b[..width]), b[width..])
  }

  /** Reading a number is exactly undoing its printing in front of what follows. */
  lemma ReadNumberInverse(b: seq<Byte>, width: nat, n: nat, rest: seq<Byte>)
    ensures ReadNumber(b, width) == Got(n, rest) <==> n < Pow256(width) && b == Digits(n, width) + rest
  {
    if ReadNumber(b, width) == Got(n, rest) {
      DigitsOfNumber(b[..width]);
      assert b == b[..width] + b[width..];
    }
    if n < Pow256(width) && b == Digits(n, width) + rest {
      NumberOfDigits(n, width);
      assert b[..width] == Digits(n, width) && b[width..] == rest;
    }
  }

  /** Consecutive numbers of the given widths. */
  function ReadFields(b: seq<Byte>, widths: seq<nat>): Read<seq<nat>> {
    if widths == [] then Got([], b)
    else
      var (n, tail) :- ReadNumber(b, widths[0]);
      var (ns, rest) :- ReadFields(tail, widths[1..]);
      Got([n] + ns, rest)
  }

  function PrintFields(ns: seq<nat>, widths: seq<nat>): seq<Byte>
    requires |ns| == |widths|
  {
    if widths == [] then [] else Digits(ns[0], widths[0]) + PrintFields(ns[1..], widths[1..])
  }

  predicate Fit(ns: seq<nat>, widths: seq<nat>) {
    |ns| == |widths| && forall i :: 0 <= i < |ns| ==> ns[i] < Pow256(widths[i])
  }

  lemma {:induction false} ReadFieldsSound(b: seq<Byte>, widths: seq<nat>)
    requires ReadFields(b, widths).Got?
    ensures var r := ReadFields(b, widths);
            Fit(r.value, widths) && b == PrintFields(r.value, widths) + r.rest
  {
    if widths != [] {
      var one := ReadNumber(b, widths[0]);
      ReadNumberInverse(b, widths[0], one.value, one.rest);
      ReadFieldsSound(one.rest, widths[1..]);
      var r, t := ReadFields(b, widths), ReadFields(one.rest, widths[1..]);
      TailOfCons(one.value, t.value);
      Assoc(Digits(one.value, widths[0]), PrintFields(t.value, widths[1..]), t.rest);
    }
  }

  lemma {:induction false} ReadFieldsComplete(ns: seq<nat>, widths: seq<nat>, rest: seq<Byte>)
    requires Fit(ns, widths)
    ensures ReadFields(PrintFields(ns, widths) + rest, widths) == Got(ns, rest)
    ensures |PrintFields(ns, widths)| == Sum(widths)
  {
    if widths == [] {
      assert PrintFields(ns, widths) + rest == rest;
    } else {
      var tail := PrintFields(ns[1..], widths[1..]) + rest;
      ReadFieldsComplete(ns[1..], widths[1..], rest);
      NumberOfDigits(ns[0], widths[0]);
      Assoc(Digits(ns[0], widths[0]), PrintFields(ns[1..], widths[1..]), rest);
      ReadNumberInverse(PrintFields(ns, widths) + rest, widths[0], ns[0], tail);
      HeadTail(ns);
    }
  }

  function Sum(widths: seq<nat>): nat {
    if widths == [] then 0 else widths[0] + Sum(widths[1..])
  }

  /** Reading the fields one by one: after the first, the others are read from what is left. */
  lemma ReadFieldsStep(b: seq<Byte>, width: nat, widths: seq<nat>)
    ensures ReadFields(b, [width] + widths).Got?
       <==> ReadNumber(b, width).Got? && ReadFields(ReadNumber(b, width).rest, widths).Got?
    ensures ReadFields(b, [width] + widths).Got? ==>
              var one := ReadNumber(b, width);
              var more := ReadFields(one.rest, widths);
              ReadFields(b, [width] + widths) == Got([one.value] + more.value, more.rest)
  {
    assert ([width] + widths)[1..] == widths;
  }
}
