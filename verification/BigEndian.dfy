/** Fixed-width big-endian numbers. */
module BigEndian {
  import opened Bytes

  function Number(bs: seq<Byte>): nat {
    if bs == [] then 0 else 256 * Number(bs[..|bs| - 1]) + bs[|bs| - 1]
  }

  function Digits(n: nat, width: nat): seq<Byte> {
    if width == 0 then [] else Digits(n / 256, width - 1) + [n % 256]
  }

  lemma {:induction false} DigitsOfNumber(bs: seq<Byte>)
    ensures Number(bs) < Pow256(|bs|) && Digits(Number(bs), |bs|) == bs
  {
    if bs != [] {
      DigitsOfNumber(bs[..|bs| - 1]);
      assert Number(bs) / 256 == Number(bs[..|bs| - 1]) && Number(bs) % 256 == bs[|bs| - 1];
    }
  }

  lemma {:induction false} NumberOfDigits(n: nat, width: nat)
    requires n < Pow256(width)
    ensures |Digits(n, width)| == width && Number(Digits(n, width)) == n
  {
    if width > 0 {
      NumberOfDigits(n / 256, width - 1);
      assert Digits(n, width)[..width - 1] == Digits(n / 256, width - 1);
    }
  }
}
