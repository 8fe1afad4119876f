/** Octets, flattening of sequences of chunks, and reading from the front of a byte string. */
module Bytes {
  type Byte = x: int | 0 <= x < 256

  function Pow256(k: nat): nat {
    if k == 0 then 1 else 256 * Pow256(k - 1)
  }

  datatype Option<+T> = None | Some(value: T)

  function Flatten<T>(chunks: seq<seq<T>>): seq<T> {
    if chunks == [] then [] else chunks[0] + Flatten(chunks[1..])
  }

  lemma Assoc<T>(a: seq<T>, b: seq<T>, c: seq<T>)
    ensures (a + b) + c == a + (b + c)
  {
  }

  lemma HeadTail<T>(s: seq<T>)
    requires s != []
    ensures s == [s[0]] + s[1..]
  {
  }

  lemma TailOfCons<T>(x: T, s: seq<T>)
    ensures ([x] + s)[0] == x && ([x] + s)[1..] == s
  {
  }

  lemma {:induction false} FlattenConcat<T>(a: seq<seq<T>>, b: seq<seq<T>>)
    ensures Flatten(a + b) == Flatten(a) + Flatten(b)
  {
    if a == [] {
      assert a + b == b;
    } else {
      assert (a + b)[1..] == a[1..] + b;
      FlattenConcat(a[1..], b);
    }
  }

  lemma FlattenOne<T>(c: seq<T>)
    ensures Flatten([c]) == c
  {
    assert Flatten([c]) == c + Flatten([c][1..]);
  }

  lemma FlattenAppend<T>(a: seq<seq<T>>, c: seq<T>)
    ensures Flatten(a + [c]) == Flatten(a) + c
  {
    FlattenConcat(a, [c]);
    FlattenOne(c);
  }

  /** The result of reading from the front of a byte string: a value and what is left. */
  datatype Read<+T> = Fail | Got(value: T, rest: seq<Byte>) {
    predicate IsFailure() { Fail? }
    function PropagateFailure<U>(): Read<U>
      requires Fail?
    {
      Fail
    }
    function Extract(): (T, seq<Byte>)
      requires Got?
    {
      (value, rest)
    }
  }

  function ReadBytes(b: seq<Byte>, n: nat): Read<seq<Byte>> {
    if |b| < n then Fail else Got(b[..n], b[n..])
  }

  lemma ReadBytesInverse(b: seq<Byte>, n: nat, body: seq<Byte>, rest: seq<Byte>)
    ensures ReadBytes(b, n) == Got(body, rest) <==> |body| == n && b == body + rest
  {
    if |body| == n && b == body + rest {
      assert b[..n] == body && b[n..] == rest;
    }
  }
}
