/** Membership told from a list of events: who joined and has not left, who opened and has not closed. */
module Histories {

  /** The first event happened, then the second, and the third has not happened since. */
  predicate JoinedSince<E(==)>(es: seq<E>, opens: E, joins: E, leaves: E) {
    exists i :: 0 <= i < |es| && es[i] == joins && opens in es[..i] && leaves !in es[i..]
  }

  /** The first of the opening events is not followed by a closing one. */
  predicate OpenSince<E(==)>(es: seq<E>, opens: E, closes: E) {
    exists k :: 0 <= k < |es| && es[k] == opens && opens !in es[..k] && closes !in es[k..]
  }

  lemma TailIn<E>(es: seq<E>, e: E, i: nat, x: E)
    requires i <= |es|
    ensures x in (es + [e])[i..] <==> x in es[i..] || x == e
    ensures (es + [e])[..i] == es[..i]
  {
    assert (es + [e])[i..] == es[i..] + [e];
  }

  lemma JoinedStep<E>(es: seq<E>, e: E, opens: E, joins: E, leaves: E)
    requires joins != leaves
    ensures JoinedSince(es + [e], opens, joins, leaves) <==>
      e != leaves && (JoinedSince(es, opens, joins, leaves) || (e == joins && opens in es))
  {
    var all := es + [e];
    if JoinedSince(all, opens, joins, leaves) {
      var i :| 0 <= i < |all| && all[i] == joins && opens in all[..i] && leaves !in all[i..];
      TailIn(es, e, i, leaves);
      if i == |es| { assert es[..i] == es; }
    }
    if e != leaves && JoinedSince(es, opens, joins, leaves) {
      var i :| 0 <= i < |es| && es[i] == joins && opens in es[..i] && leaves !in es[i..];
      TailIn(es, e, i, leaves);
      assert all[i] == joins;
    }
    if e == joins && opens in es {
      assert all[|es|] == joins && all[..|es|] == es && all[|es|..] == [e];
    }
  }

  lemma OpenStep<E>(es: seq<E>, e: E, opens: E, closes: E)
    requires opens != closes
    ensures OpenSince(es + [e], opens, closes) <==>
      if e == opens && opens !in es then true else e != closes && OpenSince(es, opens, closes)
  {
    var all := es + [e];
    if OpenSince(all, opens, closes) {
      var k :| 0 <= k < |all| && all[k] == opens && opens !in all[..k] && closes !in all[k..];
      TailIn(es, e, k, closes);
      if k == |es| { assert es[..k] == es; }
    }
    if OpenSince(es, opens, closes) && e != closes {
      var k :| 0 <= k < |es| && es[k] == opens && opens !in es[..k] && closes !in es[k..];
      TailIn(es, e, k, closes);
      assert all[k] == opens;
    }
    if e == opens && opens !in es {
      assert all[|es|] == opens && all[..|es|] == es && all[|es|..] == [e];
    }
  }
}
