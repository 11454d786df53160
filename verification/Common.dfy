/** What several modules share: optional values, duplicate-free sequences, real arithmetic. */
module Common {

  datatype Option<+T> = None | Some(value: T)

  ghost predicate Distinct<T>(s: seq<T>) {
    forall i, j :: 0 <= i < j < |s| ==> s[i] != s[j]
  }

  function Min(a: real, b: real): real { if b < a then b else a }

  function Max(a: real, b: real): real { if b > a then b else a }

  lemma MulNonNegative(x: real, y: real)
    requires x >= 0.0 && y >= 0.0
    ensures x * y >= 0.0
  {
  }

  /** A property of runs that holds all along: of the run so far, at every moment. */
  ghost predicate AllPrefixes<T>(p: seq<T> -> bool, s: seq<T>) {
    forall k :: 0 <= k <= |s| ==> p(s[..k])
  }

  lemma AllPrefixesSnoc<T>(p: seq<T> -> bool, init: seq<T>, last: T)
    ensures AllPrefixes(p, init + [last]) <==> AllPrefixes(p, init) && p(init + [last])
    ensures AllPrefixes(p, init) ==> p(init)
  {
    var all := init + [last];
    assert all[..|all|] == all && init[..|init|] == init;
    assert forall k :: 0 <= k <= |init| ==> all[..k] == init[..k];
  }
}
