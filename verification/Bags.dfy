/** How often a number occurs in a sequence. */
module Bags {

  lemma {:induction false} AtMostOnce(s: seq<nat>, b: nat)
    requires forall i, j :: 0 <= i < j < |s| ==> s[i] != s[j]
    ensures multiset(s)[b] <= 1
  {
    if s != [] {
      var k := |s| - 1;
      AtMostOnce(s[..k], b);
      assert s == s[..k] + [s[k]];
      if s[k] == b {
        assert b !in s[..k];
      }
    }
  }

  lemma TwiceCounts(s: seq<nat>, i: nat, j: nat)
    requires i < j < |s|
    ensures s[i] == s[j] ==> multiset(s)[s[i]] >= 2
  {
    assert s == s[..j] + s[j..];
    assert s[..j][i] == s[i] && s[j..][0] == s[j];
    assert s[i] in multiset(s[..j]) && s[j] in multiset(s[j..]);
  }
}
