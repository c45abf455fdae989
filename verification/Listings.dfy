/** Ascending lists of instants: membership, filtering, prefixes, and where two lists differ. */
module Listings {
  import opened Wrappers

  ghost predicate Ascending(s: seq<int>) { forall i, j :: 0 <= i < j < |s| ==> s[i] < s[j] }

  ghost predicate Within(s: seq<int>, u: int) { exists k :: 0 <= k < |s| && s[k] == u }

  function Take(s: seq<int>, n: int): seq<int> { if n <= 0 then [] else if n < |s| then s[..n] else s }

  function Later(s: seq<int>, cutoff: int): seq<int> {
    if s == [] then [] else (if s[0] > cutoff then [s[0]] else []) + Later(s[1..], cutoff)
  }

  lemma {:induction false} LaterIsFilter(s: seq<int>, cutoff: int, u: int)
    ensures Within(Later(s, cutoff), u) <==> Within(s, u) && u > cutoff
  {
    if s != [] {
      LaterIsFilter(s[1..], cutoff, u);
      WithinConcat([s[0]], s[1..], u);
      WithinConcat(if s[0] > cutoff then [s[0]] else [], Later(s[1..], cutoff), u);
      assert s == [s[0]] + s[1..];
      assert Within([s[0]], u) <==> u == s[0] by { assert [s[0]][0] == s[0]; }
    }
  }

  lemma WithinConcat(a: seq<int>, b: seq<int>, u: int)
    ensures Within(a + b, u) <==> Within(a, u) || Within(b, u)
  {
    if Within(a, u) {
      var k :| 0 <= k < |a| && a[k] == u;
      assert (a + b)[k] == u;
    }
    if Within(b, u) {
      var k :| 0 <= k < |b| && b[k] == u;
      assert (a + b)[|a| + k] == u;
    }
    if Within(a + b, u) {
      var k :| 0 <= k < |a + b| && (a + b)[k] == u;
      if k < |a| { assert a[k] == u; } else { assert b[k - |a|] == u; }
    }
  }

  lemma {:induction false} LaterAscends(s: seq<int>, cutoff: int)
    requires Ascending(s)
    ensures Ascending(Later(s, cutoff))
    ensures s != [] ==> forall k :: 0 <= k < |Later(s, cutoff)| ==> s[0] <= Later(s, cutoff)[k]
  {
    if s != [] {
      LaterAscends(s[1..], cutoff);
      assert |s| > 1 ==> s[0] < s[1];
      assert s[1..] == [] ==> Later(s[1..], cutoff) == [];
    }
  }

  lemma FirstDifference(r: seq<int>, s: seq<int>) returns (k: nat)
    requires r != s
    ensures k <= |r| && k <= |s| && r[..k] == s[..k] && (k < |r| || k < |s|)
    ensures k < |r| && k < |s| ==> r[k] != s[k]
  {
    k := 0;
    assert r[..0] == s[..0];
    while k < |r| && k < |s| && r[k] == s[k]
      invariant k <= |r| && k <= |s| && r[..k] == s[..k]
    {
      assert r[..k + 1] == r[..k] + [r[k]] && s[..k + 1] == s[..k] + [s[k]];
      k := k + 1;
    }
    assert r[..|r|] == r && s[..|s|] == s;
  }

  lemma NotWithinBefore(s: seq<int>, r: seq<int>, k: nat)
    requires Ascending(r) && Ascending(s) && k < |r| && k <= |s| && r[..k] == s[..k]
    requires k < |s| ==> r[k] < s[k]
    ensures !Within(s, r[k])
  {
    forall i | 0 <= i < |s|
      ensures s[i] != r[k]
    {
      if i < k {
        assert s[i] == s[..k][i] == r[..k][i] == r[i];
      }
    }
  }
}
