/** Small facts about sequences, proved once so that larger proofs can cite them. */
module SeqFacts {
  lemma ConsSplit<X>(s: seq<X>)
    requires s != []
    ensures [s[0]] + s[1..] == s
  {
  }

  lemma SnocSplit<X>(s: seq<X>)
    requires s != []
    ensures s[..|s| - 1] + [s[|s| - 1]] == s
  {
  }

  lemma AppendAssoc<X>(a: seq<X>, b: seq<X>, c: seq<X>)
    ensures (a + b) + c == a + (b + c)
  {
  }

  lemma AppendEmpty<X>(a: seq<X>)
    ensures a + [] == a && [] + a == a
  {
  }

  lemma TakeSnoc<X>(s: seq<X>, i: nat)
    requires i < |s|
    ensures s[..i + 1] == s[..i] + [s[i]]
  {
  }

  lemma TakeAll<X>(s: seq<X>)
    ensures s[..|s|] == s
  {
  }

  lemma TakeTake<X>(s: seq<X>, k: nat, i: nat)
    requires i <= k <= |s|
    ensures s[..k][..i] == s[..i]
  {
  }

  lemma SnocParts<X>(s: seq<X>, x: X)
    ensures (s + [x])[..|s|] == s && (s + [x])[|s|] == x && |s + [x]| == |s| + 1
  {
  }

  lemma TakeDrop<X>(s: seq<X>, p: nat)
    requires p <= |s|
    ensures s[..p] + s[p..] == s
  {
  }

  lemma ThreeParts<X>(s: seq<X>, lo: nat, hi: nat)
    requires lo <= hi <= |s|
    ensures s[..lo] + s[lo..hi] + s[hi..] == s
  {
  }

  lemma SliceSnoc<X>(s: seq<X>, lo: nat, k: nat)
    requires lo <= k < |s|
    ensures s[lo..k + 1] == s[lo..k] + [s[k]]
  {
  }
}
