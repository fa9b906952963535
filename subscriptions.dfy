/**
 * The subscription table of main/MqttClient.cpp and main/Mqtt.cpp: a
 * `std::multimap` from topic to handler, ordered by `std::string`'s
 * lexicographic `<`. The table is a sequence of entries kept sorted by topic;
 * `emplace` inserts after the entries with an equal topic, so the handlers of
 * one topic stay in registration order. Handlers are identified by numbers.
 */
module Subscriptions {
  import SeqFacts

  /** `std::string`'s `<`: the first differing character decides, a proper prefix comes first. */
  predicate Below(a: string, b: string) {
    if a == [] then b != []
    else if b == [] then false
    else a[0] < b[0] || (a[0] == b[0] && Below(a[1..], b[1..]))
  }

  lemma {:induction false} BelowIrreflexive(a: string)
    ensures !Below(a, a)
  {
    if a != [] {
      BelowIrreflexive(a[1..]);
    }
  }

  lemma {:induction false} BelowTransitive(a: string, b: string, c: string)
    requires Below(a, b) && Below(b, c)
    ensures Below(a, c)
  {
    if a != [] && b != [] && c != [] && a[0] == b[0] && b[0] == c[0] {
      BelowTransitive(a[1..], b[1..], c[1..]);
    }
  }

  lemma {:induction false} BelowTotal(a: string, b: string)
    requires a != b
    ensures Below(a, b) || Below(b, a)
  {
    if a != [] && b != [] && a[0] == b[0] {
      assert a == [a[0]] + a[1..] && b == [b[0]] + b[1..];
      BelowTotal(a[1..], b[1..]);
    }
  }

  lemma BelowAsymmetric(a: string, b: string)
    requires Below(a, b)
    ensures !Below(b, a)
  {
    if Below(b, a) {
      BelowTransitive(a, b, a);
      BelowIrreflexive(a);
    }
  }

  /** Neither below the other means equal. */
  lemma Between(a: string, b: string)
    requires !Below(a, b) && !Below(b, a)
    ensures a == b
  {
    if a != b {
      BelowTotal(a, b);
    }
  }

  datatype Sub = Sub(topic: string, handler: nat)

  /** Entries `i` before `j` are in the multimap's order: the later topic is not below the earlier. */
  predicate InOrder(s: seq<Sub>, i: nat, j: nat) {
    i < j < |s| ==> !Below(s[j].topic, s[i].topic)
  }

  /** The multimap's order: topics never decrease along the sequence. */
  ghost predicate Sorted(s: seq<Sub>) {
    forall i: nat, j: nat :: InOrder(s, i, j)
  }

  /** `upper_bound(t)`: the first position whose topic is above `t`. */
  function UpperBound(s: seq<Sub>, t: string): (p: nat)
    ensures p <= |s|
  {
    if s == [] || Below(t, s[0].topic) then 0 else 1 + UpperBound(s[1..], t)
  }

  /** Nothing before the upper bound is above `t`; the entry at it is. */
  lemma {:induction false} UpperBoundSplits(s: seq<Sub>, t: string)
    ensures var p := UpperBound(s, t);
            && (forall k :: 0 <= k < p ==> !Below(t, s[k].topic))
            && (p < |s| ==> Below(t, s[p].topic))
  {
    if s != [] && !Below(t, s[0].topic) {
      UpperBoundSplits(s[1..], t);
      var p := UpperBound(s, t);
      forall k | 0 < k < p
        ensures !Below(t, s[k].topic)
      {
        assert s[k] == s[1..][k - 1];
      }
    }
  }

  /** `lower_bound(t)`: the first position whose topic is not below `t`. */
  function LowerBound(s: seq<Sub>, t: string): (p: nat)
    ensures p <= |s|
  {
    if s == [] || !Below(s[0].topic, t) then 0 else 1 + LowerBound(s[1..], t)
  }

  /** Everything before the lower bound is below `t`; the entry at it is not. */
  lemma {:induction false} LowerBoundSplits(s: seq<Sub>, t: string)
    ensures var p := LowerBound(s, t);
            && (forall k :: 0 <= k < p ==> Below(s[k].topic, t))
            && (p < |s| ==> !Below(s[p].topic, t))
  {
    if s != [] && Below(s[0].topic, t) {
      LowerBoundSplits(s[1..], t);
      var p := LowerBound(s, t);
      forall k | 0 < k < p
        ensures Below(s[k].topic, t)
      {
        assert s[k] == s[1..][k - 1];
      }
    }
  }

  /** In a sorted table everything from the upper bound on is above `t`. */
  lemma AboveUpperBound(s: seq<Sub>, t: string, k: nat)
    requires Sorted(s) && UpperBound(s, t) <= k < |s|
    ensures Below(t, s[k].topic)
  {
    var p := UpperBound(s, t);
    UpperBoundSplits(s, t);
    assert InOrder(s, p, k);
    if k != p && s[p].topic != s[k].topic {
      BelowTotal(s[p].topic, s[k].topic);
      BelowTransitive(t, s[p].topic, s[k].topic);
    }
  }

  /** In a sorted table nothing from the lower bound on is below `t`. */
  lemma NotBelowLowerBound(s: seq<Sub>, t: string, k: nat)
    requires Sorted(s) && LowerBound(s, t) <= k < |s|
    ensures !Below(s[k].topic, t)
  {
    var p := LowerBound(s, t);
    LowerBoundSplits(s, t);
    assert InOrder(s, p, k);
    if Below(s[k].topic, t) && k != p && s[p].topic != s[k].topic {
      BelowTotal(s[p].topic, s[k].topic);
      BelowTransitive(s[p].topic, s[k].topic, t);
    }
  }

  /** With nothing before `i` above `t`, the upper bound is found from `i` on. */
  lemma {:induction false} UpperBoundFrom(s: seq<Sub>, t: string, i: nat)
    requires i <= |s| && forall k :: 0 <= k < i ==> !Below(t, s[k].topic)
    ensures UpperBound(s, t) == i + UpperBound(s[i..], t)
  {
    if i > 0 {
      assert s[1..][i - 1..] == s[i..];
      UpperBoundFrom(s[1..], t, i - 1);
    }
  }

  /** `emplace(t, h)`: the new entry goes after every entry whose topic is not above `t`. */
  function Emplace(s: seq<Sub>, t: string, h: nat): (r: seq<Sub>)
    ensures |r| == |s| + 1
  {
    var p := UpperBound(s, t);
    s[..p] + [Sub(t, h)] + s[p..]
  }

  lemma EmplaceSorted(s: seq<Sub>, t: string, h: nat)
    requires Sorted(s)
    ensures Sorted(Emplace(s, t, h))
  {
    var p := UpperBound(s, t);
    var r := Emplace(s, t, h);
    UpperBoundSplits(s, t);
    forall i: nat, j: nat
      ensures InOrder(r, i, j)
    {
      if i < j < |r| {
        if j < p || i > p {
          var i', j' := if i < p then i else i - 1, if j < p then j else j - 1;
          assert r[i] == s[i'] && r[j] == s[j'];
          assert InOrder(s, i', j');
        } else if i == p {
          AboveUpperBound(s, t, j - 1);
          BelowAsymmetric(t, r[j].topic);
        } else if j == p {
          assert r[i] == s[i];
        } else {
          assert r[i] == s[i] && r[j] == s[j - 1];
          assert InOrder(s, i, j - 1);
        }
      }
    }
  }

  /** The handlers stored under exactly `t`, in table order. */
  function Handlers(s: seq<Sub>, t: string): (hs: seq<nat>)
    ensures |hs| <= |s|
  {
    if s == [] then [] else Own(s[0], t) + Handlers(s[1..], t)
  }

  /** The entry's handler when it is stored under exactly `t`. */
  function Own(e: Sub, t: string): (hs: seq<nat>)
    ensures |hs| <= 1
  {
    if e.topic == t then [e.handler] else []
  }

  /** `count(t)`. */
  function Count(s: seq<Sub>, t: string): nat {
    |Handlers(s, t)|
  }

  lemma {:induction false} HandlersAppend(a: seq<Sub>, b: seq<Sub>, t: string)
    ensures Handlers(a + b, t) == Handlers(a, t) + Handlers(b, t)
  {
    if a == [] {
      assert a + b == b;
    } else {
      var ab := a + b;
      assert ab[0] == a[0] && ab[1..] == a[1..] + b;
      HandlersAppend(a[1..], b, t);
      var o := Own(a[0], t);
      calc {
        Handlers(ab, t);
        o + Handlers(a[1..] + b, t);
        o + (Handlers(a[1..], t) + Handlers(b, t));
        o + Handlers(a[1..], t) + Handlers(b, t);
      }
    }
  }

  lemma {:induction false} HandlersAbsent(s: seq<Sub>, t: string)
    requires forall k :: 0 <= k < |s| ==> s[k].topic != t
    ensures Handlers(s, t) == []
  {
    if s != [] {
      HandlersAbsent(s[1..], t);
    }
  }

  /**
   * Emplacing appends `h` to the handlers of `t` and leaves every other
   * topic's handlers as they were: per-topic registration order.
   */
  lemma EmplaceHandlers(s: seq<Sub>, t: string, h: nat, u: string)
    requires Sorted(s)
    ensures Handlers(Emplace(s, t, h), u) == Handlers(s, u) + (if u == t then [h] else [])
  {
    var p := UpperBound(s, t);
    HandlersInsert(s[..p], Sub(t, h), s[p..], u);
    HandlersSplit(s, p, u);
    var ha, hb := Handlers(s[..p], u), Handlers(s[p..], u);
    var mid := Own(Sub(t, h), u);
    assert mid == if u == t then [h] else [];
    if u == t {
      HandlersAboveUpperBound(s, t);
      assert ha + mid + hb == ha + hb + mid;
    } else {
      assert ha + mid + hb == ha + hb + mid;
    }
  }

  /** An entry inserted between two parts adds its own handler between theirs. */
  lemma HandlersInsert(a: seq<Sub>, e: Sub, b: seq<Sub>, u: string)
    ensures Handlers(a + [e] + b, u) == Handlers(a, u) + Own(e, u) + Handlers(b, u)
  {
    HandlersAppend(a + [e], b, u);
    HandlersAppend(a, [e], u);
    assert [e][1..] == [];
    assert Handlers([e], u) == Own(e, u) + Handlers([], u);
  }

  lemma HandlersSplit(s: seq<Sub>, p: nat, u: string)
    requires p <= |s|
    ensures Handlers(s, u) == Handlers(s[..p], u) + Handlers(s[p..], u)
  {
    SeqFacts.TakeDrop(s, p);
    HandlersAppend(s[..p], s[p..], u);
  }

  /** No entry from the upper bound on carries `t`. */
  lemma HandlersAboveUpperBound(s: seq<Sub>, t: string)
    requires Sorted(s)
    ensures Handlers(s[UpperBound(s, t)..], t) == []
  {
    var p := UpperBound(s, t);
    var rest := s[p..];
    BelowIrreflexive(t);
    forall k | 0 <= k < |rest|
      ensures rest[k].topic != t
    {
      assert rest[k] == s[p + k];
      AboveUpperBound(s, t, p + k);
    }
    HandlersAbsent(rest, t);
  }

  /** A topic gains its first handler exactly when it had none. */
  lemma EmplaceCount(s: seq<Sub>, t: string, h: nat)
    requires Sorted(s)
    ensures Count(Emplace(s, t, h), t) == Count(s, t) + 1
    ensures Count(Emplace(s, t, h), t) == 1 <==> Count(s, t) == 0
  {
    EmplaceHandlers(s, t, h, t);
  }

  /** The distinct topics, in table order: what the reconnect loop walks. */
  function Topics(s: seq<Sub>): (ts: seq<string>)
    ensures |ts| <= |s|
    decreases |s|
  {
    if s == [] then []
    else
      BelowIrreflexive(s[0].topic);
      [s[0].topic] + Topics(s[UpperBound(s, s[0].topic)..])
  }

  lemma SortedSuffix(s: seq<Sub>, p: nat)
    requires Sorted(s) && p <= |s|
    ensures Sorted(s[p..])
  {
    forall i: nat, j: nat
      ensures InOrder(s[p..], i, j)
    {
      if i < j < |s[p..]| {
        assert s[p..][i] == s[p + i] && s[p..][j] == s[p + j];
        assert InOrder(s, p + i, p + j);
      }
    }
  }

  /** A topic is listed exactly when some entry carries it. */
  lemma TopicsMembers(s: seq<Sub>, t: string)
    requires Sorted(s)
    ensures t in Topics(s) <==> exists k :: 0 <= k < |s| && s[k].topic == t
  {
    if exists k :: 0 <= k < |s| && s[k].topic == t {
      var k :| 0 <= k < |s| && s[k].topic == t;
      TopicsListed(s, k);
    }
    if t in Topics(s) {
      TopicsCarried(s, t);
    }
  }

  /** The topic of every entry is listed. */
  lemma {:induction false} TopicsListed(s: seq<Sub>, k: nat)
    requires Sorted(s) && k < |s|
    ensures s[k].topic in Topics(s)
    decreases |s|
  {
    var p := UpperBound(s, s[0].topic);
    BelowIrreflexive(s[0].topic);
    if k < p {
      if k > 0 {
        UpperBoundSplits(s, s[0].topic);
        assert InOrder(s, 0, k);
        Between(s[0].topic, s[k].topic);
      }
    } else {
      SortedSuffix(s, p);
      TopicsListed(s[p..], k - p);
      assert s[p..][k - p] == s[k];
    }
  }

  /** Every listed topic is carried by some entry. */
  lemma {:induction false} TopicsCarried(s: seq<Sub>, t: string)
    requires t in Topics(s)
    ensures exists k :: 0 <= k < |s| && s[k].topic == t
    decreases |s|
  {
    var p := UpperBound(s, s[0].topic);
    BelowIrreflexive(s[0].topic);
    if t != s[0].topic {
      assert t in Topics(s[p..]);
      TopicsCarried(s[p..], t);
      var k :| 0 <= k < |s[p..]| && s[p..][k].topic == t;
      assert s[p + k].topic == t;
    }
  }

  /** Each topic is listed once, in ascending order. */
  lemma {:induction false} TopicsAscending(s: seq<Sub>)
    requires Sorted(s)
    ensures forall i, j :: 0 <= i < j < |Topics(s)| ==> Below(Topics(s)[i], Topics(s)[j])
    decreases |s|
  {
    if s != [] {
      var p := UpperBound(s, s[0].topic);
      BelowIrreflexive(s[0].topic);
      SortedSuffix(s, p);
      TopicsAscending(s[p..]);
      var rest := Topics(s[p..]);
      forall j | 0 <= j < |rest|
        ensures Below(s[0].topic, rest[j])
      {
        TopicsMembers(s[p..], rest[j]);
        var k :| 0 <= k < |s[p..]| && s[p..][k].topic == rest[j];
        AboveUpperBound(s, s[0].topic, p + k);
      }
      var ts := Topics(s);
      assert ts == [s[0].topic] + rest;
      forall i, j | 0 <= i < j < |ts|
        ensures Below(ts[i], ts[j])
      {
        assert ts[j] == rest[j - 1];
        if i > 0 {
          assert ts[i] == rest[i - 1];
        }
      }
    }
  }

  /**
   * The reconnect loop: from the first entry, name its topic and jump to
   * `upper_bound` of that topic, until the end.
   */
  method DistinctTopics(s: seq<Sub>) returns (ts: seq<string>)
    requires Sorted(s)
    ensures ts == Topics(s)
  {
    ts := [];
    var i := 0;
    while i < |s|
      invariant i <= |s|
      invariant ts + Topics(s[i..]) == Topics(s)
      decreases |s| - i
    {
      var t := s[i].topic;
      TopicsFrom(s, i);
      ts := ts + [t];
      i := UpperBound(s, t);
    }
  }

  /** The topics from position `i` on: the one at `i`, then those after its upper bound. */
  lemma TopicsFrom(s: seq<Sub>, i: nat)
    requires Sorted(s) && i < |s|
    ensures i < UpperBound(s, s[i].topic) <= |s|
    ensures Topics(s[i..]) == [s[i].topic] + Topics(s[UpperBound(s, s[i].topic)..])
  {
    var t := s[i].topic;
    var u := s[i..];
    assert u[0] == s[i];
    BelowIrreflexive(t);
    forall k | 0 <= k < i
      ensures !Below(t, s[k].topic)
    {
      assert InOrder(s, k, i);
    }
    UpperBoundFrom(s, t, i);
    var q := UpperBound(u, t);
    assert u[q..] == s[UpperBound(s, t)..];
  }

  /** In a sorted table the entries of `t` are exactly those between the two bounds. */
  lemma EqualRange(s: seq<Sub>, t: string)
    requires Sorted(s)
    ensures LowerBound(s, t) <= UpperBound(s, t)
    ensures forall k :: LowerBound(s, t) <= k < UpperBound(s, t) ==> s[k].topic == t
    ensures Handlers(s, t) == Handlers(s[LowerBound(s, t)..UpperBound(s, t)], t)
  {
    var lo, hi := LowerBound(s, t), UpperBound(s, t);
    EqualRangeTopics(s, t);
    HandlersBelowLowerBound(s, t);
    HandlersAboveUpperBound(s, t);
    SeqFacts.ThreeParts(s, lo, hi);
    HandlersAppend(s[..lo] + s[lo..hi], s[hi..], t);
    HandlersAppend(s[..lo], s[lo..hi], t);
  }

  /** The entries between the two bounds are exactly those of `t`. */
  lemma EqualRangeTopics(s: seq<Sub>, t: string)
    requires Sorted(s)
    ensures LowerBound(s, t) <= UpperBound(s, t)
    ensures forall k :: LowerBound(s, t) <= k < UpperBound(s, t) ==> s[k].topic == t
  {
    var lo, hi := LowerBound(s, t), UpperBound(s, t);
    LowerBoundSplits(s, t);
    UpperBoundSplits(s, t);
    if hi < lo {
      BelowAsymmetric(s[hi].topic, t);
    }
    forall k | lo <= k < hi
      ensures s[k].topic == t
    {
      NotBelowLowerBound(s, t, k);
      Between(s[k].topic, t);
    }
  }

  /** No entry before the lower bound carries `t`. */
  lemma HandlersBelowLowerBound(s: seq<Sub>, t: string)
    ensures Handlers(s[..LowerBound(s, t)], t) == []
  {
    var lo := LowerBound(s, t);
    LowerBoundSplits(s, t);
    forall k | 0 <= k < |s[..lo]|
      ensures s[..lo][k].topic != t
    {
      BelowIrreflexive(t);
    }
    HandlersAbsent(s[..lo], t);
  }

  /** `equal_range(t)` walked front to back: the handlers to invoke for a message on `t`. */
  method Dispatch(s: seq<Sub>, t: string) returns (hs: seq<nat>)
    requires Sorted(s)
    ensures hs == Handlers(s, t)
  {
    EqualRange(s, t);
    UpperBoundSplits(s, t);
    var lo, hi := LowerBound(s, t), UpperBound(s, t);
    hs := [];
    for k := lo to hi
      invariant hs == Handlers(s[lo..k], t)
    {
      SeqFacts.SliceSnoc(s, lo, k);
      HandlersAppend(s[lo..k], [s[k]], t);
      hs := hs + [s[k].handler];
    }
  }
}
