/**
 * The publish/subscribe primitives of main/Event.hpp.
 *
 * Handlers are identified by ids. What a handler does when it is invoked is
 * an input: the subscription tokens it drops and the handlers it connects to
 * the same event (`Effect`). A `SubscribeEvent` is a list of entries
 * (token, handler, deleted flag); dropping a token sets the flag, and a
 * dispatch walks the entries present when it began, invoking the live ones
 * and erasing flagged ones as it passes them.
 */
module Event {
  import SeqFacts

  type HandlerId = nat
  type Token = nat

  datatype Entry = Entry(token: Token, handler: HandlerId, deleted: bool)

  /** What one invocation of a handler does to the event it is connected to. */
  datatype Effect = Effect(drops: set<Token>, connects: seq<HandlerId>)

  /** The state of a `SubscribeEvent`: its entry list and the next unused token. */
  datatype Bus = Bus(entries: seq<Entry>, next: Token)

  function EffectOf(effects: map<HandlerId, Effect>, h: HandlerId): Effect {
    if h in effects then effects[h] else Effect({}, [])
  }

  function Tokens(es: seq<Entry>): (ts: seq<Token>)
    ensures |ts| == |es| && forall i :: 0 <= i < |es| ==> ts[i] == es[i].token
  {
    seq(|es|, i requires 0 <= i < |es| => es[i].token)
  }

  /** The flag of `e` once the tokens in `drops` have been dropped. */
  function Mark(e: Entry, drops: set<Token>): Entry {
    e.(deleted := e.deleted || e.token in drops)
  }

  /** Setting the deleted flag of every entry whose token is in `drops`. */
  function MarkDropped(es: seq<Entry>, drops: set<Token>): (r: seq<Entry>)
    ensures |r| == |es|
    decreases |es|
  {
    if es == [] then [] else [Mark(es[0], drops)] + MarkDropped(es[1..], drops)
  }

  /** The entries appended for newly connected handlers, with tokens from `next` on. */
  function Fresh(next: Token, hs: seq<HandlerId>): (r: seq<Entry>)
    ensures |r| == |hs|
    decreases |hs|
  {
    if hs == [] then [] else [Entry(next, hs[0], false)] + Fresh(next + 1, hs[1..])
  }

  /** The effect of one handler invocation on the event's state. */
  function Apply(b: Bus, eff: Effect): (r: Bus)
    ensures |r.entries| == |b.entries| + |eff.connects| && r.next == b.next + |eff.connects|
  {
    Bus(MarkDropped(b.entries, eff.drops) + Fresh(b.next, eff.connects), b.next + |eff.connects|)
  }

  /** The list with the entry at `pos` erased. */
  function Erase(s: seq<Entry>, pos: nat): (r: seq<Entry>)
    requires pos < |s|
    ensures |r| == |s| - 1
  {
    s[..pos] + s[pos + 1..]
  }

  /** The iterator step after a visit: erase a flagged entry (the position stays), else move past it. */
  function Settle(b: Bus, pos: nat): (r: (Bus, nat))
    requires pos < |b.entries|
    ensures r.1 <= |r.0.entries| && |b.entries| - pos - 1 == |r.0.entries| - r.1
  {
    if b.entries[pos].deleted then (b.(entries := Erase(b.entries, pos)), pos) else (b, pos + 1)
  }

  /**
   * One turn of the dispatch loop at position `pos`: invoke the entry there
   * if it is live, then settle the iterator. Returns the new state, the new
   * position and the handler invoked, if any.
   */
  function VisitOne(b: Bus, pos: nat, effects: map<HandlerId, Effect>): (r: (Bus, nat, seq<HandlerId>))
    requires pos < |b.entries|
    ensures r.1 <= |r.0.entries| && |b.entries| - pos - 1 <= |r.0.entries| - r.1
  {
    var e := b.entries[pos];
    if e.deleted then
      var s := Settle(b, pos);
      (s.0, s.1, [])
    else
      var s := Settle(Apply(b, EffectOf(effects, e.handler)), pos);
      (s.0, s.1, [e.handler])
  }

  /**
   * The dispatch loop from position `pos` with `count` original entries
   * left to visit: the final state and the handlers invoked, in order.
   */
  function Visit(b: Bus, pos: nat, count: nat, effects: map<HandlerId, Effect>): (res: (Bus, seq<HandlerId>))
    requires pos + count <= |b.entries|
    decreases count
  {
    if count == 0 then (b, [])
    else
      var t := VisitOne(b, pos, effects);
      var r := Visit(t.0, t.1, count - 1, effects);
      (r.0, t.2 + r.1)
  }

  /** A whole dispatch. */
  function Dispatch(b: Bus, effects: map<HandlerId, Effect>): (res: (Bus, seq<HandlerId>))
  {
    Visit(b, 0, |b.entries|, effects)
  }

  /**
   * Reference semantics of a dispatch, without the list surgery: walk the
   * entries present at the start in order, skip flagged ones, and let each
   * invoked handler flag the entries it drops among those still to come.
   */
  function Expected(es: seq<Entry>, effects: map<HandlerId, Effect>): seq<HandlerId>
    decreases |es|
  {
    if es == [] then []
    else if es[0].deleted then Expected(es[1..], effects)
    else [es[0].handler] + Expected(MarkDropped(es[1..], EffectOf(effects, es[0].handler).drops), effects)
  }

  /** The handlers of the entries not flagged, in list order. */
  function LiveHandlers(es: seq<Entry>): (hs: seq<HandlerId>)
    ensures |hs| <= |es|
  {
    if es == [] then []
    else (if es[0].deleted then [] else [es[0].handler]) + LiveHandlers(es[1..])
  }

  /** `s` is `t` with some elements left out, order kept. */
  predicate IsSubseq<X(==)>(s: seq<X>, t: seq<X>)
    decreases |t|
  {
    s == [] || (t != [] && (if s[0] == t[0] then IsSubseq(s[1..], t[1..]) else IsSubseq(s, t[1..])))
  }

  lemma {:induction false} MarkDroppedIndex(es: seq<Entry>, drops: set<Token>, i: nat)
    requires i < |es|
    ensures MarkDropped(es, drops)[i] == Mark(es[i], drops)
    decreases i
  {
    if i > 0 {
      MarkDroppedIndex(es[1..], drops, i - 1);
    }
  }

  lemma {:induction false} MarkDroppedAppend(a: seq<Entry>, b: seq<Entry>, drops: set<Token>)
    ensures MarkDropped(a + b, drops) == MarkDropped(a, drops) + MarkDropped(b, drops)
    decreases |a|
  {
    if a == [] {
      assert a + b == b;
    } else {
      assert (a + b)[0] == a[0] && (a + b)[1..] == a[1..] + b;
      MarkDroppedAppend(a[1..], b, drops);
    }
  }

  /** Flagging commutes with taking a slice. */
  lemma MarkDroppedSlice(es: seq<Entry>, drops: set<Token>, lo: nat, hi: nat)
    requires lo <= hi <= |es|
    ensures MarkDropped(es, drops)[lo..hi] == MarkDropped(es[lo..hi], drops)
  {
    assert es == es[..lo] + es[lo..hi] + es[hi..];
    MarkDroppedAppend(es[..lo] + es[lo..hi], es[hi..], drops);
    MarkDroppedAppend(es[..lo], es[lo..hi], drops);
  }

  /** Dropping one more token flags on top of the earlier drops. */
  lemma {:induction false} MarkDroppedSnoc(es: seq<Entry>, drops: set<Token>, t: Token)
    ensures MarkDropped(MarkDropped(es, drops), {t}) == MarkDropped(es, drops + {t})
    decreases |es|
  {
    if es != [] {
      MarkDroppedSnoc(es[1..], drops, t);
    }
  }

  lemma {:induction false} MarkDroppedNothing(es: seq<Entry>)
    ensures MarkDropped(es, {}) == es
    decreases |es|
  {
    if es != [] {
      MarkDroppedNothing(es[1..]);
      assert Mark(es[0], {}) == es[0];
    }
  }

  lemma {:induction false} FreshSnoc(next: Token, hs: seq<HandlerId>, h: HandlerId)
    ensures Fresh(next, hs + [h]) == Fresh(next, hs) + [Entry(next + |hs|, h, false)]
    decreases |hs|
  {
    if hs == [] {
      assert Fresh(next + 1, []) == [];
    } else {
      assert (hs + [h])[0] == hs[0] && (hs + [h])[1..] == hs[1..] + [h];
      FreshSnoc(next + 1, hs[1..], h);
    }
  }

  /** Settling the iterator leaves the not yet visited entries in view. */
  lemma SettleWindow(b: Bus, pos: nat, count: nat)
    requires 0 < count && pos + count <= |b.entries|
    ensures Settle(b, pos).0.entries[Settle(b, pos).1..Settle(b, pos).1 + count - 1] == b.entries[pos + 1..pos + count]
  {
    if b.entries[pos].deleted {
      var s := b.entries;
      assert Erase(s, pos)[pos..pos + count - 1] == s[pos + 1..pos + count];
    }
  }

  /** An invocation flags entries in place and appends after them. */
  lemma ApplyWindow(b: Bus, eff: Effect, lo: nat, hi: nat)
    requires lo <= hi <= |b.entries|
    ensures Apply(b, eff).entries[lo..hi] == MarkDropped(b.entries[lo..hi], eff.drops)
  {
    var m := MarkDropped(b.entries, eff.drops);
    assert Apply(b, eff).entries[lo..hi] == m[lo..hi];
    MarkDroppedSlice(b.entries, eff.drops, lo, hi);
  }

  /** A turn at a flagged entry invokes nothing and erases it. */
  lemma VisitOneFlagged(b: Bus, pos: nat, count: nat, effects: map<HandlerId, Effect>)
    requires 0 < count && pos + count <= |b.entries| && b.entries[pos].deleted
    ensures VisitOne(b, pos, effects).2 == []
    ensures VisitOne(b, pos, effects).0.entries[VisitOne(b, pos, effects).1..VisitOne(b, pos, effects).1 + count - 1]
            == b.entries[pos + 1..pos + count]
  {
    var s := Settle(b, pos);
    assert VisitOne(b, pos, effects) == (s.0, s.1, []);
    SettleWindow(b, pos, count);
  }

  /** A turn at a live entry invokes its handler and flags what it drops among the entries still to come. */
  lemma VisitOneLive(b: Bus, pos: nat, count: nat, effects: map<HandlerId, Effect>, d: set<Token>)
    requires 0 < count && pos + count <= |b.entries| && !b.entries[pos].deleted
    requires d == EffectOf(effects, b.entries[pos].handler).drops
    ensures VisitOne(b, pos, effects).2 == [b.entries[pos].handler]
    ensures VisitOne(b, pos, effects).0.entries[VisitOne(b, pos, effects).1..VisitOne(b, pos, effects).1 + count - 1]
            == MarkDropped(b.entries[pos + 1..pos + count], d)
  {
    var eff := EffectOf(effects, b.entries[pos].handler);
    var s := Settle(Apply(b, eff), pos);
    assert VisitOne(b, pos, effects) == (s.0, s.1, [b.entries[pos].handler]);
    SettleWindow(Apply(b, eff), pos, count);
    ApplyWindow(b, eff, pos + 1, pos + count);
  }

  /**
   * The dispatch loop, list surgery and all, invokes exactly the handlers
   * the reference walk over the entries it started with invokes: entries
   * connected during the dispatch are never reached.
   */
  lemma {:induction false} VisitIsExpected(b: Bus, pos: nat, count: nat, effects: map<HandlerId, Effect>)
    requires pos + count <= |b.entries|
    ensures Visit(b, pos, count, effects).1 == Expected(b.entries[pos..pos + count], effects)
    decreases count
  {
    if count > 0 {
      var w := b.entries[pos..pos + count];
      var e := b.entries[pos];
      assert w[0] == e && w[1..] == b.entries[pos + 1..pos + count];
      var t := VisitOne(b, pos, effects);
      if e.deleted {
        VisitOneFlagged(b, pos, count, effects);
      } else {
        VisitOneLive(b, pos, count, effects, EffectOf(effects, e.handler).drops);
      }
      VisitIsExpected(t.0, t.1, count - 1, effects);
    }
  }

  lemma DispatchIsExpected(b: Bus, effects: map<HandlerId, Effect>)
    ensures Dispatch(b, effects).1 == Expected(b.entries, effects)
  {
    VisitIsExpected(b, 0, |b.entries|, effects);
    assert b.entries[0..|b.entries|] == b.entries;
  }

  lemma {:induction false} SubseqTail<X>(s: seq<X>, t: seq<X>, x: X)
    requires IsSubseq(s, t)
    ensures IsSubseq(s, [x] + t)
    decreases |t|, 1
  {
    var u := [x] + t;
    assert u[0] == x && u[1..] == t;
    if s != [] && s[0] == x {
      SubseqDrop(s, t);
    }
  }

  lemma {:induction false} SubseqDrop<X>(s: seq<X>, t: seq<X>)
    requires s != [] && IsSubseq(s, t)
    ensures IsSubseq(s[1..], t)
    decreases |t|, 0
  {
    assert [t[0]] + t[1..] == t;
    if s[0] == t[0] {
      SubseqTail(s[1..], t[1..], t[0]);
    } else {
      SubseqDrop(s, t[1..]);
      SubseqTail(s[1..], t[1..], t[0]);
    }
  }

  lemma {:induction false} LiveOfMarked(es: seq<Entry>, drops: set<Token>, s: seq<HandlerId>)
    requires IsSubseq(s, LiveHandlers(MarkDropped(es, drops)))
    ensures IsSubseq(s, LiveHandlers(es))
    decreases |es|
  {
    if es != [] && s != [] {
      var m := MarkDropped(es, drops);
      assert m[1..] == MarkDropped(es[1..], drops);
      var lm := LiveHandlers(m);
      var le := LiveHandlers(es);
      if m[0].deleted {
        assert lm == LiveHandlers(m[1..]);
        LiveOfMarked(es[1..], drops, s);
        if es[0].deleted {
          assert le == LiveHandlers(es[1..]);
        } else {
          assert le == [es[0].handler] + LiveHandlers(es[1..]);
          SubseqTail(s, LiveHandlers(es[1..]), es[0].handler);
        }
      } else {
        assert lm == [m[0].handler] + LiveHandlers(m[1..]);
        assert lm[0] == le[0] && lm[1..] == LiveHandlers(m[1..]);
        assert le == [es[0].handler] + LiveHandlers(es[1..]);
        assert le[1..] == LiveHandlers(es[1..]);
        if s[0] == lm[0] {
          LiveOfMarked(es[1..], drops, s[1..]);
        } else {
          LiveOfMarked(es[1..], drops, s);
        }
      }
    }
  }

  /**
   * A dispatch invokes handlers of entries that were live when it began,
   * in connection order, each entry at most once.
   */
  lemma {:induction false} ExpectedIsSubseqOfLive(es: seq<Entry>, effects: map<HandlerId, Effect>)
    ensures IsSubseq(Expected(es, effects), LiveHandlers(es))
    decreases |es|
  {
    if es != [] {
      var rest := es[1..];
      if es[0].deleted {
        ExpectedIsSubseqOfLive(rest, effects);
        assert LiveHandlers(es) == LiveHandlers(rest);
      } else {
        var d := EffectOf(effects, es[0].handler).drops;
        ExpectedIsSubseqOfLive(MarkDropped(rest, d), effects);
        LiveOfMarked(rest, d, Expected(MarkDropped(rest, d), effects));
        var x := Expected(es, effects);
        var l := LiveHandlers(es);
        assert l == [es[0].handler] + LiveHandlers(rest);
        assert x[0] == l[0] && x[1..] == Expected(MarkDropped(rest, d), effects) && l[1..] == LiveHandlers(rest);
      }
    }
  }

  /** When no handler drops anything, every live entry is invoked, in order. */
  lemma {:induction false} NoDropsInvokesAllLive(es: seq<Entry>, effects: map<HandlerId, Effect>)
    requires forall h :: h in effects ==> effects[h].drops == {}
    ensures Expected(es, effects) == LiveHandlers(es)
    decreases |es|
  {
    if es != [] {
      var rest := es[1..];
      if !es[0].deleted {
        MarkDroppedNothing(rest);
      }
      NoDropsInvokesAllLive(rest, effects);
    }
  }

  /** A handler whose entry was flagged before its turn is not invoked for that entry. */
  lemma DroppedEarlierNotInvoked(e: Entry, f: Entry, rest: seq<Entry>, effects: map<HandlerId, Effect>)
    requires !e.deleted && f.token in EffectOf(effects, e.handler).drops
    ensures Expected([e, f] + rest, effects)
            == [e.handler] + Expected(MarkDropped(rest, EffectOf(effects, e.handler).drops), effects)
  {
    var d := EffectOf(effects, e.handler).drops;
    var es := [e, f] + rest;
    assert es[1..] == [f] + rest;
    var m := MarkDropped([f] + rest, d);
    assert m[0].deleted && m[1..] == MarkDropped(rest, d);
  }

  /** The entries with their flags cleared: what a list holds apart from the flags. */
  function Plain(es: seq<Entry>): (r: seq<Entry>)
    ensures |r| == |es|
    decreases |es|
  {
    if es == [] then [] else [es[0].(deleted := false)] + Plain(es[1..])
  }

  /** The entries not flagged, in list order. */
  function Unflagged(es: seq<Entry>): (r: seq<Entry>)
    ensures |r| <= |es|
    decreases |es|
  {
    if es == [] then []
    else (if es[0].deleted then [] else [es[0]]) + Unflagged(es[1..])
  }

  /** The handlers connected, in order, by invoking `hs` one after the other. */
  function ConnectsOf(hs: seq<HandlerId>, effects: map<HandlerId, Effect>): seq<HandlerId>
    decreases |hs|
  {
    if hs == [] then [] else EffectOf(effects, hs[0]).connects + ConnectsOf(hs[1..], effects)
  }

  /** The tokens dropped, all together, by invoking `hs`. */
  function DropsOf(hs: seq<HandlerId>, effects: map<HandlerId, Effect>): set<Token>
    decreases |hs|
  {
    if hs == [] then {} else EffectOf(effects, hs[0]).drops + DropsOf(hs[1..], effects)
  }

  /**
   * The entries present when a dispatch starts that it keeps, in list
   * order: those not flagged when their visit ends. An entry flagged before
   * its turn, or by its own handler, is left out.
   */
  function KeptOf(es: seq<Entry>, effects: map<HandlerId, Effect>): seq<Entry>
    decreases |es|
  {
    if es == [] then []
    else if es[0].deleted then KeptOf(es[1..], effects)
    else
      var d := EffectOf(effects, es[0].handler).drops;
      (if es[0].token in d then [] else [es[0]]) + KeptOf(MarkDropped(es[1..], d), effects)
  }

  /**
   * Reference semantics of the list a dispatch leaves, without iterator
   * positions or erasure: `kept` are the entries already passed and kept,
   * `todo` those still to visit, `added` those connected so far. A flagged
   * entry is not kept; a live one is invoked, its drops flag entries in all
   * three parts, its connects join `added` with the next tokens, and it is
   * kept unless it flagged itself.
   */
  function SurvivorsFrom(kept: seq<Entry>, todo: seq<Entry>, added: seq<Entry>, next: Token,
                         effects: map<HandlerId, Effect>): Bus
    decreases |todo|
  {
    if todo == [] then Bus(kept + added, next)
    else if todo[0].deleted then SurvivorsFrom(kept, todo[1..], added, next, effects)
    else
      var eff := EffectOf(effects, todo[0].handler);
      var e := Mark(todo[0], eff.drops);
      SurvivorsFrom(MarkDropped(kept, eff.drops) + (if e.deleted then [] else [e]),
                    MarkDropped(todo[1..], eff.drops),
                    MarkDropped(added, eff.drops) + Fresh(next, eff.connects),
                    next + |eff.connects|, effects)
  }

  function Survivors(b: Bus, effects: map<HandlerId, Effect>): Bus {
    SurvivorsFrom([], b.entries, [], b.next, effects)
  }

  lemma MarkDroppedCons(e: Entry, rest: seq<Entry>, drops: set<Token>)
    ensures MarkDropped([e] + rest, drops) == [Mark(e, drops)] + MarkDropped(rest, drops)
  {
    assert ([e] + rest)[1..] == rest;
  }

  lemma UnflaggedCons(e: Entry, rest: seq<Entry>)
    ensures Unflagged([e] + rest) == (if e.deleted then [] else [e]) + Unflagged(rest)
  {
    assert ([e] + rest)[1..] == rest;
  }

  lemma {:induction false} PlainAppend(a: seq<Entry>, b: seq<Entry>)
    ensures Plain(a + b) == Plain(a) + Plain(b)
    decreases |a|
  {
    if a == [] {
      assert a + b == b;
    } else {
      assert (a + b)[0] == a[0] && (a + b)[1..] == a[1..] + b;
      PlainAppend(a[1..], b);
    }
  }

  lemma {:induction false} PlainOfMarked(es: seq<Entry>, drops: set<Token>)
    ensures Plain(MarkDropped(es, drops)) == Plain(es)
    decreases |es|
  {
    if es != [] {
      var m := MarkDropped(es, drops);
      assert m[0] == Mark(es[0], drops) && m[1..] == MarkDropped(es[1..], drops);
      PlainOfMarked(es[1..], drops);
    }
  }

  lemma {:induction false} FreshAppend(next: Token, hs: seq<HandlerId>, more: seq<HandlerId>)
    ensures Fresh(next, hs + more) == Fresh(next, hs) + Fresh(next + |hs|, more)
    decreases |hs|
  {
    if hs == [] {
      assert hs + more == more;
    } else {
      assert (hs + more)[0] == hs[0] && (hs + more)[1..] == hs[1..] + more;
      FreshAppend(next + 1, hs[1..], more);
    }
  }

  lemma {:induction false} FreshUnflagged(next: Token, hs: seq<HandlerId>)
    ensures forall e :: e in Fresh(next, hs) ==> !e.deleted
    ensures Plain(Fresh(next, hs)) == Fresh(next, hs)
    decreases |hs|
  {
    if hs != [] {
      var f := Fresh(next, hs);
      assert f[1..] == Fresh(next + 1, hs[1..]);
      FreshUnflagged(next + 1, hs[1..]);
    }
  }

  /** A turn at a flagged first entry of `todo` erases it and leaves the iterator where it was. */
  lemma VisitOneFlaggedParts(kept: seq<Entry>, todo: seq<Entry>, added: seq<Entry>, next: Token,
                             effects: map<HandlerId, Effect>)
    requires todo != [] && todo[0].deleted
    ensures var t := VisitOne(Bus(kept + todo + added, next), |kept|, effects);
            t.0 == Bus(kept + todo[1..] + added, next) && t.1 == |kept|
  {
    var s := kept + todo + added;
    assert s[|kept|] == todo[0];
    assert s[..|kept|] == kept && s[|kept| + 1..] == todo[1..] + added;
  }

  /**
   * A turn at a live first entry of `todo`: its drops flag entries in all
   * three parts, its connects are appended, and it joins `kept` unless it
   * flagged itself.
   */
  lemma VisitOneLiveParts(kept: seq<Entry>, todo: seq<Entry>, added: seq<Entry>, next: Token,
                          effects: map<HandlerId, Effect>)
    requires todo != [] && !todo[0].deleted
    ensures var eff := EffectOf(effects, todo[0].handler);
            var e := Mark(todo[0], eff.drops);
            var k := MarkDropped(kept, eff.drops) + (if e.deleted then [] else [e]);
            var t := VisitOne(Bus(kept + todo + added, next), |kept|, effects);
            && t.0 == Bus(k + MarkDropped(todo[1..], eff.drops) + (MarkDropped(added, eff.drops) + Fresh(next, eff.connects)),
                          next + |eff.connects|)
            && t.1 == |k|
  {
    var eff := EffectOf(effects, todo[0].handler);
    var d := eff.drops;
    var e := Mark(todo[0], d);
    var b := Bus(kept + todo + added, next);
    var n := next + |eff.connects|;
    var tail := MarkDropped(added, d) + Fresh(next, eff.connects);
    assert b.entries[|kept|] == todo[0];
    VisitOneLiveAt(b, |kept|, effects);
    assert Apply(b, eff) == Bus(MarkDropped(kept, d) + [e] + (MarkDropped(todo[1..], d) + tail), n) by {
      LiveMarked(kept, todo, added, d, Fresh(next, eff.connects));
    }
    SettleAt(MarkDropped(kept, d), e, MarkDropped(todo[1..], d), tail, n);
  }

  /** A turn at a live entry: apply its handler's effect, then settle on the entry. */
  lemma VisitOneLiveAt(b: Bus, pos: nat, effects: map<HandlerId, Effect>)
    requires pos < |b.entries| && !b.entries[pos].deleted
    ensures var s := Settle(Apply(b, EffectOf(effects, b.entries[pos].handler)), pos);
            VisitOne(b, pos, effects) == (s.0, s.1, [b.entries[pos].handler])
  {
  }

  /** Flagging a list whose middle part starts with `todo[0]`, split around that entry. */
  lemma LiveMarked(kept: seq<Entry>, todo: seq<Entry>, added: seq<Entry>, d: set<Token>, extra: seq<Entry>)
    requires todo != []
    ensures MarkDropped(kept + todo + added, d) + extra
            == MarkDropped(kept, d) + [Mark(todo[0], d)] + (MarkDropped(todo[1..], d) + (MarkDropped(added, d) + extra))
  {
    var kt, k, t := MarkDropped(kept + todo, d), MarkDropped(kept, d), MarkDropped(todo, d);
    assert MarkDropped(kept + todo + added, d) == kt + MarkDropped(added, d) by {
      MarkDroppedAppend(kept + todo, added, d);
    }
    assert kt == k + t by {
      MarkDroppedAppend(kept, todo, d);
    }
    assert t == [Mark(todo[0], d)] + MarkDropped(todo[1..], d) by {
      assert todo == [todo[0]] + todo[1..];
      MarkDroppedCons(todo[0], todo[1..], d);
    }
    Split3(MarkDropped(kept + todo + added, d), kt, k, t, MarkDropped(added, d), [Mark(todo[0], d)],
           MarkDropped(todo[1..], d), extra);
  }

  lemma Split3<X>(w: seq<X>, kt: seq<X>, k: seq<X>, t: seq<X>, a: seq<X>, m: seq<X>, r: seq<X>, x: seq<X>)
    requires w == kt + a && kt == k + t && t == m + r
    ensures w + x == k + m + (r + (a + x))
  {
  }

  /** Settling the iterator on the entry `e` that follows `before`. */
  lemma SettleAt(before: seq<Entry>, e: Entry, mid: seq<Entry>, tail: seq<Entry>, n: Token)
    ensures var k := before + (if e.deleted then [] else [e]);
            Settle(Bus(before + [e] + (mid + tail), n), |before|) == (Bus(k + mid + tail, n), |k|)
  {
    var l := before + [e] + (mid + tail);
    assert l[|before|] == e;
    if e.deleted {
      assert Erase(l, |before|) == before + [] + mid + tail;
    } else {
      assert l == before + [e] + mid + tail;
    }
  }

  /** The iterator loop leaves the list the reference `SurvivorsFrom` describes. */
  lemma {:induction false} VisitSurvivors(kept: seq<Entry>, todo: seq<Entry>, added: seq<Entry>, next: Token,
                                          effects: map<HandlerId, Effect>)
    ensures Visit(Bus(kept + todo + added, next), |kept|, |todo|, effects).0
            == SurvivorsFrom(kept, todo, added, next, effects)
    decreases |todo|, 1
  {
    if todo == [] {
      assert kept + todo + added == kept + added;
    } else if todo[0].deleted {
      VisitSurvivorsFlagged(kept, todo, added, next, effects);
    } else {
      VisitSurvivorsLive(kept, todo, added, next, effects);
    }
  }

  lemma {:induction false} VisitSurvivorsFlagged(kept: seq<Entry>, todo: seq<Entry>, added: seq<Entry>, next: Token,
                                                 effects: map<HandlerId, Effect>)
    requires todo != [] && todo[0].deleted
    ensures Visit(Bus(kept + todo + added, next), |kept|, |todo|, effects).0
            == SurvivorsFrom(kept, todo, added, next, effects)
    decreases |todo|, 0
  {
    VisitOneFlaggedParts(kept, todo, added, next, effects);
    VisitSurvivors(kept, todo[1..], added, next, effects);
  }

  lemma {:induction false} VisitSurvivorsLive(kept: seq<Entry>, todo: seq<Entry>, added: seq<Entry>, next: Token,
                                              effects: map<HandlerId, Effect>)
    requires todo != [] && !todo[0].deleted
    ensures Visit(Bus(kept + todo + added, next), |kept|, |todo|, effects).0
            == SurvivorsFrom(kept, todo, added, next, effects)
    decreases |todo|, 0
  {
    var eff := EffectOf(effects, todo[0].handler);
    var e := Mark(todo[0], eff.drops);
    var k := MarkDropped(kept, eff.drops) + (if e.deleted then [] else [e]);
    var m := MarkDropped(todo[1..], eff.drops);
    var a := MarkDropped(added, eff.drops) + Fresh(next, eff.connects);
    assert |kept + todo + added| == |kept| + |todo| + |added|;
    assert |k + m + a| == |k| + |m| + |a| && |m| == |todo| - 1;
    assert SurvivorsFrom(kept, todo, added, next, effects) == SurvivorsFrom(k, m, a, next + |eff.connects|, effects) by {
      SurvivorsFromLive(kept, todo, added, next, effects);
    }
    assert Visit(Bus(kept + todo + added, next), |kept|, |todo|, effects).0
        == Visit(Bus(k + m + a, next + |eff.connects|), |k|, |m|, effects).0 by {
      VisitLiveStep(kept, todo, added, next, effects);
    }
    VisitSurvivors(k, m, a, next + |eff.connects|, effects);
  }

  /** `SurvivorsFrom` at a live first entry of `todo`, unfolded once. */
  lemma SurvivorsFromLive(kept: seq<Entry>, todo: seq<Entry>, added: seq<Entry>, next: Token,
                          effects: map<HandlerId, Effect>)
    requires todo != [] && !todo[0].deleted
    ensures var eff := EffectOf(effects, todo[0].handler);
            var e := Mark(todo[0], eff.drops);
            SurvivorsFrom(kept, todo, added, next, effects)
            == SurvivorsFrom(MarkDropped(kept, eff.drops) + (if e.deleted then [] else [e]),
                             MarkDropped(todo[1..], eff.drops),
                             MarkDropped(added, eff.drops) + Fresh(next, eff.connects),
                             next + |eff.connects|, effects)
  {
  }

  /** The rest of the loop after a turn at a live first entry of `todo`. */
  lemma VisitLiveStep(kept: seq<Entry>, todo: seq<Entry>, added: seq<Entry>, next: Token,
                      effects: map<HandlerId, Effect>)
    requires todo != [] && !todo[0].deleted
    ensures var eff := EffectOf(effects, todo[0].handler);
            var e := Mark(todo[0], eff.drops);
            var k := MarkDropped(kept, eff.drops) + (if e.deleted then [] else [e]);
            var m := MarkDropped(todo[1..], eff.drops);
            var a := MarkDropped(added, eff.drops) + Fresh(next, eff.connects);
            Visit(Bus(kept + todo + added, next), |kept|, |todo|, effects).0
            == Visit(Bus(k + m + a, next + |eff.connects|), |k|, |m|, effects).0
  {
    VisitOneLiveParts(kept, todo, added, next, effects);
  }

  /** A dispatch leaves the list `Survivors` describes. */
  lemma DispatchIsSurvivors(b: Bus, effects: map<HandlerId, Effect>)
    ensures Dispatch(b, effects).0 == Survivors(b, effects)
  {
    assert [] + b.entries + [] == b.entries;
    VisitSurvivors([], b.entries, [], b.next, effects);
  }

  /** Regrouping the parts of one live step of the reference walk. */
  lemma Regroup<X>(pk: seq<X>, q: seq<X>, pa: seq<X>, g: seq<X>, p: seq<X>, pt: seq<X>, a: seq<X>, ff: seq<X>,
                   o: seq<X>, f: seq<X>)
    requires pk == p + o && pa == a + f && pt == o + q && ff == f + g
    ensures pk + q + pa + g == p + pt + a + ff
  {
  }

  /** The entries a live first entry contributes to `KeptOf`: itself unless it flags itself. */
  lemma KeptOfLive(todo: seq<Entry>, effects: map<HandlerId, Effect>)
    requires todo != [] && !todo[0].deleted
    ensures var d := EffectOf(effects, todo[0].handler).drops;
            KeptOf(todo, effects)
            == (if Mark(todo[0], d).deleted then [] else [todo[0]]) + KeptOf(MarkDropped(todo[1..], d), effects)
  {
  }

  /** The connects of a walk whose first entry is live: that handler's, then the rest's. */
  lemma ConnectsOfLive(todo: seq<Entry>, effects: map<HandlerId, Effect>)
    requires todo != [] && !todo[0].deleted
    ensures var eff := EffectOf(effects, todo[0].handler);
            ConnectsOf(Expected(todo, effects), effects)
            == eff.connects + ConnectsOf(Expected(MarkDropped(todo[1..], eff.drops), effects), effects)
  {
    var eff := EffectOf(effects, todo[0].handler);
    var rest := Expected(MarkDropped(todo[1..], eff.drops), effects);
    assert Expected(todo, effects) == [todo[0].handler] + rest;
    assert ([todo[0].handler] + rest)[1..] == rest;
  }

  /** Apart from the flags, a live step adds its own entry, if kept, to `kept`. */
  lemma PlainKeptStep(kept: seq<Entry>, x: Entry, d: set<Token>)
    requires !x.deleted
    ensures Plain(MarkDropped(kept, d) + (if Mark(x, d).deleted then [] else [Mark(x, d)]))
            == Plain(kept) + (if Mark(x, d).deleted then [] else [x])
  {
    var own := if Mark(x, d).deleted then [] else [x];
    assert (if Mark(x, d).deleted then [] else [Mark(x, d)]) == own;
    assert Plain(own) == own;
    PlainOfMarked(kept, d);
    PlainAppend(MarkDropped(kept, d), own);
  }

  /** Apart from the flags, a live step appends fresh entries to `added`. */
  lemma PlainAddedStep(added: seq<Entry>, d: set<Token>, next: Token, c: seq<HandlerId>)
    ensures Plain(MarkDropped(added, d) + Fresh(next, c)) == Plain(added) + Fresh(next, c)
  {
    PlainOfMarked(added, d);
    FreshUnflagged(next, c);
    PlainAppend(MarkDropped(added, d), Fresh(next, c));
  }

  /** Apart from the flags, `KeptOf` of a list with a live first entry. */
  lemma PlainKeptOfStep(todo: seq<Entry>, effects: map<HandlerId, Effect>)
    requires todo != [] && !todo[0].deleted
    ensures var d := EffectOf(effects, todo[0].handler).drops;
            Plain(KeptOf(todo, effects))
            == (if Mark(todo[0], d).deleted then [] else [todo[0]]) + Plain(KeptOf(MarkDropped(todo[1..], d), effects))
  {
    var d := EffectOf(effects, todo[0].handler).drops;
    var own := if Mark(todo[0], d).deleted then [] else [todo[0]];
    assert Plain(own) == own;
    KeptOfLive(todo, effects);
    PlainAppend(own, KeptOf(MarkDropped(todo[1..], d), effects));
  }

  /** The fresh entries of a walk with a live first entry: that handler's, then the rest's. */
  lemma FreshStep(todo: seq<Entry>, effects: map<HandlerId, Effect>, next: Token)
    requires todo != [] && !todo[0].deleted
    ensures var eff := EffectOf(effects, todo[0].handler);
            Fresh(next, ConnectsOf(Expected(todo, effects), effects))
            == Fresh(next, eff.connects)
               + Fresh(next + |eff.connects|, ConnectsOf(Expected(MarkDropped(todo[1..], eff.drops), effects), effects))
  {
    var eff := EffectOf(effects, todo[0].handler);
    var rest := ConnectsOf(Expected(MarkDropped(todo[1..], eff.drops), effects), effects);
    var cs := ConnectsOf(Expected(todo, effects), effects);
    assert cs == eff.connects + rest by {
      ConnectsOfLive(todo, effects);
    }
    assert Fresh(next, eff.connects + rest) == Fresh(next, eff.connects) + Fresh(next + |eff.connects|, rest) by {
      FreshAppend(next, eff.connects, rest);
    }
  }

  /**
   * Apart from the flags, the reference list is the kept entries, then the
   * kept ones of `todo` in order, then the added ones, then one fresh entry
   * per handler connected by the invoked handlers, in invocation order,
   * with consecutive tokens from `next` on.
   */
  lemma {:induction false} SurvivorsShape(kept: seq<Entry>, todo: seq<Entry>, added: seq<Entry>, next: Token,
                                          effects: map<HandlerId, Effect>)
    ensures var cs := ConnectsOf(Expected(todo, effects), effects);
            var s := SurvivorsFrom(kept, todo, added, next, effects);
            && Plain(s.entries) == Plain(kept) + Plain(KeptOf(todo, effects)) + Plain(added) + Fresh(next, cs)
            && s.next == next + |cs|
    decreases |todo|
  {
    if todo == [] {
      PlainAppend(kept, added);
    } else if todo[0].deleted {
      SurvivorsShape(kept, todo[1..], added, next, effects);
    } else {
      var eff := EffectOf(effects, todo[0].handler);
      var e := Mark(todo[0], eff.drops);
      var m := MarkDropped(todo[1..], eff.drops);
      var k := MarkDropped(kept, eff.drops) + (if e.deleted then [] else [e]);
      var a := MarkDropped(added, eff.drops) + Fresh(next, eff.connects);
      var next' := next + |eff.connects|;
      var rest := ConnectsOf(Expected(m, effects), effects);
      var cs := ConnectsOf(Expected(todo, effects), effects);
      var own := if e.deleted then [] else [todo[0]];
      var f := Fresh(next, eff.connects);
      var s' := SurvivorsFrom(k, m, a, next', effects);
      assert Plain(s'.entries) == Plain(k) + Plain(KeptOf(m, effects)) + Plain(a) + Fresh(next', rest)
             && s'.next == next' + |rest| by {
        SurvivorsShape(k, m, a, next', effects);
      }
      assert SurvivorsFrom(kept, todo, added, next, effects) == s';
      assert |cs| == |eff.connects| + |rest| by {
        ConnectsOfLive(todo, effects);
      }
      assert Plain(k) == Plain(kept) + own by {
        PlainKeptStep(kept, todo[0], eff.drops);
      }
      assert Plain(a) == Plain(added) + f by {
        PlainAddedStep(added, eff.drops, next, eff.connects);
      }
      assert Plain(KeptOf(todo, effects)) == own + Plain(KeptOf(m, effects)) by {
        PlainKeptOfStep(todo, effects);
      }
      assert Fresh(next, cs) == f + Fresh(next', rest) by {
        FreshStep(todo, effects, next);
      }
      Regroup(Plain(k), Plain(KeptOf(m, effects)), Plain(a), Fresh(next', rest),
              Plain(kept), Plain(KeptOf(todo, effects)), Plain(added), Fresh(next, cs), own, f);
    }
  }

  /** `IsSubseq` survives putting the same element in front of both sides. */
  lemma SubseqCons<X>(s: seq<X>, t: seq<X>, x: X)
    requires IsSubseq(s, t)
    ensures IsSubseq([x] + s, [x] + t)
  {
    assert ([x] + s)[1..] == s && ([x] + t)[1..] == t;
  }

  /** The kept entries are entries of the list, in list order. */
  lemma {:induction false} KeptIsSubseq(es: seq<Entry>, effects: map<HandlerId, Effect>)
    ensures IsSubseq(Plain(KeptOf(es, effects)), Plain(es))
    decreases |es|
  {
    if es != [] {
      var p0 := es[0].(deleted := false);
      assert Plain(es) == [p0] + Plain(es[1..]);
      if es[0].deleted {
        KeptIsSubseq(es[1..], effects);
        SubseqTail(Plain(KeptOf(es, effects)), Plain(es[1..]), p0);
      } else {
        var d := EffectOf(effects, es[0].handler).drops;
        var m := MarkDropped(es[1..], d);
        KeptIsSubseq(m, effects);
        PlainOfMarked(es[1..], d);
        if es[0].token in d {
          assert KeptOf(es, effects) == KeptOf(m, effects);
          SubseqTail(Plain(KeptOf(m, effects)), Plain(es[1..]), p0);
        } else {
          assert KeptOf(es, effects) == [es[0]] + KeptOf(m, effects);
          PlainAppend([es[0]], KeptOf(m, effects));
          SubseqCons(Plain(KeptOf(m, effects)), Plain(es[1..]), p0);
        }
      }
    }
  }

  /**
   * What a dispatch leaves: apart from the flags, the entries present at
   * the start that were not flagged when their visit ended, in their old
   * order, followed by one fresh entry per handler the invoked handlers
   * connected, in invocation order, with tokens from `next` on.
   */
  lemma DispatchLeaves(b: Bus, effects: map<HandlerId, Effect>)
    ensures var (after, invoked) := Dispatch(b, effects);
            var cs := ConnectsOf(invoked, effects);
            && Plain(after.entries) == Plain(KeptOf(b.entries, effects)) + Fresh(b.next, cs)
            && after.next == b.next + |cs|
            && IsSubseq(Plain(KeptOf(b.entries, effects)), Plain(b.entries))
  {
    DispatchIsSurvivors(b, effects);
    DispatchIsExpected(b, effects);
    SurvivorsShape([], b.entries, [], b.next, effects);
    KeptIsSubseq(b.entries, effects);
  }

  lemma {:induction false} MarkedFlags(es: seq<Entry>, drops: set<Token>, done: set<Token>)
    requires forall e :: e in es && e.deleted ==> e.token in done
    ensures forall e :: e in MarkDropped(es, drops) && e.deleted ==> e.token in done + drops
    decreases |es|
  {
    if es != [] {
      MarkedFlags(es[1..], drops, done);
    }
  }

  /**
   * Every flag in the reference list was there in `kept` or `added`
   * already, or was set by a drop of a handler the walk invokes.
   */
  lemma {:induction false} SurvivorsFlags(kept: seq<Entry>, todo: seq<Entry>, added: seq<Entry>, next: Token,
                                          effects: map<HandlerId, Effect>, done: set<Token>)
    requires forall e :: e in kept + added && e.deleted ==> e.token in done
    ensures forall e :: e in SurvivorsFrom(kept, todo, added, next, effects).entries && e.deleted
              ==> e.token in done + DropsOf(Expected(todo, effects), effects)
    decreases |todo|
  {
    if todo != [] {
      if todo[0].deleted {
        SurvivorsFlags(kept, todo[1..], added, next, effects, done);
      } else {
        var x := todo[0];
        var eff := EffectOf(effects, x.handler);
        var d := eff.drops;
        var e := Mark(x, d);
        var m := MarkDropped(todo[1..], d);
        MarkedFlags(kept, d, done);
        MarkedFlags(added, d, done);
        FreshUnflagged(next, eff.connects);
        var k := MarkDropped(kept, d) + (if e.deleted then [] else [e]);
        var a := MarkDropped(added, d) + Fresh(next, eff.connects);
        SurvivorsFlags(k, m, a, next + |eff.connects|, effects, done + d);
        assert Expected(todo, effects) == [x.handler] + Expected(m, effects);
        assert DropsOf(Expected(todo, effects), effects) == d + DropsOf(Expected(m, effects), effects);
      }
    }
  }

  /** Every entry a dispatch leaves flagged was flagged already or was dropped by a handler it invoked. */
  lemma DispatchFlags(b: Bus, effects: map<HandlerId, Effect>)
    requires forall e :: e in b.entries ==> !e.deleted
    ensures forall e :: e in Dispatch(b, effects).0.entries && e.deleted
              ==> e.token in DropsOf(Dispatch(b, effects).1, effects)
  {
    DispatchIsSurvivors(b, effects);
    DispatchIsExpected(b, effects);
    SurvivorsFlags([], b.entries, [], b.next, effects, {});
  }

  /** Flagging the unflagged entries and dropping the flagged ones commute. */
  lemma {:induction false} UnflaggedOfMarked(es: seq<Entry>, drops: set<Token>)
    ensures Unflagged(MarkDropped(Unflagged(es), drops)) == Unflagged(MarkDropped(es, drops))
    decreases |es|
  {
    if es != [] {
      var x, r := es[0], es[1..];
      assert es == [x] + r;
      UnflaggedOfMarked(r, drops);
      MarkDroppedCons(x, r, drops);
      UnflaggedCons(Mark(x, drops), MarkDropped(r, drops));
      if !x.deleted {
        UnflaggedCons(x, r);
        MarkDroppedCons(x, Unflagged(r), drops);
        UnflaggedCons(Mark(x, drops), MarkDropped(Unflagged(r), drops));
      } else {
        UnflaggedCons(x, r);
        assert Unflagged(es) == Unflagged(r);
        assert Unflagged(MarkDropped(es, drops)) == Unflagged(MarkDropped(r, drops));
      }
    }
  }

  /** Flagged entries do not change what the reference walk invokes. */
  lemma {:induction false} ExpectedOfUnflagged(es: seq<Entry>, effects: map<HandlerId, Effect>)
    ensures Expected(Unflagged(es), effects) == Expected(es, effects)
    decreases |es|
  {
    if es != [] {
      var x, r := es[0], es[1..];
      assert es == [x] + r;
      UnflaggedCons(x, r);
      if x.deleted {
        assert Unflagged(es) == Unflagged(r);
        ExpectedOfUnflagged(r, effects);
      } else {
        var d := EffectOf(effects, x.handler).drops;
        var u := [x] + Unflagged(r);
        assert u[0] == x && u[1..] == Unflagged(r);
        ExpectedOfUnflagged(MarkDropped(r, d), effects);
        ExpectedOfUnflagged(MarkDropped(Unflagged(r), d), effects);
        UnflaggedOfMarked(r, d);
      }
    }
  }

  /** Flagged entries do not change the list the reference walk leaves. */
  lemma {:induction false} SurvivorsOfUnflagged(kept: seq<Entry>, todo: seq<Entry>, added: seq<Entry>, next: Token,
                                                effects: map<HandlerId, Effect>)
    ensures SurvivorsFrom(kept, Unflagged(todo), added, next, effects) == SurvivorsFrom(kept, todo, added, next, effects)
    decreases |todo|
  {
    if todo != [] {
      var x, r := todo[0], todo[1..];
      assert todo == [x] + r;
      UnflaggedCons(x, r);
      if x.deleted {
        assert Unflagged(todo) == Unflagged(r);
        SurvivorsOfUnflagged(kept, r, added, next, effects);
      } else {
        var eff := EffectOf(effects, x.handler);
        var d := eff.drops;
        var e := Mark(x, d);
        var u := [x] + Unflagged(r);
        assert u[0] == x && u[1..] == Unflagged(r);
        var k := MarkDropped(kept, d) + (if e.deleted then [] else [e]);
        var a := MarkDropped(added, d) + Fresh(next, eff.connects);
        SurvivorsOfUnflagged(k, MarkDropped(r, d), a, next + |eff.connects|, effects);
        SurvivorsOfUnflagged(k, MarkDropped(Unflagged(r), d), a, next + |eff.connects|, effects);
        UnflaggedOfMarked(r, d);
      }
    }
  }

  /**
   * An entry flagged when a dispatch starts is neither invoked nor kept and
   * changes nothing else: the dispatch does what it would do on the list
   * without it. So an entry flagged after its visit in one dispatch is
   * erased, uninvoked, by the next.
   */
  lemma FlaggedAreInert(b: Bus, effects: map<HandlerId, Effect>)
    ensures Dispatch(b, effects) == Dispatch(Bus(Unflagged(b.entries), b.next), effects)
  {
    var u := Bus(Unflagged(b.entries), b.next);
    DispatchIsSurvivors(b, effects);
    DispatchIsSurvivors(u, effects);
    DispatchIsExpected(b, effects);
    DispatchIsExpected(u, effects);
    ExpectedOfUnflagged(b.entries, effects);
    SurvivorsOfUnflagged([], b.entries, [], b.next, effects);
  }

  /**
   * Two handlers, the second dropping the first's subscription: the first
   * dispatch invokes both and leaves the first entry flagged; the next
   * dispatch invokes only the second and erases the first.
   */
  lemma DropAfterVisit()
    ensures var b := Bus([Entry(0, 7, false), Entry(1, 8, false)], 2);
            var effects := map[8 := Effect({0}, [])];
            && Dispatch(b, effects) == (Bus([Entry(0, 7, true), Entry(1, 8, false)], 2), [7, 8])
            && Dispatch(Dispatch(b, effects).0, effects) == (Bus([Entry(1, 8, false)], 2), [8])
  {
    DropFirstDispatch();
    DropSecondDispatch();
  }

  /** `DropAfterVisit`, first dispatch: both handlers run, and the first entry is left flagged. */
  lemma DropFirstDispatch()
    ensures Dispatch(Bus([Entry(0, 7, false), Entry(1, 8, false)], 2), map[8 := Effect({0}, [])])
            == (Bus([Entry(0, 7, true), Entry(1, 8, false)], 2), [7, 8])
  {
    var e0, e1 := Entry(0, 7, false), Entry(1, 8, false);
    var b := Bus([e0, e1], 2);
    var effects := map[8 := Effect({0}, [])];
    assert EffectOf(effects, 7) == Effect({}, []) && EffectOf(effects, 8) == Effect({0}, []);
    assert Dispatch(b, effects).0 == Bus([e0.(deleted := true), e1], 2) by {
      DispatchIsSurvivors(b, effects);
      MarkDroppedCons(e1, [], {});
      MarkDroppedCons(e0, [], {0});
      assert [e1] + [] == [e1] && [e0] + [] == [e0];
      assert MarkDropped([e1], {}) == [e1] && MarkDropped([e0], {0}) == [e0.(deleted := true)];
      assert Mark(e0, {}) == e0 && Mark(e1, {0}) == e1;
      assert [e0, e1][1..] == [e1];
      assert MarkDropped([], {}) == [] && MarkDropped([], {0}) == [] && Fresh(2, []) == [];
      assert SurvivorsFrom([], [e0, e1], [], 2, effects)
          == SurvivorsFrom(MarkDropped([], {}) + [e0], MarkDropped([e1], {}), MarkDropped([], {}) + Fresh(2, []), 2 + 0, effects);
      assert SurvivorsFrom([e0], [e1], [], 2, effects)
          == SurvivorsFrom(MarkDropped([e0], {0}) + [e1], MarkDropped([], {0}), MarkDropped([], {0}) + Fresh(2, []), 2 + 0, effects);
    }
    assert Dispatch(b, effects).1 == [7, 8] by {
      DispatchIsExpected(b, effects);
      assert [e0, e1][1..] == [e1];
      MarkDroppedCons(e1, [], {});
      assert [e1] + [] == [e1];
    }
  }

  /** `DropAfterVisit`, second dispatch: the flagged entry is erased without running its handler. */
  lemma DropSecondDispatch()
    ensures Dispatch(Bus([Entry(0, 7, true), Entry(1, 8, false)], 2), map[8 := Effect({0}, [])])
            == (Bus([Entry(1, 8, false)], 2), [8])
  {
    var e1 := Entry(1, 8, false);
    var b1 := Bus([Entry(0, 7, true), e1], 2);
    var effects := map[8 := Effect({0}, [])];
    assert EffectOf(effects, 8) == Effect({0}, []);
    assert b1.entries[1..] == [e1];
    assert Dispatch(b1, effects).0 == Bus([e1], 2) by {
      DispatchIsSurvivors(b1, effects);
      assert Mark(e1, {0}) == e1;
      assert MarkDropped([], {0}) == [] && Fresh(2, []) == [];
      assert SurvivorsFrom([], [e1], [], 2, effects)
          == SurvivorsFrom(MarkDropped([], {0}) + [e1], MarkDropped([], {0}), MarkDropped([], {0}) + Fresh(2, []), 2 + 0, effects);
    }
    assert Dispatch(b1, effects).1 == [8] by {
      DispatchIsExpected(b1, effects);
    }
  }

  /** The dispatch loop's bookkeeping: what one turn invoked moves from the rest of the visit to `invoked`. */
  lemma SweepStep(goal: (Bus, seq<HandlerId>), before: (Bus, seq<HandlerId>), after: (Bus, seq<HandlerId>),
                  invoked: seq<HandlerId>, called: seq<HandlerId>)
    requires before == (after.0, called + after.1)
    requires before.0 == goal.0 && invoked + before.1 == goal.1
    ensures after.0 == goal.0 && (invoked + called) + after.1 == goal.1
  {
    SeqFacts.AppendAssoc(invoked, called, after.1);
  }

  /** A one-shot event: handlers are moved out and each called once. */
  class OneShotEvent {
    var handlers: seq<HandlerId>

    constructor ()
      ensures handlers == []
    {
      handlers := [];
    }

    method Connect(h: HandlerId)
      modifies this
      ensures handlers == old(handlers) + [h]
    {
      handlers := handlers + [h];
    }

    /**
     * Dispatch: every handler connected before the call is invoked once, in
     * order; the list is emptied first, so what the handlers connect during
     * the call is kept for the next dispatch.
     */
    method Fire(connects: map<HandlerId, seq<HandlerId>>) returns (invoked: seq<HandlerId>)
      modifies this
      ensures invoked == old(handlers)
      ensures handlers == Reconnected(old(handlers), connects)
    {
      var hs := handlers;
      handlers := [];
      invoked := [];
      for i := 0 to |hs|
        invariant invoked == hs[..i]
        invariant handlers == Reconnected(hs[..i], connects)
      {
        var h := hs[i];
        invoked := invoked + [h];
        var more := if h in connects then connects[h] else [];
        for k := 0 to |more|
          invariant handlers == Reconnected(hs[..i], connects) + more[..k]
        {
          Connect(more[k]);
          assert more[..k + 1] == more[..k] + [more[k]];
        }
        assert hs[..i + 1] == hs[..i] + [h];
      }
      assert hs[..|hs|] == hs;
    }
  }

  /** The handlers connected, in order, by invoking `hs`. */
  function Reconnected(hs: seq<HandlerId>, connects: map<HandlerId, seq<HandlerId>>): seq<HandlerId>
  {
    if hs == [] then []
    else
      var h := hs[|hs| - 1];
      Reconnected(hs[..|hs| - 1], connects) + (if h in connects then connects[h] else [])
  }

  /** A subscribe event; `next` is the next token handed out by `Connect`. */
  class SubscribeEvent {
    var entries: seq<Entry>
    var next: Token

    function State(): Bus
      reads this
    {
      Bus(entries, next)
    }

    constructor ()
      ensures entries == [] && next == 0
    {
      entries, next := [], 0;
    }

    /** Appends a live entry and returns its token (the subscription). */
    method Connect(h: HandlerId) returns (t: Token)
      modifies this
      ensures t == old(next) && next == old(next) + 1
      ensures entries == old(entries) + [Entry(t, h, false)]
    {
      t := next;
      entries := entries + [Entry(t, h, false)];
      next := next + 1;
    }

    /** Dropping a subscription only sets its entry's flag. */
    method Drop(t: Token)
      modifies this
      ensures entries == MarkDropped(old(entries), {t}) && next == old(next)
    {
      entries := MarkDropped(entries, {t});
    }

    /** One handler invocation: the tokens it drops, then the handlers it connects. */
    method Invoke(eff: Effect)
      modifies this
      ensures State() == Apply(old(State()), eff)
    {
      MarkDroppedNothing(entries);
      var rest := eff.drops;
      assert eff.drops - rest == {};
      while rest != {}
        invariant rest <= eff.drops
        invariant entries == MarkDropped(old(entries), eff.drops - rest) && next == old(next)
        decreases |rest|
      {
        var t :| t in rest;
        Drop(t);
        MarkDroppedSnoc(old(entries), eff.drops - rest, t);
        assert (eff.drops - rest) + {t} == eff.drops - (rest - {t});
        rest := rest - {t};
      }
      assert eff.drops - rest == eff.drops;
      assert entries + Fresh(old(next), eff.connects[..0]) == entries;
      for k := 0 to |eff.connects|
        invariant entries == MarkDropped(old(entries), eff.drops) + Fresh(old(next), eff.connects[..k])
        invariant next == old(next) + k
      {
        var _ := Connect(eff.connects[k]);
        assert eff.connects[..k + 1] == eff.connects[..k] + [eff.connects[k]];
        FreshSnoc(old(next), eff.connects[..k], eff.connects[k]);
      }
      assert eff.connects[..|eff.connects|] == eff.connects;
    }

    /**
     * One turn of the dispatch loop at iterator position `pos`, with `count`
     * of the entries present at the start still to visit: it does what
     * `VisitOne` says, and so leaves one fewer of them for the rest of `Visit`.
     */
    method Turn(pos: nat, ghost count: nat, effects: map<HandlerId, Effect>) returns (pos': nat, called: seq<HandlerId>)
      requires 0 < count && pos + count <= |entries|
      modifies this
      ensures pos' + count - 1 <= |entries|
      ensures Visit(old(State()), pos, count, effects)
              == (Visit(State(), pos', count - 1, effects).0, called + Visit(State(), pos', count - 1, effects).1)
    {
      var e := entries[pos];
      called := [];
      if !e.deleted {
        called := [e.handler];
        Invoke(EffectOf(effects, e.handler));
      }
      if entries[pos].deleted {
        entries := Erase(entries, pos);
        pos' := pos;
      } else {
        pos' := pos + 1;
      }
      assert (State(), pos', called) == VisitOne(old(State()), pos, effects);
    }

    /**
     * The dispatch loop: visits as many entries as there were at the start,
     * invoking live handlers and erasing flagged entries in passing.
     */
    method Sweep(effects: map<HandlerId, Effect>) returns (invoked: seq<HandlerId>)
      modifies this
      ensures (State(), invoked) == Dispatch(old(State()), effects)
    {
      ghost var goal := Dispatch(State(), effects);
      var left: nat := |entries|;  // the source counts i up to the initial size; left is size - i
      var pos: nat := 0;
      invoked := [];
      ghost var rest := goal;
      while left > 0
        invariant pos + left <= |entries|
        invariant rest == Visit(State(), pos, left, effects)
        invariant rest.0 == goal.0 && invoked + rest.1 == goal.1
      {
        ghost var before := rest;
        var called;
        pos, called := Turn(pos, left, effects);
        left := left - 1;
        rest := Visit(State(), pos, left, effects);
        SweepStep(goal, before, rest, invoked, called);
        invoked := invoked + called;
      }
      assert invoked + [] == invoked;
    }

    /**
     * Dispatch: the handlers invoked are those `Expected` names, the list
     * left is the one `Survivors` describes, and its unflagged entries are
     * the kept ones followed by those connected during the call.
     */
    method Fire(effects: map<HandlerId, Effect>) returns (invoked: seq<HandlerId>)
      modifies this
      ensures (State(), invoked) == Dispatch(old(State()), effects)
      ensures State() == Survivors(old(State()), effects)
      ensures invoked == Expected(old(entries), effects)
      ensures Plain(entries) == Plain(KeptOf(old(entries), effects)) + Fresh(old(next), ConnectsOf(invoked, effects))
      ensures next == old(next) + |ConnectsOf(invoked, effects)|
    {
      ghost var start := State();
      invoked := Sweep(effects);
      DispatchIsSurvivors(start, effects);
      DispatchIsExpected(start, effects);
      DispatchLeaves(start, effects);
    }
  }
}
