/**
 * The component container of main/Application.hpp. An application is a list
 * of component specifications, each a key (the component's type and a
 * name), the keys it depends on, in order, and the arguments stored for its
 * constructor. The compile-time checks become the predicate `Accepted`; the
 * slots become a class whose `ptr` sequence the construction fills in place,
 * depth first, dependencies before dependents, each slot at most once.
 *
 * The cycle check of `construct_one` compares value types, not keys: a
 * component that depends on another instance of its own type is rejected
 * even though no key repeats (`SameTypeDependencyRejected`).
 */
module Application {
  import opened Wrappers

  /** `component_key<T, Name>`: the component's type and its name. */
  datatype Key = Key(typeName: string, name: string)

  /** A component specification: its key, the keys it depends on in declared order, its stored constructor arguments. */
  datatype Spec = Spec(key: Key, deps: seq<Key>, args: seq<int>)

  /** `component_key<Context, "">`, the key `run` looks up. */
  const ContextKey: Key := Key("Context", "")

  function Keys(specs: seq<Spec>): (ks: seq<Key>)
    ensures |ks| == |specs|
    ensures forall i :: 0 <= i < |specs| ==> ks[i] == specs[i].key
  {
    seq(|specs|, i requires 0 <= i < |specs| => specs[i].key)
  }

  /** `find_index<Key>()`: the first position holding the key. */
  function IndexOf(ks: seq<Key>, k: Key): (i: nat)
    requires k in ks
    ensures i < |ks| && ks[i] == k
    ensures forall j :: 0 <= j < i ==> ks[j] != k
  {
    if ks[0] == k then 0
    else
      assert ks == [ks[0]] + ks[1..];
      1 + IndexOf(ks[1..], k)
  }

  /** No two specifications share a key (`found duplicate component specifications`). */
  predicate DistinctKeys(specs: seq<Spec>) {
    forall i, j :: 0 <= i < j < |specs| ==> specs[i].key != specs[j].key
  }

  /** Every declared dependency names a specification (`missing dependencies in component specifications`). */
  predicate DepsPresent(specs: seq<Spec>) {
    forall i, d :: 0 <= i < |specs| && 0 <= d < |specs[i].deps| ==> specs[i].deps[d] in Keys(specs)
  }

  /** The slot of the `d`-th dependency of specification `i`. */
  function DepSlot(specs: seq<Spec>, i: nat, d: nat): (j: nat)
    requires DepsPresent(specs) && i < |specs| && d < |specs[i].deps|
    ensures j < |specs| && specs[j].key == specs[i].deps[d]
  {
    IndexOf(Keys(specs), specs[i].deps[d])
  }

  /** The value types of all specifications. */
  ghost function Types(specs: seq<Spec>): set<string> {
    set i | 0 <= i < |specs| :: specs[i].key.typeName
  }

  /** How many value types a chain of `construct_one` instantiations has not visited yet. */
  ghost function Unseen(specs: seq<Spec>, seen: set<string>): nat {
    |Types(specs) - seen|
  }

  /** Visiting a new value type leaves fewer to visit. */
  lemma SeenGrows(specs: seq<Spec>, seen: set<string>, i: nat)
    requires i < |specs| && specs[i].key.typeName !in seen
    ensures Unseen(specs, seen + {specs[i].key.typeName}) < Unseen(specs, seen)
  {
    var a, t := Types(specs), specs[i].key.typeName;
    assert t in a - seen;
    assert a - (seen + {t}) == (a - seen) - {t};
  }

  /**
   * The `circular dependency detected` assertion of `construct_one<I, Seen>`
   * and of every `construct_one` its `construct_deps` instantiates: the
   * value type of `i` is not among the types on the chain that led to it.
   */
  ghost predicate NoCycle(specs: seq<Spec>, i: nat, seen: set<string>)
    requires DepsPresent(specs) && i < |specs|
    decreases Unseen(specs, seen)
  {
    var t := specs[i].key.typeName;
    && t !in seen
    && (SeenGrows(specs, seen, i);
        forall d :: 0 <= d < |specs[i].deps| ==> NoCycle(specs, DepSlot(specs, i, d), seen + {t}))
  }

  /** Every compile-time check of `Application` and `application_impl`, and the key `run` needs. */
  ghost predicate Accepted(specs: seq<Spec>) {
    && DistinctKeys(specs)
    && DepsPresent(specs)
    && ContextKey in Keys(specs)
    && forall i :: 0 <= i < |specs| ==> NoCycle(specs, i, {})
  }

  /** With distinct keys, a specification's own key finds its own slot. */
  lemma IndexOfOwnKey(specs: seq<Spec>, i: nat)
    requires DistinctKeys(specs) && i < |specs|
    ensures IndexOf(Keys(specs), specs[i].key) == i
  {
    var ks := Keys(specs);
    assert ks[i] == specs[i].key;
  }

  /** The check rejects a component that depends on a component of its own value type, whatever the names. */
  lemma SameTypeDependencyRejected(specs: seq<Spec>, i: nat, d: nat)
    requires DepsPresent(specs) && i < |specs| && d < |specs[i].deps|
    requires specs[i].deps[d].typeName == specs[i].key.typeName
    ensures !NoCycle(specs, i, {})
  {
    var t := specs[i].key.typeName;
    var j := DepSlot(specs, i, d);
    assert specs[j].key.typeName == t;
    assert !NoCycle(specs, j, {} + {t});
  }

  /** In particular no accepted component depends on itself. */
  lemma NoSelfDependency(specs: seq<Spec>, i: nat, d: nat)
    requires Accepted(specs) && i < |specs| && d < |specs[i].deps|
    ensures DepSlot(specs, i, d) != i
  {
    if DepSlot(specs, i, d) == i {
      SameTypeDependencyRejected(specs, i, d);
    }
  }

  /** A constructed component: its slot, the slots of the components it was given, its arguments. */
  datatype Obj = Obj(slot: nat, deps: seq<nat>, args: seq<int>)

  /** `make_dep_tuple`: one reference per declared dependency, in declared order. */
  function DepSlots(specs: seq<Spec>, i: nat): (js: seq<nat>)
    requires DepsPresent(specs) && i < |specs|
    ensures |js| == |specs[i].deps|
    ensures forall d :: 0 <= d < |js| ==> js[d] < |specs| && specs[js[d]].key == specs[i].deps[d]
  {
    seq(|specs[i].deps|, d requires 0 <= d < |specs[i].deps| => DepSlot(specs, i, d))
  }

  /** `construct_apply`: the component of slot `i`, given its dependencies, then its stored arguments. */
  function Made(specs: seq<Spec>, i: nat): (o: Obj)
    requires DepsPresent(specs) && i < |specs|
    ensures o.slot == i && o.deps == DepSlots(specs, i) && o.args == specs[i].args
  {
    Obj(i, DepSlots(specs, i), specs[i].args)
  }

  /**
   * A construction order: no slot twice, and every slot comes after the
   * slots of all its dependencies.
   */
  ghost predicate Ordered(specs: seq<Spec>, built: seq<nat>)
    requires DepsPresent(specs)
  {
    && (forall p, q :: 0 <= p < q < |built| ==> built[p] != built[q])
    && forall p :: 0 <= p < |built| ==>
         built[p] < |specs| && forall d :: 0 <= d < |specs[built[p]].deps| ==> DepSlot(specs, built[p], d) in built[..p]
  }

  /** Appending a new slot whose dependencies are all built keeps the order. */
  lemma OrderedSnoc(specs: seq<Spec>, built: seq<nat>, i: nat)
    requires DepsPresent(specs) && Ordered(specs, built) && i < |specs| && i !in built
    requires forall d :: 0 <= d < |specs[i].deps| ==> DepSlot(specs, i, d) in built
    ensures Ordered(specs, built + [i])
  {
    var b := built + [i];
    forall p | 0 <= p < |b|
      ensures b[p] < |specs| && forall d :: 0 <= d < |specs[b[p]].deps| ==> DepSlot(specs, b[p], d) in b[..p]
    {
      if p < |built| {
        assert b[..p] == built[..p];
      } else {
        assert b[..p] == built;
      }
    }
  }

  /**
   * The construction order of `construct_one<I, Seen>` started with `built`
   * already constructed: first its dependencies, in declared order, each
   * with its own dependencies before it, then `i` unless it is already built.
   * A type already on the chain is where the cycle check rejects the
   * application; the order stops there, which no accepted application reaches.
   */
  ghost function After(specs: seq<Spec>, i: nat, seen: set<string>, built: seq<nat>): seq<nat>
    requires DepsPresent(specs) && i < |specs|
    decreases Unseen(specs, seen), 1, 0
  {
    var t := specs[i].key.typeName;
    if t in seen then built
    else
      SeenGrows(specs, seen, i);
      var b := AfterDeps(specs, i, |specs[i].deps|, seen + {t}, built);
      if i in b then b else b + [i]
  }

  /** The construction order of `construct_deps<Seen>` over the first `e` dependencies of `i`. */
  ghost function AfterDeps(specs: seq<Spec>, i: nat, e: nat, seen: set<string>, built: seq<nat>): seq<nat>
    requires DepsPresent(specs) && i < |specs| && e <= |specs[i].deps|
    decreases Unseen(specs, seen), 2, e
  {
    if e == 0 then built
    else After(specs, DepSlot(specs, i, e - 1), seen, AfterDeps(specs, i, e - 1, seen, built))
  }

  /** The construction order of `construct()`: `construct_one` for the first `k` specifications in turn. */
  ghost function AfterAll(specs: seq<Spec>, k: nat, built: seq<nat>): seq<nat>
    requires DepsPresent(specs) && k <= |specs|
  {
    if k == 0 then built else After(specs, k - 1, {}, AfterAll(specs, k - 1, built))
  }

  /** `construct_one` keeps what was built, in order, and leaves `i` built unless the cycle check stops it. */
  lemma {:induction false} AfterExtends(specs: seq<Spec>, i: nat, seen: set<string>, built: seq<nat>)
    requires DepsPresent(specs) && i < |specs|
    ensures built <= After(specs, i, seen, built)
    ensures specs[i].key.typeName !in seen ==> i in After(specs, i, seen, built)
    decreases Unseen(specs, seen), 1, 0
  {
    var t := specs[i].key.typeName;
    if t !in seen {
      SeenGrows(specs, seen, i);
      AfterDepsExtends(specs, i, |specs[i].deps|, seen + {t}, built);
    }
  }

  lemma {:induction false} AfterDepsExtends(specs: seq<Spec>, i: nat, e: nat, seen: set<string>, built: seq<nat>)
    requires DepsPresent(specs) && i < |specs| && e <= |specs[i].deps|
    ensures built <= AfterDeps(specs, i, e, seen, built)
    decreases Unseen(specs, seen), 2, e
  {
    if e > 0 {
      var b := AfterDeps(specs, i, e - 1, seen, built);
      AfterDepsExtends(specs, i, e - 1, seen, built);
      AfterExtends(specs, DepSlot(specs, i, e - 1), seen, b);
    }
  }

  /** `construct_deps` builds the first `e` dependencies of `i` when none closes a cycle. */
  lemma {:induction false} AfterDepsBuildsAll(specs: seq<Spec>, i: nat, e: nat, seen: set<string>, built: seq<nat>, d: nat)
    requires DepsPresent(specs) && i < |specs| && e <= |specs[i].deps|
    requires forall d :: 0 <= d < |specs[i].deps| ==> specs[DepSlot(specs, i, d)].key.typeName !in seen
    ensures d < e ==> DepSlot(specs, i, d) in AfterDeps(specs, i, e, seen, built)
    decreases e
  {
    if d < e {
      var b := AfterDeps(specs, i, e - 1, seen, built);
      var j := DepSlot(specs, i, e - 1);
      var a := After(specs, j, seen, b);
      assert AfterDeps(specs, i, e, seen, built) == a;
      AfterExtends(specs, j, seen, b);
      if d < e - 1 {
        AfterDepsBuildsAll(specs, i, e - 1, seen, built, d);
        Grows(b, a, DepSlot(specs, i, d));
      }
    }
  }

  /** `construct()` builds every slot, keeping what was built before. */
  lemma {:induction false} AfterAllBuildsAll(specs: seq<Spec>, k: nat, built: seq<nat>, j: nat)
    requires DepsPresent(specs) && k <= |specs|
    ensures built <= AfterAll(specs, k, built)
    ensures j < k ==> j in AfterAll(specs, k, built)
  {
    if k > 0 {
      var b := AfterAll(specs, k - 1, built);
      AfterAllBuildsAll(specs, k - 1, built, j);
      AfterExtends(specs, k - 1, {}, b);
      if j < k - 1 {
        Grows(b, AfterAll(specs, k, built), j);
      }
    }
  }

  /** Without dependencies, `construct()` builds the slots in declaration order. */
  lemma {:induction false} NoDepsDeclarationOrder(specs: seq<Spec>, k: nat)
    requires Accepted(specs) && k <= |specs|
    requires forall i :: 0 <= i < |specs| ==> specs[i].deps == []
    ensures AfterAll(specs, k, []) == seq(k, i => i)
  {
    if k > 0 {
      NoDepsDeclarationOrder(specs, k - 1);
      var b := seq(k - 1, i => i);
      assert specs[k - 1].deps == [];
      assert AfterDeps(specs, k - 1, |specs[k - 1].deps|, {} + {specs[k - 1].key.typeName}, b) == b;
      assert k - 1 !in b;
      assert seq(k, i => i) == b + [k - 1];
    }
  }

  /** Three components, the first depending on the second: the dependency is built first. */
  lemma DependencyFirst()
    ensures var specs := [Spec(Key("A", ""), [Key("B", "")], []), Spec(Key("B", ""), [], []), Spec(ContextKey, [], [])];
            Accepted(specs) && AfterAll(specs, 3, []) == [1, 0, 2]
  {
    var a, b := Key("A", ""), Key("B", "");
    var specs := [Spec(a, [b], []), Spec(b, [], []), Spec(ContextKey, [], [])];
    var ks := Keys(specs);
    assert ks == [a, b, ContextKey];
    assert DistinctKeys(specs);
    assert DepsPresent(specs) by {
      assert specs[0].deps[0] == ks[1];
    }
    assert IndexOf(ks, b) == 1;
    assert DepSlot(specs, 0, 0) == 1;
    assert NoCycle(specs, 1, {"A"});
    assert NoCycle(specs, 0, {});
    assert NoCycle(specs, 1, {});
    assert NoCycle(specs, 2, {});
    assert Accepted(specs);
    assert {} + {"A"} == {"A"} && {} + {"B"} == {"B"} && {} + {"Context"} == {"Context"};
    assert After(specs, 1, {"A"}, []) == [1];
    assert AfterDeps(specs, 0, 1, {"A"}, []) == [1];
    assert After(specs, 0, {}, []) == [1, 0];
    assert AfterAll(specs, 1, []) == [1, 0];
    assert After(specs, 1, {}, [1, 0]) == [1, 0];
    assert AfterAll(specs, 2, []) == [1, 0];
    assert After(specs, 2, {}, [1, 0]) == [1, 0, 2];
  }

  /** The constructed slots in declaration order: the order `destroy_all` visits them. */
  function Live(ptr: seq<Option<Obj>>): (ls: seq<nat>)
    ensures forall p :: 0 <= p < |ls| ==> ls[p] < |ptr|
  {
    if ptr == [] then []
    else Live(ptr[..|ptr| - 1]) + (if ptr[|ptr| - 1].Some? then [|ptr| - 1] else [])
  }

  /** `Live` lists exactly the constructed slots, each once, in increasing order. */
  lemma {:induction false} LiveExact(ptr: seq<Option<Obj>>)
    ensures forall i :: i in Live(ptr) <==> 0 <= i < |ptr| && ptr[i].Some?
    ensures forall p, q :: 0 <= p < q < |Live(ptr)| ==> Live(ptr)[p] < Live(ptr)[q]
    decreases |ptr|
  {
    if ptr != [] {
      var front := ptr[..|ptr| - 1];
      LiveExact(front);
      forall i | 0 <= i < |front|
        ensures front[i] == ptr[i]
      {
      }
    }
  }

  /** The container: the specifications and, per specification, its slot. */
  class App {
    const specs: seq<Spec>
    /** `slot.ptr`, per specification in declaration order. */
    var ptr: seq<Option<Obj>>
    /** The slots in the order their components were constructed. */
    var built: seq<nat>
    /** The slots in the order their destructors ran. */
    var destroyed: seq<nat>
    /** The component whose `run()` was called. */
    var ran: Option<Obj>

    ghost predicate Valid()
      reads this
    {
      && Accepted(specs)
      && |ptr| == |specs|
      && (forall i :: 0 <= i < |ptr| ==> (ptr[i].Some? <==> i in built))
      && (forall i :: 0 <= i < |ptr| && ptr[i].Some? ==> ptr[i].value == Made(specs, i))
      && Ordered(specs, built)
    }

    constructor (specs: seq<Spec>)
      requires Accepted(specs)
      ensures Valid() && this.specs == specs
      ensures |ptr| == |specs| && (forall i :: 0 <= i < |ptr| ==> ptr[i].None?)
      ensures built == [] && destroyed == [] && ran.None?
    {
      this.specs := specs;
      ptr := seq(|specs|, _ => None);
      built, destroyed, ran := [], [], None;
    }

    /**
     * `construct_one<I, Seen>`: first every dependency, then, only if the
     * slot is still empty, the component itself.
     */
    method ConstructOne(i: nat, ghost seen: set<string>)
      requires Valid() && i < |specs| && NoCycle(specs, i, seen)
      modifies this
      decreases Unseen(specs, seen), 1
      ensures Valid() && old(built) <= built && ptr[i].Some?
      ensures built == After(specs, i, seen, old(built))
      ensures destroyed == old(destroyed) && ran == old(ran)
    {
      ghost var t := specs[i].key.typeName;
      SeenGrows(specs, seen, i);
      ConstructDeps(i, seen + {t});
      if ptr[i].None? {
        ConstructApply(i);
      }
    }

    /** `construct_from` / `construct_apply`: the component placed in slot `i`, given its dependencies and arguments. */
    method ConstructApply(i: nat)
      requires Valid() && i < |specs| && ptr[i].None?
      requires forall d :: 0 <= d < |specs[i].deps| ==> DepSlot(specs, i, d) in built
      modifies this`ptr, this`built
      ensures Valid()
      ensures ptr == old(ptr)[i := Some(Made(specs, i))] && built == old(built) + [i]
    {
      OrderedSnoc(specs, built, i);
      ptr := ptr[i := Some(Made(specs, i))];
      built := built + [i];
    }

    /** `construct_deps<Seen>`: `construct_one` for each dependency of `i`, in declared order. */
    method ConstructDeps(i: nat, ghost seen: set<string>)
      requires Valid() && i < |specs|
      requires forall d :: 0 <= d < |specs[i].deps| ==> NoCycle(specs, DepSlot(specs, i, d), seen)
      modifies this
      decreases Unseen(specs, seen), 2
      ensures Valid() && old(built) <= built
      ensures destroyed == old(destroyed) && ran == old(ran)
      ensures forall d :: 0 <= d < |specs[i].deps| ==> DepSlot(specs, i, d) in built
      ensures built == AfterDeps(specs, i, |specs[i].deps|, seen, old(built))
    {
      for e := 0 to |specs[i].deps|
        invariant Valid() && old(built) <= built
        invariant destroyed == old(destroyed) && ran == old(ran)
        invariant built == AfterDeps(specs, i, e, seen, old(built))
      {
        ConstructOne(DepSlot(specs, i, e), seen);
      }
      forall d | 0 <= d < |specs[i].deps|
        ensures specs[DepSlot(specs, i, d)].key.typeName !in seen
      {
        assert NoCycle(specs, DepSlot(specs, i, d), seen);
      }
      forall d | 0 <= d < |specs[i].deps|
        ensures DepSlot(specs, i, d) in built
      {
        AfterDepsBuildsAll(specs, i, |specs[i].deps|, seen, old(built), d);
      }
    }

    /** `construct()`: `construct_one` for every specification, in declaration order. */
    method Construct()
      requires Valid()
      modifies this
      ensures Valid() && old(built) <= built
      ensures forall i :: 0 <= i < |ptr| ==> ptr[i].Some?
      ensures built == AfterAll(specs, |specs|, old(built))
      ensures destroyed == old(destroyed) && ran == old(ran)
    {
      for i := 0 to |specs|
        invariant Valid() && old(built) <= built
        invariant destroyed == old(destroyed) && ran == old(ran)
        invariant built == AfterAll(specs, i, old(built))
      {
        ConstructOne(i, {});
      }
      forall i | 0 <= i < |ptr|
        ensures ptr[i].Some?
      {
        AfterAllBuildsAll(specs, |specs|, old(built), i);
      }
    }

    /** `get(Key)`: the component in the slot whose key matches. */
    function Get(k: Key): (o: Obj)
      reads this
      requires Valid() && k in Keys(specs) && ptr[IndexOf(Keys(specs), k)].Some?
      ensures o.slot < |specs| && specs[o.slot].key == k && o == Made(specs, o.slot)
    {
      ptr[IndexOf(Keys(specs), k)].value
    }

    /** `run()`: construct everything, then run the `Context` component. */
    method Run()
      requires Valid()
      modifies this
      ensures Valid() && old(built) <= built
      ensures forall i :: 0 <= i < |ptr| ==> ptr[i].Some?
      ensures built == AfterAll(specs, |specs|, old(built))
      ensures ran.Some? && ran.value.slot < |specs| && specs[ran.value.slot].key == ContextKey
    {
      Construct();
      ran := Some(Get(ContextKey));
    }

    /** `destroy()`: the destructor of every constructed slot, in declaration order; `ptr` is left as it was. */
    method Destroy()
      modifies this`destroyed
      ensures destroyed == old(destroyed) + Live(ptr)
    {
      for i := 0 to |ptr|
        invariant destroyed == old(destroyed) + Live(ptr[..i])
      {
        assert ptr[..i + 1][..i] == ptr[..i];
        if ptr[i].Some? {
          destroyed := destroyed + [i];
        }
      }
      assert ptr[..|ptr|] == ptr;
    }
  }

  /** What was built stays built. */
  lemma Grows(before: seq<nat>, after: seq<nat>, j: nat)
    requires before <= after && j in before
    ensures j in after
  {
    var p :| 0 <= p < |before| && before[p] == j;
    assert after[p] == j;
  }

  /**
   * A full construction builds every slot exactly once, each after its
   * dependencies, and the destructors then run once per slot, in
   * declaration order.
   */
  lemma ConstructedOnce(specs: seq<Spec>, ptr: seq<Option<Obj>>, built: seq<nat>)
    requires Accepted(specs) && |ptr| == |specs| && Ordered(specs, built)
    requires forall i :: 0 <= i < |ptr| ==> (ptr[i].Some? <==> i in built)
    requires forall i :: 0 <= i < |ptr| ==> ptr[i].Some?
    ensures forall i :: 0 <= i < |specs| ==> i in built
    ensures forall p, q :: 0 <= p < q < |built| ==> built[p] != built[q]
    ensures Live(ptr) == seq(|specs|, i => i)
  {
    LiveAll(ptr);
  }

  /** With every slot constructed, `destroy_all` visits slots 0, 1, ..., N - 1. */
  lemma {:induction false} LiveAll(ptr: seq<Option<Obj>>)
    requires forall i :: 0 <= i < |ptr| ==> ptr[i].Some?
    ensures Live(ptr) == seq(|ptr|, i => i)
    decreases |ptr|
  {
    if ptr != [] {
      var n := |ptr|;
      var front := ptr[..n - 1];
      LiveAll(front);
      assert seq(n, i => i) == seq(n - 1, i => i) + [n - 1];
    }
  }
}
