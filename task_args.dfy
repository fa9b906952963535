/**
 * Optional task arguments (main/Task.hpp): `StackDepth`, `Priority` and
 * `Core`, each with a compile-time default. `get_arg<T>(args...)` is a fold
 * over the arguments that picks the one of type `T`, or the default when
 * there is none; a program passing the same type twice does not compile
 * (`None` here).
 */
module TaskArgs {
  import opened Wrappers

  datatype Kind = StackDepth | Priority | Core

  datatype Arg = Arg(kind: Kind, value: int)

  /** `tskNO_AFFINITY` as ESP-IDF defines it: the task may run on either core. */
  const NoAffinity: int := 0x7FFF_FFFF

  function Default(k: Kind): int {
    match k
    case StackDepth => 4096
    case Priority => 2
    case Core => NoAffinity
  }

  /** How many arguments of kind `k` are supplied (the `static_assert`'s sum). */
  function Count(k: Kind, args: seq<Arg>): (n: nat)
    ensures n <= |args|
  {
    if args == [] then 0 else (if args[0].kind == k then 1 else 0) + Count(k, args[1..])
  }

  /** The short-circuiting `||` fold: the first argument of kind `k` assigns the result. */
  function Pick(k: Kind, args: seq<Arg>): int {
    if args == [] then Default(k)
    else if args[0].kind == k then args[0].value
    else Pick(k, args[1..])
  }

  /** `get_arg<T>(args...)`: rejected when `T` is supplied twice, else the supplied value or the default. */
  function GetArg(k: Kind, args: seq<Arg>): (r: Option<int>)
    ensures r.None? <==> Count(k, args) > 1
  {
    if Count(k, args) > 1 then None else Some(Pick(k, args))
  }

  /** With no argument of kind `k` the result is the default. */
  lemma {:induction false} AbsentGivesDefault(k: Kind, args: seq<Arg>)
    requires forall i :: 0 <= i < |args| ==> args[i].kind != k
    ensures Count(k, args) == 0
    ensures GetArg(k, args) == Some(Default(k))
  {
    if args != [] {
      AbsentGivesDefault(k, args[1..]);
    }
  }

  /** The one argument of kind `k` is picked wherever it stands. */
  lemma {:induction false} SingleIsPicked(k: Kind, args: seq<Arg>, i: nat)
    requires i < |args| && args[i].kind == k
    requires forall j :: 0 <= j < |args| && j != i ==> args[j].kind != k
    ensures GetArg(k, args) == Some(args[i].value)
  {
    if i == 0 {
      AbsentGivesDefault(k, args[1..]);
    } else {
      SingleIsPicked(k, args[1..], i - 1);
    }
  }

  lemma {:induction false} CountAppend(k: Kind, a: seq<Arg>, b: seq<Arg>)
    ensures Count(k, a + b) == Count(k, a) + Count(k, b)
  {
    if a != [] {
      assert (a + b)[1..] == a[1..] + b;
      CountAppend(k, a[1..], b);
    } else {
      assert a + b == b;
    }
  }

  lemma {:induction false} PickAppend(k: Kind, a: seq<Arg>, b: seq<Arg>)
    requires Count(k, a) == 0
    ensures Pick(k, a + b) == Pick(k, b)
  {
    if a != [] {
      assert (a + b)[1..] == a[1..] + b;
      PickAppend(k, a[1..], b);
    } else {
      assert a + b == b;
    }
  }

  lemma {:induction false} PickNone(k: Kind, a: seq<Arg>)
    requires Count(k, a) == 0
    ensures Pick(k, a) == Default(k)
  {
    if a != [] {
      PickNone(k, a[1..]);
    }
  }

  /** The order in which the arguments are written does not matter. */
  lemma OrderIrrelevant(k: Kind, a: seq<Arg>, b: seq<Arg>)
    ensures GetArg(k, a + b) == GetArg(k, b + a)
  {
    CountAppend(k, a, b);
    CountAppend(k, b, a);
    if Count(k, a) == 0 {
      PickAppend(k, a, b);
      PickPrefix(b, a, k);
    } else if Count(k, b) == 0 {
      PickAppend(k, b, a);
      PickPrefix(a, b, k);
    }
  }

  /** With none of kind `k` after `x`, `x`'s first match is the answer. */
  lemma {:induction false} PickPrefix(x: seq<Arg>, y: seq<Arg>, k: Kind)
    requires Count(k, y) == 0
    ensures Pick(k, x + y) == Pick(k, x)
  {
    if x == [] {
      assert x + y == y;
      PickNone(k, y);
    } else {
      assert (x + y)[1..] == x[1..] + y;
      PickPrefix(x[1..], y, k);
    }
  }

  datatype Config = Config(stackDepth: int, priority: int, core: int)

  /** The `Task` constructor's three `get_arg` calls; rejected if any one is. */
  function Configure(args: seq<Arg>): (c: Option<Config>)
    ensures c.Some? <==> Count(StackDepth, args) <= 1 && Count(Priority, args) <= 1 && Count(Core, args) <= 1
  {
    match (GetArg(StackDepth, args), GetArg(Priority, args), GetArg(Core, args))
    case (Some(s), Some(p), Some(c)) => Some(Config(s, p, c))
    case _ => None
  }

  /** A task given no arguments gets 4096 words of stack, priority 2 and no core affinity. */
  lemma DefaultConfig()
    ensures Configure([]) == Some(Config(4096, 2, NoAffinity))
  {
  }

  /** The streaming task's arguments are taken as given, and the same list in another order agrees. */
  lemma StreamTaskConfig()
    ensures Configure([Arg(StackDepth, 8192), Arg(Priority, 5), Arg(Core, 0)]) == Some(Config(8192, 5, 0))
    ensures Configure([Arg(Core, 0), Arg(StackDepth, 8192), Arg(Priority, 5)]) == Some(Config(8192, 5, 0))
  {
    var a := [Arg(StackDepth, 8192), Arg(Priority, 5), Arg(Core, 0)];
    SingleIsPicked(StackDepth, a, 0);
    SingleIsPicked(Priority, a, 1);
    SingleIsPicked(Core, a, 2);
    var b := [Arg(Core, 0), Arg(StackDepth, 8192), Arg(Priority, 5)];
    SingleIsPicked(StackDepth, b, 1);
    SingleIsPicked(Priority, b, 2);
    SingleIsPicked(Core, b, 0);
  }
}
