/**
 * `str(args...)` (main/String.hpp): a fold over the arguments into a fresh
 * string. A string-like argument is appended verbatim; any other argument
 * is appended as its `std::to_string` rendering. Only integer non-string
 * arguments are modelled.
 */
module Strings {
  import Decimal

  datatype Arg = Text(s: string) | Number(n: int)

  /** What `detail::str_append` adds to the result for one argument. */
  function Piece(a: Arg): (p: string)
    ensures a.Text? ==> p == a.s
    ensures a.Number? ==> Decimal.Parse(p).Some? && Decimal.Parse(p).value == a.n
  {
    match a
    case Text(s) => s
    case Number(n) => Decimal.ParseRender(n); Decimal.Render(n)
  }

  /** `str(args...)`: the pieces of the arguments, in argument order, appended to an empty string. */
  function Str(args: seq<Arg>): (r: string)
    ensures args == [] ==> r == ""
    ensures |args| == 1 ==> r == Piece(args[0])
  {
    if args == [] then "" else Piece(args[0]) + Str(args[1..])
  }

  /** Splitting the arguments splits the result: str(a..., b...) == str(a...) + str(b...). */
  lemma {:induction false} StrAppend(a: seq<Arg>, b: seq<Arg>)
    ensures Str(a + b) == Str(a) + Str(b)
    decreases |a|
  {
    if a == [] {
      assert a + b == b;
    } else {
      assert (a + b)[0] == a[0] && (a + b)[1..] == a[1..] + b;
      StrAppend(a[1..], b);
    }
  }

  /** Text arguments alone are concatenated verbatim. */
  lemma StrTexts(s: string, t: string)
    ensures Str([Text(s), Text(t)]) == s + t
  {
    assert [Text(s), Text(t)][1..] == [Text(t)];
  }
}
