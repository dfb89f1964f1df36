/** The command formatting of the `_madx_tools` helpers `_mad_command`,
    `_mad_command_unpack` and `_sorted_items`, as far as the `matchcommand`
    doctests (src/cern/cpymad/madx.py:331-358) pin it down: a statement is
    `name, arg, arg;` followed by a newline, keyword arguments come after the
    positional ones in sorted key order, `True` becomes a bare flag, `None`
    is left out and a `(key, op, value)` triple becomes `key<op>value`. */
module MadxTools {
  import opened Strings
  import opened Keyed

  /** A parameter value as the caller passes it. Numbers arrive already
      rendered by `str()` (`1e-06`), together with whether they are zero,
      which Python treats as false. */
  datatype Value = Num(text: string, zero: bool) | Str(text: string) | Bool(b: bool) | Nil

  /** Python's `str(v)`. */
  function Show(v: Value): string
  {
    match v
    case Num(t, _) => t
    case Str(t) => t
    case Bool(b) => if b then "True" else "False"
    case Nil => "None"
  }

  /** Python's truth value of `v`: zero, `''`, `False` and `None` are false. */
  predicate Truthy(v: Value)
  {
    match v
    case Num(_, z) => !z
    case Str(t) => t != ""
    case Bool(b) => b
    case Nil => false
  }

  /** A Python dict of parameters, in insertion order. */
  type Dict = seq<(string, Value)>

  /** One argument of a statement: `key=value` (or a flag), or a comparison. */
  datatype Arg = Param(key: string, value: Value) | Cond(key: string, op: string, value: Value)

  /** What `_mad_command_unpack` accepts: a mapping (emitted in sorted key
      order) or a list of positional arguments (emitted in list order). */
  datatype Group = Mapping(entries: Dict) | Items(args: seq<Arg>)

  /** One `;`-terminated statement of the engine's command language. */
  datatype Stmt = Stmt(name: string, args: seq<Arg>)

  predicate Omitted(a: Arg)
  {
    a.Param? && a.value.Nil?
  }

  function ArgText(a: Arg): string
  {
    match a
    case Param(k, v) => if v == Bool(true) then k else k + "=" + Show(v)
    case Cond(k, op, v) => k + op + Show(v)
  }

  function ArgsText(args: seq<Arg>): string
  {
    if args == [] then ""
    else (if Omitted(args[0]) then "" else ", " + ArgText(args[0])) + ArgsText(args[1..])
  }

  /** The text of one statement. */
  function Render(s: Stmt): string
  {
    s.name + ArgsText(s.args) + ";\n"
  }

  /** The text of a statement group, each statement terminated. */
  function RenderAll(ss: seq<Stmt>): string
  {
    if ss == [] then "" else Render(ss[0]) + RenderAll(ss[1..])
  }

  lemma {:induction false} RenderAllAppend(a: seq<Stmt>, b: seq<Stmt>)
    ensures RenderAll(a + b) == RenderAll(a) + RenderAll(b)
  {
    if a != [] {
      assert (a + b)[1..] == a[1..] + b;
      RenderAllAppend(a[1..], b);
    } else {
      assert a + b == b;
    }
  }

  function Params(d: Dict): (r: seq<Arg>)
    ensures |r| == |d|
    ensures forall i :: 0 <= i < |d| ==> r[i] == Param(d[i].0, d[i].1)
  {
    seq(|d|, i requires 0 <= i < |d| => Param(d[i].0, d[i].1))
  }

  function GroupArgs(g: Group): seq<Arg>
  {
    match g
    case Mapping(d) => Params(SortByKey(d))
    case Items(a) => a
  }

  /** Python's truth value of a mapping or list: non-empty. */
  predicate GroupTruthy(g: Group)
  {
    match g
    case Mapping(d) => d != []
    case Items(a) => a != []
  }

  /** `_mad_command(name, *args, **kwargs)`. */
  function Command(name: string, args: seq<Arg>, kwargs: Dict): Stmt
  {
    Stmt(name, args + Params(SortByKey(kwargs)))
  }

  /** `_mad_command_unpack(name, group, **kwargs)`: the group's own arguments
      first, then the keyword arguments. */
  function CommandUnpack(name: string, g: Group, kwargs: Dict): Stmt
  {
    Command(name, GroupArgs(g), kwargs)
  }

  /** A mapping serializes to the same arguments whatever order it was built in. */
  lemma UnpackDeterministic(name: string, d1: Dict, d2: Dict, kwargs: Dict)
    requires DistinctKeys(d1) && DistinctKeys(d2) && multiset(d1) == multiset(d2)
    ensures Render(CommandUnpack(name, Mapping(d1), kwargs)) == Render(CommandUnpack(name, Mapping(d2), kwargs))
  {
    SortByKeyDeterministic(d1, d2);
  }

  /** Every entry of a mapping appears among the arguments it unpacks to. */
  lemma {:induction false} MappingArgsHold(d: Dict, k: string, v: Value)
    requires (k, v) in d
    ensures Param(k, v) in GroupArgs(Mapping(d))
  {
    var s := SortByKey(d);
    assert (k, v) in multiset(s);
    var i := MemberIndex(s, (k, v));
    assert Params(s)[i] == Param(k, v);
  }
}
