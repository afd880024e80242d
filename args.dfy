/**
 * Argument multisets: a map from a type descriptor to how many parameters of
 * that type are available (initArgsMap), their total (totalParams), the
 * parameter-unit count that decides eligibility, and the per-type minimum
 * that carries a multiset from caller to callee.
 */
module Args {
  import opened Ast
  import opened Strs

  /** Type descriptor -> number of parameter units of that type. */
  type ArgMap = map<string, nat>

  /** A field binds one unit per name, or one unit when it is unnamed. */
  function FieldUnits(f: Field): (n: nat)
    ensures n >= 1 && n >= f.names
  {
    if f.names > 0 then f.names else 1
  }

  /** The total parameter units of a parameter list. */
  function ParamUnits(params: seq<Field>): nat
  {
    if |params| == 0 then 0
    else ParamUnits(params[..|params| - 1]) + FieldUnits(params[|params| - 1])
  }

  /** The units contributed by the fields whose type is `t`. */
  function TypeUnits(params: seq<Field>, t: string): nat
  {
    if |params| == 0 then 0
    else TypeUnits(params[..|params| - 1], t)
         + (if params[|params| - 1].typ == t then FieldUnits(params[|params| - 1]) else 0)
  }

  /** Some field of the list has type `t`. */
  predicate HasType(params: seq<Field>, t: string)
  {
    exists i :: 0 <= i < |params| && params[i].typ == t
  }

  /** A missing key reads as 0, as Go's map index does. */
  function Count(m: ArgMap, t: string): nat
  {
    if t in m then m[t] else 0
  }

  function Min(x: nat, y: nat): nat
  {
    if x <= y then x else y
  }

  /**
   * The argument multiset of a parameter list, built as initArgsMap builds it:
   * field by field, `args[type] += units`.
   */
  function ArgsMap(params: seq<Field>): ArgMap
  {
    if |params| == 0 then map[] else AddField(ArgsMap(params[..|params| - 1]), params[|params| - 1])
  }

  /** `args[f.typ] += units of f` */
  function AddField(args: ArgMap, f: Field): ArgMap
  {
    args[f.typ := Count(args, f.typ) + FieldUnits(f)]
  }

  /**
   * initArgsMap maps each type to the units of the fields of that type, and
   * has exactly the types of the fields as keys, none of them with count 0:
   * `(a, b int, c string, d, e float64)` gives {int: 2, string: 1, float64: 2}.
   */
  lemma {:induction false} ArgsMapCounts(params: seq<Field>, t: string)
    ensures Count(ArgsMap(params), t) == TypeUnits(params, t)
    ensures t in ArgsMap(params) <==> HasType(params, t)
    ensures t in ArgsMap(params) ==> ArgsMap(params)[t] >= 1
  {
    if |params| > 0 {
      var prefix := params[..|params| - 1];
      var f := params[|params| - 1];
      ArgsMapCounts(prefix, t);
      if HasType(params, t) && f.typ != t {
        var i :| 0 <= i < |params| && params[i].typ == t;
        assert prefix[i] == params[i];
      }
      if HasType(prefix, t) {
        var i :| 0 <= i < |prefix| && prefix[i].typ == t;
        assert params[i] == prefix[i];
      }
    }
  }

  /** The multiset intersection: keys present on both sides, each with the smaller count. */
  function Intersect(a: ArgMap, c: ArgMap): ArgMap
  {
    map t | t in a && t in c :: Min(a[t], c[t])
  }

  /** The key Expand takes apart first; any key will do. */
  ghost function PickKey(m: ArgMap): string
    requires |m| > 0
  {
    var k :| k in m; k
  }

  /** Every type repeated by its count, in some order of the keys. */
  ghost function Expand(m: ArgMap): seq<string>
    decreases |m|
  {
    if |m| == 0 then []
    else
      var k := PickKey(m);
      Expand(m - {k}) + Repeat(k, m[k])
  }

  lemma {:induction false} ExpandCount(m: ArgMap, t: string)
    ensures multiset(Expand(m))[t] == Count(m, t)
    decreases |m|
  {
    if |m| > 0 {
      var k := PickKey(m);
      assert Expand(m) == Expand(m - {k}) + Repeat(k, m[k]);
      ExpandCount(m - {k}, t);
      RepeatCount(k, m[k], t);
    }
  }

  /**
   * The multiset of parameter units an argument map stands for: each type
   * as many times as its count.
   */
  ghost function Units(m: ArgMap): multiset<string>
  {
    assert IsUnitsOf(multiset(Expand(m)), m) by {
      forall t ensures multiset(Expand(m))[t] == Count(m, t) { ExpandCount(m, t); }
    }
    var u :| IsUnitsOf(u, m); u
  }

  ghost predicate IsUnitsOf(u: multiset<string>, m: ArgMap)
  {
    forall t {:trigger u[t]} :: u[t] == Count(m, t)
  }

  lemma UnitsAt(m: ArgMap, t: string)
    ensures Units(m)[t] == Count(m, t)
  {
  }

  /** totalParams, as a specification: the number of units in the map. */
  ghost function Sum(m: ArgMap): nat
  {
    |Units(m)|
  }

  lemma UnitsUpdate(m: ArgMap, k: string, u: nat)
    ensures Units(m[k := Count(m, k) + u]) == Units(m) + multiset(Repeat(k, u))
  {
    var m' := m[k := Count(m, k) + u];
    forall t ensures Units(m')[t] == (Units(m) + multiset(Repeat(k, u)))[t] {
      UnitsAt(m', t);
      UnitsAt(m, t);
      RepeatCount(k, u, t);
    }
  }

  /** Adding `u` units of one type adds `u` to the total. */
  lemma SumAddField(m: ArgMap, f: Field)
    ensures Sum(AddField(m, f)) == Sum(m) + FieldUnits(f)
  {
    UnitsUpdate(m, f.typ, FieldUnits(f));
    assert |multiset(Repeat(f.typ, FieldUnits(f)))| == FieldUnits(f);
  }

  /** Taking one key out of the map takes its count out of the total, whichever key it is. */
  lemma SumRemove(m: ArgMap, k: string)
    requires k in m
    ensures Sum(m) == Sum(m - {k}) + m[k]
  {
    var rest := m - {k};
    assert m == rest[k := Count(rest, k) + m[k]];
    UnitsUpdate(rest, k, m[k]);
  }

  /** The total of an argument map is the number of parameter units it was built from. */
  lemma {:induction false} ArgsMapTotal(params: seq<Field>)
    ensures Sum(ArgsMap(params)) == ParamUnits(params)
  {
    if |params| > 0 {
      ArgsMapTotal(params[..|params| - 1]);
      SumAddField(ArgsMap(params[..|params| - 1]), params[|params| - 1]);
    } else {
      assert ArgsMap(params) == map[];
      assert Sum(map[]) == 0;
    }
  }

  /**
   * The intersection is the multiset intersection of the two sides, so its
   * total never exceeds either side's total.
   */
  lemma IntersectUnits(a: ArgMap, c: ArgMap)
    ensures Units(Intersect(a, c)) == Units(a) * Units(c)
    ensures Sum(Intersect(a, c)) <= Sum(a) && Sum(Intersect(a, c)) <= Sum(c)
  {
    var r := Intersect(a, c);
    forall t ensures Units(r)[t] == (Units(a) * Units(c))[t] {
      UnitsAt(r, t);
      UnitsAt(a, t);
      UnitsAt(c, t);
    }
    SubMultisetCard(Units(r), Units(a));
    SubMultisetCard(Units(r), Units(c));
  }

  /** A map with a single type holds that type's count of units; the empty map holds none. */
  lemma SumSingle(t: string, n: nat)
    ensures Units(map[t := n]) == multiset(Repeat(t, n))
    ensures Sum(map[t := n]) == n
  {
    var m := map[t := n];
    forall u ensures Units(m)[u] == multiset(Repeat(t, n))[u] {
      UnitsAt(m, u);
      RepeatCount(t, n, u);
    }
    assert Units(m) == multiset(Repeat(t, n));
  }

  lemma SumEmpty()
    ensures Sum(map[]) == 0
  {
    forall u ensures Units(map[])[u] == multiset{}[u] {
      UnitsAt(map[], u);
    }
    assert Units(map[]) == multiset{};
  }

  /** The cases of initArgsMap's own tests: separate, grouped and mixed parameter fields. */
  lemma ArgsMapExamples()
    ensures ArgsMap([Field("int", 1), Field("string", 1), Field("float64", 1)])
            == map["int" := 1, "string" := 1, "float64" := 1]
    ensures ArgsMap([Field("int", 3)]) == map["int" := 3]
    ensures ArgsMap([Field("int", 2), Field("string", 1), Field("float64", 2)])
            == map["int" := 2, "string" := 1, "float64" := 2]
  {
    var sep := [Field("int", 1), Field("string", 1), Field("float64", 1)];
    assert sep[..2][..1][..0] == [];
    assert sep[..2][..1] == [Field("int", 1)];
    assert sep[..2] == [Field("int", 1), Field("string", 1)];
    assert ArgsMap(sep[..2][..1]) == map["int" := 1];
    assert ArgsMap(sep[..2]) == map["int" := 1, "string" := 1];
    assert [Field("int", 3)][..0] == [];
    var mixed := [Field("int", 2), Field("string", 1), Field("float64", 2)];
    assert mixed[..2][..1][..0] == [];
    assert mixed[..2][..1] == [Field("int", 2)];
    assert mixed[..2] == [Field("int", 2), Field("string", 1)];
  }

  lemma SubMultisetCard(x: multiset<string>, y: multiset<string>)
    requires x <= y
    ensures |x| <= |y|
  {
    assert y == x + (y - x);
  }

  /** The parameter-unit loop of addNodeDecls and of the root callback. */
  method CountParams(params: seq<Field>) returns (total: nat)
    ensures total == ParamUnits(params)
  {
    total := 0;
    for i := 0 to |params|
      invariant total == ParamUnits(params[..i])
    {
      assert params[..i + 1][..i] == params[..i];
      if params[i].names > 0 {
        total := total + params[i].names;
      } else {
        total := total + 1;
      }
    }
    assert params[..|params|] == params;
  }

  /** initArgsMap: one pass over the fields, adding each field's units to its type. */
  method InitArgsMap(params: seq<Field>) returns (args: ArgMap)
    ensures args == ArgsMap(params)
  {
    args := map[];
    for i := 0 to |params|
      invariant args == ArgsMap(params[..i])
    {
      assert params[..i + 1][..i] == params[..i];
      var count := 1;
      if params[i].names > 0 {
        count := params[i].names;
      }
      args := args[params[i].typ := Count(args, params[i].typ) + count];
    }
    assert params[..|params|] == params;
  }

  /** totalParams: the sum of the counts, visiting the keys in whatever order. */
  method TotalParams(args: ArgMap) returns (sum: nat)
    ensures sum == Sum(args)
  {
    sum := 0;
    var rest := args;
    while |rest| > 0
      invariant sum + Sum(rest) == Sum(args)
      decreases |rest|
    {
      var t :| t in rest;
      SumRemove(rest, t);
      sum := sum + rest[t];
      rest := rest - {t};
    }
    assert Units(rest) == multiset{};
  }

  /** The intersection loop of recurseCheckDeep: keep each inherited type the callee also takes, with the smaller count. */
  method IntersectArgs(args: ArgMap, calleeArgs: ArgMap) returns (inter: ArgMap)
    ensures inter == Intersect(args, calleeArgs)
  {
    inter := map[];
    var todo := args.Keys;
    while todo != {}
      invariant todo <= args.Keys
      invariant inter.Keys == (args.Keys - todo) * calleeArgs.Keys
      invariant forall t :: t in inter ==> inter[t] == Min(args[t], calleeArgs[t])
      decreases todo
    {
      var t :| t in todo;
      if t in calleeArgs {
        inter := inter[t := Min(args[t], calleeArgs[t])];
      }
      todo := todo - {t};
    }
  }
}
