/**
 * The chain explorer, as a specification: what recurseCheckDeep and
 * getChains compute from the declaration index, the inherited argument
 * multiset, the depth and the call stack so far. The methods of
 * ParamAnalyzer that run the Go loops are proved equal to these functions.
 */
module Explorer {
  import opened Wrappers
  import opened Ast
  import opened Keys
  import opened Strs
  import opened Args

  /** A branch survives only while at least this many shared parameter units remain. */
  const MinSharedArgs: nat := 3

  /**
   * An entry of the declaration index: the declaration and the run whose
   * type information was current when it was indexed. Each run installs the
   * type information of its own package, so `info` numbers the runs.
   */
  datatype Indexed = Indexed(decl: FuncDecl, info: nat)

  /** The declaration index: key -> entry (the `all` map). */
  type Index = map<string, Indexed>

  /** chainResult; the zero value NoResult stands for "no result". */
  datatype ChainResult = ChainResult(callStack: seq<string>, msg: string, leafFunc: Option<FuncDecl>)

  const NoResult := ChainResult([], "", None)

  /** Every declaration is stored under its own key, as addNodeDecls stores it. */
  ghost predicate KeysConsistent(all: Index)
  {
    forall k :: k in all ==> FuncDeclToKey(Some(all[k].decl)) == k
  }

  /** How many times `x` occurs in `s` (the foundCount loop of getChains). */
  function Occurrences(s: seq<string>, x: string): nat
  {
    if |s| == 0 then 0
    else Occurrences(s[..|s| - 1], x) + (if s[|s| - 1] == x then 1 else 0)
  }

  lemma OccurrencesAppend(s: seq<string>, y: string, x: string)
    ensures Occurrences(s + [y], x) == Occurrences(s, x) + (if x == y then 1 else 0)
  {
    assert (s + [y])[..|s|] == s;
  }

  ghost predicate AtMostTwice(s: seq<string>)
  {
    forall x :: Occurrences(s, x) <= 2
  }

  /** Some order of the units of `m`: each type repeated by its count. */
  ghost function ArgList(m: ArgMap): (s: seq<string>)
    ensures multiset(s) == Units(m)
  {
    ExpandIsUnits(m);
    var s :| multiset(s) == Units(m); s
  }

  lemma ExpandIsUnits(m: ArgMap)
    ensures multiset(Expand(m)) == Units(m)
  {
    forall t ensures multiset(Expand(m))[t] == Units(m)[t] {
      ExpandCount(m, t);
      UnitsAt(m, t);
    }
  }

  /** The surviving types of a leaf, sorted, one entry per unit. */
  ghost function LeafArgs(inter: ArgMap): (r: seq<string>)
    ensures SortedStrs(r) && multiset(r) == Units(inter) && |r| == Sum(inter)
  {
    SortStrings(ArgList(inter))
  }

  /** A leaf left with a single type lists it once per unit. */
  lemma LeafArgsSingle(t: string, n: nat)
    ensures LeafArgs(map[t := n]) == Repeat(t, n)
  {
    SumSingle(t, n);
    BelowTotal(t, t);
    SortedUnique(LeafArgs(map[t := n]), Repeat(t, n));
  }

  /** The recommendation text for a list of (already sorted) types and a call stack. */
  function FormatMessage(sortedArgs: seq<string>, stack: seq<string>): (msg: string)
    ensures msg != ""
  {
    "make struct with arguments: " + Join(sortedArgs, ", ") + ", for call stack: " + Join(stack, " -> ")
  }

  ghost function LeafMessage(inter: ArgMap, stack: seq<string>): string
  {
    FormatMessage(LeafArgs(inter), stack)
  }

  /**
   * The index of the first result with the longest call stack: the scan
   * over chains[1:] that replaces the candidate only on a strictly longer stack.
   */
  function FirstLongest(chains: seq<ChainResult>): (i: nat)
    requires |chains| > 0
    ensures i < |chains|
    ensures forall j :: 0 <= j < |chains| ==> |chains[j].callStack| <= |chains[i].callStack|
    ensures forall j :: 0 <= j < i ==> |chains[j].callStack| < |chains[i].callStack|
  {
    if |chains| == 1 then 0
    else
      var i := FirstLongest(chains[..|chains| - 1]);
      assert forall j :: 0 <= j < |chains| - 1 ==> chains[..|chains| - 1][j] == chains[j];
      if |chains[|chains| - 1].callStack| > |chains[i].callStack| then |chains| - 1 else i
  }

  /** The depth budget left: the recursion descends only while depth <= maxDepth. */
  function Budget(maxDepth: int, depth: int): nat
  {
    if depth > maxDepth then 0 else maxDepth - depth + 1
  }

  /**
   * A non-empty result: its stack starts with `prefix`, has at most `maxLen`
   * keys, and ends with the key of its leaf, a declaration without calls.
   */
  ghost predicate Shaped(res: ChainResult, prefix: seq<string>, maxLen: int)
  {
    && |prefix| <= |res.callStack| <= maxLen
    && |res.callStack| > 0
    && res.callStack[..|prefix|] == prefix
    && res.msg != ""
    && res.leafFunc.Some?
    && res.leafFunc.value.calls == []
    && res.callStack[|res.callStack| - 1] == FuncDeclToKey(res.leafFunc)
  }

  lemma ShapedShorterPrefix(res: ChainResult, prefix: seq<string>, x: string, maxLen: int)
    requires Shaped(res, prefix + [x], maxLen)
    ensures Shaped(res, prefix, maxLen)
  {
    assert res.callStack[..|prefix|] == res.callStack[..|prefix| + 1][..|prefix|];
    assert (prefix + [x])[..|prefix|] == prefix;
  }

  /** A leaf's own result has the shape of a result under its own stack. */
  lemma LeafShaped(leaf: ChainResult, maxLen: int)
    requires |leaf.callStack| > 0 && |leaf.callStack| <= maxLen && leaf.msg != ""
    requires leaf.leafFunc.Some? && leaf.leafFunc.value.calls == []
    requires leaf.callStack[|leaf.callStack| - 1] == FuncDeclToKey(leaf.leafFunc)
    ensures Shaped(leaf, leaf.callStack, maxLen)
  {
    assert leaf.callStack[..|leaf.callStack|] == leaf.callStack;
  }

  /**
   * The parameter units recurseCheckDeep sees for an entry. Under the type
   * information the entry was indexed with, every parameter field has a type;
   * under another run's, neither TypeOf nor ObjectOf knows the fields, and
   * the entry has no units at all.
   */
  function TypedArgs(e: Indexed, info: nat): ArgMap
  {
    if e.info == info then ArgsMap(e.decl.params) else map[]
  }

  /**
   * recurseCheckDeep, with `info` the current run. Past the depth limit, or
   * when fewer than three shared units survive the intersection with the
   * entry's own parameters, there is no result. A declaration without any
   * call expression is a leaf and yields its chain; otherwise the first
   * longest of the results of its call sites. Every result extends
   * stack + [key of the declaration] and is at most
   * |stack| + maxDepth - depth + 1 keys long.
   */
  ghost function Explore(all: Index, info: nat, maxDepth: int, e: Indexed, args: ArgMap, depth: int,
                         stack: seq<string>): (res: ChainResult)
    ensures res == NoResult || Shaped(res, stack + [FuncDeclToKey(Some(e.decl))], |stack| + maxDepth - depth + 1)
    decreases Budget(maxDepth, depth), 1, 0
  {
    if depth > maxDepth then NoResult
    else
      var newStack := stack + [FuncDeclToKey(Some(e.decl))];
      var inter := Intersect(args, TypedArgs(e, info));
      if Sum(inter) < MinSharedArgs then NoResult
      else if |e.decl.calls| == 0 then
        var leaf := ChainResult(newStack, LeafMessage(inter, newStack), Some(e.decl));
        LeafShaped(leaf, |stack| + maxDepth - depth + 1);
        leaf
      else
        var chains := Branches(all, info, maxDepth, e.decl.calls, newStack, inter, depth);
        if |chains| == 0 then NoResult
        else
          var i := FirstLongest(chains);
          assert chains[i] in chains;
          chains[i]
  }

  /**
   * getChains: the non-empty results of the call sites, in call order. Each
   * one extends `newStack` and stays within the depth budget.
   */
  ghost function Branches(all: Index, info: nat, maxDepth: int, calls: seq<CallExpr>, newStack: seq<string>,
                          inter: ArgMap, depth: int): (rs: seq<ChainResult>)
    ensures forall r :: r in rs ==> Shaped(r, newStack, |newStack| + maxDepth - depth)
    decreases Budget(maxDepth, depth + 1), 2, |calls|
  {
    if |calls| == 0 then []
    else
      Branches(all, info, maxDepth, calls[..|calls| - 1], newStack, inter, depth)
      + BranchAt(all, info, maxDepth, calls[|calls| - 1], newStack, inter, depth)
  }

  /**
   * One iteration of getChains: an unresolved call, a callee already twice
   * on the stack, or a callee missing from the index is skipped; otherwise
   * the callee is explored one level deeper and kept if it found a chain.
   */
  ghost function BranchAt(all: Index, info: nat, maxDepth: int, call: CallExpr, newStack: seq<string>,
                          inter: ArgMap, depth: int): (rs: seq<ChainResult>)
    ensures |rs| <= 1
    ensures forall r :: r in rs ==> Shaped(r, newStack, |newStack| + maxDepth - depth)
    decreases Budget(maxDepth, depth + 1), 2, 0
  {
    var (calledKey, ok) := CallExprToKey(Some(call));
    if !ok || Occurrences(newStack, calledKey) >= 2 || calledKey !in all then []
    else
      var res := Explore(all, info, maxDepth, all[calledKey], inter, depth + 1, newStack);
      if res.msg == "" then []
      else
        ShapedShorterPrefix(res, newStack, FuncDeclToKey(Some(all[calledKey].decl)), |newStack| + maxDepth - depth);
        [res]
  }

  /** The two ways a branch is abandoned before its calls are looked at. */
  lemma ExploreAbandons(all: Index, info: nat, maxDepth: int, e: Indexed, args: ArgMap, depth: int, stack: seq<string>)
    ensures depth > maxDepth ==> Explore(all, info, maxDepth, e, args, depth, stack) == NoResult
    ensures Sum(Intersect(args, TypedArgs(e, info))) < MinSharedArgs ==>
              Explore(all, info, maxDepth, e, args, depth, stack) == NoResult
  {
  }

  /**
   * An entry indexed by an earlier run shares no unit with anything under
   * the current type information, so exploring it finds nothing: a stale
   * callee never extends a chain.
   */
  lemma StaleCalleeAbandons(all: Index, info: nat, maxDepth: int, e: Indexed, args: ArgMap, depth: int,
                            stack: seq<string>)
    requires e.info != info
    ensures Explore(all, info, maxDepth, e, args, depth, stack) == NoResult
  {
    assert Intersect(args, TypedArgs(e, info)) == map[];
    SumEmpty();
  }

  /**
   * A declaration indexed by the current run with no call expression at all,
   * within the depth limit and keeping at least three shared units, is a
   * leaf: its stack is the input stack plus its own key, it is its own leaf
   * function, and its message lists the surviving types sorted, one entry
   * per unit.
   */
  lemma ExploreLeaf(all: Index, info: nat, maxDepth: int, f: FuncDecl, args: ArgMap, depth: int, stack: seq<string>)
    requires depth <= maxDepth && |f.calls| == 0
    requires Sum(Intersect(args, ArgsMap(f.params))) >= MinSharedArgs
    ensures var newStack := stack + [FuncDeclToKey(Some(f))];
            Explore(all, info, maxDepth, Indexed(f, info), args, depth, stack)
            == ChainResult(newStack, LeafMessage(Intersect(args, ArgsMap(f.params)), newStack), Some(f))
  {
  }

  /** Call sites that are unresolved, or resolve to no indexed declaration, contribute nothing. */
  lemma {:induction false} BranchesUnresolved(all: Index, info: nat, maxDepth: int, calls: seq<CallExpr>,
                                              newStack: seq<string>, inter: ArgMap, depth: int)
    requires forall i :: 0 <= i < |calls| ==> !CallExprToKey(Some(calls[i])).1 || CallExprToKey(Some(calls[i])).0 !in all
    ensures Branches(all, info, maxDepth, calls, newStack, inter, depth) == []
  {
    if |calls| > 0 {
      var prefix := calls[..|calls| - 1];
      assert forall i :: 0 <= i < |prefix| ==> prefix[i] == calls[i];
      BranchesUnresolved(all, info, maxDepth, prefix, newStack, inter, depth);
    }
  }

  /**
   * The leaf test looks at call expressions, not at resolved callees: a body
   * whose calls are all unresolved (conversions, calls into other packages)
   * or not indexed is not a leaf, and yields no result.
   */
  lemma UnresolvedCallsAbandon(all: Index, info: nat, maxDepth: int, e: Indexed, args: ArgMap, depth: int,
                               stack: seq<string>)
    requires |e.decl.calls| > 0
    requires forall i :: 0 <= i < |e.decl.calls| ==>
               !CallExprToKey(Some(e.decl.calls[i])).1 || CallExprToKey(Some(e.decl.calls[i])).0 !in all
    ensures Explore(all, info, maxDepth, e, args, depth, stack) == NoResult
  {
    var newStack := stack + [FuncDeclToKey(Some(e.decl))];
    BranchesUnresolved(all, info, maxDepth, e.decl.calls, newStack, Intersect(args, TypedArgs(e, info)), depth);
  }

  /**
   * The revisit guard: a callee is entered only while its key occurs at most
   * once on the stack, so when the stack with the current key has no key
   * more than twice, neither has any resulting chain.
   */
  lemma {:induction false} ExploreRevisits(all: Index, info: nat, maxDepth: int, e: Indexed, args: ArgMap, depth: int,
                                           stack: seq<string>)
    requires KeysConsistent(all)
    requires AtMostTwice(stack + [FuncDeclToKey(Some(e.decl))])
    ensures AtMostTwice(Explore(all, info, maxDepth, e, args, depth, stack).callStack)
    decreases Budget(maxDepth, depth), 1, 0
  {
    if depth <= maxDepth {
      var newStack := stack + [FuncDeclToKey(Some(e.decl))];
      var inter := Intersect(args, TypedArgs(e, info));
      if Sum(inter) >= MinSharedArgs && |e.decl.calls| > 0 {
        BranchesRevisits(all, info, maxDepth, e.decl.calls, newStack, inter, depth);
        var chains := Branches(all, info, maxDepth, e.decl.calls, newStack, inter, depth);
        if |chains| > 0 {
          assert chains[FirstLongest(chains)] in chains;
        }
      }
    }
  }

  lemma {:induction false} BranchesRevisits(all: Index, info: nat, maxDepth: int, calls: seq<CallExpr>,
                                            newStack: seq<string>, inter: ArgMap, depth: int)
    requires KeysConsistent(all) && AtMostTwice(newStack)
    ensures forall r :: r in Branches(all, info, maxDepth, calls, newStack, inter, depth) ==> AtMostTwice(r.callStack)
    decreases Budget(maxDepth, depth + 1), 2, |calls|
  {
    if |calls| > 0 {
      BranchesRevisits(all, info, maxDepth, calls[..|calls| - 1], newStack, inter, depth);
      var (calledKey, ok) := CallExprToKey(Some(calls[|calls| - 1]));
      if ok && Occurrences(newStack, calledKey) < 2 && calledKey in all {
        forall x ensures Occurrences(newStack + [calledKey], x) <= 2 {
          OccurrencesAppend(newStack, calledKey, x);
        }
        ExploreRevisits(all, info, maxDepth, all[calledKey], inter, depth + 1, newStack);
      }
    }
  }

  /** A chain whose leaf declaration was indexed by the run `info`. */
  ghost predicate LeafIndexedBy(all: Index, info: nat, res: ChainResult)
  {
    res.leafFunc.Some? && Indexed(res.leafFunc.value, info) in all.Values
  }

  /**
   * Exploring an entry of the index finds only chains ending at a
   * declaration that the current run indexed: entries left by earlier runs
   * can neither be a leaf nor lead to one.
   */
  lemma {:induction false} ExploreLeafIndexed(all: Index, info: nat, maxDepth: int, e: Indexed, args: ArgMap,
                                              depth: int, stack: seq<string>)
    requires e in all.Values
    ensures var res := Explore(all, info, maxDepth, e, args, depth, stack);
            res == NoResult || LeafIndexedBy(all, info, res)
    decreases Budget(maxDepth, depth), 1, 0
  {
    if depth <= maxDepth {
      if e.info != info {
        StaleCalleeAbandons(all, info, maxDepth, e, args, depth, stack);
      } else {
        var newStack := stack + [FuncDeclToKey(Some(e.decl))];
        var inter := Intersect(args, TypedArgs(e, info));
        if Sum(inter) >= MinSharedArgs && |e.decl.calls| > 0 {
          BranchesLeafIndexed(all, info, maxDepth, e.decl.calls, newStack, inter, depth);
          var chains := Branches(all, info, maxDepth, e.decl.calls, newStack, inter, depth);
          if |chains| > 0 {
            assert chains[FirstLongest(chains)] in chains;
          }
        }
      }
    }
  }

  lemma {:induction false} BranchesLeafIndexed(all: Index, info: nat, maxDepth: int, calls: seq<CallExpr>,
                                               newStack: seq<string>, inter: ArgMap, depth: int)
    ensures forall r :: r in Branches(all, info, maxDepth, calls, newStack, inter, depth) ==> LeafIndexedBy(all, info, r)
    decreases Budget(maxDepth, depth + 1), 2, |calls|
  {
    if |calls| > 0 {
      BranchesLeafIndexed(all, info, maxDepth, calls[..|calls| - 1], newStack, inter, depth);
      var (calledKey, ok) := CallExprToKey(Some(calls[|calls| - 1]));
      if ok && Occurrences(newStack, calledKey) < 2 && calledKey in all {
        ExploreLeafIndexed(all, info, maxDepth, all[calledKey], inter, depth + 1, newStack);
      }
    }
  }

  /** The results the root callback appends for one call site of the root `k`. */
  ghost function RootAt(all: Index, info: nat, maxDepth: int, k: string, args: ArgMap, call: CallExpr)
    : (rs: seq<ChainResult>)
    ensures |rs| <= 1
    ensures forall r :: r in rs ==> Shaped(r, [k], maxDepth + 1)
  {
    var (lowerK, ok) := CallExprToKey(Some(call));
    if !ok || lowerK !in all then []
    else
      var res := Explore(all, info, maxDepth, all[lowerK], args, 1, [k]);
      if res.msg != "" && res.leafFunc.Some? then
        ShapedShorterPrefix(res, [k], FuncDeclToKey(Some(all[lowerK].decl)), maxDepth + 1);
        [res]
      else []
  }

  ghost function RootCalls(all: Index, info: nat, maxDepth: int, k: string, args: ArgMap, calls: seq<CallExpr>)
    : (rs: seq<ChainResult>)
    ensures forall r :: r in rs ==> Shaped(r, [k], maxDepth + 1)
  {
    if |calls| == 0 then []
    else RootCalls(all, info, maxDepth, k, args, calls[..|calls| - 1]) + RootAt(all, info, maxDepth, k, args, calls[|calls| - 1])
  }

  /**
   * The root callback for one declaration: nothing when it has fewer than
   * `minParams` parameter units; otherwise, for each call site into the
   * index, the chain explored from depth 1 with the stack [root key], when
   * there is one. Every such chain starts at the root and has at most
   * maxDepth + 1 keys.
   */
  ghost function RootResults(all: Index, info: nat, maxDepth: int, minParams: int, d: FuncDecl): (rs: seq<ChainResult>)
    ensures forall r :: r in rs ==> Shaped(r, [FuncDeclToKey(Some(d))], maxDepth + 1)
  {
    if ParamUnits(d.params) < minParams then []
    else RootCalls(all, info, maxDepth, FuncDeclToKey(Some(d)), ArgsMap(d.params), d.calls)
  }

  /** The root callback run over every declaration, in order. */
  ghost function AllRootResults(all: Index, info: nat, maxDepth: int, minParams: int, decls: seq<FuncDecl>)
    : seq<ChainResult>
  {
    if |decls| == 0 then []
    else AllRootResults(all, info, maxDepth, minParams, decls[..|decls| - 1])
         + RootResults(all, info, maxDepth, minParams, decls[|decls| - 1])
  }

  /**
   * Starting from a root stack [k], no key occurs more than twice in any
   * chain: `validate -> check -> validate -> check -> verify -> confirm` is
   * as far as a cycle is followed.
   */
  lemma {:induction false} RootCallsRevisits(all: Index, info: nat, maxDepth: int, k: string, args: ArgMap,
                                             calls: seq<CallExpr>)
    requires KeysConsistent(all)
    ensures forall r :: r in RootCalls(all, info, maxDepth, k, args, calls) ==> AtMostTwice(r.callStack)
  {
    if |calls| > 0 {
      RootCallsRevisits(all, info, maxDepth, k, args, calls[..|calls| - 1]);
      var (lowerK, ok) := CallExprToKey(Some(calls[|calls| - 1]));
      if ok && lowerK in all {
        var s := [k] + [FuncDeclToKey(Some(all[lowerK].decl))];
        forall x ensures Occurrences(s, x) <= 2 {
          OccurrencesAppend([k], FuncDeclToKey(Some(all[lowerK].decl)), x);
          OccurrencesAppend([], k, x);
        }
        ExploreRevisits(all, info, maxDepth, all[lowerK], args, 1, [k]);
      }
    }
  }

  /** Every chain the root callback finds ends at a declaration the current run indexed. */
  lemma {:induction false} RootCallsLeafIndexed(all: Index, info: nat, maxDepth: int, k: string, args: ArgMap,
                                                calls: seq<CallExpr>)
    ensures forall r :: r in RootCalls(all, info, maxDepth, k, args, calls) ==> LeafIndexedBy(all, info, r)
  {
    if |calls| > 0 {
      RootCallsLeafIndexed(all, info, maxDepth, k, args, calls[..|calls| - 1]);
      var (lowerK, ok) := CallExprToKey(Some(calls[|calls| - 1]));
      if ok && lowerK in all {
        ExploreLeafIndexed(all, info, maxDepth, all[lowerK], args, 1, [k]);
      }
    }
  }

  lemma {:induction false} AllRootResultsLeafIndexed(all: Index, info: nat, maxDepth: int, minParams: int,
                                                     decls: seq<FuncDecl>)
    ensures forall r :: r in AllRootResults(all, info, maxDepth, minParams, decls) ==> LeafIndexedBy(all, info, r)
  {
    if |decls| > 0 {
      var d := decls[|decls| - 1];
      AllRootResultsLeafIndexed(all, info, maxDepth, minParams, decls[..|decls| - 1]);
      RootCallsLeafIndexed(all, info, maxDepth, FuncDeclToKey(Some(d)), ArgsMap(d.params), d.calls);
    }
  }

  /** A declaration with three `int` parameters and no calls, as the explorer's own tests build them. */
  function ThreeInts(name: string): FuncDecl
  {
    FuncDecl(None, name, [Field("int", 1), Field("int", 1), Field("int", 1)], [])
  }

  lemma ThreeIntsArgs(name: string)
    ensures ArgsMap(ThreeInts(name).params) == map["int" := 3]
  {
    var ps := ThreeInts(name).params;
    assert ps[..2][..1][..0] == [];
    assert ArgsMap(ps[..2][..1]) == map["int" := 1];
    assert ps[..2][..1] == ps[..1];
    assert ArgsMap(ps[..2]) == map["int" := 2];
  }

  /**
   * The cases of the explorer's tests, with the recursion limit at its zero
   * value: past the limit or without enough shared units nothing is found;
   * within the limit, b inheriting three ints from a is a leaf with the
   * stack a -> b and the message naming the three ints.
   */
  lemma ExploreTestAbandoned(all: Index, info: nat, maxDepth: int)
    ensures Explore(all, info, 0, Indexed(ThreeInts("a"), info), map[], 1, ["a"]) == NoResult
    ensures Explore(all, info, 0, Indexed(ThreeInts("b"), info), map["int" := 1], 1, ["a"]) == NoResult
    ensures Explore(all, info, maxDepth, Indexed(ThreeInts("b"), info), map["int" := 1], 1, ["a"]) == NoResult
    ensures Explore(all, info, maxDepth, Indexed(ThreeInts("b"), info), map[], 1, ["a"]) == NoResult
  {
    ThreeIntsArgs("b");
    assert Intersect(map["int" := 1], map["int" := 3]) == map["int" := 1];
    assert Intersect(map[], map["int" := 3]) == map[];
    SumSingle("int", 1);
    SumEmpty();
    ExploreAbandons(all, info, 0, Indexed(ThreeInts("a"), info), map[], 1, ["a"]);
    ExploreAbandons(all, info, maxDepth, Indexed(ThreeInts("b"), info), map["int" := 1], 1, ["a"]);
    ExploreAbandons(all, info, maxDepth, Indexed(ThreeInts("b"), info), map[], 1, ["a"]);
  }

  /** The message of a leaf keeping three ints, reached through a -> b. */
  lemma LeafMessageExample()
    ensures LeafMessage(map["int" := 3], ["a", "b"])
            == "make struct with arguments: int, int, int, for call stack: a -> b"
  {
    LeafArgsSingle("int", 3);
    assert Repeat("int", 3) == ["int", "int", "int"];
    FormatMessageExample();
  }

  lemma FormatMessageExample()
    ensures FormatMessage(["int", "int", "int"], ["a", "b"])
            == "make struct with arguments: int, int, int, for call stack: a -> b"
  {
    JoinIntsExample();
    JoinStackExample();
  }

  lemma JoinIntsExample()
    ensures Join(["int", "int", "int"], ", ") == "int, int, int"
  {
    assert ["int", "int", "int"][1..] == ["int", "int"];
    assert ["int", "int"][1..] == ["int"];
    assert Join(["int", "int"], ", ") == "int, int";
  }

  lemma JoinStackExample()
    ensures Join(["a", "b"], " -> ") == "a -> b"
  {
    assert ["a", "b"][1..] == ["b"];
  }

  lemma ExploreTestLeaf(all: Index, info: nat)
    ensures Explore(all, info, 0, Indexed(ThreeInts("b"), info), map["int" := 3], 0, ["a"])
            == ChainResult(["a", "b"], "make struct with arguments: int, int, int, for call stack: a -> b",
                           Some(ThreeInts("b")))
  {
    var b := ThreeInts("b");
    ThreeIntsArgs("b");
    assert Intersect(map["int" := 3], map["int" := 3]) == map["int" := 3];
    SumSingle("int", 3);
    ExploreLeaf(all, info, 0, b, map["int" := 3], 0, ["a"]);
    assert ["a"] + [FuncDeclToKey(Some(b))] == ["a", "b"];
    LeafMessageExample();
  }

  /** `func (T) M(a, b, c int)` with no calls, and `func root(a, b, c int) { t.M() }` with `t` of type T. */
  function MethodM(): FuncDecl
  {
    FuncDecl(Some(Named("T")), "M", [Field("int", 3)], [])
  }

  function RootCallingM(): FuncDecl
  {
    FuncDecl(None, "root", [Field("int", 3)], [CallExpr(Selector(Some(Named("T")), Some("M")))])
  }

  lemma RootCallingMParams()
    ensures ArgsMap(RootCallingM().params) == map["int" := 3]
    ensures ParamUnits(RootCallingM().params) == 3
  {
    assert RootCallingM().params[..0] == [];
  }

  /** The root's only call site decides its results. */
  lemma RootCallingMResults(all: Index, info: nat, maxDepth: int)
    ensures RootResults(all, info, maxDepth, 2, RootCallingM())
            == RootAt(all, info, maxDepth, "root", map["int" := 3], RootCallingM().calls[0])
  {
    var root := RootCallingM();
    RootCallingMParams();
    assert root.calls[..0] == [];
    assert FuncDeclToKey(Some(root)) == "root";
    assert RootCalls(all, info, maxDepth, "root", map["int" := 3], root.calls[..0]) == [];
  }

  /** The call `t.M()` resolves to the key T.M, the key of MethodM. */
  lemma CallOfM()
    ensures CallExprToKey(Some(RootCallingM().calls[0])) == ("T.M", true)
    ensures FuncDeclToKey(Some(MethodM())) == "T.M"
    ensures ArgsMap(MethodM().params) == map["int" := 3]
  {
    assert "T" + "." + "M" == "T.M";
    assert MethodM().params[..0] == [];
  }

  /**
   * A method indexed while analysing one package and called from a root of
   * the next: the call still resolves to the key T.M, but the entry is typed
   * by the earlier run, so the root finds no chain.
   */
  lemma StaleMethodExample(maxDepth: int)
    ensures RootResults(map["T.M" := Indexed(MethodM(), 1)], 2, maxDepth, 2, RootCallingM()) == []
  {
    var stale := map["T.M" := Indexed(MethodM(), 1)];
    RootCallingMResults(stale, 2, maxDepth);
    CallOfM();
    StaleCalleeAbandons(stale, 2, maxDepth, stale["T.M"], map["int" := 3], 1, ["root"]);
  }

  lemma RootMMessage()
    ensures LeafMessage(map["int" := 3], ["root", "T.M"])
            == "make struct with arguments: int, int, int, for call stack: root -> T.M"
  {
    LeafArgsSingle("int", 3);
    assert Repeat("int", 3) == ["int", "int", "int"];
    FormatRootExample();
  }

  lemma FormatRootExample()
    ensures FormatMessage(["int", "int", "int"], ["root", "T.M"])
            == "make struct with arguments: int, int, int, for call stack: root -> T.M"
  {
    JoinIntsExample();
    JoinRootExample();
    assert FormatMessage(["int", "int", "int"], ["root", "T.M"])
        == "make struct with arguments: " + "int, int, int" + ", for call stack: " + "root -> T.M";
    RootMessageText();
  }

  lemma RootMessageText()
    ensures "make struct with arguments: " + "int, int, int" + ", for call stack: " + "root -> T.M"
            == "make struct with arguments: int, int, int, for call stack: root -> T.M"
  {
  }

  lemma JoinRootExample()
    ensures Join(["root", "T.M"], " -> ") == "root -> T.M"
  {
    assert ["root", "T.M"][1..] == ["T.M"];
  }

  /** Explored from the root with three ints, MethodM is a leaf. */
  lemma ExploreMethodM(all: Index, maxDepth: int)
    requires maxDepth >= 1
    ensures Explore(all, 2, maxDepth, Indexed(MethodM(), 2), map["int" := 3], 1, ["root"])
            == ChainResult(["root", "T.M"], "make struct with arguments: int, int, int, for call stack: root -> T.M",
                           Some(MethodM()))
  {
    CallOfM();
    assert Intersect(map["int" := 3], map["int" := 3]) == map["int" := 3];
    SumSingle("int", 3);
    ExploreLeaf(all, 2, maxDepth, MethodM(), map["int" := 3], 1, ["root"]);
    assert ["root"] + ["T.M"] == ["root", "T.M"];
    RootMMessage();
  }

  /** Had the same run indexed T.M, the root would find the chain root -> T.M. */
  lemma CurrentMethodExample(maxDepth: int)
    requires maxDepth >= 1
    ensures RootResults(map["T.M" := Indexed(MethodM(), 2)], 2, maxDepth, 2, RootCallingM())
            == [ChainResult(["root", "T.M"], "make struct with arguments: int, int, int, for call stack: root -> T.M",
                            Some(MethodM()))]
  {
    var current := map["T.M" := Indexed(MethodM(), 2)];
    RootCallingMResults(current, 2, maxDepth);
    CallOfM();
    ExploreMethodM(current, maxDepth);
  }
}
