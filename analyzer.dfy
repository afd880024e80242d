/**
 * ParamAnalyzer: the analyzer's state (the declaration index `all` and the
 * accumulated `results`) and the operations that run the Go loops over it.
 * Each method is proved to compute what the specification functions of
 * Explorer and Reducer say.
 */
module Analyzer {
  import opened Wrappers
  import opened Ast
  import opened Keys
  import opened Strs
  import opened Args
  import opened Explorer
  import opened Reducer

  /** A diagnostic for the host: the leaf declaration (its position) and the message. */
  datatype Diagnostic = Diagnostic(leaf: FuncDecl, msg: string)

  /**
   * One step of addNodeDecls in run `info`: an eligible declaration is
   * stored under its key, replacing any earlier entry.
   */
  function IndexDecl(all: Index, info: nat, minParams: int, d: FuncDecl): Index
  {
    if ParamUnits(d.params) < minParams then all else all[FuncDeclToKey(Some(d)) := Indexed(d, info)]
  }

  /** addNodeDecls run over the declarations in order. */
  function IndexDecls(all: Index, info: nat, minParams: int, decls: seq<FuncDecl>): Index
  {
    if |decls| == 0 then all
    else IndexDecl(IndexDecls(all, info, minParams, decls[..|decls| - 1]), info, minParams, decls[|decls| - 1])
  }

  /** A declaration that reaches the parameter minimum. */
  predicate Eligible(d: FuncDecl, minParams: int)
  {
    ParamUnits(d.params) >= minParams
  }

  /** Indexing keeps every declaration under its own key. */
  lemma {:induction false} IndexDeclsConsistent(all: Index, info: nat, minParams: int, decls: seq<FuncDecl>)
    requires KeysConsistent(all)
    ensures KeysConsistent(IndexDecls(all, info, minParams, decls))
  {
    if |decls| > 0 {
      IndexDeclsConsistent(all, info, minParams, decls[..|decls| - 1]);
    }
  }

  /**
   * Every entry after indexing is either an untouched earlier entry or an
   * eligible declaration of the pass stored under its key with this run's
   * type information: a declaration below the minimum is never inserted.
   */
  lemma {:induction false} IndexDeclsEntries(all: Index, info: nat, minParams: int, decls: seq<FuncDecl>, k: string)
    requires k in IndexDecls(all, info, minParams, decls)
    ensures || (k in all && IndexDecls(all, info, minParams, decls)[k] == all[k])
            || exists i :: 0 <= i < |decls| && Eligible(decls[i], minParams) && FuncDeclToKey(Some(decls[i])) == k
                           && IndexDecls(all, info, minParams, decls)[k] == Indexed(decls[i], info)
  {
    if |decls| > 0 {
      var prefix := decls[..|decls| - 1];
      var d := decls[|decls| - 1];
      if Eligible(d, minParams) && FuncDeclToKey(Some(d)) == k {
        assert decls[|decls| - 1] == d;
      } else {
        IndexDeclsEntries(all, info, minParams, prefix, k);
        if !(k in all && IndexDecls(all, info, minParams, prefix)[k] == all[k]) {
          var i :| 0 <= i < |prefix| && Eligible(prefix[i], minParams) && FuncDeclToKey(Some(prefix[i])) == k
                   && IndexDecls(all, info, minParams, prefix)[k] == Indexed(prefix[i], info);
          assert decls[i] == prefix[i];
        }
      }
    }
  }

  /**
   * The last eligible declaration with a given key wins: a later declaration
   * with the same key overwrites the earlier entry.
   */
  lemma {:induction false} IndexDeclsLastWins(all: Index, info: nat, minParams: int, decls: seq<FuncDecl>, i: int)
    requires 0 <= i < |decls| && Eligible(decls[i], minParams)
    requires forall j :: i < j < |decls| && Eligible(decls[j], minParams) ==>
               FuncDeclToKey(Some(decls[j])) != FuncDeclToKey(Some(decls[i]))
    ensures var k := FuncDeclToKey(Some(decls[i]));
            k in IndexDecls(all, info, minParams, decls)
            && IndexDecls(all, info, minParams, decls)[k] == Indexed(decls[i], info)
  {
    var prefix := decls[..|decls| - 1];
    if i < |decls| - 1 {
      assert prefix[i] == decls[i];
      assert forall j :: i < j < |prefix| ==> prefix[j] == decls[j];
      IndexDeclsLastWins(all, info, minParams, prefix, i);
    }
  }

  /** The diagnostics reported for a list of chains: those with a message and a leaf. */
  function Diagnostics(chains: seq<ChainResult>): seq<Diagnostic>
  {
    if |chains| == 0 then []
    else
      var c := chains[|chains| - 1];
      Diagnostics(chains[..|chains| - 1])
      + (if c.msg != "" && c.leafFunc.Some? then [Diagnostic(c.leafFunc.value, c.msg)] else [])
  }

  /** A chain that run reports: one with a message and a leaf. */
  predicate Reportable(r: ChainResult)
  {
    r.msg != "" && r.leafFunc.Some?
  }

  /** Every chain of the root callback is reportable. */
  lemma AllRootResultsReportable(all: Index, info: nat, maxDepth: int, minParams: int, decls: seq<FuncDecl>)
    ensures forall r :: r in AllRootResults(all, info, maxDepth, minParams, decls) ==> Reportable(r)
  {
    if |decls| > 0 {
      AllRootResultsReportable(all, info, maxDepth, minParams, decls[..|decls| - 1]);
    }
  }

  /** Reporting drops nothing from a list of reportable chains and keeps their order. */
  lemma {:induction false} DiagnosticsOfReportable(chains: seq<ChainResult>)
    requires forall i :: 0 <= i < |chains| ==> Reportable(chains[i])
    ensures |Diagnostics(chains)| == |chains|
    ensures forall i :: 0 <= i < |chains| ==>
              chains[i].leafFunc.Some? && Diagnostics(chains)[i] == Diagnostic(chains[i].leafFunc.value, chains[i].msg)
  {
    if |chains| > 0 {
      var prefix := chains[..|chains| - 1];
      assert forall i :: 0 <= i < |prefix| ==> prefix[i] == chains[i];
      DiagnosticsOfReportable(prefix);
    }
  }

  /**
   * Once any reportable chain is in the results, every later reduction
   * reports something, whatever the declarations of the run were.
   */
  lemma StaleChainsReported(results: seq<ChainResult>, kept: seq<ChainResult>)
    requires |results| > 0 && forall r :: r in results ==> Reportable(r)
    requires IsMaxChains(results, kept)
    ensures |Diagnostics(kept)| > 0
  {
    assert results[0] in results;
    assert Covered(results[0], kept);
    assert forall i :: 0 <= i < |kept| ==> kept[i] in kept;
    DiagnosticsOfReportable(kept);
  }

  /** With no results there is nothing to report. */
  lemma NoResultsNoDiagnostics(kept: seq<ChainResult>)
    requires IsMaxChains([], kept)
    ensures Diagnostics(kept) == []
  {
  }

  /** The foundCount loop of getChains. */
  method CountOccurrences(stack: seq<string>, key: string) returns (n: nat)
    ensures n == Occurrences(stack, key)
  {
    n := 0;
    for i := 0 to |stack|
      invariant n == Occurrences(stack[..i], key)
    {
      assert stack[..i + 1][..i] == stack[..i];
      if stack[i] == key {
        n := n + 1;
      }
    }
    assert stack[..|stack|] == stack;
  }

  /** The argsStr loop of the leaf case: every surviving type, repeated by its count. */
  method ExpandArgs(inter: ArgMap) returns (argsStr: seq<string>)
    ensures multiset(argsStr) == Units(inter)
  {
    argsStr := [];
    var rest := inter;
    while |rest| > 0
      invariant rest.Keys <= inter.Keys
      invariant forall t :: t in rest ==> rest[t] == inter[t]
      invariant forall t :: multiset(argsStr)[t] == (if t in inter && t !in rest then inter[t] else 0)
      decreases |rest|
    {
      var t :| t in rest;
      var n := rest[t];
      for j := 0 to n
        invariant forall u :: multiset(argsStr)[u] ==
                    (if u in inter && u !in rest then inter[u] else 0) + (if u == t then j else 0)
      {
        argsStr := argsStr + [t];
      }
      rest := rest - {t};
    }
    forall t ensures multiset(argsStr)[t] == Units(inter)[t] {
      UnitsAt(inter, t);
    }
  }

  /** The scan for the first longest chain (maxResult). */
  method LongestChain(chains: seq<ChainResult>) returns (maxResult: ChainResult)
    requires |chains| > 0
    ensures maxResult == chains[FirstLongest(chains)]
  {
    maxResult := chains[0];
    for i := 1 to |chains|
      invariant maxResult == chains[FirstLongest(chains[..i])]
    {
      assert chains[..i + 1][..i] == chains[..i];
      assert forall j :: 0 <= j < i ==> chains[..i][j] == chains[j];
      if |chains[i].callStack| > |maxResult.callStack| {
        maxResult := chains[i];
      }
    }
    assert chains[..|chains|] == chains;
  }

  /** The reporting loop of run. */
  method ReportChains(chains: seq<ChainResult>) returns (diags: seq<Diagnostic>)
    ensures diags == Diagnostics(chains)
  {
    diags := [];
    for i := 0 to |chains|
      invariant diags == Diagnostics(chains[..i])
    {
      assert chains[..i + 1][..i] == chains[..i];
      var res := chains[i];
      if res.msg != "" && res.leafFunc.Some? {
        diags := diags + [Diagnostic(res.leafFunc.value, res.msg)];
      }
    }
    assert chains[..|chains|] == chains;
  }

  /**
   * The second pass over one more declaration appends that declaration's
   * chains: results holding the chains of the first i declarations, extended
   * by those of the next, hold the chains of the first i + 1.
   */
  lemma AllRootResultsStep(all: Index, info: nat, maxDepth: int, minParams: int, decls: seq<FuncDecl>, i: int,
                           start: seq<ChainResult>, before: seq<ChainResult>, after: seq<ChainResult>)
    requires 0 <= i < |decls|
    requires before == start + AllRootResults(all, info, maxDepth, minParams, decls[..i])
    requires after == before + RootResults(all, info, maxDepth, minParams, decls[i])
    ensures after == start + AllRootResults(all, info, maxDepth, minParams, decls[..i + 1])
  {
    var prefix := decls[..i + 1];
    assert prefix[..|prefix| - 1] == decls[..i];
    assert prefix[|prefix| - 1] == decls[i];
    var earlier := AllRootResults(all, info, maxDepth, minParams, decls[..i]);
    var next := RootResults(all, info, maxDepth, minParams, decls[i]);
    assert AllRootResults(all, info, maxDepth, minParams, prefix) == earlier + next;
    AppendAssociative(start, earlier, next);
  }

  lemma AppendAssociative<T>(a: seq<T>, b: seq<T>, c: seq<T>)
    ensures (a + b) + c == a + (b + c)
  {
  }

  /**
   * With every earlier entry indexed by an earlier run, the chains found by
   * the root callback in run `info` all end at a declaration of this run's
   * package: a declaration left in the index by an earlier package is never
   * part of a reported chain's leaf.
   */
  lemma PackageLeaves(all: Index, info: nat, maxDepth: int, minParams: int, decls: seq<FuncDecl>)
    requires forall k :: k in all ==> all[k].info < info
    ensures var indexed := IndexDecls(all, info, minParams, decls);
            forall r :: r in AllRootResults(indexed, info, maxDepth, minParams, decls) ==>
              r.leafFunc.Some? && r.leafFunc.value in decls
  {
    var indexed := IndexDecls(all, info, minParams, decls);
    AllRootResultsLeafIndexed(indexed, info, maxDepth, minParams, decls);
    forall r | r in AllRootResults(indexed, info, maxDepth, minParams, decls)
      ensures r.leafFunc.Some? && r.leafFunc.value in decls
    {
      var k :| k in indexed && indexed[k] == Indexed(r.leafFunc.value, info);
      IndexDeclsEntries(all, info, minParams, decls, k);
    }
  }

  class ParamAnalyzer {
    /** Every indexed declaration, by key, with the run that indexed it. */
    var all: Index
    /** Every chain found so far. */
    var results: seq<ChainResult>
    /**
     * The type information in use (`info`), numbered by run: each run
     * installs the type information of the package it analyses.
     */
    var info: nat
    const minRequiredParams: int
    const maxRecursionDepth: int

    /**
     * Entries are stored under their own keys and come from this run or an
     * earlier one; results are chains with a message and a leaf.
     */
    ghost predicate Valid()
      reads this
    {
      && KeysConsistent(all)
      && (forall k :: k in all ==> all[k].info <= info)
      && forall r :: r in results ==> Reportable(r)
    }

    /** AnalyzerWithConfig: an empty index, no results, no type information yet, the two settings. */
    constructor (minRequiredParams: int, maxRecursionDepth: int)
      ensures Valid() && all == map[] && results == [] && info == 0
      ensures this.minRequiredParams == minRequiredParams && this.maxRecursionDepth == maxRecursionDepth
    {
      all := map[];
      results := [];
      info := 0;
      this.minRequiredParams := minRequiredParams;
      this.maxRecursionDepth := maxRecursionDepth;
    }

    /** The addNodeDecls callback for one declaration. */
    method AddNodeDecl(d: FuncDecl)
      requires Valid()
      modifies this`all
      ensures Valid()
      ensures all == IndexDecl(old(all), info, minRequiredParams, d)
    {
      var totalParams := CountParams(d.params);
      if totalParams < minRequiredParams {
        return;
      }
      var k := FuncDeclToKey(Some(d));
      all := all[k := Indexed(d, info)];
    }

    /** The first inspector pass: addNodeDecls over every declaration. */
    method AddNodeDecls(decls: seq<FuncDecl>)
      requires Valid()
      modifies this`all
      ensures Valid()
      ensures all == IndexDecls(old(all), info, minRequiredParams, decls)
    {
      for i := 0 to |decls|
        invariant Valid()
        invariant all == IndexDecls(old(all), info, minRequiredParams, decls[..i])
      {
        assert decls[..i + 1][..i] == decls[..i];
        AddNodeDecl(decls[i]);
      }
      assert decls[..|decls|] == decls;
    }

    /**
     * recurseCheckDeep: computes Explore over the current index. The
     * parameter loop finds a type for every field of a declaration indexed
     * under the current type information, and none for any other.
     */
    method RecurseCheckDeep(current: Indexed, args: ArgMap, depth: int, callStack: seq<string>)
      returns (res: ChainResult)
      ensures res == Explore(all, info, maxRecursionDepth, current, args, depth, callStack)
      decreases Budget(maxRecursionDepth, depth), 1, 0
    {
      if depth > maxRecursionDepth {
        return NoResult;
      }
      var currentFunc := current.decl;
      var currentFuncKey := FuncDeclToKey(Some(currentFunc));
      var newCallStack := callStack + [currentFuncKey];
      var currentFuncArgs: ArgMap := map[];
      if current.info == info {
        currentFuncArgs := InitArgsMap(currentFunc.params);
      }
      var intersectedArgs := IntersectArgs(args, currentFuncArgs);
      var total := TotalParams(intersectedArgs);
      if total < MinSharedArgs {
        return NoResult;
      }
      if |currentFunc.calls| == 0 {
        var argsStr := ExpandArgs(intersectedArgs);
        SortStringsCanonical(argsStr, ArgList(intersectedArgs));
        argsStr := SortStrings(argsStr);
        var msg := FormatMessage(argsStr, newCallStack);
        return ChainResult(newCallStack, msg, Some(currentFunc));
      }
      var chains := GetChains(currentFunc.calls, newCallStack, intersectedArgs, depth);
      if |chains| == 0 {
        return NoResult;
      }
      res := LongestChain(chains);
    }

    /** getChains: the results of the call sites of one declaration, in order. */
    method GetChains(calls: seq<CallExpr>, newCallStack: seq<string>, intersectedArgs: ArgMap, depth: int)
      returns (chains: seq<ChainResult>)
      ensures chains == Branches(all, info, maxRecursionDepth, calls, newCallStack, intersectedArgs, depth)
      decreases Budget(maxRecursionDepth, depth + 1), 2, 0
    {
      chains := [];
      for i := 0 to |calls|
        invariant chains == Branches(all, info, maxRecursionDepth, calls[..i], newCallStack, intersectedArgs, depth)
      {
        assert calls[..i + 1][..i] == calls[..i];
        var (calledKey, ok) := CallExprToKey(Some(calls[i]));
        if ok {
          var foundCount := CountOccurrences(newCallStack, calledKey);
          if foundCount < 2 && calledKey in all {
            var res := RecurseCheckDeep(all[calledKey], intersectedArgs, depth + 1, newCallStack);
            if res.msg != "" {
              chains := chains + [res];
            }
          }
        }
      }
      assert calls[..|calls|] == calls;
    }

    /** The root callback for one declaration: appends the chains found from each of its call sites. */
    method ProcessFuncDecl(funcDecl: FuncDecl)
      requires Valid()
      modifies this`results
      ensures Valid()
      ensures results == old(results) + RootResults(all, info, maxRecursionDepth, minRequiredParams, funcDecl)
    {
      var totalParams := CountParams(funcDecl.params);
      if totalParams < minRequiredParams {
        return;
      }
      var k := FuncDeclToKey(Some(funcDecl));
      var args := InitArgsMap(funcDecl.params);
      var found := RootCallsOf(k, args, funcDecl.calls);
      AllRootResultsReportable(all, info, maxRecursionDepth, minRequiredParams, [funcDecl]);
      results := results + found;
    }

    /** The call-site loop of the root callback: the chains found from each call site, in order. */
    method RootCallsOf(k: string, args: ArgMap, calls: seq<CallExpr>) returns (found: seq<ChainResult>)
      ensures found == RootCalls(all, info, maxRecursionDepth, k, args, calls)
    {
      found := [];
      for i := 0 to |calls|
        invariant found == RootCalls(all, info, maxRecursionDepth, k, args, calls[..i])
      {
        assert calls[..i + 1][..i] == calls[..i];
        var rs := RootCall(k, args, calls[i]);
        found := found + rs;
      }
      assert calls[..|calls|] == calls;
    }

    /** One iteration of the root callback's call-site loop. */
    method RootCall(k: string, args: ArgMap, call: CallExpr) returns (rs: seq<ChainResult>)
      ensures rs == RootAt(all, info, maxRecursionDepth, k, args, call)
      ensures forall r :: r in rs ==> Reportable(r)
    {
      rs := [];
      var (lowerK, ok) := CallExprToKey(Some(call));
      if ok && lowerK in all {
        var res := RecurseCheckDeep(all[lowerK], args, 1, [k]);
        if res.msg != "" && res.leafFunc.Some? {
          rs := [res];
        }
      }
    }

    /** The second inspector pass: the root callback over every declaration. */
    method ProcessFuncDecls(decls: seq<FuncDecl>)
      requires Valid()
      modifies this`results
      ensures Valid()
      ensures results == old(results) + AllRootResults(all, info, maxRecursionDepth, minRequiredParams, decls)
    {
      for i := 0 to |decls|
        invariant Valid()
        invariant results == old(results) + AllRootResults(all, info, maxRecursionDepth, minRequiredParams, decls[..i])
      {
        ghost var before := results;
        ProcessFuncDecl(decls[i]);
        AllRootResultsStep(all, info, maxRecursionDepth, minRequiredParams, decls, i, old(results), before, results);
      }
      assert decls[..|decls|] == decls;
    }

    /**
     * run over one package's declarations: install the package's type
     * information, index the declarations (on top of the index left by
     * earlier runs), explore from every eligible declaration (appending to
     * the results of earlier runs), reduce all results to the maximal chains
     * and report each. The chains this run appends all end at a declaration
     * of this package.
     */
    method Run(decls: seq<FuncDecl>) returns (diags: seq<Diagnostic>)
      requires Valid()
      modifies this`all, this`results, this`info
      ensures Valid()
      ensures info == old(info) + 1
      ensures all == IndexDecls(old(all), info, minRequiredParams, decls)
      ensures results == old(results) + AllRootResults(all, info, maxRecursionDepth, minRequiredParams, decls)
      ensures forall r :: r in results[|old(results)|..] ==> r.leafFunc.Some? && r.leafFunc.value in decls
      ensures exists kept :: IsMaxChains(results, kept) && diags == Diagnostics(kept)
    {
      info := info + 1;
      PackageLeaves(all, info, maxRecursionDepth, minRequiredParams, decls);
      ghost var before := results;
      AddNodeDecls(decls);
      ProcessFuncDecls(decls);
      assert results[|before|..] == AllRootResults(all, info, maxRecursionDepth, minRequiredParams, decls);
      var maxChains := FilterMaxChains(results);
      diags := ReportChains(maxChains);
    }

    /**
     * run as the analyzer is meant to behave: every run starts from an empty
     * index and no results, so only this package's chains are reported.
     */
    method RunFresh(decls: seq<FuncDecl>) returns (diags: seq<Diagnostic>)
      modifies this`all, this`results, this`info
      ensures Valid()
      ensures info == old(info) + 1
      ensures all == IndexDecls(map[], info, minRequiredParams, decls)
      ensures results == AllRootResults(all, info, maxRecursionDepth, minRequiredParams, decls)
      ensures exists kept :: IsMaxChains(results, kept) && diags == Diagnostics(kept)
    {
      all := map[];
      results := [];
      diags := Run(decls);
    }
  }

  /** Analyzer: the settings used when none are configured. */
  method DefaultAnalyzer() returns (m: ParamAnalyzer)
    ensures fresh(m) && m.Valid() && m.all == map[] && m.results == [] && m.info == 0
    ensures m.minRequiredParams == 2 && m.maxRecursionDepth == 10
  {
    m := new ParamAnalyzer(2, 10);
  }

  /**
   * An analyzer that has reported once reports again on a package with no
   * declarations at all: the earlier package's chains are still in `results`.
   */
  method StaleRunWitness(a: ParamAnalyzer) returns (diags: seq<Diagnostic>)
    requires a.Valid() && |a.results| > 0
    modifies a
    ensures |diags| > 0
  {
    diags := a.Run([]);
    ghost var kept :| IsMaxChains(a.results, kept) && diags == Diagnostics(kept);
    StaleChainsReported(a.results, kept);
  }

  /** With RunFresh, a package with no declarations reports nothing. */
  method FreshRunWitness(a: ParamAnalyzer) returns (diags: seq<Diagnostic>)
    modifies a
    ensures diags == []
  {
    diags := a.RunFresh([]);
    ghost var kept :| IsMaxChains(a.results, kept) && diags == Diagnostics(kept);
    NoResultsNoDiagnostics(kept);
  }
}
