/**
 * The chain reducer: isSubChainOf and filterMaxChains. Chains are sorted by
 * stack length, longest first, and kept unless their stack lies inside an
 * already kept, longer stack or repeats an already kept stack.
 */
module Reducer {
  import opened Wrappers
  import opened Strs
  import opened Explorer

  /** `sub` occurs in `main` starting at offset `i`. */
  predicate OccursAt(sub: seq<string>, main: seq<string>, i: int)
  {
    0 <= i && i + |sub| <= |main| && main[i..i + |sub|] == sub
  }

  /**
   * Sub-chain containment: `sub` is strictly shorter than `main` and is a
   * contiguous run of it. A stack is never a sub-chain of itself.
   */
  predicate IsSubChain(sub: seq<string>, main: seq<string>)
  {
    |sub| < |main| && exists i :: 0 <= i <= |main| - |sub| && OccursAt(sub, main, i)
  }

  /** isSubChainOf: try every offset, comparing element by element. */
  method IsSubChainOf(sub: seq<string>, main: seq<string>) returns (found: bool)
    ensures found == IsSubChain(sub, main)
  {
    if |sub| >= |main| {
      return false;
    }
    var i := 0;
    while i <= |main| - |sub|
      invariant 0 <= i <= |main| - |sub| + 1
      invariant forall k :: 0 <= k < i ==> !OccursAt(sub, main, k)
    {
      var matched := true;
      var j := 0;
      while j < |sub| && matched
        invariant 0 <= j <= |sub|
        invariant matched == (forall l :: 0 <= l < j ==> sub[l] == main[i + l])
        invariant !matched ==> !OccursAt(sub, main, i)
      {
        if sub[j] != main[i + j] {
          assert main[i..i + |sub|][j] != sub[j];
          matched := false;
        }
        j := j + 1;
      }
      if matched {
        assert forall l :: 0 <= l < |sub| ==> main[i..i + |sub|][l] == sub[l];
        assert OccursAt(sub, main, i);
        return true;
      }
      i := i + 1;
    }
    return false;
  }

  /** The empty stack lies inside every non-empty stack (the offset loop matches at once). */
  lemma EmptyIsSubChain(main: seq<string>)
    ensures IsSubChain([], main) <==> |main| > 0
  {
    if |main| > 0 {
      assert OccursAt([], main, 0);
    }
  }

  /** The cases of isSubChainOf's own tests. */
  lemma IsSubChainTestCases()
    ensures !IsSubChain(["a", "b", "c", "d"], ["a", "b", "c"])
    ensures !IsSubChain(["a", "b", "c"], ["a", "b", "c"])
    ensures IsSubChain(["b", "c", "d"], ["a", "b", "c", "d", "e"])
    ensures !IsSubChain(["a", "c", "e"], ["a", "b", "c", "d", "e"])
    ensures IsSubChain(["a", "b"], ["a", "b", "c", "d"])
    ensures IsSubChain(["c", "d"], ["a", "b", "c", "d"])
  {
    var main := ["a", "b", "c", "d", "e"];
    assert OccursAt(["b", "c", "d"], main, 1) by { assert main[1..4] == ["b", "c", "d"]; }
    forall i | 0 <= i <= 2 ensures !OccursAt(["a", "c", "e"], main, i) {
      assert main[i..i + 3][1] == main[i + 1];
    }
    assert OccursAt(["a", "b"], ["a", "b", "c", "d"], 0) by { assert ["a", "b", "c", "d"][0..2] == ["a", "b"]; }
    assert OccursAt(["c", "d"], ["a", "b", "c", "d"], 2) by { assert ["a", "b", "c", "d"][2..4] == ["c", "d"]; }
  }

  /** A stack inside a stack inside a third lies inside the third. */
  lemma SubChainTransitive(a: seq<string>, b: seq<string>, c: seq<string>)
    requires IsSubChain(a, b) && IsSubChain(b, c)
    ensures IsSubChain(a, c)
  {
    var i :| 0 <= i <= |b| - |a| && OccursAt(a, b, i);
    var j :| 0 <= j <= |c| - |b| && OccursAt(b, c, j);
    var window := c[i + j..i + j + |a|];
    assert window == a by {
      forall k | 0 <= k < |a| ensures window[k] == a[k] {
        assert c[j..j + |b|][i + k] == b[i + k];
        assert b[i..i + |a|][k] == b[i + k];
      }
    }
    assert OccursAt(a, c, i + j);
  }

  /** The key that deduplicates stacks: the keys joined with "->". */
  function JoinKey(stack: seq<string>): string
  {
    Join(stack, "->")
  }

  /** Stack lengths never increase along the sequence. */
  ghost predicate LongestFirst(cs: seq<ChainResult>)
  {
    forall i, j :: 0 <= i < j < |cs| ==> |cs[i].callStack| >= |cs[j].callStack|
  }

  /** Inserts `c` before the first chain whose stack is no longer than its own. */
  function InsertByLength(c: ChainResult, cs: seq<ChainResult>): (r: seq<ChainResult>)
    requires LongestFirst(cs)
    ensures LongestFirst(r) && multiset(r) == multiset(cs) + multiset{c}
  {
    if |cs| == 0 then [c]
    else if |c.callStack| >= |cs[0].callStack| then [c] + cs
    else
      var rest := InsertByLength(c, cs[1..]);
      assert cs == [cs[0]] + cs[1..];
      InsertedBelowHead(c, cs, rest);
      [cs[0]] + rest
  }

  /** Everything in `c` inserted into the tail is no longer than the head. */
  lemma InsertedBelowHead(c: ChainResult, cs: seq<ChainResult>, rest: seq<ChainResult>)
    requires LongestFirst(cs) && |cs| > 0 && |c.callStack| < |cs[0].callStack|
    requires multiset(rest) == multiset(cs[1..]) + multiset{c}
    ensures forall j :: 0 <= j < |rest| ==> |cs[0].callStack| >= |rest[j].callStack|
  {
    forall j | 0 <= j < |rest| ensures |cs[0].callStack| >= |rest[j].callStack| {
      assert rest[j] in multiset(rest);
      if rest[j] != c {
        assert rest[j] in multiset(cs[1..]);
        var k :| 0 <= k < |cs[1..]| && cs[1..][k] == rest[j];
        assert cs[k + 1] == rest[j];
      }
    }
  }

  /** sort.Slice by descending stack length; the order among equal lengths is not promised. */
  function SortByLength(cs: seq<ChainResult>): (r: seq<ChainResult>)
    ensures LongestFirst(r) && multiset(r) == multiset(cs)
  {
    if |cs| == 0 then []
    else
      assert cs == cs[..|cs| - 1] + [cs[|cs| - 1]];
      InsertByLength(cs[|cs| - 1], SortByLength(cs[..|cs| - 1]))
  }

  /** An input chain is accounted for by the kept ones: it lies inside one, or repeats one's joined stack. */
  ghost predicate Covered(c: ChainResult, kept: seq<ChainResult>)
  {
    exists j :: 0 <= j < |kept| && (IsSubChain(c.callStack, kept[j].callStack) || JoinKey(c.callStack) == JoinKey(kept[j].callStack))
  }

  /** No kept stack lies inside another, and no two have the same joined stack. */
  ghost predicate Independent(kept: seq<ChainResult>)
  {
    forall i, j :: 0 <= i < |kept| && 0 <= j < |kept| && i != j ==>
      !IsSubChain(kept[i].callStack, kept[j].callStack) && JoinKey(kept[i].callStack) != JoinKey(kept[j].callStack)
  }

  /** slices.ContainsFunc(result, isSubChainOf(stack, _)). */
  method ContainsSuperChain(kept: seq<ChainResult>, stack: seq<string>) returns (found: bool)
    ensures found <==> exists j :: 0 <= j < |kept| && IsSubChain(stack, kept[j].callStack)
  {
    found := false;
    var j := 0;
    while j < |kept| && !found
      invariant 0 <= j <= |kept|
      invariant found <==> exists k :: 0 <= k < j && IsSubChain(stack, kept[k].callStack)
    {
      found := IsSubChainOf(stack, kept[j].callStack);
      j := j + 1;
    }
  }

  /** Every kept stack is at least as long as every stack not yet visited. */
  ghost predicate NoShorterKept(kept: seq<ChainResult>, sorted: seq<ChainResult>, i: int)
  {
    forall j, k :: 0 <= j < |kept| && 0 <= i <= k < |sorted| ==> |kept[j].callStack| >= |sorted[k].callStack|
  }

  /** `seen` holds exactly the joined stacks of the kept chains. */
  ghost predicate SeenKeys(seen: set<string>, kept: seq<ChainResult>)
  {
    forall key :: key in seen <==> exists j :: 0 <= j < |kept| && JoinKey(kept[j].callStack) == key
  }

  /** The visited chains with a message are all accounted for. */
  ghost predicate VisitedCovered(sorted: seq<ChainResult>, i: int, kept: seq<ChainResult>)
  {
    forall k :: 0 <= k < i && k < |sorted| && sorted[k].msg != "" ==> Covered(sorted[k], kept)
  }

  /**
   * What filterMaxChains promises of the chains it keeps: nothing from no
   * chains; only chains of the input that carry a message; longest first;
   * no kept stack inside another, and no two with the same joined stack;
   * and every input chain with a message lies inside, or repeats, one kept.
   */
  ghost predicate IsMaxChains(chains: seq<ChainResult>, kept: seq<ChainResult>)
  {
    && (|chains| == 0 ==> kept == [])
    && (forall r :: r in kept ==> r in chains && r.msg != "")
    && LongestFirst(kept)
    && Independent(kept)
    && (forall c :: c in chains && c.msg != "" ==> Covered(c, kept))
  }

  /**
   * filterMaxChains: empty input gives the empty (nil) result. Otherwise the
   * result holds only input chains with a message, longest first; no kept
   * stack lies inside or repeats another; and every input chain with a
   * message is kept or lies inside, or repeats, a kept one.
   */
  method FilterMaxChains(chains: seq<ChainResult>) returns (result: seq<ChainResult>)
    ensures IsMaxChains(chains, result)
  {
    if |chains| == 0 {
      return [];
    }
    var sorted := SortByLength(chains);
    result := [];
    var seen: set<string> := {};
    for i := 0 to |sorted|
      invariant Kept(sorted, i, result, seen)
    {
      result, seen := VisitChain(sorted, i, result, seen);
    }
    SortedCoversInput(chains, sorted, result);
  }

  /** The loop invariant of filterMaxChains after visiting sorted[..i]. */
  ghost predicate Kept(sorted: seq<ChainResult>, i: int, kept: seq<ChainResult>, seen: set<string>)
  {
    && (forall r :: r in kept ==> r in multiset(sorted) && r.msg != "")
    && LongestFirst(kept) && Independent(kept)
    && NoShorterKept(kept, sorted, i)
    && SeenKeys(seen, kept)
    && VisitedCovered(sorted, i, kept)
  }

  /**
   * One iteration of filterMaxChains: a chain with a message is kept unless
   * its stack lies inside a kept one or its joined stack was seen.
   */
  method VisitChain(sorted: seq<ChainResult>, i: int, kept: seq<ChainResult>, seen: set<string>)
    returns (kept': seq<ChainResult>, seen': set<string>)
    requires 0 <= i < |sorted| && LongestFirst(sorted) && Kept(sorted, i, kept, seen)
    ensures Kept(sorted, i + 1, kept', seen')
  {
    kept', seen' := kept, seen;
    var chain := sorted[i];
    if chain.msg != "" {
      var inside := ContainsSuperChain(kept, chain.callStack);
      var key := Join(chain.callStack, "->");
      if !inside && key !in seen {
        KeepChain(kept, chain, sorted, i, seen);
        kept' := kept + [chain];
        seen' := seen + {key};
      } else if inside {
        var j :| 0 <= j < |kept| && IsSubChain(chain.callStack, kept[j].callStack);
        assert Covered(chain, kept);
      } else {
        var j :| 0 <= j < |kept| && JoinKey(kept[j].callStack) == key;
        assert Covered(chain, kept);
      }
    }
  }

  lemma SortedCoversInput(chains: seq<ChainResult>, sorted: seq<ChainResult>, kept: seq<ChainResult>)
    requires multiset(sorted) == multiset(chains)
    requires VisitedCovered(sorted, |sorted|, kept)
    requires forall r :: r in kept ==> r in multiset(sorted) && r.msg != ""
    ensures forall r :: r in kept ==> r in chains && r.msg != ""
    ensures forall c :: c in chains && c.msg != "" ==> Covered(c, kept)
  {
    forall c | c in chains && c.msg != "" ensures Covered(c, kept) {
      assert c in multiset(sorted);
      var k :| 0 <= k < |sorted| && sorted[k] == c;
    }
  }

  /**
   * Keeping a chain that lies inside no kept stack and whose joined stack is
   * new keeps the kept chains longest first and independent, and every chain
   * visited so far covered.
   */
  lemma KeepChain(kept: seq<ChainResult>, c: ChainResult, sorted: seq<ChainResult>, i: int, seen: set<string>)
    requires 0 <= i < |sorted| && sorted[i] == c
    requires LongestFirst(kept) && Independent(kept) && NoShorterKept(kept, sorted, i)
    requires SeenKeys(seen, kept) && VisitedCovered(sorted, i, kept)
    requires !exists j :: 0 <= j < |kept| && IsSubChain(c.callStack, kept[j].callStack)
    requires JoinKey(c.callStack) !in seen
    requires LongestFirst(sorted)
    ensures LongestFirst(kept + [c]) && Independent(kept + [c])
    ensures NoShorterKept(kept + [c], sorted, i + 1)
    ensures SeenKeys(seen + {JoinKey(c.callStack)}, kept + [c])
    ensures VisitedCovered(sorted, i + 1, kept + [c])
  {
    assert forall j :: 0 <= j < |kept| ==> |kept[j].callStack| >= |c.callStack|;
    KeepIndependent(kept, c);
    KeepOrder(kept, c, sorted, i);
    KeepSeen(kept, c, seen);
    AppendKept(kept, c);
  }

  lemma KeepIndependent(kept: seq<ChainResult>, c: ChainResult)
    requires Independent(kept)
    requires forall j :: 0 <= j < |kept| ==> |kept[j].callStack| >= |c.callStack|
    requires !exists j :: 0 <= j < |kept| && IsSubChain(c.callStack, kept[j].callStack)
    requires forall j :: 0 <= j < |kept| ==> JoinKey(kept[j].callStack) != JoinKey(c.callStack)
    ensures Independent(kept + [c])
  {
    var r := kept + [c];
    forall i, j | 0 <= i < |r| && 0 <= j < |r| && i != j
      ensures !IsSubChain(r[i].callStack, r[j].callStack) && JoinKey(r[i].callStack) != JoinKey(r[j].callStack)
    {
      if i < |kept| && j < |kept| {
        assert r[i] == kept[i] && r[j] == kept[j];
      } else if i < |kept| {
        assert r[i] == kept[i] && r[j] == c;
      } else {
        assert r[i] == c && r[j] == kept[j];
      }
    }
  }

  lemma KeepOrder(kept: seq<ChainResult>, c: ChainResult, sorted: seq<ChainResult>, i: int)
    requires 0 <= i < |sorted| && sorted[i] == c && LongestFirst(sorted)
    requires LongestFirst(kept) && NoShorterKept(kept, sorted, i)
    ensures LongestFirst(kept + [c]) && NoShorterKept(kept + [c], sorted, i + 1)
  {
    var r := kept + [c];
    assert forall j :: 0 <= j < |kept| ==> r[j] == kept[j];
    assert r[|kept|] == c;
  }

  lemma KeepSeen(kept: seq<ChainResult>, c: ChainResult, seen: set<string>)
    requires SeenKeys(seen, kept)
    ensures SeenKeys(seen + {JoinKey(c.callStack)}, kept + [c])
  {
    var r := kept + [c];
    assert forall j :: 0 <= j < |kept| ==> r[j] == kept[j];
    assert r[|kept|] == c;
  }

  /** Appending keeps every earlier chain covered, and covers the appended one. */
  lemma AppendKept(kept: seq<ChainResult>, c: ChainResult)
    ensures forall d :: Covered(d, kept) ==> Covered(d, kept + [c])
    ensures Covered(c, kept + [c])
  {
    forall d | Covered(d, kept) ensures Covered(d, kept + [c]) {
      var j :| 0 <= j < |kept| && (IsSubChain(d.callStack, kept[j].callStack) || JoinKey(d.callStack) == JoinKey(kept[j].callStack));
      assert (kept + [c])[j] == kept[j];
    }
    assert (kept + [c])[|kept|] == c;
  }

  /**
   * The expectations of filterMaxChains' own tests: no input gives no
   * output, a chain without a message is dropped, and of a chain and the
   * stacks inside it only the chain is kept.
   */
  method FilterMaxChainsTestCases()
  {
    var none := FilterMaxChains([]);
    assert none == [];

    var blank := ChainResult([], "", None);
    var message := ChainResult([], "test message", None);
    var one := FilterMaxChains([blank, message]);
    assert message in [blank, message];
    KeptSingle(message, one);
    assert one[0].msg == "test message";

    var long := ChainResult(["a", "b", "c", "d"], "longest chain", None);
    var medium := ChainResult(["a", "b", "c"], "medium chain", None);
    var short := ChainResult(["a", "b"], "short chain", None);
    var kept := FilterMaxChains([short, medium, long]);
    KeptOnlyParent(short, medium, long, kept);
    assert kept == [long];
  }

  lemma JoinKeyExamples()
    ensures JoinKey(["a", "b", "c", "d"]) == "a->b->c->d"
    ensures JoinKey(["a", "b", "c"]) == "a->b->c"
    ensures JoinKey(["a", "b"]) == "a->b"
  {
    assert ["a", "b", "c", "d"][1..] == ["b", "c", "d"];
    assert ["b", "c", "d"][1..] == ["c", "d"];
    assert ["c", "d"][1..] == ["d"];
    assert ["a", "b", "c"][1..] == ["b", "c"];
    assert ["b", "c"][1..] == ["c"];
    assert ["a", "b"][1..] == ["b"];
    assert Join(["c", "d"], "->") == "c->d";
    assert Join(["b", "c"], "->") == "b->c";
    assert Join(["b", "c", "d"], "->") == "b->c->d";
  }

  /** A kept list that covers `x` and holds nothing else holds `x` once. */
  lemma KeptSingle(x: ChainResult, kept: seq<ChainResult>)
    requires forall r :: r in kept ==> r == x
    requires Independent(kept) && Covered(x, kept)
    ensures kept == [x]
  {
    assert |kept| > 0;
    assert kept[0] in kept && kept[|kept| - 1] in kept;
    assert JoinKey(kept[0].callStack) == JoinKey(kept[|kept| - 1].callStack);
  }

  /** A kept list covering a -> b -> c -> d and drawn from it and two of its prefixes is that chain alone. */
  lemma KeptOnlyParent(short: ChainResult, medium: ChainResult, long: ChainResult, kept: seq<ChainResult>)
    requires short.callStack == ["a", "b"] && medium.callStack == ["a", "b", "c"]
    requires long.callStack == ["a", "b", "c", "d"]
    requires forall r :: r in kept ==> r == short || r == medium || r == long
    requires Independent(kept) && Covered(long, kept)
    ensures kept == [long]
  {
    assert OccursAt(short.callStack, long.callStack, 0) by { assert long.callStack[0..2] == short.callStack; }
    assert OccursAt(medium.callStack, long.callStack, 0) by { assert long.callStack[0..3] == medium.callStack; }
    JoinKeyExamples();
    var j :| 0 <= j < |kept| && (IsSubChain(long.callStack, kept[j].callStack) || JoinKey(long.callStack) == JoinKey(kept[j].callStack));
    assert kept[j] in kept;
    assert kept[j] == long;
    forall i | 0 <= i < |kept| ensures kept[i] == long {
      assert kept[i] in kept;
      if i != j {
        assert !IsSubChain(kept[i].callStack, long.callStack);
        assert JoinKey(kept[i].callStack) != JoinKey(long.callStack);
      }
    }
    KeptSingle(long, kept);
  }
}
