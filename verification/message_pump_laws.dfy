// What a pass over the filters guarantees, which callbacks keep it in step, and what happens when one does not.
module MessagePumpLaws {
  import opened Basics
  import opened MessagePump

  // Everything the first n callbacks removed.
  function RemovedBefore(script: Script, k: nat, n: nat): set<nat>
    decreases n - k
  {
    if k >= n then {} else Removed(script(k).ops) + RemovedBefore(script, k + 1, n)
  }

  function Position(xs: seq<nat>, x: nat): nat {
    match IndexOf(xs, x) case None => 0 case Some(i) => i
  }

  // ---- the intended pass ----

  lemma {:induction false} IntendedInOrder(original: seq<nat>, m: nat, removed: set<nat>, k: nat, script: Script)
    requires m <= |original| && NoDuplicates(original)
    ensures var called := Intended(original, m, removed, k, script).0;
            && (forall x :: x in called ==> x in original[..m] && x !in removed)
            && (forall i, j :: 0 <= i < j < |called| ==> Position(original, called[i]) > Position(original, called[j]))
    decreases m
  {
    if m == 0 {
    } else {
      var x := original[m - 1];
      assert original[..m] == original[..m - 1] + [x];
      if x in removed {
        IntendedInOrder(original, m - 1, removed, k, script);
      } else if !script(k).consumed {
        var gone := Removed(script(k).ops);
        IntendedInOrder(original, m - 1, removed + gone, k + 1, script);
        var rest := Intended(original, m - 1, removed + gone, k + 1, script).0;
        IndexOfUnique(original, m - 1);
        forall y | y in original[..m - 1] ensures Position(original, y) < m - 1 { Below(original, m - 1, y); }
        hide Intended, Position;
        PutInFront(original, x, rest);
      }
    }
  }

  lemma PutInFront(original: seq<nat>, x: nat, rest: seq<nat>)
    requires forall y :: y in rest ==> Position(original, x) > Position(original, y)
    requires forall i, j :: 0 <= i < j < |rest| ==> Position(original, rest[i]) > Position(original, rest[j])
    ensures forall i, j :: 0 <= i < j < |[x] + rest| ==> Position(original, ([x] + rest)[i]) > Position(original, ([x] + rest)[j])
  {
    hide Position;
  }

  // No call is of a filter removed before it, initially or by an earlier callback.
  ghost predicate InTime(called: seq<nat>, removed: set<nat>, k: nat, script: Script) {
    forall i :: 0 <= i < |called| ==> called[i] !in removed + RemovedBefore(script, k, k + i)
  }

  lemma {:induction false} IntendedSkips(original: seq<nat>, m: nat, removed: set<nat>, k: nat, script: Script)
    requires m <= |original|
    ensures InTime(Intended(original, m, removed, k, script).0, removed, k, script)
    decreases m
  {
    if m == 0 {
    } else {
      var x := original[m - 1];
      if x in removed {
        IntendedSkips(original, m - 1, removed, k, script);
      } else if !script(k).consumed {
        var gone := Removed(script(k).ops);
        IntendedSkips(original, m - 1, removed + gone, k + 1, script);
        var rest := Intended(original, m - 1, removed + gone, k + 1, script).0;
        var called := [x] + rest;
        assert InTime(rest, removed + gone, k + 1, script);
        forall i | 0 <= i < |called| ensures called[i] !in removed + RemovedBefore(script, k, k + i) {
          if i > 0 {
            assert called[i] == rest[i - 1];
            assert rest[i - 1] !in removed + gone + RemovedBefore(script, k + 1, k + 1 + (i - 1));
          }
        }
      }
    }
  }

  // Every one of these filters was called, or removed initially or by one of the callbacks.
  ghost predicate Covered(filters: seq<nat>, called: seq<nat>, removed: set<nat>, k: nat, script: Script) {
    forall x :: x in filters ==> x in called || x in removed || x in RemovedBefore(script, k, k + |called|)
  }

  lemma CoveredNext(filters: seq<nat>, x: nat, rest: seq<nat>, removed: set<nat>, k: nat, script: Script)
    requires Covered(filters, rest, removed + Removed(script(k).ops), k + 1, script)
    ensures Covered(filters + [x], [x] + rest, removed, k, script)
  {
    hide Removed;
    assert |[x] + rest| == 1 + |rest|;
  }

  lemma CoveredSkipped(filters: seq<nat>, x: nat, called: seq<nat>, removed: set<nat>, k: nat, script: Script)
    requires Covered(filters, called, removed, k, script) && x in removed
    ensures Covered(filters + [x], called, removed, k, script)
  {
    hide RemovedBefore;
  }

  lemma {:induction false} IntendedCovers(original: seq<nat>, m: nat, removed: set<nat>, k: nat, script: Script)
    requires m <= |original|
    ensures var (called, consumed) := Intended(original, m, removed, k, script);
            && (consumed ==> called != [])
            && (called != [] ==> (consumed <==> script(k + |called| - 1).consumed))
            && (!consumed ==> Covered(original[..m], called, removed, k, script))
    decreases m
  {
    hide Covered;
    if m == 0 {
      assert Covered(original[..0], [], removed, k, script) by { NothingToCover(removed, k, script); }
    } else {
      var x := original[m - 1];
      assert original[..m] == original[..m - 1] + [x];
      if x in removed {
        IntendedCovers(original, m - 1, removed, k, script);
        var (called, consumed) := Intended(original, m - 1, removed, k, script);
        if !consumed { CoveredSkipped(original[..m - 1], x, called, removed, k, script); }
      } else if !script(k).consumed {
        var gone := Removed(script(k).ops);
        IntendedCovers(original, m - 1, removed + gone, k + 1, script);
        var (rest, consumed) := Intended(original, m - 1, removed + gone, k + 1, script);
        if !consumed { CoveredNext(original[..m - 1], x, rest, removed, k, script); }
      }
    }
  }

  lemma NothingToCover(removed: set<nat>, k: nat, script: Script)
    ensures Covered([], [], removed, k, script)
  {}

  lemma Below(xs: seq<nat>, n: nat, x: nat)
    requires NoDuplicates(xs) && n <= |xs| && x in xs[..n]
    ensures Position(xs, x) < n
  {
    var i :| 0 <= i < n && xs[i] == x;
    IndexOfUnique(xs, i);
  }

  // Newest first, so none twice; only filters registered from the start and not removed before their turn; a callback
  // that consumes the message is the last; and when nobody does, every filter that was never removed was called.
  lemma PassIsFair(original: seq<nat>, script: Script)
    requires NoDuplicates(original)
    ensures var (called, consumed) := Intended(original, |original|, {}, 0, script);
            && (forall x :: x in called ==> x in original)
            && NoDuplicates(called)
            && (forall i, j :: 0 <= i < j < |called| ==> Position(original, called[i]) > Position(original, called[j]))
            && (forall i :: 0 <= i < |called| ==> called[i] !in RemovedBefore(script, 0, i))
            && (consumed <==> called != [] && script(|called| - 1).consumed)
            && (!consumed ==> forall x :: x in original ==> x in called || x in RemovedBefore(script, 0, |called|))
  {
    hide Intended, RemovedBefore, Position;
    IntendedInOrder(original, |original|, {}, 0, script);
    IntendedSkips(original, |original|, {}, 0, script);
    IntendedCovers(original, |original|, {}, 0, script);
    var called := Intended(original, |original|, {}, 0, script).0;
    assert original[..|original|] == original;
    forall i, j | 0 <= i < j < |called| ensures called[i] != called[j] {
      assert Position(original, called[i]) > Position(original, called[j]);
    }
  }

  // ---- which callbacks keep the pass in step ----

  // What is left of the filters below, and where the callback's own filter can be.
  lemma AfterCallback(c: Chain, ops: seq<FilterOp>)
    requires Wf(c) && 0 < c.low
    ensures var after := Apply(c.(low := c.low - 1), ops);
            && Wf(after) && after.low <= c.low - 1
            && after.filters[..after.low] == Keep(c.filters[..c.low - 1], Removed(ops))
            && c.filters[c.low - 1] !in after.filters[..after.low]
  {
    hide Apply, Keep;
    var below := c.(low := c.low - 1);
    ApplyKeeps(below, ops);
    LowAfter(below, ops);
    KeepMembers(c.filters[..c.low - 1], Removed(ops));
  }

  lemma {:induction false} KeepMembers(xs: seq<nat>, removed: set<nat>)
    ensures forall x :: x in Keep(xs, removed) <==> x in xs && x !in removed
  {
    if xs == [] {
    } else {
      var n := |xs| - 1;
      assert xs == xs[..n] + [xs[n]];
      KeepMembers(xs[..n], removed);
    }
  }

  // In step means: the next filter called, if any, is one the pass has still to reach.
  lemma InStepMeans(c: Chain, ops: seq<FilterOp>)
    requires Wf(c) && 0 < c.low
    ensures var after := Apply(c.(low := c.low - 1), ops);
            var n := NextIndex(after.filters, c.filters[c.low - 1], c.low - 1);
            && after.low <= n <= |after.filters|
            && (InStep(c, ops) <==> (n > 0 ==> after.filters[n - 1] in after.filters[..after.low]))
            && (!InStep(c, ops) ==> n > 0 && (after.filters[n - 1] in c.filters[c.low - 1..] || after.filters[n - 1] in AddedBy(ops)))
  {
    hide Apply, Keep;
    AfterCallback(c, ops);
    HighAfter(c.(low := c.low - 1), ops);
    var after := Apply(c.(low := c.low - 1), ops);
    var n := NextIndex(after.filters, c.filters[c.low - 1], c.low - 1);
    assert after.low <= n by { NextIsAbove(c, after); }
    if n > after.low {
      assert after.filters[after.low..][n - 1 - after.low] == after.filters[n - 1];
      forall i | 0 <= i < after.low ensures after.filters[..after.low][i] != after.filters[n - 1] {}
    } else if n > 0 {
      assert after.filters[..after.low][n - 1] == after.filters[n - 1];
    }
  }

  lemma NextIsAbove(c: Chain, after: Chain)
    requires Wf(c) && 0 < c.low && Wf(after) && after.low <= c.low - 1
    requires c.filters[c.low - 1] !in after.filters[..after.low]
    ensures after.low <= NextIndex(after.filters, c.filters[c.low - 1], c.low - 1)
  {
    var at := IndexOf(after.filters, c.filters[c.low - 1]);
    if at.Some? {
      forall j | 0 <= j < after.low ensures after.filters[j] != c.filters[c.low - 1] {
        assert after.filters[..after.low][j] == after.filters[j];
      }
    }
  }

  // The callback either leaves its own filter registered, or takes it out and none of those below it.
  predicate Polite(c: Chain, ops: seq<FilterOp>)
    requires 0 < c.low <= |c.filters|
  {
    var filter := c.filters[c.low - 1];
    || RemoveOp(filter) !in ops
    || (filter !in Apply(c.(low := c.low - 1), ops).filters && forall x :: x in c.filters[..c.low - 1] ==> RemoveOp(x) !in ops)
  }

  lemma PoliteIsInStep(c: Chain, ops: seq<FilterOp>)
    requires Wf(c) && 0 < c.low && Polite(c, ops)
    ensures InStep(c, ops)
  {
    hide Apply, Keep;
    AfterCallback(c, ops);
    var filter := c.filters[c.low - 1];
    var after := Apply(c.(low := c.low - 1), ops);
    if RemoveOp(filter) !in ops {
      StillAbove(c, ops);
    } else {
      KeepAll(c.filters[..c.low - 1], Removed(ops));
      assert |after.filters[..after.low]| == after.low;
    }
  }

  // A filter that is not removed stays directly above those below it.
  lemma StillAbove(c: Chain, ops: seq<FilterOp>)
    requires Wf(c) && 0 < c.low && RemoveOp(c.filters[c.low - 1]) !in ops
    ensures var after := Apply(c.(low := c.low - 1), ops);
            after.low < |after.filters| && IndexOf(after.filters, c.filters[c.low - 1]) == Some(after.low)
  {
    hide Apply, Keep;
    var filter := c.filters[c.low - 1];
    AfterCallback(c, ops);
    ApplyKeeps(c, ops);
    LowAfter(c, ops);
    SameFilters(c.filters, c.low - 1, c.low, ops);
    var after, whole := Apply(c.(low := c.low - 1), ops), Apply(c, ops);
    assert c.filters[..c.low] == c.filters[..c.low - 1] + [filter];
    KeepLast(c.filters[..c.low - 1], filter, Removed(ops));
    assert whole.filters[..whole.low] == after.filters[..after.low] + [filter];
    assert whole.filters[..whole.low][after.low] == filter;
    IndexOfUnique(after.filters, after.low);
  }

  ghost predicate AllPolite(c: Chain, k: nat, script: Script)
    decreases c.low
  {
    0 < c.low <= |c.filters| && !script(k).consumed ==>
      Polite(c, script(k).ops) &&
      var after := Apply(c.(low := c.low - 1), script(k).ops);
      after.low < c.low && AllPolite(after, k + 1, script)
  }

  // Callbacks that are polite all the way let the pass keep its promise.
  lemma {:induction false} PolitePassIsInStep(c: Chain, k: nat, script: Script)
    requires Wf(c) && AllPolite(c, k, script)
    ensures AllInStep(c, k, script)
    decreases c.low
  {
    hide Apply, Polite, InStep;
    if 0 < c.low && !script(k).consumed {
      PoliteIsInStep(c, script(k).ops);
      AfterCallback(c, script(k).ops);
      PolitePassIsInStep(Apply(c.(low := c.low - 1), script(k).ops), k + 1, script);
    }
  }

  // What a callback must see to in order to keep the pass in step. As long as its own filter stays registered, that
  // filter is the lowest of those above the filters still waiting. Once it is gone, none of the filters below it was
  // removed, or only those still waiting are registered at all.
  predicate KeepsPlace(c: Chain, ops: seq<FilterOp>)
    requires 0 < c.low <= |c.filters|
  {
    var filter, below := c.filters[c.low - 1], c.filters[..c.low - 1];
    var after, waiting := Apply(Chain(c.filters, 0), ops).filters, Keep(below, Removed(ops));
    if filter in after then |waiting| < |after| && after[|waiting|] == filter
    else (forall x :: x in below ==> RemoveOp(x) !in ops) || after == waiting
  }

  lemma InStepWhen(c: Chain, ops: seq<FilterOp>)
    requires Wf(c) && 0 < c.low
    ensures InStep(c, ops) <==> KeepsPlace(c, ops)
  {
    hide Apply, Keep;
    AfterCallback(c, ops);
    SameFilters(c.filters, c.low - 1, 0, ops);
    var filter, below := c.filters[c.low - 1], c.filters[..c.low - 1];
    var after := Apply(c.(low := c.low - 1), ops);
    assert |after.filters[..after.low]| == after.low;
    KeptWhole(below, Removed(ops));
    NextIsAbove(c, after);
    assert after.low == |after.filters| <==> after.filters == after.filters[..after.low];
    if after.low < |after.filters| && after.filters[after.low] == filter { IndexOfUnique(after.filters, after.low); }
  }

  lemma {:induction false} KeptWhole(xs: seq<nat>, removed: set<nat>)
    ensures |Keep(xs, removed)| <= |xs|
    ensures |Keep(xs, removed)| == |xs| <==> forall x :: x in xs ==> x !in removed
  {
    if xs == [] {
    } else {
      var n := |xs| - 1;
      assert xs == xs[..n] + [xs[n]];
      KeptWhole(xs[..n], removed);
    }
  }

  // ---- the promise, call by call ----

  // No call repeats an earlier one, goes to a filter that was not registered from the start, or to one removed before.
  ghost predicate Promised(original: seq<nat>, called: seq<nat>, removed: set<nat>, calls: seq<nat>, k: nat, script: Script) {
    forall i :: 0 <= i < |calls| ==>
      && calls[i] !in called && calls[i] !in calls[..i]
      && calls[i] in original && calls[i] !in removed + RemovedBefore(script, k, k + i)
  }

  lemma StillCovered(original: seq<nat>, m: nat, p: nat, removed: set<nat>, c: Chain, y: nat)
    requires p < m <= |original| && Wf(c) && 0 < c.low && c.filters[..c.low] == Keep(original[..m], removed)
    requires Keep(original[..p], removed) == c.filters[..c.low - 1]
    requires y in original[..m]
    ensures y == c.filters[c.low - 1] || y in removed || y in original[..p]
  {
    hide Keep;
    KeepMembers(original[..m], removed);
    KeepMembers(original[..p], removed);
    assert c.filters[..c.low] == c.filters[..c.low - 1] + [c.filters[c.low - 1]];
  }

  lemma NextIsWrong(original: seq<nat>, called: seq<nat>, p: nat, removed: set<nat>, c: Chain, ops: seq<FilterOp>)
    requires Wf(c) && 0 < c.low && !InStep(c, ops) && p <= |original|
    requires forall y :: y in original ==> y in called || y in removed || y in original[..p]
    requires var after := Apply(c.(low := c.low - 1), ops);
             after.low <= |after.filters| && after.filters[..after.low] == Keep(original[..p], removed)
    ensures var after := Apply(c.(low := c.low - 1), ops);
            var next := NextIndex(after.filters, c.filters[c.low - 1], c.low - 1);
            && next > 0
            && (after.filters[next - 1] in called || after.filters[next - 1] !in original || after.filters[next - 1] in removed)
  {
    hide Apply, Keep;
    InStepMeans(c, ops);
    KeepMembers(original[..p], removed);
  }

  lemma FirstIsWrong(original: seq<nat>, called: seq<nat>, removed: set<nat>, calls: seq<nat>, k: nat, script: Script)
    requires calls != [] && (calls[0] in called || calls[0] !in original || calls[0] in removed)
    ensures !Promised(original, called, removed, calls, k, script)
  {
    assert calls[..0] == [];
    hide RemovedBefore;
  }

  lemma BrokenLater(original: seq<nat>, called: seq<nat>, removed: set<nat>, x: nat, rest: seq<nat>, k: nat, script: Script)
    ensures Promised(original, called, removed, [x] + rest, k, script) ==>
              Promised(original, called + [x], removed + Removed(script(k).ops), rest, k + 1, script)
  {
    var whole := [x] + rest;
    if Promised(original, called, removed, whole, k, script) {
      forall i | 0 <= i < |rest|
        ensures rest[i] !in called + [x] && rest[i] !in rest[..i]
        ensures rest[i] in original && rest[i] !in removed + Removed(script(k).ops) + RemovedBefore(script, k + 1, k + 1 + i)
      {
        assert whole[i + 1] == rest[i] && whole[..i + 1] == [x] + rest[..i];
      }
    }
  }

  // As soon as a callback leaves the pass out of step, the next call breaks the promise.
  lemma {:induction false} OutOfStepBreaks(original: seq<nat>, called: seq<nat>, m: nat, removed: set<nat>,
                                           c: Chain, k: nat, script: Script, n: nat)
    requires m <= |original| && Wf(c) && c.filters[..c.low] == Keep(original[..m], removed)
    requires forall y :: y in original ==> y in called || y in removed || y in original[..m]
    requires !AllInStep(c, k, script) && n > c.low
    ensures !Promised(original, called, removed, Calls(c.filters, c.low, k, script, n), k, script)
    decreases c.low
  {
    hide Apply, Keep, NextIndex, NoDuplicates, Promised;
    var x, ops := c.filters[c.low - 1], script(k).ops;
    var p := PassStep(original, m, removed, c, k, script);
    SameFilters(c.filters, c.low - 1, 0, ops);
    var after := Apply(c.(low := c.low - 1), ops);
    var next := NextIndex(after.filters, x, c.low - 1);
    var rest := Calls(after.filters, next, k + 1, script, n - 1);
    var gone := removed + Removed(ops);
    forall y | y in original ensures y in called + [x] || y in gone || y in original[..p] {
      if y in original[..m] { StillCovered(original, m, p, removed, c, y); }
    }
    if InStep(c, ops) {
      OutOfStepBreaks(original, called + [x], p, gone, after, k + 1, script, n - 1);
    } else {
      NextIsWrong(original, called + [x], p, gone, c, ops);
      FirstIsWrong(original, called + [x], gone, rest, k + 1, script);
    }
    BrokenLater(original, called, removed, x, rest, k, script);
  }

  // A pass over the filters keeps the promise exactly when every callback leaves it in step, and then, and only then,
  // its calls are the intended ones.
  lemma PromiseExactly(filters: seq<nat>, script: Script, n: nat)
    requires NoDuplicates(filters) && 0 !in filters && n > |filters|
    ensures var calls := Calls(filters, |filters|, 0, script, n);
            var inStep := AllInStep(Chain(filters, |filters|), 0, script);
            && (inStep <==> Promised(filters, [], {}, calls, 0, script))
            && (inStep <==> calls == Intended(filters, |filters|, {}, 0, script).0)
  {
    hide Calls, Intended, AllInStep, RemovedBefore, NoDuplicates, Position;
    var start := Chain(filters, |filters|);
    assert filters[..|filters|] == filters;
    KeepAll(filters, {});
    PassIsFair(filters, script);
    IntendedKeepsPromise(filters, Intended(filters, |filters|, {}, 0, script).0, script);
    if AllInStep(start, 0, script) {
      CallsAreIntended(filters, |filters|, {}, start, 0, script, n);
    } else {
      OutOfStepBreaks(filters, [], |filters|, {}, start, 0, script, n);
    }
  }

  lemma IntendedKeepsPromise(filters: seq<nat>, calls: seq<nat>, script: Script)
    requires NoDuplicates(calls) && forall x :: x in calls ==> x in filters
    requires forall i :: 0 <= i < |calls| ==> calls[i] !in RemovedBefore(script, 0, i)
    ensures Promised(filters, [], {}, calls, 0, script)
  {
    hide RemovedBefore;
  }

  // ---- callbacks that break it ----

  function TakesTwoOut(k: nat): FilterCall {
    FilterCall(if k == 1 then [RemoveOp(2), RemoveOp(1)] else [], false)
  }

  // A filter that takes out itself and the one below it lets the one above be called a second time.
  lemma CalledTwice()
    ensures Calls([1, 2, 3], 3, 0, TakesTwoOut, 10) == [3, 2, 3]
  {
    hide Apply;
    TwoGone();
    NothingDone([1, 2, 3]);
    NothingDone([3]);
    IndexOfUnique([1, 2, 3], 2);
    IndexOfUnique([3], 0);
    LastCall();
    assert Calls([1, 2, 3], 2, 1, TakesTwoOut, 9) == [2, 3];
  }

  lemma LastCall()
    ensures Calls([3], 1, 2, TakesTwoOut, 8) == [3]
  {
    hide Apply;
    NothingDone([3]);
    IndexOfUnique([3], 0);
    assert Calls([3], 0, 3, TakesTwoOut, 7) == [];
  }

  lemma NothingDone(filters: seq<nat>)
    ensures Apply(Chain(filters, 0), []).filters == filters
  {}

  lemma TwoGone()
    ensures Apply(Chain([1, 2, 3], 0), [RemoveOp(2), RemoveOp(1)]).filters == [3]
  {
    assert [RemoveOp(2), RemoveOp(1)][..1] == [RemoveOp(2)] && [RemoveOp(2)][..0] == [];
    IndexOfUnique([1, 2, 3], 1);
    IndexOfUnique([1, 3], 0);
    assert ApplyOne(Chain([1, 2, 3], 0), RemoveOp(2)).filters == [1, 3];
    assert ApplyOne(Chain([1, 3], 0), RemoveOp(1)).filters == [3];
    assert Apply(Chain([1, 2, 3], 0), [RemoveOp(2)]).filters == [1, 3];
  }

  function ReRegisters(k: nat): FilterCall {
    var x := if k % 2 == 0 then 2 else 1;
    FilterCall([RemoveOp(x), AddOp(x)], false)
  }

  // Two filters that each register themselves anew take turns without end.
  lemma NeverEnds(n: nat)
    ensures |Calls([1, 2], 2, 0, ReRegisters, n)| == n
  {
    hide Apply;
    if n > 0 {
      LastAnew(1, 2);
      TakesTurns(1, n - 1);
    }
  }

  lemma {:induction false} TakesTurns(k: nat, n: nat)
    ensures |Calls(if k % 2 == 1 then [1, 2] else [2, 1], 1, k, ReRegisters, n)| == n
    decreases n
  {
    hide Apply, NextIndex;
    if n == 0 {
    } else {
      TakesTurns(k + 1, n - 1);
      if k % 2 == 1 { FirstAnew(1, 2); } else { FirstAnew(2, 1); }
    }
  }

  lemma FirstAnew(a: nat, b: nat)
    requires a != 0 && b != 0 && a != b
    ensures Apply(Chain([a, b], 0), [RemoveOp(a), AddOp(a)]).filters == [b, a] && NextIndex([b, a], a, 0) == 1
  {
    IndexOfUnique([a, b], 0);
    IndexOfUnique([b, a], 1);
    assert [RemoveOp(a), AddOp(a)][..1] == [RemoveOp(a)] && [RemoveOp(a)][..0] == [];
    assert ApplyOne(Chain([a, b], 0), RemoveOp(a)).filters == [b];
    assert Apply(Chain([a, b], 0), [RemoveOp(a)]).filters == [b];
  }

  lemma LastAnew(a: nat, b: nat)
    requires a != 0 && b != 0 && a != b
    ensures Apply(Chain([a, b], 0), [RemoveOp(b), AddOp(b)]).filters == [a, b] && NextIndex([a, b], b, 1) == 1
  {
    IndexOfUnique([a, b], 1);
    assert [RemoveOp(b), AddOp(b)][..1] == [RemoveOp(b)] && [RemoveOp(b)][..0] == [];
    assert ApplyOne(Chain([a, b], 0), RemoveOp(b)).filters == [a];
    assert Apply(Chain([a, b], 0), [RemoveOp(b)]).filters == [a];
  }
}
