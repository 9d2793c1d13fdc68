// The chain of message filters, and the pass over it that its own callbacks change.
module MessagePump {
  import opened Basics

  // Filters are numbers; zero is the null pointer. The newest filter is last.
  datatype FilterOp = AddOp(filter: nat) | RemoveOp(filter: nat)

  // What one PreTranslateMessage call does: it adds and removes filters, then consumes the message or not.
  datatype FilterCall = FilterCall(ops: seq<FilterOp>, consumed: bool)

  // The behaviour of the first, second, ... callback of a pass.
  type Script = nat -> FilterCall

  function Added(filters: seq<nat>, x: nat): seq<nat> {
    if x == 0 || x in filters then filters else filters + [x]
  }

  // A chain together with the number of filters at its bottom that the pass has still to reach.
  datatype Chain = Chain(filters: seq<nat>, low: nat)

  ghost predicate Wf(c: Chain) { c.low <= |c.filters| && NoDuplicates(c.filters) && 0 !in c.filters }

  function Cut(xs: seq<nat>, i: nat): (r: seq<nat>)
    requires i < |xs|
    ensures |r| == |xs| - 1 && forall j :: 0 <= j < |r| ==> r[j] == if j < i then xs[j] else xs[j + 1]
  {
    xs[..i] + xs[i + 1..]
  }

  function ApplyOne(c: Chain, op: FilterOp): Chain {
    match op
    case AddOp(x) => c.(filters := Added(c.filters, x))
    case RemoveOp(x) =>
      match IndexOf(c.filters, x)
      case None => c
      case Some(i) => Chain(Cut(c.filters, i), if i < c.low then c.low - 1 else c.low)
  }

  function Apply(c: Chain, ops: seq<FilterOp>): Chain {
    if ops == [] then c else ApplyOne(Apply(c, ops[..|ops| - 1]), ops[|ops| - 1])
  }

  function Removed(ops: seq<FilterOp>): (r: set<nat>)
    ensures forall x :: x in r <==> RemoveOp(x) in ops
  {
    if ops == [] then {}
    else
      var op := ops[|ops| - 1];
      assert ops == ops[..|ops| - 1] + [op];
      Removed(ops[..|ops| - 1]) + (if op.RemoveOp? then {op.filter} else {})
  }

  function AddedBy(ops: seq<FilterOp>): (r: set<nat>)
    ensures forall x :: x in r <==> AddOp(x) in ops
  {
    if ops == [] then {}
    else
      var op := ops[|ops| - 1];
      assert ops == ops[..|ops| - 1] + [op];
      AddedBy(ops[..|ops| - 1]) + (if op.AddOp? then {op.filter} else {})
  }

  // ---- what the pass is meant to do ----

  // Newest first over the filters registered when the pass began, without those removed before their turn.
  // Gives the filters called and whether one consumed the message.
  function Intended(original: seq<nat>, m: nat, removed: set<nat>, k: nat, script: Script): (seq<nat>, bool)
    requires m <= |original|
    decreases m
  {
    if m == 0 then ([], false)
    else
      var x := original[m - 1];
      if x in removed then Intended(original, m - 1, removed, k, script)
      else if script(k).consumed then ([x], true)
      else
        var (called, consumed) := Intended(original, m - 1, removed + Removed(script(k).ops), k + 1, script);
        ([x] + called, consumed)
  }

  // ---- what the code does ----

  // Where the pass goes on after the filter at `index` has made its changes: just below that filter where it stands now,
  // or, when it is gone, below the old position as far as the chain still reaches.
  function NextIndex(after: seq<nat>, filter: nat, index: nat): (r: nat)
    ensures r <= |after|
  {
    match IndexOf(after, filter)
    case Some(i) => i
    case None => if index <= |after| then index else |after|
  }

  function Top(filters: seq<nat>, index: nat): (top: nat)
    ensures top <= |filters|
  {
    if index <= |filters| then index else |filters|
  }

  // The first n calls the loop makes when it is about to look below `index`.
  function Calls(filters: seq<nat>, index: nat, k: nat, script: Script, n: nat): seq<nat>
    decreases n
  {
    var top := Top(filters, index);
    if n == 0 || top == 0 then []
    else if script(k).consumed then [filters[top - 1]]
    else
      var after := Apply(Chain(filters, 0), script(k).ops).filters;
      [filters[top - 1]] + Calls(after, NextIndex(after, filters[top - 1], top - 1), k + 1, script, n - 1)
  }

  // The loop is over after at most n calls.
  predicate Ends(filters: seq<nat>, index: nat, k: nat, script: Script, n: nat)
    decreases n
  {
    var top := Top(filters, index);
    || top == 0
    || (n > 0 &&
        (script(k).consumed ||
         var after := Apply(Chain(filters, 0), script(k).ops).filters;
         Ends(after, NextIndex(after, filters[top - 1], top - 1), k + 1, script, n - 1)))
  }

  // The callback has left the pass in step: it goes on exactly with the filters it has still to reach.
  predicate InStep(c: Chain, ops: seq<FilterOp>)
    requires 0 < c.low <= |c.filters|
  {
    var filter := c.filters[c.low - 1];
    var after := Apply(c.(low := c.low - 1), ops);
    NextIndex(after.filters, filter, c.low - 1) == after.low
  }

  // Every callback of the pass leaves it in step.
  ghost predicate AllInStep(c: Chain, k: nat, script: Script)
    decreases c.low
  {
    0 < c.low <= |c.filters| && !script(k).consumed ==>
      InStep(c, script(k).ops) &&
      var after := Apply(c.(low := c.low - 1), script(k).ops);
      after.low < c.low && AllInStep(after, k + 1, script)
  }

  // ---- facts about changes ----

  lemma ApplyOneKeeps(c: Chain, op: FilterOp)
    requires Wf(c)
    ensures var r := ApplyOne(c, op); Wf(r) && r.low <= c.low
  {
    var r := ApplyOne(c, op);
    if op.RemoveOp? && IndexOf(c.filters, op.filter).Some? {
      var i := IndexOf(c.filters, op.filter).value;
      assert r.filters == Cut(c.filters, i);
    }
  }

  lemma {:induction false} ApplyKeeps(c: Chain, ops: seq<FilterOp>)
    requires Wf(c)
    ensures var r := Apply(c, ops); Wf(r) && r.low <= c.low
  {
    hide Wf, ApplyOne;
    if ops == [] {
    } else {
      ApplyKeeps(c, ops[..|ops| - 1]);
      ApplyOneKeeps(Apply(c, ops[..|ops| - 1]), ops[|ops| - 1]);
    }
  }

  // A list without some elements, in order.
  function Keep(xs: seq<nat>, removed: set<nat>): seq<nat> {
    if xs == [] then []
    else
      var n := |xs| - 1;
      Keep(xs[..n], removed) + (if xs[n] in removed then [] else [xs[n]])
  }

  lemma KeepLast(xs: seq<nat>, x: nat, removed: set<nat>)
    ensures Keep(xs + [x], removed) == Keep(xs, removed) + (if x in removed then [] else [x])
  {
    assert (xs + [x])[..|xs|] == xs;
  }

  lemma {:induction false} KeepTwice(xs: seq<nat>, a: set<nat>, b: set<nat>)
    ensures Keep(Keep(xs, a), b) == Keep(xs, a + b)
  {
    if xs == [] {
    } else {
      var n := |xs| - 1;
      KeepTwice(xs[..n], a, b);
      KeepLast(Keep(xs[..n], a), xs[n], b);
      assert Keep(xs[..n], a) + [] == Keep(xs[..n], a);
    }
  }

  lemma {:induction false} KeepAll(xs: seq<nat>, removed: set<nat>)
    requires forall x :: x in xs ==> x !in removed
    ensures Keep(xs, removed) == xs
  {
    if xs == [] {
    } else {
      var n := |xs| - 1;
      assert xs == xs[..n] + [xs[n]] && xs[n] in xs;
      KeepAll(xs[..n], removed);
    }
  }

  lemma {:induction false} KeepWithoutOne(xs: seq<nat>, i: nat)
    requires NoDuplicates(xs) && i < |xs|
    ensures Keep(xs, {xs[i]}) == Cut(xs, i)
    decreases |xs|
  {
    var n := |xs| - 1;
    if i == n {
      KeepAll(xs[..n], {xs[i]});
      assert Cut(xs, i) == xs[..n];
    } else {
      KeepWithoutOne(xs[..n], i);
      assert Cut(xs, i) == Cut(xs[..n], i) + [xs[n]];
    }
  }

  // The filters still to be reached are those there were, without the removed ones, in the same order.
  lemma LowAfterOne(c: Chain, op: FilterOp)
    requires Wf(c)
    ensures var r := ApplyOne(c, op);
            r.low <= |r.filters| && r.filters[..r.low] == Keep(c.filters[..c.low], if op.RemoveOp? then {op.filter} else {})
  {
    hide Keep;
    var low := c.filters[..c.low];
    match op
    case AddOp(x) => KeepAll(low, {});
    case RemoveOp(x) =>
      var at := IndexOf(c.filters, x);
      if at.Some? && at.value < c.low {
        LowLosesOne(c, at.value);
      } else {
        LowLosesNone(c, x);
        if at.Some? { assert Cut(c.filters, at.value)[..c.low] == low; }
      }
  }

  lemma LowLosesOne(c: Chain, i: nat)
    requires Wf(c) && i < c.low
    ensures Cut(c.filters, i)[..c.low - 1] == Keep(c.filters[..c.low], {c.filters[i]})
  {
    hide Keep;
    var low := c.filters[..c.low];
    assert NoDuplicates(low) && low[i] == c.filters[i];
    KeepWithoutOne(low, i);
    assert Cut(c.filters, i)[..c.low - 1] == Cut(low, i);
  }

  lemma LowLosesNone(c: Chain, x: nat)
    requires Wf(c)
    requires IndexOf(c.filters, x).None? || IndexOf(c.filters, x).value >= c.low
    ensures Keep(c.filters[..c.low], {x}) == c.filters[..c.low]
  {
    hide Keep;
    var low := c.filters[..c.low];
    forall i | 0 <= i < |low| ensures low[i] != x {
      assert c.filters[i] == low[i];
      IndexOfUnique(c.filters, i);
    }
    KeepAll(low, {x});
  }

  lemma {:induction false} LowAfter(c: Chain, ops: seq<FilterOp>)
    requires Wf(c)
    ensures var r := Apply(c, ops); r.low <= |r.filters| && r.filters[..r.low] == Keep(c.filters[..c.low], Removed(ops))
  {
    hide Wf, ApplyOne, Keep;
    if ops == [] {
      LowOfNothing(c);
    } else {
      var init, last := ops[..|ops| - 1], ops[|ops| - 1];
      var middle := Apply(c, init);
      LowWithin(c);
      LowAfter(c, init);
      ApplyKeeps(c, init);
      LowAfterOne(middle, last);
      KeepTwice(c.filters[..c.low], Removed(init), if last.RemoveOp? then {last.filter} else {});
    }
  }

  lemma LowWithin(c: Chain)
    requires Wf(c)
    ensures c.low <= |c.filters|
  {}

  lemma LowOfNothing(c: Chain)
    requires Wf(c)
    ensures c.low <= |c.filters| && c.filters[..c.low] == Keep(c.filters[..c.low], {})
  {
    KeepAll(c.filters[..c.low], {});
  }

  // Above the filters still to be reached there are only those that were above before and those just added.
  lemma {:induction false} HighAfter(c: Chain, ops: seq<FilterOp>)
    requires Wf(c)
    ensures var r := Apply(c, ops);
            r.low <= |r.filters| && forall x :: x in r.filters[r.low..] ==> x in c.filters[c.low..] || x in AddedBy(ops)
  {
    hide ApplyOne;
    if ops == [] {
    } else {
      var init, last := ops[..|ops| - 1], ops[|ops| - 1];
      HighAfter(c, init);
      ApplyKeeps(c, init);
      HighAfterOne(Apply(c, init), last);
    }
  }

  lemma HighAfterOne(c: Chain, op: FilterOp)
    requires Wf(c)
    ensures var r := ApplyOne(c, op);
            r.low <= |r.filters| &&
            forall x :: x in r.filters[r.low..] ==> x in c.filters[c.low..] || (op.AddOp? && x == op.filter)
  {
    hide NoDuplicates, Cut, IndexOf;
    var high := c.filters[c.low..];
    match op
    case AddOp(y) => assert y != 0 && y !in c.filters ==> (c.filters + [y])[c.low..] == high + [y];
    case RemoveOp(y) => if i :| IndexOf(c.filters, y) == Some(i) { HighAfterCut(c, i); }
  }

  lemma HighAfterCut(c: Chain, i: nat)
    requires c.low <= |c.filters| && i < |c.filters|
    ensures i < c.low ==> Cut(c.filters, i)[c.low - 1..] == c.filters[c.low..]
    ensures i >= c.low ==> Cut(c.filters, i)[c.low..] == Cut(c.filters[c.low..], i - c.low)
    ensures i >= c.low ==> forall x :: x in Cut(c.filters[c.low..], i - c.low) ==> x in c.filters[c.low..]
  {}

  // ---- the loop itself ----

  class MessageLoop {
    var filters: seq<nat>

    ghost predicate Valid()
      reads this
    {
      NoDuplicates(filters) && 0 !in filters
    }

    constructor ()
      ensures Valid() && filters == []
    {
      filters := [];
    }

    method AddFilter(filter: nat) returns (ok: bool)
      requires Valid()
      modifies this
      ensures Valid() && filters == Added(old(filters), filter) && (ok <==> filter != 0)
    {
      if filter == 0 { return false; }
      if IndexOf(filters, filter).Some? { return true; }
      filters := filters + [filter];
      ok := true;
    }

    method RemoveFilter(filter: nat)
      requires Valid()
      modifies this
      ensures Valid() && forall low: nat :: low <= |old(filters)| ==>
                filters == ApplyOne(Chain(old(filters), low), RemoveOp(filter)).filters
    {
      ghost var before := filters;
      ApplyOneKeeps(Chain(before, 0), RemoveOp(filter));
      var at := IndexOf(filters, filter);
      if at.Some? { filters := filters[..at.value] + filters[at.value + 1..]; }
    }

    // A callback of the pass: it changes the chain through the two methods above.
    method Callback(call: FilterCall) returns (consumed: bool)
      requires Valid()
      modifies this
      ensures Valid() && filters == Apply(Chain(old(filters), 0), call.ops).filters && consumed == call.consumed
    {
      hide ApplyOne, NoDuplicates;
      ghost var start := Chain(filters, 0);
      assert call.ops[..0] == [];
      for i := 0 to |call.ops|
        invariant Valid() && filters == Apply(start, call.ops[..i]).filters
      {
        ghost var middle := Apply(start, call.ops[..i]);
        ApplyKeeps(start, call.ops[..i]);
        LowWithin(middle);
        assert call.ops[..i + 1][..i] == call.ops[..i];
        ApplyChange(call.ops[i], middle.low);
      }
      assert call.ops[..|call.ops|] == call.ops;
      consumed := call.consumed;
    }

    method ApplyChange(op: FilterOp, ghost low: nat)
      requires Valid() && low <= |filters|
      modifies this
      ensures Valid() && filters == ApplyOne(Chain(old(filters), low), op).filters
    {
      hide NoDuplicates;
      match op
      case AddOp(x) => var _ := AddFilter(x);
      case RemoveOp(x) => RemoveFilter(x);
    }

    // A pass that ends, whatever its callbacks do, makes the calls listed above. If every callback leaves it in step, they
    // are exactly the intended ones.
    method PreTranslate(script: Script, ghost bound: nat) returns (consumed: bool, called: seq<nat>)
      requires Valid() && Ends(filters, |filters|, 0, script, bound)
      modifies this
      ensures Valid()
      ensures called == Calls(old(filters), |old(filters)|, 0, script, bound)
      ensures consumed <==> called != [] && script(|called| - 1).consumed
      ensures AllInStep(Chain(old(filters), |old(filters)|), 0, script) ==>
                (called, consumed) == Intended(old(filters), |old(filters)|, {}, 0, script)
    {
      hide Apply, NoDuplicates, Intended, AllInStep, Calls, Ends;
      ghost var original := filters;
      WholePass(original, script, bound);
      called := [];
      var index: nat := |filters|;
      while index > 0
        invariant Valid() && |called| <= bound && Ends(filters, index, |called|, script, bound - |called|)
        invariant Calls(original, |original|, 0, script, bound) == called + Calls(filters, index, |called|, script, bound - |called|)
        invariant called != [] ==> !script(|called| - 1).consumed
        decreases bound - |called|, index
      {
        ghost var above := index;
        index := index - 1;
        if index >= |filters| {
          index := |filters|;
          SameTop(filters, above, index, |called|, script, bound - |called|);
          continue;
        }
        var filter := filters[index];
        NextCall(filters, index, |called|, script, bound - |called|);
        ghost var before := called;
        consumed := Callback(script(|called|));
        called := called + [filter];
        if consumed { return true, called; }
        ghost var next := NextIndex(filters, filter, index);
        var position := IndexOf(filters, filter);
        if position.Some? { index := position.value; }
        SameTop(filters, index, next, |called|, script, bound - |called|);
        assert forall rest :: before + ([filter] + rest) == called + rest;
      }
      NoCallsLeft(filters, |called|, script, bound - |called|);
      consumed := false;
    }
  }

  lemma NextCall(filters: seq<nat>, index: nat, k: nat, script: Script, n: nat)
    requires index < |filters| && Ends(filters, index + 1, k, script, n)
    ensures n > 0
    ensures var after := Apply(Chain(filters, 0), script(k).ops).filters;
            var next := NextIndex(after, filters[index], index);
            if script(k).consumed then Calls(filters, index + 1, k, script, n) == [filters[index]]
            else
              && Calls(filters, index + 1, k, script, n) == [filters[index]] + Calls(after, next, k + 1, script, n - 1)
              && Ends(after, next, k + 1, script, n - 1)
  {}

  lemma NoCallsLeft(filters: seq<nat>, k: nat, script: Script, n: nat)
    ensures Calls(filters, 0, k, script, n) == []
  {}

  lemma SameTop(filters: seq<nat>, i: nat, j: nat, k: nat, script: Script, n: nat)
    requires Top(filters, i) == Top(filters, j)
    ensures Calls(filters, i, k, script, n) == Calls(filters, j, k, script, n)
    ensures Ends(filters, i, k, script, n) == Ends(filters, j, k, script, n)
  {}

  // ---- a pass in step ----

  lemma {:induction false} SameFilters(filters: seq<nat>, a: nat, b: nat, ops: seq<FilterOp>)
    ensures Apply(Chain(filters, a), ops).filters == Apply(Chain(filters, b), ops).filters
  {
    if ops == [] {
    } else {
      SameFilters(filters, a, b, ops[..|ops| - 1]);
    }
  }

  lemma WholePass(filters: seq<nat>, script: Script, n: nat)
    requires NoDuplicates(filters) && 0 !in filters && Ends(filters, |filters|, 0, script, n)
    ensures AllInStep(Chain(filters, |filters|), 0, script) ==>
              var calls := Calls(filters, |filters|, 0, script, n);
              (calls, calls != [] && script(|calls| - 1).consumed) == Intended(filters, |filters|, {}, 0, script)
  {
    hide Calls, Ends, Intended, AllInStep;
    if AllInStep(Chain(filters, |filters|), 0, script) {
      KeepAll(filters, {});
      assert filters[..|filters|] == filters;
      CallsAreIntended(filters, |filters|, {}, Chain(filters, |filters|), 0, script, n + |filters|);
      NoMoreCalls(filters, |filters|, 0, script, n, n + |filters|);
    }
  }

  lemma {:induction false} NoMoreCalls(filters: seq<nat>, index: nat, k: nat, script: Script, n: nat, more: nat)
    requires Ends(filters, index, k, script, n) && n <= more
    ensures Calls(filters, index, k, script, n) == Calls(filters, index, k, script, more)
    decreases n
  {
    hide Apply, NextIndex;
    var top := Top(filters, index);
    if top == 0 || script(k).consumed {
    } else {
      var after := Apply(Chain(filters, 0), script(k).ops).filters;
      NoMoreCalls(after, NextIndex(after, filters[top - 1], top - 1), k + 1, script, n - 1, more - 1);
    }
  }

  // With callbacks that keep it in step, the pass ends and is the intended one.
  lemma {:induction false} CallsAreIntended(original: seq<nat>, m: nat, removed: set<nat>, c: Chain, k: nat, script: Script, n: nat)
    requires m <= |original| && Wf(c) && c.filters[..c.low] == Keep(original[..m], removed)
    requires AllInStep(c, k, script) && n >= c.low
    ensures Ends(c.filters, c.low, k, script, n)
    ensures var calls := Calls(c.filters, c.low, k, script, n);
            Intended(original, m, removed, k, script) == (calls, calls != [] && script(k + |calls| - 1).consumed)
    decreases c.low
  {
    hide Apply, Keep, NextIndex, NoDuplicates, Removed, Wf;
    LowWithin(c);
    if c.low == 0 {
      NoneLeft(original, m, removed, k, script);
    } else {
      var p := PassStep(original, m, removed, c, k, script);
      SameFilters(c.filters, c.low - 1, 0, script(k).ops);
      if !script(k).consumed {
        CallsAreIntended(original, p, removed + Removed(script(k).ops), Apply(c.(low := c.low - 1), script(k).ops), k + 1, script, n - 1);
      }
    }
  }

  // One callback: which of the original filters it is, and what is left to reach afterwards.
  lemma PassStep(original: seq<nat>, m: nat, removed: set<nat>, c: Chain, k: nat, script: Script) returns (p: nat)
    requires m <= |original| && Wf(c) && c.low > 0 && c.filters[..c.low] == Keep(original[..m], removed)
    ensures p < m && original[p] == c.filters[c.low - 1] && original[p] !in removed
    ensures Keep(original[..p], removed) == c.filters[..c.low - 1]
    ensures Intended(original, m, removed, k, script) == Intended(original, p + 1, removed, k, script)
    ensures var after := Apply(c.(low := c.low - 1), script(k).ops);
            && Wf(after) && after.low < c.low
            && after.filters[..after.low] == Keep(original[..p], removed + Removed(script(k).ops))
  {
    hide Apply, Keep, NoDuplicates, Intended;
    p := NextOriginal(original, m, removed, k, script);
    var rest := c.(low := c.low - 1);
    assert c.filters[..c.low - 1] == c.filters[..c.low][..c.low - 1];
    assert Keep(original[..p], removed) == c.filters[..c.low - 1];
    ApplyKeeps(rest, script(k).ops);
    LowAfter(rest, script(k).ops);
    KeepTwice(original[..p], removed, Removed(script(k).ops));
  }

  // Passing over removed filters down to the next one to call.
  lemma {:induction false} NextOriginal(original: seq<nat>, m: nat, removed: set<nat>, k: nat, script: Script) returns (p: nat)
    requires m <= |original| && Keep(original[..m], removed) != []
    ensures p < m && original[p] !in removed
    ensures Keep(original[..m], removed) == Keep(original[..p], removed) + [original[p]]
    ensures Intended(original, m, removed, k, script) == Intended(original, p + 1, removed, k, script)
    decreases m
  {
    assert original[..m][..m - 1] == original[..m - 1];
    if original[m - 1] in removed {
      p := NextOriginal(original, m - 1, removed, k, script);
    } else {
      p := m - 1;
    }
  }

  lemma {:induction false} NoneLeft(original: seq<nat>, m: nat, removed: set<nat>, k: nat, script: Script)
    requires m <= |original| && Keep(original[..m], removed) == []
    ensures Intended(original, m, removed, k, script) == ([], false)
    decreases m
  {
    if m == 0 {
    } else {
      assert original[..m][..m - 1] == original[..m - 1];
      NoneLeft(original, m - 1, removed, k, script);
    }
  }
}
