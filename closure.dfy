/** Epsilon closures of single states and of combo states (lists of NFA states), as used by the
    subset construction. */
module Closures {
  import opened Tables
  import opened Automata

  /** The test the closure loop applies to each edge: an epsilon edge out of `s` that is not a
      self-loop. */
  predicate LeadsOnEpsilon(t: Transition, s: State) {
    t.stateFrom == s && t.character == Epsilon && t.stateTo != s
  }

  /** The closure recursion has no visited set; it stops because `rank` strictly drops along
      every epsilon edge that is not a self-loop, i.e. those edges form a DAG. */
  ghost predicate EpsilonRanked(ts: seq<Transition>, rank: State -> nat) {
    forall i :: 0 <= i < |ts| && ts[i].character == Epsilon && ts[i].stateFrom != ts[i].stateTo ==>
      rank(ts[i].stateTo) < rank(ts[i].stateFrom)
  }

  // ---------------------------------------------------------------------------------------
  // Reachability by epsilon edges, the meaning of a closure

  ghost predicate EpsEdge(ts: seq<Transition>, a: State, b: State) {
    exists j :: 0 <= j < |ts| && ts[j] == Transition(a, b, Epsilon)
  }

  ghost predicate EpsPath(ts: seq<Transition>, p: seq<State>) {
    |p| >= 1 && forall k :: 0 <= k < |p| - 1 ==> EpsEdge(ts, p[k], p[k + 1])
  }

  ghost predicate EpsReachable(ts: seq<Transition>, s: State, x: State) {
    exists p :: EpsPath(ts, p) && p[0] == s && p[|p| - 1] == x
  }

  // ---------------------------------------------------------------------------------------
  // The closure the recursion computes

  /** The closure of `s`: `s` first, then, for each edge taken in list order, the closure of
      its target when the edge leads from `s` on epsilon.  Nothing is deduplicated. */
  ghost function EcloseOf(ts: seq<Transition>, s: State, rank: State -> nat): seq<State>
    requires EpsilonRanked(ts, rank)
    decreases rank(s), |ts| + 1
  {
    [s] + EcloseUpTo(ts, s, |ts|, rank)
  }

  /** What the closure loop of `s` has appended after looking at the first `n` edges. */
  ghost function EcloseUpTo(ts: seq<Transition>, s: State, n: nat, rank: State -> nat): seq<State>
    requires n <= |ts| && EpsilonRanked(ts, rank)
    decreases rank(s), n
  {
    if n == 0 then []
    else
      EcloseUpTo(ts, s, n - 1, rank)
        + (if LeadsOnEpsilon(ts[n - 1], s) then EcloseOf(ts, ts[n - 1].stateTo, rank) else [])
  }

  method Eclose(nfa: Automaton, state: State, ghost rank: State -> nat) returns (eclosure: seq<State>)
    requires EpsilonRanked(nfa.transitions, rank)
    ensures eclosure == EcloseOf(nfa.transitions, state, rank)
    ensures |eclosure| >= 1 && eclosure[0] == state
    decreases rank(state)
  {
    eclosure := [state];
    var transitionsCount := nfa.GetTransitionsCount();
    var transitionID := 0;
    while transitionID < transitionsCount
      invariant 0 <= transitionID <= transitionsCount
      invariant eclosure == [state] + EcloseUpTo(nfa.transitions, state, transitionID, rank)
    {
      var currentTransition := nfa.transitions[transitionID];
      if currentTransition.stateFrom == state && currentTransition.character == Epsilon
        && currentTransition.stateTo != state
      {
        var epsilonConnectedStateEclosure := Eclose(nfa, currentTransition.stateTo, rank);
        eclosure := eclosure + epsilonConnectedStateEclosure;
      }
      transitionID := transitionID + 1;
    }
  }

  lemma {:induction false} UpToMember(ts: seq<Transition>, s: State, n: nat, rank: State -> nat, x: State)
    requires n <= |ts| && EpsilonRanked(ts, rank)
    requires x in EcloseUpTo(ts, s, n, rank)
    ensures exists j :: 0 <= j < n && LeadsOnEpsilon(ts[j], s) && x in EcloseOf(ts, ts[j].stateTo, rank)
  {
    if x !in EcloseUpTo(ts, s, n - 1, rank) {
      assert LeadsOnEpsilon(ts[n - 1], s) && x in EcloseOf(ts, ts[n - 1].stateTo, rank);
    } else {
      UpToMember(ts, s, n - 1, rank, x);
    }
  }

  lemma {:induction false} UpToContains(ts: seq<Transition>, s: State, n: nat, rank: State -> nat, j: nat, x: State)
    requires n <= |ts| && EpsilonRanked(ts, rank)
    requires j < n && LeadsOnEpsilon(ts[j], s) && x in EcloseOf(ts, ts[j].stateTo, rank)
    ensures x in EcloseUpTo(ts, s, n, rank)
  {
    if j < n - 1 {
      UpToContains(ts, s, n - 1, rank, j, x);
    }
  }

  /** Every state in the closure of `s` is reachable from `s` by epsilon edges. */
  lemma {:induction false} EcloseSound(ts: seq<Transition>, s: State, rank: State -> nat, x: State)
    requires EpsilonRanked(ts, rank)
    requires x in EcloseOf(ts, s, rank)
    ensures EpsReachable(ts, s, x)
    decreases rank(s)
  {
    if x == s {
      assert EpsPath(ts, [s]);
    } else {
      assert x in EcloseUpTo(ts, s, |ts|, rank);
      UpToMember(ts, s, |ts|, rank, x);
      var j :| 0 <= j < |ts| && LeadsOnEpsilon(ts[j], s) && x in EcloseOf(ts, ts[j].stateTo, rank);
      var y := ts[j].stateTo;
      EcloseSound(ts, y, rank, x);
      var p :| EpsPath(ts, p) && p[0] == y && p[|p| - 1] == x;
      assert EpsEdge(ts, s, y) by {
        assert ts[j] == Transition(s, y, Epsilon);
      }
      var q := PrependEdge(ts, s, p);
    }
  }

  /** An epsilon edge into the start of an epsilon path extends the path backwards. */
  lemma PrependEdge(ts: seq<Transition>, s: State, p: seq<State>) returns (q: seq<State>)
    requires EpsPath(ts, p) && EpsEdge(ts, s, p[0])
    ensures q == [s] + p && EpsPath(ts, q) && q[0] == s && q[|q| - 1] == p[|p| - 1]
  {
    q := [s] + p;
    forall k | 0 <= k < |q| - 1
      ensures EpsEdge(ts, q[k], q[k + 1])
    {
      if k > 0 {
        assert q[k] == p[k - 1] && q[k + 1] == p[k];
      }
    }
  }

  /** The end of every epsilon path from `s` is in the closure of `s`: skipping epsilon
      self-loops loses nothing. */
  lemma {:induction false} EcloseComplete(ts: seq<Transition>, s: State, rank: State -> nat, p: seq<State>)
    requires EpsilonRanked(ts, rank)
    requires EpsPath(ts, p) && p[0] == s
    ensures p[|p| - 1] in EcloseOf(ts, s, rank)
    decreases |p|
  {
    if |p| > 1 {
      var y := p[1];
      var tail := p[1..];
      forall k | 0 <= k < |tail| - 1
        ensures EpsEdge(ts, tail[k], tail[k + 1])
      {
        assert tail[k] == p[k + 1] && tail[k + 1] == p[k + 2];
      }
      assert EpsPath(ts, tail) && tail[|tail| - 1] == p[|p| - 1];
      if y == s {
        EcloseComplete(ts, s, rank, tail);
      } else {
        EcloseComplete(ts, y, rank, tail);
        assert EpsEdge(ts, p[0], p[1]);
        var j :| 0 <= j < |ts| && ts[j] == Transition(s, y, Epsilon);
        UpToContains(ts, s, |ts|, rank, j, p[|p| - 1]);
      }
    }
  }

  /** The closure of `s` is exactly the set of states epsilon-reachable from `s`. */
  lemma EcloseReach(ts: seq<Transition>, s: State, rank: State -> nat, x: State)
    requires EpsilonRanked(ts, rank)
    ensures x in EcloseOf(ts, s, rank) <==> EpsReachable(ts, s, x)
  {
    if x in EcloseOf(ts, s, rank) {
      EcloseSound(ts, s, rank, x);
    }
    if EpsReachable(ts, s, x) {
      var p :| EpsPath(ts, p) && p[0] == s && p[|p| - 1] == x;
      EcloseComplete(ts, s, rank, p);
    }
  }

  /** Besides `s` itself, the closure holds only targets of epsilon edges. */
  lemma EcloseElements(ts: seq<Transition>, s: State, rank: State -> nat, x: State)
    requires EpsilonRanked(ts, rank)
    requires x in EcloseOf(ts, s, rank)
    ensures x == s || exists j :: 0 <= j < |ts| && ts[j].character == Epsilon && ts[j].stateTo == x
  {
    EcloseSound(ts, s, rank, x);
    var p :| EpsPath(ts, p) && p[0] == s && p[|p| - 1] == x;
    if |p| > 1 {
      assert EpsEdge(ts, p[|p| - 2], p[|p| - 1]);
    }
  }

  // ---------------------------------------------------------------------------------------
  // Sorting and combo closures

  predicate Sorted(s: seq<State>) {
    forall i, j :: 0 <= i < j < |s| ==> s[i] <= s[j]
  }

  function InsertSorted(x: State, s: seq<State>): (r: seq<State>)
    requires Sorted(s)
    ensures Sorted(r) && multiset(r) == multiset(s) + multiset{x}
  {
    if s == [] || x <= s[0] then [x] + s
    else
      var rest := InsertSorted(x, s[1..]);
      PrependSorted(s, x, rest);
      [s[0]] + rest
  }

  /** Putting the head of `s` back in front of the insertion into its tail keeps the order. */
  lemma PrependSorted(s: seq<State>, x: State, rest: seq<State>)
    requires Sorted(s) && s != [] && s[0] < x
    requires Sorted(rest) && multiset(rest) == multiset(s[1..]) + multiset{x}
    ensures Sorted([s[0]] + rest) && multiset([s[0]] + rest) == multiset(s) + multiset{x}
  {
    var t := s[1..];
    assert s == [s[0]] + t;
    forall i | 0 <= i < |rest|
      ensures s[0] <= rest[i]
    {
      assert rest[i] in multiset(rest);
      assert rest[i] == x || rest[i] in t;
    }
    var r := [s[0]] + rest;
    forall i, j | 0 <= i < j < |r|
      ensures r[i] <= r[j]
    {
      if i > 0 {
        assert r[i] == rest[i - 1] && r[j] == rest[j - 1];
      } else {
        assert r[j] == rest[j - 1];
      }
    }
  }

  /** The model of the default sort: ascending, duplicates kept. */
  function SortStates(s: seq<State>): (r: seq<State>)
    ensures Sorted(r) && multiset(r) == multiset(s)
  {
    if s == [] then []
    else
      assert s == s[..|s| - 1] + [s[|s| - 1]];
      InsertSorted(s[|s| - 1], SortStates(s[..|s| - 1]))
  }

  /** A sorted list is determined by its multiset, so any fixed total order gives each combo
      state a single representation and comparisons between combo states do not depend on
      which order is used. */
  lemma {:induction false} SortedUnique(a: seq<State>, b: seq<State>)
    requires Sorted(a) && Sorted(b) && multiset(a) == multiset(b)
    ensures a == b
    decreases |a|
  {
    if a != [] {
      assert a[0] in multiset(b);
      assert b != [];
      assert b[0] in multiset(a);
      assert a[0] == b[0];
      assert a == [a[0]] + a[1..];
      assert b == [b[0]] + b[1..];
      assert multiset(a) == multiset{a[0]} + multiset(a[1..]);
      assert multiset(b) == multiset{b[0]} + multiset(b[1..]);
      assert multiset(a[1..]) == multiset(a) - multiset{a[0]};
      assert multiset(b[1..]) == multiset(b) - multiset{b[0]};
      SortedUnique(a[1..], b[1..]);
    } else {
      assert |multiset(b)| == 0;
    }
  }

  /** The concatenated closures of the elements of `combo`, in order. */
  ghost function EclosesOf(ts: seq<Transition>, combo: seq<State>, rank: State -> nat): seq<State>
    requires EpsilonRanked(ts, rank)
  {
    if combo == [] then []
    else EclosesOf(ts, combo[..|combo| - 1], rank) + EcloseOf(ts, combo[|combo| - 1], rank)
  }

  /** The closure of a combo state, sorted. */
  ghost function ComboEcloseOf(ts: seq<Transition>, combo: seq<State>, rank: State -> nat): seq<State>
    requires EpsilonRanked(ts, rank)
  {
    SortStates(EclosesOf(ts, combo, rank))
  }

  lemma {:induction false} EclosesMembers(ts: seq<Transition>, combo: seq<State>, rank: State -> nat, x: State)
    requires EpsilonRanked(ts, rank)
    ensures x in EclosesOf(ts, combo, rank) <==> exists k :: 0 <= k < |combo| && x in EcloseOf(ts, combo[k], rank)
  {
    if combo != [] {
      var n := |combo| - 1;
      var front := combo[..n];
      var before := EclosesOf(ts, front, rank);
      var own := EcloseOf(ts, combo[n], rank);
      assert EclosesOf(ts, combo, rank) == before + own;
      EclosesMembers(ts, front, rank, x);
      if x in before {
        var k :| 0 <= k < |front| && x in EcloseOf(ts, front[k], rank);
        assert combo[k] == front[k];
      } else if x in own {
        assert x in EcloseOf(ts, combo[n], rank);
      } else {
        assert forall k :: 0 <= k < n ==> combo[k] == front[k];
      }
    }
  }

  /** A state is in a combo state's closure iff it is epsilon-reachable from one of the
      combo's elements. */
  lemma ComboEcloseMembers(ts: seq<Transition>, combo: seq<State>, rank: State -> nat, x: State)
    requires EpsilonRanked(ts, rank)
    ensures x in ComboEcloseOf(ts, combo, rank) <==> exists k :: 0 <= k < |combo| && EpsReachable(ts, combo[k], x)
  {
    assert x in ComboEcloseOf(ts, combo, rank) <==> x in multiset(EclosesOf(ts, combo, rank));
    EclosesMembers(ts, combo, rank, x);
    forall k | 0 <= k < |combo|
      ensures x in EcloseOf(ts, combo[k], rank) <==> EpsReachable(ts, combo[k], x)
    {
      EcloseReach(ts, combo[k], rank, x);
    }
  }

  /** Two combo closures are equal exactly when they hold the same states the same number of
      times. */
  lemma ComboEcloseEquality(ts: seq<Transition>, a: seq<State>, b: seq<State>, rank: State -> nat)
    requires EpsilonRanked(ts, rank)
    ensures ComboEcloseOf(ts, a, rank) == ComboEcloseOf(ts, b, rank)
      <==> multiset(EclosesOf(ts, a, rank)) == multiset(EclosesOf(ts, b, rank))
  {
    if multiset(EclosesOf(ts, a, rank)) == multiset(EclosesOf(ts, b, rank)) {
      SortedUnique(ComboEcloseOf(ts, a, rank), ComboEcloseOf(ts, b, rank));
    }
  }

  method ComboEclose(nfa: Automaton, comboState: seq<State>, ghost rank: State -> nat) returns (r: seq<State>)
    requires EpsilonRanked(nfa.transitions, rank)
    ensures r == ComboEcloseOf(nfa.transitions, comboState, rank)
    ensures Sorted(r)
  {
    var comboEclose := [];
    var comboStateElementID := 0;
    while comboStateElementID < |comboState|
      invariant 0 <= comboStateElementID <= |comboState|
      invariant comboEclose == EclosesOf(nfa.transitions, comboState[..comboStateElementID], rank)
    {
      var currentComboStateElement := comboState[comboStateElementID];
      var currentComboStateEclose := Eclose(nfa, currentComboStateElement, rank);
      assert comboState[..comboStateElementID + 1][..comboStateElementID] == comboState[..comboStateElementID];
      comboEclose := comboEclose + currentComboStateEclose;
      comboStateElementID := comboStateElementID + 1;
    }
    assert comboState[..comboStateElementID] == comboState;
    r := SortStates(comboEclose);
  }

  method GetInitialEclose(nfa: Automaton, ghost rank: State -> nat) returns (r: seq<State>)
    requires EpsilonRanked(nfa.transitions, rank)
    ensures r == ComboEcloseOf(nfa.transitions, nfa.initialStates, rank)
  {
    r := ComboEclose(nfa, nfa.GetInitialStates(), rank);
  }
}
