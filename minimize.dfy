/** Edge reversal, Brzozowski's composition of three determinizations and two reversals, and
    the flattening of the final automaton into one symbol-to-state row per state. */
module Minimization {
  import opened Tables
  import opened Automata
  import opened Closures
  import opened Determinization

  // ---------------------------------------------------------------------------------------
  // Reversal

  /** Each edge `(f, t, c)` turned round into `(t, f, c)`, in the same order. */
  function Flipped(ts: seq<Transition>): (r: seq<Transition>)
    ensures |r| == |ts|
  {
    seq(|ts|, i requires 0 <= i < |ts| => Transition(ts[i].stateTo, ts[i].stateFrom, ts[i].character))
  }

  /** The automaton `reverse` builds: initial and final states swapped, every edge turned
      round, and the state count never set (the empty value of a fresh automaton). */
  function ReverseOf(n: Nfa): Nfa {
    Nfa(n.finalStates, 0, Flipped(n.transitions), n.initialStates)
  }

  method Reverse(originalAutomaton: Automaton) returns (reverseAutomaton: Automaton)
    ensures fresh(reverseAutomaton)
    ensures reverseAutomaton.Value() == ReverseOf(originalAutomaton.Value())
  {
    reverseAutomaton := new Automaton();
    reverseAutomaton.SetFinalStates(originalAutomaton.GetInitialStates());
    reverseAutomaton.SetInitialStates(originalAutomaton.GetFinalStates());
    var transitionsCount := originalAutomaton.GetTransitionsCount();
    var currentTransitionID := 0;
    while currentTransitionID < transitionsCount
      invariant 0 <= currentTransitionID <= transitionsCount
      invariant reverseAutomaton.Value()
        == ReverseOf(originalAutomaton.Value()).(transitions := Flipped(originalAutomaton.transitions[..currentTransitionID]))
    {
      var currentTransition := originalAutomaton.transitions[currentTransitionID];
      reverseAutomaton.AddTransition(currentTransition.stateTo, currentTransition.stateFrom, currentTransition.character);
      assert Flipped(originalAutomaton.transitions[..currentTransitionID + 1])
        == Flipped(originalAutomaton.transitions[..currentTransitionID])
           + [Transition(currentTransition.stateTo, currentTransition.stateFrom, currentTransition.character)];
      currentTransitionID := currentTransitionID + 1;
    }
    assert originalAutomaton.transitions[..transitionsCount] == originalAutomaton.transitions;
  }

  /** Reversing twice gives back the edge list and the initial and final states. */
  lemma ReverseTwice(n: Nfa)
    ensures ReverseOf(ReverseOf(n)) == n.(statesCount := 0)
  {
    assert Flipped(Flipped(n.transitions)) == n.transitions;
  }

  /** Every edge of the reversal is an edge of the original turned round, and back. */
  lemma FlippedEdges(ts: seq<Transition>, f: State, t: State, c: Symbol)
    ensures Transition(f, t, c) in Flipped(ts) <==> Transition(t, f, c) in ts
  {
    if Transition(t, f, c) in ts {
      var i :| 0 <= i < |ts| && ts[i] == Transition(t, f, c);
      assert Flipped(ts)[i] == Transition(f, t, c);
    }
  }

  ghost predicate NoEpsilon(ts: seq<Transition>) {
    forall i :: 0 <= i < |ts| ==> ts[i].character != Epsilon
  }

  lemma FlippedNoEpsilon(ts: seq<Transition>)
    requires NoEpsilon(ts)
    ensures NoEpsilon(Flipped(ts))
  {
    forall i | 0 <= i < |ts|
      ensures Flipped(ts)[i].character != Epsilon
    {
      assert Flipped(ts)[i].character == ts[i].character;
    }
  }

  // ---------------------------------------------------------------------------------------
  // The shape of a determinized automaton

  /** The structural promises of `determinize`: a single initial state 0, every edge between
      states that exist and labelled by a real symbol, at most one edge per state and symbol,
      edges grouped by source state, and ascending final states that exist. */
  ghost predicate IsDfa(d: Nfa) {
    && d.initialStates == [0] && d.statesCount > 0
    && (forall i :: 0 <= i < |d.transitions| ==>
          && d.transitions[i].stateFrom < d.statesCount && d.transitions[i].stateTo < d.statesCount
          && d.transitions[i].character != Epsilon)
    && Deterministic(d.transitions) && GroupedBySource(d.transitions)
    && (forall i, j :: 0 <= i < j < |d.finalStates| ==> d.finalStates[i] < d.finalStates[j])
    && (forall i :: 0 <= i < |d.finalStates| ==> d.finalStates[i] < d.statesCount)
  }

  lemma DeterminizationIsDfa(n: Nfa, rank: State -> nat, d: Nfa, combos: seq<seq<State>>)
    requires EpsilonRanked(n.transitions, rank)
    requires IsDeterminization(n, rank, d, combos)
    ensures IsDfa(d)
  {
  }

  /** An automaton without epsilon edges has no epsilon cycle, whatever the ranking. */
  lemma NoEpsilonRanked(ts: seq<Transition>, rank: State -> nat)
    requires NoEpsilon(ts)
    ensures EpsilonRanked(ts, rank)
  {
  }

  /** The ranking used once no epsilon edge is left. */
  function ZeroRank(s: State): nat {
    0
  }

  /** For the builder's automata: edges only go up, so the distance to the largest edge
      target ranks the epsilon edges. */
  function DistanceBelow(top: nat): State -> nat {
    s => if s <= top then top - s else 0
  }

  lemma IncreasingRanked(ts: seq<Transition>)
    requires Increasing(ts)
    ensures EpsilonRanked(ts, DistanceBelow(MaxTarget(ts)))
  {
    var top := MaxTarget(ts);
    forall i | 0 <= i < |ts| && ts[i].character == Epsilon && ts[i].stateFrom != ts[i].stateTo
      ensures DistanceBelow(top)(ts[i].stateTo) < DistanceBelow(top)(ts[i].stateFrom)
    {
      assert ts[i].stateFrom < ts[i].stateTo < top;
    }
  }

  /** `minimNFAize`: determinize, reverse, determinize, reverse, determinize.  The ghost
      results are the intermediate automata and the combo states of each subset construction. */
  method MinimNFAize(nfa: Automaton, ghost rank: State -> nat)
    returns (result: Automaton, ghost first: Nfa, ghost second: Nfa,
             ghost combos1: seq<seq<State>>, ghost combos2: seq<seq<State>>, ghost combos3: seq<seq<State>>)
    requires EpsilonRanked(nfa.transitions, rank)
    ensures fresh(result)
    ensures IsDeterminization(nfa.Value(), rank, first, combos1)
    ensures EpsilonRanked(ReverseOf(first).transitions, ZeroRank)
    ensures IsDeterminization(ReverseOf(first), ZeroRank, second, combos2)
    ensures EpsilonRanked(ReverseOf(second).transitions, ZeroRank)
    ensures IsDeterminization(ReverseOf(second), ZeroRank, result.Value(), combos3)
    ensures IsDfa(result.Value())
  {
    var d1;
    d1, combos1 := Determinize(nfa, rank);
    first := d1.Value();
    var r1 := Reverse(d1);
    FlippedNoEpsilon(first.transitions);
    NoEpsilonRanked(r1.transitions, ZeroRank);
    var d2;
    d2, combos2 := Determinize(r1, ZeroRank);
    second := d2.Value();
    var r2 := Reverse(d2);
    FlippedNoEpsilon(second.transitions);
    NoEpsilonRanked(r2.transitions, ZeroRank);
    result, combos3 := Determinize(r2, ZeroRank);
    DeterminizationIsDfa(r2.Value(), ZeroRank, result.Value(), combos3);
  }

  // ---------------------------------------------------------------------------------------
  // The flattened automaton

  /** The plain tables the player is built from. */
  datatype SimpleDfa = SimpleDfa(transitions: seq<Row>, finalStates: seq<State>)

  /** Row `s` after the first `n` edges were scanned: every edge leaving `s` assigns its
      target to its symbol, a later edge overwriting an earlier one. */
  function RowOf(ts: seq<Transition>, s: State, n: nat): Row
    requires n <= |ts|
  {
    if n == 0 then []
    else if ts[n - 1].stateFrom == s then Put(RowOf(ts, s, n - 1), ts[n - 1].character, ts[n - 1].stateTo)
    else RowOf(ts, s, n - 1)
  }

  /** The target of the last of the first `n` edges that leaves `s` on `c`. */
  function LastTarget(ts: seq<Transition>, s: State, c: Symbol, n: nat): Option<State>
    requires n <= |ts|
  {
    if n == 0 then None
    else if ts[n - 1].stateFrom == s && ts[n - 1].character == c then Some(ts[n - 1].stateTo)
    else LastTarget(ts, s, c, n - 1)
  }

  /** There is no last target exactly when no edge among the first `n` leaves `s` on `c`, and
      a last target is the target of one of those edges. */
  lemma {:induction false} LastTargetSpec(ts: seq<Transition>, s: State, c: Symbol, n: nat)
    requires n <= |ts|
    decreases n
    ensures LastTarget(ts, s, c, n).None? <==>
      forall i :: 0 <= i < n ==> !(ts[i].stateFrom == s && ts[i].character == c)
    ensures LastTarget(ts, s, c, n).Some? ==>
      exists i :: 0 <= i < n && ts[i] == Transition(s, LastTarget(ts, s, c, n).value, c)
  {
    if n > 0 {
      LastTargetSpec(ts, s, c, n - 1);
    }
  }

  /** The row maps each symbol to the target of the last edge out of `s` carrying it. */
  lemma {:induction false} RowOfLookup(ts: seq<Transition>, s: State, n: nat, c: Symbol)
    requires n <= |ts|
    ensures Lookup(RowOf(ts, s, n), c) == LastTarget(ts, s, c, n)
    decreases n
  {
    if n > 0 {
      RowOfLookup(ts, s, n - 1, c);
      RowOfLookupStep(ts, s, n, c);
    }
  }

  lemma RowOfLookupStep(ts: seq<Transition>, s: State, n: nat, c: Symbol)
    requires 0 < n <= |ts|
    ensures Lookup(RowOf(ts, s, n - 1), c) == LastTarget(ts, s, c, n - 1) ==>
      Lookup(RowOf(ts, s, n), c) == LastTarget(ts, s, c, n)
  {
    var e := ts[n - 1];
    if e.stateFrom == s {
      PutLookup(RowOf(ts, s, n - 1), e.character, e.stateTo, c);
    }
  }

  /** In a deterministic edge list the last edge on a symbol is the only one. */
  lemma DeterministicLastTarget(ts: seq<Transition>, s: State, c: Symbol, t: State)
    requires Deterministic(ts)
    ensures LastTarget(ts, s, c, |ts|) == Some(t) <==> Transition(s, t, c) in ts
  {
    LastTargetSpec(ts, s, c, |ts|);
    if Transition(s, t, c) in ts {
      var i :| 0 <= i < |ts| && ts[i] == Transition(s, t, c);
      var r := LastTarget(ts, s, c, |ts|);
      var j :| 0 <= j < |ts| && ts[j] == Transition(s, r.value, c);
    }
  }

  /** `getSimpleNotionOfAMinimalDFA`: one row per state below the state count, then the final
      states copied. */
  method GetSimpleNotionOfAMinimalDFA(minimalDFA: Automaton) returns (simpleNotion: SimpleDfa)
    ensures |simpleNotion.transitions| == minimalDFA.statesCount
    ensures forall s :: 0 <= s < |simpleNotion.transitions| ==>
      simpleNotion.transitions[s] == RowOf(minimalDFA.transitions, s, |minimalDFA.transitions|)
    ensures forall s, c :: 0 <= s < |simpleNotion.transitions| ==>
      Lookup(simpleNotion.transitions[s], c) == LastTarget(minimalDFA.transitions, s, c, |minimalDFA.transitions|)
    ensures simpleNotion.finalStates == minimalDFA.finalStates
  {
    var rows: seq<Row> := [];
    var statesCount := minimalDFA.GetStatesCount();
    var ts := minimalDFA.transitions;
    var currentStateID := 0;
    while currentStateID < statesCount
      invariant 0 <= currentStateID <= statesCount
      invariant |rows| == currentStateID
      invariant forall s :: 0 <= s < currentStateID ==> rows[s] == RowOf(ts, s, |ts|)
    {
      var currentStateTransitions := RowFor(ts, currentStateID);
      rows := rows + [currentStateTransitions];
      currentStateID := currentStateID + 1;
    }
    forall s, c | 0 <= s < |rows|
      ensures Lookup(rows[s], c) == LastTarget(ts, s, c, |ts|)
    {
      RowOfLookup(ts, s, |ts|, c);
    }
    simpleNotion := SimpleDfa(rows, minimalDFA.GetFinalStates());
  }

  /** The inner loop of `getSimpleNotionOfAMinimalDFA`: one scan over every edge, keeping
      those that leave `currentStateID`. */
  method RowFor(ts: seq<Transition>, currentStateID: State) returns (currentStateTransitions: Row)
    ensures currentStateTransitions == RowOf(ts, currentStateID, |ts|)
  {
    currentStateTransitions := [];
    var currentTransitionID := 0;
    while currentTransitionID < |ts|
      invariant 0 <= currentTransitionID <= |ts|
      invariant currentStateTransitions == RowOf(ts, currentStateID, currentTransitionID)
    {
      var currentTransition := ts[currentTransitionID];
      if currentTransition.stateFrom == currentStateID {
        currentStateTransitions := Put(currentStateTransitions, currentTransition.character, currentTransition.stateTo);
      }
      currentTransitionID := currentTransitionID + 1;
    }
  }
}
