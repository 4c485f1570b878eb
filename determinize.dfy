/** The subset construction: combo states (sorted closures) become the states of a
    deterministic automaton, discovered in a worklist that grows while it is scanned. */
module Determinization {
  import opened Tables
  import opened Automata
  import opened Closures

  // ---------------------------------------------------------------------------------------
  // Moves out of a combo state

  /** The targets of the edges, among the first `n`, that leave some element of `combo` on
      symbol `c`, in edge order. */
  function TargetsUpTo(ts: seq<Transition>, combo: seq<State>, c: Symbol, n: nat): seq<State>
    requires n <= |ts|
  {
    if n == 0 then []
    else
      TargetsUpTo(ts, combo, c, n - 1)
        + (if ts[n - 1].stateFrom in combo && ts[n - 1].character == c then [ts[n - 1].stateTo] else [])
  }

  function TargetsOn(ts: seq<Transition>, combo: seq<State>, c: Symbol): seq<State> {
    TargetsUpTo(ts, combo, c, |ts|)
  }

  /** One entry of the symbol-to-targets object. */
  datatype Move = Move(character: Symbol, targets: seq<State>)

  function MoveKeys(moves: seq<Move>): (r: seq<Symbol>)
    ensures |r| == |moves| && forall i :: 0 <= i < |moves| ==> r[i] == moves[i].character
  {
    seq(|moves|, i requires 0 <= i < |moves| => moves[i].character)
  }

  /** The position of the entry for `c` in the symbol-to-targets object, or -1. */
  function MoveIndex(moves: seq<Move>, c: Symbol): (k: int)
    ensures -1 <= k < |moves|
    ensures k == -1 <==> c !in MoveKeys(moves)
    ensures 0 <= k ==> moves[k].character == c
  {
    IndexOf(MoveKeys(moves), c)
  }

  /** `moves` is the object built from the first `n` edges: one entry per non-epsilon symbol
      that some of them carry out of `combo`, holding exactly their targets. */
  ghost predicate MovesOf(ts: seq<Transition>, combo: seq<State>, moves: seq<Move>, n: nat)
    requires n <= |ts|
  {
    && (forall i, j :: 0 <= i < j < |moves| ==> moves[i].character != moves[j].character)
    && (forall i :: 0 <= i < |moves| ==>
          moves[i].character != Epsilon && moves[i].targets != []
          && moves[i].targets == TargetsUpTo(ts, combo, moves[i].character, n))
    && (forall c :: c != Epsilon && TargetsUpTo(ts, combo, c, n) != [] ==> c in MoveKeys(moves))
  }

  /** The object `getComboStateTransitions` has built after the first `n` edges: an edge out
      of the combo on a non-epsilon symbol appends its target to that symbol's entry, creating
      the entry the first time the symbol is met. */
  function MovesUpTo(ts: seq<Transition>, combo: seq<State>, n: nat): seq<Move>
    requires n <= |ts|
  {
    if n == 0 then []
    else
      var moves := MovesUpTo(ts, combo, n - 1);
      var t := ts[n - 1];
      if t.stateFrom in combo && t.character != Epsilon then
        var k := MoveIndex(moves, t.character);
        if k == -1 then moves + [Move(t.character, [t.stateTo])]
        else moves[k := Move(t.character, moves[k].targets + [t.stateTo])]
      else moves
  }

  /** The object built from the first `n` edges has one entry per symbol they carry out of the
      combo, holding exactly its targets in edge order. */
  lemma {:induction false} MovesUpToSound(ts: seq<Transition>, combo: seq<State>, n: nat)
    requires n <= |ts|
    ensures MovesOf(ts, combo, MovesUpTo(ts, combo, n), n)
  {
    if n > 0 {
      MovesUpToSound(ts, combo, n - 1);
      MovesStep(ts, combo, n - 1);
    }
  }

  /** One more edge keeps the object exact. */
  lemma MovesStep(ts: seq<Transition>, combo: seq<State>, n: nat)
    requires n < |ts| && MovesOf(ts, combo, MovesUpTo(ts, combo, n), n)
    ensures MovesOf(ts, combo, MovesUpTo(ts, combo, n + 1), n + 1)
  {
    var moves := MovesUpTo(ts, combo, n);
    var moves' := MovesUpTo(ts, combo, n + 1);
    var t := ts[n];
    var c := t.character;
    if t.stateFrom in combo && c != Epsilon {
      var k := MoveIndex(moves, c);
      assert forall d :: d != c ==> TargetsUpTo(ts, combo, d, n + 1) == TargetsUpTo(ts, combo, d, n);
      assert TargetsUpTo(ts, combo, c, n + 1) == TargetsUpTo(ts, combo, c, n) + [t.stateTo];
      if k == -1 {
        assert MoveKeys(moves') == MoveKeys(moves) + [c];
        assert TargetsUpTo(ts, combo, c, n) == [];
      } else {
        assert MoveKeys(moves') == MoveKeys(moves);
      }
    } else {
      assert moves' == moves;
      assert forall d :: d != Epsilon ==> TargetsUpTo(ts, combo, d, n + 1) == TargetsUpTo(ts, combo, d, n);
    }
  }

  method GetComboStateTransitions(originalNFA: Automaton, comboState: seq<State>) returns (moves: seq<Move>)
    ensures moves == MovesUpTo(originalNFA.transitions, comboState, |originalNFA.transitions|)
    ensures MovesOf(originalNFA.transitions, comboState, moves, |originalNFA.transitions|)
  {
    ghost var ts := originalNFA.transitions;
    moves := [];
    var oldTransitionsCount := originalNFA.GetTransitionsCount();
    var currentTransitionID := 0;
    while currentTransitionID < oldTransitionsCount
      invariant 0 <= currentTransitionID <= oldTransitionsCount
      invariant moves == MovesUpTo(ts, comboState, currentTransitionID)
    {
      var currentTransition := originalNFA.transitions[currentTransitionID];
      var fromCombo := -1 < IndexOf(comboState, currentTransition.stateFrom);
      var nonEpsilon := currentTransition.character != Epsilon;
      if fromCombo && nonEpsilon {
        var c := currentTransition.character;
        var k := MoveIndex(moves, c);
        if k == -1 {
          moves := moves + [Move(c, [currentTransition.stateTo])];
        } else {
          moves := moves[k := Move(c, moves[k].targets + [currentTransition.stateTo])];
        }
      }
      currentTransitionID := currentTransitionID + 1;
    }
    MovesUpToSound(ts, comboState, |ts|);
  }

  // ---------------------------------------------------------------------------------------
  // Final combo states

  ghost predicate IsFinalCombo(finalStates: seq<State>, combo: seq<State>) {
    exists f :: f in finalStates && f in combo
  }

  method IsComboStateFinal(originalNFA: Automaton, comboState: seq<State>) returns (comboStateFinal: bool)
    ensures comboStateFinal <==> IsFinalCombo(originalNFA.finalStates, comboState)
  {
    comboStateFinal := false;
    var oldFinalStates := originalNFA.GetFinalStates();
    var i := 0;
    while i < |oldFinalStates|
      invariant 0 <= i <= |oldFinalStates|
      invariant !comboStateFinal
      invariant forall j :: 0 <= j < i ==> oldFinalStates[j] !in comboState
    {
      if -1 < IndexOf(comboState, oldFinalStates[i]) {
        comboStateFinal := true;
        break;
      }
      i := i + 1;
    }
  }

  // ---------------------------------------------------------------------------------------
  // The list of combo states


  /** The search of `determinize` for a combo state: the index of its first occurrence, with the
      combo appended first when it is new. */
  method FindComboState(comboStates: seq<seq<State>>, target: seq<State>)
    returns (newComboStates: seq<seq<State>>, id: nat)
    ensures id < |newComboStates| && newComboStates[id] == target
    ensures target in comboStates ==>
      newComboStates == comboStates && target !in comboStates[..id]
    ensures target !in comboStates ==>
      newComboStates == comboStates + [target] && id == |comboStates|
  {
    id := |comboStates|;
    var currentlyCheckedComboStateID := 0;
    while currentlyCheckedComboStateID < |comboStates|
      invariant 0 <= currentlyCheckedComboStateID <= |comboStates|
      invariant id == |comboStates|
      invariant target !in comboStates[..currentlyCheckedComboStateID]
    {
      if comboStates[currentlyCheckedComboStateID] == target {
        id := currentlyCheckedComboStateID;
        break;
      }
      assert comboStates[..currentlyCheckedComboStateID + 1]
        == comboStates[..currentlyCheckedComboStateID] + [comboStates[currentlyCheckedComboStateID]];
      currentlyCheckedComboStateID := currentlyCheckedComboStateID + 1;
    }
    if currentlyCheckedComboStateID == |comboStates| {
      assert comboStates[..currentlyCheckedComboStateID] == comboStates;
      newComboStates := comboStates + [target];
    } else {
      newComboStates := comboStates;
    }
  }

  /** Finding or appending a combo state keeps the list free of repeats, inside the box, and
      extending every prefix it extended before. */
  lemma FindKeeps(comboStates: seq<seq<State>>, target: seq<State>, newComboStates: seq<seq<State>>,
                  box: set<seq<State>>, base: seq<seq<State>>)
    requires Distinct(comboStates) && InBox(comboStates, box) && target in box
    requires |base| <= |comboStates| && comboStates[..|base|] == base
    requires target in comboStates ==> newComboStates == comboStates
    requires target !in comboStates ==> newComboStates == comboStates + [target]
    ensures Distinct(newComboStates) && InBox(newComboStates, box)
    ensures |base| <= |newComboStates| && newComboStates[..|base|] == base
  {
    if target !in comboStates {
      assert newComboStates[..|base|] == comboStates[..|base|];
    }
  }

  // ---------------------------------------------------------------------------------------
  // Termination of the worklist: every combo state lies in a finite box

  function MaxTarget(ts: seq<Transition>): (m: nat)
    ensures forall i :: 0 <= i < |ts| ==> ts[i].stateTo < m
  {
    if ts == [] then 0
    else
      var m := MaxTarget(ts[..|ts| - 1]);
      if ts[|ts| - 1].stateTo < m then m else ts[|ts| - 1].stateTo + 1
  }

  function MaxElement(s: seq<State>): (m: nat)
    ensures forall i :: 0 <= i < |s| ==> s[i] < m
  {
    if s == [] then 0
    else
      var m := MaxElement(s[..|s| - 1]);
      if s[|s| - 1] < m then m else s[|s| - 1] + 1
  }

  /** A bound on the length of the closure of any state that has outgoing edges. */
  ghost function MaxEcloseLen(ts: seq<Transition>, rank: State -> nat, n: nat): (m: nat)
    requires n <= |ts| && EpsilonRanked(ts, rank)
    ensures m >= 1 && forall j :: 0 <= j < n ==> |EcloseOf(ts, ts[j].stateFrom, rank)| <= m
  {
    if n == 0 then 1
    else
      var m := MaxEcloseLen(ts, rank, n - 1);
      var l := |EcloseOf(ts, ts[n - 1].stateFrom, rank)|;
      if l <= m then m else l
  }

  lemma {:induction false} NoExitEmpty(ts: seq<Transition>, s: State, n: nat, rank: State -> nat)
    requires n <= |ts| && EpsilonRanked(ts, rank)
    requires forall j :: 0 <= j < n ==> ts[j].stateFrom != s
    ensures EcloseUpTo(ts, s, n, rank) == []
  {
    if n > 0 {
      NoExitEmpty(ts, s, n - 1, rank);
    }
  }

  lemma EcloseLength(ts: seq<Transition>, s: State, rank: State -> nat)
    requires EpsilonRanked(ts, rank)
    ensures |EcloseOf(ts, s, rank)| <= MaxEcloseLen(ts, rank, |ts|)
  {
    if forall j :: 0 <= j < |ts| ==> ts[j].stateFrom != s {
      NoExitEmpty(ts, s, |ts|, rank);
    }
  }

  lemma {:induction false} EclosesLength(ts: seq<Transition>, combo: seq<State>, rank: State -> nat)
    requires EpsilonRanked(ts, rank)
    ensures |EclosesOf(ts, combo, rank)| <= |combo| * MaxEcloseLen(ts, rank, |ts|)
  {
    if combo != [] {
      var e := MaxEcloseLen(ts, rank, |ts|);
      var front := combo[..|combo| - 1];
      EclosesLength(ts, front, rank);
      EcloseLength(ts, combo[|combo| - 1], rank);
      assert |EclosesOf(ts, combo, rank)| == |EclosesOf(ts, front, rank)| + |EcloseOf(ts, combo[|combo| - 1], rank)|;
      assert |combo| * e == |front| * e + e;
    }
  }

  lemma {:induction false} TargetsBounded(ts: seq<Transition>, combo: seq<State>, c: Symbol, n: nat)
    requires n <= |ts|
    ensures |TargetsUpTo(ts, combo, c, n)| <= n
    ensures forall i :: 0 <= i < |TargetsUpTo(ts, combo, c, n)| ==> TargetsUpTo(ts, combo, c, n)[i] < MaxTarget(ts)
  {
    if n > 0 {
      TargetsBounded(ts, combo, c, n - 1);
    }
  }

  /** Every state number in a combo closure is below `bound` when those of the combo and of
      every edge target are. */
  lemma ComboElementsBounded(ts: seq<Transition>, combo: seq<State>, rank: State -> nat, bound: nat)
    requires EpsilonRanked(ts, rank)
    requires forall i :: 0 <= i < |combo| ==> combo[i] < bound
    requires MaxTarget(ts) <= bound
    ensures forall i :: 0 <= i < |ComboEcloseOf(ts, combo, rank)| ==> ComboEcloseOf(ts, combo, rank)[i] < bound
  {
    var r := ComboEcloseOf(ts, combo, rank);
    forall i | 0 <= i < |r|
      ensures r[i] < bound
    {
      var x := r[i];
      assert x in multiset(r);
      assert x in EclosesOf(ts, combo, rank);
      EclosesMembers(ts, combo, rank, x);
      var k :| 0 <= k < |combo| && x in EcloseOf(ts, combo[k], rank);
      EcloseElements(ts, combo[k], rank, x);
    }
  }

  /** All lists of length at most `len` over the states below `bound`. */
  ghost function AllSeqs(len: nat, bound: nat): set<seq<State>> {
    if len == 0 then {[]}
    else AllSeqs(len - 1, bound) + set s, x | s in AllSeqs(len - 1, bound) && 0 <= x < bound :: s + [x]
  }

  lemma {:induction false} InAllSeqs(s: seq<State>, len: nat, bound: nat)
    requires |s| <= len && forall i :: 0 <= i < |s| ==> s[i] < bound
    ensures s in AllSeqs(len, bound)
  {
    if len > 0 {
      if |s| < len {
        InAllSeqs(s, len - 1, bound);
      } else {
        var front := s[..|s| - 1];
        InAllSeqs(front, len - 1, bound);
        assert s == front + [s[|s| - 1]];
      }
    }
  }

  lemma ComboInBox(ts: seq<Transition>, combo: seq<State>, rank: State -> nat, len: nat, bound: nat)
    requires EpsilonRanked(ts, rank)
    requires forall i :: 0 <= i < |combo| ==> combo[i] < bound
    requires MaxTarget(ts) <= bound
    requires |combo| * MaxEcloseLen(ts, rank, |ts|) <= len
    ensures ComboEcloseOf(ts, combo, rank) in AllSeqs(len, bound)
  {
    ComboElementsBounded(ts, combo, rank, bound);
    EclosesLength(ts, combo, rank);
    var r := ComboEcloseOf(ts, combo, rank);
    assert |r| == |multiset(r)| == |multiset(EclosesOf(ts, combo, rank))| == |EclosesOf(ts, combo, rank)|;
    InAllSeqs(ComboEcloseOf(ts, combo, rank), len, bound);
  }

  // ---------------------------------------------------------------------------------------
  // The subset construction

  /** Every edge `from -c-> to` leaves a combo state on a symbol some member moves on, and leads
      to the closure of its `c`-targets. */
  ghost predicate EdgesSound(ts: seq<Transition>, rank: State -> nat, combos: seq<seq<State>>, dts: seq<Transition>)
    requires EpsilonRanked(ts, rank)
  {
    forall i :: 0 <= i < |dts| ==>
      && dts[i].stateFrom < |combos| && dts[i].stateTo < |combos| && dts[i].character != Epsilon
      && TargetsOn(ts, combos[dts[i].stateFrom], dts[i].character) != []
      && combos[dts[i].stateTo] == ComboEcloseOf(ts, TargetsOn(ts, combos[dts[i].stateFrom], dts[i].character), rank)
  }

  /** No two edges leave the same state on the same symbol. */
  ghost predicate Deterministic(dts: seq<Transition>) {
    forall i, j :: 0 <= i < j < |dts| && dts[i].stateFrom == dts[j].stateFrom ==> dts[i].character != dts[j].character
  }

  /** The edges are listed by source state. */
  ghost predicate GroupedBySource(dts: seq<Transition>) {
    forall i, j :: 0 <= i < j < |dts| ==> dts[i].stateFrom <= dts[j].stateFrom
  }

  /** Every non-epsilon symbol that moves a combo state below `k` labels an edge out of it. */
  ghost predicate CompleteBelow(ts: seq<Transition>, combos: seq<seq<State>>, dts: seq<Transition>, k: nat)
    requires k <= |combos|
  {
    forall s, c :: 0 <= s < k && c != Epsilon && TargetsOn(ts, combos[s], c) != [] ==>
      exists i :: 0 <= i < |dts| && dts[i].stateFrom == s && dts[i].character == c
  }

  /** The new final states so far: ascending, below `k`, and exactly the combo states below
      `k` that hold an original final state. */
  ghost predicate FinalsBelow(finalStates: seq<State>, combos: seq<seq<State>>, newFinals: seq<State>, k: nat)
    requires k <= |combos|
  {
    && (forall i, j :: 0 <= i < j < |newFinals| ==> newFinals[i] < newFinals[j])
    && (forall i :: 0 <= i < |newFinals| ==> newFinals[i] < k)
    && (forall s :: 0 <= s < k ==> (s in newFinals <==> IsFinalCombo(finalStates, combos[s])))
  }

  /** Combo state `i` was discovered along an edge from a combo state numbered before it. */
  ghost predicate DiscoveredAt(dts: seq<Transition>, i: nat) {
    exists j :: 0 <= j < |dts| && dts[j].stateTo == i && dts[j].stateFrom < i
  }

  /** Every combo state but the initial one was discovered from an earlier one, so each is
      reached from the initial combo state and none is left over. */
  ghost predicate Discovered(combos: seq<seq<State>>, dts: seq<Transition>) {
    forall i :: 0 < i < |combos| ==> DiscoveredAt(dts, i)
  }

  /** Some edge leads from combo state `a` to combo state `b`. */
  ghost predicate EdgeBetween(dts: seq<Transition>, a: nat, b: nat) {
    exists j :: 0 <= j < |dts| && dts[j].stateFrom == a && dts[j].stateTo == b
  }

  /** `path` follows edges from the initial combo state 0 to combo state `i`. */
  ghost predicate PathTo(dts: seq<Transition>, i: nat, path: seq<nat>) {
    && |path| > 0 && path[0] == 0 && path[|path| - 1] == i
    && forall m :: 0 <= m < |path| - 1 ==> EdgeBetween(dts, path[m], path[m + 1])
  }

  /** In a discovered numbering every combo state is reachable from the initial one. */
  lemma {:induction false} DiscoveredReached(combos: seq<seq<State>>, dts: seq<Transition>, i: nat) returns (path: seq<nat>)
    requires Discovered(combos, dts) && i < |combos|
    ensures PathTo(dts, i, path)
    decreases i
  {
    if i == 0 {
      path := [0];
    } else {
      assert DiscoveredAt(dts, i);
      var j :| 0 <= j < |dts| && dts[j].stateTo == i && dts[j].stateFrom < i;
      var before := DiscoveredReached(combos, dts, dts[j].stateFrom);
      path := before + [i];
      assert EdgeBetween(dts, before[|before| - 1], i);
      forall m | 0 <= m < |path| - 1
        ensures EdgeBetween(dts, path[m], path[m + 1])
      {
        if m < |before| - 1 {
          assert path[m] == before[m] && path[m + 1] == before[m + 1];
        }
      }
    }
  }

  /** `d` is the subset automaton of `n` whose state `i` is the combo state `combos[i]`. */
  ghost predicate IsDeterminization(n: Nfa, rank: State -> nat, d: Nfa, combos: seq<seq<State>>)
    requires EpsilonRanked(n.transitions, rank)
  {
    && |combos| > 0 && d.statesCount == |combos| && d.initialStates == [0]
    && combos[0] == ComboEcloseOf(n.transitions, n.initialStates, rank)
    && Distinct(combos) && Discovered(combos, d.transitions)
    && EdgesSound(n.transitions, rank, combos, d.transitions)
    && Deterministic(d.transitions) && GroupedBySource(d.transitions)
    && CompleteBelow(n.transitions, combos, d.transitions, |combos|)
    && FinalsBelow(n.finalStates, combos, d.finalStates, |combos|)
  }

  /** An automaton without edges determinizes to the initial combo state alone. */
  lemma WithoutEdgesOneState(n: Nfa, rank: State -> nat, d: Nfa, combos: seq<seq<State>>)
    requires EpsilonRanked(n.transitions, rank) && n.transitions == []
    requires IsDeterminization(n, rank, d, combos)
    ensures d.statesCount == 1 && d.transitions == []
  {
    forall c: Symbol, combo: seq<State>
      ensures TargetsOn(n.transitions, combo, c) == []
    {
    }
    assert forall e :: e !in d.transitions;
    assert multiset(d.transitions) == multiset{};
    assert |combos| == 1 || DiscoveredAt(d.transitions, |combos| - 1);
  }

  ghost predicate InBox(combos: seq<seq<State>>, box: set<seq<State>>) {
    forall i :: 0 <= i < |combos| ==> combos[i] in box
  }

  /** The `n` edges from position `start` on leave `k` on the symbols of the first `n` moves. */
  ghost predicate EdgesForMoves(dts: seq<Transition>, start: nat, k: nat, moves: seq<Move>, n: nat) {
    && n <= |moves| && |dts| == start + n
    && forall i :: start <= i < |dts| ==> dts[i].stateFrom == k && dts[i].character == moves[i - start].character
  }

  /** The loop over the keys of one combo state's moves: an edge `k -c-> id` per move, `id`
      being the position of the move's closure among the combo states (appended when new). */
  method AddMoves(originalNFA: Automaton, determinizedNFA: Automaton, comboStates: seq<seq<State>>,
                  k: nat, moves: seq<Move>, ghost rank: State -> nat, ghost len: nat, ghost bound: nat)
    returns (newComboStates: seq<seq<State>>)
    requires originalNFA != determinizedNFA
    requires EpsilonRanked(originalNFA.transitions, rank)
    requires k < |comboStates|
    requires MovesOf(originalNFA.transitions, comboStates[k], moves, |originalNFA.transitions|)
    requires MaxTarget(originalNFA.transitions) <= bound
    requires |originalNFA.transitions| * MaxEcloseLen(originalNFA.transitions, rank, |originalNFA.transitions|) <= len
    requires Distinct(comboStates) && InBox(comboStates, AllSeqs(len, bound))
    requires Discovered(comboStates, determinizedNFA.transitions)
    requires EdgesSound(originalNFA.transitions, rank, comboStates, determinizedNFA.transitions)
    requires Deterministic(determinizedNFA.transitions) && GroupedBySource(determinizedNFA.transitions)
    requires forall i :: 0 <= i < |determinizedNFA.transitions| ==> determinizedNFA.transitions[i].stateFrom < k
    modifies determinizedNFA
    ensures |comboStates| <= |newComboStates| && newComboStates[..|comboStates|] == comboStates
    ensures Distinct(newComboStates) && InBox(newComboStates, AllSeqs(len, bound))
    ensures Discovered(newComboStates, determinizedNFA.transitions)
    ensures determinizedNFA.Value() == old(determinizedNFA.Value()).(transitions := determinizedNFA.transitions)
    ensures EdgesForMoves(determinizedNFA.transitions, |old(determinizedNFA.transitions)|, k, moves, |moves|)
    ensures determinizedNFA.transitions[..|old(determinizedNFA.transitions)|] == old(determinizedNFA.transitions)
    ensures EdgesSound(originalNFA.transitions, rank, newComboStates, determinizedNFA.transitions)
    ensures Deterministic(determinizedNFA.transitions) && GroupedBySource(determinizedNFA.transitions)
  {
    ghost var ts := originalNFA.transitions;
    ghost var start := |determinizedNFA.transitions|;
    ghost var e := MaxEcloseLen(ts, rank, |ts|);
    newComboStates := comboStates;
    var cstID := 0;
    while cstID < |moves|
      invariant 0 <= cstID <= |moves|
      invariant |comboStates| <= |newComboStates| && newComboStates[..|comboStates|] == comboStates
      invariant Distinct(newComboStates) && InBox(newComboStates, AllSeqs(len, bound))
      invariant Discovered(newComboStates, determinizedNFA.transitions)
      invariant determinizedNFA.Value() == old(determinizedNFA.Value()).(transitions := determinizedNFA.transitions)
      invariant EdgesForMoves(determinizedNFA.transitions, start, k, moves, cstID)
      invariant determinizedNFA.transitions[..start] == old(determinizedNFA.transitions)
      invariant forall i :: 0 <= i < start ==> determinizedNFA.transitions[i].stateFrom < k
      invariant EdgesSound(ts, rank, newComboStates, determinizedNFA.transitions)
      invariant Deterministic(determinizedNFA.transitions) && GroupedBySource(determinizedNFA.transitions)
    {
      var cstKey := moves[cstID].character;
      var targets := moves[cstID].targets;
      var currentComboStateTransitionTargetEclose := ComboEclose(originalNFA, targets, rank);
      assert newComboStates[k] == comboStates[k] by {
        assert newComboStates[..|comboStates|][k] == newComboStates[k];
      }
      TargetsBounded(ts, comboStates[k], cstKey, |ts|);
      MulMonotone(|targets|, |ts|, e);
      ComboInBox(ts, targets, rank, len, bound);
      ghost var before := newComboStates;
      ghost var dts := determinizedNFA.transitions;
      var found, id := FindComboState(newComboStates, currentComboStateTransitionTargetEclose);
      FindKeeps(newComboStates, currentComboStateTransitionTargetEclose, found, AllSeqs(len, bound), comboStates);
      newComboStates := found;
      determinizedNFA.AddTransition(k, id, cstKey);
      AddMoveStep(ts, rank, before, newComboStates, dts, determinizedNFA.transitions, k, id, moves, cstID, start);
      AddMoveDiscovers(before, newComboStates, dts, determinizedNFA.transitions, k, id, cstKey);
      cstID := cstID + 1;
    }
  }


  /** One pass of `AddMoves`' loop keeps the edges sound and deterministic. */
  lemma AddMoveStep(ts: seq<Transition>, rank: State -> nat, combos: seq<seq<State>>, combos': seq<seq<State>>,
                    dts: seq<Transition>, dts': seq<Transition>, k: nat, id: nat, moves: seq<Move>, n: nat, start: nat)
    requires EpsilonRanked(ts, rank)
    requires n < |moves| && forall i, j :: 0 <= i < j < |moves| ==> moves[i].character != moves[j].character
    requires moves[n].character != Epsilon
    requires k < |combos| <= |combos'| && combos'[..|combos|] == combos
    requires TargetsOn(ts, combos[k], moves[n].character) != []
    requires id < |combos'| && combos'[id] == ComboEcloseOf(ts, TargetsOn(ts, combos[k], moves[n].character), rank)
    requires dts' == dts + [Transition(k, id, moves[n].character)]
    requires EdgesForMoves(dts, start, k, moves, n)
    requires forall i :: 0 <= i < start ==> dts[i].stateFrom < k
    requires EdgesSound(ts, rank, combos, dts)
    requires Deterministic(dts) && GroupedBySource(dts)
    ensures EdgesForMoves(dts', start, k, moves, n + 1) && dts'[..start] == dts[..start]
    ensures forall i :: 0 <= i < start ==> dts'[i].stateFrom < k
    ensures EdgesSound(ts, rank, combos', dts')
    ensures Deterministic(dts') && GroupedBySource(dts')
  {
    AddMoveEdges(dts, dts', k, id, moves, n, start);
    AddMoveSound(ts, rank, combos, combos', dts, dts', k, id, moves[n].character);
    AddMoveDeterministic(dts, dts', k, id, moves, n, start);
  }

  /** A new combo state is appended together with the edge that discovered it, from a combo
      state already numbered. */
  lemma AddMoveDiscovers(combos: seq<seq<State>>, combos': seq<seq<State>>, dts: seq<Transition>, dts': seq<Transition>,
                         k: nat, id: nat, c: Symbol)
    requires k < |combos| && id < |combos'| && (combos' == combos || (combos' == combos + [combos'[id]] && id == |combos|))
    requires dts' == dts + [Transition(k, id, c)]
    requires Discovered(combos, dts)
    ensures Discovered(combos', dts')
  {
    forall i | 0 < i < |combos'|
      ensures DiscoveredAt(dts', i)
    {
      if i < |combos| {
        assert DiscoveredAt(dts, i);
        var j :| 0 <= j < |dts| && dts[j].stateTo == i && dts[j].stateFrom < i;
        assert dts'[j] == dts[j];
      } else {
        assert dts'[|dts|] == Transition(k, id, c);
      }
    }
  }

  lemma AddMoveEdges(dts: seq<Transition>, dts': seq<Transition>, k: nat, id: nat, moves: seq<Move>, n: nat, start: nat)
    requires n < |moves|
    requires dts' == dts + [Transition(k, id, moves[n].character)]
    requires EdgesForMoves(dts, start, k, moves, n)
    requires forall i :: 0 <= i < start ==> dts[i].stateFrom < k
    ensures EdgesForMoves(dts', start, k, moves, n + 1) && dts'[..start] == dts[..start]
    ensures forall i :: 0 <= i < start ==> dts'[i].stateFrom < k
  {
  }

  lemma AddMoveSound(ts: seq<Transition>, rank: State -> nat, combos: seq<seq<State>>, combos': seq<seq<State>>,
                     dts: seq<Transition>, dts': seq<Transition>, k: nat, id: nat, c: Symbol)
    requires EpsilonRanked(ts, rank)
    requires c != Epsilon
    requires k < |combos| <= |combos'| && combos'[..|combos|] == combos
    requires TargetsOn(ts, combos[k], c) != []
    requires id < |combos'| && combos'[id] == ComboEcloseOf(ts, TargetsOn(ts, combos[k], c), rank)
    requires dts' == dts + [Transition(k, id, c)]
    requires EdgesSound(ts, rank, combos, dts)
    ensures EdgesSound(ts, rank, combos', dts')
  {
    forall i | 0 <= i < |dts|
      ensures dts[i].stateFrom < |combos| && dts[i].stateTo < |combos|
      ensures combos'[dts[i].stateFrom] == combos[dts[i].stateFrom]
      ensures combos'[dts[i].stateTo] == combos[dts[i].stateTo]
    {
      assert combos'[..|combos|][dts[i].stateFrom] == combos'[dts[i].stateFrom];
      assert combos'[..|combos|][dts[i].stateTo] == combos'[dts[i].stateTo];
    }
    assert combos'[k] == combos[k] by {
      assert combos'[..|combos|][k] == combos'[k];
    }
  }

  lemma AddMoveDeterministic(dts: seq<Transition>, dts': seq<Transition>, k: nat, id: nat, moves: seq<Move>,
                             n: nat, start: nat)
    requires n < |moves| && forall i, j :: 0 <= i < j < |moves| ==> moves[i].character != moves[j].character
    requires dts' == dts + [Transition(k, id, moves[n].character)]
    requires EdgesForMoves(dts, start, k, moves, n)
    requires forall i :: 0 <= i < start ==> dts[i].stateFrom < k
    requires Deterministic(dts) && GroupedBySource(dts)
    ensures Deterministic(dts') && GroupedBySource(dts')
  {
  }

  /** One round of the worklist keeps the completeness and finality invariants, one combo
      state further on. */
  lemma WorklistStep(ts: seq<Transition>, combos: seq<seq<State>>, combos': seq<seq<State>>,
                     dts: seq<Transition>, dts': seq<Transition>, k: nat, moves: seq<Move>,
                     finalStates: seq<State>, finals: seq<State>, finals': seq<State>, isFinal: bool)
    requires k < |combos| <= |combos'| && combos'[..|combos|] == combos
    requires MovesOf(ts, combos[k], moves, |ts|)
    requires EdgesForMoves(dts', |dts|, k, moves, |moves|) && dts'[..|dts|] == dts
    requires forall i :: 0 <= i < |dts| ==> dts[i].stateFrom < k
    requires CompleteBelow(ts, combos, dts, k)
    requires FinalsBelow(finalStates, combos, finals, k)
    requires isFinal <==> IsFinalCombo(finalStates, combos[k])
    requires finals' == if isFinal then finals + [k] else finals
    ensures forall i :: 0 <= i < |dts'| ==> dts'[i].stateFrom < k + 1
    ensures CompleteBelow(ts, combos', dts', k + 1)
    ensures FinalsBelow(finalStates, combos', finals', k + 1)
  {
    PrefixKept(combos, combos', k);
    EdgesKept(dts, dts');
    CompleteStep(ts, combos, combos', dts, dts', k, moves);
    FinalsStep(finalStates, combos, combos', finals, finals', k, isFinal);
  }

  lemma PrefixKept(combos: seq<seq<State>>, combos': seq<seq<State>>, k: nat)
    requires k < |combos| <= |combos'| && combos'[..|combos|] == combos
    ensures forall s :: 0 <= s <= k ==> combos'[s] == combos[s]
  {
    forall s | 0 <= s <= k
      ensures combos'[s] == combos[s]
    {
      assert combos'[..|combos|][s] == combos'[s];
    }
  }

  lemma EdgesKept(dts: seq<Transition>, dts': seq<Transition>)
    requires |dts| <= |dts'| && dts'[..|dts|] == dts
    ensures forall i :: 0 <= i < |dts| ==> dts'[i] == dts[i]
  {
    forall i | 0 <= i < |dts|
      ensures dts'[i] == dts[i]
    {
      assert dts'[..|dts|][i] == dts'[i];
    }
  }

  lemma CompleteStep(ts: seq<Transition>, combos: seq<seq<State>>, combos': seq<seq<State>>,
                     dts: seq<Transition>, dts': seq<Transition>, k: nat, moves: seq<Move>)
    requires k < |combos| <= |combos'| && forall s :: 0 <= s <= k ==> combos'[s] == combos[s]
    requires MovesOf(ts, combos[k], moves, |ts|)
    requires EdgesForMoves(dts', |dts|, k, moves, |moves|) && forall i :: 0 <= i < |dts| ==> dts'[i] == dts[i]
    requires CompleteBelow(ts, combos, dts, k)
    ensures CompleteBelow(ts, combos', dts', k + 1)
  {
    forall s, c | 0 <= s < k + 1 && c != Epsilon && TargetsOn(ts, combos'[s], c) != []
      ensures exists i :: 0 <= i < |dts'| && dts'[i].stateFrom == s && dts'[i].character == c
    {
      if s < k {
        var i :| 0 <= i < |dts| && dts[i].stateFrom == s && dts[i].character == c;
        assert dts'[i] == dts[i];
      } else {
        assert c in MoveKeys(moves);
        var j := MoveIndex(moves, c);
        var i := |dts| + j;
        assert dts'[i].stateFrom == k && dts'[i].character == c;
      }
    }
  }

  lemma FinalsStep(finalStates: seq<State>, combos: seq<seq<State>>, combos': seq<seq<State>>,
                   finals: seq<State>, finals': seq<State>, k: nat, isFinal: bool)
    requires k < |combos| <= |combos'| && forall s :: 0 <= s <= k ==> combos'[s] == combos[s]
    requires FinalsBelow(finalStates, combos, finals, k)
    requires isFinal <==> IsFinalCombo(finalStates, combos[k])
    requires finals' == if isFinal then finals + [k] else finals
    ensures FinalsBelow(finalStates, combos', finals', k + 1)
  {
  }

  /** The subset construction, as `determinize` runs it: combo states are numbered in the
      order the worklist discovers them, the initial one first. */
  method Determinize(originalNFA: Automaton, ghost rank: State -> nat)
    returns (determinizedNFA: Automaton, ghost comboStates: seq<seq<State>>)
    requires EpsilonRanked(originalNFA.transitions, rank)
    ensures fresh(determinizedNFA)
    ensures IsDeterminization(originalNFA.Value(), rank, determinizedNFA.Value(), comboStates)
  {
    ghost var ts := originalNFA.transitions;
    ghost var e := MaxEcloseLen(ts, rank, |ts|);
    ghost var m := MaxElement(originalNFA.initialStates);
    ghost var bound := if m < MaxTarget(ts) then MaxTarget(ts) else m;
    ghost var width := if |originalNFA.initialStates| < |ts| then |ts| else |originalNFA.initialStates|;
    MulMonotone(0, width, e);
    ghost var len: nat := width * e;
    MulMonotone(|originalNFA.initialStates|, width, e);
    MulMonotone(|ts|, width, e);
    determinizedNFA := new Automaton();
    var newFinalStates: seq<State> := [];
    var initialEclose := GetInitialEclose(originalNFA, rank);
    ComboInBox(ts, originalNFA.initialStates, rank, len, bound);
    var combos := [initialEclose];
    var currentComboStateID := 0;
    while currentComboStateID < |combos|
      invariant currentComboStateID <= |combos|
      invariant Explored(ts, rank, originalNFA.finalStates, initialEclose, len, bound,
                         combos, determinizedNFA.transitions, newFinalStates, currentComboStateID)
      invariant determinizedNFA.Value() == EmptyNfa.(transitions := determinizedNFA.transitions)
      decreases |AllSeqs(len, bound)| - currentComboStateID
    {
      DistinctBounded(combos, AllSeqs(len, bound));
      combos, newFinalStates := VisitCombo(originalNFA, determinizedNFA, combos, currentComboStateID, newFinalStates,
                                           rank, len, bound, initialEclose);
      currentComboStateID := currentComboStateID + 1;
    }
    ghost var dts := determinizedNFA.transitions;
    DeterminizationComplete(originalNFA.Value(), rank, combos, dts, newFinalStates, len, bound);
    determinizedNFA.SetInitialStates([0]);
    determinizedNFA.SetFinalStates(newFinalStates);
    determinizedNFA.SetStatesCount(|combos|);
    assert determinizedNFA.Value() == Nfa([0], |combos|, dts, newFinalStates);
    comboStates := combos;
  }

  /** The invariant of the worklist loop once the first `k` combo states were visited. */
  ghost predicate Explored(ts: seq<Transition>, rank: State -> nat, finalStates: seq<State>, initialEclose: seq<State>,
                           len: nat, bound: nat, combos: seq<seq<State>>, dts: seq<Transition>, finals: seq<State>, k: nat)
    requires EpsilonRanked(ts, rank)
  {
    && 0 < |combos| && k <= |combos|
    && combos[0] == initialEclose
    && Distinct(combos) && InBox(combos, AllSeqs(len, bound)) && Discovered(combos, dts)
    && EdgesSound(ts, rank, combos, dts)
    && Deterministic(dts) && GroupedBySource(dts)
    && (forall i :: 0 <= i < |dts| ==> dts[i].stateFrom < k)
    && CompleteBelow(ts, combos, dts, k)
    && FinalsBelow(finalStates, combos, finals, k)
  }

  /** One turn of `determinize`'s worklist loop: combo state `k` is visited, its finality
      recorded and its moves added, new combo states being appended to the worklist. */
  method VisitCombo(originalNFA: Automaton, determinizedNFA: Automaton, combos: seq<seq<State>>, k: nat,
                    newFinalStates: seq<State>, ghost rank: State -> nat, ghost len: nat, ghost bound: nat,
                    ghost initialEclose: seq<State>)
    returns (combos': seq<seq<State>>, newFinalStates': seq<State>)
    requires originalNFA != determinizedNFA
    requires EpsilonRanked(originalNFA.transitions, rank)
    requires MaxTarget(originalNFA.transitions) <= bound
    requires |originalNFA.transitions| * MaxEcloseLen(originalNFA.transitions, rank, |originalNFA.transitions|) <= len
    requires k < |combos|
    requires Explored(originalNFA.transitions, rank, originalNFA.finalStates, initialEclose, len, bound,
                      combos, determinizedNFA.transitions, newFinalStates, k)
    modifies determinizedNFA
    ensures Explored(originalNFA.transitions, rank, originalNFA.finalStates, initialEclose, len, bound,
                     combos', determinizedNFA.transitions, newFinalStates', k + 1)
    ensures determinizedNFA.Value() == old(determinizedNFA.Value()).(transitions := determinizedNFA.transitions)
  {
    ghost var ts := originalNFA.transitions;
    var currentComboState := combos[k];
    var isFinal := IsComboStateFinal(originalNFA, currentComboState);
    newFinalStates' := newFinalStates;
    if isFinal {
      newFinalStates' := newFinalStates + [k];
    }
    var moves := GetComboStateTransitions(originalNFA, currentComboState);
    ghost var dts := determinizedNFA.transitions;
    combos' := AddMoves(originalNFA, determinizedNFA, combos, k, moves, rank, len, bound);
    WorklistStep(ts, combos, combos', dts, determinizedNFA.transitions, k, moves,
                 originalNFA.finalStates, newFinalStates, newFinalStates', isFinal);
    assert combos'[0] == combos[0] by {
      assert combos'[..|combos|][0] == combos'[0];
    }
  }

  lemma DeterminizationComplete(n: Nfa, rank: State -> nat, combos: seq<seq<State>>,
                                dts: seq<Transition>, finals: seq<State>, len: nat, bound: nat)
    requires EpsilonRanked(n.transitions, rank)
    requires Explored(n.transitions, rank, n.finalStates, ComboEcloseOf(n.transitions, n.initialStates, rank),
                      len, bound, combos, dts, finals, |combos|)
    ensures IsDeterminization(n, rank, Nfa([0], |combos|, dts, finals), combos)
  {
  }
}
