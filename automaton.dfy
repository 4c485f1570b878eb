/** The NFA data structure and the Thompson-style builder that turns a regular-expression
    syntax tree into an NFA by splicing transition lists with shifted state numbers. */
module Automata {
  import opened Tables

  /** One labelled edge; the label `Epsilon` (the empty string) marks an epsilon edge. */
  datatype Transition = Transition(stateFrom: State, stateTo: State, character: Symbol)

  /** A snapshot of an automaton's four fields. */
  datatype Nfa = Nfa(initialStates: seq<State>, statesCount: nat,
                     transitions: seq<Transition>, finalStates: seq<State>)

  /** The automaton every builder starts from: no states, nothing else.  (The original
      initialises the state count to an empty array.  The model writes 0, the number the
      array converts to; the two differ under `+`, which turns the array into a string, so
      `WellShaped` keeps such an automaton out of every sum.) */
  const EmptyNfa := Nfa([], 0, [], [])

  class Automaton {
    var initialStates: seq<State>
    var statesCount: nat
    var transitions: seq<Transition>
    var finalStates: seq<State>

    function Value(): Nfa
      reads this
    {
      Nfa(initialStates, statesCount, transitions, finalStates)
    }

    constructor ()
      ensures Value() == EmptyNfa
    {
      initialStates := [];
      statesCount := 0;
      transitions := [];
      finalStates := [];
    }

    method SetInitialStates(states: seq<State>)
      modifies this
      ensures Value() == old(Value()).(initialStates := states)
    {
      initialStates := states;
    }

    function GetInitialStates(): seq<State>
      reads this
    {
      initialStates
    }

    function GetStatesCount(): nat
      reads this
    {
      statesCount
    }

    function GetTransitionsCount(): nat
      reads this
    {
      |transitions|
    }

    method SetStatesCount(count: nat)
      modifies this
      ensures Value() == old(Value()).(statesCount := count)
    {
      statesCount := count;
    }

    /** Appends one edge at the end of the transition list. */
    method AddTransition(stateFrom: State, stateTo: State, character: Symbol)
      modifies this
      ensures Value() == old(Value()).(transitions := old(transitions) + [Transition(stateFrom, stateTo, character)])
    {
      transitions := transitions + [Transition(stateFrom, stateTo, character)];
    }

    method SetFinalStates(states: seq<State>)
      modifies this
      ensures Value() == old(Value()).(finalStates := states)
    {
      finalStates := states;
    }

    function GetFinalStates(): seq<State>
      reads this
    {
      finalStates
    }
  }

  /** The snapshots of a list of automata. */
  function Values(automata: seq<Automaton>): (r: seq<Nfa>)
    reads automata
    ensures |r| == |automata|
  {
    if automata == [] then [] else Values(automata[..|automata| - 1]) + [automata[|automata| - 1].Value()]
  }

  lemma ValuesAt(automata: seq<Automaton>, i: nat)
    requires i < |automata|
    ensures Values(automata)[i] == automata[i].Value()
  {
    if i < |automata| - 1 {
      ValuesAt(automata[..|automata| - 1], i);
    }
  }

  /** `ns` lists the current values of `automata`, one for one. */
  ghost predicate HasValues(automata: seq<Automaton>, ns: seq<Nfa>)
    reads automata
  {
    |ns| == |automata| && forall i :: 0 <= i < |automata| ==> automata[i].Value() == ns[i]
  }

  lemma ValuesAll(automata: seq<Automaton>)
    ensures HasValues(automata, Values(automata))
  {
    forall i | 0 <= i < |automata|
      ensures Values(automata)[i] == automata[i].Value()
    {
      ValuesAt(automata, i);
    }
  }

  // ---------------------------------------------------------------------------------------
  // Splicing helpers

  function ShiftStates(states: seq<State>, offset: nat): seq<State> {
    seq(|states|, i requires 0 <= i < |states| => states[i] + offset)
  }

  function Shifted(ts: seq<Transition>, offset: nat): seq<Transition> {
    seq(|ts|, i requires 0 <= i < |ts| =>
      Transition(ts[i].stateFrom + offset, ts[i].stateTo + offset, ts[i].character))
  }

  /** One epsilon edge from each of `states` to `target`, in order. */
  function Bridges(states: seq<State>, target: State): seq<Transition> {
    seq(|states|, i requires 0 <= i < |states| => Transition(states[i], target, Epsilon))
  }

  // ---------------------------------------------------------------------------------------
  // The specification of the builders, on snapshots

  /** Sequential composition: left's states keep their numbers, right's are shifted past them,
      and every final state of left gets an epsilon edge to right's (shifted) state 0. */
  function ConcatOf(left: Nfa, right: Nfa): Nfa {
    Nfa(left.initialStates,
        left.statesCount + right.statesCount,
        left.transitions + Bridges(left.finalStates, left.statesCount)
          + Shifted(right.transitions, left.statesCount),
        ShiftStates(right.finalStates, left.statesCount))
  }

  function SumCounts(ns: seq<Nfa>): nat {
    if ns == [] then 0 else SumCounts(ns[..|ns| - 1]) + ns[|ns| - 1].statesCount
  }

  /** The edges contributed by one alternative placed at `offset`. */
  function ChoiceBlock(n: Nfa, offset: nat, last: State): seq<Transition> {
    [Transition(0, offset, Epsilon)] + Shifted(n.transitions, offset)
      + Bridges(ShiftStates(n.finalStates, offset), last)
  }

  /** The alternatives are laid out one after the other from state 1 on; alternative i starts
      at 1 plus the sizes of the alternatives before it. */
  function ChoiceEdges(ns: seq<Nfa>, last: State): seq<Transition> {
    if ns == [] then [] else
      ChoiceEdges(ns[..|ns| - 1], last) + ChoiceBlock(ns[|ns| - 1], 1 + SumCounts(ns[..|ns| - 1]), last)
  }

  lemma ChoiceEdgesStep(ns: seq<Nfa>, k: nat, last: State)
    requires k < |ns|
    ensures SumCounts(ns[..k + 1]) == SumCounts(ns[..k]) + ns[k].statesCount
    ensures ChoiceEdges(ns[..k + 1], last) == ChoiceEdges(ns[..k], last) + ChoiceBlock(ns[k], 1 + SumCounts(ns[..k]), last)
  {
    assert ns[..k + 1][..k] == ns[..k];
  }

  /** Parallel composition with a fresh entry state 0 and a fresh exit state. */
  function ChoiceOf(ns: seq<Nfa>): Nfa {
    var count := 2 + SumCounts(ns);
    Nfa([0], count, ChoiceEdges(ns, count - 1), [count - 1])
  }

  /** The left-nested concatenation of one or more automata. */
  function ConcatAll(ns: seq<Nfa>): Nfa
    requires |ns| >= 1
  {
    if |ns| == 1 then ns[0] else ConcatOf(ConcatAll(ns[..|ns| - 1]), ns[|ns| - 1])
  }

  // ---------------------------------------------------------------------------------------
  // The builders

  method Concat(left: Automaton, right: Automaton) returns (result: Automaton)
    ensures fresh(result)
    ensures result.Value() == ConcatOf(left.Value(), right.Value())
  {
    result := new Automaton();
    result.SetStatesCount(left.GetStatesCount() + right.GetStatesCount());
    result.SetInitialStates(left.GetInitialStates());
    var offset := left.GetStatesCount();
    // left's edges are copied as they are: shifted by 0
    AppendShifted(result, left.transitions, 0);
    ShiftedByZero(left.transitions);
    AppendBridges(result, left.GetFinalStates(), offset);
    AppendShifted(result, right.transitions, offset);
    var newFinalStates := ShiftedCopy(right.GetFinalStates(), offset);
    result.SetFinalStates(newFinalStates);
  }

  lemma ShiftedByZero(ts: seq<Transition>)
    ensures Shifted(ts, 0) == ts
  {
  }

  /** A loop of `concat` over the edges of one operand: each edge is added with both ends
      shifted by `offset`. */
  method AppendShifted(result: Automaton, ts: seq<Transition>, offset: nat)
    modifies result
    ensures result.Value() == old(result.Value()).(transitions := old(result.transitions) + Shifted(ts, offset))
  {
    ghost var before := result.transitions;
    var i := 0;
    while i < |ts|
      invariant 0 <= i <= |ts|
      invariant result.Value() == old(result.Value()).(transitions := before + Shifted(ts[..i], offset))
    {
      var t := ts[i];
      assert Shifted(ts[..i + 1], offset)
        == Shifted(ts[..i], offset) + [Transition(t.stateFrom + offset, t.stateTo + offset, t.character)];
      result.AddTransition(t.stateFrom + offset, t.stateTo + offset, t.character);
      i := i + 1;
    }
    assert ts[..i] == ts;
  }

  /** The loop of `concat` that joins the operands: an epsilon edge from each of `states` to
      `target`. */
  method AppendBridges(result: Automaton, states: seq<State>, target: State)
    modifies result
    ensures result.Value() == old(result.Value()).(transitions := old(result.transitions) + Bridges(states, target))
  {
    ghost var before := result.transitions;
    var j := 0;
    while j < |states|
      invariant 0 <= j <= |states|
      invariant result.Value() == old(result.Value()).(transitions := before + Bridges(states[..j], target))
    {
      assert Bridges(states[..j + 1], target) == Bridges(states[..j], target) + [Transition(states[j], target, Epsilon)];
      result.AddTransition(states[j], target, Epsilon);
      j := j + 1;
    }
    assert states[..j] == states;
  }

  /** The last loop of `concat`: each state of a copied list is shifted in place. */
  method ShiftedCopy(states: seq<State>, offset: nat) returns (newStates: seq<State>)
    ensures newStates == ShiftStates(states, offset)
  {
    newStates := states;
    var j := 0;
    while j < |newStates|
      invariant 0 <= j <= |newStates| == |states|
      invariant newStates == ShiftStates(states[..j], offset) + states[j..]
    {
      newStates := newStates[j := newStates[j] + offset];
      j := j + 1;
    }
    assert states[j..] == [];
    assert states[..j] == states;
  }

  /** The body of `Choice`'s loop for one alternative: the entry edge, the alternative's edges
      shifted to `adderTrack`, and an exit edge from each of its shifted final states. */
  method AddAlternative(result: Automaton, currentChoice: Automaton, adderTrack: nat, last: State)
    requires result != currentChoice
    modifies result
    ensures result.Value() == old(result.Value()).(transitions :=
      old(result.transitions) + ChoiceBlock(currentChoice.Value(), adderTrack, last))
  {
    ghost var before := result.transitions;
    result.AddTransition(0, adderTrack, Epsilon);

    var currentChoiceTransitionsCount := currentChoice.GetTransitionsCount();
    var i := 0;
    while i < currentChoiceTransitionsCount
      invariant 0 <= i <= currentChoiceTransitionsCount
      invariant result.Value() == old(result.Value()).(transitions :=
        before + [Transition(0, adderTrack, Epsilon)] + Shifted(currentChoice.transitions[..i], adderTrack))
    {
      var t := currentChoice.transitions[i];
      assert Shifted(currentChoice.transitions[..i + 1], adderTrack)
        == Shifted(currentChoice.transitions[..i], adderTrack)
           + [Transition(t.stateFrom + adderTrack, t.stateTo + adderTrack, t.character)];
      result.AddTransition(t.stateFrom + adderTrack, t.stateTo + adderTrack, t.character);
      i := i + 1;
    }
    assert currentChoice.transitions[..i] == currentChoice.transitions;

    ghost var middle := result.transitions;
    var currentChoiceFinalStates := currentChoice.GetFinalStates();
    ghost var shiftedFinals := ShiftStates(currentChoiceFinalStates, adderTrack);
    var j := 0;
    while j < |currentChoiceFinalStates|
      invariant 0 <= j <= |currentChoiceFinalStates|
      invariant result.Value() == old(result.Value()).(transitions := middle + Bridges(shiftedFinals[..j], last))
    {
      assert shiftedFinals[..j + 1] == shiftedFinals[..j] + [currentChoiceFinalStates[j] + adderTrack];
      assert Bridges(shiftedFinals[..j + 1], last)
        == Bridges(shiftedFinals[..j], last) + [Transition(currentChoiceFinalStates[j] + adderTrack, last, Epsilon)];
      result.AddTransition(currentChoiceFinalStates[j] + adderTrack, last, Epsilon);
      j := j + 1;
    }
    assert shiftedFinals[..j] == shiftedFinals;
  }

  /** The first loop of `Choice`: two fresh states plus the states of every alternative. */
  method CountChoiceStates(choices: seq<Automaton>, ghost ns: seq<Nfa>) returns (statesCount: nat)
    requires HasValues(choices, ns)
    ensures statesCount == 2 + SumCounts(ns)
  {
    statesCount := 2;
    var k := 0;
    while k < |choices|
      invariant 0 <= k <= |choices|
      invariant statesCount == 2 + SumCounts(ns[..k])
    {
      ChoiceEdgesStep(ns, k, 0);
      statesCount := statesCount + choices[k].GetStatesCount();
      k := k + 1;
    }
    assert ns[..k] == ns;
  }

  method Choice(choices: seq<Automaton>) returns (result: Automaton)
    ensures fresh(result)
    ensures result.Value() == ChoiceOf(old(Values(choices)))
  {
    ghost var ns := Values(choices);
    ValuesAll(choices);
    result := new Automaton();
    var statesCount := CountChoiceStates(choices, ns);
    FillChoice(result, choices, statesCount, ns);
  }

  /** What `Choice` does to the fresh automaton once the states are counted. */
  method FillChoice(result: Automaton, choices: seq<Automaton>, statesCount: nat, ghost ns: seq<Nfa>)
    requires HasValues(choices, ns) && result !in choices
    requires result.Value() == EmptyNfa && statesCount == 2 + SumCounts(ns)
    modifies result
    ensures result.Value() == ChoiceOf(ns)
  {
    result.SetStatesCount(statesCount);
    result.SetInitialStates([0]);
    AddAlternatives(result, choices, statesCount - 1, ns);
    result.SetFinalStates([statesCount - 1]);
  }

  /** The second loop of `Choice`: the alternatives placed one after the other. */
  method AddAlternatives(result: Automaton, choices: seq<Automaton>, last: State, ghost ns: seq<Nfa>)
    requires HasValues(choices, ns)
    requires result !in choices
    requires result.transitions == []
    modifies result
    ensures result.Value() == old(result.Value()).(transitions := ChoiceEdges(ns, last))
  {
    var adderTrack := 1;
    var k := 0;
    while k < |choices|
      invariant 0 <= k <= |choices|
      invariant adderTrack == 1 + SumCounts(ns[..k])
      invariant result.Value() == old(result.Value()).(transitions := ChoiceEdges(ns[..k], last))
      invariant HasValues(choices, ns)
    {
      ChoiceEdgesStep(ns, k, last);
      var currentChoice := choices[k];
      AddAlternative(result, currentChoice, adderTrack, last);
      adderTrack := adderTrack + currentChoice.GetStatesCount();
      k := k + 1;
    }
    assert ns[..k] == ns;
  }

  // ---------------------------------------------------------------------------------------
  // Syntax trees

  /** The parser's tree: a single-symbol test, a sequence, an alternation, or any other node
      kind, which the builder turns into an empty automaton when it is the whole tree. */
  datatype Ast = TestNode(symbol: Symbol) | SeqNode(nodes: seq<Ast>) | ChoiceNode(alternatives: seq<Ast>)
               | OtherNode(kind: string)

  /** Only the three node kinds the builder handles; a sequence node reads its first two
      children unconditionally, so it needs two. */
  predicate Supported(ast: Ast) {
    match ast
    case TestNode(_) => true
    case SeqNode(nodes) => |nodes| >= 2 && forall i :: 0 <= i < |nodes| ==> Supported(nodes[i])
    case ChoiceNode(alternatives) => forall i :: 0 <= i < |alternatives| ==> Supported(alternatives[i])
    case OtherNode(_) => false
  }

  /** The trees the builder is modelled on: an unknown node kind only as the whole tree.  Below
      a sequence or choice node, the empty automaton of an unknown node carries a state count
      that is an empty array, and the builder's additions turn into string concatenation. */
  predicate WellShaped(ast: Ast) {
    ast.OtherNode? || Supported(ast)
  }

  /** The automaton a tree denotes. */
  function AstNfa(ast: Ast): Nfa
    requires WellShaped(ast)
    decreases ast, 1
  {
    match ast
    case TestNode(c) => Nfa([0], 2, [Transition(0, 1, c)], [1])
    case SeqNode(nodes) => ConcatAll(ChildNfas(ast))
    case ChoiceNode(alternatives) => ChoiceOf(ChildNfas(ast))
    case OtherNode(_) => EmptyNfa
  }

  /** The children of a sequence or choice node. */
  function Children(ast: Ast): seq<Ast> {
    match ast
    case SeqNode(nodes) => nodes
    case ChoiceNode(alternatives) => alternatives
    case _ => []
  }

  /** The automata of the children of a sequence or choice node, in order. */
  function ChildNfas(ast: Ast): (ns: seq<Nfa>)
    requires (ast.SeqNode? || ast.ChoiceNode?) && WellShaped(ast)
    decreases ast, 0
    ensures |ns| == |Children(ast)|
    ensures forall i :: 0 <= i < |ns| ==> WellShaped(Children(ast)[i]) && ns[i] == AstNfa(Children(ast)[i])
  {
    match ast
    case SeqNode(nodes) => seq(|nodes|, i requires 0 <= i < |nodes| => AstNfa(nodes[i]))
    case ChoiceNode(alternatives) => seq(|alternatives|, i requires 0 <= i < |alternatives| => AstNfa(alternatives[i]))
  }

  method AstToNFA(ast: Ast) returns (result: Automaton)
    requires WellShaped(ast)
    decreases ast, 2
    ensures fresh(result)
    ensures result.Value() == AstNfa(ast)
  {
    match ast
    case TestNode(c) =>
      result := new Automaton();
      result.SetStatesCount(2);
      result.SetInitialStates([0]);
      result.SetFinalStates([1]);
      result.AddTransition(0, 1, c);
    case SeqNode(nodes) =>
      result := SeqToNFA(ast);
    case ChoiceNode(alternatives) =>
      result := ChoiceToNFA(ast);
    case OtherNode(_) =>
      result := new Automaton();
  }

  /** The sequence branch of `astToNFA`: the automaton of the first child, then the automaton
      of each further child concatenated to it (the original concatenates the first two and
      then the rest, which builds the same automata in the same order). */
  method SeqToNFA(ast: Ast) returns (result: Automaton)
    requires ast.SeqNode? && WellShaped(ast)
    decreases ast, 1
    ensures fresh(result)
    ensures result.Value() == AstNfa(ast)
  {
    var nodes := ast.nodes;
    result := AstToNFA(nodes[0]);
    ConcatAllPrefix(ChildNfas(ast), 1);
    var k := 1;
    while k < |nodes|
      invariant 1 <= k <= |nodes|
      invariant fresh(result)
      invariant result.Value() == ConcatAll(ChildNfas(ast)[..k])
    {
      result := ConcatChild(ast, k, result);
      k := k + 1;
    }
    assert ChildNfas(ast)[..k] == ChildNfas(ast);
  }

  /** One turn of the sequence branch: the automaton of child `k` concatenated to the
      automaton of the children before it. */
  method ConcatChild(ast: Ast, k: nat, result: Automaton) returns (result': Automaton)
    requires ast.SeqNode? && WellShaped(ast) && 1 <= k < |ast.nodes|
    requires result.Value() == ConcatAll(ChildNfas(ast)[..k])
    decreases ast, 0
    ensures fresh(result')
    ensures result'.Value() == ConcatAll(ChildNfas(ast)[..k + 1])
  {
    var node := AstToNFA(ast.nodes[k]);
    ConcatAllPrefix(ChildNfas(ast), k);
    result' := Concat(result, node);
  }

  lemma ConcatAllPrefix(ns: seq<Nfa>, k: nat)
    requires 1 <= k < |ns|
    ensures ConcatAll(ns[..k + 1]) == ConcatOf(ConcatAll(ns[..k]), ns[k])
    ensures k == 1 ==> ConcatAll(ns[..1]) == ns[0]
  {
    assert ns[..k + 1][..k] == ns[..k];
  }

  /** The choice branch of `astToNFA`: one automaton per alternative, joined by `choice`. */
  method ChoiceToNFA(ast: Ast) returns (result: Automaton)
    requires ast.ChoiceNode? && WellShaped(ast)
    decreases ast, 1
    ensures fresh(result)
    ensures result.Value() == AstNfa(ast)
  {
    var alternatives := ast.alternatives;
    ghost var ns := ChildNfas(ast);
    var choices: seq<Automaton> := [];
    var k := 0;
    while k < |alternatives|
      invariant 0 <= k <= |alternatives|
      invariant |choices| == k
      invariant forall i :: 0 <= i < k ==> fresh(choices[i]) && choices[i].Value() == ns[i]
    {
      var node := AstToNFA(alternatives[k]);
      choices := choices + [node];
      k := k + 1;
    }
    forall i | 0 <= i < |choices|
      ensures Values(choices)[i] == ns[i]
    {
      ValuesAt(choices, i);
    }
    assert Values(choices) == ns;
    result := Choice(choices);
  }

  // ---------------------------------------------------------------------------------------
  // Structural properties of the builder

  /** Every edge goes from a lower state number to a higher one, so the epsilon edges in
      particular form no cycle. */
  ghost predicate Increasing(ts: seq<Transition>) {
    forall i :: 0 <= i < |ts| ==> ts[i].stateFrom < ts[i].stateTo
  }

  ghost predicate FinalsInRange(n: Nfa) {
    forall i :: 0 <= i < |n.finalStates| ==> n.finalStates[i] < n.statesCount
  }

  /** Every state number the automaton mentions is below its state count. */
  ghost predicate Bounded(n: Nfa) {
    && n.statesCount > 0
    && (forall i :: 0 <= i < |n.initialStates| ==> n.initialStates[i] < n.statesCount)
    && FinalsInRange(n)
    && forall i :: 0 <= i < |n.transitions| ==>
         n.transitions[i].stateFrom < n.statesCount && n.transitions[i].stateTo < n.statesCount
  }

  /** The shape promised for `concat`: the counts add up and the edge list has exactly one
      bridge per final state of the left operand. */
  lemma ConcatShape(left: Nfa, right: Nfa)
    ensures ConcatOf(left, right).statesCount == left.statesCount + right.statesCount
    ensures ConcatOf(left, right).initialStates == left.initialStates
    ensures |ConcatOf(left, right).transitions|
      == |left.transitions| + |left.finalStates| + |right.transitions|
    ensures forall x :: x in ConcatOf(left, right).finalStates <==>
      exists f :: f in right.finalStates && x == f + left.statesCount
  {
    var fs := ConcatOf(left, right).finalStates;
    forall x | x in fs
      ensures exists f :: f in right.finalStates && x == f + left.statesCount
    {
      var i :| 0 <= i < |fs| && fs[i] == x;
      assert right.finalStates[i] in right.finalStates;
    }
    forall x | exists f :: f in right.finalStates && x == f + left.statesCount
      ensures x in fs
    {
      var f :| f in right.finalStates && x == f + left.statesCount;
      var i :| 0 <= i < |right.finalStates| && right.finalStates[i] == f;
      assert fs[i] == x;
    }
  }

  lemma ConcatIncreasing(left: Nfa, right: Nfa)
    requires FinalsInRange(left) && FinalsInRange(right)
    requires Increasing(left.transitions) && Increasing(right.transitions)
    ensures FinalsInRange(ConcatOf(left, right))
    ensures Increasing(ConcatOf(left, right).transitions)
  {
  }

  lemma ConcatBounded(left: Nfa, right: Nfa)
    requires Bounded(left) && Bounded(right)
    ensures Bounded(ConcatOf(left, right))
  {
  }

  lemma {:induction false} SumCountsPrefix(ns: seq<Nfa>, k: nat)
    requires k <= |ns|
    ensures SumCounts(ns[..k]) <= SumCounts(ns)
    decreases |ns|
  {
    if k < |ns| {
      assert ns[..|ns| - 1][..k] == ns[..k];
      SumCountsPrefix(ns[..|ns| - 1], k);
    } else {
      assert ns[..k] == ns;
    }
  }

  /** Alternative i's block sits right after the blocks of the alternatives before it, at
      offset 1 plus their sizes. */
  lemma ChoicePlacement(ns: seq<Nfa>, i: nat, last: State)
    requires i < |ns|
    ensures ChoiceEdges(ns[..i], last) + ChoiceBlock(ns[i], 1 + SumCounts(ns[..i]), last)
      <= ChoiceEdges(ns, last)
  {
    ChoiceEdgesStep(ns, i, last);
    ChoiceEdgesPrefix(ns, i + 1, last);
  }

  /** The edges of the first k alternatives begin the edges of all of them. */
  lemma {:induction false} ChoiceEdgesPrefix(ns: seq<Nfa>, k: nat, last: State)
    requires k <= |ns|
    ensures ChoiceEdges(ns[..k], last) <= ChoiceEdges(ns, last)
    decreases |ns|
  {
    if k < |ns| {
      var front := ns[..|ns| - 1];
      assert front[..k] == ns[..k];
      ChoiceEdgesPrefix(front, k, last);
      var before := ChoiceEdges(front, last);
      assert ChoiceEdges(ns, last) == before + ChoiceBlock(ns[|ns| - 1], 1 + SumCounts(front), last);
    } else {
      assert ns[..k] == ns;
    }
  }

  lemma {:induction false} ChoiceEdgesIncreasing(ns: seq<Nfa>, last: State)
    requires forall i :: 0 <= i < |ns| ==> FinalsInRange(ns[i]) && Increasing(ns[i].transitions)
    requires 1 + SumCounts(ns) <= last
    ensures Increasing(ChoiceEdges(ns, last))
    decreases |ns|
  {
    if ns != [] {
      var front := ns[..|ns| - 1];
      SumCountsPrefix(ns, |ns| - 1);
      ChoiceEdgesIncreasing(front, last);
    }
  }

  lemma {:induction false} ChoiceEdgesBounded(ns: seq<Nfa>, last: State)
    requires forall i :: 0 <= i < |ns| ==> Bounded(ns[i])
    requires 1 + SumCounts(ns) <= last
    ensures forall i :: 0 <= i < |ChoiceEdges(ns, last)| ==>
      ChoiceEdges(ns, last)[i].stateFrom <= last && ChoiceEdges(ns, last)[i].stateTo <= last
    decreases |ns|
  {
    if ns != [] {
      var front := ns[..|ns| - 1];
      SumCountsPrefix(ns, |ns| - 1);
      ChoiceEdgesBounded(front, last);
    }
  }

  lemma ChoiceIncreasing(ns: seq<Nfa>)
    requires forall i :: 0 <= i < |ns| ==> FinalsInRange(ns[i]) && Increasing(ns[i].transitions)
    ensures FinalsInRange(ChoiceOf(ns))
    ensures Increasing(ChoiceOf(ns).transitions)
  {
    ChoiceEdgesIncreasing(ns, 1 + SumCounts(ns));
  }

  lemma ChoiceBounded(ns: seq<Nfa>)
    requires forall i :: 0 <= i < |ns| ==> Bounded(ns[i])
    ensures Bounded(ChoiceOf(ns))
  {
    ChoiceEdgesBounded(ns, 1 + SumCounts(ns));
  }

  lemma {:induction false} ConcatAllIncreasing(ns: seq<Nfa>)
    requires |ns| >= 1
    requires forall i :: 0 <= i < |ns| ==> FinalsInRange(ns[i]) && Increasing(ns[i].transitions)
    ensures FinalsInRange(ConcatAll(ns)) && Increasing(ConcatAll(ns).transitions)
  {
    if |ns| > 1 {
      ConcatAllIncreasing(ns[..|ns| - 1]);
      ConcatIncreasing(ConcatAll(ns[..|ns| - 1]), ns[|ns| - 1]);
    }
  }

  lemma {:induction false} ConcatAllBounded(ns: seq<Nfa>)
    requires |ns| >= 1
    requires forall i :: 0 <= i < |ns| ==> Bounded(ns[i])
    ensures Bounded(ConcatAll(ns))
  {
    if |ns| > 1 {
      ConcatAllBounded(ns[..|ns| - 1]);
      ConcatBounded(ConcatAll(ns[..|ns| - 1]), ns[|ns| - 1]);
    }
  }

  /** Every automaton the builder produces has only forward edges and in-range final states;
      this is what lets the epsilon-closure recursion stop. */
  lemma {:induction false} AstNfaIncreasing(ast: Ast)
    requires WellShaped(ast)
    ensures FinalsInRange(AstNfa(ast)) && Increasing(AstNfa(ast).transitions)
    decreases ast
  {
    match ast
    case TestNode(_) =>
    case SeqNode(nodes) =>
      var ns := ChildNfas(ast);
      forall i | 0 <= i < |nodes|
        ensures FinalsInRange(ns[i]) && Increasing(ns[i].transitions)
      {
        AstNfaIncreasing(nodes[i]);
      }
      ConcatAllIncreasing(ns);
    case ChoiceNode(alternatives) =>
      var ns := ChildNfas(ast);
      forall i | 0 <= i < |alternatives|
        ensures FinalsInRange(ns[i]) && Increasing(ns[i].transitions)
      {
        AstNfaIncreasing(alternatives[i]);
      }
      ChoiceIncreasing(ns);
    case OtherNode(_) =>
  }

  /** A tree made of the three handled node kinds yields an automaton whose state numbers all
      lie below its state count. */
  lemma {:induction false} AstNfaBounded(ast: Ast)
    requires Supported(ast)
    ensures WellShaped(ast) && Bounded(AstNfa(ast))
    decreases ast
  {
    match ast
    case TestNode(_) =>
    case SeqNode(nodes) =>
      var ns := ChildNfas(ast);
      forall i | 0 <= i < |nodes|
        ensures Bounded(ns[i])
      {
        AstNfaBounded(nodes[i]);
      }
      ConcatAllBounded(ns);
    case ChoiceNode(alternatives) =>
      var ns := ChildNfas(ast);
      forall i | 0 <= i < |alternatives|
        ensures Bounded(ns[i])
      {
        AstNfaBounded(alternatives[i]);
      }
      ChoiceBounded(ns);
  }
}
