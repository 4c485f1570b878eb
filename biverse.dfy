/** The finalized automaton handed to the completion search: forward rows, the transported
    (reverse) rows derived from them, the final states and the fixed initial state 0. */
module Biverse {
  import opened Tables

  /** The state every simplified automaton starts in. */
  const INITIAL_STATE: State := 0

  /** `rev` is the transported form of `transitions`: one reverse row per state, built by
      visiting that state's keys in their insertion order. */
  ghost predicate TransportedOf(rev: seq<ReverseRow>, transitions: seq<Row>) {
    && |rev| == |transitions|
    && forall s :: 0 <= s < |rev| ==> rev[s] == ReverseOfRow(transitions[s])
  }

  /** Builds the transported table: for each state and each symbol key of its row, the
      symbol is pushed onto the bucket of the state it leads to. */
  method CreateReverseTransitions(transitions: seq<Row>) returns (rev: seq<ReverseRow>)
    ensures TransportedOf(rev, transitions)
    ensures forall s, t: State, c :: 0 <= s < |rev| ==>
      (c in BucketOf(rev[s], t) <==> Lookup(transitions[s], c) == Some(t))
    ensures forall s, t: State :: 0 <= s < |rev| ==> BucketOf(rev[s], t) == SymbolsTo(transitions[s], t)
    ensures forall s :: 0 <= s < |rev| ==> NonEmptyBuckets(rev[s])
    ensures forall s, t: State :: 0 <= s < |rev| ==> (t in Targets(rev[s]) <==> t in TargetsOfRow(transitions[s]))
  {
    rev := [];
    var statesCount := |transitions|;
    var stateNumber := 0;
    while stateNumber < statesCount
      invariant 0 <= stateNumber <= statesCount
      invariant TransportedOf(rev, transitions[..stateNumber])
    {
      var line := ReverseRowOf(transitions[stateNumber]);
      TransportedGrows(rev, transitions, stateNumber, line);
      rev := rev + [line];
      stateNumber := stateNumber + 1;
    }
    assert transitions[..stateNumber] == transitions;
    TransportedInverts(rev, transitions);
  }

  lemma TransportedGrows(rev: seq<ReverseRow>, transitions: seq<Row>, n: nat, line: ReverseRow)
    requires n < |transitions| && TransportedOf(rev, transitions[..n]) && line == ReverseOfRow(transitions[n])
    ensures TransportedOf(rev + [line], transitions[..n + 1])
  {
    forall s | 0 <= s < n + 1
      ensures (rev + [line])[s] == ReverseOfRow(transitions[..n + 1][s])
    {
      if s < n {
        assert transitions[..n][s] == transitions[..n + 1][s];
      }
    }
  }

  /** The inner loop of `createReverseTransitions`: the keys of one row, in order, each pushed
      onto the bucket of its target. */
  method ReverseRowOf(row: Row) returns (line: ReverseRow)
    ensures line == ReverseOfRow(row)
  {
    line := [];
    var keyId := 0;
    while keyId < |row|
      invariant 0 <= keyId <= |row|
      invariant line == ReverseOfRow(row[..keyId])
    {
      assert row[..keyId + 1][..keyId] == row[..keyId];
      line := AddSymbol(line, row[keyId].1, row[keyId].0);
      keyId := keyId + 1;
    }
    assert row[..|row|] == row;
  }

  /** The transported table inverts the forward one, bucket by bucket. */
  lemma TransportedInverts(rev: seq<ReverseRow>, transitions: seq<Row>)
    requires TransportedOf(rev, transitions)
    ensures forall s, t: State, c :: 0 <= s < |rev| ==>
      (c in BucketOf(rev[s], t) <==> Lookup(transitions[s], c) == Some(t))
    ensures forall s, t: State :: 0 <= s < |rev| ==> BucketOf(rev[s], t) == SymbolsTo(transitions[s], t)
    ensures forall s :: 0 <= s < |rev| ==> NonEmptyBuckets(rev[s])
    ensures forall s, t: State :: 0 <= s < |rev| ==> (t in Targets(rev[s]) <==> t in TargetsOfRow(transitions[s]))
  {
    forall s, t: State, c | 0 <= s < |rev|
      ensures c in BucketOf(rev[s], t) <==> Lookup(transitions[s], c) == Some(t)
    {
      ReverseOfRowInverts(transitions[s], t, c);
    }
    forall s | 0 <= s < |rev|
      ensures (forall t: State :: BucketOf(rev[s], t) == SymbolsTo(transitions[s], t))
      ensures NonEmptyBuckets(rev[s])
      ensures forall t: State :: t in Targets(rev[s]) <==> t in TargetsOfRow(transitions[s])
    {
      ReverseOfRowBuckets(transitions[s]);
    }
  }

  /** A biverse DFA.  It is never changed after construction, so its fields are constants. */
  class BiverseDFA {
    const transitions: seq<Row>
    const finalStates: seq<State>
    const reverseTransitions: seq<ReverseRow>
    const initialState: State := INITIAL_STATE

    /** An omitted argument is `None`.  Omitted transitions and final states default to
        empty tables; omitted reverse transitions are computed from the `transitions`
        argument itself, which must then be present. */
    constructor (transitions: Option<seq<Row>>, finalStates: Option<seq<State>>,
                 reverseTransitions: Option<seq<ReverseRow>>)
      requires reverseTransitions.None? ==> transitions.Some?
      ensures this.transitions == if transitions.Some? then transitions.value else []
      ensures this.finalStates == if finalStates.Some? then finalStates.value else []
      ensures reverseTransitions.Some? ==> this.reverseTransitions == reverseTransitions.value
      ensures reverseTransitions.None? ==> TransportedOf(this.reverseTransitions, this.transitions)
      ensures initialState == INITIAL_STATE
    {
      this.transitions := if transitions.Some? then transitions.value else [];
      this.finalStates := if finalStates.Some? then finalStates.value else [];
      if reverseTransitions.Some? {
        this.reverseTransitions := reverseTransitions.value;
      } else {
        var rev := CreateReverseTransitions(transitions.value);
        this.reverseTransitions := rev;
      }
    }

    /** Membership by `indexOf`. */
    function IsStateFinal(state: State): (b: bool)
      ensures b <==> state in finalStates
    {
      -1 < IndexOf(finalStates, state)
    }

    /** `transitions[state]`, undefined past the last state. */
    function GetStateTransitions(state: State): (r: Option<Row>)
      ensures r.Some? <==> state < |transitions|
      ensures r.Some? ==> r.value == transitions[state]
    {
      if state < |transitions| then Some(transitions[state]) else None
    }

    /** `reverseTransitions[state]`, undefined past the last state. */
    function GetStateReverseTransitions(state: State): (r: Option<ReverseRow>)
      ensures r.Some? <==> state < |reverseTransitions|
      ensures r.Some? ==> r.value == reverseTransitions[state]
    {
      if state < |reverseTransitions| then Some(reverseTransitions[state]) else None
    }

    /** `transitions[state][item]`; reading the row of a state that does not exist fails in
        the original, hence the precondition. */
    function GetNextState(state: State, item: Symbol): (r: Option<State>)
      requires state < |transitions|
      ensures forall t :: r == Some(t) <==> (item, t) in transitions[state]
    {
      var row := transitions[state];
      var r := Lookup(row, item);
      assert forall t: State :: r == Some(t) <==> (item, t) in row by {
        forall t: State
          ensures r == Some(t) <==> (item, t) in row
        {
          LookupIn(row, item, t);
        }
      }
      r
    }

    function GetInitialState(): (s: State)
      ensures s == 0
    {
      initialState
    }
  }
}
