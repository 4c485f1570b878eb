/** The completion search.  A traverser runs a biverse DFA over an input one symbol at a
    time.  Every generation of records starts from the accepted records of the previous
    symbol ("tail records"); each record of a generation proposes missing records for the
    symbols the input could have had instead, which join the same generation unless they
    loop or merely extend a record already there.  At the end of the input the records
    that stand in a final state are the reported completions. */
module Traversal {
  import opened Tables
  import opened Biverse
  import opened Records

  // ---------------------------------------------------------------------------
  // The table

  /** Every transition of the table leads to a state of the table. */
  predicate RowsInRange(transitions: seq<Row>) {
    forall s, i :: 0 <= s < |transitions| && 0 <= i < |transitions[s]| ==> transitions[s][i].1 < |transitions|
  }

  lemma {:induction false} TargetsOfRowIn(row: seq<(Symbol, State)>, t: State)
    requires t in TargetsOfRow(row)
    ensures exists j :: 0 <= j < |row| && row[j].1 == t
    decreases |row|
  {
    var front := row[..|row| - 1];
    if t in TargetsOfRow(front) {
      TargetsOfRowIn(front, t);
      var j :| 0 <= j < |front| && front[j].1 == t;
      assert row[j].1 == t;
    } else {
      assert row[|row| - 1].1 == t;
    }
  }

  /** A state reached by a forward transition is a state of the table. */
  lemma LookupInRange(transitions: seq<Row>, s: State, c: Symbol)
    requires RowsInRange(transitions) && s < |transitions|
    requires Lookup(transitions[s], c).Some?
    ensures Lookup(transitions[s], c).value < |transitions|
  {
    var row := transitions[s];
    var j :| 0 <= j < |row| && Keys(row)[j] == c;
    LookupAt(row, j);
  }

  /** A bucket of a transported row is non-empty, leads to a state of the table, and holds
      exactly the symbols whose forward transition leads there. */
  lemma BucketInRange(transitions: seq<Row>, tt: seq<ReverseRow>, s: State, i: nat)
    requires TransportedOf(tt, transitions) && RowsInRange(transitions)
    requires s < |tt| && i < |tt[s]|
    ensures tt[s][i].target < |transitions|
    ensures tt[s][i].symbols != []
    ensures forall c :: c in tt[s][i].symbols <==> Lookup(transitions[s], c) == Some(tt[s][i].target)
  {
    var row := transitions[s];
    var t := tt[s][i].target;
    ReverseOfRowBuckets(row);
    assert Targets(tt[s])[i] == t;
    TargetsOfRowIn(row, t);
    forall c
      ensures c in tt[s][i].symbols <==> Lookup(row, c) == Some(t)
    {
      ReverseOfRowInverts(row, t, c);
    }
  }

  /** The bucket `rrow[next]` of the symbols leading to `next` holds `item` when `row[item]` is `next`. */
  lemma AcceptedBucket(transitions: seq<Row>, tt: seq<ReverseRow>, s: State, item: Symbol, next: State)
    requires TransportedOf(tt, transitions) && s < |tt|
    requires Lookup(transitions[s], item) == Some(next)
    ensures item in BucketOf(tt[s], next)
    ensures forall c :: c in BucketOf(tt[s], next) ==> Lookup(transitions[s], c) == Some(next)
  {
    forall c
      ensures c in BucketOf(tt[s], next) <==> Lookup(transitions[s], c) == Some(next)
    {
      ReverseOfRowInverts(transitions[s], next, c);
    }
  }

  /** The largest number of buckets in one transported row. */
  function MaxWidth(tt: seq<ReverseRow>): (m: nat)
    ensures forall s :: 0 <= s < |tt| ==> |tt[s]| <= m
  {
    if tt == [] then 0
    else var m := MaxWidth(tt[1..]); if |tt[0]| > m then |tt[0]| else m
  }

  // ---------------------------------------------------------------------------
  // Tail records, ordered by their missing counters

  predicate SortedByMissing(rs: seq<Record>) {
    forall i, j :: 0 <= i < j < |rs| ==> rs[i].missingCount <= rs[j].missingCount
  }

  /** The binary search of `findInsertionIndex`: the position after every record with no more
      missing symbols than `missingCount` and before every record with more.  The two
      neighbours of the position are on the right sides even when the list is not sorted. */
  method FindInsertionIndex(currentTails: seq<Record>, missingCount: nat) returns (low: nat)
    ensures low <= |currentTails|
    ensures 0 < low ==> currentTails[low - 1].missingCount <= missingCount
    ensures low < |currentTails| ==> missingCount < currentTails[low].missingCount
    ensures SortedByMissing(currentTails) ==>
      && (forall i :: 0 <= i < low ==> currentTails[i].missingCount <= missingCount)
      && (forall i :: low <= i < |currentTails| ==> missingCount < currentTails[i].missingCount)
  {
    low := 0;
    var high := |currentTails|;
    while low < high
      invariant 0 <= low <= high <= |currentTails|
      invariant 0 < low ==> currentTails[low - 1].missingCount <= missingCount
      invariant high < |currentTails| ==> missingCount < currentTails[high].missingCount
      invariant SortedByMissing(currentTails) ==>
        forall i :: 0 <= i < low ==> currentTails[i].missingCount <= missingCount
      invariant SortedByMissing(currentTails) ==>
        forall i :: high <= i < |currentTails| ==> missingCount < currentTails[i].missingCount
    {
      var mid := (low + high) / 2;
      if missingCount < currentTails[mid].missingCount {
        high := mid;
      } else {
        low := mid + 1;
      }
    }
  }

  /** `splice(findInsertionIndex(...), 0, newTailRecord)`: the record goes in at one position,
      and a sorted list stays sorted. */
  method InsertNewTailRecord(tailRecords: seq<Record>, newTailRecord: Record) returns (newTails: seq<Record>)
    ensures exists k :: 0 <= k <= |tailRecords| && newTails == tailRecords[..k] + [newTailRecord] + tailRecords[k..]
    ensures |newTails| == |tailRecords| + 1
    ensures SortedByMissing(tailRecords) ==>
      exists k :: && 0 <= k <= |tailRecords| && newTails == tailRecords[..k] + [newTailRecord] + tailRecords[k..]
                  && (forall i :: 0 <= i < k ==> tailRecords[i].missingCount <= newTailRecord.missingCount)
                  && (forall i :: k <= i < |tailRecords| ==> newTailRecord.missingCount < tailRecords[i].missingCount)
    ensures forall x :: x in newTails <==> x in tailRecords || x == newTailRecord
    ensures SortedByMissing(tailRecords) ==> SortedByMissing(newTails)
  {
    var insertionIndex := FindInsertionIndex(tailRecords, newTailRecord.missingCount);
    newTails := tailRecords[..insertionIndex] + [newTailRecord] + tailRecords[insertionIndex..];
    InsertionKeepsOrder(tailRecords, insertionIndex, newTailRecord);
  }

  lemma InsertionKeepsOrder(rs: seq<Record>, k: nat, x: Record)
    requires k <= |rs|
    requires SortedByMissing(rs) ==>
      && (forall i :: 0 <= i < k ==> rs[i].missingCount <= x.missingCount)
      && (forall i :: k <= i < |rs| ==> x.missingCount < rs[i].missingCount)
    ensures forall y :: y in rs[..k] + [x] + rs[k..] <==> y in rs || y == x
    ensures SortedByMissing(rs) ==> SortedByMissing(rs[..k] + [x] + rs[k..])
  {
    var r := rs[..k] + [x] + rs[k..];
    assert rs == rs[..k] + rs[k..];
    if SortedByMissing(rs) {
      forall i, j | 0 <= i < j < |r|
        ensures r[i].missingCount <= r[j].missingCount
      {
        InsertedIndex(rs, k, x, i);
        InsertedIndex(rs, k, x, j);
      }
    }
  }

  // ---------------------------------------------------------------------------
  // Creating records

  /** `characters.slice()` with `splice(indexOf(x), 1)` applied: the first `x` is cut out; when
      there is none, the index is -1 and the last symbol goes instead. */
  function RemoveFirst(s: seq<Symbol>, x: Symbol): (r: seq<Symbol>)
    ensures x in s ==> exists k :: 0 <= k < |s| && s[k] == x && x !in s[..k] && r == s[..k] + s[k + 1..]
    ensures x in s ==> multiset(r) == multiset(s) - multiset{x}
    ensures x !in s ==> r == if s == [] then [] else s[..|s| - 1]
    ensures s != [] ==> |r| == |s| - 1
    ensures forall y :: y in r ==> y in s
  {
    var k := IndexOf(s, x);
    if k >= 0 then
      assert s == s[..k] + [s[k]] + s[k + 1..];
      s[..k] + s[k + 1..]
    else if s == [] then []
    else s[..|s| - 1]
  }

  /** The accepted record of `createAcceptRecord`: one consumed symbol. */
  method CreateAcceptRecord(previousRecord: Record, character: Symbol, targetState: State) returns (r: Record)
    requires previousRecord.Valid()
    ensures fresh(r) && r.Valid()
    ensures r.previousRecord == previousRecord && r.targetState == targetState
    ensures r.characters == [character] && r.accepted
  {
    r := new Record(previousRecord, targetState, [character], true);
  }

  /** The missing record of `createMissingRecord`: the symbols the input lacks. */
  method CreateMissingRecord(previousRecord: Record, characters: seq<Symbol>, targetState: State) returns (r: Record)
    requires previousRecord.Valid()
    ensures fresh(r) && r.Valid()
    ensures r.previousRecord == previousRecord && r.targetState == targetState
    ensures r.characters == characters && !r.accepted
  {
    r := new Record(previousRecord, targetState, characters, false);
  }

  /** The missing record of `createPartiallyMissingRecord`: a bucket without the symbol the
      input did have. */
  method CreatePartiallyMissingRecord(previousRecord: Record, characters: seq<Symbol>, excludedCharacter: Symbol,
                                      targetState: State) returns (r: Record)
    requires previousRecord.Valid()
    ensures fresh(r) && r.Valid()
    ensures r.previousRecord == previousRecord && r.targetState == targetState
    ensures r.characters == RemoveFirst(characters, excludedCharacter) && !r.accepted
  {
    r := CreateMissingRecord(previousRecord, RemoveFirst(characters, excludedCharacter), targetState);
  }

  // ---------------------------------------------------------------------------
  // One generation's records and their index by target state

  ghost predicate AllValid(rs: seq<Record>) {
    forall i :: 0 <= i < |rs| ==> rs[i].Valid()
  }

  /** The records of `rs` that end in state `s`, in order. */
  function WithTarget(rs: seq<Record>, s: State): (line: seq<Record>)
    ensures |line| <= |rs|
  {
    if rs == [] then []
    else WithTarget(rs[..|rs| - 1], s) + (if rs[|rs| - 1].targetState == s then [rs[|rs| - 1]] else [])
  }

  /** A record is on the line of `s` exactly when it is one of the records and ends in `s`. */
  lemma {:induction false} WithTargetMember(rs: seq<Record>, s: State, x: Record)
    ensures x in WithTarget(rs, s) <==> x in rs && x.targetState == s
    decreases |rs|
  {
    if rs != [] {
      var front := rs[..|rs| - 1];
      WithTargetMember(front, s, x);
      assert rs == front + [rs[|rs| - 1]];
    }
  }

  /** `recordsIndex[s]` lists the records of the generation that end in `s`. */
  ghost predicate Indexed(recordsIndex: seq<seq<Record>>, records: seq<Record>, statesCount: nat) {
    && |recordsIndex| == statesCount
    && forall s :: 0 <= s < statesCount ==> recordsIndex[s] == WithTarget(records, s)
  }

  lemma WithTargetAppend(rs: seq<Record>, x: Record, s: State)
    ensures WithTarget(rs + [x], s) == WithTarget(rs, s) + (if x.targetState == s then [x] else [])
  {
    assert (rs + [x])[..|rs + [x]| - 1] == rs;
  }

  /** The first loops of `processTailRecords`: one empty line per state, then each tail
      record pushed onto the line of its target state. */
  method CreateRecordsIndex(tailRecords: seq<Record>, statesCount: nat) returns (recordsIndex: seq<seq<Record>>)
    requires forall i :: 0 <= i < |tailRecords| ==> tailRecords[i].targetState < statesCount
    ensures Indexed(recordsIndex, tailRecords, statesCount)
  {
    recordsIndex := [];
    var line := 0;
    while line < statesCount
      invariant 0 <= line <= statesCount
      invariant |recordsIndex| == line && forall s :: 0 <= s < line ==> recordsIndex[s] == []
    {
      recordsIndex := recordsIndex + [[]];
      line := line + 1;
    }
    var id := 0;
    while id < |tailRecords|
      invariant 0 <= id <= |tailRecords|
      invariant Indexed(recordsIndex, tailRecords[..id], statesCount)
    {
      var r := tailRecords[id];
      assert tailRecords[..id + 1] == tailRecords[..id] + [r];
      forall s | 0 <= s < statesCount
        ensures WithTarget(tailRecords[..id + 1], s) == WithTarget(tailRecords[..id], s) + (if r.targetState == s then [r] else [])
      {
        WithTargetAppend(tailRecords[..id], r, s);
      }
      recordsIndex := recordsIndex[r.targetState := recordsIndex[r.targetState] + [r]];
      id := id + 1;
    }
    assert tailRecords[..|tailRecords|] == tailRecords;
  }

  /** `insertNewRecord`: the record joins the generation, and the line of its target state,
      unless it is an extension of a record on that line or its trail loops. */
  method InsertNewRecord(records: seq<Record>, recordsIndex: seq<seq<Record>>, newRecord: Record)
    returns (newRecords: seq<Record>, newRecordsIndex: seq<seq<Record>>, ghost added: bool)
    requires newRecord.Valid() && newRecord.targetState < |recordsIndex|
    requires AllValid(recordsIndex[newRecord.targetState])
    ensures added <==>
      && (forall b :: b in recordsIndex[newRecord.targetState] ==> !ExtensionWalk(newRecord, b))
      && !LoopsIn(newRecord.Trail())
    ensures added ==> newRecords == records + [newRecord]
    ensures added ==> newRecordsIndex == recordsIndex[newRecord.targetState := recordsIndex[newRecord.targetState] + [newRecord]]
    ensures !added ==> newRecords == records && newRecordsIndex == recordsIndex
  {
    var isAlternative := true;
    var recordsIndexLine := recordsIndex[newRecord.targetState];
    var currentRecordId := 0;
    while currentRecordId < |recordsIndexLine|
      invariant 0 <= currentRecordId <= |recordsIndexLine|
      invariant forall j :: 0 <= j < currentRecordId ==> !ExtensionWalk(newRecord, recordsIndexLine[j])
    {
      var b := newRecord.IsExtensionOf(recordsIndexLine[currentRecordId]);
      if b {
        isAlternative := false;
        break;
      }
      currentRecordId := currentRecordId + 1;
    }
    newRecords, newRecordsIndex, added := records, recordsIndex, false;
    if isAlternative {
      var loops := newRecord.HasLoops();
      if !loops {
        newRecords := records + [newRecord];
        newRecordsIndex := recordsIndex[newRecord.targetState := recordsIndex[newRecord.targetState] + [newRecord]];
        added := true;
      }
    }
  }

  // ---------------------------------------------------------------------------
  // What a record stands for

  /** The step into `r` follows the table: an accepted step consumes one symbol leading from
      the previous record's state to `r`'s state; a missing step stands for one or more
      symbols each of which leads there. */
  ghost predicate StepFollows(transitions: seq<Row>, r: Record) {
    r.previousRecord != null ==>
      && r.previousRecord.targetState < |transitions|
      && if r.accepted then
           && |r.characters| == 1
           && Lookup(transitions[r.previousRecord.targetState], r.characters[0]) == Some(r.targetState)
         else
           && r.characters != []
           && forall c :: c in r.characters ==> Lookup(transitions[r.previousRecord.targetState], c) == Some(r.targetState)
  }

  /** Every step of the chain of `r` follows the table, and the chain starts in the initial state. */
  ghost predicate Follows(transitions: seq<Row>, initialState: State, r: Record)
    requires r.Valid()
    decreases r.GetTotalCount()
  {
    && StepFollows(transitions, r)
    && if r.previousRecord == null then r.targetState == initialState
       else Follows(transitions, initialState, r.previousRecord)
  }

  /** The input symbols the chain of `r` consumed, oldest first; the head record consumes none. */
  ghost function AcceptedInput(r: Record): seq<Symbol>
    requires r.Valid()
    decreases r.GetTotalCount()
  {
    if r.previousRecord == null then []
    else AcceptedInput(r.previousRecord) + (if r.accepted then r.characters else [])
  }

  ghost predicate DistinctBelow(run: seq<State>, n: nat) {
    Distinct(run) && forall i :: 0 <= i < |run| ==> run[i] < n
  }

  /** A record of the generation that has consumed `consumed`: its chain follows the table,
      and the run of missing steps at its end visits no state twice. */
  ghost predicate Member(transitions: seq<Row>, initialState: State, consumed: seq<Symbol>, r: Record) {
    && r.Valid()
    && r.targetState < |transitions|
    && Follows(transitions, initialState, r)
    && AcceptedInput(r) == consumed
    && DistinctBelow(RunOf(r.Trail()), |transitions|)
  }

  ghost predicate Members(transitions: seq<Row>, initialState: State, consumed: seq<Symbol>, rs: seq<Record>) {
    forall i :: 0 <= i < |rs| ==> Member(transitions, initialState, consumed, rs[i])
  }

  /** The trail and the run of a missing record continue those of its predecessor. */
  lemma MissingRun(x: Record, prev: Record)
    requires x.Valid() && x.previousRecord == prev && !x.accepted
    ensures prev.Valid() && x.GetTotalCount() == prev.GetTotalCount() + 1
    ensures x.Trail() == [Step(x.targetState, false)] + prev.Trail()
    ensures RunOf(x.Trail()) == [x.targetState] + RunOf(prev.Trail())
  {
    var t := x.Trail();
    assert t == [t[0]] + t[1..];
  }

  /** The initial record is a member of the generation that has consumed nothing. */
  lemma InitialMember(transitions: seq<Row>, initialState: State, r: Record)
    requires r.Valid() && r.previousRecord == null && r.targetState == initialState
    requires initialState < |transitions|
    ensures Member(transitions, initialState, [], r)
  {
    var t := r.Trail();
    assert t == [t[0]];
    assert RunOf(t) == [initialState];
  }

  /** An accept derivative of a member consumes one more symbol. */
  lemma AcceptMember(transitions: seq<Row>, initialState: State, consumed: seq<Symbol>, prev: Record, x: Record, c: Symbol)
    requires Member(transitions, initialState, consumed, prev)
    requires x.Valid() && x.previousRecord == prev && x.accepted && x.characters == [c]
    requires Lookup(transitions[prev.targetState], c) == Some(x.targetState) && x.targetState < |transitions|
    ensures Member(transitions, initialState, consumed + [c], x)
  {
    var t := x.Trail();
    assert t == [t[0]] + t[1..];
    assert RunOf(t) == [x.targetState];
  }

  /** A missing derivative of a member whose trail does not loop is a member too. */
  lemma MissingMember(transitions: seq<Row>, initialState: State, consumed: seq<Symbol>, prev: Record, x: Record)
    requires Member(transitions, initialState, consumed, prev)
    requires x.Valid() && x.previousRecord == prev && !x.accepted && x.targetState < |transitions|
    requires x.characters != [] && forall c :: c in x.characters ==> Lookup(transitions[prev.targetState], c) == Some(x.targetState)
    requires !LoopsIn(x.Trail())
    ensures Member(transitions, initialState, consumed, x)
  {
    MissingRun(x, prev);
    assert StepFollows(transitions, x);
    assert Follows(transitions, initialState, x);
    assert AcceptedInput(x) == AcceptedInput(prev) + [];
    DistinctCons(x.targetState, RunOf(prev.Trail()), |transitions|);
  }

  /** A state not yet on a run can be put in front of it. */
  lemma DistinctCons(h: State, rest: seq<State>, n: nat)
    requires h < n && h !in rest && DistinctBelow(rest, n)
    ensures DistinctBelow([h] + rest, n)
  {
    var run := [h] + rest;
    forall i, j | 0 <= i < j < |run|
      ensures run[i] != run[j]
    {
      assert run[j] == rest[j - 1];
      if i > 0 {
        assert run[i] == rest[i - 1];
      }
    }
  }

  // ---------------------------------------------------------------------------
  // What a record proposes

  /** A missing record a record proposes: the symbols it stands for and its target state. */
  datatype Proposal = Proposal(characters: seq<Symbol>, target: State)

  /** `transitions[s][item]`: the state the input symbol leads to; none at the end of the input. */
  function NextOf(transitions: seq<Row>, s: State, item: Option<Symbol>): (r: Option<State>)
    requires s < |transitions|
    ensures r.Some? ==> item.Some? && (item.value, r.value) in transitions[s]
    ensures item.Some? && r.None? ==> item.value !in Keys(transitions[s])
  {
    if item.Some? then
      var r := Lookup(transitions[s], item.value);
      if r.Some? then
        LookupIn(transitions[s], item.value, r.value);
        r
      else r
    else None
  }

  /** The accepted transition's bucket holds symbols other than the input symbol. */
  predicate HasPartial(transitions: seq<Row>, tt: seq<ReverseRow>, s: State, item: Option<Symbol>)
    requires s < |transitions| && s < |tt|
  {
    var next := NextOf(transitions, s, item);
    next.Some? && |BucketOf(tt[s], next.value)| > 1
  }

  /** The partially missing proposal: that bucket without the input symbol. */
  function PartialProposal(transitions: seq<Row>, tt: seq<ReverseRow>, s: State, item: Option<Symbol>): (p: Proposal)
    requires s < |transitions| && s < |tt| && HasPartial(transitions, tt, s, item)
    ensures p.target == NextOf(transitions, s, item).value
  {
    var next := NextOf(transitions, s, item).value;
    Proposal(RemoveFirst(BucketOf(tt[s], next), item.value), next)
  }

  function BucketProposal(b: Bucket): Proposal {
    Proposal(b.symbols, b.target)
  }

  /** A proposal of `prev` with the symbols `chars` extends `b`: the first step of the walk of
      `isExtensionOf` taken from a new record. */
  ghost predicate Extends(prev: Record, chars: seq<Symbol>, b: Record)
    requires prev.Valid() && b.Valid()
  {
    && b.GetTotalCount() <= prev.GetTotalCount() + 1
    && ExtensionWalk(prev, if PartialOf(chars, b.characters) then b.previousRecord else b)
  }

  /** Some record of the pool is the proposal, made by `prev`. */
  ghost predicate Derived(prev: Record, p: Proposal, pool: seq<Record>) {
    exists i :: && 0 <= i < |pool| && pool[i].previousRecord == prev && !pool[i].accepted
                && pool[i].characters == p.characters && pool[i].targetState == p.target
  }

  /** The proposal need not join: its trail loops, or it extends a record of the pool that ends
      in the same state. */
  ghost predicate Redundant(prev: Record, p: Proposal, pool: seq<Record>)
    requires prev.Valid()
  {
    || LoopsIn([Step(p.target, false)] + prev.Trail())
    || exists i :: 0 <= i < |pool| && pool[i].Valid() && pool[i].targetState == p.target && Extends(prev, p.characters, pool[i])
  }

  ghost predicate Covered(prev: Record, p: Proposal, pool: seq<Record>)
    requires prev.Valid()
  {
    Derived(prev, p, pool) || Redundant(prev, p, pool)
  }

  ghost predicate Within(a: seq<Record>, b: seq<Record>) {
    forall i :: 0 <= i < |a| ==> a[i] in b
  }

  lemma WithinAppend(a: seq<Record>, b: seq<Record>)
    ensures Within(a, a + b)
  {
    forall i | 0 <= i < |a|
      ensures a[i] in a + b
    {
      assert (a + b)[i] == a[i];
    }
  }

  lemma CoveredGrows(prev: Record, p: Proposal, pool: seq<Record>, pool': seq<Record>)
    requires prev.Valid() && Covered(prev, p, pool) && Within(pool, pool')
    ensures Covered(prev, p, pool')
  {
    if Derived(prev, p, pool) {
      var i :| && 0 <= i < |pool| && pool[i].previousRecord == prev && !pool[i].accepted
               && pool[i].characters == p.characters && pool[i].targetState == p.target;
      var j :| 0 <= j < |pool'| && pool'[j] == pool[i];
    } else if !LoopsIn([Step(p.target, false)] + prev.Trail()) {
      var i :| 0 <= i < |pool| && pool[i].Valid() && pool[i].targetState == p.target && Extends(prev, p.characters, pool[i]);
      var j :| 0 <= j < |pool'| && pool'[j] == pool[i];
    }
  }

  /** The records `added` are loop-free missing derivatives of `current`, each one missing
      step longer than `current`. */
  ghost predicate Offspring(current: Record, added: seq<Record>) {
    && current.Valid()
    && forall i :: 0 <= i < |added| ==>
         && added[i].Valid() && added[i].previousRecord == current && !added[i].accepted && !LoopsIn(added[i].Trail())
         && |RunOf(added[i].Trail())| == |RunOf(current.Trail())| + 1
  }

  /** Two batches of derivatives appended one after the other are one batch. */
  lemma OffspringAppend(current: Record, records: seq<Record>, added: seq<Record>, more: seq<Record>,
                        middle: seq<Record>, records': seq<Record>)
    requires middle == records + added && records' == middle + more
    requires Offspring(current, added) && Offspring(current, more)
    ensures records' == records + (added + more) && Offspring(current, added + more)
  {
    forall i | 0 <= i < |added + more|
      ensures (added + more)[i] == if i < |added| then added[i] else more[i - |added|]
    {
    }
  }

  /** The first `upTo` buckets of state `s`, other than the bucket of `next`, are covered. */
  ghost predicate OthersCovered(tt: seq<ReverseRow>, s: State, next: Option<State>, r: Record, pool: seq<Record>, upTo: nat)
    requires s < |tt| && upTo <= |tt[s]| && r.Valid()
  {
    forall j :: 0 <= j < upTo && next != Some(tt[s][j].target) ==> Covered(r, BucketProposal(tt[s][j]), pool)
  }

  /** Bucket `j` covered (or excluded) on top of the first `j` extends the coverage to `j + 1`. */
  lemma OthersStep(tt: seq<ReverseRow>, s: State, next: Option<State>, r: Record, pool: seq<Record>, j: nat)
    requires s < |tt| && j < |tt[s]| && r.Valid()
    requires OthersCovered(tt, s, next, r, pool, j)
    requires next != Some(tt[s][j].target) ==> Covered(r, BucketProposal(tt[s][j]), pool)
    ensures OthersCovered(tt, s, next, r, pool, j + 1)
  {
  }

  lemma OthersGrow(tt: seq<ReverseRow>, s: State, next: Option<State>, r: Record, pool: seq<Record>, pool': seq<Record>, upTo: nat)
    requires s < |tt| && upTo <= |tt[s]| && r.Valid()
    requires OthersCovered(tt, s, next, r, pool, upTo) && Within(pool, pool')
    ensures OthersCovered(tt, s, next, r, pool', upTo)
  {
    forall j | 0 <= j < upTo && next != Some(tt[s][j].target)
      ensures Covered(r, BucketProposal(tt[s][j]), pool')
    {
      CoveredGrows(r, BucketProposal(tt[s][j]), pool, pool');
    }
  }

  /** The proposal a missing record stands for. */
  function ProposalOf(r: Record): Proposal {
    Proposal(r.characters, r.targetState)
  }

  /** The proposals of the buckets of a transported row, in the order of the row. */
  function BucketProposals(row: ReverseRow): seq<Proposal> {
    seq(|row|, j requires 0 <= j < |row| => BucketProposal(row[j]))
  }

  /** A proposal that expanding a record in state `s` may offer: the partially missing
      proposal, which alone ends in the state the input symbol leads to, or the bucket of any
      other target. */
  ghost predicate IsOffer(transitions: seq<Row>, tt: seq<ReverseRow>, s: State, item: Option<Symbol>, p: Proposal)
    requires s < |transitions| && |tt| == |transitions|
  {
    if NextOf(transitions, s, item) == Some(p.target) then
      HasPartial(transitions, tt, s, item) && p == PartialProposal(transitions, tt, s, item)
    else p in BucketProposals(tt[s])
  }

  /** The derivatives `added` are buckets of `row` other than that of `next`, in the order of
      the row, which is ascending target order. */
  ghost predicate BucketOffers(row: ReverseRow, next: Option<State>, added: seq<Record>) {
    && (forall i :: 0 <= i < |added| ==> next != Some(added[i].targetState) && ProposalOf(added[i]) in BucketProposals(row))
    && (forall i, k :: 0 <= i < k < |added| ==> added[i].targetState < added[k].targetState)
  }

  /** The derivatives `added` are offers of a record in state `s`, in the order in which
      `processTailRecords` makes them: the partially missing one, if any, first, then buckets
      in the order of the row. */
  ghost predicate OffersOnly(transitions: seq<Row>, tt: seq<ReverseRow>, s: State, item: Option<Symbol>, added: seq<Record>)
    requires s < |transitions| && |tt| == |transitions|
  {
    var next := NextOf(transitions, s, item);
    && (forall i :: 0 <= i < |added| ==> IsOffer(transitions, tt, s, item, ProposalOf(added[i])))
    && (forall i, k :: 0 <= i < k < |added| ==>
          && next != Some(added[k].targetState)
          && (next != Some(added[i].targetState) ==> added[i].targetState < added[k].targetState))
  }

  /** `r` is a derivative that processing its predecessor offers: the predecessor was not saved
      as final, and `r` is one of its offers. */
  ghost predicate OfferedBy(transitions: seq<Row>, tt: seq<ReverseRow>, finalStates: seq<State>, item: Option<Symbol>,
                            r: Record) {
    && r.previousRecord != null
    && r.previousRecord.targetState < |transitions| && |tt| == |transitions|
    && !(item.None? && r.previousRecord.targetState in finalStates)
    && IsOffer(transitions, tt, r.previousRecord.targetState, item, ProposalOf(r))
  }

  /** One more bucket of the row: a derivative offered for it, only when it is not the bucket
      of `next`, keeps the offers in the order of the row. */
  lemma BucketOffered(row: ReverseRow, next: Option<State>, j: nat, added: seq<Record>, more: seq<Record>)
    requires j < |row| && |more| <= 1
    requires BucketOffers(row, next, added) && forall i :: 0 <= i < |added| ==> added[i].targetState < row[j].target
    requires more != [] ==> next != Some(row[j].target) && ProposalOf(more[0]) == BucketProposal(row[j])
    ensures BucketOffers(row, next, added + more)
    ensures j + 1 < |row| ==> forall i :: 0 <= i < |added + more| ==> (added + more)[i].targetState < row[j + 1].target
  {
    var all := added + more;
    if more != [] {
      assert BucketProposals(row)[j] == ProposalOf(more[0]);
    }
    forall i | 0 <= i < |all|
      ensures next != Some(all[i].targetState) && ProposalOf(all[i]) in BucketProposals(row)
      ensures j + 1 < |row| ==> all[i].targetState < row[j + 1].target
    {
      if i < |added| {
        assert all[i] == added[i];
      } else {
        assert all[i] == more[0];
      }
    }
    forall i, k | 0 <= i < k < |all|
      ensures all[i].targetState < all[k].targetState
    {
      if k < |added| {
        assert all[i] == added[i] && all[k] == added[k];
      } else {
        assert all[i] == added[i] && all[k] == more[0];
      }
    }
  }

  /** The offers of `AcceptStep` followed by those of `OfferOtherBuckets` are offers of the
      record, in order. */
  lemma CandidatesOffered(transitions: seq<Row>, tt: seq<ReverseRow>, s: State, item: Option<Symbol>,
                          early: seq<Record>, more: seq<Record>)
    requires s < |transitions| && |tt| == |transitions|
    requires |early| <= 1
    requires early != [] ==>
      HasPartial(transitions, tt, s, item) && ProposalOf(early[0]) == PartialProposal(transitions, tt, s, item)
    requires BucketOffers(tt[s], NextOf(transitions, s, item), more)
    ensures OffersOnly(transitions, tt, s, item, early + more)
  {
    var next := NextOf(transitions, s, item);
    if early != [] {
      PartialIsOffer(transitions, tt, s, item);
    }
    forall i | 0 <= i < |more|
      ensures IsOffer(transitions, tt, s, item, ProposalOf(more[i]))
    {
      BucketIsOffer(transitions, tt, s, item, ProposalOf(more[i]));
    }
    OffersAre(transitions, tt, s, item, early, more);
    OffersInOrder(next, early, more);
  }

  lemma OffersAre(transitions: seq<Row>, tt: seq<ReverseRow>, s: State, item: Option<Symbol>,
                  early: seq<Record>, more: seq<Record>)
    requires s < |transitions| && |tt| == |transitions|
    requires |early| <= 1 && (early != [] ==> IsOffer(transitions, tt, s, item, ProposalOf(early[0])))
    requires forall i :: 0 <= i < |more| ==> IsOffer(transitions, tt, s, item, ProposalOf(more[i]))
    ensures forall i :: 0 <= i < |early + more| ==> IsOffer(transitions, tt, s, item, ProposalOf((early + more)[i]))
  {
    forall i | 0 <= i < |early + more|
      ensures IsOffer(transitions, tt, s, item, ProposalOf((early + more)[i]))
    {
      if i < |early| {
        assert (early + more)[i] == early[0];
      } else {
        assert (early + more)[i] == more[i - |early|];
      }
    }
  }

  lemma PartialIsOffer(transitions: seq<Row>, tt: seq<ReverseRow>, s: State, item: Option<Symbol>)
    requires s < |transitions| && |tt| == |transitions| && HasPartial(transitions, tt, s, item)
    ensures IsOffer(transitions, tt, s, item, PartialProposal(transitions, tt, s, item))
  {
  }

  lemma BucketIsOffer(transitions: seq<Row>, tt: seq<ReverseRow>, s: State, item: Option<Symbol>, p: Proposal)
    requires s < |transitions| && |tt| == |transitions|
    requires NextOf(transitions, s, item) != Some(p.target) && p in BucketProposals(tt[s])
    ensures IsOffer(transitions, tt, s, item, p)
  {
  }

  /** At most one derivative ending in `next`, followed by derivatives in ascending target order
      that do not, are in the order of `OffersOnly`. */
  lemma OffersInOrder(next: Option<State>, early: seq<Record>, more: seq<Record>)
    requires |early| <= 1 && (early != [] ==> next == Some(early[0].targetState))
    requires forall i :: 0 <= i < |more| ==> next != Some(more[i].targetState)
    requires forall i, k :: 0 <= i < k < |more| ==> more[i].targetState < more[k].targetState
    ensures forall i, k :: 0 <= i < k < |early + more| ==>
      && next != Some((early + more)[k].targetState)
      && (next != Some((early + more)[i].targetState) ==> (early + more)[i].targetState < (early + more)[k].targetState)
  {
    var all := early + more;
    forall i, k | 0 <= i < k < |all|
      ensures next != Some(all[k].targetState)
      ensures next != Some(all[i].targetState) ==> all[i].targetState < all[k].targetState
    {
      assert all[k] == more[k - |early|];
      if i >= |early| {
        assert all[i] == more[i - |early|];
      }
    }
  }

  /** A record is expanded: when the input symbol has a transition, the next generation holds
      the record's accept derivative and the partially missing proposal is covered; and every
      other bucket of the record's state is covered. */
  ghost predicate Expanded(transitions: seq<Row>, tt: seq<ReverseRow>, item: Option<Symbol>, r: Record,
                           pool: seq<Record>, next: seq<Record>)
    requires r.Valid() && r.targetState < |transitions| && |tt| == |transitions|
  {
    var s := r.targetState;
    var ns := NextOf(transitions, s, item);
    && (ns.Some? ==> exists i :: 0 <= i < |next| && next[i].previousRecord == r && next[i].targetState == ns.value)
    && (HasPartial(transitions, tt, s, item) ==> Covered(r, PartialProposal(transitions, tt, s, item), pool))
    && OthersCovered(tt, s, ns, r, pool, |tt[s]|)
  }

  /** A record is handled: saved as final at the end of the input, or else expanded. */
  ghost predicate Handled(transitions: seq<Row>, tt: seq<ReverseRow>, finalStates: seq<State>, item: Option<Symbol>,
                          r: Record, pool: seq<Record>, next: seq<Record>)
    requires r.Valid() && r.targetState < |transitions| && |tt| == |transitions|
  {
    || (item.None? && r.targetState in finalStates)
    || Expanded(transitions, tt, item, r, pool, next)
  }

  lemma HandledGrows(transitions: seq<Row>, tt: seq<ReverseRow>, finalStates: seq<State>, item: Option<Symbol>,
                     r: Record, pool: seq<Record>, next: seq<Record>, pool': seq<Record>, next': seq<Record>)
    requires r.Valid() && r.targetState < |transitions| && |tt| == |transitions|
    requires Handled(transitions, tt, finalStates, item, r, pool, next)
    requires Within(pool, pool') && Within(next, next')
    ensures Handled(transitions, tt, finalStates, item, r, pool', next')
  {
    if !(item.None? && r.targetState in finalStates) {
      var s := r.targetState;
      var ns := NextOf(transitions, s, item);
      OthersGrow(tt, s, ns, r, pool, pool', |tt[s]|);
      if HasPartial(transitions, tt, s, item) {
        CoveredGrows(r, PartialProposal(transitions, tt, s, item), pool, pool');
      }
      if ns.Some? {
        var i :| 0 <= i < |next| && next[i].previousRecord == r && next[i].targetState == ns.value;
        var j :| 0 <= j < |next'| && next'[j] == next[i];
      }
    }
  }

  /** The next generation so far: sorted by missing counters, empty at the end of the input, and
      otherwise made of accept derivatives, on the input symbol, of records of the pool. */
  ghost predicate NextOk(transitions: seq<Row>, initialState: State, consumed: seq<Symbol>, item: Option<Symbol>,
                         next: seq<Record>, pool: seq<Record>) {
    && SortedByMissing(next)
    && (item.None? ==> next == [])
    && (item.Some? ==> forall i :: 0 <= i < |next| ==>
          && next[i].accepted && next[i].characters == [item.value]
          && next[i].previousRecord != null && next[i].previousRecord in pool
          && Member(transitions, initialState, consumed + [item.value], next[i]))
  }

  /** What `input()` yields at `position`: the symbol there, or the end of the input past the last one. */
  function ItemAt(input: seq<Symbol>, position: nat): Option<Symbol> {
    if position < |input| then Some(input[position]) else None
  }

  /** The records of the generation saved as final: at the end of the input, those in a final state. */
  function SavedOf(rs: seq<Record>, item: Option<Symbol>, finalStates: seq<State>): (saved: seq<Record>)
    ensures item.Some? ==> saved == []
    ensures |saved| <= |rs|
  {
    if rs == [] then []
    else
      var last := rs[|rs| - 1];
      SavedOf(rs[..|rs| - 1], item, finalStates) + (if item.None? && last.targetState in finalStates then [last] else [])
  }

  /** How many records of `rs` have a transition on the input symbol: each of them hands one
      accept derivative to the next generation. */
  ghost function AcceptCount(transitions: seq<Row>, item: Option<Symbol>, rs: seq<Record>): nat {
    if rs == [] then 0
    else
      var last := rs[|rs| - 1];
      AcceptCount(transitions, item, rs[..|rs| - 1])
        + (if last.targetState < |transitions| && NextOf(transitions, last.targetState, item).Some? then 1 else 0)
  }

  lemma {:induction false} SavedMember(rs: seq<Record>, item: Option<Symbol>, finalStates: seq<State>, x: Record)
    ensures x in SavedOf(rs, item, finalStates) <==> item.None? && x in rs && x.targetState in finalStates
    decreases |rs|
  {
    if rs != [] {
      var front := rs[..|rs| - 1];
      SavedMember(front, item, finalStates, x);
      assert rs == front + [rs[|rs| - 1]];
    }
  }

  // ---------------------------------------------------------------------------
  // Why a generation is finite

  function Pow(b: nat, e: nat): (p: nat)
    ensures 1 <= b ==> 1 <= p
  {
    if e == 0 then 1
    else
      var q := Pow(b, e - 1);
      if b == 0 then 0
      else
        MulMonotone(1, b, q);
        b * q
  }

  /** A record weighs `base` to the power of how many more missing steps its run can take. */
  ghost function Weight(r: Record, base: nat, n: nat): nat
    requires r.Valid()
  {
    var l := |RunOf(r.Trail())|;
    Pow(base, if l <= n then n - l else 0)
  }

  ghost function Potential(rs: seq<Record>, base: nat, n: nat): nat
    requires AllValid(rs)
  {
    if rs == [] then 0 else Weight(rs[0], base, n) + Potential(rs[1..], base, n)
  }

  lemma {:induction false} PotentialAppend(a: seq<Record>, b: seq<Record>, base: nat, n: nat)
    requires AllValid(a) && AllValid(b)
    ensures AllValid(a + b) && Potential(a + b, base, n) == Potential(a, base, n) + Potential(b, base, n)
    decreases |a|
  {
    if a == [] {
      assert a + b == b;
    } else {
      assert (a + b)[1..] == a[1..] + b;
      PotentialAppend(a[1..], b, base, n);
    }
  }

  lemma {:induction false} PotentialUniform(rs: seq<Record>, w: nat, base: nat, n: nat)
    requires AllValid(rs) && forall i :: 0 <= i < |rs| ==> Weight(rs[i], base, n) == w
    ensures Potential(rs, base, n) == |rs| * w
    decreases |rs|
  {
    if rs != [] {
      PotentialUniform(rs[1..], w, base, n);
      assert |rs| * w == w + (|rs| - 1) * w;
    }
  }

  /** Handling the record at `id` uses up its weight, and fewer than `base` children one missing
      step deeper weigh less than it did. */
  lemma PotentialStep(rs: seq<Record>, id: nat, added: seq<Record>, base: nat, n: nat)
    requires id < |rs| && AllValid(rs) && AllValid(added)
    requires 2 <= base && |added| < base
    requires forall i :: 0 <= i < |added| ==> |RunOf(added[i].Trail())| == |RunOf(rs[id].Trail())| + 1 <= n
    ensures AllValid((rs + added)[id + 1..])
    ensures Potential((rs + added)[id + 1..], base, n) < Potential(rs[id..], base, n)
  {
    PotentialHead(rs, id, base, n);
    AppendedTail(rs, id, added);
    PotentialAppend(rs[id + 1..], added, base, n);
    ChildrenLighter(rs[id], added, base, n);
  }

  lemma PotentialHead(rs: seq<Record>, id: nat, base: nat, n: nat)
    requires id < |rs| && AllValid(rs)
    ensures AllValid(rs[id..]) && AllValid(rs[id + 1..])
    ensures Potential(rs[id..], base, n) == Weight(rs[id], base, n) + Potential(rs[id + 1..], base, n)
  {
    assert rs[id..][0] == rs[id] && rs[id..][1..] == rs[id + 1..];
  }

  lemma AppendedTail(rs: seq<Record>, id: nat, added: seq<Record>)
    requires id < |rs|
    ensures (rs + added)[id + 1..] == rs[id + 1..] + added
  {
  }

  /** Fewer than `base` records whose runs are one step longer than that of `parent` weigh less
      than `parent`. */
  lemma ChildrenLighter(parent: Record, added: seq<Record>, base: nat, n: nat)
    requires parent.Valid() && AllValid(added)
    requires 2 <= base && |added| < base
    requires forall i :: 0 <= i < |added| ==> |RunOf(added[i].Trail())| == |RunOf(parent.Trail())| + 1 <= n
    ensures Potential(added, base, n) < Weight(parent, base, n)
  {
    if added != [] {
      var l := |RunOf(parent.Trail())|;
      assert |RunOf(added[0].Trail())| == l + 1 <= n;
      var e := n - l - 1;
      forall i | 0 <= i < |added|
        ensures Weight(added[i], base, n) == Pow(base, e)
      {
        WeightOf(added[i], base, n, e);
      }
      PotentialUniform(added, Pow(base, e), base, n);
      WeightOf(parent, base, n, e + 1);
      PowStep(base, e);
      MulLess(|added|, base, Pow(base, e));
    }
  }

  lemma WeightOf(r: Record, base: nat, n: nat, e: nat)
    requires r.Valid() && |RunOf(r.Trail())| + e == n
    ensures Weight(r, base, n) == Pow(base, e)
  {
  }

  lemma PowStep(b: nat, e: nat)
    ensures Pow(b, e + 1) == b * Pow(b, e)
  {
  }

  lemma MulLess(k: nat, b: nat, w: nat)
    requires k < b && 1 <= w
    ensures k * w < b * w
  {
    MulMonotone(k + 1, b, w);
    assert (k + 1) * w == k * w + w;
  }

  /** The states below `n`. */
  function Below(n: nat): (box: set<State>)
    ensures |box| == n
    ensures forall x: State :: x in box <==> x < n
  {
    if n == 0 then {} else Below(n - 1) + {n - 1}
  }

  /** A run that visits no state twice is no longer than the number of states. */
  lemma RunBound(run: seq<State>, n: nat)
    requires DistinctBelow(run, n)
    ensures |run| <= n
  {
    DistinctBounded(run, Below(n));
  }

  // ---------------------------------------------------------------------------
  // Offering a missing record to the generation

  /** `insertNewRecord` for a fresh missing derivative of `prev`: afterwards its proposal is
      covered, by the record itself or by the reason it was dropped. */
  method OfferMissing(transitions: seq<Row>, ghost initialState: State, ghost consumed: seq<Symbol>,
                      prev: Record, newRecord: Record, records: seq<Record>, recordsIndex: seq<seq<Record>>)
    returns (records': seq<Record>, recordsIndex': seq<seq<Record>>, ghost added: seq<Record>)
    requires Member(transitions, initialState, consumed, prev)
    requires newRecord.Valid() && newRecord.previousRecord == prev && !newRecord.accepted
    requires newRecord.targetState < |transitions| && newRecord.characters != []
    requires forall c :: c in newRecord.characters ==> Lookup(transitions[prev.targetState], c) == Some(newRecord.targetState)
    requires newRecord !in records
    requires Members(transitions, initialState, consumed, records) && Indexed(recordsIndex, records, |transitions|)
    ensures records' == records + added && |added| <= 1
    ensures Members(transitions, initialState, consumed, records') && Indexed(recordsIndex', records', |transitions|)
    ensures Offspring(prev, added) && (added != [] ==> added == [newRecord])
    ensures added == [newRecord] <==>
      && !LoopsIn(newRecord.Trail())
      && forall b :: b in recordsIndex[newRecord.targetState] ==> b.Valid() && !ExtensionWalk(newRecord, b)
    ensures Covered(prev, Proposal(newRecord.characters, newRecord.targetState), records')
    ensures Pruned(records', |records|)
  {
    var t := newRecord.targetState;
    var line := recordsIndex[t];
    IndexedLine(transitions, initialState, consumed, records, recordsIndex, t);
    ghost var isAdded;
    records', recordsIndex', isAdded := InsertNewRecord(records, recordsIndex, newRecord);
    if isAdded {
      added := [newRecord];
      Admitted(transitions, initialState, consumed, prev, newRecord, records, recordsIndex, records', recordsIndex');
      AdmittedPruned(records, recordsIndex, |transitions|, newRecord);
    } else {
      added := [];
      Dropped(prev, newRecord, records, line);
    }
  }

  /** A derivative that `insertNewRecord` admits is a member, extends the index on its line, and
      is its own proposal. */
  lemma Admitted(transitions: seq<Row>, initialState: State, consumed: seq<Symbol>, prev: Record, newRecord: Record,
                 records: seq<Record>, recordsIndex: seq<seq<Record>>, records': seq<Record>, recordsIndex': seq<seq<Record>>)
    requires Member(transitions, initialState, consumed, prev)
    requires newRecord.Valid() && newRecord.previousRecord == prev && !newRecord.accepted
    requires newRecord.targetState < |transitions| && newRecord.characters != []
    requires forall c :: c in newRecord.characters ==> Lookup(transitions[prev.targetState], c) == Some(newRecord.targetState)
    requires !LoopsIn(newRecord.Trail())
    requires Members(transitions, initialState, consumed, records) && Indexed(recordsIndex, records, |transitions|)
    requires records' == records + [newRecord]
    requires recordsIndex' == recordsIndex[newRecord.targetState := recordsIndex[newRecord.targetState] + [newRecord]]
    ensures Members(transitions, initialState, consumed, records') && Indexed(recordsIndex', records', |transitions|)
    ensures Offspring(prev, [newRecord])
    ensures Covered(prev, Proposal(newRecord.characters, newRecord.targetState), records')
  {
    MissingRun(newRecord, prev);
    MissingMember(transitions, initialState, consumed, prev, newRecord);
    forall s | 0 <= s < |transitions|
      ensures recordsIndex'[s] == WithTarget(records', s)
    {
      WithTargetAppend(records, newRecord, s);
    }
    assert records'[|records|] == newRecord;
  }

  /** The records on one line of the index, all of them valid members ending in `t`. */
  ghost predicate LineOf(line: seq<Record>, records: seq<Record>, t: State) {
    forall i :: 0 <= i < |line| ==> line[i] in records && line[i].targetState == t && line[i].Valid()
  }

  lemma IndexedLine(transitions: seq<Row>, initialState: State, consumed: seq<Symbol>,
                    records: seq<Record>, recordsIndex: seq<seq<Record>>, t: State)
    requires Members(transitions, initialState, consumed, records) && Indexed(recordsIndex, records, |transitions|)
    requires t < |transitions|
    ensures LineOf(recordsIndex[t], records, t) && AllValid(recordsIndex[t])
  {
    var line := recordsIndex[t];
    forall i | 0 <= i < |line|
      ensures line[i] in records && line[i].targetState == t && line[i].Valid()
    {
      WithTargetMember(records, t, line[i]);
      var j :| 0 <= j < |records| && records[j] == line[i];
    }
  }

  /** A derivative that `insertNewRecord` drops loops, or extends a record of its line. */
  lemma Dropped(prev: Record, newRecord: Record, records: seq<Record>, line: seq<Record>)
    requires newRecord.Valid() && newRecord.previousRecord == prev && !newRecord.accepted
    requires LineOf(line, records, newRecord.targetState)
    requires !((forall b :: b in line ==> !ExtensionWalk(newRecord, b)) && !LoopsIn(newRecord.Trail()))
    ensures prev.Valid() && Covered(prev, Proposal(newRecord.characters, newRecord.targetState), records)
  {
    MissingRun(newRecord, prev);
    if !LoopsIn(newRecord.Trail()) {
      var b :| b in line && ExtensionWalk(newRecord, b);
      var i :| 0 <= i < |records| && records[i] == b;
      assert Extends(prev, newRecord.characters, records[i]);
    }
  }

  /** The records of `rs` from `from` on extend no earlier record that ends in the same state:
      `insertNewRecord` admits none that would. */
  ghost predicate Pruned(rs: seq<Record>, from: nat) {
    forall i, j :: 0 <= i < j < |rs| && from <= j && rs[i].targetState == rs[j].targetState ==>
      rs[i].Valid() && rs[j].Valid() && !ExtensionWalk(rs[j], rs[i])
  }

  lemma AdmittedPruned(records: seq<Record>, recordsIndex: seq<seq<Record>>, statesCount: nat, newRecord: Record)
    requires Indexed(recordsIndex, records, statesCount) && AllValid(records)
    requires newRecord.Valid() && newRecord.targetState < statesCount
    requires forall b :: b in recordsIndex[newRecord.targetState] ==> b.Valid() && !ExtensionWalk(newRecord, b)
    ensures Pruned(records + [newRecord], |records|)
  {
    var rs := records + [newRecord];
    forall i, j | 0 <= i < j < |rs| && |records| <= j && rs[i].targetState == rs[j].targetState
      ensures rs[i].Valid() && rs[j].Valid() && !ExtensionWalk(rs[j], rs[i])
    {
      assert rs[i] == records[i] && rs[j] == newRecord;
      WithTargetMember(records, newRecord.targetState, records[i]);
    }
  }

  /** Records appended to a pruned pool that are pruned against all of it keep it pruned. */
  lemma PrunedJoin(a: seq<Record>, b: seq<Record>, more: seq<Record>, from: nat)
    requires b == a + more && from <= |a|
    requires Pruned(a, from) && Pruned(b, |a|)
    ensures Pruned(b, from)
  {
    forall i, j | 0 <= i < j < |b| && from <= j && b[i].targetState == b[j].targetState
      ensures b[i].Valid() && b[j].Valid() && !ExtensionWalk(b[j], b[i])
    {
      if j < |a| {
        assert b[i] == a[i] && b[j] == a[j];
      }
    }
  }

  // ---------------------------------------------------------------------------
  // The traverser

  class Traverser {
    const initialState: State
    const transitions: seq<Row>
    const transportedTransitions: seq<ReverseRow>
    const finalStates: seq<State>
    /** The completions found by the last run. */
    var finalRecords: seq<Record>
    /** The generation the last reset started from.  The original leaves it undefined until
        its first reset; here it is empty. */
    var tailRecords: seq<Record>

    ghost predicate Valid() {
      TransportedOf(transportedTransitions, transitions)
    }

    /** The tables of the DFA, with the transported table built from its forward rows. */
    constructor (biverseDFA: BiverseDFA)
      ensures initialState == biverseDFA.initialState && transitions == biverseDFA.transitions
      ensures finalStates == biverseDFA.finalStates
      ensures Valid()
      ensures finalRecords == [] && tailRecords == []
    {
      initialState := biverseDFA.initialState;
      transitions := biverseDFA.transitions;
      var transported := CreateReverseTransitions(biverseDFA.transitions);
      transportedTransitions := transported;
      finalStates := biverseDFA.finalStates;
      finalRecords := [];
      tailRecords := [];
    }

    /** The head of every chain: no predecessor, the initial state, the empty symbol, accepted. */
    method CreateInitialRecord() returns (r: Record)
      ensures fresh(r) && r.Valid()
      ensures r.previousRecord == null && r.targetState == initialState
      ensures r.characters == [""] && r.accepted
    {
      r := new Record(null, initialState, [""], true);
    }

    /** `resetFinalRecords` and `resetTailRecords`. */
    method Reset()
      modifies this
      ensures finalRecords == [] && |tailRecords| == 1
      ensures fresh(tailRecords[0]) && tailRecords[0].Valid()
      ensures tailRecords[0].previousRecord == null && tailRecords[0].targetState == initialState
      ensures tailRecords[0].characters == [""] && tailRecords[0].accepted
    {
      finalRecords := [];
      var initialRecord := CreateInitialRecord();
      tailRecords := [initialRecord];
    }

    method SaveFinalRecord(record: Record)
      modifies this`finalRecords
      ensures finalRecords == old(finalRecords) + [record]
    {
      finalRecords := finalRecords + [record];
    }

    /** `isStateFinal`: membership by `indexOf`. */
    function IsStateFinal(state: State): (b: bool)
      ensures b <==> state in finalStates
    {
      -1 < IndexOf(finalStates, state)
    }

    /** The body of `processTailRecords`' loop for one record: at the end of the input a record
        in a final state is saved, any other record is expanded. */
    method ProcessRecord(inputItem: Option<Symbol>, currentRecord: Record, ghost consumed: seq<Symbol>,
                         records: seq<Record>, recordsIndex: seq<seq<Record>>, nextTailRecords: seq<Record>)
      returns (records': seq<Record>, recordsIndex': seq<seq<Record>>, nextTailRecords': seq<Record>,
               ghost added: seq<Record>)
      requires Valid() && RowsInRange(transitions)
      requires Member(transitions, initialState, consumed, currentRecord) && currentRecord in records
      requires Members(transitions, initialState, consumed, records) && Indexed(recordsIndex, records, |transitions|)
      requires NextOk(transitions, initialState, consumed, inputItem, nextTailRecords, records)
      modifies this`finalRecords
      ensures finalRecords == old(finalRecords) + SavedOf([currentRecord], inputItem, finalStates)
      ensures inputItem.None? && currentRecord.targetState in finalStates ==>
        added == [] && records' == records && nextTailRecords' == nextTailRecords
      ensures Indexed(recordsIndex', records', |transitions|)
      ensures Processed(transitions, transportedTransitions, finalStates, initialState, consumed, inputItem, currentRecord,
                        records, nextTailRecords, added, records', nextTailRecords', MaxWidth(transportedTransitions) + 2)
    {
      records', recordsIndex', nextTailRecords', added := records, recordsIndex, nextTailRecords, [];
      if inputItem.None? && IsStateFinal(currentRecord.targetState) {
        SaveFinalRecord(currentRecord);
        assert SavedOf([currentRecord], inputItem, finalStates) == [currentRecord];
      } else {
        records', recordsIndex', nextTailRecords', added :=
          ExpandRecord(inputItem, currentRecord, consumed, records, recordsIndex, nextTailRecords);
        assert |transportedTransitions[currentRecord.targetState]| <= MaxWidth(transportedTransitions);
        assert SavedOf([currentRecord], inputItem, finalStates) == [];
      }
    }

    /** Where `processTailRecords` stands after scanning the first `id` records of `worklist`:
        the generation is in shape, the index lists the worklist, the records saved as final
        are those of the scanned prefix, and `potential` measures the records still to scan. */
    ghost predicate Scanning(inputItem: Option<Symbol>, consumed: seq<Symbol>, tailRecords: seq<Record>,
                             worklist: seq<Record>, recordsIndex: seq<seq<Record>>, nextTailRecords: seq<Record>,
                             id: nat, potential: nat, finalBefore: seq<Record>, finalNow: seq<Record>)
    {
      && GenerationSoFar(transitions, transportedTransitions, finalStates, initialState, consumed, inputItem,
                         tailRecords, worklist, nextTailRecords, id)
      && Indexed(recordsIndex, worklist, |transitions|)
      && finalNow == finalBefore + SavedOf(worklist[..id], inputItem, finalStates)
      && AllValid(worklist[id..])
      && potential == Potential(worklist[id..], MaxWidth(transportedTransitions) + 2, |transitions|)
    }

    /** One turn of `processTailRecords`' loop, on the record at `id` of the worklist: it keeps
        the scan in shape one record further on and lowers the potential. */
    method ProcessWorklistRecord(inputItem: Option<Symbol>, ghost consumed: seq<Symbol>, ghost tailRecords: seq<Record>,
                                 worklist: seq<Record>, recordsIndex: seq<seq<Record>>, nextTailRecords: seq<Record>, id: nat,
                                 ghost potential: nat, ghost finalBefore: seq<Record>)
      returns (worklist': seq<Record>, recordsIndex': seq<seq<Record>>, nextTailRecords': seq<Record>,
               ghost potential': nat)
      requires Valid() && RowsInRange(transitions) && id < |worklist|
      requires Scanning(inputItem, consumed, tailRecords, worklist, recordsIndex, nextTailRecords,
                        id, potential, finalBefore, finalRecords)
      modifies this`finalRecords
      ensures Scanning(inputItem, consumed, tailRecords, worklist', recordsIndex', nextTailRecords',
                       id + 1, potential', finalBefore, finalRecords)
      ensures potential' < potential
    {
      var currentRecord := worklist[id];
      assert Member(transitions, initialState, consumed, currentRecord) && currentRecord in worklist;
      ghost var finalMid := finalRecords;
      ghost var added;
      worklist', recordsIndex', nextTailRecords', added :=
        ProcessRecord(inputItem, currentRecord, consumed, worklist, recordsIndex, nextTailRecords);
      potential' := ScanStep(inputItem, consumed, tailRecords, worklist, recordsIndex, nextTailRecords, id, potential, finalBefore,
               finalMid, added, worklist', recordsIndex', nextTailRecords', finalRecords);
    }

    /** The bookkeeping of `ProcessWorklistRecord`: what `ProcessRecord` promises about the record
        at `id` moves the scan one record on and lowers the potential. */
    lemma ScanStep(inputItem: Option<Symbol>, consumed: seq<Symbol>, tailRecords: seq<Record>,
                   worklist: seq<Record>, recordsIndex: seq<seq<Record>>, nextTailRecords: seq<Record>,
                   id: nat, potential: nat, finalBefore: seq<Record>, finalMid: seq<Record>, added: seq<Record>,
                   worklist': seq<Record>, recordsIndex': seq<seq<Record>>, nextTailRecords': seq<Record>,
                   finalNow: seq<Record>)
      returns (potential': nat)
      requires id < |worklist|
      requires Scanning(inputItem, consumed, tailRecords, worklist, recordsIndex, nextTailRecords,
                        id, potential, finalBefore, finalMid)
      requires finalNow == finalMid + SavedOf([worklist[id]], inputItem, finalStates)
      requires Indexed(recordsIndex', worklist', |transitions|)
      requires Processed(transitions, transportedTransitions, finalStates, initialState, consumed, inputItem, worklist[id],
                         worklist, nextTailRecords, added, worklist', nextTailRecords', MaxWidth(transportedTransitions) + 2)
      ensures Scanning(inputItem, consumed, tailRecords, worklist', recordsIndex', nextTailRecords', id + 1,
                       potential', finalBefore, finalNow)
      ensures potential' < potential
    {
      var base := MaxWidth(transportedTransitions) + 2;
      GenerationStep(transitions, transportedTransitions, finalStates, initialState, consumed, inputItem,
                     tailRecords, worklist, nextTailRecords, id, added, worklist', nextTailRecords', base);
      SavedStep(worklist, added, id, inputItem, finalStates, finalBefore, finalMid, finalNow);
      potential' := Potential(worklist'[id + 1..], base, |transitions|);
    }

    /** `processTailRecords`: one generation.  The worklist starts as a copy of the tail records
        and grows, while it is scanned, by the missing derivatives `insertNewRecord` admits.  At
        the end of the input a record in a final state is saved; every other record is expanded.
        The returned next generation holds only accept derivatives on the input symbol. */
    method ProcessTailRecords(inputItem: Option<Symbol>, tailRecords: seq<Record>, ghost consumed: seq<Symbol>)
      returns (nextTailRecords: seq<Record>, ghost records: seq<Record>)
      requires Valid() && RowsInRange(transitions)
      requires |tailRecords| > 0
      requires Members(transitions, initialState, consumed, tailRecords)
      modifies this`finalRecords
      ensures GenerationSoFar(transitions, transportedTransitions, finalStates, initialState, consumed, inputItem,
                              tailRecords, records, nextTailRecords, |records|)
      ensures finalRecords == old(finalRecords) + SavedOf(records, inputItem, finalStates)
      ensures inputItem.Some? ==> Members(transitions, initialState, consumed + [inputItem.value], nextTailRecords)
      ensures inputItem.None? ==>
        nextTailRecords == [] && Completions(transitions, initialState, consumed, finalStates, SavedOf(records, inputItem, finalStates))
    {
      nextTailRecords := [];
      var worklist := tailRecords;
      var recordsIndex := CreateRecordsIndex(tailRecords, |transitions|);
      var currentRecordId := 0;
      ghost var potential := ScanStart(inputItem, consumed, tailRecords, recordsIndex, finalRecords);
      while currentRecordId < |worklist|
        invariant Scanning(inputItem, consumed, tailRecords, worklist, recordsIndex, nextTailRecords,
                           currentRecordId, potential, old(finalRecords), finalRecords)
        decreases potential
      {
        worklist, recordsIndex, nextTailRecords, potential :=
          ProcessWorklistRecord(inputItem, consumed, tailRecords, worklist, recordsIndex, nextTailRecords,
                                currentRecordId, potential, old(finalRecords));
        currentRecordId := currentRecordId + 1;
      }
      ScanEnd(inputItem, consumed, tailRecords, worklist, recordsIndex, nextTailRecords, currentRecordId,
              potential, old(finalRecords), finalRecords);
      records := worklist;
    }

    /** The scan before its first record: the worklist is the tail records. */
    lemma ScanStart(inputItem: Option<Symbol>, consumed: seq<Symbol>, tailRecords: seq<Record>,
                    recordsIndex: seq<seq<Record>>, finalNow: seq<Record>)
      returns (potential: nat)
      requires Valid() && RowsInRange(transitions)
      requires Members(transitions, initialState, consumed, tailRecords)
      requires Indexed(recordsIndex, tailRecords, |transitions|)
      ensures Scanning(inputItem, consumed, tailRecords, tailRecords, recordsIndex, [], 0, potential, finalNow, finalNow)
    {
      assert tailRecords[..0] == [] && tailRecords[0..] == tailRecords;
      potential := Potential(tailRecords, MaxWidth(transportedTransitions) + 2, |transitions|);
    }

    /** The scan past its last record: the whole worklist is processed. */
    lemma ScanEnd(inputItem: Option<Symbol>, consumed: seq<Symbol>, tailRecords: seq<Record>,
                  worklist: seq<Record>, recordsIndex: seq<seq<Record>>, nextTailRecords: seq<Record>,
                  id: nat, potential: nat, finalBefore: seq<Record>, finalNow: seq<Record>)
      requires |worklist| <= id
      requires Scanning(inputItem, consumed, tailRecords, worklist, recordsIndex, nextTailRecords,
                        id, potential, finalBefore, finalNow)
      ensures GenerationSoFar(transitions, transportedTransitions, finalStates, initialState, consumed, inputItem,
                              tailRecords, worklist, nextTailRecords, |worklist|)
      ensures finalNow == finalBefore + SavedOf(worklist, inputItem, finalStates)
      ensures inputItem.Some? ==> Members(transitions, initialState, consumed + [inputItem.value], nextTailRecords)
      ensures inputItem.None? ==>
        nextTailRecords == [] && Completions(transitions, initialState, consumed, finalStates, SavedOf(worklist, inputItem, finalStates))
    {
      assert worklist[..id] == worklist;
      GenerationOutcome(transitions, transportedTransitions, finalStates, initialState, consumed, inputItem,
                        tailRecords, worklist, nextTailRecords);
    }

    /** One turn of `execute`'s loop: the generation of `tailRecords` is fed the input symbol at
        `position`, or the end-of-input sentinel past the last one, and the loop goes on while
        there was a symbol and the next generation is not empty. */
    method ExecuteStep(input: seq<Symbol>, position: nat, tailRecords: seq<Record>, ghost consumed: seq<Symbol>)
      returns (nextTailRecords: seq<Record>, ghost consumed': seq<Symbol>, running: bool, ghost records: seq<Record>)
      requires Valid() && RowsInRange(transitions)
      requires position <= |input| && consumed == input[..position]
      requires |tailRecords| > 0 && Members(transitions, initialState, consumed, tailRecords)
      requires Completions(transitions, initialState, input, finalStates, finalRecords)
      modifies this`finalRecords
      ensures GenerationSoFar(transitions, transportedTransitions, finalStates, initialState, consumed, ItemAt(input, position),
                              tailRecords, records, nextTailRecords, |records|)
      ensures finalRecords == old(finalRecords) + SavedOf(records, ItemAt(input, position), finalStates)
      ensures Completions(transitions, initialState, input, finalStates, finalRecords)
      ensures running <==> position < |input| && |nextTailRecords| > 0
      ensures !running ==> nextTailRecords == []
      ensures running ==> consumed' == input[..position + 1] && Members(transitions, initialState, consumed', nextTailRecords)
    {
      var inputItem := if position < |input| then Some(input[position]) else None;
      ghost var saved := finalRecords;
      nextTailRecords, records := ProcessTailRecords(inputItem, tailRecords, consumed);
      consumed' := StepOutcome(input, position, consumed, inputItem, saved, records, nextTailRecords, finalRecords);
      running := inputItem.Some? && |nextTailRecords| > 0;
    }

    /** The bookkeeping of `ExecuteStep`: the completions saved at the end of the input are
        completions of the whole input, and the next generation has consumed one more symbol. */
    lemma StepOutcome(input: seq<Symbol>, position: nat, consumed: seq<Symbol>, inputItem: Option<Symbol>,
                      saved: seq<Record>, records: seq<Record>, next: seq<Record>, finalNow: seq<Record>)
      returns (consumed': seq<Symbol>)
      requires position <= |input| && consumed == input[..position]
      requires inputItem == if position < |input| then Some(input[position]) else None
      requires Completions(transitions, initialState, input, finalStates, saved)
      requires finalNow == saved + SavedOf(records, inputItem, finalStates)
      requires inputItem.Some? ==> Members(transitions, initialState, consumed + [inputItem.value], next)
      requires inputItem.None? ==>
        next == [] && Completions(transitions, initialState, consumed, finalStates, SavedOf(records, inputItem, finalStates))
      ensures Completions(transitions, initialState, input, finalStates, finalNow)
      ensures inputItem.Some? ==> consumed' == input[..position + 1] && Members(transitions, initialState, consumed', next)
    {
      consumed' := consumed;
      if inputItem.None? {
        assert consumed == input by {
          assert input[..|input|] == input;
        }
        CompletionsAppend(transitions, initialState, input, finalStates, saved, SavedOf(records, inputItem, finalStates));
      } else {
        assert input[..position + 1] == input[..position] + [input[position]];
        consumed' := consumed + [inputItem.value];
      }
    }

    /** `execute`: resets the traverser, then feeds one input item per generation, starting from
        the initial record, until the generation that consumed the end of the input, or one that
        came back empty.  The input source is modelled as the list of its symbols, after which
        it yields the end-of-input sentinel `None`.  The ghost results name the generation the
        run stopped at: `stopped` symbols were consumed before it, it started from `lastTails`,
        and `last` is its worklist, every record of which was handled.  The result is exactly
        the records of that worklist saved as final, so it is empty when the run stopped before
        the end of the input.  Every completion found follows the table from the initial state
        to a final state, accepts exactly the input symbols on the way, and ends in a run of
        missing steps that loops nowhere. */
    method Execute(input: seq<Symbol>) returns (result: seq<Record>, ghost stopped: nat,
                                                ghost lastTails: seq<Record>, ghost last: seq<Record>,
                                                ghost history: seq<seq<Record>>, ghost worklists: seq<seq<Record>>)
      requires Valid() && RowsInRange(transitions) && initialState < |transitions|
      modifies this
      ensures result == finalRecords
      ensures stopped <= |input| && |lastTails| > 0
      ensures |worklists| == stopped + 1 && RunSoFar(input, history, worklists[..stopped], stopped)
      ensures history[stopped] == lastTails && worklists[stopped] == last
      ensures GenerationSoFar(transitions, transportedTransitions, finalStates, initialState, input[..stopped],
                              ItemAt(input, stopped), lastTails, last, [], |last|)
      ensures result == SavedOf(last, ItemAt(input, stopped), finalStates)
      ensures stopped < |input| ==> result == []
      ensures Completions(transitions, initialState, input, finalStates, result)
      ensures forall i :: 0 <= i < |result| ==> !LoopsIn(result[i].Trail())
      ensures |tailRecords| == 1 && tailRecords[0].Valid() && tailRecords[0].previousRecord == null
      ensures tailRecords[0].targetState == initialState && tailRecords[0].characters == [""] && tailRecords[0].accepted
    {
      Reset();
      ghost var resetTails := this.tailRecords;
      var initialRecord := CreateInitialRecord();
      InitialMember(transitions, initialState, initialRecord);
      var tailRecords := [initialRecord];
      ghost var consumed: seq<Symbol> := [];
      stopped, lastTails, last := 0, tailRecords, [];
      history, worklists := [tailRecords], [];
      var position := 0;
      var running := true;
      while running
        invariant this.tailRecords == resetTails
        invariant position <= |input| + 1
        invariant running ==> finalRecords == [] && Running(input, position, consumed, tailRecords, history, worklists)
        invariant !running ==> StoppedAt(input, stopped, lastTails, last, finalRecords, history, worklists)
        invariant Completions(transitions, initialState, input, finalStates, finalRecords)
        decreases |input| + 1 - position, running
      {
        ghost var tails, consumedBefore := tailRecords, consumed;
        ghost var records;
        tailRecords, consumed, running, records := ExecuteStep(input, position, tailRecords, consumed);
        TurnTaken(input, position, consumedBefore, tails, history, worklists, records, tailRecords, consumed, running, finalRecords);
        if !running {
          stopped, lastTails, last := position, tails, records;
        } else {
          history := history + [tailRecords];
        }
        worklists := worklists + [records];
        position := position + 1;
      }
      result := finalRecords;
      forall i | 0 <= i < |result|
        ensures !LoopsIn(result[i].Trail())
      {
        MemberLoopFree(transitions, initialState, input, result[i]);
      }
    }

    /** The head record `execute` starts from: no predecessor, the initial state, the empty
        symbol, accepted. */
    ghost predicate InitialRecord(r: Record) {
      r.Valid() && r.previousRecord == null && r.targetState == initialState && r.characters == [""] && r.accepted
    }

    /** Generation `k` of a run: it started from `history[k]` after the first `k` input symbols,
        was fed symbol `k`, handled every record of its worklist `worklists[k]`, and handed on the
        non-empty generation `history[k + 1]`. */
    ghost predicate RanGeneration(input: seq<Symbol>, history: seq<seq<Record>>, worklists: seq<seq<Record>>, k: nat) {
      && k < |input| && k + 1 < |history| && k < |worklists| && history[k + 1] != []
      && GenerationSoFar(transitions, transportedTransitions, finalStates, initialState, input[..k], Some(input[k]),
                         history[k], worklists[k], history[k + 1], |worklists[k]|)
    }

    /** The first `n` generations of a run: it started from one initial record, and each
        generation started from what the one before it handed on. */
    ghost predicate RunSoFar(input: seq<Symbol>, history: seq<seq<Record>>, worklists: seq<seq<Record>>, n: nat) {
      && n <= |input| && |history| == n + 1 && |worklists| == n
      && |history[0]| == 1 && InitialRecord(history[0][0])
      && forall k :: 0 <= k < n ==> RanGeneration(input, history, worklists, k)
    }

    /** One more turn of `execute`'s loop extends the run: a running step adds a generation,
        an ending step leaves the generations before it as they were. */
    lemma RunGrows(input: seq<Symbol>, history: seq<seq<Record>>, worklists: seq<seq<Record>>, position: nat,
                   records: seq<Record>, next: seq<Record>, running: bool)
      requires RunSoFar(input, history, worklists, position)
      requires running ==> position < |input| && next != []
      requires running ==> GenerationSoFar(transitions, transportedTransitions, finalStates, initialState, input[..position],
                                           Some(input[position]), history[position], records, next, |records|)
      ensures running ==> RunSoFar(input, history + [next], worklists + [records], position + 1)
    {
      if running {
        var history', worklists' := history + [next], worklists + [records];
        forall k | 0 <= k < position + 1
          ensures RanGeneration(input, history', worklists', k)
        {
          assert history'[k] == history[k] && worklists'[k] == (worklists + [records])[k];
          if k < position {
            assert RanGeneration(input, history, worklists, k);
            assert history'[k + 1] == history[k + 1];
          }
        }
      }
    }

    /** The state of `execute`'s loop while it runs: the generation of `tails` is next, after
        `position` input symbols, and the generations before it ran as `history` records. */
    ghost predicate Running(input: seq<Symbol>, position: nat, consumed: seq<Symbol>, tails: seq<Record>,
                            history: seq<seq<Record>>, worklists: seq<seq<Record>>)
    {
      && position <= |input| && consumed == input[..position]
      && |tails| > 0 && Members(transitions, initialState, consumed, tails)
      && RunSoFar(input, history, worklists, position) && history[position] == tails
    }

    /** The generation a run stopped at: it started from the members `tails` after `stopped`
        symbols, every record of its worklist `last` was handled, it handed on no next
        generation, and the final records are those it saved; the generations before it ran
        as `history` records, and it is the last entry of `history` and of `worklists`. */
    ghost predicate StoppedAt(input: seq<Symbol>, stopped: nat, tails: seq<Record>, last: seq<Record>, finalNow: seq<Record>,
                              history: seq<seq<Record>>, worklists: seq<seq<Record>>)
    {
      && stopped <= |input| && |tails| > 0
      && GenerationSoFar(transitions, transportedTransitions, finalStates, initialState, input[..stopped],
                         ItemAt(input, stopped), tails, last, [], |last|)
      && finalNow == SavedOf(last, ItemAt(input, stopped), finalStates)
      && |worklists| == stopped + 1 && RunSoFar(input, history, worklists[..stopped], stopped)
      && history[stopped] == tails && worklists[stopped] == last
    }

    /** One turn of `execute`'s loop, given what `ExecuteStep` promises: a running turn hands
        the loop on one generation further, an ending one leaves it stopped at this generation. */
    lemma TurnTaken(input: seq<Symbol>, position: nat, consumed: seq<Symbol>, tails: seq<Record>,
                    history: seq<seq<Record>>, worklists: seq<seq<Record>>, records: seq<Record>, next: seq<Record>,
                    consumed': seq<Symbol>, running: bool, finalNow: seq<Record>)
      requires Running(input, position, consumed, tails, history, worklists)
      requires GenerationSoFar(transitions, transportedTransitions, finalStates, initialState, consumed, ItemAt(input, position),
                               tails, records, next, |records|)
      requires finalNow == [] + SavedOf(records, ItemAt(input, position), finalStates)
      requires running <==> position < |input| && |next| > 0
      requires !running ==> next == []
      requires running ==> consumed' == input[..position + 1] && Members(transitions, initialState, consumed', next)
      ensures running ==> finalNow == [] && Running(input, position + 1, consumed', next, history + [next], worklists + [records])
      ensures !running ==> StoppedAt(input, position, tails, records, finalNow, history, worklists + [records])
    {
      RunGrows(input, history, worklists, position, records, next, running);
      if !running {
        assert (worklists + [records])[..position] == worklists;
      } else {
        assert SavedOf(records, ItemAt(input, position), finalStates) == [];
      }
    }

    /** The loop of `processTailRecords` over the transported row of `currentRecord`'s state:
        every bucket except that of `nextState` is offered as a missing derivative. */
    method OfferOtherBuckets(currentRecord: Record, ghost consumed: seq<Symbol>, nextState: Option<State>,
                             records: seq<Record>, recordsIndex: seq<seq<Record>>)
      returns (records': seq<Record>, recordsIndex': seq<seq<Record>>, ghost added: seq<Record>)
      requires Valid() && RowsInRange(transitions)
      requires Member(transitions, initialState, consumed, currentRecord)
      requires Members(transitions, initialState, consumed, records) && Indexed(recordsIndex, records, |transitions|)
      ensures records' == records + added && |added| <= |transportedTransitions[currentRecord.targetState]|
      ensures Members(transitions, initialState, consumed, records') && Indexed(recordsIndex', records', |transitions|)
      ensures Offspring(currentRecord, added)
      ensures OthersCovered(transportedTransitions, currentRecord.targetState, nextState, currentRecord, records',
                            |transportedTransitions[currentRecord.targetState]|)
      ensures BucketOffers(transportedTransitions[currentRecord.targetState], nextState, added)
      ensures Pruned(records', |records|)
    {
      var currentState := currentRecord.targetState;
      var currentStateTransportedTransitions := transportedTransitions[currentState];
      records', recordsIndex', added := records, recordsIndex, [];
      var transportedTransitionId := 0;
      BucketsStart(currentRecord, consumed, nextState, records, recordsIndex);
      while transportedTransitionId < |currentStateTransportedTransitions|
        invariant BucketsOffered(currentRecord, consumed, nextState, records, added, records', recordsIndex', transportedTransitionId)
      {
        ghost var more;
        records', recordsIndex', more :=
          OfferBucket(currentRecord, consumed, nextState, transportedTransitionId, records, added, records', recordsIndex');
        added := added + more;
        transportedTransitionId := transportedTransitionId + 1;
      }
      BucketsEnd(currentRecord, consumed, nextState, records, added, records', recordsIndex');
    }

    lemma BucketsStart(currentRecord: Record, consumed: seq<Symbol>, nextState: Option<State>,
                       records: seq<Record>, recordsIndex: seq<seq<Record>>)
      requires Valid() && Member(transitions, initialState, consumed, currentRecord)
      requires Members(transitions, initialState, consumed, records) && Indexed(recordsIndex, records, |transitions|)
      ensures BucketsOffered(currentRecord, consumed, nextState, records, [], records, recordsIndex, 0)
    {
      assert records + [] == records;
    }

    lemma BucketsEnd(currentRecord: Record, consumed: seq<Symbol>, nextState: Option<State>,
                     records: seq<Record>, added: seq<Record>, records': seq<Record>, recordsIndex': seq<seq<Record>>)
      requires currentRecord.targetState < |transportedTransitions|
      requires BucketsOffered(currentRecord, consumed, nextState, records, added, records', recordsIndex',
                              |transportedTransitions[currentRecord.targetState]|)
      ensures records' == records + added && |added| <= |transportedTransitions[currentRecord.targetState]|
      ensures Members(transitions, initialState, consumed, records') && Indexed(recordsIndex', records', |transitions|)
      ensures Offspring(currentRecord, added)
      ensures OthersCovered(transportedTransitions, currentRecord.targetState, nextState, currentRecord, records',
                            |transportedTransitions[currentRecord.targetState]|)
      ensures BucketOffers(transportedTransitions[currentRecord.targetState], nextState, added)
      ensures Pruned(records', |records|)
    {
    }

    /** `OfferOtherBuckets` after its first `j` buckets: the derivatives `added` were appended to
        `records`, at most one per bucket, all members and offspring of `currentRecord`; the
        first `j` buckets other than that of `nextState` are covered, and only buckets before
        the `j`th other than that of `nextState` were offered, in order. */
    ghost predicate BucketsOffered(currentRecord: Record, consumed: seq<Symbol>, nextState: Option<State>,
                                   records: seq<Record>, added: seq<Record>, records': seq<Record>,
                                   recordsIndex': seq<seq<Record>>, j: nat)
    {
      && Member(transitions, initialState, consumed, currentRecord)
      && currentRecord.targetState < |transportedTransitions|
      && j <= |transportedTransitions[currentRecord.targetState]|
      && records' == records + added && |added| <= j
      && Members(transitions, initialState, consumed, records') && Indexed(recordsIndex', records', |transitions|)
      && Offspring(currentRecord, added)
      && OthersCovered(transportedTransitions, currentRecord.targetState, nextState, currentRecord, records', j)
      && BucketOffers(transportedTransitions[currentRecord.targetState], nextState, added)
      && Pruned(records', |records|)
      && (j < |transportedTransitions[currentRecord.targetState]| ==>
            forall i :: 0 <= i < |added| ==> added[i].targetState < transportedTransitions[currentRecord.targetState][j].target)
    }

    /** One pass of `OfferOtherBuckets`' loop: bucket `j` is offered, as the derivatives `more`,
        only when it is not the bucket of `nextState`, and the loop is in shape one bucket on. */
    method OfferBucket(currentRecord: Record, ghost consumed: seq<Symbol>, nextState: Option<State>, j: nat,
                       ghost records: seq<Record>, ghost added: seq<Record>,
                       recordsSoFar: seq<Record>, recordsIndex: seq<seq<Record>>)
      returns (records': seq<Record>, recordsIndex': seq<seq<Record>>, ghost more: seq<Record>)
      requires Valid() && RowsInRange(transitions)
      requires BucketsOffered(currentRecord, consumed, nextState, records, added, recordsSoFar, recordsIndex, j)
      requires j < |transportedTransitions[currentRecord.targetState]|
      ensures BucketsOffered(currentRecord, consumed, nextState, records, added + more, records', recordsIndex', j + 1)
      ensures records' == recordsSoFar + more && |more| <= 1
      ensures var b := transportedTransitions[currentRecord.targetState][j];
        more != [] ==> nextState != Some(b.target) && ProposalOf(more[0]) == BucketProposal(b)
    {
      var currentState := currentRecord.targetState;
      var currentTransportedTransition := transportedTransitions[currentState][j];
      records', recordsIndex', more := recordsSoFar, recordsIndex, [];
      if nextState != Some(currentTransportedTransition.target) {
        BucketInRange(transitions, transportedTransitions, currentState, j);
        var nextMissingRecord :=
          CreateMissingRecord(currentRecord, currentTransportedTransition.symbols, currentTransportedTransition.target);
        records', recordsIndex', more :=
          OfferMissing(transitions, initialState, consumed, currentRecord, nextMissingRecord, recordsSoFar, recordsIndex);
        WithinAppend(recordsSoFar, more);
        OthersGrow(transportedTransitions, currentState, nextState, currentRecord, recordsSoFar, records', j);
        PrunedJoin(recordsSoFar, records', more, |records|);
      }
      OthersStep(transportedTransitions, currentState, nextState, currentRecord, records', j);
      BucketOffered(transportedTransitions[currentState], nextState, j, added, more);
      OffspringAppend(currentRecord, records, added, more, recordsSoFar, records');
    }

    /** The `else` branch of `processTailRecords` for one record: its accept derivative goes
        into the next generation, and each proposal is offered to this one. */
    method ExpandRecord(item: Option<Symbol>, currentRecord: Record, ghost consumed: seq<Symbol>,
                        records: seq<Record>, recordsIndex: seq<seq<Record>>, nextTailRecords: seq<Record>)
      returns (records': seq<Record>, recordsIndex': seq<seq<Record>>, nextTailRecords': seq<Record>,
               ghost added: seq<Record>)
      requires Valid() && RowsInRange(transitions)
      requires Member(transitions, initialState, consumed, currentRecord) && currentRecord in records
      requires Members(transitions, initialState, consumed, records) && Indexed(recordsIndex, records, |transitions|)
      requires NextOk(transitions, initialState, consumed, item, nextTailRecords, records)
      ensures records' == records + added && |added| <= |transportedTransitions[currentRecord.targetState]| + 1
      ensures Members(transitions, initialState, consumed, records') && Indexed(recordsIndex', records', |transitions|)
      ensures Offspring(currentRecord, added)
      ensures NextOk(transitions, initialState, consumed, item, nextTailRecords', records')
      ensures Within(nextTailRecords, nextTailRecords')
      ensures forall x :: x in nextTailRecords' ==> x in nextTailRecords || x.previousRecord == currentRecord
      ensures |nextTailRecords'| == |nextTailRecords| + if NextOf(transitions, currentRecord.targetState, item).Some? then 1 else 0
      ensures Expanded(transitions, transportedTransitions, item, currentRecord, records', nextTailRecords')
      ensures OffersOnly(transitions, transportedTransitions, currentRecord.targetState, item, added)
      ensures Pruned(records', |records|)
    {
      var currentState := currentRecord.targetState;
      var nextState := NextOf(transitions, currentState, item);
      ghost var early;
      records', recordsIndex', nextTailRecords', early :=
        AcceptStep(item, currentRecord, consumed, records, recordsIndex, nextTailRecords);
      ghost var middle := records';
      ghost var more;
      records', recordsIndex', more := OfferOtherBuckets(currentRecord, consumed, nextState, records', recordsIndex');
      OffspringAppend(currentRecord, records, early, more, middle, records');
      PrunedJoin(middle, records', more, |records|);
      CandidatesOffered(transitions, transportedTransitions, currentState, item, early, more);
      added := early + more;
      WithinAppend(middle, more);
      NextGrows(transitions, initialState, consumed, item, nextTailRecords', middle, records');
      if HasPartial(transitions, transportedTransitions, currentState, item) {
        CoveredGrows(currentRecord, PartialProposal(transitions, transportedTransitions, currentState, item), middle, records');
      }
    }

    /** The accepted transition of `processTailRecords` for one record: the accept derivative
        goes into the next generation, and the rest of its bucket is offered to this one. */
    method AcceptStep(item: Option<Symbol>, currentRecord: Record, ghost consumed: seq<Symbol>,
                      records: seq<Record>, recordsIndex: seq<seq<Record>>, nextTailRecords: seq<Record>)
      returns (records': seq<Record>, recordsIndex': seq<seq<Record>>, nextTailRecords': seq<Record>,
               ghost added: seq<Record>)
      requires Valid() && RowsInRange(transitions)
      requires Member(transitions, initialState, consumed, currentRecord) && currentRecord in records
      requires Members(transitions, initialState, consumed, records) && Indexed(recordsIndex, records, |transitions|)
      requires NextOk(transitions, initialState, consumed, item, nextTailRecords, records)
      ensures records' == records + added && |added| <= 1
      ensures Members(transitions, initialState, consumed, records') && Indexed(recordsIndex', records', |transitions|)
      ensures Offspring(currentRecord, added)
      ensures NextOk(transitions, initialState, consumed, item, nextTailRecords', records')
      ensures Within(nextTailRecords, nextTailRecords')
      ensures var ns := NextOf(transitions, currentRecord.targetState, item);
        ns.Some? ==> exists i :: && 0 <= i < |nextTailRecords'| && nextTailRecords'[i].previousRecord == currentRecord
                                 && nextTailRecords'[i].targetState == ns.value
      ensures HasPartial(transitions, transportedTransitions, currentRecord.targetState, item) ==>
        Covered(currentRecord, PartialProposal(transitions, transportedTransitions, currentRecord.targetState, item), records')
      ensures !HasPartial(transitions, transportedTransitions, currentRecord.targetState, item) ==> added == []
      ensures added != [] ==>
        && HasPartial(transitions, transportedTransitions, currentRecord.targetState, item)
        && ProposalOf(added[0]) == PartialProposal(transitions, transportedTransitions, currentRecord.targetState, item)
      ensures NextOf(transitions, currentRecord.targetState, item).None? ==> nextTailRecords' == nextTailRecords
      ensures forall x :: x in nextTailRecords' ==> x in nextTailRecords || x.previousRecord == currentRecord
      ensures |nextTailRecords'| == |nextTailRecords| + if NextOf(transitions, currentRecord.targetState, item).Some? then 1 else 0
      ensures Pruned(records', |records|)
    {
      var currentState := currentRecord.targetState;
      var nextState := NextOf(transitions, currentState, item);
      records', recordsIndex', nextTailRecords', added := records, recordsIndex, nextTailRecords, [];
      if nextState.Some? {
        LookupInRange(transitions, currentState, item.value);
        var newAcceptRecord := CreateAcceptRecord(currentRecord, item.value, nextState.value);
        AcceptMember(transitions, initialState, consumed, currentRecord, newAcceptRecord, item.value);
        nextTailRecords' := InsertNewTailRecord(nextTailRecords, newAcceptRecord);
        NextInsert(transitions, initialState, consumed, item.value, nextTailRecords, nextTailRecords', newAcceptRecord, records);
        records', recordsIndex', added := OfferPartial(item, currentRecord, consumed, records, recordsIndex);
        NextGrows(transitions, initialState, consumed, item, nextTailRecords', records, records');
      }
    }

    /** The partially missing derivative of `processTailRecords` for a record whose input symbol
        has a transition: when the bucket of that transition holds other symbols too, the
        bucket without the input symbol is offered to the generation. */
    method OfferPartial(item: Option<Symbol>, currentRecord: Record, ghost consumed: seq<Symbol>,
                        records: seq<Record>, recordsIndex: seq<seq<Record>>)
      returns (records': seq<Record>, recordsIndex': seq<seq<Record>>, ghost added: seq<Record>)
      requires Valid() && RowsInRange(transitions)
      requires Member(transitions, initialState, consumed, currentRecord)
      requires Members(transitions, initialState, consumed, records) && Indexed(recordsIndex, records, |transitions|)
      requires NextOf(transitions, currentRecord.targetState, item).Some?
      ensures records' == records + added && |added| <= 1
      ensures Members(transitions, initialState, consumed, records') && Indexed(recordsIndex', records', |transitions|)
      ensures Offspring(currentRecord, added)
      ensures HasPartial(transitions, transportedTransitions, currentRecord.targetState, item) ==>
        Covered(currentRecord, PartialProposal(transitions, transportedTransitions, currentRecord.targetState, item), records')
      ensures !HasPartial(transitions, transportedTransitions, currentRecord.targetState, item) ==> added == []
      ensures added != [] ==>
        && HasPartial(transitions, transportedTransitions, currentRecord.targetState, item)
        && ProposalOf(added[0]) == PartialProposal(transitions, transportedTransitions, currentRecord.targetState, item)
      ensures Pruned(records', |records|)
    {
      var currentState := currentRecord.targetState;
      var nextState := NextOf(transitions, currentState, item);
      records', recordsIndex', added := records, recordsIndex, [];
      var transportedTransitions := BucketOf(this.transportedTransitions[currentState], nextState.value);
      if |transportedTransitions| > 1 {
        AcceptedBucket(this.transitions, this.transportedTransitions, currentState, item.value, nextState.value);
        var newPartiallyMissingRecord :=
          CreatePartiallyMissingRecord(currentRecord, transportedTransitions, item.value, nextState.value);
        assert ProposalOf(newPartiallyMissingRecord) == PartialProposal(this.transitions, this.transportedTransitions, currentState, item);
        records', recordsIndex', added :=
          OfferMissing(this.transitions, initialState, consumed, currentRecord, newPartiallyMissingRecord, records, recordsIndex);
      }
    }
  }

  /** A generation after its first `done` records were processed: the worklist starts with the
      tail records and continues with admitted missing derivatives of earlier records, all of
      them members; the processed records are handled; the next generation is in shape. */
  ghost predicate GenerationSoFar(transitions: seq<Row>, tt: seq<ReverseRow>, finalStates: seq<State>,
                                  initialState: State, consumed: seq<Symbol>, item: Option<Symbol>,
                                  tails: seq<Record>, worklist: seq<Record>, next: seq<Record>, done: nat)
  {
    && |tt| == |transitions|
    && done <= |worklist| && |tails| <= |worklist| && worklist[..|tails|] == tails
    && Members(transitions, initialState, consumed, worklist)
    && Descended(transitions, tt, finalStates, item, tails, worklist)
    && Pruned(worklist, |tails|)
    && (forall j :: 0 <= j < done ==> Handled(transitions, tt, finalStates, item, worklist[j], worklist, next))
    && NextOk(transitions, initialState, consumed, item, next, worklist)
    && |next| == AcceptCount(transitions, item, worklist[..done])
  }

  /** What processing `current` did to a generation: the missing derivatives `added` were
      appended to `records` (fewer than `width` of them), every record is still a member, the
      derivatives are loop-free missing steps one state longer than `current`, the next
      generation only grew and stays in shape, and `current` is handled. */
  ghost predicate Processed(transitions: seq<Row>, tt: seq<ReverseRow>, finalStates: seq<State>,
                            initialState: State, consumed: seq<Symbol>, item: Option<Symbol>, current: Record,
                            records: seq<Record>, next: seq<Record>, added: seq<Record>,
                            records': seq<Record>, next': seq<Record>, width: nat)
  {
    && current.Valid() && current.targetState < |transitions| && |tt| == |transitions|
    && records' == records + added && |added| < width
    && Members(transitions, initialState, consumed, records')
    && Offspring(current, added)
    && Pruned(records', |records|)
    && NextOk(transitions, initialState, consumed, item, next', records')
    && Within(next, next')
    && (forall x :: x in next' ==> x in next || x.previousRecord == current)
    && |next'| == |next| + (if NextOf(transitions, current.targetState, item).Some? then 1 else 0)
    && (item.None? && current.targetState in finalStates ==> next' == next)
    && (item.None? && current.targetState in finalStates ==> added == [])
    && (!(item.None? && current.targetState in finalStates) ==> OffersOnly(transitions, tt, current.targetState, item, added))
    && Handled(transitions, tt, finalStates, item, current, records', next')
  }

  /** Processing the record at `done` keeps the generation in shape one record further on, and
      lowers the potential of the records still to be processed. */
  lemma GenerationStep(transitions: seq<Row>, tt: seq<ReverseRow>, finalStates: seq<State>,
                       initialState: State, consumed: seq<Symbol>, item: Option<Symbol>, tails: seq<Record>,
                       before: seq<Record>, nextBefore: seq<Record>, done: nat,
                       added: seq<Record>, worklist: seq<Record>, next: seq<Record>, base: nat)
    requires GenerationSoFar(transitions, tt, finalStates, initialState, consumed, item, tails, before, nextBefore, done)
    requires done < |before| <= |worklist| && 2 <= base && AllValid(before[done..])
    requires Processed(transitions, tt, finalStates, initialState, consumed, item, before[done],
                       before, nextBefore, added, worklist, next, base)
    ensures GenerationSoFar(transitions, tt, finalStates, initialState, consumed, item, tails, worklist, next, done + 1)
    ensures AllValid(worklist[done + 1..])
    ensures Potential(worklist[done + 1..], base, |transitions|) < Potential(before[done..], base, |transitions|)
  {
    assert worklist[..|tails|] == before[..|tails|];
    assert AllValid(before) && AllValid(added);
    HandledStep(transitions, tt, finalStates, item, before, nextBefore, done, worklist, next);
    DerivedStep(transitions, tt, finalStates, item, tails, before, done, added, worklist);
    PrunedJoin(before, worklist, added, |tails|);
    AcceptCountStep(transitions, item, before, done, added, worklist, |nextBefore|, |next|);
    PotentialGenerationStep(transitions, initialState, consumed, before, done, added, worklist, base);
  }

  /** The next generation grows by one accept derivative exactly when the processed record has
      a transition on the input symbol. */
  lemma AcceptCountStep(transitions: seq<Row>, item: Option<Symbol>, before: seq<Record>, done: nat,
                        added: seq<Record>, worklist: seq<Record>, countBefore: nat, count: nat)
    requires done < |before| && worklist == before + added && before[done].targetState < |transitions|
    requires countBefore == AcceptCount(transitions, item, before[..done])
    requires count == countBefore + (if NextOf(transitions, before[done].targetState, item).Some? then 1 else 0)
    ensures count == AcceptCount(transitions, item, worklist[..done + 1])
  {
    assert worklist[..done + 1] == before[..done] + [before[done]];
  }

  lemma HandledStep(transitions: seq<Row>, tt: seq<ReverseRow>, finalStates: seq<State>, item: Option<Symbol>,
                    before: seq<Record>, nextBefore: seq<Record>, done: nat, worklist: seq<Record>, next: seq<Record>)
    requires |tt| == |transitions| && done < |before| <= |worklist| && worklist[..|before|] == before
    requires forall j :: 0 <= j < |before| ==> before[j].Valid() && before[j].targetState < |transitions|
    requires forall j :: 0 <= j < done ==> Handled(transitions, tt, finalStates, item, before[j], before, nextBefore)
    requires Within(before, worklist) && Within(nextBefore, next)
    requires Handled(transitions, tt, finalStates, item, before[done], worklist, next)
    ensures forall j :: 0 <= j < done + 1 ==> Handled(transitions, tt, finalStates, item, worklist[j], worklist, next)
  {
    forall j | 0 <= j < done + 1
      ensures Handled(transitions, tt, finalStates, item, worklist[j], worklist, next)
    {
      assert worklist[j] == worklist[..|before|][j];
      if j < done {
        HandledGrows(transitions, tt, finalStates, item, before[j], before, nextBefore, worklist, next);
      }
    }
  }

  /** The records after the tails are loop-free missing steps whose predecessors come earlier,
      each a proposal its predecessor offered; appending the derivatives of one of them keeps
      that so. */
  ghost predicate Descended(transitions: seq<Row>, tt: seq<ReverseRow>, finalStates: seq<State>, item: Option<Symbol>,
                            tails: seq<Record>, worklist: seq<Record>) {
    forall j :: |tails| <= j < |worklist| ==>
      && worklist[j].Valid() && !worklist[j].accepted && !LoopsIn(worklist[j].Trail())
      && worklist[j].previousRecord in worklist[..j]
      && OfferedBy(transitions, tt, finalStates, item, worklist[j])
  }

  lemma DerivedStep(transitions: seq<Row>, tt: seq<ReverseRow>, finalStates: seq<State>, item: Option<Symbol>,
                    tails: seq<Record>, before: seq<Record>, done: nat, added: seq<Record>, worklist: seq<Record>)
    requires |tails| <= |before| && done < |before| && worklist == before + added
    requires Descended(transitions, tt, finalStates, item, tails, before) && Offspring(before[done], added)
    requires before[done].targetState < |transitions| && |tt| == |transitions|
    requires !(item.None? && before[done].targetState in finalStates) ==>
      OffersOnly(transitions, tt, before[done].targetState, item, added)
    requires item.None? && before[done].targetState in finalStates ==> added == []
    ensures Descended(transitions, tt, finalStates, item, tails, worklist)
  {
    forall j | |tails| <= j < |worklist|
      ensures && worklist[j].Valid() && !worklist[j].accepted && !LoopsIn(worklist[j].Trail())
              && worklist[j].previousRecord in worklist[..j]
              && OfferedBy(transitions, tt, finalStates, item, worklist[j])
    {
      if j >= |before| {
        assert worklist[j] == added[j - |before|];
        assert worklist[..j][done] == before[done];
        assert IsOffer(transitions, tt, before[done].targetState, item, ProposalOf(added[j - |before|]));
      } else {
        assert worklist[j] == before[j];
        assert worklist[..j] == before[..j];
      }
    }
  }

  lemma PotentialGenerationStep(transitions: seq<Row>, initialState: State, consumed: seq<Symbol>,
                                before: seq<Record>, done: nat, added: seq<Record>, worklist: seq<Record>, base: nat)
    requires done < |before| && 2 <= base && |added| < base && worklist == before + added
    requires Members(transitions, initialState, consumed, worklist) && AllValid(before) && AllValid(added)
    requires forall i :: 0 <= i < |added| ==> |RunOf(added[i].Trail())| == |RunOf(before[done].Trail())| + 1
    ensures AllValid(worklist[done + 1..])
    ensures Potential(worklist[done + 1..], base, |transitions|) < Potential(before[done..], base, |transitions|)
  {
    var n := |transitions|;
    forall i | 0 <= i < |added|
      ensures added[i].Valid() && |RunOf(added[i].Trail())| <= n
    {
      assert added[i] == worklist[|before| + i];
      RunBound(RunOf(added[i].Trail()), n);
    }
    assert worklist[done] == before[done];
    RunBound(RunOf(before[done].Trail()), n);
    assert forall j :: 0 <= j < |before| ==> before[j] == worklist[j];
    PotentialStep(before, done, added, base, n);
  }

  /** Saving records one at a time: the records saved from the first `id + 1` records of the
      grown worklist are those saved from the first `id`, then the record at `id` if saved,
      whatever was appended to the worklist meanwhile. */
  lemma SavedStep(before: seq<Record>, added: seq<Record>, id: nat, item: Option<Symbol>, finalStates: seq<State>,
                  finalBefore: seq<Record>, finalMid: seq<Record>, finalNow: seq<Record>)
    requires id < |before|
    requires finalMid == finalBefore + SavedOf(before[..id], item, finalStates)
    requires finalNow == finalMid + SavedOf([before[id]], item, finalStates)
    ensures finalNow == finalBefore + SavedOf((before + added)[..id + 1], item, finalStates)
  {
    var rs := (before + added)[..id + 1];
    assert rs[..|rs| - 1] == before[..id];
    assert rs[|rs| - 1] == before[id];
    assert [before[id]][..0] == [];
  }

  /** Completions: records that accept all of `input` and end in a final state. */
  ghost predicate Completions(transitions: seq<Row>, initialState: State, input: seq<Symbol>,
                              finalStates: seq<State>, rs: seq<Record>) {
    forall i :: 0 <= i < |rs| ==>
      Member(transitions, initialState, input, rs[i]) && rs[i].targetState in finalStates
  }

  lemma CompletionsAppend(transitions: seq<Row>, initialState: State, input: seq<Symbol>,
                          finalStates: seq<State>, a: seq<Record>, b: seq<Record>)
    requires Completions(transitions, initialState, input, finalStates, a)
    requires Completions(transitions, initialState, input, finalStates, b)
    ensures Completions(transitions, initialState, input, finalStates, a + b)
  {
    forall i | 0 <= i < |a + b|
      ensures Member(transitions, initialState, input, (a + b)[i]) && (a + b)[i].targetState in finalStates
    {
      if i >= |a| {
        assert (a + b)[i] == b[i - |a|];
      }
    }
  }

  /** What a finished generation hands on: the next tails are members for one more input
      symbol, and at the end of the input there are none, while every record saved as final
      is a completion of the input consumed so far. */
  lemma GenerationOutcome(transitions: seq<Row>, tt: seq<ReverseRow>, finalStates: seq<State>,
                          initialState: State, consumed: seq<Symbol>, item: Option<Symbol>,
                          tails: seq<Record>, records: seq<Record>, next: seq<Record>)
    requires GenerationSoFar(transitions, tt, finalStates, initialState, consumed, item, tails, records, next, |records|)
    ensures item.Some? ==> Members(transitions, initialState, consumed + [item.value], next)
    ensures item.None? ==> next == [] && Completions(transitions, initialState, consumed, finalStates, SavedOf(records, item, finalStates))
  {
    if item.None? {
      var saved := SavedOf(records, item, finalStates);
      forall i | 0 <= i < |saved|
        ensures Member(transitions, initialState, consumed, saved[i]) && saved[i].targetState in finalStates
      {
        SavedMember(records, item, finalStates, saved[i]);
        var j :| 0 <= j < |records| && records[j] == saved[i];
      }
    }
  }

  /** A member of a generation does not loop: the run at the end of its trail visits no state twice. */
  lemma MemberLoopFree(transitions: seq<Row>, initialState: State, consumed: seq<Symbol>, r: Record)
    requires Member(transitions, initialState, consumed, r)
    ensures !LoopsIn(r.Trail())
  {
    var t := r.Trail();
    if !t[0].accepted {
      var run := RunOf(t);
      var rest := RunOf(t[1..]);
      assert run == [t[0].target] + rest;
      assert Distinct(run);
      forall k | 0 <= k < |rest|
        ensures rest[k] != t[0].target
      {
        assert run[0] != run[k + 1];
      }
    }
  }

  lemma NextGrows(transitions: seq<Row>, initialState: State, consumed: seq<Symbol>, item: Option<Symbol>,
                  next: seq<Record>, pool: seq<Record>, pool': seq<Record>)
    requires NextOk(transitions, initialState, consumed, item, next, pool) && Within(pool, pool')
    ensures NextOk(transitions, initialState, consumed, item, next, pool')
  {
  }

  /** Inserting an accept derivative keeps the next generation in shape. */
  lemma NextInsert(transitions: seq<Row>, initialState: State, consumed: seq<Symbol>, item: Symbol,
                   next: seq<Record>, next': seq<Record>, x: Record, pool: seq<Record>)
    requires NextOk(transitions, initialState, consumed, Some(item), next, pool)
    requires forall y :: y in next' <==> y in next || y == x
    requires SortedByMissing(next) ==> SortedByMissing(next')
    requires x.accepted && x.characters == [item] && x.previousRecord != null && x.previousRecord in pool
    requires Member(transitions, initialState, consumed + [item], x)
    ensures NextOk(transitions, initialState, consumed, Some(item), next', pool)
    ensures Within(next, next') && x in next'
  {
    forall i | 0 <= i < |next'|
      ensures next'[i] == x || next'[i] in next
    {
      assert next'[i] in next';
    }
  }
}
