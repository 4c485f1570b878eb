# whynot-compiled, modelled in Dafny

whynot-compiled turns a regular rule into a small deterministic automaton and then uses that automaton to
suggest completions of partial input.

The **compiler** (`src/compiler/Automaton.js`) works on an abstract syntax tree of the rule. The tree has
three kinds of node: a `test` of one symbol, a `seq` of nodes and a `choice` of nodes. The compiler:

- builds an epsilon-NFA from the tree by Thompson-style `concat` and `choice`;
- determinizes it by the subset construction, whose combo states are sorted epsilon closures;
- minimizes it by Brzozowski's method (reverse, determinize, reverse, determinize);
- flattens the result into a table of rows, one row per state, each mapping a symbol to the next state.

`src/compiler/BiverseDFA.js` wraps such a table together with a **reverse** (transported) table. The reverse
table groups, per state, the symbols of the row by the state they lead to.

The **player** (`src/player/Record.js`, `src/player/Traverser.js`) runs the automaton on an input, one
symbol per generation. Each step of a run is a `Record`. An *accept* record consumes the input symbol. A
*missing* record stands for a symbol that the input lacks, so that the run can reach a state from which
the input continues. A missing record is added to the current generation only when both hold:

- its run of missing steps does not loop;
- it is not a needless extension of a record already reached.

At the end of the input, the records that sit in a final state are the completions.

## How the model is laid out

| file | module | models |
|---|---|---|
| `tables.dfy` | `Tables` | rows of the forward table (association lists with unique keys, in insertion order), buckets of the reverse table, `indexOf` |
| `automaton.dfy` | `Automata` | the `Automaton` class (fields updated in place), `concat`, `choice`, `astToNFA` |
| `closure.dfy` | `Closures` | `eclose`, `comboEclose`, `getInitialEclose` |
| `determinize.dfy` | `Determinization` | `isComboStateFinal`, `getComboStateTransitions`, `determinize` |
| `minimize.dfy` | `Minimization` | `reverse`, `minimNFAize`, `getSimpleNotionOfAMinimalDFA` |
| `biverse.dfy` | `Biverse` | `BiverseDFA` and `createReverseTransitions` |
| `records.dfy` | `Records` | the `Record` class and its chain walks |
| `traverser.dfy` | `Traversal` | the `Traverser` class, record creation and insertion, `processTailRecords`, `execute` |

Each builder method is proved against a function on automaton snapshots (`ConcatOf`, `ChoiceOf`, `AstNfa`,
`ReverseOf`). The subset construction is proved to produce a deterministic automaton whose states are
distinct epsilon-closed combo states, with sound and complete edges and exactly the right final states.

The player is proved against the table it runs on:

- every record of a generation follows the table from the initial state;
- its accepted symbols spell out the input consumed so far;
- its trailing run of missing steps visits no state twice;
- every completion returned by `execute` ends in a final state, has consumed the whole input and does not loop;
- the worklist loop of `processTailRecords` terminates, because each record's derivatives weigh less than
  the record itself under a potential.

## Model

| member | source | states |
|---|---|---|
| Tables.IndexOf | src/player/Traverser.js:221 | `indexOf` returns -1 exactly when the element is absent; otherwise it is the index of the first occurrence |
| Tables.Lookup | src/compiler/BiverseDFA.js:97 | looking a symbol up in a row is undefined exactly when the symbol is not a key of the row |
| Tables.LookupAt | src/compiler/BiverseDFA.js:91-98 | looking up the key of any entry of a row gives that entry's target |
| Tables.LookupIn | src/compiler/BiverseDFA.js:91-98 | a lookup yields `t` if and only if the pair (symbol, `t`) is an entry of the row |
| Tables.Put | src/compiler/Automaton.js:630 | assigning a key keeps the key order; a new key goes last |
| Tables.PutLookup | src/compiler/Automaton.js:630 | after assigning `c := t`, `c` looks up `t` and every other key looks up what it did before |
| Tables.SymbolsToMembership | src/compiler/BiverseDFA.js:128-140 | a symbol is collected under target `t` if and only if the row maps it to `t` |
| Tables.InsertPosition | src/compiler/BiverseDFA.js:135-137 | the place of a new bucket keeps the buckets in ascending order of target |
| Tables.AddSymbol | src/compiler/BiverseDFA.js:135-139 | pushing a symbol keeps the targets when the bucket exists; otherwise it creates the bucket at its ascending place |
| Tables.AddSymbolBuckets | src/compiler/BiverseDFA.js:135-139 | pushing `c` under `t` appends `c` to `t`'s bucket, changes no other bucket, adds only `t` to the targets and keeps every bucket non-empty |
| Tables.ReverseOfRowBuckets | src/compiler/BiverseDFA.js:124-140 | the reverse of a row has, for each target, exactly the row's symbols for it, in row order; its targets are the row's targets; no bucket is empty |
| Tables.ReverseOfRowInverts | src/compiler/BiverseDFA.js:121-141 | `c` is in the bucket of `t` if and only if the row maps `c` to `t` |
| Automata.Automaton.constructor | src/compiler/Automaton.js:22-35 | a new automaton has no initial states, no states, no transitions and no final states |
| Automata.Automaton.SetInitialStates | src/compiler/Automaton.js:37-39 | replaces the initial states and nothing else |
| Automata.Automaton.SetStatesCount | src/compiler/Automaton.js:53-55 | replaces the state count and nothing else |
| Automata.Automaton.AddTransition | src/compiler/Automaton.js:57-62 | appends one transition and changes nothing else |
| Automata.Automaton.SetFinalStates | src/compiler/Automaton.js:64-66 | replaces the final states and nothing else |
| Automata.Concat | src/compiler/Automaton.js:79-142 | a fresh automaton equal to the concatenation of the two operands' values at call time |
| Automata.AppendShifted | src/compiler/Automaton.js:114-125 | appends the given transitions, both ends shifted by the offset, in order |
| Automata.AppendBridges | src/compiler/Automaton.js:105-112 | appends one epsilon edge from each given state to the target, in order |
| Automata.ShiftedCopy | src/compiler/Automaton.js:128-135 | returns the states, each shifted by the offset |
| Automata.ConcatShape | src/compiler/Automaton.js:79-142 | the concatenation has the sum of the state counts and the left initial states; it has `\|L.t\| + \|L.f\| + \|R.t\|` transitions; its final states are exactly the right final states shifted by the left state count |
| Automata.AddAlternative | src/compiler/Automaton.js:176-207 | appends one alternative's block: the entry edge, its shifted transitions and its exit edges |
| Automata.CountChoiceStates | src/compiler/Automaton.js:156-163 | the choice has two states more than all alternatives together |
| Automata.Choice | src/compiler/Automaton.js:150-216 | a fresh automaton equal to the choice over the alternatives' values at call time |
| Automata.FillChoice | src/compiler/Automaton.js:166-212 | fills an empty automaton to the choice over the alternatives |
| Automata.AddAlternatives | src/compiler/Automaton.js:172-209 | appends the blocks of all alternatives in order, each at 1 plus the sizes of those before it |
| Automata.ChoicePlacement | src/compiler/Automaton.js:172-209 | alternative `i`'s block lies in the choice's transitions right after those of the alternatives before it |
| Automata.ChoiceIncreasing | src/compiler/Automaton.js:150-216 | a choice of alternatives whose edges all lead to higher states again has only such edges, and its final states are in range |
| Automata.ChoiceBounded | src/compiler/Automaton.js:150-216 | a choice of alternatives whose edges and states are in range again has its edges and states below its state count |
| Automata.AstToNFA | src/compiler/Automaton.js:264-313 | a fresh automaton equal to the tree's Thompson NFA |
| Automata.SeqToNFA | src/compiler/Automaton.js:281-292 | a `seq` node gives the left-nested concatenation of its children |
| Automata.ConcatChild | src/compiler/Automaton.js:286-290 | one turn of the `seq` loop extends the concatenation of the first `k` children to `k + 1` |
| Automata.ChoiceToNFA | src/compiler/Automaton.js:294-306 | a `choice` node gives the choice over its children's NFAs |
| Automata.AstNfaIncreasing | src/compiler/Automaton.js:264-313 | every edge of a tree's NFA leads to a higher-numbered state, so its epsilon edges form no cycle and `eclose` terminates |
| Automata.AstNfaBounded | src/compiler/Automaton.js:264-313 | every state named by a tree's NFA is below its state count |
| Closures.Eclose | src/compiler/Automaton.js:322-350 | the epsilon closure of a state, starting with the state itself |
| Closures.EcloseSound | src/compiler/Automaton.js:322-350 | every state in the closure is reachable by epsilon edges |
| Closures.EcloseComplete | src/compiler/Automaton.js:322-350 | every state reachable by epsilon edges is in the closure |
| Closures.EcloseReach | src/compiler/Automaton.js:322-350 | a state is in the closure if and only if it is epsilon-reachable |
| Closures.EcloseElements | src/compiler/Automaton.js:338-344 | every element of a closure is the start state or the target of an epsilon edge |
| Closures.InsertSorted | src/compiler/Automaton.js:378 | inserting keeps the sequence ascending and adds exactly one copy of the element |
| Closures.SortStates | src/compiler/Automaton.js:378 | the sort result is ascending and a permutation of its input |
| Closures.SortedUnique | src/compiler/Automaton.js:378 | two ascending permutations of the same states are equal |
| Closures.EclosesMembers | src/compiler/Automaton.js:367-375 | the joined closures hold exactly the states in the closure of some member |
| Closures.ComboEcloseMembers | src/compiler/Automaton.js:359-381 | the combo closure holds exactly the states epsilon-reachable from some member |
| Closures.ComboEcloseEquality | src/compiler/Automaton.js:359-381 | two combo closures are equal if and only if the joined closures are equal as multisets |
| Closures.ComboEclose | src/compiler/Automaton.js:359-381 | returns the sorted joined closure of the members |
| Closures.GetInitialEclose | src/compiler/Automaton.js:389-391 | the combo closure of the initial states |
| Determinization.MovesUpToSound | src/compiler/Automaton.js:434-469 | the move table has one entry per non-epsilon symbol that leaves the combo state, with its targets in transition order |
| Determinization.GetComboStateTransitions | src/compiler/Automaton.js:434-469 | returns the move table of the combo state over all transitions |
| Determinization.IsComboStateFinal | src/compiler/Automaton.js:400-425 | true if and only if some member of the combo state is an original final state |
| Determinization.FindComboState | src/compiler/Automaton.js:527-547 | returns the index of the first equal combo state; when there is none, appends it and returns the new last index |
| Determinization.AddMoves | src/compiler/Automaton.js:516-551 | adds one edge per move, each to the combo state of its closed targets; keeps the combo states distinct, each one after the first discovered by an edge from an earlier one, and the edges sound (each on a symbol the source state moves on), deterministic and grouped by source |
| Determinization.Determinize | src/compiler/Automaton.js:477-568 | a fresh automaton that is the subset construction of the input: distinct combo states with the closed initial states as state 0 and every later one discovered by an edge from an earlier one, sound and complete deterministic edges each on a symbol its source state moves on, and finals exactly the combo states that hold an original final state, ascending |
| Determinization.VisitCombo | src/compiler/Automaton.js:495-555 | one turn of the worklist loop extends the explored prefix by one combo state |
| Determinization.DeterminizationComplete | src/compiler/Automaton.js:558-564 | a fully explored worklist with the setters applied is the subset construction, with no combo state that was not discovered |
| Determinization.AddMoveDiscovers | src/compiler/Automaton.js:527-551 | a combo state is appended only together with the edge that discovers it from an earlier one |
| Determinization.DiscoveredReached | src/compiler/Automaton.js:495-555 | every combo state of a discovered numbering is reachable along edges from the initial combo state |
| Determinization.WithoutEdgesOneState | src/compiler/Automaton.js:495-555 | an automaton without transitions determinizes to the initial combo state alone, with no edge |
| Minimization.Reverse | src/compiler/Automaton.js:576-602 | a fresh automaton with initial and final states swapped and every edge turned round, in order |
| Minimization.ReverseTwice | src/compiler/Automaton.js:576-602 | reversing twice restores the initial states, the transitions and the final states |
| Minimization.FlippedEdges | src/compiler/Automaton.js:588-598 | `(f, t, c)` is an edge of the reverse if and only if `(t, f, c)` is an edge of the original |
| Minimization.FlippedNoEpsilon | src/compiler/Automaton.js:588-598 | reversing a transition list without epsilon edges gives one without epsilon edges |
| Minimization.DeterminizationIsDfa | src/compiler/Automaton.js:477-568 | the subset construction is a DFA: initial states `[0]`, edges in range, no epsilon edge, at most one edge per state and symbol, edges grouped by source, finals ascending and in range |
| Minimization.IncreasingRanked | src/compiler/Automaton.js:322-350 | when every edge leads upward, a rank exists under which `eclose` terminates |
| Minimization.MinimNFAize | src/compiler/Automaton.js:242-244 | the result is determinize(reverse(determinize(reverse(determinize(n))))), and it is a DFA |
| Minimization.LastTargetSpec | src/compiler/Automaton.js:622-632 | the last matching edge is absent if and only if no edge leaves the state on the symbol; when present, it is one of the edges |
| Minimization.RowOfLookup | src/compiler/Automaton.js:622-632 | the flattened row maps each symbol to the target of the last edge from the state on it |
| Minimization.DeterministicLastTarget | src/compiler/Automaton.js:604-643 | in a deterministic transition list, the row maps `c` to `t` if and only if `(s, t, c)` is an edge |
| Minimization.GetSimpleNotionOfAMinimalDFA | src/compiler/Automaton.js:604-643 | one row per state; each row maps each symbol to the target of the last edge on it; the final states are copied |
| Minimization.RowFor | src/compiler/Automaton.js:622-632 | the inner loop builds the row of one state |
| Biverse.CreateReverseTransitions | src/compiler/BiverseDFA.js:115-144 | one reverse row per state; `c` is in bucket `t` of row `s` if and only if `transitions[s][c] == t`; each bucket holds the row's symbols for its target in row order; no bucket is empty |
| Biverse.ReverseRowOf | src/compiler/BiverseDFA.js:122-140 | the inner loop builds the reverse of one row |
| Biverse.TransportedInverts | src/compiler/BiverseDFA.js:115-144 | a table built row by row from the forward rows is their inverse, bucket by bucket |
| Biverse.BiverseDFA.constructor | src/compiler/BiverseDFA.js:17-45 | omitted tables default to empty; an omitted reverse table is built from the forward one; the initial state is 0 |
| Biverse.BiverseDFA.IsStateFinal | src/compiler/BiverseDFA.js:60-62 | true if and only if the state is listed as final |
| Biverse.BiverseDFA.GetStateTransitions | src/compiler/BiverseDFA.js:70-72 | the row of a state; undefined exactly for a state past the table |
| Biverse.BiverseDFA.GetStateReverseTransitions | src/compiler/BiverseDFA.js:80-82 | the reverse row of a state; undefined exactly for a state past the table |
| Biverse.BiverseDFA.GetNextState | src/compiler/BiverseDFA.js:91-98 | the next state is `t` if and only if the row holds the pair (symbol, `t`) |
| Biverse.BiverseDFA.GetInitialState | src/compiler/BiverseDFA.js:105-107 | the initial state is 0 |
| Records.Record.constructor | src/player/Record.js:14-55 | a head record has both counters 0; otherwise the predecessor's counters are copied and exactly one is incremented; `lastAcceptedRecord` is the record itself unless the record is missing and has a predecessor, when it is inherited (a missing head record keeps itself); the total grows by one |
| Records.Record.IsHead | src/player/Record.js:217-219 | a record is a head if and only if its total count is 0, that is, if its chain is just itself |
| Records.Record.FindBaseCandidate | src/player/Record.js:71-93 | null if and only if no record on the older chain has the same accepted count and target state; otherwise the first such record walking back |
| Records.Record.HasLoops | src/player/Record.js:162-195 | true if and only if the record is missing and its target occurs in the run of predecessors back to and including the first accepted one |
| Records.Record.IsPartialOf | src/player/Record.js:133-159 | true if and only if this record's symbols align with the other's with at most one skipped symbol (a single symbol may not be skipped) |
| Records.Record.IsExtensionOf | src/player/Record.js:97-131 | the outcome of the two-pointer walk; true when the base is this record itself or null; false when this record is shorter than the base |
| Records.AncestorIsBase | src/player/Record.js:97-131 | a record is an extension of each record on its own chain |
| Records.PartialCheck | src/player/Record.js:147-158 | the counting loop decides exactly the alignment |
| Records.SingleMiss | src/player/Record.js:152 | a one-symbol record that differs from the other's first symbol is not partial |
| Records.SecondMiss | src/player/Record.js:152 | a second mismatch means not partial |
| Records.PrefixIsPartial | src/player/Record.js:133-159 | every prefix of a symbol list is partial to it |
| Records.RemovalIsPartial | src/player/Record.js:133-159 | removing one symbol gives a partial of the list when the removed symbol differs from the one after it (or is the last) and it is not the first of a two-symbol list, whose one-symbol remainder must match the first symbol |
| Records.PartialAcceptsSubstitution | src/player/Record.js:149-155 | the loop accepts `[x, q]` against `[x, z, y]`: after the one skip it checks a shifted position, not a true subsequence |
| Records.LoopExamples | test/specs/Record.tests.js:51-67 | the chain `0 →m 1 →m 2 →m 3 →m 1` loops; with an accepted step before 3 it does not |
| Traversal.BucketInRange | src/player/Traverser.js:428-447 | every bucket of a reverse row targets a state of the table, is non-empty, and holds exactly the symbols leading there |
| Traversal.AcceptedBucket | src/player/Traverser.js:405 | the accepted symbol lies in the bucket of its next state, all of whose symbols lead there |
| Traversal.FindInsertionIndex | src/player/Traverser.js:280-299 | the index is in `[0, \|tails\|]`; on a list sorted by missing count, everything before it has missing count at most `m` and everything from it on more |
| Traversal.InsertNewTailRecord | src/player/Traverser.js:307-312 | inserts the record exactly once, after every record with equal missing count, and keeps the list sorted |
| Traversal.InsertionKeepsOrder | src/player/Traverser.js:311 | inserting at the found index adds exactly the new record and keeps the order |
| Traversal.RemoveFirst | src/player/Traverser.js:221-227 | removes the first occurrence; when absent, `splice(-1, 1)` drops the last symbol |
| Traversal.CreateAcceptRecord | src/player/Traverser.js:178-187 | an accepted record with one symbol, linked to its predecessor |
| Traversal.CreateMissingRecord | src/player/Traverser.js:197-207 | a missing record with the given symbols, linked to its predecessor |
| Traversal.CreatePartiallyMissingRecord | src/player/Traverser.js:218-236 | a missing record with the bucket less the excluded symbol |
| Traversal.WithTargetMember | src/player/Traverser.js:360-365 | a record is in the index line of `s` if and only if it is a record with target `s` |
| Traversal.CreateRecordsIndex | src/player/Traverser.js:354-365 | one index line per state, each holding exactly the tail records with that target, in order |
| Traversal.InsertNewRecord | src/player/Traverser.js:314-335 | the record is appended to both the records and its index line if and only if it extends no record of that line and does not loop; otherwise nothing changes |
| Traversal.InitialMember | src/player/Traverser.js:153-168 | the initial record follows the table and has consumed nothing |
| Traversal.AcceptMember | src/player/Traverser.js:397 | an accept derivative of a member on the input symbol is a member of the next generation |
| Traversal.MissingMember | src/player/Traverser.js:443 | a non-looping missing derivative of a member is a member of the same generation |
| Traversal.NextOf | src/player/Traverser.js:257-260 | the next state exists only for a real symbol whose row holds it; it is absent exactly when the symbol has no edge |
| Traversal.PartialProposal | src/player/Traverser.js:405-412 | the partially missing proposal targets the next state |
| Traversal.SavedOf | src/player/Traverser.js:375-376 | nothing is saved while input remains |
| Traversal.SavedMember | src/player/Traverser.js:375-376 | a record is saved if and only if the input has ended and the record is in a final state |
| Traversal.OfferMissing | src/player/Traverser.js:314-335 | offering a derivative keeps every record a member and the index exact, and leaves the proposal covered; the derivative is appended exactly when it does not loop and extends no record on the index line of its target state, and an appended one is pruned against every earlier record (`Pruned`) |
| Traversal.Traverser.constructor | src/player/Traverser.js:25-41 | copies the DFA's tables and builds the transported table as the inverse of the forward one |
| Traversal.Traverser.CreateInitialRecord | src/player/Traverser.js:153-168 | the head record: no predecessor, the initial state, the empty symbol, accepted |
| Traversal.Traverser.Reset | src/player/Traverser.js:127-134 | clears the final records and sets the tail records to a fresh initial record |
| Traversal.Traverser.SaveFinalRecord | src/player/Traverser.js:268-270 | appends the record to the final records |
| Traversal.Traverser.IsStateFinal | src/player/Traverser.js:143-145 | true if and only if the state is final |
| Traversal.Traverser.ProcessRecord | src/player/Traverser.js:372-449 | at the end of the input a record in a final state is saved and adds nothing to either generation; any other record is expanded and adds only its own offers, in the order they are made (`OffersOnly`), and the next generation grows by exactly one record, its accept derivative, when its state has an edge on the input symbol, and not at all otherwise |
| Traversal.Traverser.ProcessWorklistRecord | src/player/Traverser.js:370-455 | one turn of the `do … while` loop keeps the scan invariant and lowers the potential |
| Traversal.Traverser.ProcessTailRecords | src/player/Traverser.js:345-460 | every record of the worklist is handled; every record past the tails is an offer of an earlier record that was not saved as final (`Descended`, `OfferedBy`) and extends no earlier record ending in the same state (`Pruned`); the next generation holds exactly one accept derivative per worklist record with a transition on the input symbol (`AcceptCount`); the final records grow by exactly the records saved; with input, the next generation is sorted by missing count and all its members consumed one more symbol; at the end, the saved records are completions and the next generation is empty |
| Traversal.Traverser.ExecuteStep | src/player/Traverser.js:480-487 | one generation, fed the symbol at `position` or the end of the input: its worklist is fully handled, the final records grow by exactly its saved records, and the run continues exactly while input remains and the next generation is not empty (an ending step hands on no records) |
| Traversal.Traverser.Execute | src/player/Traverser.js:468-491 | the run is a history of generations: the first starts from one initial record, each later one from what the one before handed on, and every one before the last was fed its input symbol, handled its whole worklist, admitted no missing derivative that extends an earlier record on its line, and handed on a non-empty generation of one accept derivative per record with an edge on that symbol; the last (after `stopped` symbols) handled its whole worklist and hands on nothing; the result is exactly the records of that worklist saved as final, so it is empty when the run stopped before the end of the input; each result has consumed the whole input, ends in a final state and does not loop; the traverser's tail records are the reset initial record |
| Traversal.Traverser.OfferOtherBuckets | src/player/Traverser.js:422-448 | every bucket other than the next state's is covered by a missing derivative, and the derivatives added are only such buckets, in the order of the row |
| Traversal.Traverser.OfferBucket | src/player/Traverser.js:431-447 | one turn of the bucket loop covers one more bucket, and adds a derivative only for that bucket and only when it is not the next state's |
| Traversal.Traverser.ExpandRecord | src/player/Traverser.js:378-449 | on an edge, the next generation grows by exactly one record, the accept derivative, and is otherwise unchanged; the partially missing and the other missing proposals are covered; the records added are only those offers, the partial one first and then buckets in row order |
| Traversal.Traverser.AcceptStep | src/player/Traverser.js:393-417 | on an existing edge, the next generation grows by exactly one record, an accept derivative of this record to the edge's target; without an edge it is unchanged; a derivative is added to this generation only when the bucket has other symbols, and it is then the partially missing proposal |
| Traversal.Traverser.OfferPartial | src/player/Traverser.js:402-417 | when the accepted bucket holds other symbols, the partially missing proposal is covered; otherwise nothing is added; anything added is that proposal |
| Traversal.CandidatesOffered | src/player/Traverser.js:378-449 | the partially missing derivative followed by bucket derivatives in row order are offers of the record, in the order `OffersOnly` demands |
| Traversal.GenerationStep | src/player/Traverser.js:370-455 | one more record handled keeps the generation invariant and lowers the potential |
| Traversal.GenerationOutcome | src/player/Traverser.js:345-460 | a completed scan gives the next generation on input, or the completions at its end |
| Traversal.MemberLoopFree | src/player/Traverser.js:331 | no member of a generation loops |

## Left out

- The regex parser and the wrappers around it (`fromRegExp`, `toDFA`, `regExpToSimpleMinimalDFA`, lines 218-256 of `src/compiler/Automaton.js`) are not part of this model. The syntax tree is an input datatype.
- `src/compiler/Compiler.js`, the `main.js` files, the older snapshots under `src/` and `test/`, and all console output are not part of this model.
- Language equivalence and minimality of Brzozowski's method are not stated. Only the structural DFA properties are proved.
- JS arrays of strings and objects keyed by strings become Dafny sequences and association lists of symbols. The default `sort()` compares decimal strings; the model sorts numerically. Both orders give equal combo states exactly for equal multisets, and nothing else observes the order.
- JS enumerates integer-like keys of an object in ascending order. The reverse buckets are kept in ascending target order to match. Rows whose symbol keys are digit strings would be enumerated in a different order by JS; that case is not modelled.
- Determinization.GetComboStateTransitions: the moves of a combo state are kept in the order their symbols are first met. The source collects them in a plain object (lines 437-465 of `src/compiler/Automaton.js`), so JS would list digit-string symbols first, in ascending numeric order, then the others in insertion order. For alphabets with digit-string symbols the model's move order differs from the source's.
- Determinization.Determinize: walks each combo state's moves in the order above (line 511 of `src/compiler/Automaton.js`). For alphabets with digit-string symbols the combo states may therefore be numbered, and the edges listed, in a different order than in the source. The properties proved (`IsDeterminization`, `DeterminizationComplete`) do not depend on that order.
- Automata.Automaton.constructor: `statesCount` starts as `[]` in the source; the model uses 0. `reverse` never sets it, so `Minimization.Reverse` yields 0 states. `determinize` never reads the count.
- Closures.Eclose: the recursion of `eclose` terminates only when epsilon edges form no cycle other than self-loops. The model takes a ghost rank that epsilon edges other than self-loops strictly decrease. Trees built by `astToNFA` always have one (`AstNfaIncreasing`, `IncreasingRanked`).
- Automata.AstToNFA: a `seq` node needs at least two children, because the source reads `ast[1]` and `ast[2]` unguarded. Any other node kind takes the `default:` branch and gives an empty automaton.
- Automata.AstToNFA: an unknown node kind is modelled only as the whole tree (`WellShaped`). Below a `seq` or `choice` node its automaton's state count is the array `[]`, and the builder's `+` then concatenates strings (for instance `[] + 2` is `"2"`), so the automata built from such trees are not modelled. The same holds for `Automata.SeqToNFA` and `Automata.ChoiceToNFA`.
- Biverse.BiverseDFA.GetNextState: requires a state below the number of rows. For any other state the source reads a property of `undefined` and throws a TypeError; that error is not modelled.
- Traversal.Traverser.Execute: requires an initial state below the number of rows and every row's targets below it too (`RowsInRange`). A table that breaks either makes the source throw a TypeError when it indexes `recordsIndex` or the transitions by that state (lines 318-320, 364 and 259 of `src/player/Traverser.js`); that error is not modelled.
- Traversal.InsertNewRecord: requires the new record's target to have an index line. The source otherwise reads `length` of `undefined` at lines 318-320 of `src/player/Traverser.js` and throws.
- Traversal.CreateRecordsIndex: requires every tail record's target to be below the state count. The source otherwise calls `push` on `undefined` at line 364 of `src/player/Traverser.js` and throws.
- Traversal.NextOf: the end of the input is `None`, which has no edge. In the source it is `null`, and `transitions[s][null]` looks up the key `"null"` (lines 259 and 384 of `src/player/Traverser.js`). A row with an edge on the symbol `"null"` would therefore give the end of the input an accept derivative in the source; the model does not cover such rows.
- Biverse.BiverseDFA.constructor: requires the forward table whenever the reverse table is omitted. The source then passes `undefined` to `createReverseTransitions`, which throws.
- Getters that only return a field (`getInitialStates`, `getStatesCount`, `getTransitionsCount`, `getFinalStates`, `getPreviousRecord`, `getCharacters`, the counters) are functions without a contract of their own.
- `insertNewRecord` and `insertNewTailRecord` push into arrays that their caller owns. The model returns the new sequences, so aliasing of those arrays is not captured.
- The player's `input()` callback becomes a sequence of symbols followed by the end of input (`null`).
- Traversal.Traverser.ProcessTailRecords: the records of a generation are ghost; only their effect on the final records and on the next generation is observable.
- Some loop bodies are written as separate methods (`AppendShifted`, `ConcatChild`, `VisitCombo`, `FillChoice`, `RowFor`, `ReverseRowOf`, `OfferBucket`, `AcceptStep`, `OfferPartial`), each proved against the same specification as the loop it stands for.
