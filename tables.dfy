/** The transition tables shared by the compiler's output and the completion search.

    A forward row maps each symbol to the state it leads to.  In the original it is a
    plain object, so its keys are distinct and are enumerated in insertion order; here it
    is an association list with unique keys.  A reverse ("transported") row groups the
    symbols of a forward row by the state they lead to.  Its keys are state numbers, which
    objects enumerate in ascending numeric order, so a reverse row is a list of buckets
    with strictly ascending targets. */
module Tables {

  /** A symbol is a character string; the empty string labels an epsilon transition. */
  type Symbol = string

  type State = nat

  const Epsilon: Symbol := ""

  datatype Option<+T> = None | Some(value: T)

  /** `Array.prototype.indexOf`: the first position of `x` in `s`, or -1. */
  function IndexOf<T(==)>(s: seq<T>, x: T): (r: int)
    ensures -1 <= r
    ensures r == -1 <==> x !in s
    ensures 0 <= r ==> r < |s| && s[r] == x && x !in s[..r]
  {
    if s == [] then -1
    else if s[0] == x then 0
    else
      var k := IndexOf(s[1..], x);
      if k == -1 then -1
      else
        assert s[..k + 1] == [s[0]] + s[1..][..k];
        k + 1
  }

  // ---------------------------------------------------------------------------
  // Forward rows

  function Keys(row: seq<(Symbol, State)>): (ks: seq<Symbol>)
    ensures |ks| == |row|
    ensures forall i :: 0 <= i < |row| ==> ks[i] == row[i].0
  {
    if row == [] then [] else [row[0].0] + Keys(row[1..])
  }

  predicate UniqueKeys(row: seq<(Symbol, State)>) {
    forall i, j :: 0 <= i < j < |row| ==> row[i].0 != row[j].0
  }

  /** One state's outgoing transitions, as an object keyed by symbol. */
  type Row = r: seq<(Symbol, State)> | UniqueKeys(r)

  /** `row[c]`: the state the symbol `c` leads to, if any. */
  function Lookup(row: Row, c: Symbol): (r: Option<State>)
    ensures r.None? <==> c !in Keys(row)
  {
    if row == [] then None
    else if row[0].0 == c then Some(row[0].1)
    else Lookup(row[1..], c)
  }

  /** Keys are unique, so each entry's key leads to that entry's state. */
  lemma {:induction false} LookupAt(row: Row, i: nat)
    requires i < |row|
    ensures Lookup(row, row[i].0) == Some(row[i].1)
    decreases i
  {
    if i > 0 {
      var tail: Row := row[1..];
      assert row[0].0 != row[i].0;
      assert tail[i - 1] == row[i];
      LookupAt(tail, i - 1);
    }
  }

  /** Looking up `c` gives `t` exactly when `(c, t)` is an entry of the row. */
  lemma LookupIn(row: Row, c: Symbol, t: State)
    ensures Lookup(row, c) == Some(t) <==> (c, t) in row
  {
    if (c, t) in row {
      var i :| 0 <= i < |row| && row[i] == (c, t);
      LookupAt(row, i);
    } else if c in Keys(row) {
      var j :| 0 <= j < |row| && Keys(row)[j] == c;
      LookupAt(row, j);
    }
  }

  /** `row[c] = t`: overwrites the value of an existing key in place, or adds a new key last. */
  function Put(row: Row, c: Symbol, t: State): (r: Row)
    ensures c in Keys(row) ==> Keys(r) == Keys(row)
    ensures c !in Keys(row) ==> Keys(r) == Keys(row) + [c]
  {
    var ks := Keys(row);
    if c in ks then
      var i := IndexOf(ks, c);
      var r := row[i := (c, t)];
      assert Keys(r) == ks;
      r
    else
      var r := row + [(c, t)];
      assert Keys(r) == ks + [c];
      r
  }

  /** After `row[c] = t`, the key `c` leads to `t` and every other key is as before. */
  lemma PutLookup(row: Row, c: Symbol, t: State, d: Symbol)
    ensures Lookup(Put(row, c, t), d) == if d == c then Some(t) else Lookup(row, d)
  {
    var r := Put(row, c, t);
    var ks := Keys(row);
    if c in ks {
      var i := IndexOf(ks, c);
      assert r == row[i := (c, t)];
      assert r[i] == (c, t);
      LookupAt(r, i);
      if d != c && d in ks {
        var j := IndexOf(ks, d);
        assert r[j] == row[j];
        LookupAt(r, j);
        LookupAt(row, j);
      }
    } else {
      assert r == row + [(c, t)];
      assert r[|row|] == (c, t);
      LookupAt(r, |row|);
      if d != c && d in ks {
        var j := IndexOf(ks, d);
        assert r[j] == row[j];
        LookupAt(r, j);
        LookupAt(row, j);
      }
    }
  }

  /** The symbols of `row`, in row order, that lead to `t`. */
  function SymbolsTo(row: seq<(Symbol, State)>, t: State): seq<Symbol>
  {
    if row == [] then []
    else SymbolsTo(row[..|row| - 1], t) + (if row[|row| - 1].1 == t then [row[|row| - 1].0] else [])
  }

  /** Every state a row leads to, in row order. */
  function TargetsOfRow(row: seq<(Symbol, State)>): seq<State>
  {
    if row == [] then [] else TargetsOfRow(row[..|row| - 1]) + [row[|row| - 1].1]
  }

  lemma {:induction false} SymbolsToMembership(row: Row, t: State, c: Symbol)
    ensures c in SymbolsTo(row, t) <==> Lookup(row, c) == Some(t)
    decreases |row|
  {
    if row != [] {
      var front: Row := row[..|row| - 1];
      var last := row[|row| - 1];
      SymbolsToMembership(front, t, c);
      LookupSplit(row, c);
      if last.0 == c {
        assert c !in Keys(front);
      }
    }
  }

  /** Looking up in a row is looking up in all but its last entry, then in its last entry. */
  lemma LookupSplit(row: Row, c: Symbol)
    requires row != []
    ensures var front: Row := row[..|row| - 1];
      Lookup(row, c) == if c in Keys(front) then Lookup(front, c)
                        else if row[|row| - 1].0 == c then Some(row[|row| - 1].1)
                        else None
  {
    var front: Row := row[..|row| - 1];
    assert Keys(row) == Keys(front) + [row[|row| - 1].0];
    if c in Keys(front) {
      var i :| 0 <= i < |front| && Keys(front)[i] == c;
      assert row[i] == front[i];
      LookupAt(row, i);
      LookupAt(front, i);
    } else if row[|row| - 1].0 == c {
      LookupAt(row, |row| - 1);
    }
  }

  lemma {:induction false} SymbolsToTargets(row: seq<(Symbol, State)>, t: State)
    ensures SymbolsTo(row, t) != [] <==> t in TargetsOfRow(row)
    decreases |row|
  {
    if row != [] {
      SymbolsToTargets(row[..|row| - 1], t);
    }
  }

  // ---------------------------------------------------------------------------
  // Reverse rows

  /** All the symbols of a row that lead to `target`. */
  datatype Bucket = Bucket(target: State, symbols: seq<Symbol>)

  predicate Ascending(rrow: seq<Bucket>) {
    forall i, j :: 0 <= i < j < |rrow| ==> rrow[i].target < rrow[j].target
  }

  /** One state's transported transitions, as an object keyed by target state. */
  type ReverseRow = r: seq<Bucket> | Ascending(r)

  function Targets(rrow: seq<Bucket>): (ts: seq<State>)
    ensures |ts| == |rrow|
    ensures forall i :: 0 <= i < |rrow| ==> ts[i] == rrow[i].target
  {
    if rrow == [] then [] else [rrow[0].target] + Targets(rrow[1..])
  }

  /** `rrow[t]`, or the empty list when `t` is not a key. */
  function BucketOf(rrow: ReverseRow, t: State): (b: seq<Symbol>)
    ensures t !in Targets(rrow) ==> b == []
    ensures forall i :: 0 <= i < |rrow| && rrow[i].target == t ==> b == rrow[i].symbols
  {
    if rrow == [] then []
    else if rrow[0].target == t then rrow[0].symbols
    else BucketOf(rrow[1..], t)
  }

  predicate NonEmptyBuckets(rrow: seq<Bucket>) {
    forall i :: 0 <= i < |rrow| ==> rrow[i].symbols != []
  }

  /** The number of buckets whose target is below `t`: where a new key `t` goes. */
  function InsertPosition(rrow: ReverseRow, t: State): (p: nat)
    ensures p <= |rrow|
    ensures forall i :: 0 <= i < p ==> rrow[i].target < t
    ensures forall i :: p <= i < |rrow| ==> t <= rrow[i].target
  {
    if rrow == [] || t <= rrow[0].target then 0 else 1 + InsertPosition(rrow[1..], t)
  }

  /** `rrow[t].push(c)`, creating the bucket `rrow[t] = []` first when `t` is a new key. */
  function AddSymbol(rrow: ReverseRow, t: State, c: Symbol): (r: ReverseRow)
    ensures t in Targets(rrow) ==> Targets(r) == Targets(rrow)
    ensures t !in Targets(rrow) ==> var p := InsertPosition(rrow, t);
      Targets(r) == Targets(rrow)[..p] + [t] + Targets(rrow)[p..]
  {
    var p := InsertPosition(rrow, t);
    if p < |rrow| && rrow[p].target == t then
      UpdatedRow(rrow, p, c);
      assert Targets(rrow)[p] == t;
      rrow[p := Bucket(t, rrow[p].symbols + [c])]
    else
      InsertedRow(rrow, p, t, c);
      rrow[..p] + [Bucket(t, [c])] + rrow[p..]
  }

  /** Extending the bucket at `p` keeps the targets. */
  lemma UpdatedRow(rrow: ReverseRow, p: nat, c: Symbol)
    requires p < |rrow|
    ensures var r := rrow[p := Bucket(rrow[p].target, rrow[p].symbols + [c])];
      Ascending(r) && Targets(r) == Targets(rrow)
  {
    var r := rrow[p := Bucket(rrow[p].target, rrow[p].symbols + [c])];
    assert forall i :: 0 <= i < |r| ==> r[i].target == rrow[i].target;
    assert Targets(r) == Targets(rrow);
  }

  /** A new bucket for `t` at its insertion position keeps the row ascending. */
  lemma InsertedRow(rrow: ReverseRow, p: nat, t: State, c: Symbol)
    requires p == InsertPosition(rrow, t) && !(p < |rrow| && rrow[p].target == t)
    ensures t !in Targets(rrow)
    ensures var r := rrow[..p] + [Bucket(t, [c])] + rrow[p..];
      Ascending(r) && Targets(r) == Targets(rrow)[..p] + [t] + Targets(rrow)[p..]
  {
    InsertAscending(rrow, p, Bucket(t, [c]));
    InsertedTargets(rrow, p, Bucket(t, [c]));
  }

  /** The targets after inserting `b` at `p` are the targets with `b`'s inserted at `p`. */
  lemma InsertedTargets(rrow: seq<Bucket>, p: nat, b: Bucket)
    requires p <= |rrow|
    ensures Targets(rrow[..p] + [b] + rrow[p..]) == Targets(rrow)[..p] + [b.target] + Targets(rrow)[p..]
  {
    var r := rrow[..p] + [b] + rrow[p..];
    var ts := Targets(rrow);
    var rts := Targets(r);
    var expected := ts[..p] + [b.target] + ts[p..];
    assert |rts| == |expected|;
    forall i | 0 <= i < |rts|
      ensures rts[i] == expected[i]
    {
      InsertedIndex(rrow, p, b, i);
      InsertedIndex(ts, p, b.target, i);
    }
  }

  lemma InsertAscending(rrow: ReverseRow, p: nat, b: Bucket)
    requires p <= |rrow|
    requires forall i :: 0 <= i < p ==> rrow[i].target < b.target
    requires forall i :: p <= i < |rrow| ==> b.target < rrow[i].target
    ensures Ascending(rrow[..p] + [b] + rrow[p..])
  {
    var r := rrow[..p] + [b] + rrow[p..];
    assert forall i :: 0 <= i < |r| ==> r[i] == if i < p then rrow[i] else if i == p then b else rrow[i - 1];
  }

  /** Adding `c` under `t` extends the bucket of `t` by `c` and leaves every other bucket,
      and the emptiness of none, as it was. */
  lemma AddSymbolBuckets(rrow: ReverseRow, t: State, c: Symbol)
    ensures BucketOf(AddSymbol(rrow, t, c), t) == BucketOf(rrow, t) + [c]
    ensures forall u :: u != t ==> BucketOf(AddSymbol(rrow, t, c), u) == BucketOf(rrow, u)
    ensures forall u :: u in Targets(AddSymbol(rrow, t, c)) <==> u in Targets(rrow) || u == t
    ensures NonEmptyBuckets(rrow) ==> NonEmptyBuckets(AddSymbol(rrow, t, c))
  {
    var p := InsertPosition(rrow, t);
    var r := AddSymbol(rrow, t, c);
    if p < |rrow| && rrow[p].target == t {
      assert r == rrow[p := Bucket(t, rrow[p].symbols + [c])];
      assert Targets(rrow)[p] == t;
      UpdateBuckets(rrow, p, c);
    } else {
      assert r == rrow[..p] + [Bucket(t, [c])] + rrow[p..];
      InsertedRow(rrow, p, t, c);
      InsertBuckets(rrow, p, t, c);
    }
  }

  lemma UpdateBuckets(rrow: ReverseRow, p: nat, c: Symbol)
    requires p < |rrow|
    ensures var r: ReverseRow := rrow[p := Bucket(rrow[p].target, rrow[p].symbols + [c])];
      && BucketOf(r, rrow[p].target) == BucketOf(rrow, rrow[p].target) + [c]
      && (forall u :: u != rrow[p].target ==> BucketOf(r, u) == BucketOf(rrow, u))
      && Targets(r) == Targets(rrow)
      && (NonEmptyBuckets(rrow) ==> NonEmptyBuckets(r))
  {
    UpdatedRow(rrow, p, c);
    var t := rrow[p].target;
    var r: ReverseRow := rrow[p := Bucket(t, rrow[p].symbols + [c])];
    assert r[p].target == t;
    forall u | u != t
      ensures BucketOf(r, u) == BucketOf(rrow, u)
    {
      UpdatedOther(rrow, p, r, u);
    }
  }

  lemma UpdatedOther(rrow: ReverseRow, p: nat, r: ReverseRow, u: State)
    requires p < |rrow| == |r| && Targets(r) == Targets(rrow) && u != rrow[p].target
    requires forall i :: 0 <= i < |r| && i != p ==> r[i] == rrow[i]
    ensures BucketOf(r, u) == BucketOf(rrow, u)
  {
    if u in Targets(rrow) {
      var j := IndexOf(Targets(rrow), u);
      assert r[j] == rrow[j];
    }
  }

  lemma InsertBuckets(rrow: ReverseRow, p: nat, t: State, c: Symbol)
    requires p <= |rrow| && t !in Targets(rrow)
    requires Ascending(rrow[..p] + [Bucket(t, [c])] + rrow[p..])
    ensures var r: ReverseRow := rrow[..p] + [Bucket(t, [c])] + rrow[p..];
      && BucketOf(r, t) == BucketOf(rrow, t) + [c]
      && (forall u :: u != t ==> BucketOf(r, u) == BucketOf(rrow, u))
      && (forall u :: u in Targets(r) <==> u in Targets(rrow) || u == t)
      && (NonEmptyBuckets(rrow) ==> NonEmptyBuckets(r))
  {
    var r: ReverseRow := rrow[..p] + [Bucket(t, [c])] + rrow[p..];
    InsertedAt(rrow, p, Bucket(t, [c]), r);
    assert BucketOf(r, t) == [c];
    forall u | u != t
      ensures BucketOf(r, u) == BucketOf(rrow, u)
    {
      InsertedOther(rrow, p, Bucket(t, [c]), r, u);
    }
  }

  lemma InsertedAt(rrow: seq<Bucket>, p: nat, b: Bucket, r: seq<Bucket>)
    requires p <= |rrow| && r == rrow[..p] + [b] + rrow[p..]
    ensures r[p] == b
    ensures forall u :: u in Targets(r) <==> u in Targets(rrow) || u == b.target
    ensures NonEmptyBuckets(rrow) && b.symbols != [] ==> NonEmptyBuckets(r)
  {
    var ts := Targets(rrow);
    InsertedTargets(rrow, p, b);
    assert ts == ts[..p] + ts[p..];
    InsertedIndex(rrow, p, b, p);
    forall i | 0 <= i < |r|
      ensures NonEmptyBuckets(rrow) && b.symbols != [] ==> r[i].symbols != []
    {
      InsertedIndex(rrow, p, b, i);
    }
  }

  lemma InsertedOther(rrow: ReverseRow, p: nat, b: Bucket, r: ReverseRow, u: State)
    requires p <= |rrow| && r == rrow[..p] + [b] + rrow[p..] && u != b.target
    ensures BucketOf(r, u) == BucketOf(rrow, u)
  {
    InsertedAt(rrow, p, b, r);
    if u in Targets(rrow) {
      var j := IndexOf(Targets(rrow), u);
      var k := if j < p then j else j + 1;
      InsertedIndex(rrow, p, b, k);
      assert r[k] == rrow[j];
      assert rrow[j].target == u && r[k].target == u;
      assert BucketOf(r, u) == rrow[j].symbols == BucketOf(rrow, u);
    } else {
      assert u !in Targets(r);
    }
  }

  /** Where the elements of a sequence go when `b` is inserted at `p`. */
  lemma InsertedIndex<T>(s: seq<T>, p: nat, b: T, i: nat)
    requires p <= |s| && i <= |s|
    ensures (s[..p] + [b] + s[p..])[i] == if i < p then s[i] else if i == p then b else s[i - 1]
  {
  }

  /** The transported form of one row, keys visited in the row's own order. */
  function ReverseOfRow(row: seq<(Symbol, State)>): (r: ReverseRow)
  {
    if row == [] then []
    else AddSymbol(ReverseOfRow(row[..|row| - 1]), row[|row| - 1].1, row[|row| - 1].0)
  }

  /** The bucket of `t` holds exactly the symbols leading to `t`, in the row's order;
      a bucket exists only for a state the row leads to, and none is empty. */
  lemma {:induction false} ReverseOfRowBuckets(row: seq<(Symbol, State)>)
    ensures forall t :: BucketOf(ReverseOfRow(row), t) == SymbolsTo(row, t)
    ensures forall t :: t in Targets(ReverseOfRow(row)) <==> t in TargetsOfRow(row)
    ensures NonEmptyBuckets(ReverseOfRow(row))
    decreases |row|
  {
    if row != [] {
      ReverseOfRowBuckets(row[..|row| - 1]);
      AddSymbolBuckets(ReverseOfRow(row[..|row| - 1]), row[|row| - 1].1, row[|row| - 1].0);
    }
  }

  /** The inversion property of a transported row: `c` is in the bucket of `t` exactly when
      `row[c] == t`. */
  lemma ReverseOfRowInverts(row: Row, t: State, c: Symbol)
    ensures c in BucketOf(ReverseOfRow(row), t) <==> Lookup(row, c) == Some(t)
  {
    ReverseOfRowBuckets(row);
    SymbolsToMembership(row, t, c);
  }

  // ---------------------------------------------------------------------------
  // Counting helpers

  ghost predicate Distinct<T>(s: seq<T>) {
    forall i, j :: 0 <= i < j < |s| ==> s[i] != s[j]
  }

  /** Pigeonhole: a list without repetitions drawn from a finite set is no longer than it. */
  lemma {:induction false} DistinctBounded<T>(s: seq<T>, box: set<T>)
    requires Distinct(s) && forall i :: 0 <= i < |s| ==> s[i] in box
    ensures |s| <= |box|
  {
    if s != [] {
      var last := s[|s| - 1];
      var front := s[..|s| - 1];
      assert forall i :: 0 <= i < |front| ==> front[i] in box - {last};
      DistinctBounded(front, box - {last});
    }
  }

  lemma MulMonotone(a: nat, b: nat, e: nat)
    requires a <= b
    ensures a * e <= b * e
  {
    assert b * e == a * e + (b - a) * e;
  }
}
