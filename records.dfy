/** The records of the completion search.  A record is one step of a candidate completion:
    the state it leads to, the symbols it stands for, whether it consumed the input symbol
    (accepted) or stands for symbols the input lacks (missing), and the record before it.
    A record is never changed after construction; records are compared by identity. */
module Records {
  import opened Tables

  /** What a chain of records looks like once the objects are forgotten: newest step first. */
  datatype Step = Step(target: State, accepted: bool)

  /** The targets of the trailing run of a trail: the newest step, and the steps before it back
      to and including the first accepted one. */
  function RunOf(t: seq<Step>): (r: seq<State>)
    ensures |r| <= |t|
  {
    if t == [] then []
    else [t[0].target] + (if t[0].accepted then [] else RunOf(t[1..]))
  }

  /** A missing step loops when its target already occurs in the run of the steps before it. */
  predicate LoopsIn(t: seq<Step>) {
    |t| > 0 && !t[0].accepted && t[0].target in RunOf(t[1..])
  }

  /** The alignment `isPartialOf` checks: `a` is no longer than `b` and is either a prefix of
      `b`, or agrees with `b` up to one position `k` where they differ, after which `a` follows
      `b` shifted by one; a single symbol may not differ. */
  ghost predicate PartialOf(a: seq<Symbol>, b: seq<Symbol>) {
    && |a| <= |b|
    && (|| a == b[..|a|]
        || (|a| != 1 && exists k :: (0 <= k < |a| && a[..k] == b[..k] && a[k] != b[k]
                                       && (k + 1 == |a| || (|a| < |b| && a[k + 1..] == b[k + 2..|a| + 1])))))
  }

  class Record {
    const previousRecord: Record?
    const targetState: State
    const characters: seq<Symbol>
    const accepted: bool
    const missingCount: nat
    const acceptedCount: nat
    /** The last accepted record, when it is not this record itself: `null` for a head record
        and for an accepted one, the predecessor's last accepted record for a missing one. */
    const inheritedLastAccepted: Record?

    /** The counters follow the chain: zero at the head, one more of the right kind at each
        step; and every record before this one is valid too. */
    ghost predicate Valid()
      decreases missingCount + acceptedCount
    {
      if previousRecord == null then
        missingCount == 0 && acceptedCount == 0 && inheritedLastAccepted == null
      else
        && (if accepted then
              && acceptedCount == previousRecord.acceptedCount + 1
              && missingCount == previousRecord.missingCount
              && inheritedLastAccepted == null
            else
              && missingCount == previousRecord.missingCount + 1
              && acceptedCount == previousRecord.acceptedCount
              && inheritedLastAccepted == previousRecord.LastAcceptedRecord())
        && previousRecord.Valid()
    }

    constructor (previousRecord: Record?, targetState: State, characters: seq<Symbol>, accepted: bool)
      requires previousRecord != null ==> previousRecord.Valid()
      ensures Valid()
      ensures this.previousRecord == previousRecord && this.targetState == targetState
      ensures this.characters == characters && this.accepted == accepted
      ensures previousRecord == null ==> missingCount == 0 && acceptedCount == 0
      ensures previousRecord != null && accepted ==>
        acceptedCount == previousRecord.acceptedCount + 1 && missingCount == previousRecord.missingCount
      ensures previousRecord != null && !accepted ==>
        missingCount == previousRecord.missingCount + 1 && acceptedCount == previousRecord.acceptedCount
      ensures LastAcceptedRecord() == if previousRecord == null || accepted then this else previousRecord.LastAcceptedRecord()
      ensures previousRecord != null ==> GetTotalCount() == previousRecord.GetTotalCount() + 1
    {
      this.previousRecord := previousRecord;
      this.targetState := targetState;
      this.characters := characters;
      this.accepted := accepted;
      if previousRecord == null {
        this.missingCount := 0;
        this.acceptedCount := 0;
        this.inheritedLastAccepted := null;
      } else if accepted {
        this.missingCount := previousRecord.missingCount;
        this.acceptedCount := previousRecord.acceptedCount + 1;
        this.inheritedLastAccepted := null;
      } else {
        this.missingCount := previousRecord.missingCount + 1;
        this.acceptedCount := previousRecord.acceptedCount;
        this.inheritedLastAccepted := previousRecord.LastAcceptedRecord();
      }
    }

    function LastAcceptedRecord(): Record {
      if inheritedLastAccepted == null then this else inheritedLastAccepted
    }

    function GetTotalCount(): nat {
      acceptedCount + missingCount
    }

    /** A record is a head exactly when its chain has not counted a single step. */
    function IsHead(): (b: bool)
      requires Valid()
      ensures b <==> GetTotalCount() == 0
      ensures b <==> |Chain()| == 1
    {
      previousRecord == null
    }

    /** This record and all the records before it, newest first. */
    ghost function Chain(): (c: seq<Record>)
      requires Valid()
      ensures |c| == GetTotalCount() + 1 && c[0] == this
      decreases GetTotalCount()
    {
      [this] + (if previousRecord == null then [] else previousRecord.Chain())
    }

    ghost function Trail(): (t: seq<Step>)
      requires Valid()
      ensures |t| == GetTotalCount() + 1 && t[0] == Step(targetState, accepted)
      ensures previousRecord != null ==> t[1..] == previousRecord.Trail()
      decreases GetTotalCount()
    {
      [Step(targetState, accepted)] + (if previousRecord == null then [] else previousRecord.Trail())
    }

    /** Every suffix of the chain is the chain of its first record, whose counters are a
        count of steps lower and whose accepted counter is no higher. */
    lemma ChainLinks()
      requires Valid()
      ensures forall i :: 0 <= i < |Chain()| ==>
        && Chain()[i].Valid() && Chain()[i].Chain() == Chain()[i..]
        && Chain()[i].GetTotalCount() == GetTotalCount() - i
        && Chain()[i].acceptedCount <= acceptedCount
    {
      forall i | 0 <= i < |Chain()|
        ensures && Chain()[i].Valid() && Chain()[i].Chain() == Chain()[i..]
                && Chain()[i].GetTotalCount() == GetTotalCount() - i
                && Chain()[i].acceptedCount <= acceptedCount
      {
        ChainAt(i);
      }
    }

    /** The facts of `ChainLinks` about one position of the chain. */
    lemma {:induction false} ChainAt(i: nat)
      requires Valid() && i < |Chain()|
      ensures && Chain()[i].Valid() && Chain()[i].Chain() == Chain()[i..]
              && Chain()[i].GetTotalCount() == GetTotalCount() - i
              && Chain()[i].acceptedCount <= acceptedCount
      decreases i
    {
      var c := Chain();
      if i == 0 {
        assert c[0..] == c;
      } else {
        var p := previousRecord.Chain();
        assert c == [this] + p;
        previousRecord.ChainAt(i - 1);
        assert c[i] == p[i - 1];
        assert c[i..] == p[i - 1..];
      }
    }

    /** The record after position `i` of the chain is the predecessor of the one at `i`. */
    lemma ChainStep(i: nat)
      requires Valid() && i < |Chain()|
      ensures Chain()[i].previousRecord == if i + 1 < |Chain()| then Chain()[i + 1] else null
    {
      ChainLinks();
      var c := Chain();
      var x := c[i];
      assert x.Chain() == c[i..];
      if x.previousRecord != null {
        assert c[i..] == [x] + x.previousRecord.Chain();
        assert c[i + 1] == c[i..][1];
      }
    }

    ghost predicate SameBase(other: Record) {
      other.acceptedCount == acceptedCount && other.targetState == targetState
    }

    /** `findBaseCandidate`: the first record, walking back from `olderRecord`, with this
        record's accepted count and target; the walk gives up once the accepted counts drop
        below this record's, which loses nothing as they never rise again. */
    method FindBaseCandidate(olderRecord: Record?) returns (baseCandidate: Record?)
      requires Valid() && (olderRecord != null ==> olderRecord.Valid())
      ensures baseCandidate == null <==>
        (olderRecord == null || forall i :: 0 <= i < |olderRecord.Chain()| ==> !SameBase(olderRecord.Chain()[i]))
      ensures baseCandidate != null ==>
        (&& olderRecord != null
         && exists i :: (&& 0 <= i < |olderRecord.Chain()| && olderRecord.Chain()[i] == baseCandidate
                         && SameBase(baseCandidate) && forall j :: 0 <= j < i ==> !SameBase(olderRecord.Chain()[j])))
    {
      baseCandidate := olderRecord;
      if olderRecord == null {
        return;
      }
      var c := olderRecord.Chain();
      olderRecord.ChainLinks();
      var baseCandidateFound := false;
      ghost var i := 0;
      while baseCandidate != null && acceptedCount <= baseCandidate.acceptedCount
        invariant 0 <= i <= |c|
        invariant baseCandidate == if i < |c| then c[i] else null
        invariant forall j :: 0 <= j < i ==> !SameBase(c[j])
        invariant !baseCandidateFound
        decreases |c| - i
      {
        if baseCandidate.acceptedCount == acceptedCount && baseCandidate.targetState == targetState {
          baseCandidateFound := true;
          break;
        }
        olderRecord.ChainStep(i);
        baseCandidate := baseCandidate.previousRecord;
        i := i + 1;
      }
      if !baseCandidateFound {
        if baseCandidate != null {
          var x := c[i];
          assert x.Chain() == c[i..];
          x.ChainLinks();
          forall j | i <= j < |c|
            ensures !SameBase(c[j])
          {
            assert c[j] == x.Chain()[j - i];
          }
        }
        baseCandidate := null;
      }
    }

    /** `hasLoops`: a missing record loops when its target occurs again among the records
        before it, back to and including the first accepted one. */
    method HasLoops() returns (hasLoops: bool)
      requires Valid()
      ensures hasLoops <==> LoopsIn(Trail())
    {
      hasLoops := false;
      var currentState := targetState;
      var earlierRecord := previousRecord;
      if !accepted {
        ghost var t := Trail();
        ghost var j := 1;
        while earlierRecord != null
          invariant 1 <= j <= |t|
          invariant earlierRecord == null <==> j == |t|
          invariant earlierRecord != null ==> earlierRecord.Valid() && earlierRecord.Trail() == t[j..]
          invariant !hasLoops
          invariant RunOf(t[1..]) == ScannedRun(t, j) + RunOf(t[j..])
          invariant currentState !in ScannedRun(t, j)
          decreases |t| - j
        {
          var earlierState := earlierRecord.targetState;
          if earlierState == currentState {
            hasLoops := true;
            break;
          }
          if earlierRecord.accepted {
            break;
          }
          ScanStep(t, j);
          assert earlierRecord.previousRecord == null <==> j + 1 == |t|;
          earlierRecord := earlierRecord.previousRecord;
          j := j + 1;
        }
      }
    }

    /** `isPartialOf`, over the two records' symbol lists. */
    method IsPartialOf(anotherRecord: Record) returns (b: bool)
      ensures b <==> PartialOf(characters, anotherRecord.characters)
    {
      b := PartialCheck(characters, anotherRecord.characters);
    }

    /** `isExtensionOf`: walks back from this record and from `baseCandidate` together,
        stepping the base back only past records this chain is a partial of. */
    method IsExtensionOf(baseCandidate: Record?) returns (b: bool)
      requires Valid() && (baseCandidate != null ==> baseCandidate.Valid())
      ensures b == ExtensionWalk(this, baseCandidate)
      ensures baseCandidate == this || baseCandidate == null ==> b
      ensures baseCandidate != null && baseCandidate != this && GetTotalCount() < baseCandidate.GetTotalCount() ==> !b
    {
      var baseCandidateAncestor := baseCandidate;
      var extensionCandidateAncestor: Record? := this;
      while baseCandidateAncestor != extensionCandidateAncestor
        invariant extensionCandidateAncestor != null ==> extensionCandidateAncestor.Valid()
        invariant baseCandidateAncestor != null ==> baseCandidateAncestor.Valid()
        invariant ExtensionWalk(extensionCandidateAncestor, baseCandidateAncestor) == ExtensionWalk(this, baseCandidate)
        decreases if extensionCandidateAncestor == null then 0 else extensionCandidateAncestor.GetTotalCount() + 1
      {
        if baseCandidateAncestor == null || extensionCandidateAncestor == null
           || extensionCandidateAncestor.GetTotalCount() < baseCandidateAncestor.GetTotalCount() {
          if baseCandidateAncestor == null {
            return true;
          }
          return false;
        }
        var partial := extensionCandidateAncestor.IsPartialOf(baseCandidateAncestor);
        if partial {
          baseCandidateAncestor := baseCandidateAncestor.previousRecord;
        }
        extensionCandidateAncestor := extensionCandidateAncestor.previousRecord;
      }
      return true;
    }
  }

  /** The targets of steps `1` to `j - 1` of a trail. */
  ghost function ScannedRun(t: seq<Step>, j: nat): seq<State>
    requires 1 <= j <= |t|
  {
    seq(j - 1, m requires 0 <= m < j - 1 => t[m + 1].target)
  }

  lemma ScanStep(t: seq<Step>, j: nat)
    requires 1 <= j < |t| && !t[j].accepted
    ensures RunOf(t[j..]) == [t[j].target] + RunOf(t[j + 1..])
    ensures ScannedRun(t, j + 1) == ScannedRun(t, j) + [t[j].target]
    ensures ScannedRun(t, j) + RunOf(t[j..]) == ScannedRun(t, j + 1) + RunOf(t[j + 1..])
  {
    assert t[j..][1..] == t[j + 1..];
    var x := [t[j].target];
    assert ScannedRun(t, j) + (x + RunOf(t[j + 1..])) == (ScannedRun(t, j) + x) + RunOf(t[j + 1..]);
  }

  /** The walk of `isExtensionOf`, one step of each pointer at a time. */
  ghost function ExtensionWalk(e: Record?, b: Record?): bool
    requires e != null ==> e.Valid()
    requires b != null ==> b.Valid()
    decreases if e == null then 0 else e.GetTotalCount() + 1
  {
    if b == e then true
    else if b == null then true
    else if e == null then false
    else if e.GetTotalCount() < b.GetTotalCount() then false
    else ExtensionWalk(e.previousRecord, if PartialOf(e.characters, b.characters) then b.previousRecord else b)
  }

  /** A record is an extension of each of its ancestors: the base pointer stays on the
      extension's own chain, so the walk can only end with the two pointers meeting. */
  lemma {:induction false} AncestorIsBase(e: Record, b: Record)
    requires e.Valid() && b.Valid() && b in e.Chain()
    ensures ExtensionWalk(e, b)
    decreases e.GetTotalCount()
  {
    e.ChainLinks();
    var i :| 0 <= i < |e.Chain()| && e.Chain()[i] == b;
    if b != e {
      assert i > 0;
      assert e.previousRecord != null by {
        e.ChainStep(0);
      }
      var p := e.previousRecord;
      assert e.Chain() == [e] + p.Chain();
      assert b.GetTotalCount() == e.GetTotalCount() - i;
      if PartialOf(e.characters, b.characters) {
        e.ChainStep(i);
        if i + 1 < |e.Chain()| {
          assert e.Chain()[i + 1] == p.Chain()[i];
          AncestorIsBase(p, b.previousRecord);
        }
      } else {
        assert e.Chain()[i] == p.Chain()[i - 1];
        AncestorIsBase(p, b);
      }
    }
  }

  /** The loop of `isPartialOf`: a miss shifts the comparison one place along `b`; a second
      miss, or a miss on a one-symbol list, fails.  Past the end of `b` nothing matches. */
  method PartialCheck(a: seq<Symbol>, b: seq<Symbol>) returns (r: bool)
    ensures r <==> PartialOf(a, b)
  {
    if |a| > |b| {
      return false;
    }
    var missesCount := 0;
    ghost var k := 0;
    var characterId := 0;
    while characterId < |a|
      invariant 0 <= characterId <= |a| && 0 <= missesCount <= 1
      invariant missesCount == 0 ==> a[..characterId] == b[..characterId]
      invariant missesCount == 1 ==> MissedAt(a, b, k, characterId)
    {
      var other := if characterId + missesCount < |b| then Some(b[characterId + missesCount]) else None;
      if other != Some(a[characterId]) {
        missesCount := missesCount + 1;
        if (missesCount == 1 && |a| == 1) || missesCount > 1 {
          if missesCount == 1 {
            SingleMiss(a, b);
          } else {
            SecondMiss(a, b, k, characterId);
          }
          return false;
        }
        k := characterId;
        FirstMiss(a, b, k);
      } else if missesCount == 0 {
        MatchBefore(a, b, characterId);
      } else {
        MatchAfter(a, b, k, characterId);
      }
      characterId := characterId + 1;
    }
    if missesCount == 0 {
      assert a[..|a|] == a;
    } else {
      assert a[k + 1..|a|] == a[k + 1..];
    }
    return true;
  }

  /** After the first `i` symbols with one miss at `k`: the lists agree before `k`, differ at
      `k`, and agree shifted by one from `k + 1` to `i`. */
  ghost predicate MissedAt(a: seq<Symbol>, b: seq<Symbol>, k: nat, i: nat) {
    && |a| != 1 && |a| <= |b| && k < i <= |a|
    && a[..k] == b[..k] && a[k] != b[k]
    && (k + 1 < i ==> i < |b| && a[k + 1..i] == b[k + 2..i + 1])
  }

  /** A first miss at `i`, after an exact match before it. */
  lemma FirstMiss(a: seq<Symbol>, b: seq<Symbol>, i: nat)
    requires |a| != 1 && |a| <= |b| && i < |a|
    requires a[..i] == b[..i] && a[i] != b[i]
    ensures MissedAt(a, b, i, i + 1)
  {
  }

  /** A match at `i` extends an exact match before it. */
  lemma MatchBefore(a: seq<Symbol>, b: seq<Symbol>, i: nat)
    requires i < |a| && i < |b| && a[..i] == b[..i] && a[i] == b[i]
    ensures a[..i + 1] == b[..i + 1]
  {
    var a', b' := a[..i + 1], b[..i + 1];
    assert |a'| == |b'|;
    forall j | 0 <= j <= i
      ensures a'[j] == b'[j]
    {
      if j < i {
        assert a'[j] == a[..i][j];
        assert b'[j] == b[..i][j];
      }
    }
  }

  /** A match at `i` against `b[i + 1]` extends the shifted agreement after the miss. */
  lemma MatchAfter(a: seq<Symbol>, b: seq<Symbol>, k: nat, i: nat)
    requires MissedAt(a, b, k, i) && i < |a| && i + 1 < |b| && a[i] == b[i + 1]
    ensures MissedAt(a, b, k, i + 1)
  {
    var a', b' := a[k + 1..i + 1], b[k + 2..i + 2];
    assert |a'| == |b'|;
    forall j | 0 <= j < |a'|
      ensures a'[j] == b'[j]
    {
      if k + 1 + j < i {
        assert a'[j] == a[k + 1..i][j];
        assert b'[j] == b[k + 2..i + 1][j];
      }
    }
  }

  lemma SingleMiss(a: seq<Symbol>, b: seq<Symbol>)
    requires |a| == 1 && |b| >= 1 && a[0] != b[0]
    ensures !PartialOf(a, b)
  {
    assert a != b[..1] by {
      assert b[..1][0] == b[0];
    }
  }

  lemma SecondMiss(a: seq<Symbol>, b: seq<Symbol>, k: nat, i: nat)
    requires MissedAt(a, b, k, i) && i < |a|
    requires !(i + 1 < |b| && b[i + 1] == a[i])
    ensures !PartialOf(a, b)
  {
    assert a != b[..|a|] by {
      assert a[k] != b[..|a|][k];
    }
    forall k' | 0 <= k' < |a| && a[..k'] == b[..k'] && a[k'] != b[k']
      ensures !(k' + 1 == |a| || (|a| < |b| && a[k' + 1..] == b[k' + 2..|a| + 1]))
    {
    }
  }

  /** Every prefix of a list is a partial of it. */
  lemma PrefixIsPartial(b: seq<Symbol>, n: nat)
    requires n <= |b|
    ensures PartialOf(b[..n], b)
  {
    assert b[..n] == b[..n][..n];
  }

  /** A list with one symbol removed that differs from the one following it, away from the
      front of a two-symbol list, is a partial of it. */
  lemma RemovalIsPartial(b: seq<Symbol>, k: nat)
    requires k < |b| && (k + 1 < |b| ==> b[k] != b[k + 1])
    requires |b| != 2 || k != 0
    ensures PartialOf(b[..k] + b[k + 1..], b)
  {
    var a := b[..k] + b[k + 1..];
    if k + 1 == |b| {
      assert a == b[..|a|];
    } else {
      assert a[..k] == b[..k];
      assert a[k] == b[k + 1];
      if k + 1 < |a| {
        assert a[k + 1..] == b[k + 2..|a| + 1];
      }
    }
  }

  /** The alignment accepts symbol lists that are not removals: at the position of the miss
      the symbol itself is never compared. */
  lemma PartialAcceptsSubstitution()
    ensures PartialOf(["x", "q"], ["x", "z", "y"])
  {
    var a: seq<Symbol> := ["x", "q"];
    var b: seq<Symbol> := ["x", "z", "y"];
    assert a[..1] == b[..1] && a[1] != b[1];
  }

  /** The loop examples: after the head `0` come missing steps to `1`, `2`, `3` and `1` again,
      which loops; with the step to `3` accepted it no longer does. */
  lemma LoopExamples()
    ensures LoopsIn([Step(1, false), Step(3, false), Step(2, false), Step(1, false), Step(0, true)])
    ensures !LoopsIn([Step(1, false), Step(3, true), Step(2, false), Step(1, false), Step(0, true)])
  {
    var t1 := [Step(1, false), Step(3, false), Step(2, false), Step(1, false), Step(0, true)];
    assert RunOf([Step(0, true)]) == [0];
    assert RunOf([Step(1, false), Step(0, true)]) == [1, 0];
    assert RunOf([Step(2, false), Step(1, false), Step(0, true)]) == [2, 1, 0];
    assert t1[1..] == [Step(3, false), Step(2, false), Step(1, false), Step(0, true)];
    assert RunOf(t1[1..]) == [3, 2, 1, 0];
    var t2 := [Step(1, false), Step(3, true), Step(2, false), Step(1, false), Step(0, true)];
    assert RunOf(t2[1..]) == [3];
  }
}
