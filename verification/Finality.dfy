/** The finality gadget: a block is final once more than two thirds of the validators attest it. */
module Finality {
  import opened Primitives
  import opened Ascent

  datatype Vote = Vote(voter: Address, hash: H256, number: nat)

  datatype Tracker = Tracker(
    votes: map<H256, set<Address>>, numbers: map<H256, nat>, finalizedNumber: nat, finalizedHash: H256, count: nat)

  function Threshold(count: nat): nat {
    if count == 0 then 0 else count * 2 / 3 + 1
  }

  function New(count: nat): Tracker {
    Tracker(map[], map[], 0, ZERO_HASH, count)
  }

  function VotesFor(t: Tracker, h: H256): set<Address> {
    if h in t.votes then t.votes[h] else {}
  }

  /** Every hash numbered at or below the finalized height is dropped. */
  function Stale(t: Tracker): set<H256> {
    set h | h in t.numbers && t.numbers[h] <= t.finalizedNumber
  }

  function CleanedUp(t: Tracker): Tracker {
    Tracker(t.votes - Stale(t), t.numbers - Stale(t), t.finalizedNumber, t.finalizedHash, t.count)
  }

  function Submitted(t: Tracker, v: Vote): (Tracker, bool) {
    if v.number <= t.finalizedNumber then (t, false)
    else
      var voters := VotesFor(t, v.hash) + {v.voter};
      var votes, numbers := t.votes[v.hash := voters], t.numbers[v.hash := v.number];
      if |voters| >= Threshold(t.count)
      then (CleanedUp(Tracker(votes, numbers, v.number, v.hash, t.count)), true)
      else (Tracker(votes, numbers, t.finalizedNumber, t.finalizedHash, t.count), false)
  }

  class FinalityTracker {
    var votes: map<H256, set<Address>>
    var numbers: map<H256, nat>
    var finalizedNumber: nat
    var finalizedHash: H256
    var count: nat

    constructor (count: nat)
      ensures View() == New(count)
    {
      votes, numbers, finalizedNumber, finalizedHash := map[], map[], 0, ZERO_HASH;
      this.count := count;
    }

    ghost function View(): Tracker
      reads this
    {
      Tracker(votes, numbers, finalizedNumber, finalizedHash, count)
    }

    method SetValidatorCount(count: nat)
      modifies this`count
      ensures View() == old(View()).(count := count)
    {
      this.count := count;
    }

    method SubmitVote(v: Vote) returns (final: bool)
      modifies this
      ensures (View(), final) == Submitted(old(View()), v)
    {
      if v.number <= finalizedNumber {
        return false;
      }
      numbers := numbers[v.hash := v.number];
      var voters := (if v.hash in votes then votes[v.hash] else {}) + {v.voter};
      votes := votes[v.hash := voters];
      if |voters| >= Threshold(count) {
        finalizedNumber := v.number;
        finalizedHash := v.hash;
        Cleanup();
        return true;
      }
      return false;
    }

    method Cleanup()
      modifies this`votes, this`numbers
      ensures View() == CleanedUp(old(View()))
    {
      ghost var before := View();
      var rest := set h | h in numbers && numbers[h] <= finalizedNumber;
      ghost var gone: set<H256> := {};
      while rest != {}
        invariant gone + rest == Stale(before)
        invariant votes == before.votes - gone && numbers == before.numbers - gone
        decreases rest
      {
        var h :| h in rest;
        votes := votes - {h};
        numbers := numbers - {h};
        gone := gone + {h};
        rest := rest - {h};
      }
      assert gone == Stale(before);
    }
  }

  // ----- runs

  function Run(t: Tracker, vs: seq<Vote>): Tracker {
    if vs == [] then t else Submitted(Run(t, vs[..|vs| - 1]), vs[|vs| - 1]).0
  }

  /** Everyone who voted for `h`. */
  ghost function Backers(vs: seq<Vote>, h: H256): set<Address> {
    set i | 0 <= i < |vs| && vs[i].hash == h :: vs[i].voter
  }

  lemma BackersAppend(vs: seq<Vote>, v: Vote, h: H256)
    ensures Backers(vs + [v], h) == Backers(vs, h) + if v.hash == h then {v.voter} else {}
  {
    var more := vs + [v];
    forall x | x in Backers(vs, h) ensures x in Backers(more, h) {
      var i :| 0 <= i < |vs| && vs[i].hash == h && vs[i].voter == x;
      assert more[i].hash == h && more[i].voter == x;
    }
    if v.hash == h {
      assert more[|vs|].voter in Backers(more, h);
    }
  }

  /** Every vote for a block names that block's height. */
  ghost predicate Consistent(vs: seq<Vote>, heights: H256 -> nat) {
    forall i :: 0 <= i < |vs| ==> vs[i].number == heights(vs[i].hash)
  }

  ghost predicate Quorum(vs: seq<Vote>, h: H256, count: nat) {
    Backers(vs, h) != {} && |Backers(vs, h)| >= Threshold(count)
  }

  /** Above the finalized height the tracker holds every vote for `h`, short of a quorum; at or
      below it, none. */
  ghost predicate FaithfulAt(t: Tracker, vs: seq<Vote>, heights: H256 -> nat, count: nat, h: H256) {
    && (h in t.votes <==> h in t.numbers)
    && (h in t.numbers ==> t.numbers[h] == heights(h) > t.finalizedNumber)
    && (t.finalizedNumber < heights(h) ==> VotesFor(t, h) == Backers(vs, h) && !Quorum(vs, h, count))
  }

  ghost predicate Faithful(t: Tracker, vs: seq<Vote>, heights: H256 -> nat, count: nat) {
    && t.count == count
    && (forall h :: FaithfulAt(t, vs, heights, count, h))
    && (t.finalizedNumber > 0 ==> heights(t.finalizedHash) == t.finalizedNumber && Quorum(vs, t.finalizedHash, count))
  }

  lemma QuorumStays(vs: seq<Vote>, v: Vote, h: H256, count: nat)
    requires Quorum(vs, h, count)
    ensures Quorum(vs + [v], h, count)
  {
    BackersAppend(vs, v, h);
    SubsetSize(Backers(vs, h), Backers(vs + [v], h));
  }

  lemma CountedAt(t: Tracker, vs: seq<Vote>, v: Vote, heights: H256 -> nat, count: nat, h: H256)
    requires t.count == count && v.number == heights(v.hash) && t.finalizedNumber < v.number
    requires FaithfulAt(t, vs, heights, count, h) && !Submitted(t, v).1
    ensures FaithfulAt(Submitted(t, v).0, vs + [v], heights, count, h)
  {
    BackersAppend(vs, v, h);
  }

  lemma FinalizedAt(t: Tracker, vs: seq<Vote>, v: Vote, heights: H256 -> nat, count: nat, h: H256)
    requires t.count == count && v.number == heights(v.hash)
    requires FaithfulAt(t, vs, heights, count, h) && Submitted(t, v).1
    ensures FaithfulAt(Submitted(t, v).0, vs + [v], heights, count, h)
  {
    BackersAppend(vs, v, h);
  }

  lemma StepAt(t: Tracker, vs: seq<Vote>, v: Vote, heights: H256 -> nat, count: nat, h: H256)
    requires t.count == count && v.number == heights(v.hash)
    requires FaithfulAt(t, vs, heights, count, h)
    ensures FaithfulAt(Submitted(t, v).0, vs + [v], heights, count, h)
  {
    if v.number <= t.finalizedNumber {
      BackersAppend(vs, v, h);
    } else if Submitted(t, v).1 {
      FinalizedAt(t, vs, v, heights, count, h);
    } else {
      CountedAt(t, vs, v, heights, count, h);
    }
  }

  lemma StepFaithful(t: Tracker, vs: seq<Vote>, v: Vote, heights: H256 -> nat, count: nat)
    requires Faithful(t, vs, heights, count) && v.number == heights(v.hash)
    ensures Faithful(Submitted(t, v).0, vs + [v], heights, count)
  {
    forall h ensures FaithfulAt(Submitted(t, v).0, vs + [v], heights, count, h) {
      StepAt(t, vs, v, heights, count, h);
    }
    assert FaithfulAt(t, vs, heights, count, v.hash);
    BackersAppend(vs, v, v.hash);
    if Quorum(vs, t.finalizedHash, count) {
      QuorumStays(vs, v, t.finalizedHash, count);
    }
  }

  lemma {:induction false} RunFaithful(vs: seq<Vote>, heights: H256 -> nat, count: nat)
    requires Consistent(vs, heights)
    ensures Faithful(Run(New(count), vs), vs, heights, count)
    decreases |vs|
  {
    if vs == [] {
      assert forall h :: Backers(vs, h) == {};
    } else {
      var init, v := vs[..|vs| - 1], vs[|vs| - 1];
      assert vs == init + [v];
      RunFaithful(init, heights, count);
      StepFaithful(Run(New(count), init), init, v, heights, count);
    }
  }

  /** The finalized height is the height of the highest block with a quorum of the votes
      submitted (0 if there is none), in whatever order they came. */
  lemma FinalizedIsHighestQuorum(vs: seq<Vote>, heights: H256 -> nat, count: nat)
    requires Consistent(vs, heights)
    ensures var t := Run(New(count), vs);
            && (forall h :: Quorum(vs, h, count) ==> heights(h) <= t.finalizedNumber)
            && (t.finalizedNumber == 0 || (Quorum(vs, t.finalizedHash, count) && heights(t.finalizedHash) == t.finalizedNumber))
  {
    RunFaithful(vs, heights, count);
    var t := Run(New(count), vs);
    forall h | Quorum(vs, h, count) ensures heights(h) <= t.finalizedNumber {
      assert FaithfulAt(t, vs, heights, count, h);
    }
  }

  // ----- safety

  lemma {:induction false} UnionBound<T>(a: set<T>, b: set<T>, s: set<T>)
    requires a <= s && b <= s
    ensures |a| + |b| <= |s| + |a * b|
  {
    assert a == (a - b) + a * b;
    assert (a - b) + b <= s;
    assert s == ((a - b) + b) + (s - ((a - b) + b));
  }

  /** Votes come from the validators `vals` only. */
  ghost predicate VotedBy(vs: seq<Vote>, vals: set<Address>) {
    forall i :: 0 <= i < |vs| ==> vs[i].voter in vals
  }

  /** Any two blocks with a quorum of the same validators, each as one node saw the votes, have
      more than a third of the validators behind both. */
  lemma QuorumsIntersect(vs: seq<Vote>, ws: seq<Vote>, h: H256, k: H256, vals: set<Address>)
    requires VotedBy(vs, vals) && VotedBy(ws, vals)
    requires Quorum(vs, h, |vals|) && Quorum(ws, k, |vals|)
    ensures 3 * |Backers(vs, h) * Backers(ws, k)| > |vals|
  {
    UnionBound(Backers(vs, h), Backers(ws, k), vals);
  }

  /** Whatever heights the votes name, what the tracker counts for a block is votes for it, and the
      last finalized block has a quorum. */
  ghost predicate Certified(t: Tracker, vs: seq<Vote>, count: nat) {
    && t.count == count && (forall h :: VotesFor(t, h) <= Backers(vs, h))
    && (t.finalizedNumber > 0 ==> Quorum(vs, t.finalizedHash, count))
  }

  lemma StepCertified(t: Tracker, vs: seq<Vote>, v: Vote, count: nat)
    requires Certified(t, vs, count)
    ensures Certified(Submitted(t, v).0, vs + [v], count)
  {
    var t' := Submitted(t, v).0;
    forall h ensures VotesFor(t', h) <= Backers(vs + [v], h) {
      BackersAppend(vs, v, h);
    }
    if Submitted(t, v).1 {
      BackersAppend(vs, v, v.hash);
      SubsetSize(VotesFor(t, v.hash) + {v.voter}, Backers(vs + [v], v.hash));
    } else if t.finalizedNumber > 0 {
      QuorumStays(vs, v, t.finalizedHash, count);
    }
  }

  lemma {:induction false} RunCertified(vs: seq<Vote>, count: nat)
    ensures Certified(Run(New(count), vs), vs, count)
    decreases |vs|
  {
    if vs != [] {
      var init, v := vs[..|vs| - 1], vs[|vs| - 1];
      assert vs == init + [v];
      RunCertified(init, count);
      StepCertified(Run(New(count), init), init, v, count);
    }
  }

  /** Accountable safety: whatever two nodes fed by the same validators have finalized last, more
      than a third of the validators voted for both; conflicting blocks need that many to vote
      for both sides. */
  lemma FinalizedShareThird(vs: seq<Vote>, ws: seq<Vote>, vals: set<Address>)
    requires VotedBy(vs, vals) && VotedBy(ws, vals)
    requires 0 < Run(New(|vals|), vs).finalizedNumber && 0 < Run(New(|vals|), ws).finalizedNumber
    ensures var t, u := Run(New(|vals|), vs), Run(New(|vals|), ws);
            3 * |Backers(vs, t.finalizedHash) * Backers(ws, u.finalizedHash)| > |vals|
  {
    RunCertified(vs, |vals|);
    RunCertified(ws, |vals|);
    var t, u := Run(New(|vals|), vs), Run(New(|vals|), ws);
    QuorumsIntersect(vs, ws, t.finalizedHash, u.finalizedHash, vals);
  }

  // ----- who votes

  /** A vote from each of `voters` for block `h` at height 1. */
  lemma {:induction false} VotesOf(voters: set<Address>, h: H256) returns (vs: seq<Vote>)
    ensures VotedBy(vs, voters) && Backers(vs, h) == voters && Consistent(vs, _ => 1)
    ensures forall k :: k != h ==> Backers(vs, k) == {}
    decreases voters
  {
    if voters == {} {
      vs := [];
    } else {
      var v :| v in voters;
      var init := VotesOf(voters - {v}, h);
      vs := init + [Vote(v, h, 1)];
      forall k ensures Backers(vs, k) == Backers(init, k) + if k == h then {v} else {} {
        BackersAppend(init, Vote(v, h, 1), k);
      }
    }
  }

  lemma {:induction false} SubsetOfSize<T>(s: set<T>, x: T, n: nat) returns (w: set<T>)
    requires x in s && 1 <= n <= |s|
    ensures w <= s && x in w && |w| == n
    decreases |s|
  {
    if |s| == n {
      w := s;
    } else {
      assert |s - {x}| == |s| - 1;
      var y :| y in s - {x};
      w := SubsetOfSize(s - {y}, x, n);
    }
  }

  lemma BackersAmong(vs: seq<Vote>, h: H256, s: set<Address>)
    requires VotedBy(vs, s)
    ensures Backers(vs, h) <= s
  {
  }

  /** Whoever votes from `s`, a finalized block has its threshold of validators behind it. */
  ghost predicate FinalMeansValidators(s: set<Address>, vals: set<Address>) {
    forall vs: seq<Vote> {:trigger Run(New(|vals|), vs)} ::
      VotedBy(vs, s) && Run(New(|vals|), vs).finalizedNumber > 0 ==>
        |Backers(vs, Run(New(|vals|), vs).finalizedHash) * vals| >= Threshold(|vals|)
  }

  lemma OutsiderCompletesQuorum(s: set<Address>, vals: set<Address>, o: Address)
    requires vals != {} && o in s && o !in vals && Threshold(|vals|) <= |s|
    ensures !FinalMeansValidators(s, vals)
  {
    var n, h := |vals|, 1;
    var w := SubsetOfSize(s, o, Threshold(n));
    var vs := VotesOf(w, h);
    FinalizedIsHighestQuorum(vs, _ => 1, n);
    var t := Run(New(n), vs);
    assert Quorum(vs, h, n);
    assert t.finalizedHash == h && t.finalizedNumber == 1;
    SubsetSize(w * vals, w - {o});
    assert VotedBy(vs, s);
  }

  lemma InsidersFinalize(s: set<Address>, vals: set<Address>, vs: seq<Vote>)
    requires VotedBy(vs, s) && Run(New(|vals|), vs).finalizedNumber > 0
    requires s <= vals || |s| < Threshold(|vals|)
    ensures |Backers(vs, Run(New(|vals|), vs).finalizedHash) * vals| >= Threshold(|vals|)
  {
    RunCertified(vs, |vals|);
    var b := Backers(vs, Run(New(|vals|), vs).finalizedHash);
    BackersAmong(vs, Run(New(|vals|), vs).finalizedHash, s);
    SubsetSize(b, s);
    assert b * vals == b;
  }

  /** The tracker does not ask who votes: a finalized block has two thirds of the validators behind
      it, in every run, exactly when only validators vote or too few addresses do to finalize
      anything. */
  lemma FinalMeansValidatorsIff(s: set<Address>, vals: set<Address>)
    requires vals != {}
    ensures FinalMeansValidators(s, vals) <==> s <= vals || |s| < Threshold(|vals|)
  {
    if s <= vals || |s| < Threshold(|vals|) {
      forall vs: seq<Vote> | VotedBy(vs, s) && Run(New(|vals|), vs).finalizedNumber > 0
        ensures |Backers(vs, Run(New(|vals|), vs).finalizedHash) * vals| >= Threshold(|vals|)
      {
        InsidersFinalize(s, vals, vs);
      }
    } else {
      var o :| o in s && o !in vals;
      OutsiderCompletesQuorum(s, vals, o);
    }
  }

  // ----- which height

  /** In every run the finalized block and height are those of the vote that completed its quorum. */
  lemma {:induction false} NamedByCompletingVote(vs: seq<Vote>, count: nat) returns (i: nat)
    requires Run(New(count), vs).finalizedNumber > 0
    ensures i < |vs| && Submitted(Run(New(count), vs[..i]), vs[i]).1
    ensures vs[i].hash == Run(New(count), vs).finalizedHash && vs[i].number == Run(New(count), vs).finalizedNumber
    ensures Quorum(vs[..i + 1], vs[i].hash, count)
    decreases |vs|
  {
    var init, v := vs[..|vs| - 1], vs[|vs| - 1];
    if Submitted(Run(New(count), init), v).1 {
      RunCertified(vs, count);
      assert vs[..|vs|] == vs;
      i := |vs| - 1;
    } else {
      i := NamedByCompletingVote(init, count);
      assert vs[..i] == init[..i] && vs[..i + 1] == init[..i + 1];
    }
  }

  /** Votes from distinct voters for one block, each naming its own height. */
  ghost predicate Ballot(vs: seq<Vote>, h: H256) {
    (forall i :: 0 <= i < |vs| ==> vs[i].hash == h && vs[i].number > 0)
    && forall i, j :: 0 <= i < j < |vs| ==> vs[i].voter != vs[j].voter
  }

  lemma {:induction false} BallotCounts(vs: seq<Vote>, h: H256)
    requires Ballot(vs, h)
    ensures |Backers(vs, h)| == |vs|
    decreases |vs|
  {
    if vs != [] {
      var init, v := vs[..|vs| - 1], vs[|vs| - 1];
      BallotCounts(init, h);
      assert vs == init + [v];
      BackersAppend(init, v, h);
      assert v.voter !in Backers(init, h);
    }
  }

  lemma {:induction false} ShortBallot(vs: seq<Vote>, h: H256, count: nat)
    requires Ballot(vs, h) && |vs| < Threshold(count)
    ensures Run(New(count), vs).finalizedNumber == 0 && Run(New(count), vs).count == count
    ensures VotesFor(Run(New(count), vs), h) == Backers(vs, h)
    decreases |vs|
  {
    if vs != [] {
      var init, v := vs[..|vs| - 1], vs[|vs| - 1];
      assert vs == init + [v];
      ShortBallot(init, h, count);
      BackersAppend(init, v, h);
      BallotCounts(vs, h);
    }
  }

  /** Votes that disagree about a block's height count together, whatever the number of
      validators: the one that completes the quorum decides. */
  lemma HeightsMix(vs: seq<Vote>, h: H256, count: nat)
    requires Ballot(vs, h) && 0 < count && |vs| == Threshold(count)
    ensures Run(New(count), vs).finalizedNumber == vs[|vs| - 1].number
  {
    var init, v := vs[..|vs| - 1], vs[|vs| - 1];
    assert vs == init + [v];
    ShortBallot(init, h, count);
    BackersAppend(init, v, h);
    BallotCounts(vs, h);
  }

  /** Whatever is submitted, the finalized height never falls, rises exactly when a vote reports
      finality, and then to that vote's block. */
  lemma StepRises(t: Tracker, v: Vote)
    ensures var (t', final) := Submitted(t, v);
            if final then t.finalizedNumber < t'.finalizedNumber == v.number && t'.finalizedHash == v.hash
                          && forall h :: h in t'.numbers ==> t'.numbers[h] > v.number
            else t'.finalizedNumber == t.finalizedNumber && t'.finalizedHash == t.finalizedHash
  {
  }
}
