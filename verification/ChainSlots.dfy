/** Who may produce which block: the active validators through every run of imports, and what the
    epoch and slot of a stored header say. */
module ChainSlots {
  import opened Primitives
  import opened Nonlinear
  import opened Chain
  import opened ChainTheorems
  import opened Election

  /** Produced by the leader of its slot among `vs`, and labelled with its epoch and slot. */
  ghost predicate Led(vs: Validators, epochLength: Length, b: Header) {
    && vs != [] && b.validator == vs[SlotOf(b.number, epochLength) % |vs|].address
    && Labelled(epochLength, b)
  }

  ghost predicate Labelled(epochLength: Length, b: Header) {
    b.epoch == EpochOf(b.number, epochLength) && b.slot == SlotOf(b.number, epochLength)
  }

  ghost predicate Follows(hash: Header -> H256, b: Header, parent: Header) {
    b.number == parent.number + 1 && b.parent == hash(parent) && parent.timestamp < b.timestamp
  }

  lemma FaultlessIff(hash: Header -> H256, epochLength: Length, active: ValidatorSet, b: Header, parent: Header)
    ensures HeaderFault(hash, epochLength, active, b, parent).None?
       <==> Follows(hash, b, parent) && Led(active.validators, epochLength, b)
  {
  }

  // ----- the active set through a run

  /** No stored header is of a later epoch than the active set, all are labelled rightly, and those
      of its own epoch were each produced by the set's leader for the slot. */
  ghost predicate Scheduled(c: ChainState) {
    forall h {:trigger c.headers[h]} :: h in c.headers ==> Placed(c.epochLength, c.active, c.headers[h])
  }

  ghost predicate Placed(epochLength: Length, active: ValidatorSet, b: Header) {
    && Labelled(epochLength, b) && b.epoch <= active.epoch
    && (b.number > 0 && b.epoch == active.epoch ==> Led(active.validators, epochLength, b))
  }

  lemma RotationKeeps(c: ChainState, b: Header, ctx: Context)
    requires Scheduled(c)
    ensures c.active.epoch <= Rotated(c, b, ctx).epoch && EpochOf(b.number, c.epochLength) <= Rotated(c, b, ctx).epoch
    ensures Scheduled(c.(active := Rotated(c, b, ctx)))
  {
    forall h | h in c.headers ensures Placed(c.epochLength, Rotated(c, b, ctx), c.headers[h]) {
      assert Placed(c.epochLength, c.active, c.headers[h]);
    }
  }

  lemma StepScheduled(hash: Header -> H256, c: ChainState, op: Op)
    requires Scheduled(c)
    ensures Scheduled(Step(hash, c, op)) && c.active.epoch <= Step(hash, c, op).active.epoch
    ensures Step(hash, c, op).epochLength == c.epochLength
  {
    if op.ImportOp? {
      var b, ctx := op.block, op.ctx;
      RotationKeeps(c, b, ctx);
      if Refusal(hash, c, b, ctx).None? {
        FaultlessIff(hash, c.epochLength, Rotated(c, b, ctx), b, c.headers[b.parent]);
        assert Placed(c.epochLength, Rotated(c, b, ctx), b);
        assert SetAfter(hash, c, b, ctx) == Rotated(c, b, ctx);
        assert Step(hash, c, op).headers == c.headers[hash(b) := b];
      }
    }
  }

  /** In every run the epoch of the active set never falls, every stored header gives the epoch and
      slot of its height, none is of a later epoch than the active set, and those of its own epoch
      were each produced by the leader of their slot. */
  lemma {:induction false} RunScheduled(hash: Header -> H256, c: ChainState, ops: seq<Op>)
    requires Scheduled(c)
    ensures Scheduled(Run(hash, c, ops)) && c.active.epoch <= Run(hash, c, ops).active.epoch
    ensures Run(hash, c, ops).epochLength == c.epochLength
    decreases |ops|
  {
    if ops != [] {
      RunScheduled(hash, c, ops[..|ops| - 1]);
      StepScheduled(hash, Run(hash, c, ops[..|ops| - 1]), ops[|ops| - 1]);
    }
  }

  lemma StartScheduled(hash: Header -> H256, genesis: Header, epochLength: Length, elected: Validators, finalized: nat)
    requires genesis.number == 0 && genesis.epoch == 0 && genesis.slot == 0
    ensures Scheduled(Start(hash, genesis, epochLength, elected, finalized))
  {
    DivUnique(0, epochLength, 0);
  }

  // ----- turns on a branch

  /** The blocks at heights `from .. from + k` of the branch of `h`. */
  ghost function Stretch(hash: Header -> H256, hs: Headers, h: H256, from: nat, k: nat): (bs: seq<Header>)
    requires Chained(hash, hs) && h in hs && from + k <= hs[h].number + 1
  {
    if k == 0 then [] else Stretch(hash, hs, h, from, k - 1) + [hs[Ancestor(hash, hs, h, from + k - 1)]]
  }

  /** How many of the blocks are by `v`. */
  ghost function CountBy(bs: seq<Header>, v: Address): nat {
    if bs == [] then 0 else CountBy(bs[..|bs| - 1], v) + if bs[|bs| - 1].validator == v then 1 else 0
  }

  /** Blocks at consecutive heights of the active set's epoch. */
  ghost predicate InTurn(epochLength: Length, active: ValidatorSet, from: nat, bs: seq<Header>) {
    forall i :: 0 <= i < |bs| ==> bs[i].number == from + i && Placed(epochLength, active, bs[i])
  }

  lemma OneMoreInTurn(epochLength: Length, active: ValidatorSet, from: nat, bs: seq<Header>, b: Header)
    requires InTurn(epochLength, active, from, bs) && b.number == from + |bs| && Placed(epochLength, active, b)
    ensures InTurn(epochLength, active, from, bs + [b])
  {
  }

  lemma PlacedAt(hash: Header -> H256, c: ChainState, h: H256, n: nat)
    requires Chained(hash, c.headers) && Scheduled(c) && h in c.headers && n <= c.headers[h].number
    ensures Placed(c.epochLength, c.active, c.headers[Ancestor(hash, c.headers, h, n)])
  {
  }

  lemma {:induction false} StretchPlaced(hash: Header -> H256, c: ChainState, h: H256, from: nat, k: nat)
    requires Chained(hash, c.headers) && Scheduled(c) && h in c.headers && from + k <= c.headers[h].number + 1
    ensures var bs := Stretch(hash, c.headers, h, from, k); |bs| == k && InTurn(c.epochLength, c.active, from, bs)
    decreases k
  {
    if k > 0 {
      StretchPlaced(hash, c, h, from, k - 1);
      PlacedAt(hash, c, h, from + k - 1);
      var bs, b := Stretch(hash, c.headers, h, from, k - 1), c.headers[Ancestor(hash, c.headers, h, from + k - 1)];
      OneMoreInTurn(c.epochLength, c.active, from, bs, b);
    }
  }

  lemma PlacedProducer(epochLength: Length, active: ValidatorSet, start: nat, b: Header, i: nat, seat: nat)
    requires Placed(epochLength, active, b) && start == active.epoch * epochLength && 0 < b.number == start + i && i < epochLength
    requires Distinct(active.validators) && seat < |active.validators|
    ensures b.validator == active.validators[seat].address
       <==> SlotLeader(active.validators, SlotOf(b.number, epochLength)) == Some(active.validators[seat])
  {
    PlaceInEpoch(epochLength, active.epoch, i);
    LeaderIsSeat(active.validators, SlotOf(b.number, epochLength), seat);
  }

  lemma {:induction false} CountsTurns(epochLength: Length, active: ValidatorSet, start: nat, i: nat, bs: seq<Header>, seat: nat)
    requires InTurn(epochLength, active, start + i, bs) && start == active.epoch * epochLength && 0 < start + i && i + |bs| <= epochLength
    requires Distinct(active.validators) && seat < |active.validators|
    ensures CountBy(bs, active.validators[seat].address) == Produced(active.validators, epochLength, start + i, |bs|, seat)
    decreases |bs|
  {
    if bs != [] {
      CountsTurns(epochLength, active, start, i, bs[..|bs| - 1], seat);
      PlacedProducer(epochLength, active, start, bs[|bs| - 1], i + |bs| - 1, seat);
    }
  }

  lemma {:induction false} ProducedSplits(vs: Validators, epochLength: Length, from: nat, i: nat, k: nat, seat: nat)
    requires seat < |vs|
    ensures Produced(vs, epochLength, from, i + k, seat)
            == Produced(vs, epochLength, from, i, seat) + Produced(vs, epochLength, from + i, k, seat)
    decreases k
  {
    if k > 0 {
      ProducedSplits(vs, epochLength, from, i, k - 1, seat);
    }
  }

  lemma TurnsFrom(vs: Validators, epochLength: Length, epoch: nat, start: nat, k: nat, seat: nat)
    requires Distinct(vs) && seat < |vs| && start == epoch * epochLength && k <= epochLength
    ensures Produced(vs, epochLength, start, k, seat) == SlotTurns(k, |vs|, seat)
  {
    FairTurns(vs, epochLength, epoch, k, seat);
  }

  lemma TurnsBetween(vs: Validators, epochLength: Length, epoch: nat, start: nat, i: nat, k: nat, seat: nat)
    requires Distinct(vs) && seat < |vs| && start == epoch * epochLength && i + k <= epochLength
    ensures Produced(vs, epochLength, start + i, k, seat) == SlotTurns(i + k, |vs|, seat) - SlotTurns(i, |vs|, seat)
  {
    ProducedSplits(vs, epochLength, start, i, k, seat);
    TurnsFrom(vs, epochLength, epoch, start, i, seat);
    TurnsFrom(vs, epochLength, epoch, start, i + k, seat);
  }

  /** On every stored branch, the validators of the current epoch have produced its blocks in turn:
      in any stretch of it, from place `i` on, each as many as its seat has had turns. Genesis,
      which is nobody's turn, is place 0 of epoch 0. */
  lemma FairBranch(hash: Header -> H256, c: ChainState, h: H256, start: nat, i: nat, k: nat, seat: nat)
    requires Chained(hash, c.headers) && Scheduled(c) && h in c.headers && start + i + k <= c.headers[h].number + 1
    requires start == c.active.epoch * c.epochLength && 0 < start + i && i + k <= c.epochLength
    requires Distinct(c.active.validators) && seat < |c.active.validators|
    ensures CountBy(Stretch(hash, c.headers, h, start + i, k), c.active.validators[seat].address)
            == SlotTurns(i + k, |c.active.validators|, seat) - SlotTurns(i, |c.active.validators|, seat)
  {
    StretchPlaced(hash, c, h, start + i, k);
    CountsTurns(c.epochLength, c.active, start, i, Stretch(hash, c.headers, h, start + i, k), seat);
    TurnsBetween(c.active.validators, c.epochLength, c.active.epoch, start, i, k, seat);
  }

  // ----- what epoch and slot tell

  ghost predicate SameKey(epochLength: Length, n: nat, m: nat) {
    EpochOf(n, epochLength) == EpochOf(m, epochLength) && SlotOf(n, epochLength) == SlotOf(m, epochLength)
  }

  lemma SameKeySameHeight(epochLength: Length, n: nat, m: nat)
    requires epochLength <= SLOTS && SameKey(epochLength, n, m)
    ensures n == m
  {
    DivBounds(n, epochLength);
    DivBounds(m, epochLength);
    EpochIsQuotient(n, epochLength);
    EpochIsQuotient(m, epochLength);
  }

  lemma EpochIsQuotient(n: nat, epochLength: Length)
    ensures EpochOf(n, epochLength) == n / epochLength
  {
    if n == 0 {
      DivUnique(0, epochLength, 0);
    }
  }

  /** Epoch and slot tell the heights apart, as the record of commitments takes for granted,
      exactly when an epoch has no more blocks than 32 bits can number. */
  lemma KeyIsHeightIff(epochLength: Length)
    ensures (forall n: nat, m: nat :: SameKey(epochLength, n, m) ==> n == m) <==> epochLength <= SLOTS
  {
    if epochLength <= SLOTS {
      forall n: nat, m: nat | SameKey(epochLength, n, m) ensures n == m {
        SameKeySameHeight(epochLength, n, m);
      }
    } else {
      PlaceInEpoch(epochLength, 0, 0);
      PlaceInEpoch(epochLength, 0, SLOTS);
      assert SameKey(epochLength, 0, SLOTS);
    }
  }

  lemma NextSlot(epochLength: Length, n: nat)
    requires EpochOf(n + 1, epochLength) == EpochOf(n, epochLength)
    ensures SlotOf(n + 1, epochLength) <= SlotOf(n, epochLength) + 1
  {
    EpochIsQuotient(n, epochLength);
    EpochIsQuotient(n + 1, epochLength);
    DivBounds(n, epochLength);
    DivBounds(n + 1, epochLength);
    assert (n + 1) % epochLength == n % epochLength + 1;
  }

  /** A block whose slot leaves a gap behind its parent's in the same epoch. */
  predicate SkipsSlots(b: Header, parent: Header) {
    b.epoch == parent.epoch && b.slot > parent.slot + 1
  }

  /** Every header gives the epoch and slot of its height. */
  ghost predicate AllLabelled(epochLength: Length, hs: Headers) {
    forall h {:trigger hs[h]} :: h in hs ==> Labelled(epochLength, hs[h])
  }

  /** No block among rightly labelled headers leaves a gap, so the count of missed slots that import
      keeps never grows: heights are consecutive and the slot is the height's. */
  lemma NoSlotMissed(hash: Header -> H256, hs: Headers, epochLength: Length, h: H256)
    requires Chained(hash, hs) && AllLabelled(epochLength, hs) && h in hs && hs[h].number > 0
    ensures hs[h].parent in hs && !SkipsSlots(hs[h], hs[hs[h].parent])
  {
    assert Sits(hash, hs, h);
    var b := hs[h];
    var p := hs[b.parent];
    if b.epoch == p.epoch {
      NextSlot(epochLength, p.number);
    }
  }

  // ----- refused imports

  /** The header is wrong, and of a later epoch than the active set. */
  ghost predicate WrongAndLater(hash: Header -> H256, c: ChainState, b: Header, ctx: Context) {
    && EarlyRefusal(hash, c, b, ctx).None? && c.active.epoch < EpochOf(b.number, c.epochLength)
    && HeaderFault(hash, c.epochLength, ValidatorSet(EpochOf(b.number, c.epochLength), ctx.elected), b, c.headers[b.parent]).Some?
  }

  /** A refused import leaves the chain as it was, except that a wrong header of a later epoch has
      already ended the current one. */
  lemma RefusedKeepsIff(hash: Header -> H256, c: ChainState, b: Header, ctx: Context)
    requires Refusal(hash, c, b, ctx).Some?
    ensures Import(hash, c, b, ctx).0 == c <==> !WrongAndLater(hash, c, b, ctx)
    ensures WrongAndLater(hash, c, b, ctx) ==>
              Import(hash, c, b, ctx).0 == c.(active := ValidatorSet(EpochOf(b.number, c.epochLength), ctx.elected))
  {
  }

  /** On a chain of genesis alone, a block on it that claims the first height of epoch 2 is refused,
      and leaves the active set at epoch 2. */
  lemma RefusedEndsEpoch(hash: Header -> H256, g: Header, n: Length, vs: Validators, b: Header)
    requires g.number == 0 && b.parent == hash(g) && hash(b) != hash(g) && g.timestamp < b.timestamp && b.number == 2 * n
    ensures var c := Start(hash, g, n, vs, 0);
            && Refusal(hash, c, b, With(vs, b)) == Some(WrongBlockNumber)
            && c.active.epoch == 0 && Import(hash, c, b, With(vs, b)).0.active.epoch == 2
  {
    PlaceInEpoch(n, 2, 0);
  }

  /** From then on blocks of the epochs up to that one are checked against the set elected then:
      the active set changes only for a yet later epoch. */
  lemma SetChangesLater(hash: Header -> H256, c: ChainState, b: Header, ctx: Context)
    requires EpochOf(b.number, c.epochLength) <= c.active.epoch
    ensures Import(hash, c, b, ctx).0.active == c.active
    ensures Refusal(hash, c, b, ctx).None? ==> Led(c.active.validators, c.epochLength, b)
  {
  }
}
