/** When the head's branch can leave the finalized block, and when it never can. */
module ChainFinality {
  import opened Primitives
  import opened Chain
  import opened ChainTheorems
  import Election
  import Nonlinear

  /** Every header at or above height `f` descends from `x`. */
  ghost predicate AllFrom(hash: Header -> H256, hs: Headers, f: nat, x: H256)
    requires Chained(hash, hs)
  {
    forall h :: h in hs && f <= hs[h].number ==> Ancestor(hash, hs, h, f) == x
  }

  /** Every stored header at or above the finalized height descends from the block numbered there. */
  ghost predicate Rooted(hash: Header -> H256, c: ChainState, g: H256)
    requires Inv(hash, c, g)
  {
    c.finalized in c.canonical && AllFrom(hash, c.headers, c.finalized, c.canonical[c.finalized])
  }

  /** The head's branch runs through the finalized block. */
  ghost predicate HeadOnFinalized(hash: Header -> H256, c: ChainState, g: H256)
    requires Inv(hash, c, g) && c.finalized in c.canonical
  {
    Ancestor(hash, c.headers, c.head.value, c.finalized) == c.canonical[c.finalized]
  }

  lemma ChildFrom(hash: Header -> H256, hs: Headers, b: Header, f: nat, x: H256)
    requires Chained(hash, hs) && Chained(hash, hs[hash(b) := b]) && AllFrom(hash, hs, f, x)
    requires hash(b) !in hs && OnParent(hs, b) && f <= hs[b.parent].number
    ensures AllFrom(hash, hs[hash(b) := b], f, x)
  {
    var more := hs[hash(b) := b];
    forall h | h in more && f <= more[h].number ensures Ancestor(hash, more, h, f) == x {
      if h == hash(b) {
        ChildAncestor(hash, hs, b, f);
      } else {
        AncestorIn(hash, hs, more, h, f);
      }
    }
  }

  ghost predicate NoFinalize(ops: seq<Op>) {
    forall i :: 0 <= i < |ops| ==> !ops[i].FinalizeOp?
  }

  /** Rooted, with `x` the block finalized at height `f`. */
  ghost predicate RootedAt(hash: Header -> H256, c: ChainState, g: H256, f: nat, x: H256) {
    Inv(hash, c, g) && Rooted(hash, c, g) && c.finalized == f && c.canonical[f] == x
  }

  lemma StepKeepsRooted(hash: Header -> H256, c: ChainState, op: Op, g: H256, f: nat, x: H256)
    requires RootedAt(hash, c, g, f, x) && !op.FinalizeOp?
    ensures RootedAt(hash, Step(hash, c, op), g, f, x)
  {
    StepFacts(hash, c, op, g);
    if op.ImportOp? && Refusal(hash, c, op.block, op.ctx).None? {
      AcceptedIsAdmissible(hash, c, op.block, op.ctx);
      ChildFrom(hash, c.headers, op.block, f, x);
    }
  }

  /** If, when a height is finalized, every stored header at or above it descends from the block
      numbered there, then no run of imports ever moves the head off that block's branch. */
  lemma {:induction false} FinalityHolds(hash: Header -> H256, c: ChainState, ops: seq<Op>, g: H256, f: nat, x: H256)
    requires RootedAt(hash, c, g, f, x) && NoFinalize(ops)
    ensures RootedAt(hash, Run(hash, c, ops), g, f, x)
    ensures Ancestor(hash, Run(hash, c, ops).headers, Run(hash, c, ops).head.value, f) == x
    decreases |ops|
  {
    if ops != [] {
      var init, op := ops[..|ops| - 1], ops[|ops| - 1];
      FinalityHolds(hash, c, init, g, f, x);
      StepKeepsRooted(hash, Run(hash, c, init), op, g, f, x);
    }
  }

  /** In general one import keeps the head on the finalized block's branch exactly when it does
      not move the head, or the new block's parent is on that branch. The guard of the import
      compares heights only. */
  lemma ImportKeepsFinalizedIff(hash: Header -> H256, c: ChainState, b: Header, g: H256)
    requires Inv(hash, c, g) && c.finalized in c.canonical && HeadOnFinalized(hash, c, g)
    requires Admissible(hash, c, b)
    ensures Inv(hash, Stored(hash, c, b), g) && c.finalized <= c.headers[b.parent].number
    ensures HeadOnFinalized(hash, Stored(hash, c, b), g)
            <==> !Wins(hash, c, b) || Ancestor(hash, c.headers, b.parent, c.finalized) == c.canonical[c.finalized]
  {
    ImportKeeps(hash, c, b, g);
    if Wins(hash, c, b) {
      ChildAncestor(hash, c.headers, b, c.finalized);
    } else {
      AncestorIn(hash, c.headers, c.headers[hash(b) := b], c.head.value, c.finalized);
    }
  }

  // ----- and never holds otherwise

  /** The head's branch runs through `x` at height `f`. */
  ghost predicate HeadPasses(hash: Header -> H256, c: ChainState, f: nat, x: H256) {
    && Chained(hash, c.headers) && c.head.Some? && c.head.value in c.headers && f <= c.headers[c.head.value].number
    && Ancestor(hash, c.headers, c.head.value, f) == x
  }

  ghost predicate ImportsOnly(ops: seq<Op>) {
    forall i :: 0 <= i < |ops| ==> ops[i].ImportOp?
  }

  /** A block that may follow `h`. */
  function Child(c: ChainState, h: H256, body: nat): Header
    requires h in c.headers && c.active.validators != []
  {
    var p := c.headers[h];
    var n := p.number + 1;
    var slot := Election.SlotOf(n, c.epochLength);
    Header(n, h, p.timestamp + 1, c.active.validators[slot % |c.active.validators|].address,
           Election.EpochOf(n, c.epochLength), slot, p.transactionsRoot, p.stateRoot, body)
  }

  lemma ChildAccepted(hash: Header -> H256, c: ChainState, g: H256, h: H256, body: nat)
    requires Inv(hash, c, g) && h in c.headers && c.active.validators != [] && !Contradicted(c)
    requires c.finalized <= c.headers[h].number && hash(Child(c, h, body)) !in c.headers
    ensures var b := Child(c, h, body);
            && Refusal(hash, c, b, With(c.active.validators, b)).None?
            && SetAfter(hash, c, b, With(c.active.validators, b)).validators == c.active.validators
  {
    assert Sits(hash, c.headers, h);
  }

  lemma {:induction false} BeyondBodies(hs: Headers) returns (m: nat)
    ensures forall h :: h in hs ==> hs[h].body < m
    decreases |hs|
  {
    if hs == map[] {
      m := 0;
    } else {
      var h :| h in hs;
      var rest := hs - {h};
      m := BeyondBodies(rest);
      assert forall x :: x in hs ==> x == h || x in rest;
      m := if m <= hs[h].body then hs[h].body + 1 else m;
    }
  }

  lemma FreshHash(hash: Header -> H256, hs: Headers, b: Header)
    requires CollisionFree(hash) && Chained(hash, hs) && forall h :: h in hs ==> hs[h].body < b.body
    ensures hash(b) !in hs
  {
    forall x | x in hs ensures x != hash(b) {
      assert Sits(hash, hs, x);
    }
  }

  lemma FreshChild(hash: Header -> H256, c: ChainState, g: H256, h: H256) returns (b: Header)
    requires Buildable(hash, c, g, h) && c.active.validators != []
    ensures Refusal(hash, c, b, With(c.active.validators, b)).None? && b.parent == h
    ensures SetAfter(hash, c, b, With(c.active.validators, b)).validators == c.active.validators
  {
    var m := BeyondBodies(c.headers);
    b := Child(c, h, m);
    FreshHash(hash, c.headers, b);
    ChildAccepted(hash, c, g, h, m);
  }

  lemma {:induction false} RunCons(hash: Header -> H256, c: ChainState, op: Op, rest: seq<Op>)
    ensures Run(hash, c, [op] + rest) == Run(hash, Step(hash, c, op), rest)
    decreases |rest|
  {
    if rest == [] {
      assert [op] + rest == [op];
      assert Run(hash, c, [op]) == Step(hash, Run(hash, c, [op][..0]), op);
    } else {
      var init := rest[..|rest| - 1];
      RunCons(hash, c, op, init);
      assert ([op] + rest)[..|rest|] == [op] + init;
    }
  }

  /** Blocks may be built on `h`. */
  ghost predicate Buildable(hash: Header -> H256, c: ChainState, g: H256, h: H256) {
    && CollisionFree(hash) && Inv(hash, c, g) && !Contradicted(c)
    && h in c.headers && c.finalized <= c.headers[h].number
  }

  /** Blocks may be built on `h`, which stands on `x` at the finalized height `f`. */
  ghost predicate Rivals(hash: Header -> H256, c: ChainState, g: H256, h: H256, f: nat, x: H256) {
    && Buildable(hash, c, g, h) && c.active.validators != []
    && f == c.finalized && x == Ancestor(hash, c.headers, h, f)
  }

  /** How far the head is ahead. */
  ghost function Lead(c: ChainState, h: H256): int {
    if h in c.headers && c.head.Some? && c.head.value in c.headers
    then c.headers[c.head.value].number + 1 - c.headers[h].number
    else 0
  }

  lemma LeadPositive(hash: Header -> H256, c: ChainState, g: H256, h: H256)
    requires Inv(hash, c, g) && h in c.headers
    ensures 0 < Lead(c, h)
  {
    HeadIsHighest(c, h);
  }

  /** A block on `h` that is taken in wins, or leaves the head with a smaller lead over it. */
  lemma BuiltOn(hash: Header -> H256, c: ChainState, g: H256, h: H256, b: Header, f: nat, x: H256)
    requires Rivals(hash, c, g, h, f, x) && Admissible(hash, c, b) && b.parent == h
    ensures var c' := Stored(hash, c, b);
            HeadPasses(hash, c', f, x) || (Rivals(hash, c', g, hash(b), f, x) && Lead(c', hash(b)) == Lead(c, h) - 1)
  {
    ImportKeeps(hash, c, b, g);
    ChildAncestor(hash, c.headers, b, f);
  }

  lemma BuildOn(hash: Header -> H256, c: ChainState, g: H256, h: H256, f: nat, x: H256) returns (op: Op, h': H256)
    requires Rivals(hash, c, g, h, f, x)
    ensures op.ImportOp?
    ensures var c' := Step(hash, c, op);
            HeadPasses(hash, c', f, x) || (Rivals(hash, c', g, h', f, x) && Lead(c', h') == Lead(c, h) - 1)
  {
    var b := FreshChild(hash, c, g, h);
    var ctx := With(c.active.validators, b);
    op, h' := ImportOp(b, ctx), hash(b);
    AcceptedIsAdmissible(hash, c, b, ctx);
    BuiltOn(hash, Rotating(hash, c, b, ctx), g, h, b, f, x);
  }

  lemma {:induction false} OvertakesWith(hash: Header -> H256, c: ChainState, g: H256, h: H256, f: nat, x: H256) returns (ops: seq<Op>)
    requires Rivals(hash, c, g, h, f, x)
    ensures ImportsOnly(ops) && HeadPasses(hash, Run(hash, c, ops), f, x)
    decreases Lead(c, h)
  {
    var op, h' := BuildOn(hash, c, g, h, f, x);
    var c' := Step(hash, c, op);
    LeadPositive(hash, c, g, h);
    var rest: seq<Op> := [];
    if !HeadPasses(hash, c', f, x) {
      rest := OvertakesWith(hash, c', g, h', f, x);
    }
    ops := [op] + rest;
    RunCons(hash, c, op, rest);
  }

  /** A block on `h` that claims a height of a later epoch, and not the next one. */
  function Far(c: ChainState, h: H256, body: nat): Header
    requires h in c.headers
  {
    var p := c.headers[h];
    Header((c.active.epoch + p.number + 2) * c.epochLength, h, p.timestamp + 1, p.validator, 0, 0, p.transactionsRoot, p.stateRoot, body)
  }

  lemma FarAhead(n: Length, epoch: nat, number: nat)
    ensures Election.EpochOf((epoch + number + 2) * n, n) == epoch + number + 2
    ensures (epoch + number + 2) * n != number + 1
  {
    Election.PlaceInEpoch(n, epoch + number + 2, 0);
    Nonlinear.MulMono(1, n, epoch + number + 2);
  }

  /** Refused as it is, such a block makes the chain elect. */
  lemma FarElects(hash: Header -> H256, c: ChainState, b: Header, vs: Validators)
    requires hash(b) !in c.headers && b.parent in c.headers && c.finalized <= c.headers[b.parent].number
    requires !Contradicted(c) && c.headers[b.parent].timestamp < b.timestamp && b.number != c.headers[b.parent].number + 1
    requires c.active.epoch < Election.EpochOf(b.number, c.epochLength)
    ensures Step(hash, c, ImportOp(b, With(vs, b))) == c.(active := ValidatorSet(Election.EpochOf(b.number, c.epochLength), vs))
  {
  }

  lemma ElectsAnew(hash: Header -> H256, c: ChainState, g: H256, h: H256, vs: Validators) returns (op: Op, set': ValidatorSet)
    requires Buildable(hash, c, g, h)
    ensures op.ImportOp? && set'.validators == vs && Step(hash, c, op) == c.(active := set')
  {
    var m := BeyondBodies(c.headers);
    var b := Far(c, h, m);
    FreshHash(hash, c.headers, b);
    FarAhead(c.epochLength, c.active.epoch, c.headers[h].number);
    FarElects(hash, c, b, vs);
    op, set' := ImportOp(b, With(vs, b)), ValidatorSet(Election.EpochOf(b.number, c.epochLength), vs);
  }

  lemma SetAside(hash: Header -> H256, c: ChainState, g: H256, h: H256, set': ValidatorSet)
    requires Buildable(hash, c, g, h) && set'.validators != []
    ensures Rivals(hash, c.(active := set'), g, h, c.finalized, Ancestor(hash, c.headers, h, c.finalized))
  {
  }

  /** A branch that may be built on can be made to win. */
  lemma Overtakes(hash: Header -> H256, c: ChainState, g: H256, h: H256) returns (ops: seq<Op>)
    requires Buildable(hash, c, g, h)
    ensures ImportsOnly(ops)
    ensures HeadPasses(hash, Run(hash, c, ops), c.finalized, Ancestor(hash, c.headers, h, c.finalized))
  {
    var f, x := c.finalized, Ancestor(hash, c.headers, h, c.finalized);
    if c.active.validators != [] {
      ops := OvertakesWith(hash, c, g, h, f, x);
    } else {
      var op, set' := ElectsAnew(hash, c, g, h, [Election.Staker(0, 0, 0)]);
      SetAside(hash, c, g, h, set');
      var rest := OvertakesWith(hash, c.(active := set'), g, h, f, x);
      ops := [op] + rest;
      RunCons(hash, c, op, rest);
    }
  }

  /** Every run of imports keeps the head on the branch of the finalized block. */
  ghost predicate AlwaysPasses(hash: Header -> H256, c: ChainState)
    requires c.finalized in c.canonical
  {
    forall ops :: ImportsOnly(ops) ==> HeadPasses(hash, Run(hash, c, ops), c.finalized, c.canonical[c.finalized])
  }

  lemma RootedAlwaysPasses(hash: Header -> H256, c: ChainState, g: H256)
    requires Inv(hash, c, g) && Rooted(hash, c, g)
    ensures AlwaysPasses(hash, c)
  {
    forall ops | ImportsOnly(ops) ensures HeadPasses(hash, Run(hash, c, ops), c.finalized, c.canonical[c.finalized]) {
      FinalityHolds(hash, c, ops, g, c.finalized, c.canonical[c.finalized]);
    }
  }

  lemma UnrootedLeaves(hash: Header -> H256, c: ChainState, g: H256)
    requires CollisionFree(hash) && Inv(hash, c, g) && !Contradicted(c)
    requires c.finalized in c.canonical && !Rooted(hash, c, g)
    ensures !AlwaysPasses(hash, c)
  {
    var f, x := c.finalized, c.canonical[c.finalized];
    var h :| h in c.headers && f <= c.headers[h].number && Ancestor(hash, c.headers, h, f) != x;
    var ops := Overtakes(hash, c, g, h);
    assert ImportsOnly(ops) && !HeadPasses(hash, Run(hash, c, ops), f, x);
  }

  lemma {:induction false} HaltedKeepsHead(hash: Header -> H256, c: ChainState, ops: seq<Op>, g: H256)
    requires Inv(hash, c, g) && Contradicted(c) && ImportsOnly(ops) && c.finalized in c.canonical
    ensures HeadPasses(hash, Run(hash, c, ops), c.finalized, c.canonical[c.finalized]) <==> HeadOnFinalized(hash, c, g)
  {
    WrongCheckpointHalts(hash, c, ops, g);
    FinalizedStays(hash, c, ops, g);
    var c' := Run(hash, c, ops);
    AncestorIn(hash, c.headers, c'.headers, c.head.value, c.finalized);
  }

  /** Once a height is finalized, every run of imports keeps the head on the branch of the block
      numbered there exactly when, at that moment, every stored header at or above the height
      descends from it; or, where the numbering contradicts the checkpoint and the head is stuck,
      the head does. */
  lemma FinalityHoldsIff(hash: Header -> H256, c: ChainState, g: H256)
    requires CollisionFree(hash) && Inv(hash, c, g) && c.finalized in c.canonical
    ensures AlwaysPasses(hash, c) <==> if Contradicted(c) then HeadOnFinalized(hash, c, g) else Rooted(hash, c, g)
  {
    if Contradicted(c) {
      forall ops | ImportsOnly(ops)
        ensures HeadPasses(hash, Run(hash, c, ops), c.finalized, c.canonical[c.finalized]) <==> HeadOnFinalized(hash, c, g)
      {
        HaltedKeepsHead(hash, c, ops, g);
      }
      var none: seq<Op> := [];
      assert ImportsOnly(none);
    } else if Rooted(hash, c, g) {
      RootedAlwaysPasses(hash, c, g);
    } else {
      UnrootedLeaves(hash, c, g);
    }
  }
}
