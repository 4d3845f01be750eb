/** What every run of imports keeps: ancestry down to genesis, the fork choice, the finalized mark,
    and how the in-memory numbering relates to the branch of the head. */
module ChainTheorems {
  import opened Primitives
  import opened Chain

  datatype Op =
    | ImportOp(block: Header, ctx: Context)
    | FinalizeOp(number: nat)
    | CheckpointOp(number: nat, expected: H256)

  function Step(hash: Header -> H256, c: ChainState, op: Op): ChainState {
    match op
    case ImportOp(b, ctx) => Import(hash, c, b, ctx).0
    case FinalizeOp(n) => SetFinalized(c, n)
    case CheckpointOp(n, h) => c.(checkpoint := Some((n, h)))
  }

  function Run(hash: Header -> H256, c: ChainState, ops: seq<Op>): ChainState {
    if ops == [] then c else Step(hash, Run(hash, c, ops[..|ops| - 1]), ops[|ops| - 1])
  }

  /** A chain of the genesis block alone, whose state elects `elected`. */
  function Start(hash: Header -> H256, genesis: Header, epochLength: Length, elected: Validators, finalized: nat): ChainState {
    ChainState(map[hash(genesis) := genesis], map[0 := hash(genesis)], Some(hash(genesis)), finalized, None,
               epochLength, ValidatorSet(0, elected))
  }

  /** What import finds when the block's roots are right, the clock stands at its timestamp and the
      state elects `vs`. */
  function With(vs: Validators, b: Header): Context {
    Context(b.timestamp, b.transactionsRoot, vs, b.stateRoot)
  }

  // ----- the invariant

  /** No stored header is ahead of the head. */
  ghost predicate HeadIsBest(c: ChainState) {
    c.head.Some? && c.head.value in c.headers
    && forall h :: h in c.headers ==> h == c.head.value || Ahead(c.headers[c.head.value].number, c.head.value, c.headers[h].number, h)
  }

  /** The numbering covers exactly the heights up to the head, each with a stored header. */
  ghost predicate Numbered(c: ChainState)
    requires HeadIsBest(c)
  {
    && (forall k: nat :: k in c.canonical <==> k <= c.headers[c.head.value].number)
    && (forall k: nat :: k in c.canonical ==> c.canonical[k] in c.headers && c.headers[c.canonical[k]].number == k)
    && c.canonical[c.headers[c.head.value].number] == c.head.value
  }

  ghost predicate OneGenesis(c: ChainState, g: H256) {
    forall h :: h in c.headers && c.headers[h].number == 0 ==> h == g
  }

  ghost predicate Inv(hash: Header -> H256, c: ChainState, g: H256) {
    Chained(hash, c.headers) && HeadIsBest(c) && Numbered(c) && OneGenesis(c, g)
  }

  lemma StartKeeps(hash: Header -> H256, genesis: Header, epochLength: Length, elected: Validators, finalized: nat)
    requires genesis.number == 0
    ensures Inv(hash, Start(hash, genesis, epochLength, elected, finalized), hash(genesis))
    ensures Genesis(hash, Empty(epochLength, finalized), genesis, elected) == Ok(Start(hash, genesis, epochLength, elected, finalized))
  {
  }

  /** The chain with the active set that an import leaves behind. */
  function Rotating(hash: Header -> H256, c: ChainState, b: Header, ctx: Context): ChainState {
    c.(active := SetAfter(hash, c, b, ctx))
  }

  /** What an import that is not refused has established about the header. */
  ghost predicate Admissible(hash: Header -> H256, c: ChainState, b: Header) {
    && hash(b) !in c.headers && OnParent(c.headers, b)
    && (c.finalized == 0 || c.finalized <= c.headers[b.parent].number)
  }

  lemma AcceptedIsAdmissible(hash: Header -> H256, c: ChainState, b: Header, ctx: Context)
    requires Refusal(hash, c, b, ctx).None?
    ensures Admissible(hash, c, b) && Import(hash, c, b, ctx) == (Stored(hash, Rotating(hash, c, b, ctx), b), None)
  {
  }

  lemma ChainedMore(hash: Header -> H256, hs: Headers, b: Header)
    requires Chained(hash, hs) && hash(b) !in hs && OnParent(hs, b)
    ensures Chained(hash, hs[hash(b) := b])
  {
    var more := hs[hash(b) := b];
    forall h | h in more ensures Sits(hash, more, h) {
      assert h in hs ==> Sits(hash, hs, h);
    }
  }

  lemma HeadIsHighest(c: ChainState, h: H256)
    requires HeadIsBest(c) && h in c.headers
    ensures c.headers[h].number <= c.headers[c.head.value].number
  {
  }

  lemma StoredChained(hash: Header -> H256, c: ChainState, b: Header, g: H256)
    requires Inv(hash, c, g) && Admissible(hash, c, b)
    ensures Chained(hash, c.headers[hash(b) := b]) && OneGenesis(Stored(hash, c, b), g)
    ensures b.number <= c.headers[c.head.value].number + 1
  {
    ChainedMore(hash, c.headers, b);
    HeadIsHighest(c, b.parent);
  }

  lemma BestStays(hash: Header -> H256, c: ChainState, b: Header)
    requires HeadIsBest(c) && hash(b) !in c.headers
    ensures HeadIsBest(Stored(hash, c, b))
  {
  }

  lemma NumberedStays(hash: Header -> H256, c: ChainState, b: Header)
    requires HeadIsBest(c) && Numbered(c) && hash(b) !in c.headers && HeadIsBest(Stored(hash, c, b))
    requires b.number <= c.headers[c.head.value].number + 1
    ensures Numbered(Stored(hash, c, b))
  {
  }

  lemma ImportKeeps(hash: Header -> H256, c: ChainState, b: Header, g: H256)
    requires Inv(hash, c, g) && Admissible(hash, c, b)
    ensures Inv(hash, Stored(hash, c, b), g)
  {
    StoredChained(hash, c, b, g);
    BestStays(hash, c, b);
    NumberedStays(hash, c, b);
  }

  lemma StepKeeps(hash: Header -> H256, c: ChainState, op: Op, g: H256)
    requires Inv(hash, c, g)
    ensures Inv(hash, Step(hash, c, op), g)
  {
    if op.ImportOp? && Refusal(hash, c, op.block, op.ctx).None? {
      AcceptedIsAdmissible(hash, c, op.block, op.ctx);
      ImportKeeps(hash, Rotating(hash, c, op.block, op.ctx), op.block, g);
    }
  }

  lemma {:induction false} RunKeeps(hash: Header -> H256, c: ChainState, ops: seq<Op>, g: H256)
    requires Inv(hash, c, g)
    ensures Inv(hash, Run(hash, c, ops), g)
    decreases |ops|
  {
    if ops != [] {
      var init, op := ops[..|ops| - 1], ops[|ops| - 1];
      var before := Run(hash, c, init);
      RunKeeps(hash, c, init, g);
      StepKeeps(hash, before, op, g);
    }
  }

  // ----- ancestry

  lemma {:induction false} AncestorOfAncestor(hash: Header -> H256, hs: Headers, h: H256, j: nat, k: nat)
    requires Chained(hash, hs) && h in hs && j <= k <= hs[h].number
    ensures Ancestor(hash, hs, h, j) == Ancestor(hash, hs, Ancestor(hash, hs, h, k), j)
    decreases hs[h].number
  {
    assert Sits(hash, hs, h);
    if k < hs[h].number {
      AncestorOfAncestor(hash, hs, hs[h].parent, j, k);
    }
  }

  lemma {:induction false} AncestorIn(hash: Header -> H256, hs: Headers, more: Headers, h: H256, k: nat)
    requires Chained(hash, hs) && Chained(hash, more) && h in hs && k <= hs[h].number
    requires forall x :: x in hs ==> x in more && more[x] == hs[x]
    ensures Ancestor(hash, more, h, k) == Ancestor(hash, hs, h, k)
    decreases hs[h].number
  {
    assert Sits(hash, hs, h);
    if k < hs[h].number {
      AncestorIn(hash, hs, more, hs[h].parent, k);
    }
  }

  lemma {:induction false} TimesRise(hash: Header -> H256, hs: Headers, h: H256, k: nat)
    requires Chained(hash, hs) && h in hs && k < hs[h].number
    ensures hs[Ancestor(hash, hs, h, k)].timestamp < hs[h].timestamp
    decreases hs[h].number
  {
    assert Sits(hash, hs, h);
    if k + 1 < hs[h].number {
      TimesRise(hash, hs, hs[h].parent, k);
    }
  }

  /** After any run, a stored header at height n reaches the one genesis in n parent steps, one
      height and a strictly smaller timestamp at a time. */
  lemma ReachesGenesis(hash: Header -> H256, genesis: Header, epochLength: Length, elected: Validators, finalized: nat,
                       ops: seq<Op>, h: H256)
    requires genesis.number == 0 && h in Run(hash, Start(hash, genesis, epochLength, elected, finalized), ops).headers
    ensures var hs := Run(hash, Start(hash, genesis, epochLength, elected, finalized), ops).headers;
            && Chained(hash, hs)
            && Ancestor(hash, hs, h, 0) == hash(genesis)
            && forall j: nat, k: nat :: j < k <= hs[h].number ==>
                 hs[Ancestor(hash, hs, h, j)].timestamp < hs[Ancestor(hash, hs, h, k)].timestamp
  {
    var start := Start(hash, genesis, epochLength, elected, finalized);
    StartKeeps(hash, genesis, epochLength, elected, finalized);
    RunKeeps(hash, start, ops, hash(genesis));
    var hs := Run(hash, start, ops).headers;
    forall j: nat, k: nat | j < k <= hs[h].number
      ensures hs[Ancestor(hash, hs, h, j)].timestamp < hs[Ancestor(hash, hs, h, k)].timestamp
    {
      AncestorOfAncestor(hash, hs, h, j, k);
      TimesRise(hash, hs, Ancestor(hash, hs, h, k), j);
    }
  }

  // ----- the fork choice

  ghost predicate CollisionFree(hash: Header -> H256) {
    forall a, b :: hash(a) == hash(b) ==> a == b
  }

  /** Nodes that hold the same headers have the same head, in whatever order and with whatever
      finality marks and checkpoints they took them in. */
  lemma OrderIrrelevant(hash: Header -> H256, c1: ChainState, c2: ChainState, ops1: seq<Op>, ops2: seq<Op>, g: H256)
    requires CollisionFree(hash) && Inv(hash, c1, g) && Inv(hash, c2, g)
    requires Run(hash, c1, ops1).headers.Keys == Run(hash, c2, ops2).headers.Keys
    ensures Run(hash, c1, ops1).head == Run(hash, c2, ops2).head
  {
    RunKeeps(hash, c1, ops1, g);
    RunKeeps(hash, c2, ops2, g);
    var d1, d2 := Run(hash, c1, ops1), Run(hash, c2, ops2);
    forall h | h in d1.headers ensures d1.headers[h] == d2.headers[h] {
      assert Sits(hash, d1.headers, h) && Sits(hash, d2.headers, h);
    }
    assert d1.head.value in d2.headers.Keys && d2.head.value in d1.headers.Keys;
  }

  // ----- the numbering

  /** What one step may change: only the head's own height is renumbered, above the finalized one. */
  ghost predicate Succeeds(c: ChainState, c': ChainState)
    requires HeadIsBest(c) && HeadIsBest(c')
  {
    && c.finalized <= c'.finalized
    && c.headers[c.head.value].number <= c'.headers[c'.head.value].number
    && (forall k :: k in c.canonical && (k <= c.finalized || k < c.headers[c.head.value].number) ==>
          k in c'.canonical && c'.canonical[k] == c.canonical[k])
    && (forall h :: h in c.headers ==> h in c'.headers && c'.headers[h] == c.headers[h])
  }

  lemma StoredSucceeds(hash: Header -> H256, c: ChainState, b: Header)
    requires HeadIsBest(c) && Admissible(hash, c, b) && HeadIsBest(Stored(hash, c, b))
    ensures Succeeds(c, Stored(hash, c, b))
  {
    if Wins(hash, c, b) {
      assert c.headers[c.head.value].number <= b.number && c.finalized < b.number;
    }
  }

  lemma StepFacts(hash: Header -> H256, c: ChainState, op: Op, g: H256)
    requires Inv(hash, c, g)
    ensures Inv(hash, Step(hash, c, op), g) && Succeeds(c, Step(hash, c, op))
  {
    StepKeeps(hash, c, op, g);
    if op.ImportOp? && Refusal(hash, c, op.block, op.ctx).None? {
      AcceptedIsAdmissible(hash, c, op.block, op.ctx);
      StoredSucceeds(hash, Rotating(hash, c, op.block, op.ctx), op.block);
    }
  }

  /** In every run the finalized mark never falls, the head never gets lower, no header is lost,
      and a numbered block that is finalized or below the head stays the one at its height. */
  lemma {:induction false} FinalizedStays(hash: Header -> H256, c: ChainState, ops: seq<Op>, g: H256)
    requires Inv(hash, c, g)
    ensures Inv(hash, Run(hash, c, ops), g) && Succeeds(c, Run(hash, c, ops))
    decreases |ops|
  {
    if ops != [] {
      var init := ops[..|ops| - 1];
      FinalizedStays(hash, c, init, g);
      StepFacts(hash, Run(hash, c, init), ops[|ops| - 1], g);
      SucceedsTwice(c, Run(hash, c, init), Run(hash, c, ops));
    }
  }

  lemma SucceedsTwice(c: ChainState, c': ChainState, c'': ChainState)
    requires HeadIsBest(c) && HeadIsBest(c') && HeadIsBest(c'')
    requires Succeeds(c, c') && Succeeds(c', c'')
    ensures Succeeds(c, c'')
  {
  }

  /** The numbering is the branch of the head. */
  ghost predicate Linked(hash: Header -> H256, c: ChainState, g: H256)
    requires Inv(hash, c, g)
  {
    forall k: nat :: k in c.canonical ==> c.canonical[k] == Ancestor(hash, c.headers, c.head.value, k)
  }

  lemma ChildAncestor(hash: Header -> H256, hs: Headers, b: Header, k: nat)
    requires Chained(hash, hs) && Chained(hash, hs[hash(b) := b]) && hash(b) !in hs
    requires OnParent(hs, b) && k < b.number
    ensures Ancestor(hash, hs[hash(b) := b], hash(b), k) == Ancestor(hash, hs, b.parent, k)
  {
    AncestorIn(hash, hs, hs[hash(b) := b], b.parent, k);
  }

  lemma MovedHeadLinksIff(hash: Header -> H256, c: ChainState, b: Header, g: H256)
    requires Inv(hash, c, g) && Linked(hash, c, g) && Admissible(hash, c, b) && Wins(hash, c, b)
    requires Inv(hash, Stored(hash, c, b), g)
    ensures Linked(hash, Stored(hash, c, b), g) <==> b.parent == c.canonical[b.number - 1]
  {
    var c', n := Stored(hash, c, b), b.number - 1;
    forall k: nat | k <= n ensures Ancestor(hash, c'.headers, hash(b), k) == Ancestor(hash, c.headers, b.parent, k) {
      ChildAncestor(hash, c.headers, b, k);
    }
    if b.parent == c.canonical[n] {
      forall k: nat | k <= n ensures c.canonical[k] == Ancestor(hash, c.headers, b.parent, k) {
        AncestorOfAncestor(hash, c.headers, c.head.value, k, n);
      }
    } else {
      assert c'.canonical[n] != Ancestor(hash, c'.headers, hash(b), n);
    }
  }

  lemma KeptHeadLinks(hash: Header -> H256, c: ChainState, b: Header, g: H256)
    requires Inv(hash, c, g) && Linked(hash, c, g) && hash(b) !in c.headers && !Wins(hash, c, b)
    requires Inv(hash, Stored(hash, c, b), g)
    ensures Linked(hash, Stored(hash, c, b), g)
  {
    forall k: nat | k in c.canonical
      ensures Ancestor(hash, c.headers[hash(b) := b], c.head.value, k) == Ancestor(hash, c.headers, c.head.value, k)
    {
      AncestorIn(hash, c.headers, c.headers[hash(b) := b], c.head.value, k);
    }
  }

  /** An import keeps the numbering on the head's branch exactly when it does not move the head,
      or moves it to a child of the block numbered just below: a switch to another branch writes
      only the new tip's height. */
  lemma ImportLinksIff(hash: Header -> H256, c: ChainState, b: Header, g: H256)
    requires Inv(hash, c, g) && Linked(hash, c, g) && Admissible(hash, c, b)
    ensures Inv(hash, Stored(hash, c, b), g) && b.number - 1 in c.canonical
    ensures Linked(hash, Stored(hash, c, b), g)
            <==> !Wins(hash, c, b) || b.parent == c.canonical[b.number - 1]
  {
    ImportKeeps(hash, c, b, g);
    StoredChained(hash, c, b, g);
    if Wins(hash, c, b) {
      MovedHeadLinksIff(hash, c, b, g);
    } else {
      KeptHeadLinks(hash, c, b, g);
    }
  }

  // ----- checkpoints

  ghost predicate NoCheckpoint(ops: seq<Op>) {
    forall i :: 0 <= i < |ops| ==> !ops[i].CheckpointOp?
  }

  /** The numbering contradicts the checkpoint. */
  ghost predicate Contradicted(c: ChainState) {
    c.checkpoint.Some? && CheckpointBroken(c, c.checkpoint.value.0)
  }

  lemma AcceptedBelow(hash: Header -> H256, c: ChainState, b: Header, ctx: Context)
    requires Contradicted(c) && Refusal(hash, c, b, ctx).None?
    ensures b.number < c.checkpoint.value.0 && c.checkpoint.value.0 in c.canonical
  {
  }

  lemma LowerNeverWins(hash: Header -> H256, c: ChainState, b: Header)
    requires HeadIsBest(c) && hash(b) !in c.headers && b.number < c.headers[c.head.value].number
    ensures !Wins(hash, c, b)
  {
  }

  lemma StepHalted(hash: Header -> H256, c: ChainState, op: Op, g: H256)
    requires Inv(hash, c, g) && Contradicted(c) && !op.CheckpointOp?
    ensures var c' := Step(hash, c, op);
            c'.head == c.head && c'.canonical == c.canonical && c'.checkpoint == c.checkpoint
  {
    if op.ImportOp? && Refusal(hash, c, op.block, op.ctx).None? {
      AcceptedIsAdmissible(hash, c, op.block, op.ctx);
      AcceptedBelow(hash, c, op.block, op.ctx);
      assert c.checkpoint.value.0 <= c.headers[c.head.value].number;
      LowerNeverWins(hash, Rotating(hash, c, op.block, op.ctx), op.block);
    }
  }

  /** A node whose numbering contradicts its checkpoint never moves its head again. */
  lemma {:induction false} WrongCheckpointHalts(hash: Header -> H256, c: ChainState, ops: seq<Op>, g: H256)
    requires Inv(hash, c, g) && Contradicted(c) && NoCheckpoint(ops)
    ensures var c' := Run(hash, c, ops);
            c'.head == c.head && c'.canonical == c.canonical && c'.checkpoint == c.checkpoint
    decreases |ops|
  {
    if ops != [] {
      var init := ops[..|ops| - 1];
      WrongCheckpointHalts(hash, c, init, g);
      RunKeeps(hash, c, init, g);
      StepHalted(hash, Run(hash, c, init), ops[|ops| - 1], g);
    }
  }
}
