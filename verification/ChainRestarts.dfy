/** A node that is restarted: what its store and its memory keep agreeing on, and what a restart
    changes. */
module ChainRestarts {
  import opened Primitives
  import opened Chain
  import opened ChainTheorems
  import opened ChainFinality
  import opened ChainSlots
  import Election

  // ----- one restart

  lemma {:induction false} BranchChained(hash: Header -> H256, hs: Headers, h: H256)
    requires Chained(hash, hs) && h in hs
    ensures Chained(hash, Branch(hash, hs, h)) && h in Branch(hash, hs, h)
  {
    var branch := Branch(hash, hs, h);
    forall x | x in branch ensures Sits(hash, branch, x) {
      assert Sits(hash, hs, x);
      if 0 < hs[x].number {
        AncestorSteps(hash, hs, h, hs[x].number);
        assert OnBranch(hash, hs, h, hs[x].parent);
      }
    }
  }

  ghost predicate Within(hs: Headers, store: Headers) {
    forall h :: h in hs ==> h in store && store[h] == hs[h]
  }

  lemma BranchWithin(hash: Header -> H256, hs: Headers, store: Headers, h: H256)
    requires Chained(hash, hs) && Chained(hash, store) && Within(hs, store) && h in hs
    ensures Branch(hash, store, h) == Branch(hash, hs, h) && Numbering(hash, store, h) == Numbering(hash, hs, h)
  {
    forall k: nat | k <= hs[h].number ensures Ancestor(hash, store, h, k) == Ancestor(hash, hs, h, k) {
      AncestorIn(hash, hs, store, h, k);
    }
  }

  /** Restarting yields a sound chain with the same head and finalized mark, numbered along the
      head's branch; the numbering is the one from before exactly when that one was. The store may
      hold more than memory did. */
  lemma ResumedIsLinked(hash: Header -> H256, c: ChainState, store: Headers, elected: Validators, g: H256)
    requires Inv(hash, c, g) && Chained(hash, store) && Within(c.headers, store)
    ensures var r := Resumed(hash, store, c.head, c.epochLength, c.finalized, elected);
            && Inv(hash, r, g) && Linked(hash, r, g) && Within(r.headers, c.headers)
            && r.head == c.head && r.finalized == c.finalized
            && (r.canonical == c.canonical <==> Linked(hash, c, g))
  {
    var r := Resumed(hash, store, c.head, c.epochLength, c.finalized, elected);
    var h := c.head.value;
    BranchWithin(hash, c.headers, store, h);
    BranchChained(hash, c.headers, h);
    assert HeadIsBest(r);
    forall k: nat | k <= c.headers[h].number
      ensures r.canonical[k] in r.headers && Ancestor(hash, r.headers, h, k) == Ancestor(hash, c.headers, h, k)
    {
      assert OnBranch(hash, c.headers, h, r.canonical[k]);
      AncestorIn(hash, r.headers, c.headers, h, k);
    }
    assert Numbered(r);
  }

  /** Every header held is on the head's branch. */
  ghost predicate HeadBranchOnly(hash: Header -> H256, c: ChainState, g: H256)
    requires Inv(hash, c, g)
  {
    forall x :: x in c.headers ==> OnBranch(hash, c.headers, c.head.value, x)
  }

  lemma ResumedIsBranch(hash: Header -> H256, c: ChainState, store: Headers, elected: Validators, g: H256)
    requires Inv(hash, c, g) && Chained(hash, store) && Within(c.headers, store)
    ensures var r := Resumed(hash, store, c.head, c.epochLength, c.finalized, elected);
            Inv(hash, r, g) && HeadBranchOnly(hash, r, g)
  {
    ResumedIsLinked(hash, c, store, elected, g);
    var r := Resumed(hash, store, c.head, c.epochLength, c.finalized, elected);
    forall x | x in r.headers ensures OnBranch(hash, r.headers, c.head.value, x) {
      assert OnBranch(hash, store, c.head.value, x) && r.canonical[r.headers[x].number] == x;
    }
  }

  lemma BranchOnlyIsRooted(hash: Header -> H256, c: ChainState, g: H256)
    requires Inv(hash, c, g) && Linked(hash, c, g) && HeadBranchOnly(hash, c, g) && c.finalized in c.canonical
    ensures Rooted(hash, c, g)
  {
    forall x | x in c.headers && c.finalized <= c.headers[x].number
      ensures Ancestor(hash, c.headers, x, c.finalized) == c.canonical[c.finalized]
    {
      AncestorOfAncestor(hash, c.headers, c.head.value, c.finalized, c.headers[x].number);
    }
  }

  /** After a restart every header held is on the head's branch, so from then on no run of imports
      takes the head off the block numbered at the finalized height. */
  lemma ResumedIsRooted(hash: Header -> H256, c: ChainState, store: Headers, elected: Validators, g: H256)
    requires Inv(hash, c, g) && Chained(hash, store) && Within(c.headers, store) && c.finalized in c.canonical
    ensures var r := Resumed(hash, store, c.head, c.epochLength, c.finalized, elected);
            Inv(hash, r, g) && Rooted(hash, r, g)
  {
    ResumedIsLinked(hash, c, store, elected, g);
    ResumedIsBranch(hash, c, store, elected, g);
    BranchOnlyIsRooted(hash, Resumed(hash, store, c.head, c.epochLength, c.finalized, elected), g);
  }

  // ----- runs with restarts

  /** The chain in memory, and what imports have persisted of it. */
  datatype Node = Node(chain: ChainState, store: Headers, storedHead: Option<H256>)

  datatype NodeOp = ChainOp(op: Op) | RestartOp(elected: Validators)

  /** An accepted block is persisted, and the head with it when it moves. */
  ghost predicate Persists(hash: Header -> H256, a: Node, op: Op, b: Node) {
    var accepted := op.ImportOp? && Refusal(hash, a.chain, op.block, op.ctx).None?;
    && b.chain == Step(hash, a.chain, op)
    && b.store == (if accepted then a.store[hash(op.block) := op.block] else a.store)
    && b.storedHead == if accepted && Wins(hash, a.chain, op.block) then Some(hash(op.block)) else a.storedHead
  }

  ghost predicate NodeStep(hash: Header -> H256, a: Node, op: NodeOp, b: Node) {
    match op
    case ChainOp(o) => Persists(hash, a, o, b)
    case RestartOp(elected) =>
      && b.store == a.store && b.storedHead == a.storedHead && Descending(a.store)
      && ResumesTo(a.store, a.storedHead, a.chain.epochLength, a.chain.finalized, elected, b.chain)
  }

  ghost predicate NodeRun(hash: Header -> H256, ns: seq<Node>, ops: seq<NodeOp>) {
    |ns| == |ops| + 1 && forall i :: 0 <= i < |ops| ==> NodeStep(hash, ns[i], ops[i], ns[i + 1])
  }

  ghost predicate BestIn(store: Headers, head: Option<H256>) {
    && head.Some? && head.value in store
    && forall h :: h in store ==> h == head.value || Ahead(store[head.value].number, head.value, store[h].number, h)
  }

  ghost predicate OneRoot(store: Headers, g: H256) {
    forall h :: h in store && store[h].number == 0 ==> h == g
  }

  /** The store leads to genesis, and no header in it is ahead of `head`. */
  ghost predicate StoreInv(hash: Header -> H256, store: Headers, head: Option<H256>, g: H256) {
    Chained(hash, store) && BestIn(store, head) && OneRoot(store, g)
  }

  /** Memory is sound and part of the store, and the head is the stored one. */
  ghost predicate NodeInv(hash: Header -> H256, n: Node, g: H256) {
    Inv(hash, n.chain, g) && StoreInv(hash, n.store, n.storedHead, g) && Within(n.chain.headers, n.store) && n.storedHead == n.chain.head
  }

  /** The fork choice among stored headers. */
  predicate Leads(store: Headers, b: Header, h: H256, head: H256)
    requires head in store
  {
    Ahead(b.number, h, store[head].number, head)
  }

  lemma BestInMore(store: Headers, b: Header, h: H256, head: H256)
    requires BestIn(store, Some(head)) && h !in store
    ensures BestIn(store[h := b], Some(if Leads(store, b, h, head) then h else head))
  {
  }

  lemma StoreAgain(hash: Header -> H256, store: Headers, b: Header, head: H256)
    requires CollisionFree(hash) && Chained(hash, store) && BestIn(store, Some(head)) && hash(b) in store && hash(b) != head
    ensures store[hash(b) := b] == store && !Leads(store, b, hash(b), head)
  {
    assert Sits(hash, store, hash(b));
    assert store[hash(b)] == b;
  }

  lemma StoreKeeps(hash: Header -> H256, store: Headers, b: Header, head: H256, g: H256)
    requires CollisionFree(hash) && StoreInv(hash, store, Some(head), g) && OnParent(store, b) && hash(b) != head
    ensures StoreInv(hash, store[hash(b) := b], Some(if Leads(store, b, hash(b), head) then hash(b) else head), g)
  {
    if hash(b) in store {
      StoreAgain(hash, store, b, head);
    } else {
      ChainedMore(hash, store, b);
      BestInMore(store, b, hash(b), head);
    }
  }

  lemma StoredChoice(hash: Header -> H256, a: Node, b: Header)
    requires Within(a.chain.headers, a.store) && a.chain.head.Some? && a.chain.head.value in a.chain.headers
    requires Admissible(hash, a.chain, b)
    ensures Wins(hash, a.chain, b) == Leads(a.store, b, hash(b), a.chain.head.value)
    ensures OnParent(a.store, b) && hash(b) != a.chain.head.value
    ensures Within(a.chain.headers[hash(b) := b], a.store[hash(b) := b])
  {
  }

  lemma PersistKeeps(hash: Header -> H256, a: Node, op: Op, b: Node, g: H256)
    requires CollisionFree(hash) && NodeInv(hash, a, g) && Persists(hash, a, op, b)
    ensures NodeInv(hash, b, g)
  {
    StepKeeps(hash, a.chain, op, g);
    if op.ImportOp? && Refusal(hash, a.chain, op.block, op.ctx).None? {
      AcceptedIsAdmissible(hash, a.chain, op.block, op.ctx);
      StoredChoice(hash, a, op.block);
      StoreKeeps(hash, a.store, op.block, a.chain.head.value, g);
    }
  }

  lemma WithinTwice(hs: Headers, more: Headers, most: Headers)
    requires Within(hs, more) && Within(more, most)
    ensures Within(hs, most)
  {
  }

  lemma RestartKeeps(hash: Header -> H256, a: Node, elected: Validators, b: Node, g: H256)
    requires NodeInv(hash, a, g) && NodeStep(hash, a, RestartOp(elected), b)
    ensures NodeInv(hash, b, g) && Linked(hash, b.chain, g)
    ensures b.chain.head == a.chain.head && b.chain.finalized == a.chain.finalized && b.chain.checkpoint == None
    ensures b.chain.canonical == a.chain.canonical <==> Linked(hash, a.chain, g)
  {
    ResumesToBranch(hash, a.store, a.storedHead, a.chain.epochLength, a.chain.finalized, elected, b.chain);
    ResumedIsLinked(hash, a.chain, a.store, elected, g);
    WithinTwice(b.chain.headers, a.chain.headers, a.store);
  }

  /** What any run with restarts keeps of a node. */
  ghost predicate NodeSucceeds(a: Node, b: Node) {
    && a.chain.finalized <= b.chain.finalized && Within(a.store, b.store)
    && a.storedHead.Some? && a.storedHead.value in a.store && b.storedHead.Some? && b.storedHead.value in b.store
    && a.store[a.storedHead.value].number <= b.store[b.storedHead.value].number
  }

  lemma StoreGrows(hash: Header -> H256, a: Node, op: Op, b: Node, g: H256)
    requires CollisionFree(hash) && NodeInv(hash, a, g) && NodeInv(hash, b, g) && Persists(hash, a, op, b)
    ensures NodeSucceeds(a, b)
  {
    forall h | h in a.store ensures h in b.store && b.store[h] == a.store[h] {
      assert Sits(hash, a.store, h);
    }
    assert a.storedHead.value in b.store;
  }

  lemma NodeStepKeeps(hash: Header -> H256, a: Node, op: NodeOp, b: Node, g: H256)
    requires CollisionFree(hash) && NodeInv(hash, a, g) && NodeStep(hash, a, op, b)
    ensures NodeInv(hash, b, g) && NodeSucceeds(a, b)
  {
    match op
    case ChainOp(o) =>
      PersistKeeps(hash, a, o, b, g);
      StoreGrows(hash, a, o, b, g);
    case RestartOp(elected) =>
      RestartKeeps(hash, a, elected, b, g);
  }

  /** Through every run of imports, finalizations, checkpoints and restarts the memory stays sound
      and in step with the store, the head is the best header ever stored, no header is lost from
      the store, and neither the head's height nor the finalized mark ever falls. */
  lemma {:induction false} NodeRunKeeps(hash: Header -> H256, ns: seq<Node>, ops: seq<NodeOp>, k: nat, g: H256)
    requires CollisionFree(hash) && NodeRun(hash, ns, ops) && NodeInv(hash, ns[0], g) && k <= |ops|
    ensures NodeInv(hash, ns[k], g) && NodeSucceeds(ns[0], ns[k])
    decreases k
  {
    if k > 0 {
      NodeRunKeeps(hash, ns, ops, k - 1, g);
      NodeStepKeeps(hash, ns[k - 1], ops[k - 1], ns[k], g);
    }
  }

  lemma NodeStarts(hash: Header -> H256, genesis: Header, epochLength: Length, elected: Validators, finalized: nat)
    requires genesis.number == 0
    ensures var c := Start(hash, genesis, epochLength, elected, finalized);
            && NodeInv(hash, Node(c, c.headers, c.head), hash(genesis))
            && (genesis.epoch == 0 && genesis.slot == 0 ==> AllLabelled(epochLength, c.headers))
  {
    StartKeeps(hash, genesis, epochLength, elected, finalized);
    Election.PlaceInEpoch(epochLength, 0, 0);
  }

  lemma OneBest(store: Headers, a: Option<H256>, b: Option<H256>)
    requires BestIn(store, a) && BestIn(store, b)
    ensures a == b
  {
  }

  lemma SameStore(hash: Header -> H256, s1: Headers, s2: Headers)
    requires CollisionFree(hash) && Chained(hash, s1) && Chained(hash, s2) && s1.Keys == s2.Keys
    ensures s1 == s2
  {
    forall h | h in s1 ensures s1[h] == s2[h] {
      assert Sits(hash, s1, h) && Sits(hash, s2, h);
    }
  }

  /** Nodes that have ever stored the same headers have the same head, whatever restarts and
      whatever order brought them there. */
  lemma NodesAgree(hash: Header -> H256, a: Node, b: Node, g: H256)
    requires CollisionFree(hash) && NodeInv(hash, a, g) && NodeInv(hash, b, g) && a.store.Keys == b.store.Keys
    ensures a.chain.head == b.chain.head
  {
    SameStore(hash, a.store, b.store);
    OneBest(a.store, a.storedHead, b.storedHead);
  }

  lemma RestartStaysRooted(hash: Header -> H256, a: Node, elected: Validators, b: Node, g: H256, f: nat, x: H256)
    requires NodeInv(hash, a, g) && NodeStep(hash, a, RestartOp(elected), b) && RootedAt(hash, a.chain, g, f, x)
    ensures RootedAt(hash, b.chain, g, f, x)
  {
    ResumesToBranch(hash, a.store, a.storedHead, a.chain.epochLength, a.chain.finalized, elected, b.chain);
    ResumedIsRooted(hash, a.chain, a.store, elected, g);
    BranchWithin(hash, a.chain.headers, a.store, a.chain.head.value);
  }

  ghost predicate Finalizes(op: NodeOp) {
    op.ChainOp? && op.op.FinalizeOp?
  }

  /** Sound, with `x` finalized at height `f` and nothing at or above it on another branch. */
  ghost predicate Final(hash: Header -> H256, n: Node, g: H256, f: nat, x: H256) {
    NodeInv(hash, n, g) && RootedAt(hash, n.chain, g, f, x)
  }

  lemma StepStaysFinal(hash: Header -> H256, a: Node, op: NodeOp, b: Node, g: H256, f: nat, x: H256)
    requires CollisionFree(hash) && Final(hash, a, g, f, x) && NodeStep(hash, a, op, b) && !Finalizes(op)
    ensures Final(hash, b, g, f, x)
  {
    NodeStepKeeps(hash, a, op, b, g);
    match op
    case ChainOp(o) => StepKeepsRooted(hash, a.chain, o, g, f, x);
    case RestartOp(elected) => RestartStaysRooted(hash, a, elected, b, g, f, x);
  }

  lemma {:induction false} StaysFinal(hash: Header -> H256, ns: seq<Node>, ops: seq<NodeOp>, k: nat, g: H256, f: nat, x: H256)
    requires CollisionFree(hash) && NodeRun(hash, ns, ops) && k <= |ops|
    requires Final(hash, ns[0], g, f, x) && forall i :: 0 <= i < |ops| ==> !Finalizes(ops[i])
    ensures Final(hash, ns[k], g, f, x)
    decreases k
  {
    if k > 0 {
      StaysFinal(hash, ns, ops, k - 1, g, f, x);
      StepStaysFinal(hash, ns[k - 1], ops[k - 1], ns[k], g, f, x);
    }
  }

  lemma FinalPasses(hash: Header -> H256, n: Node, g: H256, f: nat, x: H256)
    requires Final(hash, n, g, f, x)
    ensures HeadPasses(hash, n.chain, f, x)
  {
  }

  /** Finality, once it holds, holds through restarts as well. */
  lemma FinalityOutlivesRestarts(hash: Header -> H256, ns: seq<Node>, ops: seq<NodeOp>, k: nat, g: H256, f: nat, x: H256)
    requires CollisionFree(hash) && NodeRun(hash, ns, ops) && k <= |ops|
    requires Final(hash, ns[0], g, f, x) && forall i :: 0 <= i < |ops| ==> !Finalizes(ops[i])
    ensures HeadPasses(hash, ns[k].chain, f, x)
  {
    StaysFinal(hash, ns, ops, k, g, f, x);
    FinalPasses(hash, ns[k], g, f, x);
  }

  // ----- labels

  lemma AcceptedIsLabelled(hash: Header -> H256, c: ChainState, b: Header, ctx: Context)
    requires Refusal(hash, c, b, ctx).None?
    ensures Labelled(c.epochLength, b)
  {
    FaultlessIff(hash, c.epochLength, Rotated(c, b, ctx), b, c.headers[b.parent]);
  }

  lemma NodeStepLabels(hash: Header -> H256, a: Node, op: NodeOp, b: Node, n: Length)
    requires NodeStep(hash, a, op, b) && AllLabelled(n, a.store) && a.chain.epochLength == n
    ensures AllLabelled(n, b.store) && b.chain.epochLength == n
  {
    match op
    case ChainOp(o) =>
      if o.ImportOp? && Refusal(hash, a.chain, o.block, o.ctx).None? {
        AcceptedIsLabelled(hash, a.chain, o.block, o.ctx);
      }
    case RestartOp(_) =>
  }

  /** Through every run with restarts, whatever set a restart elects, every header ever stored gives
      the epoch and slot of its height. */
  lemma {:induction false} LabelsOutliveRestarts(hash: Header -> H256, ns: seq<Node>, ops: seq<NodeOp>, k: nat)
    requires NodeRun(hash, ns, ops) && AllLabelled(ns[0].chain.epochLength, ns[0].store) && k <= |ops|
    ensures AllLabelled(ns[0].chain.epochLength, ns[k].store) && ns[k].chain.epochLength == ns[0].chain.epochLength
    decreases k
  {
    if k > 0 {
      LabelsOutliveRestarts(hash, ns, ops, k - 1);
      NodeStepLabels(hash, ns[k - 1], ops[k - 1], ns[k], ns[0].chain.epochLength);
    }
  }

  /** So in every run with restarts from a genesis block, no header ever stored leaves a slot out
      between its parent's and its own. */
  lemma NoSlotEverMissed(hash: Header -> H256, genesis: Header, ns: seq<Node>, ops: seq<NodeOp>, k: nat, h: H256)
    requires CollisionFree(hash) && NodeRun(hash, ns, ops) && k <= |ops| && genesis.number == genesis.epoch == genesis.slot == 0
    requires var c := ns[0].chain;
             && c == Start(hash, genesis, c.epochLength, c.active.validators, c.finalized)
             && ns[0] == Node(c, c.headers, c.head)
    requires h in ns[k].store && ns[k].store[h].number > 0
    ensures ns[k].store[h].parent in ns[k].store && !SkipsSlots(ns[k].store[h], ns[k].store[ns[k].store[h].parent])
  {
    var c := ns[0].chain;
    NodeStarts(hash, genesis, c.epochLength, c.active.validators, c.finalized);
    LabelsOutliveRestarts(hash, ns, ops, k);
    NodeRunKeeps(hash, ns, ops, k, hash(genesis));
    NoSlotMissed(hash, ns[k].store, c.epochLength, h);
  }

  // ----- a switch of branches

  /** Two blocks at height 1, the lower hash first, and a block on the other one, each by the
      leader of its slot. */
  ghost predicate Forked(hash: Header -> H256, n: Length, vs: Validators, g: Header, a: Header, b: Header, b2: Header) {
    && g.number == 0 && a.number == 1 && b.number == 1 && b2.number == 2
    && a.parent == hash(g) && b.parent == hash(g) && b2.parent == hash(b)
    && g.timestamp < a.timestamp && g.timestamp < b.timestamp < b2.timestamp
    && hash(a) < hash(b) && hash(g) != hash(a) && hash(g) != hash(b)
    && hash(b2) != hash(g) && hash(b2) != hash(a) && hash(b2) != hash(b)
    && Led(vs, n, a) && Led(vs, n, b) && Led(vs, n, b2)
  }

  lemma LedAccepted(hash: Header -> H256, c: ChainState, vs: Validators, b: Header)
    requires Admissible(hash, c, b) && c.checkpoint.None? && c.active.validators == vs && Led(vs, c.epochLength, b)
    requires b.parent == hash(c.headers[b.parent])
    ensures var c' := Step(hash, c, ImportOp(b, With(vs, b)));
            c' == Stored(hash, c, b).(active := c'.active) && c'.active.validators == vs
  {
    FaultlessIff(hash, c.epochLength, Rotated(c, b, With(vs, b)), b, c.headers[b.parent]);
  }

  ghost function AfterFork(hash: Header -> H256, n: Length, vs: Validators, g: Header, a: Header, b: Header): ChainState {
    var c1 := Step(hash, Start(hash, g, n, vs, 0), ImportOp(a, With(vs, a)));
    Step(hash, Step(hash, c1, ImportOp(b, With(vs, b))), FinalizeOp(1))
  }

  ghost function AfterSwitch(hash: Header -> H256, n: Length, vs: Validators, g: Header, a: Header, b: Header, b2: Header): ChainState {
    Step(hash, AfterFork(hash, n, vs, g, a, b), ImportOp(b2, With(vs, b2)))
  }

  lemma ForkedAt(hash: Header -> H256, n: Length, vs: Validators, g: Header, a: Header, b: Header, b2: Header)
    requires Forked(hash, n, vs, g, a, b, b2)
    ensures var c := AfterFork(hash, n, vs, g, a, b);
            && c == ChainState(map[hash(g) := g, hash(a) := a, hash(b) := b], map[0 := hash(g), 1 := hash(a)], Some(hash(a)),
                               1, None, n, c.active)
            && c.active.validators == vs
  {
    var c0 := Start(hash, g, n, vs, 0);
    LedAccepted(hash, c0, vs, a);
    LedAccepted(hash, Step(hash, c0, ImportOp(a, With(vs, a))), vs, b);
  }

  lemma Switched(hash: Header -> H256, n: Length, vs: Validators, g: Header, a: Header, b: Header, b2: Header)
    requires Forked(hash, n, vs, g, a, b, b2)
    ensures var c := AfterSwitch(hash, n, vs, g, a, b, b2);
            c == ChainState(map[hash(g) := g, hash(a) := a, hash(b) := b, hash(b2) := b2],
                            map[0 := hash(g), 1 := hash(a), 2 := hash(b2)], Some(hash(b2)), 1, None, n, c.active)
  {
    ForkedAt(hash, n, vs, g, a, b, b2);
    LedAccepted(hash, AfterFork(hash, n, vs, g, a, b), vs, b2);
  }

  lemma SwitchedSound(hash: Header -> H256, n: Length, vs: Validators, g: Header, a: Header, b: Header, b2: Header)
    requires Forked(hash, n, vs, g, a, b, b2)
    ensures Inv(hash, AfterSwitch(hash, n, vs, g, a, b, b2), hash(g))
  {
    var c0 := Start(hash, g, n, vs, 0);
    var c1 := Step(hash, c0, ImportOp(a, With(vs, a)));
    StartKeeps(hash, g, n, vs, 0);
    StepKeeps(hash, c0, ImportOp(a, With(vs, a)), hash(g));
    StepKeeps(hash, c1, ImportOp(b, With(vs, b)), hash(g));
    StepKeeps(hash, Step(hash, c1, ImportOp(b, With(vs, b))), FinalizeOp(1), hash(g));
    StepKeeps(hash, AfterFork(hash, n, vs, g, a, b), ImportOp(b2, With(vs, b2)), hash(g));
  }

  /** Height 1 is finalized with `a` in it; the block on `b` is then accepted and becomes the
      head. The numbering still has `a`, the head's branch has `b`, and after a restart the
      numbering has `b` as well. */
  lemma SwitchLeavesFinalized(hash: Header -> H256, n: Length, vs: Validators, g: Header, a: Header, b: Header, b2: Header)
    requires Forked(hash, n, vs, g, a, b, b2)
    ensures var c := AfterSwitch(hash, n, vs, g, a, b, b2);
            && Inv(hash, c, hash(g)) && c.finalized == 1 && 1 in c.canonical && c.canonical[1] == hash(a)
            && c.head == Some(hash(b2))
            && !Linked(hash, c, hash(g)) && !HeadOnFinalized(hash, c, hash(g))
            && Resumed(hash, c.headers, c.head, n, 1, vs).canonical[1] == hash(b)
  {
    Switched(hash, n, vs, g, a, b, b2);
    SwitchedSound(hash, n, vs, g, a, b, b2);
    var c := AfterSwitch(hash, n, vs, g, a, b, b2);
    assert Ancestor(hash, c.headers, hash(b2), 1) == Ancestor(hash, c.headers, hash(b), 1) == hash(b);
  }
}
