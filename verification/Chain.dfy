/** Block import, fork choice, finality enforcement and resuming from storage, over the part of
    the chain that is about headers: which are stored, which is the head, which are canonical, and
    which validators may produce the next ones. */
module Chain {
  import opened Primitives
  import Election

  const MAX_FUTURE_DRIFT_MS: nat := 30_000

  type Length = n: nat | 0 < n witness 1

  /** The signed fields of a header that import looks at; `body` stands for all the others. */
  datatype Header = Header(
    number: nat, parent: H256, timestamp: nat, validator: Address, epoch: nat, slot: nat,
    transactionsRoot: H256, stateRoot: H256, body: nat)

  type Headers = map<H256, Header>

  type Validators = seq<Election.Staker>

  datatype ValidatorSet = ValidatorSet(epoch: nat, validators: Validators)

  datatype ChainState = ChainState(
    headers: Headers, canonical: map<nat, H256>, head: Option<H256>, finalized: nat, checkpoint: Option<(nat, H256)>,
    epochLength: Length, active: ValidatorSet)

  /** What import finds outside the header: the wall clock (0 when it cannot be read), the root of
      the block's transactions, the validators the state elects when an epoch begins, and the root
      of the state the block leads to. */
  datatype Context = Context(now: nat, transactionsRoot: H256, elected: Validators, stateRoot: H256)

  datatype ChainError =
    | BlockAlreadyKnown
    | UnknownParent
    | RevertsPastFinalized
    | WeakSubjectivityViolation
    | InvalidTimestamp
    | TimestampTooFarInFuture
    | InvalidTransactionsRoot
    | WrongBlockNumber
    | WrongParentHash
    | EmptyValidatorSet
    | WrongProducer
    | InvalidStateRoot
    | GenesisAlreadySet

  /** Ahead in the fork choice: higher, or as high with a lower hash. */
  predicate Ahead(n: nat, h: H256, n': nat, h': H256) {
    n > n' || (n == n' && h < h')
  }

  predicate IsNewHead(c: ChainState, header: Header, hash: H256) {
    match c.head
    case Some(head) => if head in c.headers then Ahead(header.number, hash, c.headers[head].number, head) else true
    case None => true
  }

  predicate CheckpointBroken(c: ChainState, number: nat) {
    c.checkpoint.Some? && c.checkpoint.value.0 <= number && c.checkpoint.value.0 in c.canonical
    && c.canonical[c.checkpoint.value.0] != c.checkpoint.value.1
  }

  /** Why a header may not follow its parent, in the order the reasons are looked at: its place,
      its time, its producer, and the epoch and slot it gives. Elected validators have no public
      key on record, so the signature is not looked at. */
  function HeaderFault(hash: Header -> H256, epochLength: Length, active: ValidatorSet, b: Header, parent: Header): Option<ChainError> {
    if b.number != parent.number + 1 then Some(WrongBlockNumber)
    else if b.parent != hash(parent) then Some(WrongParentHash)
    else if b.timestamp <= parent.timestamp then Some(InvalidTimestamp)
    else
      match Election.SlotLeader(active.validators, Election.SlotOf(b.number, epochLength))
      case None => Some(EmptyValidatorSet)
      case Some(leader) =>
        if b.validator != leader.address then Some(WrongProducer)
        else if b.epoch != Election.EpochOf(b.number, epochLength) then Some(WrongBlockNumber)
        else if b.slot != Election.SlotOf(b.number, epochLength) then Some(WrongBlockNumber)
        else None
  }

  /** Why an import is refused before the validators come into it. */
  function EarlyRefusal(hash: Header -> H256, c: ChainState, b: Header, ctx: Context): Option<ChainError> {
    if hash(b) in c.headers then Some(BlockAlreadyKnown)
    else if b.parent !in c.headers then Some(UnknownParent)
    else
      var parent := c.headers[b.parent];
      if c.finalized > 0 && parent.number < c.finalized then Some(RevertsPastFinalized)
      else if CheckpointBroken(c, b.number) then Some(WeakSubjectivityViolation)
      else if b.timestamp <= parent.timestamp then Some(InvalidTimestamp)
      else if ctx.now > 0 && b.timestamp > ctx.now + MAX_FUTURE_DRIFT_MS then Some(TimestampTooFarInFuture)
      else if b.transactionsRoot != ctx.transactionsRoot then Some(InvalidTransactionsRoot)
      else None
  }

  /** A later epoch than that of the active set begins with an election. */
  function Rotated(c: ChainState, b: Header, ctx: Context): ValidatorSet {
    var epoch := Election.EpochOf(b.number, c.epochLength);
    if epoch > c.active.epoch then ValidatorSet(epoch, ctx.elected) else c.active
  }

  /** Why an import is refused, in the order the reasons are looked at; `None` when it is not. */
  function Refusal(hash: Header -> H256, c: ChainState, b: Header, ctx: Context): Option<ChainError> {
    match EarlyRefusal(hash, c, b, ctx)
    case Some(e) => Some(e)
    case None =>
      match HeaderFault(hash, c.epochLength, Rotated(c, b, ctx), b, c.headers[b.parent])
      case Some(e) => Some(e)
      case None => if b.stateRoot != ctx.stateRoot then Some(InvalidStateRoot) else None
  }

  /** The active set an import leaves behind. It is put back when the state root is wrong, and not
      when the header is. */
  function SetAfter(hash: Header -> H256, c: ChainState, b: Header, ctx: Context): ValidatorSet {
    if EarlyRefusal(hash, c, b, ctx).Some? || Refusal(hash, c, b, ctx) == Some(InvalidStateRoot) then c.active
    else Rotated(c, b, ctx)
  }

  /** The fork choice is made with the new header already stored. */
  predicate Wins(hash: Header -> H256, c: ChainState, b: Header) {
    IsNewHead(c.(headers := c.headers[hash(b) := b]), b, hash(b))
  }

  /** Store the header; if it wins the fork choice, write its own height and move the head. */
  function Stored(hash: Header -> H256, c: ChainState, b: Header): ChainState {
    var h := hash(b);
    var won := Wins(hash, c, b);
    ChainState(
      c.headers[h := b],
      if won then c.canonical[b.number := h] else c.canonical,
      if won then Some(h) else c.head,
      c.finalized, c.checkpoint, c.epochLength, c.active)
  }

  function Import(hash: Header -> H256, c: ChainState, b: Header, ctx: Context): (ChainState, Option<ChainError>) {
    var c' := c.(active := SetAfter(hash, c, b, ctx));
    var refusal := Refusal(hash, c, b, ctx);
    (if refusal.None? then Stored(hash, c', b) else c', refusal)
  }

  function Empty(epochLength: Length, finalized: nat): ChainState {
    ChainState(map[], map[], None, finalized, None, epochLength, ValidatorSet(0, []))
  }

  function Genesis(hash: Header -> H256, c: ChainState, b: Header, elected: Validators): Result<ChainState, ChainError> {
    if c.head.Some? then
      if 0 in c.canonical && c.canonical[0] == hash(b) then Ok(c) else Err(GenesisAlreadySet)
    else
      Ok(c.(headers := c.headers[hash(b) := b], canonical := c.canonical[0 := hash(b)], head := Some(hash(b)),
            active := ValidatorSet(0, elected)))
  }

  function SetFinalized(c: ChainState, number: nat): ChainState {
    if number > c.finalized then c.(finalized := number) else c
  }

  // ----- ancestry

  /** Every header sits under its own hash, and above a stored parent unless it is at height 0. */
  ghost predicate Chained(hash: Header -> H256, hs: Headers) {
    forall h {:trigger Sits(hash, hs, h)} :: h in hs ==> Sits(hash, hs, h)
  }

  ghost predicate Sits(hash: Header -> H256, hs: Headers, h: H256)
    requires h in hs
  {
    hash(hs[h]) == h && (hs[h].number == 0 || OnParent(hs, hs[h]))
  }

  ghost predicate OnParent(hs: Headers, b: Header) {
    b.parent in hs && b.number == hs[b.parent].number + 1 && hs[b.parent].timestamp < b.timestamp
  }

  /** The ancestor of `h` at height `k`. */
  ghost function Ancestor(hash: Header -> H256, hs: Headers, h: H256, k: nat): (a: H256)
    requires Chained(hash, hs) && h in hs && k <= hs[h].number
    ensures a in hs && hs[a].number == k
    decreases hs[h].number
  {
    if hs[h].number == k then h
    else
      assert Sits(hash, hs, h);
      Ancestor(hash, hs, hs[h].parent, k)
  }

  ghost predicate OnBranch(hash: Header -> H256, hs: Headers, h: H256, x: H256)
    requires Chained(hash, hs) && h in hs
  {
    x in hs && hs[x].number <= hs[h].number && x == Ancestor(hash, hs, h, hs[x].number)
  }

  lemma {:induction false} AncestorSteps(hash: Header -> H256, hs: Headers, h: H256, k: nat)
    requires Chained(hash, hs) && h in hs && 0 < k <= hs[h].number
    ensures hs[Ancestor(hash, hs, h, k)].parent == Ancestor(hash, hs, h, k - 1)
    decreases hs[h].number
  {
    assert Sits(hash, hs, h);
    if k < hs[h].number {
      AncestorSteps(hash, hs, hs[h].parent, k);
    }
  }

  /** The branch that ends in `h`: as a numbering and as headers. */
  ghost function Numbering(hash: Header -> H256, hs: Headers, h: H256): map<nat, H256>
    requires Chained(hash, hs) && h in hs
  {
    map k: nat | k <= hs[h].number :: Ancestor(hash, hs, h, k)
  }

  ghost function Branch(hash: Header -> H256, hs: Headers, h: H256): Headers
    requires Chained(hash, hs) && h in hs
  {
    map x | x in hs && OnBranch(hash, hs, h, x) :: hs[x]
  }

  /** Parents are lower. Headers may be missing from `storage`; a parent chain cannot run in a
      circle, since every header holds its parent's hash. */
  ghost predicate Descending(storage: Headers) {
    forall h :: h in storage && storage[h].number > 0 && storage[h].parent in storage ==>
      storage[storage[h].parent].number < storage[h].number
  }

  /** The headers from `h` down that are reached without a gap. */
  ghost function Line(storage: Headers, h: H256): seq<H256>
    requires Descending(storage)
    decreases if h in storage then storage[h].number + 1 else 0
  {
    if h !in storage then []
    else if storage[h].number == 0 then [h]
    else [h] + Line(storage, storage[h].parent)
  }

  /** Exactly the headers of `line` are held, each numbered by its own height. */
  ghost predicate Loaded(storage: Headers, line: seq<H256>, hs: Headers, canonical: map<nat, H256>) {
    && (forall x :: x in hs <==> x in line)
    && (forall x :: x in hs ==> Copied(storage, hs, canonical, x))
    && (forall k :: k in canonical ==> canonical[k] in hs && hs[canonical[k]].number == k)
  }

  ghost predicate Copied(storage: Headers, hs: Headers, canonical: map<nat, H256>, x: H256)
    requires x in hs
  {
    x in storage && hs[x] == storage[x] && hs[x].number in canonical && canonical[hs[x].number] == x
  }

  ghost predicate Above(storage: Headers, hs: Headers, h: H256) {
    h in storage ==> forall x :: x in hs ==> storage[h].number < hs[x].number
  }

  /** What resuming comes to: a chain not begun when the stored head is missing, and otherwise one
      that holds the gapless line below it, with validators elected for its epoch. */
  ghost predicate ResumesTo(storage: Headers, storedHead: Option<H256>, epochLength: Length, finalized: nat,
                            elected: Validators, c: ChainState)
    requires Descending(storage)
  {
    if storedHead.None? || storedHead.value !in storage then c == Empty(epochLength, finalized)
    else
      && Loaded(storage, Line(storage, storedHead.value), c.headers, c.canonical)
      && c.head == storedHead && c.finalized == finalized && c.checkpoint == None && c.epochLength == epochLength
      && c.active == ValidatorSet(Election.EpochOf(storage[storedHead.value].number, epochLength), elected)
  }

  lemma LoadOne(storage: Headers, line: seq<H256>, hs: Headers, canonical: map<nat, H256>, h: H256)
    requires Loaded(storage, line, hs, canonical) && Above(storage, hs, h) && h in storage
    ensures Loaded(storage, line + [h], hs[h := storage[h]], canonical[storage[h].number := h])
  {
    var hs', canonical' := hs[h := storage[h]], canonical[storage[h].number := h];
    forall x | x in hs' ensures Copied(storage, hs', canonical', x) {
      assert x != h ==> Copied(storage, hs, canonical, x);
    }
  }

  /** Resuming keeps exactly the branch of the stored head. */
  ghost function Resumed(hash: Header -> H256, storage: Headers, storedHead: Option<H256>,
                         epochLength: Length, finalized: nat, elected: Validators): ChainState
    requires Chained(hash, storage)
  {
    if storedHead.None? || storedHead.value !in storage then Empty(epochLength, finalized)
    else
      var h := storedHead.value;
      ChainState(Branch(hash, storage, h), Numbering(hash, storage, h), Some(h), finalized, None,
                 epochLength, ValidatorSet(Election.EpochOf(storage[h].number, epochLength), elected))
  }

  /** What imports have stored can always be walked. */
  lemma ChainedDescends(hash: Header -> H256, storage: Headers)
    requires Chained(hash, storage)
    ensures Descending(storage)
  {
    forall h | h in storage && storage[h].number > 0 && storage[h].parent in storage
      ensures storage[storage[h].parent].number < storage[h].number
    {
      assert Sits(hash, storage, h);
    }
  }

  lemma {:induction false} LineIsBranch(hash: Header -> H256, storage: Headers, h: H256, x: H256)
    requires Chained(hash, storage) && Descending(storage) && h in storage
    ensures x in Line(storage, h) <==> OnBranch(hash, storage, h, x)
    decreases storage[h].number
  {
    assert Sits(hash, storage, h);
    if storage[h].number > 0 {
      LineIsBranch(hash, storage, storage[h].parent, x);
    }
  }

  lemma LoadedAt(hash: Header -> H256, storage: Headers, top: H256, hs: Headers, canonical: map<nat, H256>, k: nat)
    requires Chained(hash, storage) && Descending(storage) && top in storage && Loaded(storage, Line(storage, top), hs, canonical)
    ensures k in canonical <==> k <= storage[top].number
    ensures k in canonical ==> canonical[k] == Ancestor(hash, storage, top, k)
  {
    if k <= storage[top].number {
      var a := Ancestor(hash, storage, top, k);
      LineIsBranch(hash, storage, top, a);
      assert Copied(storage, hs, canonical, a);
    } else if k in canonical {
      LineIsBranch(hash, storage, top, canonical[k]);
    }
  }

  /** Where every header has its parent, what is loaded is the branch of the stored head. */
  lemma LoadedIsBranch(hash: Header -> H256, storage: Headers, top: H256, hs: Headers, canonical: map<nat, H256>)
    requires Chained(hash, storage) && Descending(storage) && top in storage && Loaded(storage, Line(storage, top), hs, canonical)
    ensures hs == Branch(hash, storage, top) && canonical == Numbering(hash, storage, top)
  {
    LoadedHeaders(hash, storage, top, hs, canonical);
    forall k: nat ensures k in canonical <==> k <= storage[top].number {
      LoadedAt(hash, storage, top, hs, canonical, k);
    }
    forall k: nat | k in canonical ensures canonical[k] == Ancestor(hash, storage, top, k) {
      LoadedAt(hash, storage, top, hs, canonical, k);
    }
  }

  lemma LoadedHeaders(hash: Header -> H256, storage: Headers, top: H256, hs: Headers, canonical: map<nat, H256>)
    requires Chained(hash, storage) && Descending(storage) && top in storage && Loaded(storage, Line(storage, top), hs, canonical)
    ensures hs == Branch(hash, storage, top)
  {
    forall x ensures x in hs <==> x in Branch(hash, storage, top) {
      LineIsBranch(hash, storage, top, x);
    }
    forall x | x in hs ensures hs[x] == storage[x] {
      assert Copied(storage, hs, canonical, x);
    }
  }

  lemma ResumesToBranch(hash: Header -> H256, storage: Headers, storedHead: Option<H256>, epochLength: Length,
                        finalized: nat, elected: Validators, c: ChainState)
    requires Chained(hash, storage) && Descending(storage) && ResumesTo(storage, storedHead, epochLength, finalized, elected, c)
    ensures c == Resumed(hash, storage, storedHead, epochLength, finalized, elected)
  {
    if storedHead.Some? && storedHead.value in storage {
      LoadedIsBranch(hash, storage, storedHead.value, c.headers, c.canonical);
    }
  }

  // ----- the chain as the node holds it

  class Blockchain {
    const hash: Header -> H256
    const epochLength: Length
    var headers: Headers
    var canonical: map<nat, H256>
    var head: Option<H256>
    var finalized: nat
    var checkpoint: Option<(nat, H256)>
    var active: ValidatorSet

    constructor (hash: Header -> H256, epochLength: Length, finalized: nat)
      ensures View() == Empty(epochLength, finalized) && this.hash == hash
    {
      this.hash := hash;
      this.epochLength := epochLength;
      this.finalized := finalized;
      headers, canonical, head, checkpoint := map[], map[], None, None;
      active := ValidatorSet(0, []);
    }

    ghost function View(): ChainState
      reads this
    {
      ChainState(headers, canonical, head, finalized, checkpoint, epochLength, active)
    }

    /** `elected` are the validators the genesis state elects. */
    method InitGenesis(b: Header, elected: Validators) returns (r: Result<H256, ChainError>)
      modifies this
      ensures match Genesis(hash, old(View()), b, elected)
              case Ok(c) => View() == c && r == Ok(c.head.value)
              case Err(e) => View() == old(View()) && r == Err(e)
    {
      var h := hash(b);
      if head.Some? {
        if 0 in canonical && canonical[0] == h {
          return Ok(head.value);
        }
        return Err(GenesisAlreadySet);
      }
      active := ValidatorSet(0, elected);
      headers := headers[h := b];
      canonical := canonical[0 := h];
      head := Some(h);
      return Ok(h);
    }

    method VerifyHeader(b: Header, parent: Header) returns (e: Option<ChainError>)
      ensures e == HeaderFault(hash, epochLength, active, b, parent)
    {
      if b.number != parent.number + 1 {
        return Some(WrongBlockNumber);
      }
      if b.parent != hash(parent) {
        return Some(WrongParentHash);
      }
      if b.timestamp <= parent.timestamp {
        return Some(InvalidTimestamp);
      }
      var leader := Election.SlotLeader(active.validators, Election.SlotOf(b.number, epochLength));
      if leader.None? {
        return Some(EmptyValidatorSet);
      }
      if b.validator != leader.value.address {
        return Some(WrongProducer);
      }
      if b.epoch != Election.EpochOf(b.number, epochLength) || b.slot != Election.SlotOf(b.number, epochLength) {
        return Some(WrongBlockNumber);
      }
      return None;
    }

    method ScreenBlock(b: Header, ctx: Context) returns (e: Option<ChainError>)
      ensures e == EarlyRefusal(hash, View(), b, ctx)
    {
      if hash(b) in headers {
        return Some(BlockAlreadyKnown);
      }
      if b.parent !in headers {
        return Some(UnknownParent);
      }
      var parent := headers[b.parent];
      if finalized > 0 && parent.number < finalized {
        return Some(RevertsPastFinalized);
      }
      if checkpoint.Some? {
        var (n, expected) := checkpoint.value;
        if b.number >= n && n in canonical && canonical[n] != expected {
          return Some(WeakSubjectivityViolation);
        }
      }
      if b.timestamp <= parent.timestamp {
        return Some(InvalidTimestamp);
      }
      if ctx.now > 0 && b.timestamp > ctx.now + MAX_FUTURE_DRIFT_MS {
        return Some(TimestampTooFarInFuture);
      }
      if b.transactionsRoot != ctx.transactionsRoot {
        return Some(InvalidTransactionsRoot);
      }
      return None;
    }

    /** Returns whether the block became the head. */
    method ImportBlock(b: Header, ctx: Context) returns (r: Result<bool, ChainError>)
      modifies this
      ensures View() == Import(hash, old(View()), b, ctx).0
      ensures r == match Refusal(hash, old(View()), b, ctx) case None => Ok(Wins(hash, old(View()), b)) case Some(e) => Err(e)
    {
      var e := ScreenBlock(b, ctx);
      if e.Some? {
        return Err(e.value);
      }
      var before := active;
      var epoch := Election.EpochOf(b.number, epochLength);
      if epoch > active.epoch {
        active := ValidatorSet(epoch, ctx.elected);
      }
      e := VerifyHeader(b, headers[b.parent]);
      if e.Some? {
        return Err(e.value);
      }
      if b.stateRoot != ctx.stateRoot {
        active := before;
        return Err(InvalidStateRoot);
      }
      var h := hash(b);
      headers := headers[h := b];
      var won := WinsForkChoice(b, h);
      if won {
        canonical := canonical[b.number := h];
        head := Some(h);
      }
      return Ok(won);
    }

    method WinsForkChoice(b: Header, h: H256) returns (won: bool)
      ensures won == IsNewHead(View(), b, h)
    {
      if head.None? || head.value !in headers {
        return true;
      }
      var current := headers[head.value];
      return b.number > current.number || (b.number == current.number && h < head.value);
    }

    method SetFinalizedBlock(number: nat)
      modifies this`finalized
      ensures View() == SetFinalized(old(View()), number)
    {
      if number > finalized {
        finalized := number;
      }
    }

    method SetCheckpoint(number: nat, expected: H256)
      modifies this`checkpoint
      ensures View() == old(View()).(checkpoint := Some((number, expected)))
    {
      checkpoint := Some((number, expected));
    }

    /** Walks back from the stored head, takes in what it meets, and elects from the state: `elected`
        are the validators that makes. */
    method ResumeFromStorage(storage: Headers, storedHead: Option<H256>, elected: Validators)
      requires View() == Empty(epochLength, finalized) && Descending(storage)
      modifies this
      ensures ResumesTo(storage, storedHead, epochLength, old(finalized), elected, View())
    {
      if storedHead.None? || storedHead.value !in storage {
        return;
      }
      WalkBack(storage, storedHead.value);
      head := storedHead;
      active := ValidatorSet(Election.EpochOf(headers[storedHead.value].number, epochLength), elected);
    }

    method WalkBack(storage: Headers, top: H256)
      requires headers == map[] && canonical == map[] && Descending(storage)
      modifies this`headers, this`canonical
      ensures Loaded(storage, Line(storage, top), headers, canonical)
    {
      var current := top;
      ghost var line: seq<H256> := [];
      while current in storage
        invariant Loaded(storage, line, headers, canonical) && Above(storage, headers, current)
        invariant line + Line(storage, current) == Line(storage, top)
        decreases if current in storage then storage[current].number + 1 else 0
      {
        var b := storage[current];
        LoadOne(storage, line, headers, canonical, current);
        canonical := canonical[b.number := current];
        headers := headers[current := b];
        line := line + [current];
        if b.number == 0 {
          return;
        }
        current := b.parent;
      }
    }
  }
}
