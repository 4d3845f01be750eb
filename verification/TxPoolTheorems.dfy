/** What admission promises its callers, and what every run of the pool keeps. */
module TxPoolTheorems {
  import opened Primitives
  import opened TxPool
  import opened Ascent

  // ----- a cap of zero

  /** Nothing pending and nothing queued. */
  ghost predicate Bare(p: Pool) {
    p.byHash == map[] && forall s :: QueueOf(p, s) == map[]
  }

  lemma ZeroCapIsBare(hash: Tx -> H256, cfg: Config, p: Pool)
    requires Agree(hash, p) && WithinCaps(cfg, p) && cfg.maxPerAccount == 0
    ensures Bare(p)
  {
    forall s ensures QueueOf(p, s) == map[] {
      assert |QueueOf(p, s)| <= 0;
    }
    forall h ensures h !in p.byHash {
      if h in p.byHash {
        NothingListed(hash, p, h);
        assert false;
      }
    }
  }

  lemma NothingListed(hash: Tx -> H256, p: Pool, h: H256)
    requires h in p.byHash && Listed(hash, p, h)
    ensures exists s :: QueueOf(p, s) != map[]
  {
    assert QueueOf(p, p.byHash[h].sender) != map[];
  }

  lemma BareIsKept(hash: Tx -> H256, cfg: Config, p: Pool)
    requires Bare(p)
    ensures Agree(hash, p) && WithinCaps(cfg, p)
  {
  }

  lemma BareRefuses(hash: Tx -> H256, cfg: Config, p: Pool, tx: Tx, s: Address, accountNonce: nat, now: nat, v1: H256, v2: nat)
    requires Bare(p) && cfg.maxPerAccount == 0 && Victims(hash, cfg, p, tx, s, accountNonce, v1, v2)
    ensures var (r, result) := Admitted(hash, cfg, p, tx, s, accountNonce, now, v1, v2);
            && Bare(r) && r.known == p.known && result.Err?
            && r.bySender == if Screened(hash, cfg, p, tx, accountNonce) && cfg.maxSize > 0 then p.bySender[s := map[]] else p.bySender
  {
    assert QueueOf(p, s) == map[] && Held(p, s) == {};
    var r := Admitted(hash, cfg, p, tx, s, accountNonce, now, v1, v2).0;
    forall x ensures QueueOf(r, x) == map[] {
      assert QueueOf(p, x) == map[];
    }
  }

  /** Admission keeps the indexes inverse and both caps, drops only transactions strictly cheaper
      than the newcomer, and accepted means inserted. No queue is left empty exactly when there
      is any room per account, or the newcomer did not get that far. */
  lemma AdmissionKeeps(hash: Tx -> H256, cfg: Config, p: Pool, tx: Tx, s: Address, accountNonce: nat, now: nat, v1: H256, v2: nat)
    requires Valid(hash, cfg, p) && Victims(hash, cfg, p, tx, s, accountNonce, v1, v2)
    ensures var (r, result) := Admitted(hash, cfg, p, tx, s, accountNonce, now, v1, v2);
            && Agree(hash, r) && WithinCaps(cfg, r) && OnlyCheaperGo(p, r, tx)
            && (result.Ok? ==> TakenIn(hash, cfg, p, r, tx, s, now))
            && (result.Err? ==> r.byHash.Keys <= p.byHash.Keys)
            && (NoEmptyQueue(r) <==> 0 < cfg.maxPerAccount || !Screened(hash, cfg, p, tx, accountNonce) || cfg.maxSize == 0)
  {
    if 0 < cfg.maxPerAccount {
      AdmittedKeeps(hash, cfg, p, tx, s, accountNonce, now, v1, v2);
    } else {
      ZeroCapIsBare(hash, cfg, p);
      BareRefuses(hash, cfg, p, tx, s, accountNonce, now, v1, v2);
      var r := Admitted(hash, cfg, p, tx, s, accountNonce, now, v1, v2).0;
      BareIsKept(hash, cfg, r);
      assert r.bySender != p.bySender ==> s in r.bySender && r.bySender[s] == map[];
    }
  }

  /** Replace-by-fee: a screened transaction that outbids the one at its (sender, nonce) takes
      exactly that one's place, whatever the caps. */
  lemma ReplacementSucceeds(hash: Tx -> H256, cfg: Config, p: Pool, tx: Tx, s: Address, accountNonce: nat, now: nat, v1: H256, v2: nat)
    requires Valid(hash, cfg, p) && Victims(hash, cfg, p, tx, s, accountNonce, v1, v2)
    requires Screened(hash, cfg, p, tx, accountNonce) && tx.nonce in QueueOf(p, s)
    ensures var gone := QueueOf(p, s)[tx.nonce];
            var (r, result) := Admitted(hash, cfg, p, tx, s, accountNonce, now, v1, v2);
            && gone in p.byHash
            && (result.Ok? <==> Price(p, gone) < tx.gasPrice)
            && (result.Ok? ==> r.byHash == (p.byHash - {gone})[hash(tx) := Entry(tx, s, now)])
            && (result.Err? ==> r == p)
  {
    assert Backed(p, s, tx.nonce);
    assert 0 < |QueueOf(p, s)| <= cfg.maxPerAccount;
    if Replaced(p, tx, s).Ok? {
      ReplacedKeeps(hash, cfg, p, tx, s);
    }
  }

  /** There is no room in the pool for this price. */
  ghost predicate NoRoom(cfg: Config, p: Pool, tx: Tx, v1: H256) {
    cfg.maxSize <= |p.byHash| && (p.byHash == map[] || (v1 in p.byHash && tx.gasPrice <= Price(p, v1)))
  }

  /** A refused add leaves the pool as it was exactly when it failed a check or its bid, or found
      no room in the pool, or there was a place free in the pool and some room per account. Else
      it first evicted the cheapest, or left an empty queue. */
  lemma RefusalKeepsIff(hash: Tx -> H256, cfg: Config, p: Pool, tx: Tx, s: Address, accountNonce: nat, now: nat, v1: H256, v2: nat)
    requires Valid(hash, cfg, p) && Victims(hash, cfg, p, tx, s, accountNonce, v1, v2)
    requires Admitted(hash, cfg, p, tx, s, accountNonce, now, v1, v2).1.Err?
    ensures Admitted(hash, cfg, p, tx, s, accountNonce, now, v1, v2).0 == p
       <==> !Screened(hash, cfg, p, tx, accountNonce) || tx.nonce in QueueOf(p, s) || NoRoom(cfg, p, tx, v1)
            || (|p.byHash| < cfg.maxSize && 0 < cfg.maxPerAccount)
  {
    if cfg.maxPerAccount == 0 {
      ZeroCapIsBare(hash, cfg, p);
      BareRefuses(hash, cfg, p, tx, s, accountNonce, now, v1, v2);
      assert QueueOf(p, s) == map[] && s !in p.bySender;
    } else if Screened(hash, cfg, p, tx, accountNonce) {
      if tx.nonce in QueueOf(p, s) {
        ReplacementSucceeds(hash, cfg, p, tx, s, accountNonce, now, v1, v2);
      } else if RoomMade(cfg, p, tx, v1).Ok? {
        RoomMadeKeeps(hash, cfg, p, tx, s, v1);
        AccountKeeps(hash, cfg, RoomMade(cfg, p, tx, v1).value, tx, s, v2, now);
        if |p.byHash| >= cfg.maxSize {
          DisplacedKeeps(hash, cfg, p, v1);
        }
      }
    }
  }

  /** That exception: the add fails and another sender's transaction is gone. */
  lemma RefusedAddEvicts(hash: Tx -> H256, cfg: Config, p: Pool, tx: Tx, s: Address, accountNonce: nat, now: nat, v1: H256, v2: nat)
    requires Valid(hash, cfg, p) && 0 < cfg.maxPerAccount && Victims(hash, cfg, p, tx, s, accountNonce, v1, v2)
    requires Screened(hash, cfg, p, tx, accountNonce) && tx.nonce !in QueueOf(p, s)
    requires |p.byHash| == cfg.maxSize && |QueueOf(p, s)| == cfg.maxPerAccount
    requires v1 in p.byHash && p.byHash[v1].sender != s && Price(p, v1) < tx.gasPrice
    requires forall n :: n in Held(p, s) ==> tx.gasPrice <= Price(p, QueueOf(p, s)[n])
    ensures var (r, result) := Admitted(hash, cfg, p, tx, s, accountNonce, now, v1, v2);
            result == Err(PoolFull) && v1 !in r.byHash && hash(tx) !in r.byHash
  {
    var p2 := Displaced(p, v1);
    DisplacedKeeps(hash, cfg, p, v1);
    assert QueueOf(p2, s) == QueueOf(p, s);
    UnknownAbsent(hash, p, hash(tx));
    forall n | n in Held(p2, s) ensures tx.gasPrice <= Price(p2, QueueOf(p2, s)[n]) {
      assert n in Held(p, s);
    }
  }

  /** Two places, one per account: senders 10 and 20 hold them at prices 5 and 9. */
  const TWO_PLACES := Config(2, 1, 0, 0)
  const EMPTY := Pool(map[], map[], {})
  const HALF := Inserted(EMPTY, 1, Entry(Tx(0, 5, 1), 10, 0))
  const FULL := Inserted(HALF, 2, Entry(Tx(0, 9, 2), 20, 0))

  function ByBody(): Tx -> H256 {
    (tx: Tx) => tx.body
  }

  lemma FullIsValid()
    ensures Valid(ByBody(), TWO_PLACES, FULL)
  {
    assert forall s :: QueueOf(EMPTY, s) == map[];
    InsertedKeeps(ByBody(), TWO_PLACES, EMPTY, 1, Entry(Tx(0, 5, 1), 10, 0));
    assert QueueOf(HALF, 20) == map[];
    InsertedKeeps(ByBody(), TWO_PLACES, HALF, 2, Entry(Tx(0, 9, 2), 20, 0));
  }

  lemma FullIs()
    ensures FULL.byHash == map[1 := Entry(Tx(0, 5, 1), 10, 0), 2 := Entry(Tx(0, 9, 2), 20, 0)]
    ensures QueueOf(FULL, 20) == map[0 := 2] && Cheapest(FULL, 1)
  {
  }

  lemma FullVictims()
    ensures Victims(ByBody(), TWO_PLACES, FULL, Tx(1, 7, 3), 20, 1, 1, 0)
  {
    FullIs();
    var p := Displaced(FULL, 1);
    assert QueueOf(p, 20) == map[0 := 2];
    assert CheapestOf(p, 20, 0);
  }

  /** Sender 20 offers a second transaction at 7: it is refused, and sender 10's is gone. */
  lemma RefusedAddEvictsExample()
    ensures Victims(ByBody(), TWO_PLACES, FULL, Tx(1, 7, 3), 20, 1, 1, 0)
    ensures var (r, result) := Admitted(ByBody(), TWO_PLACES, FULL, Tx(1, 7, 3), 20, 1, 0, 1, 0);
            result == Err(PoolFull) && 1 in FULL.byHash && 1 !in r.byHash
  {
    FullIs();
    FullIsValid();
    FullVictims();
    RefusedAddEvicts(ByBody(), TWO_PLACES, FULL, Tx(1, 7, 3), 20, 1, 0, 1, 0);
  }

  /** With no room per account at all, a refused add leaves an empty queue behind. */
  lemma NoRoomLeavesEmptyQueue(hash: Tx -> H256, cfg: Config, tx: Tx, s: Address, accountNonce: nat, now: nat, v1: H256, v2: nat)
    requires cfg.maxPerAccount == 0 && 0 < cfg.maxSize
    requires Screened(hash, cfg, EMPTY, tx, accountNonce)
    ensures Victims(hash, cfg, EMPTY, tx, s, accountNonce, v1, v2)
    ensures var (r, result) := Admitted(hash, cfg, EMPTY, tx, s, accountNonce, now, v1, v2);
            result == Err(PoolFull) && r.bySender == map[s := map[]] && !NoEmptyQueue(r)
  {
    var p := EMPTY;
    assert QueueOf(p, s) == map[] && Held(p, s) == {};
    var r := Admitted(hash, cfg, p, tx, s, accountNonce, now, v1, v2).0;
    assert s in r.bySender;
  }

  // ----- clearing

  /** `r` is `p` without the transactions in `gone`, in both indexes. */
  ghost predicate Cleared(p: Pool, r: Pool, gone: set<H256>) {
    && r.byHash == p.byHash - gone && r.known == p.known
    && (forall s, n :: Slot(r, s, n) == if Slot(p, s, n).Some? && Slot(p, s, n).value in gone then None else Slot(p, s, n))
    && (NoEmptyQueue(p) ==> NoEmptyQueue(r))
  }

  lemma SmallerMap<K, V>(m: map<K, V>, m': map<K, V>)
    requires m'.Keys <= m.Keys
    ensures |m'| <= |m|
  {
    SubsetSize(m'.Keys, m.Keys);
    assert |m.Keys| == |m| && |m'.Keys| == |m'|;
  }

  lemma ClearedAgrees(hash: Tx -> H256, p: Pool, r: Pool, gone: set<H256>)
    requires Agree(hash, p) && Cleared(p, r, gone)
    ensures Agree(hash, r)
  {
    forall k | k in r.byHash ensures Listed(hash, r, k) {
      assert Listed(hash, p, k);
    }
    forall s, n ensures Backed(r, s, n) {
      assert Backed(p, s, n);
    }
  }

  lemma ClearedKeeps(hash: Tx -> H256, cfg: Config, p: Pool, r: Pool, gone: set<H256>)
    requires Valid(hash, cfg, p) && Cleared(p, r, gone)
    ensures Valid(hash, cfg, r)
  {
    ClearedAgrees(hash, p, r, gone);
    SmallerMap(p.byHash, r.byHash);
    forall s ensures |QueueOf(r, s)| <= cfg.maxPerAccount {
      forall n | n in QueueOf(r, s) ensures n in QueueOf(p, s) {
        assert Slot(r, s, n).Some?;
      }
      SmallerMap(QueueOf(p, s), QueueOf(r, s));
    }
  }

  lemma RemovedClears(hash: Tx -> H256, p: Pool, h: H256)
    requires Agree(hash, p)
    ensures Cleared(p, Removed(p, h), {h})
  {
    if h in p.byHash {
      RemovedIsWithout(hash, p, h);
      if NoEmptyQueue(p) {
        RemovedNoEmpty(p, h);
      }
      assert Listed(hash, p, h);
      forall s, n ensures Slot(p, s, n) == Some(h) ==> s == p.byHash[h].sender && n == p.byHash[h].tx.nonce {
        assert Backed(p, s, n);
      }
    } else {
      assert p.byHash - {h} == p.byHash;
      forall s, n ensures Slot(p, s, n) != Some(h) {
        assert Backed(p, s, n);
      }
    }
  }

  lemma ClearedMore(p: Pool, q: Pool, r: Pool, gone: set<H256>, h: H256)
    requires Cleared(p, q, gone) && Cleared(q, r, {h})
    ensures Cleared(p, r, gone + {h})
  {
  }

  /** A pool out of which the transactions in `gone` have been taken so far. */
  ghost predicate Clearing(hash: Tx -> H256, p: Pool, q: Pool, gone: set<H256>) {
    Cleared(p, q, gone) && Agree(hash, q)
  }

  lemma NothingCleared(hash: Tx -> H256, p: Pool)
    requires Agree(hash, p)
    ensures Clearing(hash, p, p, {})
  {
    assert p.byHash - {} == p.byHash;
  }

  lemma ClearOne(hash: Tx -> H256, p: Pool, q: Pool, h: H256, gone: set<H256>)
    requires Clearing(hash, p, q, gone)
    ensures Clearing(hash, p, Removed(q, h), gone + {h})
  {
    RemovedClears(hash, q, h);
    ClearedMore(p, q, Removed(q, h), gone, h);
    ClearedAgrees(hash, q, Removed(q, h), {h});
  }

  lemma NothingCommitted(hash: Tx -> H256, p: Pool, s: Address, nonce: nat)
    requires Agree(hash, p) && s !in p.bySender
    ensures Cleared(p, p, CommittedHashes(p, s, nonce))
  {
    forall h | h in p.byHash ensures p.byHash[h].sender != s {
      assert Listed(hash, p, h);
    }
    assert CommittedHashes(p, s, nonce) == {};
  }

  ghost function HashesAt(q: Queue, ns: set<nat>): set<H256> {
    set n | n in ns && n in q :: q[n]
  }

  lemma CommittedAre(hash: Tx -> H256, p: Pool, s: Address, nonce: nat, gone: set<nat>)
    requires Agree(hash, p) && gone == set n | n in QueueOf(p, s) && n <= nonce
    ensures HashesAt(QueueOf(p, s), gone) == CommittedHashes(p, s, nonce)
  {
    forall h | h in HashesAt(QueueOf(p, s), gone) ensures h in CommittedHashes(p, s, nonce) {
      var n :| n in gone && QueueOf(p, s)[n] == h;
      assert Backed(p, s, n);
    }
    forall h | h in CommittedHashes(p, s, nonce) ensures h in HashesAt(QueueOf(p, s), gone) {
      assert Listed(hash, p, h);
      assert p.byHash[h].tx.nonce in gone;
    }
  }

  lemma CommittedClears(hash: Tx -> H256, p: Pool, r: Pool, s: Address, nonce: nat, gone: set<nat>)
    requires Agree(hash, p) && s in p.bySender && r.known == p.known
    requires gone == set n | n in p.bySender[s] && n <= nonce
    requires r.byHash == p.byHash - HashesAt(p.bySender[s], gone)
    requires r.bySender == WithQueue(p.bySender, s, p.bySender[s] - gone)
    ensures Cleared(p, r, CommittedHashes(p, s, nonce))
  {
    CommittedAre(hash, p, s, nonce, gone);
    assert QueueOf(r, s) == QueueOf(p, s) - gone;
    assert forall x :: x != s ==> QueueOf(r, x) == QueueOf(p, x);
    forall x, n ensures Slot(r, x, n) == if Slot(p, x, n).Some? && Slot(p, x, n).value in CommittedHashes(p, s, nonce) then None else Slot(p, x, n) {
      assert Backed(p, x, n);
    }
  }

  /** The hash index determines the other one. */
  lemma QueuesDetermined(hash: Tx -> H256, p: Pool, q: Pool)
    requires Agree(hash, p) && Agree(hash, q) && NoEmptyQueue(p) && NoEmptyQueue(q) && p.byHash == q.byHash
    ensures p.bySender == q.bySender
  {
    forall s, n ensures Slot(p, s, n) == Slot(q, s, n) {
      if Slot(p, s, n).Some? {
        SlotDetermined(hash, p, q, s, n);
      } else if Slot(q, s, n).Some? {
        SlotDetermined(hash, q, p, s, n);
      }
    }
    forall s ensures QueueOf(p, s) == QueueOf(q, s) {
      assert forall n :: n in QueueOf(p, s) <==> Slot(p, s, n).Some?;
      assert forall n :: n in QueueOf(q, s) <==> Slot(q, s, n).Some?;
    }
    forall s ensures s in p.bySender <==> s in q.bySender {
      assert QueueOf(p, s) == QueueOf(q, s);
    }
    forall s | s in p.bySender ensures p.bySender[s] == q.bySender[s] {
      assert QueueOf(p, s) == QueueOf(q, s);
    }
  }

  lemma SlotDetermined(hash: Tx -> H256, p: Pool, q: Pool, s: Address, n: nat)
    requires Agree(hash, p) && Agree(hash, q) && p.byHash == q.byHash && Slot(p, s, n).Some?
    ensures Slot(q, s, n) == Slot(p, s, n)
  {
    assert Backed(p, s, n);
    assert Listed(hash, q, Slot(p, s, n).value);
  }

  // ----- runs

  datatype Op =
    | Add(tx: Tx, sender: Address, accountNonce: nat, now: nat, v1: H256, v2: nat)
    | Remove(h: H256)
    | Commit(sender: Address, nonce: nat)
    | Expire(now: nat)
    | SetMinGasPrice(price: u128)

  datatype State = State(cfg: Config, pool: Pool)

  /** The steps the pool can take. */
  ghost predicate Steps(hash: Tx -> H256, a: State, op: Op, b: State) {
    match op
    case Add(tx, s, accountNonce, now, v1, v2) =>
      Victims(hash, a.cfg, a.pool, tx, s, accountNonce, v1, v2)
      && b == State(a.cfg, Admitted(hash, a.cfg, a.pool, tx, s, accountNonce, now, v1, v2).0)
    case Remove(h) => b == State(a.cfg, Removed(a.pool, h))
    case Commit(s, nonce) => b.cfg == a.cfg && Cleared(a.pool, b.pool, CommittedHashes(a.pool, s, nonce))
    case Expire(now) => b.cfg == a.cfg && Cleared(a.pool, b.pool, ExpiredHashes(a.cfg, a.pool, now))
    case SetMinGasPrice(price) => b == State(a.cfg.(minGasPrice := price), a.pool)
  }

  ghost predicate Run(hash: Tx -> H256, states: seq<State>, ops: seq<Op>) {
    |states| == |ops| + 1 && forall i :: 0 <= i < |ops| ==> Steps(hash, states[i], ops[i], states[i + 1])
  }

  /** The indexes agree within both caps, and no queue is empty where there is any room per
      account; where there is none, nothing is ever pending. */
  ghost predicate Sound(hash: Tx -> H256, a: State) {
    if 0 < a.cfg.maxPerAccount then Valid(hash, a.cfg, a.pool) else Bare(a.pool)
  }

  lemma StepKeepsBare(hash: Tx -> H256, a: State, op: Op, b: State)
    requires Bare(a.pool) && a.cfg.maxPerAccount == 0 && Steps(hash, a, op, b)
    ensures Sound(hash, b)
  {
    match op
    case Add(tx, s, accountNonce, now, v1, v2) =>
      BareRefuses(hash, a.cfg, a.pool, tx, s, accountNonce, now, v1, v2);
    case Remove(h) =>
    case Commit(s, nonce) =>
      ClearedBare(a.pool, b.pool, CommittedHashes(a.pool, s, nonce));
    case Expire(now) =>
      ClearedBare(a.pool, b.pool, ExpiredHashes(a.cfg, a.pool, now));
    case SetMinGasPrice(_) =>
  }

  lemma ClearedBare(p: Pool, r: Pool, gone: set<H256>)
    requires Bare(p) && Cleared(p, r, gone)
    ensures Bare(r)
  {
    forall s ensures QueueOf(r, s) == map[] {
      assert QueueOf(p, s) == map[];
      forall n ensures n !in QueueOf(r, s) {
        assert Slot(p, s, n) == None;
      }
    }
  }

  lemma StepKeeps(hash: Tx -> H256, a: State, op: Op, b: State)
    requires Sound(hash, a) && Steps(hash, a, op, b)
    ensures Sound(hash, b)
  {
    if a.cfg.maxPerAccount == 0 {
      StepKeepsBare(hash, a, op, b);
    } else {
      match op
      case Add(tx, s, accountNonce, now, v1, v2) =>
        AdmittedKeeps(hash, a.cfg, a.pool, tx, s, accountNonce, now, v1, v2);
      case Remove(h) =>
        if h in a.pool.byHash {
          RemovedKeeps(hash, a.cfg, a.pool, h);
        }
      case Commit(s, nonce) =>
        ClearedKeeps(hash, a.cfg, a.pool, b.pool, CommittedHashes(a.pool, s, nonce));
      case Expire(now) =>
        ClearedKeeps(hash, a.cfg, a.pool, b.pool, ExpiredHashes(a.cfg, a.pool, now));
      case SetMinGasPrice(_) =>
    }
  }

  /** Every run from an empty pool keeps the indexes exact inverses and both caps, whatever these
      are, and leaves no queue empty if there is any room per account. */
  lemma RunKeeps(hash: Tx -> H256, states: seq<State>, ops: seq<Op>, k: nat)
    requires Run(hash, states, ops) && states[0].pool == EMPTY && k <= |ops|
    ensures Agree(hash, states[k].pool) && WithinCaps(states[k].cfg, states[k].pool)
    ensures 0 < states[k].cfg.maxPerAccount ==> NoEmptyQueue(states[k].pool)
  {
    assert forall s :: QueueOf(EMPTY, s) == map[];
    RunSound(hash, states, ops, k);
    if states[k].cfg.maxPerAccount == 0 {
      BareIsKept(hash, states[k].cfg, states[k].pool);
    }
  }

  lemma {:induction false} RunSound(hash: Tx -> H256, states: seq<State>, ops: seq<Op>, k: nat)
    requires Run(hash, states, ops) && Sound(hash, states[0]) && k <= |ops|
    ensures Sound(hash, states[k])
    decreases k
  {
    if k > 0 {
      RunSound(hash, states, ops, k - 1);
      var a, op, b := states[k - 1], ops[k - 1], states[k];
      RunStep(hash, states, ops, k - 1);
      StepKeeps(hash, a, op, b);
    }
  }

  lemma RunStep(hash: Tx -> H256, states: seq<State>, ops: seq<Op>, k: nat)
    requires Run(hash, states, ops) && k < |ops|
    ensures Steps(hash, states[k], ops[k], states[k + 1])
  {
  }

  /** Known, and no longer pending: committed, expired or taken out. */
  ghost predicate Retired(a: State, h: H256) {
    h in a.pool.known && h !in a.pool.byHash
  }

  lemma AddKeepsRetired(hash: Tx -> H256, cfg: Config, p: Pool, tx: Tx, s: Address, accountNonce: nat, now: nat, v1: H256, v2: nat, h: H256)
    requires Victims(hash, cfg, p, tx, s, accountNonce, v1, v2) && h in p.known && h !in p.byHash
    ensures var r := Admitted(hash, cfg, p, tx, s, accountNonce, now, v1, v2).0;
            h in r.known && h !in r.byHash
  {
    if Screened(hash, cfg, p, tx, accountNonce) && Replaced(p, tx, s).Ok? {
      var p1 := Replaced(p, tx, s).value;
      if RoomMade(cfg, p1, tx, v1).Ok? {
        var p2 := RoomMade(cfg, p1, tx, v1).value;
        assert h in p2.known && h !in p2.byHash;
        var (p3, _) := AccountRoomMade(cfg, p2, tx, s, v2);
        assert h in p3.known && h !in p3.byHash;
      }
    }
  }

  /** A transaction that was committed, expired or removed never becomes pending again, in any
      run. */
  lemma {:induction false} NeverReadmitted(hash: Tx -> H256, states: seq<State>, ops: seq<Op>, k: nat, h: H256)
    requires Run(hash, states, ops) && Retired(states[0], h) && k <= |ops|
    ensures Retired(states[k], h)
    decreases k
  {
    if k > 0 {
      NeverReadmitted(hash, states, ops, k - 1, h);
      var a, op := states[k - 1], ops[k - 1];
      assert Steps(hash, a, op, states[k]);
      match op
      case Add(tx, s, accountNonce, now, v1, v2) =>
        AddKeepsRetired(hash, a.cfg, a.pool, tx, s, accountNonce, now, v1, v2, h);
      case _ =>
    }
  }
}
