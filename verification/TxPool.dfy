/** The transaction pool: two indexes and a memory of known hashes, kept in step by admission
    (replace-by-fee, eviction, per-account cap), removal, commit clean-up and expiry. */
module TxPool {
  import opened Primitives
  import opened MapSums

  datatype Tx = Tx(nonce: nat, gasPrice: u128, body: nat)

  datatype Entry = Entry(tx: Tx, sender: Address, insertedAt: nat)

  datatype Config = Config(maxSize: nat, maxPerAccount: nat, minGasPrice: u128, ttl: nat)

  type Queue = map<nat, H256>

  datatype Pool = Pool(byHash: map<H256, Entry>, bySender: map<Address, Queue>, known: set<H256>)

  datatype TxPoolError = AlreadyExists | PoolFull | GasPriceTooLow | NonceTooLow

  function Price(p: Pool, h: H256): u128
    requires h in p.byHash
  {
    p.byHash[h].tx.gasPrice
  }

  function QueueOf(p: Pool, s: Address): Queue {
    if s in p.bySender then p.bySender[s] else map[]
  }

  // ----- removal

  /** A sender's queue is written back, or dropped once it is empty. */
  function WithQueue(qs: map<Address, Queue>, s: Address, q: Queue): map<Address, Queue> {
    if q == map[] then qs - {s} else qs[s := q]
  }

  /** Out of both indexes, still known. */
  function Removed(p: Pool, h: H256): Pool {
    if h !in p.byHash then p
    else
      var e := p.byHash[h];
      Pool(p.byHash - {h},
           if e.sender in p.bySender then WithQueue(p.bySender, e.sender, p.bySender[e.sender] - {e.tx.nonce}) else p.bySender,
           p.known)
  }

  /** Out of both indexes and forgotten, so it may come back. */
  function Displaced(p: Pool, h: H256): Pool {
    var r := Removed(p, h);
    Pool(r.byHash, r.bySender, p.known - {h})
  }

  // ----- admission

  function Replaced(p: Pool, tx: Tx, sender: Address): Result<Pool, TxPoolError> {
    var q := QueueOf(p, sender);
    if tx.nonce in q && q[tx.nonce] in p.byHash then
      if tx.gasPrice <= Price(p, q[tx.nonce]) then Err(GasPriceTooLow) else Ok(Displaced(p, q[tx.nonce]))
    else Ok(p)
  }

  /** A cheapest transaction of the pool; ties fall either way. */
  ghost predicate Cheapest(p: Pool, v: H256) {
    v in p.byHash && forall k :: k in p.byHash ==> Price(p, v) <= Price(p, k)
  }

  function RoomMade(cfg: Config, p: Pool, tx: Tx, victim: H256): Result<Pool, TxPoolError>
    requires cfg.maxSize <= |p.byHash| && p.byHash != map[] ==> victim in p.byHash
  {
    if |p.byHash| < cfg.maxSize then Ok(p)
    else if p.byHash != map[] && tx.gasPrice > Price(p, victim) then Ok(Displaced(p, victim))
    else Err(PoolFull)
  }

  /** The nonces of a sender whose transactions are in the pool. */
  function Held(p: Pool, s: Address): set<nat> {
    set n | n in QueueOf(p, s) && QueueOf(p, s)[n] in p.byHash
  }

  /** A sender's cheapest transaction, the lowest nonce among ties. */
  ghost predicate CheapestOf(p: Pool, s: Address, n: nat) {
    n in Held(p, s)
    && forall m :: m in Held(p, s) ==>
         var a, b := Price(p, QueueOf(p, s)[n]), Price(p, QueueOf(p, s)[m]);
         a < b || (a == b && n <= m)
  }

  /** The sender's queue is created if missing before its length is looked at. */
  function AccountRoomMade(cfg: Config, p: Pool, tx: Tx, s: Address, victim: nat): (Pool, bool)
    requires cfg.maxPerAccount <= |QueueOf(p, s)| && Held(p, s) != {} ==> victim in Held(p, s)
  {
    var p1 := p.(bySender := p.bySender[s := QueueOf(p, s)]);
    if |QueueOf(p, s)| < cfg.maxPerAccount then (p1, true)
    else if Held(p, s) != {} && tx.gasPrice > Price(p, QueueOf(p, s)[victim])
    then (Displaced(p1, QueueOf(p, s)[victim]), true)
    else (p1, false)
  }

  function Inserted(p: Pool, h: H256, e: Entry): Pool {
    Pool(p.byHash[h := e], p.bySender[e.sender := QueueOf(p, e.sender)[e.tx.nonce := h]], p.known + {h})
  }

  /** Past the first three checks. */
  predicate Screened(hash: Tx -> H256, cfg: Config, p: Pool, tx: Tx, accountNonce: nat) {
    hash(tx) !in p.known && cfg.minGasPrice <= tx.gasPrice && accountNonce <= tx.nonce
  }

  /** `v1` and `v2` settle which of the cheapest goes. */
  ghost predicate Victims(hash: Tx -> H256, cfg: Config, p: Pool, tx: Tx, s: Address, accountNonce: nat, v1: H256, v2: nat) {
    Screened(hash, cfg, p, tx, accountNonce) ==>
    match Replaced(p, tx, s)
    case Err(_) => true
    case Ok(p1) =>
      (cfg.maxSize <= |p1.byHash| && p1.byHash != map[] ==> Cheapest(p1, v1))
      && match RoomMade(cfg, p1, tx, v1)
         case Err(_) => true
         case Ok(p2) => cfg.maxPerAccount <= |QueueOf(p2, s)| && Held(p2, s) != {} ==> CheapestOf(p2, s, v2)
  }

  ghost function Admitted(hash: Tx -> H256, cfg: Config, p: Pool, tx: Tx, s: Address, accountNonce: nat, now: nat, v1: H256, v2: nat):
    (Pool, Result<H256, TxPoolError>)
    requires Victims(hash, cfg, p, tx, s, accountNonce, v1, v2)
  {
    var h := hash(tx);
    if h in p.known then (p, Err(AlreadyExists))
    else if tx.gasPrice < cfg.minGasPrice then (p, Err(GasPriceTooLow))
    else if tx.nonce < accountNonce then (p, Err(NonceTooLow))
    else
      match Replaced(p, tx, s)
      case Err(e) => (p, Err(e))
      case Ok(p1) =>
        match RoomMade(cfg, p1, tx, v1)
        case Err(e) => (p1, Err(e))
        case Ok(p2) =>
          var (p3, ok) := AccountRoomMade(cfg, p2, tx, s, v2);
          if ok then (Inserted(p3, h, Entry(tx, s, now)), Ok(h)) else (p3, Err(PoolFull))
  }

  // ----- commit and expiry

  /** A sender's transactions up to a committed nonce. */
  ghost function CommittedHashes(p: Pool, s: Address, nonce: nat): set<H256> {
    set h | h in p.byHash && p.byHash[h].sender == s && p.byHash[h].tx.nonce <= nonce
  }

  ghost function ExpiredHashes(cfg: Config, p: Pool, now: nat): set<H256> {
    if cfg.ttl == 0 then {} else set h | h in p.byHash && p.byHash[h].insertedAt + cfg.ttl < now
  }

  // ----- the indexes agree

  ghost function Slot(p: Pool, s: Address, n: nat): Option<H256> {
    if n in QueueOf(p, s) then Some(QueueOf(p, s)[n]) else None
  }

  ghost predicate Listed(hash: Tx -> H256, p: Pool, h: H256)
    requires h in p.byHash
  {
    Slot(p, p.byHash[h].sender, p.byHash[h].tx.nonce) == Some(h) && hash(p.byHash[h].tx) == h && h in p.known
  }

  ghost predicate Backed(p: Pool, s: Address, n: nat) {
    match Slot(p, s, n)
    case Some(h) => h in p.byHash && p.byHash[h].sender == s && p.byHash[h].tx.nonce == n
    case None => true
  }

  ghost predicate Agree(hash: Tx -> H256, p: Pool) {
    && (forall h :: h in p.byHash ==> Listed(hash, p, h))
    && (forall s, n :: Backed(p, s, n))
  }

  ghost predicate NoEmptyQueue(p: Pool) {
    forall s :: s in p.bySender ==> p.bySender[s] != map[]
  }

  ghost predicate WithinCaps(cfg: Config, p: Pool) {
    |p.byHash| <= cfg.maxSize && forall s :: |QueueOf(p, s)| <= cfg.maxPerAccount
  }

  ghost predicate Valid(hash: Tx -> H256, cfg: Config, p: Pool) {
    Agree(hash, p) && NoEmptyQueue(p) && WithinCaps(cfg, p)
  }

  lemma PlusOne<K, V>(m: map<K, V>, k: K, v: V)
    ensures |m[k := v]| == |m| + if k in m then 0 else 1
  {
    assert m[k := v].Keys == m.Keys + {k};
    assert |m.Keys| == |m| && |m[k := v].Keys| == |m[k := v]|;
    assert k !in m ==> |m.Keys + {k}| == |m.Keys| + 1;
    assert k in m ==> m.Keys + {k} == m.Keys;
  }

  /** `r` is `p` without `h`. */
  ghost predicate Without(p: Pool, r: Pool, h: H256)
    requires h in p.byHash
  {
    && r.byHash == p.byHash - {h}
    && (forall s, n :: Slot(r, s, n) == if s == p.byHash[h].sender && n == p.byHash[h].tx.nonce then None else Slot(p, s, n))
    && (forall s :: s != p.byHash[h].sender ==> QueueOf(r, s) == QueueOf(p, s))
    && |QueueOf(r, p.byHash[h].sender)| == |QueueOf(p, p.byHash[h].sender)| - 1
  }

  lemma RemovedQueues(hash: Tx -> H256, p: Pool, h: H256)
    requires Agree(hash, p) && h in p.byHash
    ensures var e := p.byHash[h];
            && QueueOf(Removed(p, h), e.sender) == QueueOf(p, e.sender) - {e.tx.nonce}
            && forall s :: s != e.sender ==> QueueOf(Removed(p, h), s) == QueueOf(p, s)
  {
    assert Listed(hash, p, h);
  }

  lemma QueuesGiveWithout(hash: Tx -> H256, p: Pool, r: Pool, h: H256)
    requires Agree(hash, p) && h in p.byHash && r.byHash == p.byHash - {h}
    requires QueueOf(r, p.byHash[h].sender) == QueueOf(p, p.byHash[h].sender) - {p.byHash[h].tx.nonce}
    requires forall s :: s != p.byHash[h].sender ==> QueueOf(r, s) == QueueOf(p, s)
    ensures Without(p, r, h)
  {
    assert Listed(hash, p, h);
    SizeDrops(QueueOf(p, p.byHash[h].sender), p.byHash[h].tx.nonce);
  }

  lemma RemovedIsWithout(hash: Tx -> H256, p: Pool, h: H256)
    requires Agree(hash, p) && h in p.byHash
    ensures Without(p, Removed(p, h), h) && Without(p, Displaced(p, h), h)
  {
    RemovedQueues(hash, p, h);
    QueuesGiveWithout(hash, p, Removed(p, h), h);
    assert forall s :: QueueOf(Displaced(p, h), s) == QueueOf(Removed(p, h), s);
    QueuesGiveWithout(hash, p, Displaced(p, h), h);
  }

  lemma OneSlot(hash: Tx -> H256, p: Pool, s: Address, n: nat, h: H256)
    requires Agree(hash, p) && h in p.byHash
    ensures Slot(p, s, n) == Some(h) <==> s == p.byHash[h].sender && n == p.byHash[h].tx.nonce
  {
    assert Listed(hash, p, h) && Backed(p, s, n);
  }

  lemma WithoutAgrees(hash: Tx -> H256, p: Pool, r: Pool, h: H256)
    requires Agree(hash, p) && h in p.byHash && Without(p, r, h) && p.known - {h} <= r.known
    ensures Agree(hash, r)
  {
    forall k | k in r.byHash ensures Listed(hash, r, k) {
      assert Listed(hash, p, k);
      OneSlot(hash, p, p.byHash[k].sender, p.byHash[k].tx.nonce, h);
    }
    forall s, n ensures Backed(r, s, n) {
      assert Backed(p, s, n);
      OneSlot(hash, p, s, n, h);
    }
  }

  lemma RemovedNoEmpty(p: Pool, h: H256)
    requires NoEmptyQueue(p)
    ensures NoEmptyQueue(Removed(p, h)) && NoEmptyQueue(Displaced(p, h))
  {
  }

  lemma WithoutKeeps(hash: Tx -> H256, cfg: Config, p: Pool, r: Pool, h: H256)
    requires Valid(hash, cfg, p) && h in p.byHash && Without(p, r, h) && p.known - {h} <= r.known && NoEmptyQueue(r)
    ensures Valid(hash, cfg, r) && |r.byHash| == |p.byHash| - 1
  {
    SizeDrops(p.byHash, h);
    WithoutAgrees(hash, p, r, h);
  }

  lemma RemovedKeeps(hash: Tx -> H256, cfg: Config, p: Pool, h: H256)
    requires Valid(hash, cfg, p) && h in p.byHash
    ensures Valid(hash, cfg, Removed(p, h)) && |Removed(p, h).byHash| == |p.byHash| - 1
  {
    RemovedIsWithout(hash, p, h);
    RemovedNoEmpty(p, h);
    WithoutKeeps(hash, cfg, p, Removed(p, h), h);
  }

  lemma DisplacedKeeps(hash: Tx -> H256, cfg: Config, p: Pool, h: H256)
    requires Valid(hash, cfg, p) && h in p.byHash
    ensures Valid(hash, cfg, Displaced(p, h)) && Without(p, Displaced(p, h), h)
    ensures |Displaced(p, h).byHash| == |p.byHash| - 1
  {
    RemovedIsWithout(hash, p, h);
    RemovedNoEmpty(p, h);
    WithoutKeeps(hash, cfg, p, Displaced(p, h), h);
  }

  // ----- admission keeps the pool

  lemma UnknownAbsent(hash: Tx -> H256, p: Pool, h: H256)
    requires Agree(hash, p) && h !in p.known
    ensures h !in p.byHash
  {
    forall k | k in p.byHash ensures k in p.known {
      assert Listed(hash, p, k);
    }
  }

  lemma InsertedQueues(p: Pool, h: H256, e: Entry)
    requires e.tx.nonce !in QueueOf(p, e.sender)
    ensures var r := Inserted(p, h, e);
            && (forall s, n :: Slot(r, s, n) == if s == e.sender && n == e.tx.nonce then Some(h) else Slot(p, s, n))
            && (forall s :: s != e.sender ==> QueueOf(r, s) == QueueOf(p, s))
            && |QueueOf(r, e.sender)| == |QueueOf(p, e.sender)| + 1
  {
    PlusOne(QueueOf(p, e.sender), e.tx.nonce, h);
  }

  lemma InsertedAgrees(hash: Tx -> H256, p: Pool, r: Pool, h: H256, e: Entry)
    requires Agree(hash, p) && h !in p.byHash && h == hash(e.tx)
    requires r.byHash == p.byHash[h := e] && p.known + {h} <= r.known
    requires forall s, n :: Slot(r, s, n) == if s == e.sender && n == e.tx.nonce then Some(h) else Slot(p, s, n)
    requires Slot(p, e.sender, e.tx.nonce) == None
    ensures Agree(hash, r)
  {
    forall k | k in r.byHash ensures Listed(hash, r, k) {
      if k != h {
        assert Listed(hash, p, k);
      }
    }
    forall s, n ensures Backed(r, s, n) {
      assert Backed(p, s, n);
    }
  }

  lemma InsertedKeeps(hash: Tx -> H256, cfg: Config, p: Pool, h: H256, e: Entry)
    requires Valid(hash, cfg, p) && h == hash(e.tx) && h !in p.byHash && e.tx.nonce !in QueueOf(p, e.sender)
    requires |p.byHash| < cfg.maxSize && |QueueOf(p, e.sender)| < cfg.maxPerAccount
    ensures Valid(hash, cfg, Inserted(p, h, e))
  {
    InsertedQueues(p, h, e);
    InsertedAgrees(hash, p, Inserted(p, h, e), h, e);
    PlusOne(p.byHash, h, e);
    var r := Inserted(p, h, e);
    assert r.bySender[e.sender] == QueueOf(r, e.sender);
    assert forall s :: |QueueOf(r, s)| <= cfg.maxPerAccount;
    assert NoEmptyQueue(r);
  }

  /** What is dropped is strictly cheaper than what comes in; all else stays. */
  ghost predicate OnlyCheaperGo(p: Pool, r: Pool, tx: Tx) {
    forall k :: k in p.byHash ==> if k in r.byHash then r.byHash[k] == p.byHash[k] else Price(p, k) < tx.gasPrice
  }

  /** Sound still, having dropped only cheaper transactions. */
  ghost predicate Thinner(hash: Tx -> H256, cfg: Config, p: Pool, r: Pool, tx: Tx) {
    Valid(hash, cfg, r) && OnlyCheaperGo(p, r, tx) && r.known <= p.known && r.byHash.Keys <= p.byHash.Keys
  }

  /** Sound still, having taken in `tx` for only cheaper transactions. */
  ghost predicate TakenIn(hash: Tx -> H256, cfg: Config, p: Pool, r: Pool, tx: Tx, s: Address, now: nat) {
    && Valid(hash, cfg, r) && OnlyCheaperGo(p, r, tx)
    && hash(tx) !in p.byHash && hash(tx) in r.byHash && r.byHash[hash(tx)] == Entry(tx, s, now)
    && r.byHash.Keys <= p.byHash.Keys + {hash(tx)}
  }

  lemma ThinnerThinner(hash: Tx -> H256, cfg: Config, p: Pool, q: Pool, r: Pool, tx: Tx)
    requires Thinner(hash, cfg, p, q, tx) && Thinner(hash, cfg, q, r, tx)
    ensures Thinner(hash, cfg, p, r, tx)
  {
    forall k | k in p.byHash ensures if k in r.byHash then r.byHash[k] == p.byHash[k] else Price(p, k) < tx.gasPrice {
    }
  }

  lemma ThinnerTakenIn(hash: Tx -> H256, cfg: Config, p: Pool, q: Pool, r: Pool, tx: Tx, s: Address, now: nat)
    requires Thinner(hash, cfg, p, q, tx) && TakenIn(hash, cfg, q, r, tx, s, now) && hash(tx) !in p.byHash
    ensures TakenIn(hash, cfg, p, r, tx, s, now)
  {
    forall k | k in p.byHash ensures if k in r.byHash then r.byHash[k] == p.byHash[k] else Price(p, k) < tx.gasPrice {
    }
  }

  lemma ReplacedKeeps(hash: Tx -> H256, cfg: Config, p: Pool, tx: Tx, s: Address)
    requires Valid(hash, cfg, p) && Replaced(p, tx, s).Ok?
    ensures var r := Replaced(p, tx, s).value;
            && Thinner(hash, cfg, p, r, tx) && tx.nonce !in QueueOf(r, s)
            && (tx.nonce in QueueOf(p, s) ==>
                  && QueueOf(p, s)[tx.nonce] in p.byHash && r.byHash == p.byHash - {QueueOf(p, s)[tx.nonce]}
                  && |r.byHash| < cfg.maxSize && |QueueOf(r, s)| < cfg.maxPerAccount)
            && (tx.nonce !in QueueOf(p, s) ==> r == p)
  {
    assert Backed(p, s, tx.nonce);
    if tx.nonce in QueueOf(p, s) {
      var gone := QueueOf(p, s)[tx.nonce];
      DisplacedKeeps(hash, cfg, p, gone);
      assert Slot(Displaced(p, gone), s, tx.nonce) == None;
    }
  }

  lemma RoomMadeKeeps(hash: Tx -> H256, cfg: Config, p: Pool, tx: Tx, s: Address, v: H256)
    requires Valid(hash, cfg, p) && tx.nonce !in QueueOf(p, s)
    requires cfg.maxSize <= |p.byHash| && p.byHash != map[] ==> v in p.byHash
    requires RoomMade(cfg, p, tx, v).Ok?
    ensures var r := RoomMade(cfg, p, tx, v).value;
            Thinner(hash, cfg, p, r, tx) && |r.byHash| < cfg.maxSize && tx.nonce !in QueueOf(r, s)
  {
    if |p.byHash| >= cfg.maxSize {
      DisplacedKeeps(hash, cfg, p, v);
      assert Slot(Displaced(p, v), s, tx.nonce) == None;
    }
  }

  lemma InsertedTaken(hash: Tx -> H256, cfg: Config, p: Pool, tx: Tx, s: Address, now: nat)
    requires Valid(hash, cfg, p) && |p.byHash| < cfg.maxSize && tx.nonce !in QueueOf(p, s) && hash(tx) !in p.known
    requires |QueueOf(p, s)| < cfg.maxPerAccount
    ensures TakenIn(hash, cfg, p, Inserted(p, hash(tx), Entry(tx, s, now)), tx, s, now)
  {
    UnknownAbsent(hash, p, hash(tx));
    InsertedKeeps(hash, cfg, p, hash(tx), Entry(tx, s, now));
  }

  lemma SpareAccount(hash: Tx -> H256, cfg: Config, p: Pool, tx: Tx, s: Address, now: nat)
    requires Valid(hash, cfg, p) && |p.byHash| < cfg.maxSize && tx.nonce !in QueueOf(p, s) && hash(tx) !in p.known
    requires |QueueOf(p, s)| < cfg.maxPerAccount
    ensures var r := Inserted(p.(bySender := p.bySender[s := QueueOf(p, s)]), hash(tx), Entry(tx, s, now));
            TakenIn(hash, cfg, p, r, tx, s, now)
  {
    var e := Entry(tx, s, now);
    var p0 := p.(bySender := p.bySender[s := QueueOf(p, s)]);
    assert p0.bySender[s := QueueOf(p, s)[tx.nonce := hash(tx)]] == p.bySender[s := QueueOf(p, s)[tx.nonce := hash(tx)]];
    assert Inserted(p0, hash(tx), e) == Inserted(p, hash(tx), e);
    InsertedTaken(hash, cfg, p, tx, s, now);
  }

  lemma WithoutThinner(hash: Tx -> H256, cfg: Config, p: Pool, r: Pool, h: H256, tx: Tx)
    requires h in p.byHash && r.byHash == p.byHash - {h} && Price(p, h) < tx.gasPrice
    requires Valid(hash, cfg, r) && r.known <= p.known
    ensures Thinner(hash, cfg, p, r, tx)
  {
  }

  lemma DisplacedOwn(hash: Tx -> H256, cfg: Config, p: Pool, tx: Tx, s: Address, v: nat)
    requires Valid(hash, cfg, p) && tx.nonce !in QueueOf(p, s) && v in Held(p, s)
    requires Price(p, QueueOf(p, s)[v]) < tx.gasPrice
    ensures var r := Displaced(p, QueueOf(p, s)[v]);
            && Thinner(hash, cfg, p, r, tx) && |r.byHash| < |p.byHash|
            && |QueueOf(r, s)| < |QueueOf(p, s)| && tx.nonce !in QueueOf(r, s)
  {
    var gone := QueueOf(p, s)[v];
    assert Backed(p, s, v);
    DisplacedKeeps(hash, cfg, p, gone);
    assert Slot(Displaced(p, gone), s, tx.nonce) == None;
    WithoutThinner(hash, cfg, p, Displaced(p, gone), gone, tx);
  }

  /** Making room in the account and inserting, as one step on a sound pool. */
  lemma AccountKeeps(hash: Tx -> H256, cfg: Config, p: Pool, tx: Tx, s: Address, v: nat, now: nat)
    requires Valid(hash, cfg, p) && |p.byHash| < cfg.maxSize && tx.nonce !in QueueOf(p, s) && hash(tx) !in p.known
    requires 0 < cfg.maxPerAccount && (cfg.maxPerAccount <= |QueueOf(p, s)| && Held(p, s) != {} ==> v in Held(p, s))
    ensures var (p1, ok) := AccountRoomMade(cfg, p, tx, s, v);
            if ok then
              var r := Inserted(p1, hash(tx), Entry(tx, s, now));
              TakenIn(hash, cfg, p, r, tx, s, now)
            else p1 == p
  {
    if |QueueOf(p, s)| < cfg.maxPerAccount {
      SpareAccount(hash, cfg, p, tx, s, now);
    } else {
      assert p.bySender[s := QueueOf(p, s)] == p.bySender;
      assert p.(bySender := p.bySender[s := QueueOf(p, s)]) == p;
      if AccountRoomMade(cfg, p, tx, s, v).1 {
        FullAccount(hash, cfg, p, tx, s, v, now);
      }
    }
  }

  lemma FullAccount(hash: Tx -> H256, cfg: Config, p: Pool, tx: Tx, s: Address, v: nat, now: nat)
    requires Valid(hash, cfg, p) && |p.byHash| < cfg.maxSize && tx.nonce !in QueueOf(p, s) && hash(tx) !in p.known
    requires v in Held(p, s) && Price(p, QueueOf(p, s)[v]) < tx.gasPrice
    ensures var r := Inserted(Displaced(p, QueueOf(p, s)[v]), hash(tx), Entry(tx, s, now));
            TakenIn(hash, cfg, p, r, tx, s, now)
  {
    DisplacedOwn(hash, cfg, p, tx, s, v);
    var r := Displaced(p, QueueOf(p, s)[v]);
    UnknownAbsent(hash, p, hash(tx));
    InsertedTaken(hash, cfg, r, tx, s, now);
    ThinnerTakenIn(hash, cfg, p, r, Inserted(r, hash(tx), Entry(tx, s, now)), tx, s, now);
  }

  lemma LastStepKeeps(hash: Tx -> H256, cfg: Config, p: Pool, q: Pool, tx: Tx, s: Address, v: nat, now: nat)
    requires Thinner(hash, cfg, p, q, tx) && hash(tx) !in p.byHash
    requires Valid(hash, cfg, q) && |q.byHash| < cfg.maxSize && tx.nonce !in QueueOf(q, s) && hash(tx) !in q.known
    requires 0 < cfg.maxPerAccount && (cfg.maxPerAccount <= |QueueOf(q, s)| && Held(q, s) != {} ==> v in Held(q, s))
    ensures var (r, ok) := AccountRoomMade(cfg, q, tx, s, v);
            if ok then TakenIn(hash, cfg, p, Inserted(r, hash(tx), Entry(tx, s, now)), tx, s, now) else Thinner(hash, cfg, p, r, tx)
  {
    AccountKeeps(hash, cfg, q, tx, s, v, now);
    var (r, ok) := AccountRoomMade(cfg, q, tx, s, v);
    if ok {
      ThinnerTakenIn(hash, cfg, p, q, Inserted(r, hash(tx), Entry(tx, s, now)), tx, s, now);
    }
  }

  /** Admission keeps the pool sound and within its caps, drops nothing that pays as much as the
      newcomer, and ends with the newcomer in both indexes exactly when it says so. */
  lemma AdmittedKeeps(hash: Tx -> H256, cfg: Config, p: Pool, tx: Tx, s: Address, accountNonce: nat, now: nat, v1: H256, v2: nat)
    requires Valid(hash, cfg, p) && 0 < cfg.maxPerAccount && Victims(hash, cfg, p, tx, s, accountNonce, v1, v2)
    ensures var (r, result) := Admitted(hash, cfg, p, tx, s, accountNonce, now, v1, v2);
            if result.Ok? then TakenIn(hash, cfg, p, r, tx, s, now) else Thinner(hash, cfg, p, r, tx)
  {
    if Screened(hash, cfg, p, tx, accountNonce) && Replaced(p, tx, s).Ok? {
      var p1 := Replaced(p, tx, s).value;
      UnknownAbsent(hash, p, hash(tx));
      ReplacedKeeps(hash, cfg, p, tx, s);
      if RoomMade(cfg, p1, tx, v1).Ok? {
        var p2 := RoomMade(cfg, p1, tx, v1).value;
        RoomMadeKeeps(hash, cfg, p1, tx, s, v1);
        ThinnerThinner(hash, cfg, p, p1, p2, tx);
        LastStepKeeps(hash, cfg, p, p2, tx, s, v2, now);
      }
    }
  }
}
