/** The pool's operations in place. */
module TxPoolState {
  import opened Primitives
  import opened TxPool
  import opened TxPoolTheorems
  import opened TxSelection
  import opened Ascent

  class TransactionPool {
    const hash: Tx -> H256
    var cfg: Config
    var byHash: map<H256, Entry>
    var bySender: map<Address, Queue>
    var known: set<H256>

    constructor (hash: Tx -> H256, cfg: Config)
      ensures View() == Pool(map[], map[], {}) && this.cfg == cfg && this.hash == hash
    {
      this.hash := hash;
      this.cfg := cfg;
      byHash, bySender, known := map[], map[], {};
    }

    ghost function View(): Pool
      reads this
    {
      Pool(byHash, bySender, known)
    }

    method Remove(h: H256) returns (removed: Option<Tx>)
      modifies this`byHash, this`bySender
      ensures View() == Removed(old(View()), h)
      ensures removed == if h in old(byHash) then Some(old(byHash)[h].tx) else None
    {
      if h !in byHash {
        return None;
      }
      var e := byHash[h];
      byHash := byHash - {h};
      if e.sender in bySender {
        var q := bySender[e.sender] - {e.tx.nonce};
        if q == map[] {
          bySender := bySender - {e.sender};
        } else {
          bySender := bySender[e.sender := q];
        }
      }
      return Some(e.tx);
    }

    method Displace(h: H256)
      modifies this`byHash, this`bySender, this`known
      ensures View() == Displaced(old(View()), h)
    {
      var _ := Remove(h);
      known := known - {h};
    }

    method CheapestTx() returns (v: H256)
      requires byHash != map[]
      ensures Cheapest(View(), v)
    {
      v :| v in byHash;
      var rest := byHash.Keys - {v};
      while rest != {}
        invariant v in byHash && rest <= byHash.Keys
        invariant forall k :: k in byHash && k !in rest ==> Price(View(), v) <= Price(View(), k)
        decreases rest
      {
        var k :| k in rest;
        rest := rest - {k};
        if byHash[k].tx.gasPrice < byHash[v].tx.gasPrice {
          v := k;
        }
      }
    }

    method CheapestOfSender(s: Address, held: set<nat>) returns (n: nat)
      requires held == Held(View(), s) && held != {}
      ensures CheapestOf(View(), s, n)
    {
      var q := bySender[s];
      n :| n in held;
      var rest := held - {n};
      while rest != {}
        invariant n in held && rest <= held
        invariant forall m :: m in held && m !in rest ==>
                    byHash[q[n]].tx.gasPrice < byHash[q[m]].tx.gasPrice || (byHash[q[n]].tx.gasPrice == byHash[q[m]].tx.gasPrice && n <= m)
        decreases rest
      {
        var m :| m in rest;
        rest := rest - {m};
        var a, b := byHash[q[n]].tx.gasPrice, byHash[q[m]].tx.gasPrice;
        if b < a || (b == a && m < n) {
          n := m;
        }
      }
    }

    method ReplaceByFee(tx: Tx, s: Address) returns (ok: bool)
      modifies this`byHash, this`bySender, this`known
      ensures match Replaced(old(View()), tx, s)
              case Ok(p) => ok && View() == p
              case Err(_) => !ok && View() == old(View())
    {
      if s in bySender && tx.nonce in bySender[s] && bySender[s][tx.nonce] in byHash {
        var existing := bySender[s][tx.nonce];
        if tx.gasPrice <= byHash[existing].tx.gasPrice {
          return false;
        }
        Displace(existing);
      }
      return true;
    }

    method MakeRoom(tx: Tx) returns (ok: bool, ghost v: H256)
      modifies this`byHash, this`bySender, this`known
      ensures cfg.maxSize <= |old(byHash)| && old(byHash) != map[] ==> Cheapest(old(View()), v)
      ensures match RoomMade(cfg, old(View()), tx, v)
              case Ok(p) => ok && View() == p
              case Err(_) => !ok && View() == old(View())
    {
      v := 0;
      if |byHash| >= cfg.maxSize {
        if byHash == map[] {
          return false, v;
        }
        var cheapest := CheapestTx();
        v := cheapest;
        if tx.gasPrice <= byHash[cheapest].tx.gasPrice {
          return false, v;
        }
        Displace(cheapest);
      }
      return true, v;
    }

    method MakeAccountRoom(tx: Tx, s: Address) returns (ok: bool, ghost v: nat)
      modifies this`byHash, this`bySender, this`known
      ensures cfg.maxPerAccount <= |QueueOf(old(View()), s)| && Held(old(View()), s) != {} ==> CheapestOf(old(View()), s, v)
      ensures (View(), ok) == AccountRoomMade(cfg, old(View()), tx, s, v)
    {
      v := 0;
      ghost var p := View();
      if s !in bySender {
        bySender := bySender[s := map[]];
      }
      assert bySender == p.bySender[s := QueueOf(p, s)];
      if |bySender[s]| >= cfg.maxPerAccount {
        var held := set n | n in bySender[s] && bySender[s][n] in byHash;
        assert held == Held(p, s) == Held(View(), s);
        if held == {} {
          return false, v;
        }
        var n := CheapestOfSender(s, held);
        v := n;
        assert CheapestOf(p, s, v);
        var cheapest := bySender[s][n];
        if tx.gasPrice <= byHash[cheapest].tx.gasPrice {
          return false, v;
        }
        Displace(cheapest);
      }
      return true, v;
    }

    method Insert(h: H256, e: Entry)
      modifies this`byHash, this`bySender, this`known
      ensures View() == Inserted(old(View()), h, e)
    {
      if e.sender !in bySender {
        bySender := bySender[e.sender := map[]];
      }
      var q: Queue := bySender[e.sender];
      q := q[e.tx.nonce := h];
      bySender := bySender[e.sender := q];
      byHash := byHash[h := e];
      known := known + {h};
    }

    /** `v1` and `v2` report the choices made among equally cheap transactions. */
    method AddTransaction(tx: Tx, s: Address, accountNonce: nat, now: nat)
      returns (r: Result<H256, TxPoolError>, ghost v1: H256, ghost v2: nat)
      modifies this`byHash, this`bySender, this`known
      ensures Victims(hash, cfg, old(View()), tx, s, accountNonce, v1, v2)
      ensures (View(), r) == Admitted(hash, cfg, old(View()), tx, s, accountNonce, now, v1, v2)
    {
      v1, v2 := 0, 0;
      var h := hash(tx);
      if h in known {
        return Err(AlreadyExists), v1, v2;
      }
      if tx.gasPrice < cfg.minGasPrice {
        return Err(GasPriceTooLow), v1, v2;
      }
      if tx.nonce < accountNonce {
        return Err(NonceTooLow), v1, v2;
      }
      var ok := ReplaceByFee(tx, s);
      if !ok {
        return Err(GasPriceTooLow), v1, v2;
      }
      ok, v1 := MakeRoom(tx);
      if !ok {
        return Err(PoolFull), v1, v2;
      }
      ok, v2 := MakeAccountRoom(tx, s);
      if !ok {
        return Err(PoolFull), v1, v2;
      }
      Insert(h, Entry(tx, s, now));
      return Ok(h), v1, v2;
    }

    /** A sender's queue loses its nonces up to the committed one, the hash index their entries. */
    method RemoveCommitted(s: Address, nonce: nat)
      requires Agree(hash, View())
      modifies this`byHash, this`bySender
      ensures Cleared(old(View()), View(), CommittedHashes(old(View()), s, nonce))
    {
      if s !in bySender {
        NothingCommitted(hash, View(), s, nonce);
        return;
      }
      ghost var p := View();
      ghost var q0 := bySender[s];
      var q := bySender[s];
      var rest: set<nat> := set n | n in q && n <= nonce;
      ghost var gone: set<nat> := {};
      while rest != {}
        invariant gone + rest == (set n | n in q0 && n <= nonce) && gone !! rest
        invariant q == q0 - gone
        invariant byHash == p.byHash - HashesAt(q0, gone) && bySender == p.bySender
        decreases rest
      {
        var n :| n in rest;
        rest := rest - {n};
        byHash := byHash - {q[n]};
        assert HashesAt(q0, gone + {n}) == HashesAt(q0, gone) + {q0[n]};
        gone := gone + {n};
        q := q - {n};
      }
      if q == map[] {
        bySender := bySender - {s};
      } else {
        bySender := bySender[s := q];
      }
      assert gone == set n | n in q0 && n <= nonce;
      CommittedClears(hash, p, View(), s, nonce, gone);
    }

    method RemoveAll(hs: set<H256>)
      requires Clearing(hash, View(), View(), {})
      modifies this`byHash, this`bySender
      ensures Clearing(hash, old(View()), View(), hs)
    {
      ghost var p := View();
      var rest := hs;
      ghost var gone: set<H256> := {};
      while rest != {}
        invariant gone + rest == hs
        invariant Clearing(hash, p, View(), gone)
        decreases rest
      {
        var h :| h in rest;
        ClearOne(hash, p, View(), h, gone);
        rest := rest - {h};
        gone := gone + {h};
        var _ := Remove(h);
      }
      assert gone == hs;
    }

    /** Returns how many expired. */
    method EvictExpired(now: nat) returns (count: nat)
      requires Agree(hash, View())
      modifies this`byHash, this`bySender
      ensures Cleared(old(View()), View(), ExpiredHashes(cfg, old(View()), now))
      ensures count == |ExpiredHashes(cfg, old(View()), now)|
    {
      NothingCleared(hash, View());
      if cfg.ttl == 0 {
        return 0;
      }
      var expired := set h | h in byHash && byHash[h].insertedAt + cfg.ttl < now;
      assert expired == ExpiredHashes(cfg, View(), now);
      RemoveAll(expired);
      return |expired|;
    }

    /** `order` reports the order in which the senders were visited. */
    method SelectTransactions(maxCount: nat, nonces: map<Address, nat>) returns (txs: seq<Tx>, ghost order: seq<Address>)
      ensures (forall s :: s in order <==> s in bySender) && Distinct(order)
      ensures var chosen := Cut(ByPrice(Candidates(View(), nonces, order)), maxCount);
              |txs| == |chosen| && forall i :: 0 <= i < |txs| ==> txs[i] == chosen[i].tx
    {
      var sorted;
      sorted, order := GatherSorted(nonces);
      txs := [];
      while |txs| < maxCount && |txs| < |sorted|
        invariant |txs| <= |sorted| && |txs| <= maxCount
        invariant forall i :: 0 <= i < |txs| ==> txs[i] == sorted[i].tx
        decreases |sorted| - |txs|
      {
        txs := txs + [sorted[|txs|].tx];
      }
    }

    method GatherSorted(nonces: map<Address, nat>) returns (sorted: seq<Entry>, ghost order: seq<Address>)
      ensures (forall s :: s in order <==> s in bySender) && Distinct(order)
      ensures sorted == ByPrice(Candidates(View(), nonces, order))
    {
      sorted := [];
      order := [];
      var rest := bySender.Keys;
      while rest != {}
        invariant rest <= bySender.Keys && (forall s :: s in order <==> s in bySender && s !in rest)
        invariant Distinct(order)
        invariant sorted == ByPrice(Candidates(View(), nonces, order))
        decreases rest
      {
        var s :| s in rest;
        rest := rest - {s};
        CandidatesSnoc(View(), nonces, order, s);
        sorted := MergeRun(sorted, s, nonces, Candidates(View(), nonces, order));
        order := order + [s];
      }
    }

    /** Sorts a sender's run into what has been gathered so far. */
    method MergeRun(sorted: seq<Entry>, s: Address, nonces: map<Address, nat>, ghost before: seq<Entry>) returns (merged: seq<Entry>)
      requires s in bySender && sorted == ByPrice(before)
      ensures merged == ByPrice(before + RunOf(View(), nonces, s))
    {
      var q := bySender[s];
      var ns := Ascending(q.Keys);
      var expected := AccountNonce(nonces, s);
      ghost var all, done := before + Collected(byHash, q, ns, expected), before;
      merged := sorted;
      while ns != [] && ns[0] == expected && expected in q
        invariant merged == ByPrice(done)
        invariant done + Collected(byHash, q, ns, expected) == all
        decreases |ns|
      {
        var h := q[expected];
        if h in byHash {
          merged := Placed(merged, byHash[h]);
          ByPriceAppend(done, byHash[h]);
          done := done + [byHash[h]];
        }
        ns := ns[1..];
        expected := expected + 1;
      }
      assert done == all;
    }
  }
}
