/** Choosing transactions for a block: every sender's gap-free run from its account nonce, merged
    by a stable sort on gas price and cut to length. */
module TxSelection {
  import opened Primitives
  import opened Ascent
  import opened TxPool

  // ----- a sender's run

  function AccountNonce(nonces: map<Address, nat>, s: Address): nat {
    if s in nonces then nonces[s] else 0
  }

  /** The entries at `ns`, as far as these nonces run on from `start`. */
  function Collected(byHash: map<H256, Entry>, q: Queue, ns: seq<nat>, start: nat): seq<Entry> {
    if ns == [] || ns[0] != start || start !in q then []
    else (if q[start] in byHash then [byHash[q[start]]] else []) + Collected(byHash, q, ns[1..], start + 1)
  }

  /** A sender's entries, lowest nonce first, as far as they run on from the account nonce. */
  function RunOf(p: Pool, nonces: map<Address, nat>, s: Address): seq<Entry> {
    Collected(p.byHash, QueueOf(p, s), Ascending(QueueOf(p, s).Keys), AccountNonce(nonces, s))
  }

  // ----- sorting by price

  function Placed(es: seq<Entry>, e: Entry): seq<Entry> {
    if es == [] || es[|es| - 1].tx.gasPrice >= e.tx.gasPrice then es + [e]
    else Placed(es[..|es| - 1], e) + [es[|es| - 1]]
  }

  /** Highest price first; equal prices keep their order. */
  function ByPrice(es: seq<Entry>): seq<Entry> {
    if es == [] then [] else Placed(ByPrice(es[..|es| - 1]), es[|es| - 1])
  }

  ghost predicate Descending(es: seq<Entry>) {
    forall i, j :: 0 <= i < j < |es| ==> es[i].tx.gasPrice >= es[j].tx.gasPrice
  }

  lemma {:induction false} PlacedIn(es: seq<Entry>, e: Entry)
    ensures forall x :: x in Placed(es, e) <==> x in es || x == e
    decreases |es|
  {
    if es != [] && es[|es| - 1].tx.gasPrice < e.tx.gasPrice {
      PlacedIn(es[..|es| - 1], e);
      assert es == es[..|es| - 1] + [es[|es| - 1]];
    }
  }

  lemma {:induction false} PlacedCounts(es: seq<Entry>, e: Entry)
    ensures multiset(Placed(es, e)) == multiset(es) + multiset{e}
    decreases |es|
  {
    if es != [] && es[|es| - 1].tx.gasPrice < e.tx.gasPrice {
      PlacedCounts(es[..|es| - 1], e);
      assert es == es[..|es| - 1] + [es[|es| - 1]];
    }
  }

  lemma {:induction false} PlacedSorts(es: seq<Entry>, e: Entry)
    requires Descending(es)
    ensures Descending(Placed(es, e))
    decreases |es|
  {
    if es != [] && es[|es| - 1].tx.gasPrice < e.tx.gasPrice {
      var init, last := es[..|es| - 1], es[|es| - 1];
      PlacedSorts(init, e);
      PlacedIn(init, e);
      var front := Placed(init, e);
      forall i | 0 <= i < |front| ensures front[i].tx.gasPrice >= last.tx.gasPrice {
        assert front[i] in front;
        if front[i] != e {
          var j :| 0 <= j < |init| && init[j] == front[i];
        }
      }
    }
  }

  lemma {:induction false} ByPriceSorts(es: seq<Entry>)
    ensures Descending(ByPrice(es)) && multiset(ByPrice(es)) == multiset(es)
    decreases |es|
  {
    if es != [] {
      var init, last := es[..|es| - 1], es[|es| - 1];
      assert es == init + [last];
      ByPriceSorts(init);
      PlacedSorts(ByPrice(init), last);
      PlacedCounts(ByPrice(init), last);
    }
  }

  // ----- one sender's part

  function From(es: seq<Entry>, s: Address): seq<Entry> {
    if es == [] then []
    else From(es[..|es| - 1], s) + if es[|es| - 1].sender == s then [es[|es| - 1]] else []
  }

  lemma {:induction false} FromAppend(a: seq<Entry>, b: seq<Entry>, s: Address)
    ensures From(a + b, s) == From(a, s) + From(b, s)
    decreases |b|
  {
    if b == [] {
      assert a + b == a;
    } else {
      FromAppend(a, b[..|b| - 1], s);
      assert (a + b)[..|a + b| - 1] == a + b[..|b| - 1];
    }
  }

  lemma FromSnoc(es: seq<Entry>, e: Entry, s: Address)
    ensures From(es + [e], s) == if e.sender == s then From(es, s) + [e] else From(es, s)
  {
    assert (es + [e])[..|es|] == es;
  }

  lemma {:induction false} FromIn(es: seq<Entry>, s: Address)
    ensures forall x :: x in From(es, s) <==> x in es && x.sender == s
    decreases |es|
  {
    if es != [] {
      FromIn(es[..|es| - 1], s);
      assert es == es[..|es| - 1] + [es[|es| - 1]];
    }
  }

  lemma PlacedLast(es: seq<Entry>, e: Entry)
    requires forall x :: x in es ==> x.tx.gasPrice >= e.tx.gasPrice
    ensures Placed(es, e) == es + [e]
  {
    if es != [] {
      assert es[|es| - 1] in es;
    }
  }

  lemma PlacedBefore(es: seq<Entry>, last: Entry, e: Entry)
    requires last.tx.gasPrice < e.tx.gasPrice
    ensures Placed(es + [last], e) == Placed(es, e) + [last]
  {
    assert (es + [last])[..|es|] == es;
  }

  lemma PlacedLastFrom(es: seq<Entry>, e: Entry, s: Address)
    requires Descending(es) && (es == [] || es[|es| - 1].tx.gasPrice >= e.tx.gasPrice)
    ensures From(es + [e], s) == if e.sender == s then Placed(From(es, s), e) else From(es, s)
  {
    FromSnoc(es, e, s);
    FromIn(es, s);
    forall x | x in From(es, s) ensures x.tx.gasPrice >= e.tx.gasPrice {
      var i :| 0 <= i < |es| && es[i] == x;
    }
    PlacedLast(From(es, s), e);
  }

  lemma {:induction false} PlacedFrom(es: seq<Entry>, e: Entry, s: Address)
    requires Descending(es)
    ensures From(Placed(es, e), s) == if e.sender == s then Placed(From(es, s), e) else From(es, s)
    decreases |es|
  {
    if es == [] || es[|es| - 1].tx.gasPrice >= e.tx.gasPrice {
      PlacedLastFrom(es, e, s);
    } else {
      var init, last := es[..|es| - 1], es[|es| - 1];
      assert es == init + [last];
      PlacedFrom(init, e, s);
      FromSnoc(init, last, s);
      FromSnoc(Placed(init, e), last, s);
      PlacedBefore(From(init, s), last, e);
    }
  }

  lemma ByPriceAppend(es: seq<Entry>, e: Entry)
    ensures ByPrice(es + [e]) == Placed(ByPrice(es), e)
  {
    assert (es + [e])[..|es|] == es;
  }

  /** The sort is stable: each sender's part comes out as if it had been sorted alone. */
  lemma {:induction false} StableBySender(es: seq<Entry>, s: Address)
    ensures From(ByPrice(es), s) == ByPrice(From(es, s))
    decreases |es|
  {
    if es != [] {
      var init, last := es[..|es| - 1], es[|es| - 1];
      assert es == init + [last];
      StableBySender(init, s);
      ByPriceSorts(init);
      PlacedFrom(ByPrice(init), last, s);
      ByPriceAppend(init, last);
      FromSnoc(init, last, s);
      ByPriceAppend(From(init, s), last);
    }
  }

  lemma {:induction false} SortedStays(es: seq<Entry>)
    requires Descending(es)
    ensures ByPrice(es) == es
    decreases |es|
  {
    if es != [] {
      var init, last := es[..|es| - 1], es[|es| - 1];
      SortedStays(init);
      assert es == init + [last];
    }
  }

  function Cut(es: seq<Entry>, max: nat): seq<Entry> {
    if max < |es| then es[..max] else es
  }

  lemma CutPrefix(es: seq<Entry>, max: nat, s: Address)
    ensures From(Cut(es, max), s) <= From(es, s)
  {
    if max < |es| {
      FromAppend(es[..max], es[max..], s);
      assert es == es[..max] + es[max..];
    }
  }

  /** At every cut, what is selected of a sender is a prefix of its run in nonce order, exactly
      when the run's prices never rise. */
  lemma PrefixIffPricesFall(candidates: seq<Entry>, s: Address)
    ensures (forall max: nat :: From(Cut(ByPrice(candidates), max), s) <= From(candidates, s))
            <==> Descending(From(candidates, s))
  {
    var sorted, run := ByPrice(candidates), From(candidates, s);
    StableBySender(candidates, s);
    ByPriceSorts(run);
    assert |multiset(ByPrice(run))| == |multiset(run)|;
    if Descending(run) {
      SortedStays(run);
      forall max: nat ensures From(Cut(sorted, max), s) <= run {
        CutPrefix(sorted, max, s);
      }
    }
    if forall max: nat :: From(Cut(sorted, max), s) <= run {
      assert From(Cut(sorted, |sorted|), s) <= run;
    }
  }

  // ----- selection from a pool

  function Joined(runs: Address -> seq<Entry>, senders: seq<Address>): seq<Entry> {
    if senders == [] then [] else Joined(runs, senders[..|senders| - 1]) + runs(senders[|senders| - 1])
  }

  function Runs(p: Pool, nonces: map<Address, nat>): Address -> seq<Entry> {
    (s: Address) => RunOf(p, nonces, s)
  }

  /** The senders' runs, in the order the senders are visited. */
  function Candidates(p: Pool, nonces: map<Address, nat>, senders: seq<Address>): seq<Entry> {
    Joined(Runs(p, nonces), senders)
  }

  /** `es` are the entries of `s` with nonces counting up from `start`. */
  ghost predicate GapFree(es: seq<Entry>, s: Address, start: nat) {
    forall i :: 0 <= i < |es| ==> es[i].sender == s && es[i].tx.nonce == start + i
  }

  ghost predicate Holds(byHash: map<H256, Entry>, q: Queue, s: Address) {
    forall n :: n in q ==> q[n] in byHash && byHash[q[n]].sender == s && byHash[q[n]].tx.nonce == n
  }

  ghost predicate Behind(ns: set<nat>, start: nat) {
    exists n :: n in ns && n < start
  }

  lemma {:induction false} CollectedMeans(byHash: map<H256, Entry>, q: Queue, ns: seq<nat>, start: nat, s: Address)
    requires Rising(ns) && Holds(byHash, q, s) && (forall n :: n in ns ==> n in q)
    ensures GapFree(Collected(byHash, q, ns, start), s, start)
    ensures (exists n :: n in ns && n < start) ==> Collected(byHash, q, ns, start) == []
    ensures (forall n :: n in ns ==> start <= n) ==> start + |Collected(byHash, q, ns, start)| !in ns
    decreases |ns|
  {
    if ns != [] && ns[0] == start {
      var rest := ns[1..];
      var tail := Collected(byHash, q, rest, start + 1);
      CollectedMeans(byHash, q, rest, start + 1, s);
      assert Collected(byHash, q, ns, start) == [byHash[q[start]]] + tail;
      RisesFrom(ns, start);
      assert start + 1 + |tail| !in rest;
    } else {
      assert Collected(byHash, q, ns, start) == [];
      if start in ns {
        assert ns[0] in ns && ns[0] < start;
      }
    }
  }

  lemma RisesFrom(ns: seq<nat>, start: nat)
    requires Rising(ns) && ns != [] && ns[0] == start
    ensures (forall n :: n in ns ==> start <= n) && (forall n :: n in ns[1..] ==> start + 1 <= n)
    ensures forall n :: n in ns <==> n == start || n in ns[1..]
  {
    forall n | n in ns ensures start <= n {
      var i :| 0 <= i < |ns| && ns[i] == n;
    }
    forall n | n in ns[1..] ensures start + 1 <= n {
      var i :| 0 <= i < |ns| - 1 && ns[1..][i] == n;
      assert ns[i + 1] == n;
    }
    assert ns == [ns[0]] + ns[1..];
  }

  lemma AgreeHolds(hash: Tx -> H256, p: Pool, s: Address)
    requires Agree(hash, p)
    ensures Holds(p.byHash, QueueOf(p, s), s)
  {
    forall n | n in QueueOf(p, s)
      ensures QueueOf(p, s)[n] in p.byHash && p.byHash[QueueOf(p, s)[n]].sender == s && p.byHash[QueueOf(p, s)[n]].tx.nonce == n
    {
      assert Backed(p, s, n);
    }
  }

  /** A run of `s` among `keys`: gap-free from `start`; empty if anything older is queued, and
      otherwise as long as can be. */
  ghost predicate FullRun(es: seq<Entry>, keys: set<nat>, start: nat, s: Address) {
    GapFree(es, s, start) && if Behind(keys, start) then es == [] else start + |es| !in keys
  }

  lemma CollectedWhole(byHash: map<H256, Entry>, q: Queue, keys: set<nat>, ns: seq<nat>, start: nat, s: Address)
    requires Holds(byHash, q, s) && Rising(ns) && keys == q.Keys && Lists(ns, keys)
    ensures FullRun(Collected(byHash, q, ns, start), keys, start, s)
  {
    CollectedMeans(byHash, q, ns, start, s);
    forall n | n in ns && !Behind(keys, start) ensures start <= n {
      assert n in keys;
    }
  }

  /** A run belongs to its sender and its nonces count up from the account nonce without a gap.
      It is empty if anything older is still queued, and otherwise as long as can be. */
  lemma RunIsGapFree(hash: Tx -> H256, p: Pool, nonces: map<Address, nat>, s: Address)
    requires Agree(hash, p)
    ensures FullRun(RunOf(p, nonces, s), QueueOf(p, s).Keys, AccountNonce(nonces, s), s)
  {
    AgreeHolds(hash, p, s);
    var q := QueueOf(p, s);
    HeldIsGapFree(p.byHash, q, q.Keys, Ascending(q.Keys), AccountNonce(nonces, s), s);
  }

  lemma HeldIsGapFree(byHash: map<H256, Entry>, q: Queue, keys: set<nat>, ns: seq<nat>, start: nat, s: Address)
    requires Holds(byHash, q, s) && keys == q.Keys && ns == Ascending(keys)
    ensures FullRun(Collected(byHash, q, ns, start), keys, start, s)
  {
    AscendingSorted(keys);
    CollectedWhole(byHash, q, keys, ns, start, s);
  }

  lemma {:induction false} RunFrom(es: seq<Entry>, s: Address, t: Address)
    requires forall x :: x in es ==> x.sender == s
    ensures From(es, t) == if s == t then es else []
    decreases |es|
  {
    if es != [] {
      RunFrom(es[..|es| - 1], s, t);
      assert es == es[..|es| - 1] + [es[|es| - 1]];
      assert es[|es| - 1] in es;
    }
  }

  lemma RunIsFrom(hash: Tx -> H256, p: Pool, nonces: map<Address, nat>, s: Address, t: Address)
    requires Agree(hash, p)
    ensures From(RunOf(p, nonces, s), t) == if s == t then RunOf(p, nonces, s) else []
  {
    RunIsGapFree(hash, p, nonces, s);
    RunFrom(RunOf(p, nonces, s), s, t);
  }

  lemma {:induction false} JoinedOthers(runs: Address -> seq<Entry>, senders: seq<Address>, s: Address)
    requires s !in senders && forall t :: t != s ==> From(runs(t), s) == []
    ensures From(Joined(runs, senders), s) == []
    decreases |senders|
  {
    if senders != [] {
      var init, last := senders[..|senders| - 1], senders[|senders| - 1];
      JoinedOthers(runs, init, s);
      FromAppend(Joined(runs, init), runs(last), s);
    }
  }

  lemma {:induction false} JoinedOwn(runs: Address -> seq<Entry>, senders: seq<Address>, k: nat)
    requires k < |senders| && forall i :: 0 <= i < |senders| && i != k ==> senders[i] != senders[k]
    requires forall t :: t != senders[k] ==> From(runs(t), senders[k]) == []
    requires From(runs(senders[k]), senders[k]) == runs(senders[k])
    ensures From(Joined(runs, senders), senders[k]) == runs(senders[k])
    decreases |senders|
  {
    var init, last := senders[..|senders| - 1], senders[|senders| - 1];
    FromAppend(Joined(runs, init), runs(last), senders[k]);
    if k == |senders| - 1 {
      JoinedOthers(runs, init, senders[k]);
    } else {
      JoinedOwn(runs, init, k);
    }
  }

  ghost predicate Distinct(senders: seq<Address>) {
    forall i, j :: 0 <= i < j < |senders| ==> senders[i] != senders[j]
  }

  /** Each visited sender's part of the candidates is its run. */
  lemma CandidatesFrom(hash: Tx -> H256, p: Pool, nonces: map<Address, nat>, senders: seq<Address>, k: nat)
    requires Agree(hash, p) && Distinct(senders) && k < |senders|
    ensures From(Candidates(p, nonces, senders), senders[k]) == RunOf(p, nonces, senders[k])
  {
    var runs := Runs(p, nonces);
    forall t ensures From(runs(t), senders[k]) == if t == senders[k] then runs(t) else [] {
      RunIsFrom(hash, p, nonces, t, senders[k]);
    }
    JoinedOwn(runs, senders, k);
  }

  lemma CandidatesSnoc(p: Pool, nonces: map<Address, nat>, senders: seq<Address>, s: Address)
    ensures Candidates(p, nonces, senders + [s]) == Candidates(p, nonces, senders) + RunOf(p, nonces, s)
  {
    assert (senders + [s])[..|senders|] == senders;
  }

  /** What is selected: the best paid of all runs; and of each sender a gap-free stretch from its
      account nonce, in order, whatever the cut, exactly when its run's prices never rise. */
  lemma SelectionMeans(hash: Tx -> H256, p: Pool, nonces: map<Address, nat>, senders: seq<Address>, k: nat)
    requires Agree(hash, p) && Distinct(senders) && k < |senders|
    ensures var all, s := ByPrice(Candidates(p, nonces, senders)), senders[k];
            && Descending(all) && multiset(all) == multiset(Candidates(p, nonces, senders))
            && ((forall max: nat :: From(Cut(all, max), s) <= RunOf(p, nonces, s)) <==> Descending(RunOf(p, nonces, s)))
  {
    var candidates := Candidates(p, nonces, senders);
    ByPriceSorts(candidates);
    CandidatesFrom(hash, p, nonces, senders, k);
    PrefixIffPricesFall(candidates, senders[k]);
  }
}
