/** Electing the active validators, and giving them their slots. */
module Election {
  import opened Primitives
  import opened Nonlinear
  import opened Ascent

  datatype Staker = Staker(address: Address, total: u128, self: u128)

  /** Ahead in the election: more stake, or as much with a lower address. */
  predicate Ahead(a: Staker, b: Staker) {
    a.total > b.total || (a.total == b.total && a.address < b.address)
  }

  ghost predicate Ranked(vs: seq<Staker>) {
    forall i, j :: 0 <= i < j < |vs| ==> Ahead(vs[i], vs[j])
  }

  /** Accounts are keyed by address, so no two stakers share one. */
  ghost predicate ByAddress(stakers: set<Staker>) {
    forall a, b :: a in stakers && b in stakers && a.address == b.address ==> a == b
  }

  ghost function Eligible(stakers: set<Staker>, minSelf: u128): set<Staker> {
    set s | s in stakers && minSelf <= s.self
  }

  /** The best `seats` of the eligible, best first. */
  ghost predicate Elected(stakers: set<Staker>, minSelf: u128, seats: nat, vs: seq<Staker>) {
    && Ranked(vs) && |vs| <= seats
    && (forall v :: v in vs ==> v in Eligible(stakers, minSelf))
    && (forall s :: s in Eligible(stakers, minSelf) && s !in vs ==> |vs| == seats && forall v :: v in vs ==> Ahead(v, s))
  }

  function Ranking(vs: seq<Staker>, s: Staker): seq<Staker> {
    if vs == [] || Ahead(vs[|vs| - 1], s) then vs + [s]
    else Ranking(vs[..|vs| - 1], s) + [vs[|vs| - 1]]
  }

  lemma {:induction false} RankingIn(vs: seq<Staker>, s: Staker)
    ensures forall x :: x in Ranking(vs, s) <==> x in vs || x == s
    decreases |vs|
  {
    if vs != [] && !Ahead(vs[|vs| - 1], s) {
      RankingIn(vs[..|vs| - 1], s);
      assert vs == vs[..|vs| - 1] + [vs[|vs| - 1]];
    }
  }

  lemma {:induction false} RankingRanks(vs: seq<Staker>, s: Staker)
    requires Ranked(vs) && forall v :: v in vs ==> v.address != s.address
    ensures Ranked(Ranking(vs, s))
    decreases |vs|
  {
    if vs == [] || Ahead(vs[|vs| - 1], s) {
      assert forall i :: 0 <= i < |vs| ==> Ahead(vs[i], s);
    } else {
      var init, last := vs[..|vs| - 1], vs[|vs| - 1];
      assert last in vs;
      RankingRanks(init, s);
      RankingIn(init, s);
      var front := Ranking(init, s);
      forall i | 0 <= i < |front| ensures Ahead(front[i], last) {
        assert front[i] in front;
        if front[i] != s {
          var j :| 0 <= j < |init| && init[j] == front[i];
        }
      }
    }
  }

  /** Whatever order the accounts come in, the result is the one the stakes determine. */
  method ElectValidators(stakers: set<Staker>, minSelf: u128, seats: nat) returns (vs: seq<Staker>)
    requires ByAddress(stakers)
    ensures Elected(stakers, minSelf, seats, vs)
  {
    var ranked: seq<Staker> := [];
    var rest := stakers;
    ghost var seen: set<Staker> := {};
    while rest != {}
      invariant seen + rest == stakers && seen !! rest
      invariant Ranked(ranked) && forall s :: s in ranked <==> s in Eligible(seen, minSelf)
      decreases rest
    {
      var s :| s in rest;
      rest := rest - {s};
      if minSelf <= s.self {
        forall v | v in ranked ensures v.address != s.address {
          assert v in seen && v in stakers && s in stakers;
        }
        RankingRanks(ranked, s);
        RankingIn(ranked, s);
        ranked := Ranking(ranked, s);
      }
      seen := seen + {s};
    }
    assert seen == stakers;
    vs := if |ranked| <= seats then ranked else ranked[..seats];
    assert forall k :: 0 <= k < |vs| ==> ranked[k] == vs[k] && vs[k] in vs;
    forall s | s in Eligible(stakers, minSelf) && s !in vs ensures |vs| == seats && forall v :: v in vs ==> Ahead(v, s) {
      var j :| 0 <= j < |ranked| && ranked[j] == s;
      assert |vs| <= j;
    }
  }

  lemma {:induction false} SameRank(vs: seq<Staker>, ws: seq<Staker>)
    requires Ranked(vs) && Ranked(ws) && forall x :: x in vs <==> x in ws
    ensures vs == ws
    decreases |vs|
  {
    if vs == [] {
      assert forall i :: 0 <= i < |ws| ==> ws[i] in ws;
    } else {
      assert vs[0] in ws;
      assert ws[0] in vs;
      assert vs[0] == ws[0];
      forall x ensures x in vs[1..] <==> x in ws[1..] {
        assert x in vs <==> x == vs[0] || x in vs[1..];
        assert x in ws <==> x == ws[0] || x in ws[1..];
      }
      SameRank(vs[1..], ws[1..]);
    }
  }

  /** The stakes leave no choice: two nodes elect the same validators in the same order. */
  lemma ElectionUnique(stakers: set<Staker>, minSelf: u128, seats: nat, vs: seq<Staker>, ws: seq<Staker>)
    requires Elected(stakers, minSelf, seats, vs) && Elected(stakers, minSelf, seats, ws)
    ensures vs == ws
  {
    ElectedWithin(stakers, minSelf, seats, vs, ws);
    ElectedWithin(stakers, minSelf, seats, ws, vs);
    SameRank(vs, ws);
  }

  ghost function Members(vs: seq<Staker>): set<Staker> {
    set v | v in vs
  }

  lemma {:induction false} MembersCount(vs: seq<Staker>)
    requires Ranked(vs)
    ensures |Members(vs)| == |vs|
    decreases |vs|
  {
    if vs != [] {
      var init, last := vs[..|vs| - 1], vs[|vs| - 1];
      MembersCount(init);
      assert Members(vs) == Members(init) + {last};
      assert last !in init;
    }
  }

  lemma SomeoneElse(vs: seq<Staker>, ws: seq<Staker>, v: Staker) returns (w: Staker)
    requires Ranked(vs) && Ranked(ws) && |vs| <= |ws| && v in vs && v !in ws
    ensures w in ws && w !in vs
  {
    MembersCount(vs);
    MembersCount(ws);
    if Members(ws) <= Members(vs) - {v} {
      SubsetSize(Members(ws), Members(vs) - {v});
    }
    w :| w in Members(ws) && w !in Members(vs) - {v};
  }

  lemma ElectedWithin(stakers: set<Staker>, minSelf: u128, seats: nat, vs: seq<Staker>, ws: seq<Staker>)
    requires Elected(stakers, minSelf, seats, vs) && Elected(stakers, minSelf, seats, ws)
    ensures forall v :: v in vs ==> v in ws
  {
    forall v | v in vs ensures v in ws {
      if v !in ws {
        var w := SomeoneElse(vs, ws, v);
        assert false;
      }
    }
  }

  // ----- epochs and slots

  function EpochOf(block: nat, epochLength: nat): nat
    requires 0 < epochLength
  {
    if block == 0 then 0 else block / epochLength
  }

  /** How many slots 32 bits tell apart. */
  const SLOTS: nat := 0x1_0000_0000

  /** The remainder is cut to 32 bits. */
  function SlotOf(block: nat, epochLength: nat): nat
    requires 0 < epochLength
  {
    block % epochLength % SLOTS
  }

  function SlotLeader(vs: seq<Staker>, slot: nat): Option<Staker> {
    if vs == [] then None else Some(vs[slot % |vs|])
  }

  /** How many of the blocks `from .. from + k` the validator at `seat` produces. */
  ghost function Produced(vs: seq<Staker>, epochLength: nat, from: nat, k: nat, seat: nat): nat
    requires 0 < epochLength && seat < |vs|
  {
    if k == 0 then 0
    else Produced(vs, epochLength, from, k - 1, seat)
         + if SlotLeader(vs, SlotOf(from + k - 1, epochLength)) == Some(vs[seat]) then 1 else 0
  }

  /** Seats below `k % n` have had one turn more than the others after `k` turns. */
  ghost function Turns(k: nat, n: nat, seat: nat): nat
    requires 0 < n
  {
    k / n + if seat < k % n then 1 else 0
  }

  lemma OneTurn(k: nat, n: nat, seat: nat)
    requires seat < n
    ensures Turns(k + 1, n, seat) == Turns(k, n, seat) + if k % n == seat then 1 else 0
  {
    DivBounds(k, n);
    var q, r := k / n, k % n;
    assert k == q * n + r;
    if r + 1 < n {
      DivUnique(k + 1, n, q);
    } else {
      assert (q + 1) * n == q * n + n;
      DivUnique(k + 1, n, q + 1);
    }
  }

  ghost predicate Distinct(vs: seq<Staker>) {
    forall i, j :: 0 <= i < j < |vs| ==> vs[i].address != vs[j].address
  }

  /** Nobody is elected twice. */
  lemma ElectedDistinct(stakers: set<Staker>, minSelf: u128, seats: nat, vs: seq<Staker>)
    requires ByAddress(stakers) && Elected(stakers, minSelf, seats, vs)
    ensures Distinct(vs)
  {
    forall i, j | 0 <= i < j < |vs| ensures vs[i].address != vs[j].address {
      assert vs[i] in vs && vs[j] in vs && Ahead(vs[i], vs[j]);
    }
  }

  lemma LeaderIsSeat(vs: seq<Staker>, slot: nat, seat: nat)
    requires Distinct(vs) && seat < |vs|
    ensures SlotLeader(vs, slot) == Some(vs[seat]) <==> slot % |vs| == seat
    ensures SlotLeader(vs, slot) == Some(vs[seat]) <==> vs[slot % |vs|].address == vs[seat].address
  {
  }

  /** The block `i` places into an epoch belongs to it, and has slot `i` as far as 32 bits go. */
  lemma PlaceInEpoch(epochLength: nat, epoch: nat, i: nat)
    requires i < epochLength
    ensures EpochOf(epoch * epochLength + i, epochLength) == epoch
    ensures SlotOf(epoch * epochLength + i, epochLength) == i % SLOTS
    ensures i < SLOTS ==> SlotOf(epoch * epochLength + i, epochLength) == i
  {
    DivUnique(epoch * epochLength + i, epochLength, epoch);
  }

  /** The turns of a seat after `k` slots, where the slots start over every `SLOTS`. */
  ghost function SlotTurns(k: nat, n: nat, seat: nat): nat
    requires 0 < n
  {
    (k / SLOTS) * Turns(SLOTS, n, seat) + Turns(k % SLOTS, n, seat)
  }

  lemma OneSlotTurn(k: nat, n: nat, seat: nat)
    requires seat < n
    ensures SlotTurns(k + 1, n, seat) == SlotTurns(k, n, seat) + if k % SLOTS % n == seat then 1 else 0
  {
    var q, r := k / SLOTS, k % SLOTS;
    OneTurn(r, n, seat);
    if r + 1 == SLOTS {
      assert (k + 1) / SLOTS == q + 1 && (k + 1) % SLOTS == 0;
      assert (q + 1) * Turns(SLOTS, n, seat) == q * Turns(SLOTS, n, seat) + Turns(SLOTS, n, seat);
      NoTurns(n, seat);
    } else {
      assert (k + 1) / SLOTS == q && (k + 1) % SLOTS == r + 1;
    }
  }

  lemma NoTurns(n: nat, seat: nat)
    requires seat < n
    ensures Turns(0, n, seat) == 0
  {
    DivUnique(0, n, 0);
  }

  lemma FewSlots(k: nat, n: nat, seat: nat)
    requires seat < n && k <= SLOTS
    ensures SlotTurns(k, n, seat) == Turns(k, n, seat)
  {
    NoTurns(n, seat);
  }

  /** In the first `k` blocks of an epoch every validator has its turns. Up to `SLOTS` blocks
      these are the same for all up to one, earlier seats first; after that the order starts over
      at the first seat. */
  lemma {:induction false} FairTurns(vs: seq<Staker>, epochLength: nat, epoch: nat, k: nat, seat: nat)
    requires Distinct(vs) && seat < |vs| && 0 < epochLength && k <= epochLength
    ensures Produced(vs, epochLength, epoch * epochLength, k, seat) == SlotTurns(k, |vs|, seat)
    ensures k <= SLOTS ==> Produced(vs, epochLength, epoch * epochLength, k, seat) == Turns(k, |vs|, seat)
    decreases k
  {
    if k == 0 {
      NoTurns(|vs|, seat);
    } else {
      FairTurns(vs, epochLength, epoch, k - 1, seat);
      PlaceInEpoch(epochLength, epoch, k - 1);
      LeaderIsSeat(vs, (k - 1) % SLOTS, seat);
      OneSlotTurn(k - 1, |vs|, seat);
    }
    if k <= SLOTS {
      FewSlots(k, |vs|, seat);
    }
  }
}
