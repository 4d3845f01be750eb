/** The state trie: a sorted map of byte strings with a cached Merkle root over its entries. */
module StateTrie {
  import opened Primitives
  import opened Merkle

  type byte = b: int | 0 <= b < 256
  type Bytes = seq<byte>
  type Entry = (Bytes, Bytes)

  /** Byte strings in the order of the sorted map: lexicographic, a prefix coming first. */
  predicate Before(a: Bytes, b: Bytes)
    decreases |a|
  {
    b != [] && (a == [] || a[0] < b[0] || (a[0] == b[0] && Before(a[1..], b[1..])))
  }

  lemma {:induction false} BeforeIrreflexive(a: Bytes)
    ensures !Before(a, a)
    decreases |a|
  {
    if a != [] {
      BeforeIrreflexive(a[1..]);
    }
  }

  lemma {:induction false} BeforeTransitive(a: Bytes, b: Bytes, c: Bytes)
    requires Before(a, b) && Before(b, c)
    ensures Before(a, c)
    decreases |a|
  {
    if a != [] && a[0] == b[0] && b[0] == c[0] {
      BeforeTransitive(a[1..], b[1..], c[1..]);
    }
  }

  lemma {:induction false} BeforeTotal(a: Bytes, b: Bytes)
    ensures Before(a, b) || a == b || Before(b, a)
    decreases |a|
  {
    if a != [] && b != [] && a[0] == b[0] {
      BeforeTotal(a[1..], b[1..]);
      assert a == [a[0]] + a[1..] && b == [b[0]] + b[1..];
    }
  }

  // ----- the sorted map

  ghost predicate Sorted(es: seq<Entry>) {
    forall i, j :: 0 <= i < j < |es| ==> Before(es[i].0, es[j].0)
  }

  ghost function Contents(es: seq<Entry>): map<Bytes, Bytes> {
    if es == [] then map[] else Contents(es[1..])[es[0].0 := es[0].1]
  }

  function InsertEntry(es: seq<Entry>, key: Bytes, value: Bytes): seq<Entry> {
    if es == [] || Before(key, es[0].0) then [(key, value)] + es
    else if es[0].0 == key then [(key, value)] + es[1..]
    else [es[0]] + InsertEntry(es[1..], key, value)
  }

  function RemoveEntry(es: seq<Entry>, key: Bytes): seq<Entry> {
    if es == [] then [] else if es[0].0 == key then es[1..] else [es[0]] + RemoveEntry(es[1..], key)
  }

  function Lookup(es: seq<Entry>, key: Bytes): Option<Bytes> {
    if es == [] then None else if es[0].0 == key then Some(es[0].1) else Lookup(es[1..], key)
  }

  ghost predicate AllAfter(key: Bytes, es: seq<Entry>) {
    forall i :: 0 <= i < |es| ==> Before(key, es[i].0)
  }

  lemma SortedCons(e: Entry, es: seq<Entry>)
    requires Sorted(es) && AllAfter(e.0, es)
    ensures Sorted([e] + es)
  {
    var r := [e] + es;
    forall i, j | 0 <= i < j < |r|
      ensures Before(r[i].0, r[j].0)
    {
      assert r[j] == es[j - 1];
    }
  }

  lemma SortedTail(es: seq<Entry>)
    requires es != [] && Sorted(es)
    ensures Sorted(es[1..]) && AllAfter(es[0].0, es[1..])
  {
  }

  lemma {:induction false} AfterNotIn(key: Bytes, es: seq<Entry>)
    requires AllAfter(key, es)
    ensures key !in Contents(es)
    decreases |es|
  {
    if es != [] {
      BeforeIrreflexive(key);
      AfterNotIn(key, es[1..]);
    }
  }

  lemma {:induction false} InsertMeans(es: seq<Entry>, key: Bytes, value: Bytes)
    requires Sorted(es)
    ensures Sorted(InsertEntry(es, key, value))
    ensures Contents(InsertEntry(es, key, value)) == Contents(es)[key := value]
    ensures forall k: Bytes :: Before(k, key) && AllAfter(k, es) ==> AllAfter(k, InsertEntry(es, key, value))
    decreases |es|
  {
    if es == [] {
    } else if Before(key, es[0].0) {
      forall i | 0 <= i < |es|
        ensures Before(key, es[i].0)
      {
        if i > 0 {
          BeforeTransitive(key, es[0].0, es[i].0);
        }
      }
      SortedCons((key, value), es);
      assert ([(key, value)] + es)[1..] == es;
    } else {
      SortedTail(es);
      var rest := es[1..];
      if es[0].0 == key {
        SortedCons((key, value), rest);
        assert ([(key, value)] + rest)[1..] == rest;
      } else {
        BeforeTotal(key, es[0].0);
        InsertMeans(rest, key, value);
        var r := InsertEntry(rest, key, value);
        SortedCons(es[0], r);
        assert ([es[0]] + r)[1..] == r;
      }
    }
  }

  lemma {:induction false} RemoveMeans(es: seq<Entry>, key: Bytes)
    requires Sorted(es)
    ensures Sorted(RemoveEntry(es, key))
    ensures Contents(RemoveEntry(es, key)) == Contents(es) - {key}
    ensures forall k: Bytes :: AllAfter(k, es) ==> AllAfter(k, RemoveEntry(es, key))
    decreases |es|
  {
    if es != [] {
      SortedTail(es);
      var rest := es[1..];
      if es[0].0 == key {
        AfterNotIn(key, rest);
      } else {
        RemoveMeans(rest, key);
        var r := RemoveEntry(rest, key);
        SortedCons(es[0], r);
        assert ([es[0]] + r)[1..] == r;
        forall k: Bytes | AllAfter(k, es)
          ensures AllAfter(k, [es[0]] + r)
        {
          assert AllAfter(k, rest);
        }
      }
    }
  }

  lemma {:induction false} LookupMeans(es: seq<Entry>, key: Bytes)
    ensures Lookup(es, key) == if key in Contents(es) then Some(Contents(es)[key]) else None
    decreases |es|
  {
    if es != [] {
      LookupMeans(es[1..], key);
    }
  }

  lemma {:induction false} RemoveAbsent(es: seq<Entry>, key: Bytes)
    requires key !in Contents(es)
    ensures RemoveEntry(es, key) == es
    decreases |es|
  {
    if es != [] {
      RemoveAbsent(es[1..], key);
    }
  }

  lemma {:induction false} KeysOf(es: seq<Entry>, key: Bytes)
    ensures key in Contents(es) <==> exists i :: 0 <= i < |es| && es[i].0 == key
    decreases |es|
  {
    if es != [] {
      KeysOf(es[1..], key);
      assert forall i :: 0 < i < |es| ==> es[i] == es[1..][i - 1];
      if exists i :: 0 <= i < |es[1..]| && es[1..][i].0 == key {
        var i :| 0 <= i < |es[1..]| && es[1..][i].0 == key;
        assert es[i + 1].0 == key;
      }
    }
  }

  lemma FirstKey(es: seq<Entry>, fs: seq<Entry>)
    requires Sorted(es) && Sorted(fs) && es != [] && fs != [] && Contents(es) == Contents(fs)
    ensures !Before(es[0].0, fs[0].0)
  {
    if Before(es[0].0, fs[0].0) {
      KeysOf(es, es[0].0);
      KeysOf(fs, es[0].0);
      var i :| 0 <= i < |fs| && fs[i].0 == es[0].0;
      BeforeIrreflexive(es[0].0);
      if i > 0 {
        BeforeTransitive(es[0].0, fs[0].0, fs[i].0);
      }
      assert false;
    }
  }

  /** Sorted entries are a canonical form: they depend on the contents alone, not on the order
      in which entries were written. */
  lemma {:induction false} SortedIsCanonical(es: seq<Entry>, fs: seq<Entry>)
    requires Sorted(es) && Sorted(fs) && Contents(es) == Contents(fs)
    ensures es == fs
    decreases |es|
  {
    assert es != [] ==> es[0].0 in Contents(es);
    assert fs != [] ==> fs[0].0 in Contents(fs);
    if es != [] && fs != [] {
      FirstKey(es, fs);
      FirstKey(fs, es);
      BeforeTotal(es[0].0, fs[0].0);
      SortedTail(es);
      SortedTail(fs);
      AfterNotIn(es[0].0, es[1..]);
      AfterNotIn(fs[0].0, fs[1..]);
      assert Contents(es[1..]) == Contents(es) - {es[0].0};
      assert Contents(fs[1..]) == Contents(fs) - {fs[0].0};
      SortedIsCanonical(es[1..], fs[1..]);
      assert es == [es[0]] + es[1..] && fs == [fs[0]] + fs[1..];
    }
  }

  // ----- the root

  function Joined(es: seq<Entry>): (bs: seq<Bytes>)
    ensures |bs| == |es| && forall i :: 0 <= i < |es| ==> bs[i] == es[i].0 + es[i].1
  {
    seq<Bytes>(|es|, i requires 0 <= i < |es| => es[i].0 + es[i].1)
  }

  function LeafHashes<H>(hash: Bytes -> H, bs: seq<Bytes>): (hs: seq<H>)
    ensures |hs| == |bs| && forall i :: 0 <= i < |bs| ==> hs[i] == hash(bs[i])
  {
    seq(|bs|, i requires 0 <= i < |bs| => hash(bs[i]))
  }

  /** Inner nodes are hashed with the same function as entries, over the bytes of their children. */
  function Pair<H>(hash: Bytes -> H, enc: H -> Bytes): (H, H) -> H {
    (a, b) => hash(enc(a) + enc(b))
  }

  /** The root a trie with these entries should report. */
  ghost function RootOf<H>(hash: Bytes -> H, enc: H -> Bytes, zero: H, es: seq<Entry>): H {
    if es == [] then zero else TreeRoot(Pair(hash, enc), LeafHashes(hash, Joined(es)))
  }

  class Trie<H> {
    const hash: Bytes -> H
    const enc: H -> Bytes
    const zero: H
    var entries: seq<Entry>
    var dirty: bool
    var cachedRoot: Option<H>

    /** The cache, when it may be used, is what a fresh computation would give. */
    ghost predicate Valid()
      reads this
    {
      && Sorted(entries)
      && (cachedRoot.Some? && !dirty ==> cachedRoot.value == RootOf(hash, enc, zero, entries))
    }

    constructor (hash: Bytes -> H, enc: H -> Bytes, zero: H)
      ensures Valid() && entries == []
    {
      this.hash, this.enc, this.zero := hash, enc, zero;
      entries, dirty, cachedRoot := [], true, None;
    }

    method Insert(key: Bytes, value: Bytes)
      requires Valid()
      modifies this
      ensures Valid() && Contents(entries) == old(Contents(entries))[key := value]
    {
      InsertMeans(entries, key, value);
      entries := InsertEntry(entries, key, value);
      dirty, cachedRoot := true, None;
    }

    method Remove(key: Bytes) returns (removed: Option<Bytes>)
      requires Valid()
      modifies this
      ensures Valid() && Contents(entries) == old(Contents(entries)) - {key}
      ensures removed == old(if key in Contents(entries) then Some(Contents(entries)[key]) else None)
    {
      LookupMeans(entries, key);
      RemoveMeans(entries, key);
      removed := Lookup(entries, key);
      if removed.Some? {
        entries := RemoveEntry(entries, key);
        dirty, cachedRoot := true, None;
      } else {
        RemoveAbsent(entries, key);
      }
    }

    method ComputeRoot() returns (root: H)
      ensures root == RootOf(hash, enc, zero, entries)
    {
      if |entries| == 0 {
        return zero;
      }
      root := MerkleRoot(Pair(hash, enc), zero, LeafHashes(hash, Joined(entries)));
    }

    /** Cached or not, the reported root is the recomputed one. */
    method Root() returns (root: H)
      requires Valid()
      modifies this`dirty, this`cachedRoot
      ensures Valid() && root == RootOf(hash, enc, zero, entries)
    {
      if cachedRoot.Some? && !dirty {
        return cachedRoot.value;
      }
      root := ComputeRoot();
      cachedRoot, dirty := Some(root), false;
    }
  }

  // ----- what the root binds

  /** Whatever the order of writes, equal contents give equal roots. */
  lemma RootDependsOnContents<H>(hash: Bytes -> H, enc: H -> Bytes, zero: H, es: seq<Entry>, fs: seq<Entry>)
    requires Sorted(es) && Sorted(fs) && Contents(es) == Contents(fs)
    ensures RootOf(hash, enc, zero, es) == RootOf(hash, enc, zero, fs)
  {
    SortedIsCanonical(es, fs);
  }

  /** Hashes are written in 32 bytes, different ones differently. */
  ghost predicate Encoding<H(!new)>(enc: H -> Bytes) {
    && (forall a :: |enc(a)| == 32)
    && (forall a, b {:trigger enc(a), enc(b)} :: enc(a) == enc(b) ==> a == b)
  }

  /** The two halves of the tree over `bs`, as they are written to be hashed. */
  ghost function Inner<H>(hash: Bytes -> H, enc: H -> Bytes, bs: seq<Bytes>): Bytes
    requires |bs| > 1
  {
    var hs, k := LeafHashes(hash, bs), Split(|bs|);
    enc(TreeRoot(Pair(hash, enc), hs[..k])) + enc(TreeRoot(Pair(hash, enc), hs[k..]))
  }

  /** The strings hashed on the way to the root of `bs`. */
  ghost function Hashed<H(!new)>(hash: Bytes -> H, enc: H -> Bytes, bs: seq<Bytes>): set<Bytes> {
    (set b | b in bs) + (set p | p in Pairs(Pair(hash, enc), LeafHashes(hash, bs)) :: enc(p.0) + enc(p.1))
  }

  /** No two of these strings have one hash. */
  ghost predicate HashesApart<H(!new)>(hash: Bytes -> H, strings: set<Bytes>) {
    forall a, b :: a in strings && b in strings && hash(a) == hash(b) ==> a == b
  }

  lemma HalvesApart(a: Bytes, b: Bytes, c: Bytes, d: Bytes)
    requires |a| == |c| && a + b == c + d
    ensures a == c && b == d
  {
    assert a == (a + b)[..|a|] && c == (c + d)[..|c|];
    assert b == (a + b)[|a|..] && d == (c + d)[|c|..];
  }

  lemma PairsApart<H(!new)>(hash: Bytes -> H, enc: H -> Bytes, x: seq<Bytes>, y: seq<Bytes>)
    requires Encoding(enc) && HashesApart(hash, Hashed(hash, enc, x) + Hashed(hash, enc, y))
    ensures CollisionFree(Pair(hash, enc), Pairs(Pair(hash, enc), LeafHashes(hash, x)) + Pairs(Pair(hash, enc), LeafHashes(hash, y)))
  {
    var pair := Pair(hash, enc);
    var pairs := Pairs(pair, LeafHashes(hash, x)) + Pairs(pair, LeafHashes(hash, y));
    forall p, q | p in pairs && q in pairs && pair(p.0, p.1) == pair(q.0, q.1) ensures p == q {
      assert enc(p.0) + enc(p.1) in Hashed(hash, enc, x) + Hashed(hash, enc, y);
      assert enc(q.0) + enc(q.1) in Hashed(hash, enc, x) + Hashed(hash, enc, y);
      HalvesApart(enc(p.0), enc(p.1), enc(q.0), enc(q.1));
    }
  }

  lemma LeavesBind<H(!new)>(hash: Bytes -> H, enc: H -> Bytes, x: seq<Bytes>, y: seq<Bytes>)
    requires HashesApart(hash, Hashed(hash, enc, x) + Hashed(hash, enc, y))
    ensures LeafHashes(hash, x) == LeafHashes(hash, y) <==> x == y
  {
    if LeafHashes(hash, x) == LeafHashes(hash, y) {
      forall i | 0 <= i < |x| ensures x[i] == y[i] {
        assert LeafHashes(hash, x)[i] == hash(x[i]) && LeafHashes(hash, y)[i] == hash(y[i]);
        assert x[i] in Hashed(hash, enc, x) && y[i] in Hashed(hash, enc, y);
      }
    }
  }

  /** The root sees keys and values run together: two tries of one size have one root exactly
      when their entries, in order, have the same joined bytes, if no two of the strings hashed
      for the two roots collide. */
  lemma RootBindsJoinedBytes<H(!new)>(hash: Bytes -> H, enc: H -> Bytes, zero: H, es: seq<Entry>, fs: seq<Entry>)
    requires Encoding(enc) && HashesApart(hash, Hashed(hash, enc, Joined(es)) + Hashed(hash, enc, Joined(fs)))
    requires |es| == |fs|
    ensures RootOf(hash, enc, zero, es) == RootOf(hash, enc, zero, fs) <==> Joined(es) == Joined(fs)
  {
    if es != [] {
      PairsApart(hash, enc, Joined(es), Joined(fs));
      RootBindsLeaves(Pair(hash, enc), LeafHashes(hash, Joined(es)), LeafHashes(hash, Joined(fs)));
      LeavesBind(hash, enc, Joined(es), Joined(fs));
    }
  }

  ghost predicate SameKeyLengths(es: seq<Entry>, fs: seq<Entry>) {
    |es| == |fs| && forall i :: 0 <= i < |es| ==> |es[i].0| == |fs[i].0|
  }

  lemma JoinedBindsWithLengths(es: seq<Entry>, fs: seq<Entry>)
    requires SameKeyLengths(es, fs) && Joined(es) == Joined(fs)
    ensures es == fs
  {
    forall i | 0 <= i < |es|
      ensures es[i] == fs[i]
    {
      var e, f := es[i], fs[i];
      assert e.0 + e.1 == f.0 + f.1 by { assert Joined(es)[i] == Joined(fs)[i]; }
      assert e.0 == (e.0 + e.1)[..|e.0|] == (f.0 + f.1)[..|f.0|] == f.0;
      assert e.1 == (e.0 + e.1)[|e.0|..] == (f.0 + f.1)[|f.0|..] == f.1;
    }
  }

  /** So state changes show in the root whenever key lengths agree entry by entry, in
      particular when only values change. */
  lemma RootBindsEntries<H(!new)>(hash: Bytes -> H, enc: H -> Bytes, zero: H, es: seq<Entry>, fs: seq<Entry>)
    requires Encoding(enc) && HashesApart(hash, Hashed(hash, enc, Joined(es)) + Hashed(hash, enc, Joined(fs)))
    requires SameKeyLengths(es, fs)
    ensures RootOf(hash, enc, zero, es) == RootOf(hash, enc, zero, fs) <==> es == fs
  {
    RootBindsJoinedBytes(hash, enc, zero, es, fs);
    if Joined(es) == Joined(fs) {
      JoinedBindsWithLengths(es, fs);
    }
  }

  /** In general it does not: moving the boundary between a key and its value is invisible. */
  lemma BoundaryInvisible<H>(hash: Bytes -> H, enc: H -> Bytes, zero: H, key: Bytes, b: byte, value: Bytes)
    ensures RootOf(hash, enc, zero, [(key + [b], value)]) == RootOf(hash, enc, zero, [(key, [b] + value)])
    ensures Contents([(key + [b], value)]) != Contents([(key, [b] + value)])
  {
    assert key + [b] + value == key + ([b] + value);
    var e, f := [(key + [b], value)], [(key, [b] + value)];
    assert Joined(e) == [key + [b] + value] == Joined(f);
    assert key in Contents(f) && key !in Contents(e);
  }

  // ----- tries of different sizes

  lemma RootIsInner<H>(hash: Bytes -> H, enc: H -> Bytes, bs: seq<Bytes>)
    requires |bs| > 1
    ensures TreeRoot(Pair(hash, enc), LeafHashes(hash, bs)) == hash(Inner(hash, enc, bs))
  {
  }

  lemma SingleRoot<H>(hash: Bytes -> H, enc: H -> Bytes, zero: H, b: Bytes)
    ensures Sorted([([], b)]) && Joined([([], b)]) == [b] && RootOf(hash, enc, zero, [([], b)]) == hash(b)
  {
    var e: Entry := ([], b);
    assert e.0 + e.1 == b;
    assert Joined([e]) == [b];
  }

  /** Every trie of two or more entries has the root of a trie of one: the entry whose bytes are
      those of the two halves. Nothing marks an inner node off from an entry. */
  lemma InnerNodeAsEntry<H>(hash: Bytes -> H, enc: H -> Bytes, zero: H, es: seq<Entry>)
    requires |es| > 1
    ensures var f := [([], Inner(hash, enc, Joined(es)))];
            Sorted(f) && Joined(f) != Joined(es) && RootOf(hash, enc, zero, f) == RootOf(hash, enc, zero, es)
  {
    RootIsInner(hash, enc, Joined(es));
    SingleRoot(hash, enc, zero, Inner(hash, enc, Joined(es)));
  }

  lemma InnerHashed<H(!new)>(hash: Bytes -> H, enc: H -> Bytes, bs: seq<Bytes>)
    requires |bs| > 1
    ensures Inner(hash, enc, bs) in Hashed(hash, enc, bs)
  {
    var hs, k := LeafHashes(hash, bs), Split(|bs|);
    var p := (TreeRoot(Pair(hash, enc), hs[..k]), TreeRoot(Pair(hash, enc), hs[k..]));
    assert p in Pairs(Pair(hash, enc), hs);
    assert Inner(hash, enc, bs) == enc(p.0) + enc(p.1);
  }

  /** A sorted trie whose joined entries all come from `d`. */
  ghost predicate TrieOver(es: seq<Entry>, d: set<Bytes>) {
    Sorted(es) && forall i :: 0 <= i < |es| ==> es[i].0 + es[i].1 in d
  }

  lemma StretchOverTrie(es: seq<Entry>, lo: nat, hi: nat, d: set<Bytes>)
    requires TrieOver(es, d) && lo < hi <= |es|
    ensures TrieOver(es[lo..hi], d)
  {
  }

  lemma StretchHashes<H>(hash: Bytes -> H, es: seq<Entry>, lo: nat, hi: nat)
    requires lo < hi <= |es|
    ensures LeafHashes(hash, Joined(es[lo..hi])) == LeafHashes(hash, Joined(es))[lo..hi]
  {
    JoinedPart(es, lo, hi);
    HashesOfPart(hash, Joined(es), Joined(es[lo..hi]), lo);
  }

  lemma JoinedPart(es: seq<Entry>, lo: nat, hi: nat)
    requires lo < hi <= |es|
    ensures Joined(es[lo..hi]) == Joined(es)[lo..hi]
  {
    forall t | 0 <= t < hi - lo ensures Joined(es[lo..hi])[t] == Joined(es)[lo + t] {
      assert es[lo..hi][t] == es[lo + t];
    }
  }

  lemma HashesOfPart<H>(hash: Bytes -> H, bs: seq<Bytes>, part: seq<Bytes>, lo: nat)
    requires lo + |part| <= |bs| && part == bs[lo..lo + |part|]
    ensures LeafHashes(hash, part) == LeafHashes(hash, bs)[lo..lo + |part|]
  {
  }

  /** On the finitely many strings that tries over `d` hash, no two collide, and none hashes to the
      root of the empty trie. */
  ghost predicate SoundOver<H(!new)>(hash: Bytes -> H, enc: H -> Bytes, zero: H, d: set<Bytes>) {
    && Encoding(enc)
    && (forall es, fs :: TrieOver(es, d) && TrieOver(fs, d) ==>
          HashesApart(hash, Hashed(hash, enc, Joined(es)) + Hashed(hash, enc, Joined(fs))))
    && (forall es :: TrieOver(es, d) ==> MissesZero(hash, enc, zero, es))
  }

  ghost predicate MissesZero<H(!new)>(hash: Bytes -> H, enc: H -> Bytes, zero: H, es: seq<Entry>) {
    forall b :: b in Hashed(hash, enc, Joined(es)) ==> hash(b) != zero
  }

  /** Roots tell the joined bytes of tries over `d` apart, whatever their sizes. */
  ghost predicate RootsTellTriesApart<H(!new)>(hash: Bytes -> H, enc: H -> Bytes, zero: H, d: set<Bytes>) {
    forall es, fs :: TrieOver(es, d) && TrieOver(fs, d) && Joined(es) != Joined(fs) ==>
      RootOf(hash, enc, zero, es) != RootOf(hash, enc, zero, fs)
  }

  /** No string of `d` is the two halves of a trie over `d`. */
  ghost predicate NoInnerNodes<H(!new)>(hash: Bytes -> H, enc: H -> Bytes, d: set<Bytes>) {
    forall z :: TrieOver(z, d) && |z| > 1 ==> Inner(hash, enc, Joined(z)) !in d
  }

  lemma EntryIsNotInner<H(!new)>(
    hash: Bytes -> H, enc: H -> Bytes, zero: H, d: set<Bytes>, es: seq<Entry>, i: nat, part: seq<Entry>)
    requires SoundOver(hash, enc, zero, d) && NoInnerNodes(hash, enc, d) && TrieOver(es, d) && TrieOver(part, d)
    requires i < |es| && |part| > 1
    ensures hash(Joined(es)[i]) != hash(Inner(hash, enc, Joined(part)))
  {
    InnerHashed(hash, enc, Joined(part));
    assert Joined(es)[i] in Hashed(hash, enc, Joined(es)) && Joined(es)[i] in d;
    assert HashesApart(hash, Hashed(hash, enc, Joined(es)) + Hashed(hash, enc, Joined(part)));
  }

  lemma StretchRoot<H(!new)>(hash: Bytes -> H, enc: H -> Bytes, fs: seq<Entry>, lo: nat, hi: nat)
    requires lo + 1 < hi <= |fs|
    ensures TreeRoot(Pair(hash, enc), LeafHashes(hash, Joined(fs))[lo..hi]) == hash(Inner(hash, enc, Joined(fs[lo..hi])))
  {
    StretchHashes(hash, fs, lo, hi);
    RootIsInner(hash, enc, Joined(fs[lo..hi]));
  }

  lemma StandingRefuted<H(!new)>(
    hash: Bytes -> H, enc: H -> Bytes, zero: H, d: set<Bytes>, es: seq<Entry>, i: nat, fs: seq<Entry>, lo: nat, hi: nat)
    requires SoundOver(hash, enc, zero, d) && NoInnerNodes(hash, enc, d) && TrieOver(es, d) && TrieOver(fs, d)
    ensures !LeafIsInner(Pair(hash, enc), LeafHashes(hash, Joined(es)), i, LeafHashes(hash, Joined(fs)), lo, hi)
  {
    if i < |es| && lo + 1 < hi <= |fs| {
      StretchOverTrie(fs, lo, hi, d);
      StretchRoot(hash, enc, fs, lo, hi);
      EntryIsNotInner(hash, enc, zero, d, es, i, fs[lo..hi]);
    }
  }

  lemma RootMissesZero<H(!new)>(hash: Bytes -> H, enc: H -> Bytes, zero: H, d: set<Bytes>, es: seq<Entry>)
    requires SoundOver(hash, enc, zero, d) && TrieOver(es, d) && es != []
    ensures RootOf(hash, enc, zero, es) != zero
  {
    assert MissesZero(hash, enc, zero, es);
    if |es| == 1 {
      assert Joined(es)[0] in Hashed(hash, enc, Joined(es));
    } else {
      RootIsInner(hash, enc, Joined(es));
      InnerHashed(hash, enc, Joined(es));
    }
  }

  lemma SameTrieRoots<H(!new)>(hash: Bytes -> H, enc: H -> Bytes, zero: H, d: set<Bytes>, es: seq<Entry>, fs: seq<Entry>)
    requires SoundOver(hash, enc, zero, d) && NoInnerNodes(hash, enc, d) && TrieOver(es, d) && TrieOver(fs, d)
    requires es != [] && fs != [] && RootOf(hash, enc, zero, es) == RootOf(hash, enc, zero, fs)
    ensures Joined(es) == Joined(fs)
  {
    var x, y := LeafHashes(hash, Joined(es)), LeafHashes(hash, Joined(fs));
    if x == y {
      LeavesBind(hash, enc, Joined(es), Joined(fs));
    } else {
      PairsApart(hash, enc, Joined(es), Joined(fs));
      var f := SameRootFindsInner(Pair(hash, enc), x, y);
      StandingRefuted(hash, enc, zero, d, es, f.leaf, fs, f.lo, f.hi);
      StandingRefuted(hash, enc, zero, d, fs, f.leaf, es, f.lo, f.hi);
      assert false;
    }
  }

  lemma NoInnerTellsApart<H(!new)>(hash: Bytes -> H, enc: H -> Bytes, zero: H, d: set<Bytes>, es: seq<Entry>, fs: seq<Entry>)
    requires SoundOver(hash, enc, zero, d) && NoInnerNodes(hash, enc, d) && TrieOver(es, d) && TrieOver(fs, d)
    requires Joined(es) != Joined(fs)
    ensures RootOf(hash, enc, zero, es) != RootOf(hash, enc, zero, fs)
  {
    if es == [] {
      RootMissesZero(hash, enc, zero, d, fs);
    } else if fs == [] {
      RootMissesZero(hash, enc, zero, d, es);
    } else if RootOf(hash, enc, zero, es) == RootOf(hash, enc, zero, fs) {
      SameTrieRoots(hash, enc, zero, d, es, fs);
    }
  }

  /** Tries of any sizes, the empty one included, whose joined entries come from a set of strings
      are told apart by their roots, up to the boundary between key and value, exactly when none of
      these strings is the two halves of such a trie. */
  lemma TrieRootBindsIff<H(!new)>(hash: Bytes -> H, enc: H -> Bytes, zero: H, d: set<Bytes>)
    requires SoundOver(hash, enc, zero, d)
    ensures RootsTellTriesApart(hash, enc, zero, d) <==> NoInnerNodes(hash, enc, d)
  {
    if RootsTellTriesApart(hash, enc, zero, d) {
      forall z | TrieOver(z, d) && |z| > 1 ensures Inner(hash, enc, Joined(z)) !in d {
        var b := Inner(hash, enc, Joined(z));
        InnerNodeAsEntry(hash, enc, zero, z);
        SingleRoot(hash, enc, zero, b);
        var e: Entry := ([], b);
        assert e.0 + e.1 == b;
        assert b in d ==> TrieOver([e], d);
      }
    }
    if NoInnerNodes(hash, enc, d) {
      forall es, fs | TrieOver(es, d) && TrieOver(fs, d) && Joined(es) != Joined(fs)
        ensures RootOf(hash, enc, zero, es) != RootOf(hash, enc, zero, fs)
      {
        NoInnerTellsApart(hash, enc, zero, d, es, fs);
      }
    }
  }

  /** Two halves are 64 bytes, so entries of any other length never stand for an inner node. */
  lemma OtherLengthsTellApart<H(!new)>(hash: Bytes -> H, enc: H -> Bytes, zero: H, d: set<Bytes>)
    requires SoundOver(hash, enc, zero, d) && forall b :: b in d ==> |b| != 64
    ensures RootsTellTriesApart(hash, enc, zero, d)
  {
    assert NoInnerNodes(hash, enc, d) by {
      forall z | TrieOver(z, d) && |z| > 1 ensures Inner(hash, enc, Joined(z)) !in d {
        assert |Inner(hash, enc, Joined(z))| == 64;
      }
    }
    TrieRootBindsIff(hash, enc, zero, d);
  }
}
