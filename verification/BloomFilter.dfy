/** The Bloom filter: a byte array with bit operations that refines a set of bit positions. */
module BloomFilter {
  import opened Options
  import RingModel

  // ----- one byte

  predicate Bit(b: bv8, i: nat)
    requires i < 8
  {
    b & ((1 as bv8) << i) != 0
  }

  lemma {:induction false} SetBit(b: bv8, i: nat, j: nat)
    requires i < 8 && j < 8
    ensures Bit(b | ((1 as bv8) << i), j) <==> i == j || Bit(b, j)
  {
    assert i == 0 || i == 1 || i == 2 || i == 3 || i == 4 || i == 5 || i == 6 || i == 7;
    assert j == 0 || j == 1 || j == 2 || j == 3 || j == 4 || j == 5 || j == 6 || j == 7;
  }

  lemma NoBit(i: nat)
    requires i < 8
    ensures !Bit(0, i)
  {
  }

  /** A byte is determined by its bits. */
  lemma BitsDetermineByte(a: bv8, b: bv8)
    requires forall i :: 0 <= i < 8 ==> (Bit(a, i) <==> Bit(b, i))
    ensures a == b
  {
    assert Bit(a, 0) <==> Bit(b, 0);
    assert Bit(a, 1) <==> Bit(b, 1);
    assert Bit(a, 2) <==> Bit(b, 2);
    assert Bit(a, 3) <==> Bit(b, 3);
    assert Bit(a, 4) <==> Bit(b, 4);
    assert Bit(a, 5) <==> Bit(b, 5);
    assert Bit(a, 6) <==> Bit(b, 6);
    assert Bit(a, 7) <==> Bit(b, 7);
  }

  // ----- the filter as a set of positions

  /** The i-th position of a key: a digest of the key and i, reduced to the size. */
  function Position(digest: string -> nat, size: nat, key: string, i: nat): (p: nat)
    requires size > 0
    ensures p < size
  {
    digest(key + "|" + RingModel.Decimal(i)) % size
  }

  /** Hashing a key divides by the size: a filter of size 0 can hash keys only if it asks for no
      hashes at all. */
  predicate Usable(size: nat, hashes: nat) {
    size > 0 || hashes == 0
  }

  function Positions(digest: string -> nat, size: nat, hashes: nat, key: string): set<nat>
    requires Usable(size, hashes)
  {
    set i | 0 <= i < hashes :: Position(digest, size, key, i)
  }

  /** The positions of a key are the digests of the key and an index in decimal, joined by a bar,
      reduced to the size. */
  lemma PositionsAre(digest: string -> nat, size: nat, hashes: nat, key: string, p: nat)
    requires Usable(size, hashes)
    ensures p in Positions(digest, size, hashes, key) <==>
      exists i: nat :: i < hashes && p == digest(key + "|" + RingModel.Decimal(i)) % size
  {
    if p in Positions(digest, size, hashes, key) {
      var i: nat :| i < hashes && p == Position(digest, size, key, i);
      assert p == digest(key + "|" + RingModel.Decimal(i)) % size;
    }
    if i: nat :| i < hashes && p == digest(key + "|" + RingModel.Decimal(i)) % size {
      assert p == Position(digest, size, key, i);
    }
  }

  datatype Change = Added(key: string) | Cleared | Loaded(keys: seq<string>)

  function AddAll(digest: string -> nat, size: nat, hashes: nat, bits: set<nat>, keys: seq<string>): set<nat>
    requires Usable(size, hashes)
  {
    if keys == [] then bits
    else
      AddAll(digest, size, hashes, bits, keys[..|keys| - 1]) + Positions(digest, size, hashes, keys[|keys| - 1])
  }

  /** The set positions after a history of changes to an empty filter. */
  function Run(digest: string -> nat, size: nat, hashes: nat, history: seq<Change>): set<nat>
    requires Usable(size, hashes)
  {
    if history == [] then {}
    else
      var before := Run(digest, size, hashes, history[..|history| - 1]);
      match history[|history| - 1]
      case Added(key) => before + Positions(digest, size, hashes, key)
      case Cleared => {}
      case Loaded(keys) => AddAll(digest, size, hashes, {}, keys)
  }

  /** The keys added since the last clear or load, those of the load included. */
  function Present(history: seq<Change>): set<string> {
    if history == [] then {}
    else
      match history[|history| - 1]
      case Added(key) => Present(history[..|history| - 1]) + {key}
      case Cleared => {}
      case Loaded(keys) => set k | k in keys
  }

  lemma {:induction false} AddAllExact(digest: string -> nat, size: nat, hashes: nat, bits: set<nat>,
                                       keys: seq<string>, p: nat)
    requires Usable(size, hashes)
    ensures p in AddAll(digest, size, hashes, bits, keys) <==>
      p in bits || exists k :: k in keys && p in Positions(digest, size, hashes, k)
  {
    if keys != [] {
      var init, last := keys[..|keys| - 1], keys[|keys| - 1];
      assert keys == init + [last];
      AddAllExact(digest, size, hashes, bits, init, p);
    }
  }

  /** Over every history, a position is set exactly when some present key hashes to it. In
      particular the filter does not depend on the order of additions. */
  lemma {:induction false} RunExact(digest: string -> nat, size: nat, hashes: nat, history: seq<Change>, p: nat)
    requires Usable(size, hashes)
    ensures p in Run(digest, size, hashes, history) <==>
      exists k :: k in Present(history) && p in Positions(digest, size, hashes, k)
  {
    if history != [] {
      RunExact(digest, size, hashes, history[..|history| - 1], p);
      if history[|history| - 1].Loaded? {
        AddAllExact(digest, size, hashes, {}, history[|history| - 1].keys, p);
      }
    }
  }

  lemma SameKeysSameFilter(digest: string -> nat, size: nat, hashes: nat, a: seq<Change>, b: seq<Change>)
    requires Usable(size, hashes) && Present(a) == Present(b)
    ensures Run(digest, size, hashes, a) == Run(digest, size, hashes, b)
  {
    forall p: nat
      ensures p in Run(digest, size, hashes, a) <==> p in Run(digest, size, hashes, b)
    {
      RunExact(digest, size, hashes, a, p);
      RunExact(digest, size, hashes, b, p);
    }
  }

  ghost predicate Reported(digest: string -> nat, size: nat, hashes: nat, bits: set<nat>, key: string)
    requires Usable(size, hashes)
  {
    Positions(digest, size, hashes, key) <= bits
  }

  /** A key is reported exactly when every one of its positions is a position of some present key;
      so a present key is never reported absent. */
  lemma ReportedExactly(digest: string -> nat, size: nat, hashes: nat, history: seq<Change>, key: string)
    requires Usable(size, hashes)
    ensures Reported(digest, size, hashes, Run(digest, size, hashes, history), key) <==>
      forall p :: p in Positions(digest, size, hashes, key) ==>
        exists k :: k in Present(history) && p in Positions(digest, size, hashes, k)
    ensures key in Present(history) ==> Reported(digest, size, hashes, Run(digest, size, hashes, history), key)
  {
    forall p: nat
      ensures p in Run(digest, size, hashes, history) <==>
        exists k :: k in Present(history) && p in Positions(digest, size, hashes, k)
    {
      RunExact(digest, size, hashes, history, p);
    }
  }

  /** Some present key has a digest congruent, modulo the size, to the key's i-th digest. */
  ghost predicate Covered(digest: string -> nat, size: nat, hashes: nat, present: set<string>, key: string, i: nat)
    requires size > 0
  {
    exists k: string, j: nat :: k in present && j < hashes
      && digest(key + "|" + RingModel.Decimal(i)) % size == digest(k + "|" + RingModel.Decimal(j)) % size
  }

  /** The answer read off the digests: a key is reported exactly when each of its digests is congruent,
      modulo the size, to one of a present key; one that is congruent to none is enough to report it
      absent. */
  lemma {:induction false} ReportedByDigests(digest: string -> nat, size: nat, hashes: nat, history: seq<Change>,
                                             key: string)
    requires size > 0
    ensures Reported(digest, size, hashes, Run(digest, size, hashes, history), key) <==>
      forall i: nat :: i < hashes ==> Covered(digest, size, hashes, Present(history), key, i)
  {
    var bits, present := Run(digest, size, hashes, history), Present(history);
    ReportedByBits(digest, size, hashes, bits, key);
    if Reported(digest, size, hashes, bits, key) {
      forall i: nat | i < hashes
        ensures Covered(digest, size, hashes, present, key, i)
      {
        SetIffCovered(digest, size, hashes, history, key, i);
      }
    } else {
      var i: nat :| i < hashes && !DigestSet(digest, size, bits, key, i);
      SetIffCovered(digest, size, hashes, history, key, i);
    }
  }

  /** The bit of the key's i-th digest is set. */
  ghost predicate DigestSet(digest: string -> nat, size: nat, bits: set<nat>, key: string, i: nat)
    requires size > 0
  {
    digest(key + "|" + RingModel.Decimal(i)) % size in bits
  }

  lemma {:induction false} ReportedByBits(digest: string -> nat, size: nat, hashes: nat, bits: set<nat>, key: string)
    requires size > 0
    ensures Reported(digest, size, hashes, bits, key) <==>
      forall i: nat :: i < hashes ==> DigestSet(digest, size, bits, key, i)
  {
    if Reported(digest, size, hashes, bits, key) {
      forall i: nat | i < hashes
        ensures DigestSet(digest, size, bits, key, i)
      {
        assert Position(digest, size, key, i) in Positions(digest, size, hashes, key);
      }
    }
    if forall i: nat :: i < hashes ==> DigestSet(digest, size, bits, key, i) {
      forall p | p in Positions(digest, size, hashes, key)
        ensures p in bits
      {
        var i: nat :| i < hashes && p == Position(digest, size, key, i);
        assert DigestSet(digest, size, bits, key, i);
      }
    }
  }

  lemma {:induction false} SetIffCovered(digest: string -> nat, size: nat, hashes: nat, history: seq<Change>,
                                         key: string, i: nat)
    requires size > 0
    ensures DigestSet(digest, size, Run(digest, size, hashes, history), key, i) <==>
      Covered(digest, size, hashes, Present(history), key, i)
  {
    var p := digest(key + "|" + RingModel.Decimal(i)) % size;
    RunExact(digest, size, hashes, history, p);
    forall k
      ensures p in Positions(digest, size, hashes, k) <==>
        exists j: nat :: j < hashes && p == digest(k + "|" + RingModel.Decimal(j)) % size
    {
      PositionsAre(digest, size, hashes, k, p);
    }
  }

  /** Without a clear or load, a positive answer stays positive. */
  lemma {:induction false} AnswersOnlyGrow(digest: string -> nat, size: nat, hashes: nat, history: seq<Change>,
                                           n: nat, key: string)
    requires Usable(size, hashes) && n <= |history| && forall i :: n <= i < |history| ==> history[i].Added?
    requires Reported(digest, size, hashes, Run(digest, size, hashes, history[..n]), key)
    ensures Reported(digest, size, hashes, Run(digest, size, hashes, history), key)
  {
    if n == |history| {
      assert history[..n] == history;
    } else {
      var init := history[..|history| - 1];
      assert init[..n] == history[..n];
      AnswersOnlyGrow(digest, size, hashes, init, n, key);
    }
  }

  // ----- the byte array

  class BloomFilter {
    const digest: string -> nat
    const sizeBits: nat
    const numHashes: nat
    var bits: array<bv8>

    ghost predicate Valid()
      reads this
    {
      bits.Length * 8 == sizeBits
    }

    /** The filter can hash keys. */
    predicate Ready() {
      Usable(sizeBits, numHashes)
    }

    /** The positions whose bit is set. */
    ghost function Bits(): set<nat>
      requires Valid()
      reads this, bits
    {
      set p: nat | p < sizeBits && Bit(bits[p / 8], p % 8)
    }

    ghost function Of(key: string): set<nat>
      requires Valid() && Ready()
      reads this
    {
      Positions(digest, sizeBits, numHashes, key)
    }

    constructor (digest: string -> nat, sizeBytes: nat, numHashes: nat)
      ensures Valid() && fresh(bits) && Bits() == {}
      ensures this.digest == digest && this.numHashes == numHashes && sizeBits == 8 * sizeBytes
    {
      this.digest, this.sizeBits, this.numHashes := digest, sizeBytes * 8, numHashes;
      bits := new bv8[sizeBytes](_ => 0);
      new;
      forall p: nat | p < sizeBits
        ensures !Bit(bits[p / 8], p % 8)
      {
        NoBit(p % 8);
      }
    }

    /** Sets one bit and leaves every other bit alone. */
    method SetPosition(p: nat)
      requires Valid() && p < sizeBits
      modifies bits
      ensures Valid() && Bits() == old(Bits()) + {p}
    {
      var byteIdx, bitIdx := p / 8, p % 8;
      bits[byteIdx] := bits[byteIdx] | ((1 as bv8) << bitIdx);
      forall q: nat | q < sizeBits
        ensures Bit(bits[q / 8], q % 8) <==> q == p || old(Bit(bits[q / 8], q % 8))
      {
        if q / 8 == byteIdx {
          SetBit(old(bits[byteIdx]), bitIdx, q % 8);
        }
      }
    }

    /** Sets the key's positions; fails, changing nothing, if the filter cannot hash. */
    method Add(key: string) returns (ok: bool)
      requires Valid()
      modifies bits
      ensures Valid() && (ok <==> Ready())
      ensures Bits() == if Ready() then old(Bits()) + Of(key) else old(Bits())
    {
      if !Ready() {
        return false;
      }
      for i := 0 to numHashes
        invariant Valid() && Bits() == old(Bits()) + Positions(digest, sizeBits, i, key)
      {
        SetPosition(Position(digest, sizeBits, key, i));
        assert Positions(digest, sizeBits, i + 1, key)
            == Positions(digest, sizeBits, i, key) + {Position(digest, sizeBits, key, i)};
      }
      return true;
    }

    /** False only if some position of the key is not set; no answer if the filter cannot hash. */
    method MightExist(key: string) returns (r: Option<bool>)
      requires Valid()
      ensures r.Some? <==> Ready()
      ensures r.Some? ==> (r.value <==> Reported(digest, sizeBits, numHashes, Bits(), key))
    {
      if !Ready() {
        return None;
      }
      for i := 0 to numHashes
        invariant Positions(digest, sizeBits, i, key) <= Bits()
      {
        var p := Position(digest, sizeBits, key, i);
        if bits[p / 8] & ((1 as bv8) << (p % 8)) == 0 {
          assert p in Of(key) && p !in Bits();
          return Some(false);
        }
        assert Positions(digest, sizeBits, i + 1, key) == Positions(digest, sizeBits, i, key) + {p};
      }
      return Some(true);
    }

    /** Replaces the array by a fresh one. */
    method Clear()
      requires Valid()
      modifies this
      ensures Valid() && fresh(bits) && Bits() == {}
    {
      bits := new bv8[bits.Length](_ => 0);
      forall p: nat | p < sizeBits
        ensures !Bit(bits[p / 8], p % 8)
      {
        NoBit(p % 8);
      }
    }

    /** Clears the filter and adds the keys; the first key fails if the filter cannot hash. */
    method LoadFromSnapshot(keys: seq<string>) returns (ok: bool)
      requires Valid()
      modifies this
      ensures Valid() && fresh(bits)
      ensures ok <==> Ready() || keys == []
      ensures Bits() == if Ready() then AddAll(digest, sizeBits, numHashes, {}, keys) else {}
    {
      Clear();
      for i := 0 to |keys|
        invariant Valid() && fresh(bits) && (i > 0 ==> Ready())
        invariant Bits() == if Ready() then AddAll(digest, sizeBits, numHashes, {}, keys[..i]) else {}
      {
        var added := Add(keys[i]);
        if !added {
          return false;
        }
        assert keys[..i + 1][..i] == keys[..i];
      }
      assert keys[..|keys|] == keys;
      return true;
    }
  }

  /** Two filters of the same size with the same positions set have the same bytes; with
      SameKeysSameFilter, the array does not depend on the order in which keys were added. */
  lemma SameBitsSameBytes(f: BloomFilter, g: BloomFilter)
    requires f.Valid() && g.Valid() && f.sizeBits == g.sizeBits && f.Bits() == g.Bits()
    ensures f.bits[..] == g.bits[..]
  {
    forall b | 0 <= b < f.bits.Length
      ensures f.bits[b] == g.bits[b]
    {
      forall i | 0 <= i < 8
        ensures Bit(f.bits[b], i) <==> Bit(g.bits[b], i)
      {
        var p: nat := 8 * b + i;
        assert p / 8 == b && p % 8 == i;
        assert p in f.Bits() <==> p in g.Bits();
      }
      BitsDetermineByte(f.bits[b], g.bits[b]);
    }
  }
}
