/** The chained hash table of src/icl_hash.c, updated in place, and the string hash that indexes it. */
module IclHash {
  import opened Prelude

  /** A C string without its terminating NUL. */
  type Key = seq<Byte>

  // ---------------------------------------------------------------- hash_pjw

  const WORD: nat := 0x1_0000_0000
  /** The first value with a bit among the top four of the word. */
  const HIGH: nat := 0x1000_0000

  /** A signed `char` promoted to `unsigned int`. */
  function Promote(c: Byte): nat {
    if c < 128 then c as nat else WORD - 256 + c as nat
  }

  function Bit(n: nat, weight: nat): nat
    requires weight > 0
  {
    n / weight % 2
  }

  /** Exclusive or of two four-bit numbers. */
  function XorNibble(a: nat, b: nat): (r: nat)
    ensures r < 16
  {
    (Bit(a, 1) + Bit(b, 1)) % 2 + (Bit(a, 2) + Bit(b, 2)) % 2 * 2
    + (Bit(a, 4) + Bit(b, 4)) % 2 * 4 + (Bit(a, 8) + Bit(b, 8)) % 2 * 8
  }

  /** Bits 4 to 7, between the bits above and the bits below. */
  lemma NibbleFits(h: nat, above: nat, n: nat, below: nat)
    requires h < HIGH && h == 256 * above + 16 * n + below && n < 16 && below < 16
    ensures n * 16 <= h && h - n * 16 + 240 < HIGH
  {
  }

  function Nibble(h: nat): (n: nat)
    requires h < HIGH
    ensures n < 16 && n * 16 <= h && h - n * 16 + 240 < HIGH
  {
    var above, low := h / 256, h % 256;
    NibbleFits(h, above, low / 16, low % 16);
    low / 16
  }

  /** Folds the top four bits of a word into bits 4 to 7 and clears them. */
  function Fold(h: nat): (r: nat)
    requires h < WORD
    ensures r < HIGH
  {
    var high, low := h / HIGH, h % HIGH;
    if high != 0 then Folded(low, Nibble(low), XorNibble(Nibble(low), high)) else h
  }

  /** Bits 4 to 7 of `h` were `n` and become `x`. */
  function Folded(h: nat, n: nat, x: nat): (r: nat)
    requires n * 16 <= h && h - n * 16 + 240 < HIGH && x < 16
    ensures r < HIGH
  {
    h - n * 16 + x * 16
  }

  function PjwStep(hash: nat, c: Byte): (h: nat)
    ensures h < HIGH
  {
    Fold((hash * 16 + Promote(c)) % WORD)
  }

  function Pjw(key: Key): (h: nat)
    ensures h < HIGH
  {
    if key == [] then 0 else PjwStep(Pjw(key[..|key| - 1]), key[|key| - 1])
  }

  /** The quotient and the remainder by a power of two are the only ones. */
  lemma DivMod(n: nat, k: nat, q: nat, r: nat)
    requires k == 2 || k == 4 || k == 8 || k == 16 || k == 256
    requires n == q * k + r && r < k
    ensures n / k == q && n % k == r
  {
    if k == 2 {
    } else if k == 4 {
    } else if k == 8 {
    } else if k == 16 {
    } else {
    }
  }

  lemma ParityOfSum(p: nat, q: nat)
    ensures (p % 2 + q % 2) % 2 == (p + q) % 2
  {
  }

  lemma FourBits(s1: nat, s2: nat, s4: nat, s8: nat)
    requires s1 < 2 && s2 < 2 && s4 < 2 && s8 < 2
    ensures var x := s1 + s2 * 2 + s4 * 4 + s8 * 8;
      x % 2 == s1 && x / 2 % 2 == s2 && x / 4 % 2 == s4 && x / 8 % 2 == s8
  {
  }

  lemma SumOfBits(a: nat, b: nat, weight: nat)
    requires weight > 0
    ensures (Bit(a, weight) + Bit(b, weight)) % 2 == (a / weight + b / weight) % 2
  {
    ParityOfSum(a / weight, b / weight);
  }

  /** An exclusive or from its four bits. */
  lemma XorByBits(a: nat, b: nat, s1: nat, s2: nat, s4: nat, s8: nat)
    requires s1 == (a / 1 + b / 1) % 2 && s2 == (a / 2 + b / 2) % 2
    requires s4 == (a / 4 + b / 4) % 2 && s8 == (a / 8 + b / 8) % 2
    ensures XorNibble(a, b) == s1 + s2 * 2 + s4 * 4 + s8 * 8
  {
    hide Bit;
    SumOfBits(a, b, 1);
    SumOfBits(a, b, 2);
    SumOfBits(a, b, 4);
    SumOfBits(a, b, 8);
  }

  /** The four bits of an exclusive or. */
  lemma BitsOfXor(a: nat, b: nat)
    ensures var x := XorNibble(a, b);
      && x % 2 == (a / 1 + b / 1) % 2 && x / 2 % 2 == (a / 2 + b / 2) % 2
      && x / 4 % 2 == (a / 4 + b / 4) % 2 && x / 8 % 2 == (a / 8 + b / 8) % 2
  {
    hide XorNibble;
    var s1, s2, s4, s8 := (a / 1 + b / 1) % 2, (a / 2 + b / 2) % 2, (a / 4 + b / 4) % 2, (a / 8 + b / 8) % 2;
    XorByBits(a, b, s1, s2, s4, s8);
    FourBits(s1, s2, s4, s8);
  }

  /**
    A fold keeps the lowest four bits and those from bit 8 to bit 27, adds each of the top four bits without carry to
    one of bits 4 to 7, and clears the top four.
  */
  lemma FoldLaw(h: nat)
    requires h < WORD
    ensures var r, top, middle := Fold(h), h / HIGH, h / 16 % 16;
      && r % 16 == h % 16 && r / 256 == h % HIGH / 256
      && r / 16 % 2 == (middle + top) % 2 && r / 16 / 2 % 2 == (middle / 2 + top / 2) % 2
      && r / 16 / 4 % 2 == (middle / 4 + top / 4) % 2 && r / 16 / 8 % 2 == (middle / 8 + top / 8) % 2
  {
    hide XorNibble, Fold;
    var top, low := h / HIGH, h % HIGH;
    var above, n, below := low / 256, low % 256 / 16, low % 256 % 16;
    assert h == top * HIGH + 256 * above + 16 * n + below;
    DivMod(h, 16, top * (HIGH / 16) + 16 * above + n, below);
    DivMod(h / 16, 16, top * (HIGH / 256) + above, n);
    var x := FoldedMiddle(h, above, n, below);
    DivMod(Fold(h), 16, 16 * above + x, below);
    DivMod(Fold(h), 256, above, 16 * x + below);
    BitsAbove(above, x);
  }

  /** Multiples of 16 do not show in the lowest four bits. */
  lemma BitsAbove(above: nat, x: nat)
    requires x < 16
    ensures var y := 16 * above + x;
      y % 2 == x % 2 && y / 2 % 2 == x / 2 % 2 && y / 4 % 2 == x / 4 % 2 && y / 8 % 2 == x / 8 % 2
  {
    DivMod(16 * above + x, 2, 8 * above + x / 2, x % 2);
    DivMod(8 * above + x / 2, 2, 4 * above + x / 4, x / 2 % 2);
    DivMod(16 * above + x, 4, 4 * above + x / 4, x % 4);
    DivMod(4 * above + x / 4, 2, 2 * above + x / 8, x / 4 % 2);
    DivMod(16 * above + x, 8, 2 * above + x / 8, x % 8);
    DivMod(2 * above + x / 8, 2, above, x / 8 % 2);
  }

  /** Bits 4 to 7 after the fold. */
  lemma FoldedMiddle(h: nat, above: nat, n: nat, below: nat) returns (x: nat)
    requires h < WORD && n < 16 && below < 16 && h % HIGH == 256 * above + 16 * n + below
    ensures x < 16 && Fold(h) == 256 * above + 16 * x + below
    ensures var top := h / HIGH;
      && x % 2 == (n + top) % 2 && x / 2 % 2 == (n / 2 + top / 2) % 2
      && x / 4 % 2 == (n / 4 + top / 4) % 2 && x / 8 % 2 == (n / 8 + top / 8) % 2
  {
    hide XorNibble;
    var top, low := h / HIGH, h % HIGH;
    DivMod(low, 256, above, 16 * n + below);
    DivMod(16 * n + below, 16, n, below);
    BitsOfXor(n, top);
    x := if top == 0 then n else XorNibble(n, top);
  }

  /** The hash of a key as a number to the base 16, without any folding. */
  function ShortHash(key: Key): nat {
    if key == [] then 0 else 16 * ShortHash(key[..|key| - 1]) + key[|key| - 1] as nat
  }

  function Pow16(n: nat): nat {
    if n == 0 then 1 else 16 * Pow16(n - 1)
  }

  /** A key of up to six seven-bit characters is hashed without folding. */
  lemma {:induction false} ShortKeysAreNotFolded(key: Key)
    requires |key| <= 6 && forall k :: 0 <= k < |key| ==> key[k] < 128
    ensures Pjw(key) == ShortHash(key) && ShortHash(key) <= 9 * Pow16(|key|) - 9
  {
    hide Fold;
    if key != [] {
      ShortKeysAreNotFolded(key[..|key| - 1]);
      SmallPowers(|key|);
      SmallIsNotFolded(ShortHash(key));
    }
  }

  lemma SmallIsNotFolded(h: nat)
    requires h < HIGH
    ensures Fold(h) == h
  {
  }

  lemma {:induction false} SmallPowers(n: nat)
    requires n <= 6
    ensures Pow16(n) <= 0x100_0000
    decreases 6 - n
  {
    if n < 6 {
      SmallPowers(n + 1);
    }
  }

  /** A byte above 127 is a negative `char`: it is taken off, not added. */
  lemma NegativeCharacters(hash: nat, c: Byte)
    requires hash < HIGH && 128 <= c
    ensures PjwStep(hash, c) == Fold((hash * 16 + c as nat - 256) % WORD)
  {
    hide Fold;
    assert (hash * 16 + Promote(c)) - WORD == hash * 16 + c as nat - 256;
    assert (hash * 16 + Promote(c)) % WORD == (hash * 16 + c as nat - 256) % WORD;
  }

  /** `hash_pjw`: below 2^28 after every character, so the next shift by four bits loses nothing. */
  method HashPjw(key: Key) returns (hash: nat)
    ensures hash == Pjw(key)
  {
    hash := 0;
    for i := 0 to |key|
      invariant hash == Pjw(key[..i]) && hash < HIGH && hash * 16 < WORD
    {
      assert key[..i + 1][..i] == key[..i];
      hash := (hash * 16 + Promote(key[i])) % WORD;
      hash := Fold(hash);
    }
    assert key[..|key|] == key;
  }

  // ---------------------------------------------------------------- the table

  class Entry<V> {
    const key: Key
    const data: V
    var next: Entry?<V>

    constructor (key: Key, data: V, next: Entry?<V>)
      ensures this.key == key && this.data == data && this.next == next
    {
      this.key, this.data, this.next := key, data, next;
    }
  }

  /** `chain` lists the entries reached from `head` by `next`, up to NULL. */
  ghost predicate Linked<V>(head: Entry?<V>, chain: seq<Entry<V>>)
    reads chain
  {
    && head == At(chain, 0)
    && forall j {:trigger chain[j].next} :: 0 <= j < |chain| ==> chain[j].next == At(chain, j + 1)
  }

  ghost function At<V>(chain: seq<Entry<V>>, j: nat): Entry?<V> {
    if j < |chain| then chain[j] else null
  }

  ghost predicate HasKey<V>(chain: seq<Entry<V>>, key: Key) {
    exists j :: 0 <= j < |chain| && chain[j].key == key
  }

  ghost predicate Covered<V>(chains: seq<seq<Entry<V>>>, repr: set<Entry<V>>) {
    forall b, j :: 0 <= b < |chains| && 0 <= j < |chains[b]| ==> chains[b][j] in repr
  }

  /** Index of the bucket of a key. */
  function BucketOf(key: Key, nbuckets: nat): (b: nat)
    requires nbuckets > 0
    ensures b < nbuckets
  {
    Pjw(key) % nbuckets
  }

  /** Bucket `b` holds only keys that hash to it, each once, each with its data. */
  ghost predicate BucketOk<V>(chain: seq<Entry<V>>, b: nat, nbuckets: nat, entries: map<Key, V>)
    requires nbuckets > 0
  {
    && (forall j :: 0 <= j < |chain| ==>
          BucketOf(chain[j].key, nbuckets) == b && chain[j].key in entries && entries[chain[j].key] == chain[j].data)
    && (forall i, j :: 0 <= i < j < |chain| ==> chain[i].key != chain[j].key)
  }

  /** The chains hold exactly the entries of a finite map. */
  ghost predicate Indexes<V>(chains: seq<seq<Entry<V>>>, entries: map<Key, V>)
    requires |chains| > 0
  {
    && (forall b :: 0 <= b < |chains| ==> BucketOk(chains[b], b, |chains|, entries))
    && (forall k {:trigger HasKey(chains[BucketOf(k, |chains|)], k)} :: k in entries ==>
      HasKey(chains[BucketOf(k, |chains|)], k))
  }

  lemma IndexesAfterInsert<V>(chains: seq<seq<Entry<V>>>, entries: map<Key, V>, e: Entry<V>)
    requires |chains| > 0 && Indexes(chains, entries) && e.key !in entries
    ensures var b := BucketOf(e.key, |chains|);
      Indexes(chains[b := [e] + chains[b]], entries[e.key := e.data])
  {
    var at := BucketOf(e.key, |chains|);
    var chains', entries' := chains[at := [e] + chains[at]], entries[e.key := e.data];
    assert BucketOk(chains[at], at, |chains|, entries);
    forall b | 0 <= b < |chains| ensures BucketOk(chains'[b], b, |chains|, entries') {
      assert BucketOk(chains[b], b, |chains|, entries);
    }
    forall k | k in entries' ensures HasKey(chains'[BucketOf(k, |chains'|)], k) {
      var b := BucketOf(k, |chains|);
      if k == e.key {
        assert chains'[b][0].key == k;
      } else {
        assert HasKey(chains[BucketOf(k, |chains|)], k);
        var i :| 0 <= i < |chains[b]| && chains[b][i].key == k;
        assert chains'[b][if b == at then i + 1 else i].key == k;
      }
    }
  }

  lemma IndexesAfterDelete<V>(chains: seq<seq<Entry<V>>>, entries: map<Key, V>, at: nat, j: nat)
    requires |chains| > 0 && Indexes(chains, entries) && at < |chains| && j < |chains[at]|
    ensures Indexes(chains[at := chains[at][..j] + chains[at][j + 1..]], entries - {chains[at][j].key})
  {
    var chain, key := chains[at], chains[at][j].key;
    var rest := chain[..j] + chain[j + 1..];
    var chains', entries' := chains[at := rest], entries - {key};
    assert BucketOk(chain, at, |chains|, entries);
    forall b | 0 <= b < |chains| ensures BucketOk(chains'[b], b, |chains|, entries') {
      assert BucketOk(chains[b], b, |chains|, entries);
      if b == at {
        assert forall i :: 0 <= i < |rest| ==> rest[i] == chain[if i < j then i else i + 1];
      }
    }
    forall k | k in entries' ensures HasKey(chains'[BucketOf(k, |chains'|)], k) {
      var b := BucketOf(k, |chains|);
      assert HasKey(chains[BucketOf(k, |chains|)], k);
      var i :| 0 <= i < |chains[b]| && chains[b][i].key == k;
      if b == at {
        assert rest[if i < j then i else i - 1] == chain[i];
      }
    }
  }

  class Table<V(==)> {
    const buckets: array<Entry?<V>>
    var nentries: int
    ghost var chains: seq<seq<Entry<V>>>
    ghost var repr: set<Entry<V>>
    /** The finite map the table stands for. */
    ghost var entries: map<Key, V>

    /** The entries in memory are linked as `chains` says. */
    ghost predicate Shape()
      reads this`chains, this`repr, buckets, repr
    {
      && 0 < buckets.Length == |chains|
      && Covered(chains, repr)
      && (forall b :: 0 <= b < |chains| ==> Linked(buckets[b], chains[b]))
    }

    ghost predicate Valid()
      reads this, buckets, repr
    {
      && Shape()
      && Indexes(chains, entries)
      && nentries == |entries|
    }

    constructor (nbuckets: nat)
      requires nbuckets > 0
      ensures Valid() && fresh(buckets) && repr == {} && entries == map[]
      ensures buckets.Length == nbuckets
    {
      buckets := new Entry?<V>[nbuckets](_ => null);
      nentries := 0;
      chains := seq(nbuckets, _ => []);
      repr, entries := {}, map[];
    }

    /** Walks the bucket of `key`; `prev` is the entry before the one found. */
    method Locate(key: Key) returns (hashVal: nat, prev: Entry?<V>, curr: Entry?<V>, ghost j: nat)
      requires Valid()
      ensures hashVal == BucketOf(key, buckets.Length) && j <= |chains[hashVal]|
      ensures curr == At(chains[hashVal], j) && prev == if j > 0 then chains[hashVal][j - 1] else null
      ensures curr != null <==> key in entries
      ensures curr != null ==> curr.key == key && curr.data == entries[key]
    {
      var h := HashPjw(key);
      hashVal := h % buckets.Length;
      ghost var chain := chains[hashVal];
      assert Linked(buckets[hashVal], chain) && BucketOk(chain, hashVal, buckets.Length, entries);
      prev, curr, j := null, buckets[hashVal], 0;
      while curr != null && curr.key != key
        invariant j <= |chain| && curr == At(chain, j)
        invariant prev == if j > 0 then chain[j - 1] else null
        invariant forall i :: 0 <= i < j ==> chain[i].key != key
        decreases |chain| - j
      {
        assert chain[j].next == At(chain, j + 1);
        prev, curr, j := curr, curr.next, j + 1;
      }
      assert key in entries ==> HasKey(chains[BucketOf(key, |chains|)], key);
    }

    /** `icl_hash_find` */
    method Find(key: Key) returns (data: Option<V>)
      requires Valid()
      ensures data == if key in entries then Some(entries[key]) else None
    {
      var hashVal, prev, curr, j := Locate(key);
      if curr == null {
        return None;
      }
      return Some(curr.data);
    }

    method Prepend(b: nat, key: Key, data: V) returns (e: Entry<V>)
      requires Shape() && b < |chains|
      modifies this`chains, this`repr, buckets
      ensures Shape() && fresh(e) && e.key == key && e.data == data
      ensures chains == old(chains)[b := [e] + old(chains[b])] && repr == old(repr) + {e}
    {
      e := new Entry(key, data, buckets[b]);
      ghost var chain := [e] + chains[b];
      assert Linked(buckets[b], chains[b]);
      buckets[b] := e;
      assert Linked(e, chain);
      chains := chains[b := chain];
      repr := repr + {e};
      forall i | 0 <= i < |chains| ensures Linked(buckets[i], chains[i]) {
        assert i != b ==> old(Linked(buckets[i], chains[i])) && chains[i] == old(chains[i]);
      }
    }

    /** Unlinks entry `j` of chain `b`; `prev` is the entry before it. */
    method Unlink(b: nat, prev: Entry?<V>, curr: Entry<V>, ghost j: nat)
      requires Shape() && b < |chains| && j < |chains[b]|
      requires curr == chains[b][j] && prev == if j > 0 then chains[b][j - 1] else null
      requires forall i, k :: 0 <= i < k < |chains[b]| ==> chains[b][i] != chains[b][k]
      requires forall i, k :: 0 <= i < |chains| && i != b && 0 <= k < |chains[i]| ==> chains[i][k] != prev
      modifies this`chains, buckets, (if prev == null then {} else {prev})`next
      ensures Shape()
      ensures chains == old(chains)[b := old(chains[b])[..j] + old(chains[b])[j + 1..]]
    {
      ghost var chain := chains[b];
      ghost var rest := chain[..j] + chain[j + 1..];
      assert Linked(buckets[b], chain);
      if prev == null {
        buckets[b] := curr.next;
      } else {
        prev.next := curr.next;
      }
      assert Linked(buckets[b], rest);
      chains := chains[b := rest];
      forall i | 0 <= i < |chains| ensures Linked(buckets[i], chains[i]) {
        assert i != b ==> old(Linked(buckets[i], chains[i])) && chains[i] == old(chains[i]) && prev !in chains[i];
      }
    }

    /** `icl_hash_insert`: refuses a key that is already there, otherwise adds at the start of its bucket. */
    method Insert(key: Key, data: V) returns (ok: bool)
      requires Valid()
      modifies this`nentries, this`entries, this`chains, this`repr, buckets
      ensures Valid() && old(repr) <= repr && fresh(repr - old(repr))
      ensures ok == (key !in old(entries))
      ensures entries == if ok then old(entries)[key := data] else old(entries)
    {
      var hashVal, prev, curr, j := Locate(key);
      if curr != null {
        return false;
      }
      nentries := nentries + 1;
      entries := entries[key := data];
      var e := Prepend(hashVal, key, data);
      IndexesAfterInsert(old(chains), old(entries), e);
      return true;
    }

    /** The part of `icl_hash_delete` that follows the walk. */
    method Drop(b: nat, prev: Entry?<V>, curr: Entry<V>, ghost j: nat)
      requires Valid() && b < |chains| && j < |chains[b]| && curr == chains[b][j] && curr.key in entries
      requires prev == if j > 0 then chains[b][j - 1] else null
      modifies this`nentries, this`entries, this`chains, buckets, repr`next
      ensures Valid() && repr == old(repr)
      ensures entries == old(entries) - {curr.key}
    {
      hide Indexes, Linked;
      DistinctEntries(chains, entries, b);
      if j > 0 {
        OneBucket(chains, entries, b, j - 1);
      }
      IndexesAfterDelete(chains, entries, b, j);
      nentries := nentries - 1;
      entries := entries - {curr.key};
      Unlink(b, prev, curr, j);
    }

    /** `icl_hash_delete`: 0 when the key was found and unlinked, -1 otherwise. */
    method Delete(key: Key) returns (status: int)
      requires Valid()
      modifies this`nentries, this`entries, this`chains, buckets, repr`next
      ensures Valid() && repr == old(repr)
      ensures status == if key in old(entries) then 0 else -1
      ensures entries == old(entries) - {key}
    {
      hide Pjw, Indexes, Linked;
      var hashVal, prev, curr, j := Locate(key);
      if curr == null {
        assert entries == entries - {key};
        return -1;
      }
      Drop(hashVal, prev, curr, j);
      return 0;
    }
  }

  lemma DistinctEntries<V>(chains: seq<seq<Entry<V>>>, entries: map<Key, V>, b: nat)
    requires |chains| > 0 && Indexes(chains, entries) && b < |chains|
    ensures forall i, k :: 0 <= i < k < |chains[b]| ==> chains[b][i] != chains[b][k]
  {
    assert BucketOk(chains[b], b, |chains|, entries);
  }

  /** No entry is in two buckets. */
  lemma OneBucket<V>(chains: seq<seq<Entry<V>>>, entries: map<Key, V>, b: nat, j: nat)
    requires |chains| > 0 && Indexes(chains, entries) && b < |chains| && j < |chains[b]|
    ensures forall i, k :: 0 <= i < |chains| && i != b && 0 <= k < |chains[i]| ==> chains[i][k] != chains[b][j]
  {
    assert BucketOk(chains[b], b, |chains|, entries);
    forall i, k | 0 <= i < |chains| && i != b && 0 <= k < |chains[i]| ensures chains[i][k] != chains[b][j] {
      assert BucketOk(chains[i], i, |chains|, entries);
    }
  }
}
