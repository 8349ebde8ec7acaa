/** The chained hash table: buckets that double, entries relinked in place, and an iterator that
    survives the deletion of the entry it returned. */
module Dict {
  import opened Bits
  import opened Bytes

  const INITIAL_SIZE: nat := 4

  datatype Entry<K, V> = Entry(key: K, val: V)

  /** A chain, from the entry the bucket points to on. */
  type Chain<K, V> = seq<Entry<K, V>>

  function Home<K>(hash: K -> nat, key: K, size: nat): (h: nat)
    requires size > 0
    ensures h < size
  {
    hash(key) % size
  }

  predicate InChain<K(==), V>(c: Chain<K, V>, key: K) {
    exists j :: 0 <= j < |c| && c[j].key == key
  }

  /** The buckets hold exactly the entries of m, each in its own bucket and once. */
  ghost predicate Holds<K(!new), V(!new)>(b: seq<Chain<K, V>>, hash: K -> nat, m: map<K, V>) {
    && (forall i, j :: 0 <= i < |b| && 0 <= j < |b[i]| ==>
          b[i][j].key in m && m[b[i][j].key] == b[i][j].val && Home(hash, b[i][j].key, |b|) == i)
    && (forall k :: k in m ==> |b| > 0 && InChain(b[Home(hash, k, |b|)], k))
    && (forall i, j, j' :: 0 <= i < |b| && 0 <= j < j' < |b[i]| ==> b[i][j].key != b[i][j'].key)
  }

  function Total<K, V>(b: seq<Chain<K, V>>): nat {
    if b == [] then 0 else |b[0]| + Total(b[1..])
  }

  lemma {:induction false} TotalUpdate<K, V>(b: seq<Chain<K, V>>, h: nat, c: Chain<K, V>)
    requires h < |b|
    ensures Total(b[h := c]) == Total(b) - |b[h]| + |c|
    decreases h
  {
    if h > 0 {
      TotalUpdate(b[1..], h - 1, c);
      assert b[h := c][1..] == b[1..][h - 1 := c];
    } else {
      assert b[h := c][1..] == b[1..];
    }
  }

  lemma {:induction false} TotalZero<K, V>(b: seq<Chain<K, V>>, i: nat)
    requires Total(b) == 0 && i < |b|
    ensures b[i] == []
    decreases i
  {
    if i > 0 {
      TotalZero(b[1..], i - 1);
    }
  }

  lemma {:induction false} TotalEmpty<K, V>(b: seq<Chain<K, V>>)
    requires forall i :: 0 <= i < |b| ==> b[i] == []
    ensures Total(b) == 0
    decreases |b|
  {
    if b != [] {
      TotalEmpty(b[1..]);
    }
  }

  lemma HoldsInsert<K(!new), V(!new)>(b: seq<Chain<K, V>>, hash: K -> nat, m: map<K, V>, e: Entry<K, V>)
    requires Holds(b, hash, m) && |b| > 0 && e.key !in m
    ensures var h := Home(hash, e.key, |b|);
            Holds(b[h := [e] + b[h]], hash, m[e.key := e.val])
  {
    var h := Home(hash, e.key, |b|);
    var b': seq<Chain<K, V>>, m' := b[h := [e] + b[h]], m[e.key := e.val];
    forall k | k in m' ensures InChain(b'[Home(hash, k, |b|)], k) {
      if k == e.key {
        assert b'[h][0].key == k;
      } else {
        var i := Home(hash, k, |b|);
        var j :| 0 <= j < |b[i]| && b[i][j].key == k;
        assert b'[i][if i == h then j + 1 else j].key == k;
      }
    }
  }

  lemma HoldsRemove<K(!new), V(!new)>(b: seq<Chain<K, V>>, hash: K -> nat, m: map<K, V>, h: nat, j: nat)
    requires Holds(b, hash, m) && h < |b| && j < |b[h]|
    ensures Holds(b[h := b[h][..j] + b[h][j + 1..]], hash, m - {b[h][j].key})
  {
    var c: Chain<K, V> := b[h][..j] + b[h][j + 1..];
    var b': seq<Chain<K, V>>, m' := b[h := c], m - {b[h][j].key};
    forall i, x | 0 <= i < |b'| && 0 <= x < |b'[i]|
      ensures b'[i][x].key in m' && m'[b'[i][x].key] == b'[i][x].val && Home(hash, b'[i][x].key, |b|) == i
    {
      assert b'[i][x] == b[i][if i == h && x >= j then x + 1 else x];
    }
    forall k | k in m' ensures InChain(b'[Home(hash, k, |b|)], k) {
      var i := Home(hash, k, |b|);
      var x :| 0 <= x < |b[i]| && b[i][x].key == k;
      assert b'[i][if i == h && x > j then x - 1 else x].key == k;
    }
    forall i, x, y | 0 <= i < |b'| && 0 <= x < y < |b'[i]| ensures b'[i][x].key != b'[i][y].key {
      assert b'[i][x] == b[i][if i == h && x >= j then x + 1 else x];
      assert b'[i][y] == b[i][if i == h && y >= j then y + 1 else y];
    }
  }

  lemma HoldsUpdate<K(!new), V(!new)>(b: seq<Chain<K, V>>, hash: K -> nat, m: map<K, V>, h: nat, j: nat, val: V)
    requires Holds(b, hash, m) && h < |b| && j < |b[h]|
    ensures Holds(b[h := b[h][j := Entry(b[h][j].key, val)]], hash, m[b[h][j].key := val])
  {
    var key := b[h][j].key;
    var b': seq<Chain<K, V>>, m' := b[h := b[h][j := Entry(b[h][j].key, val)]], m[key := val];
    forall k | k in m' ensures InChain(b'[Home(hash, k, |b|)], k) {
      assert k in m;
      var i := Home(hash, k, |b|);
      var x :| 0 <= x < |b[i]| && b[i][x].key == k;
      assert b'[i][x].key == k;
    }
  }

  /** A key is in the map exactly when its chain holds it. */
  lemma HoldsFind<K(!new), V(!new)>(b: seq<Chain<K, V>>, hash: K -> nat, m: map<K, V>, key: K)
    requires Holds(b, hash, m) && |b| > 0
    ensures key in m <==> InChain(b[Home(hash, key, |b|)], key)
  {
  }

  // ---------- walking all chains, bucket by bucket ----------

  /** The walk over b has come to entry x of bucket i: k is behind it. */
  ghost predicate Passed<K(!new), V(!new)>(b: seq<Chain<K, V>>, hash: K -> nat, i: int, x: nat, k: K)
    requires i < |b| ==> i < 0 || x <= |b[i]|
  {
    |b| > 0 &&
    (Home(hash, k, |b|) < i || (Home(hash, k, |b|) == i && i < |b| && InChain(b[i][..x], k)))
  }

  /** The entries behind the walk. */
  ghost function Behind<K(!new), V(!new)>(m: map<K, V>, b: seq<Chain<K, V>>, hash: K -> nat, i: int, x: nat): map<K, V>
    requires i < |b| ==> i < 0 || x <= |b[i]|
  {
    map k | k in m && Passed(b, hash, i, x, k) :: m[k]
  }

  lemma BehindStart<K(!new), V(!new)>(m: map<K, V>, b: seq<Chain<K, V>>, hash: K -> nat, i: int)
    requires i <= 0
    ensures Behind(m, b, hash, i, 0) == map[]
  {
  }

  /** One entry further. */
  lemma BehindNext<K(!new), V(!new)>(m: map<K, V>, b: seq<Chain<K, V>>, hash: K -> nat, i: nat, x: nat)
    requires Holds(b, hash, m) && i < |b| && x < |b[i]|
    ensures b[i][x].key in m && m[b[i][x].key] == b[i][x].val && b[i][x].key !in Behind(m, b, hash, i, x)
    ensures Behind(m, b, hash, i, x + 1) == Behind(m, b, hash, i, x)[b[i][x].key := b[i][x].val]
  {
    var e := b[i][x];
    var c: Chain<K, V>, c': Chain<K, V> := b[i][..x], b[i][..x + 1];
    assert c' == c + [e];
    forall k ensures InChain(c', k) <==> InChain(c, k) || k == e.key {
      if InChain(c, k) {
        var j :| 0 <= j < |c| && c[j].key == k;
        assert c'[j].key == k;
      }
      assert c'[x].key == e.key;
    }
    forall j | 0 <= j < x ensures c[j].key != e.key {
      assert c[j] == b[i][j];
    }
  }

  /** To the next bucket. */
  lemma BehindBucket<K(!new), V(!new)>(m: map<K, V>, b: seq<Chain<K, V>>, hash: K -> nat, i: nat)
    requires Holds(b, hash, m) && i < |b|
    ensures Behind(m, b, hash, i, |b[i]|) == Behind(m, b, hash, i + 1, 0)
  {
    assert b[i][..|b[i]|] == b[i];
    assert forall k :: k in m && Home(hash, k, |b|) == i ==> InChain(b[i], k);
  }

  /** From the end of a bucket, or from outside the table, to the start of the next. */
  lemma BehindTurn<K(!new), V(!new)>(m: map<K, V>, b: seq<Chain<K, V>>, hash: K -> nat, i: int, x: nat)
    requires Holds(b, hash, m) && -1 <= i && x == if 0 <= i < |b| then |b[i]| else 0
    ensures Behind(m, b, hash, i, x) == Behind(m, b, hash, i + 1, 0)
  {
    if 0 <= i < |b| {
      BehindBucket(m, b, hash, i);
    }
  }

  /** At the end, or with nothing but empty buckets ahead, everything is behind. */
  lemma BehindAll<K(!new), V(!new)>(m: map<K, V>, b: seq<Chain<K, V>>, hash: K -> nat, i: nat)
    requires Holds(b, hash, m) && forall j :: i <= j < |b| ==> b[j] == []
    ensures Behind(m, b, hash, i, 0) == m
  {
    forall k | k in m ensures Home(hash, k, |b|) < i {
      assert InChain(b[Home(hash, k, |b|)], k);
    }
  }

  lemma {:induction false} PowersGrow(i: nat, j: nat)
    requires i < j
    ensures 2 * Pow2(i) <= Pow2(j)
    decreases j
  {
    if i + 1 < j {
      PowersGrow(i, j - 1);
    }
  }

  /** The only power of two from twice to four times another is twice that. */
  lemma OnlyDouble(i: nat, j: nat)
    requires 2 * Pow2(i) <= Pow2(j) < 4 * Pow2(i)
    ensures Pow2(j) == 2 * Pow2(i)
  {
    if i + 1 < j {
      PowersGrow(i + 1, j);
    } else if j < i {
      PowersGrow(j, i);
    }
  }

  class Table<K(==, !new), V(!new)> {
    const hash: K -> nat
    var table: array<Chain<K, V>>
    var sizemask: int
    var used: nat
    ghost var contents: map<K, V>
    ghost var exponent: nat

    ghost predicate Valid()
      reads this, table
    {
      && (table.Length == 0 || (exponent >= 2 && table.Length == Pow2(exponent) && sizemask == table.Length - 1))
      && Holds(table[..], hash, contents)
      && used == |contents| == Total(table[..])
    }

    constructor (hash: K -> nat)
      ensures Valid() && fresh(table) && contents == map[] && this.hash == hash && table.Length == 0 && sizemask == 0
    {
      this.hash := hash;
      table := new Chain<K, V>[0];
      sizemask, used, contents, exponent := 0, 0, map[], 0;
    }

    /** The bucket of a key, by masking its hash. */
    method Index(key: K, mask: nat, ghost k: nat) returns (h: nat)
      requires mask == Pow2(k) - 1
      ensures h == Home(hash, key, Pow2(k))
    {
      AndMask(hash(key), k);
      h := BitAnd(hash(key), mask);
    }

    /** The least power of two that is at least 4 and at least size. */
    method NextPower(size: nat) returns (p: nat, ghost k: nat)
      ensures k >= 2 && p == Pow2(k) && p >= size && (p > 4 ==> Pow2(k - 1) < size)
    {
      p, k := INITIAL_SIZE, 2;
      assert Pow2(2) == 2 * Pow2(1) == 4;
      while p < size
        invariant k >= 2 && p == Pow2(k) >= 4 && (p > 4 ==> Pow2(k - 1) < size)
        decreases size - p
      {
        p, k := p * 2, k + 1;
      }
    }

    /** Moves every entry to its bucket in a larger table. The map stays the same, and the count of
        entries still to move is 0 at the end. */
    method Expand(size: nat) returns (ok: bool)
      requires Valid()
      modifies this`table, this`sizemask, this`used, this`exponent
      ensures Valid() && ok == (old(used) <= size)
      ensures if ok then fresh(table) && table.Length >= size && table.Length >= 4 else Unmoved()
      ensures ok && table.Length > 4 ==> table.Length < 2 * size
    {
      hide Holds, Behind;
      if used > size {
        return false;
      }
      var realsize, k := NextPower(size);
      var n := new Chain<K, V>[realsize](_ => []);
      ghost var b := table[..];
      var count := used;
      TotalEmpty(n[..]);
      NothingHolds(n[..], hash);
      BehindStart(contents, b, hash, 0);
      var i := 0;
      while i < table.Length && used > 0
        invariant 0 <= i <= table.Length && table[..] == b && n.Length == realsize && fresh(n) && n != table
        invariant Holds(n[..], hash, Behind(contents, b, hash, i, 0))
        invariant used == Total(b[i..]) && used + Total(n[..]) == count
      {
        MoveChain(n, b, i, realsize - 1, k);
        i := i + 1;
      }
      assert used == 0;
      forall j | i <= j < |b| ensures b[j] == [] {
        TotalZero(b[i..], j - i);
      }
      BehindAll(contents, b, hash, i);
      assert realsize > 4 ==> k >= 1 && Pow2(k) == 2 * Pow2(k - 1);
      table, sizemask, used, exponent := n, realsize - 1, count, k;
      return true;
    }

    twostate predicate Unmoved()
      reads this, table
    {
      table == old(table) && table[..] == old(table[..]) && used == old(used)
    }

    /** Moves the entries of one chain, each to the front of its new chain. */
    method MoveChain(n: array<Chain<K, V>>, ghost b: seq<Chain<K, V>>, i: nat, mask: nat, ghost k: nat)
      requires table[..] == b && i < |b| && n != table && Holds(b, hash, contents)
      requires n.Length == Pow2(k) && mask == n.Length - 1
      requires Holds(n[..], hash, Behind(contents, b, hash, i, 0)) && used == Total(b[i..])
      modifies this`used, n
      ensures Holds(n[..], hash, Behind(contents, b, hash, i + 1, 0)) && used == Total(b[i + 1..])
      ensures used + Total(n[..]) == old(used + Total(n[..]))
    {
      var he := table[i];
      ghost var x := 0;
      assert b[i..][1..] == b[i + 1..];
      while he != []
        invariant x <= |b[i]| && he == b[i][x..]
        invariant Holds(n[..], hash, Behind(contents, b, hash, i, x))
        invariant used == |he| + Total(b[i + 1..])
        invariant used + Total(n[..]) == old(used + Total(n[..]))
        decreases |he|
      {
        var e, nextHe := he[0], he[1..];
        BehindNext(contents, b, hash, i, x);
        var h := Index(e.key, mask, k);
        HoldsInsert(n[..], hash, Behind(contents, b, hash, i, x), e);
        TotalUpdate(n[..], h, [e] + n[h]);
        ghost var before := n[..];
        n[h] := [e] + n[h];
        assert n[..] == before[h := [e] + before[h]];
        used := used - 1;
        he := nextHe;
        x := x + 1;
      }
      BehindBucket(contents, b, hash, i);
    }

    /** A table that is missing or full grows. */
    method ExpandIfNeeded()
      requires Valid()
      modifies this`table, this`sizemask, this`used, this`exponent
      ensures Valid() && table.Length > 0 && (table == old(table) || fresh(table))
      ensures old(table.Length) > 0 && old(used) != old(table.Length) ==> Unmoved()
      ensures table.Length == if old(table.Length) == 0 then 4
                              else if old(used) == old(table.Length) then 2 * old(table.Length) else old(table.Length)
    {
      if table.Length == 0 {
        EmptyTable(table[..], hash, contents);
        var _ := Expand(INITIAL_SIZE);
        assert Pow2(1) == 2;
        OnlyDouble(1, exponent);
      } else if used == table.Length {
        ghost var k := exponent;
        var _ := Expand(table.Length * 2);
        OnlyDouble(k, exponent);
      }
    }

    /** Where in its chain a key is, or the length of the chain. */
    method Search(h: nat, key: K) returns (j: nat)
      requires h < table.Length
      ensures j <= |table[h]| && forall x :: 0 <= x < j ==> table[h][x].key != key
      ensures j < |table[h]| ==> table[h][j].key == key
      ensures j < |table[h]| <==> InChain(table[h], key)
    {
      j := 0;
      while j < |table[h]| && table[h][j].key != key
        invariant j <= |table[h]| && forall x :: 0 <= x < j ==> table[h][x].key != key
      {
        j := j + 1;
      }
    }

    method Add(key: K, val: V) returns (ok: bool)
      requires Valid()
      modifies this, table
      ensures Valid() && (table == old(table) || fresh(table))
      ensures table.Length == if old(table.Length) == 0 then 4
                              else if old(used) == old(table.Length) then 2 * old(table.Length) else old(table.Length)
      ensures ok <==> key !in old(contents)
      ensures contents == if ok then old(contents)[key := val] else old(contents)
    {
      hide Holds;
      ExpandIfNeeded();
      var h := Index(key, sizemask, exponent);
      HoldsFind(table[..], hash, contents, key);
      var j := Search(h, key);
      if j < |table[h]| {
        return false;
      }
      ghost var b := table[..];
      HoldsInsert(b, hash, contents, Entry(key, val));
      TotalUpdate(b, h, [Entry(key, val)] + b[h]);
      table[h] := [Entry(key, val)] + table[h];
      assert table[..] == b[h := [Entry(key, val)] + b[h]];
      contents := contents[key := val];
      used := used + 1;
      return true;
    }

    method Find(key: K) returns (val: Option<V>)
      requires Valid()
      ensures val == if key in contents then Some(contents[key]) else None
    {
      if table.Length == 0 {
        EmptyTable(table[..], hash, contents);
        return None;
      }
      var h := Index(key, sizemask, exponent);
      HoldsFind(table[..], hash, contents, key);
      var j := Search(h, key);
      if j < |table[h]| {
        assert table[..][h][j] == table[h][j];
        return Some(table[h][j].val);
      }
      return None;
    }

    /** True if the key was new. */
    method Replace(key: K, val: V) returns (added: bool)
      requires Valid()
      modifies this, table
      ensures Valid() && (table == old(table) || fresh(table))
      ensures contents == old(contents)[key := val] && added == (key !in old(contents))
    {
      added := Add(key, val);
      if !added {
        SetVal(key, val);
      }
    }

    /** Overwrites the value of a key that is there. */
    method SetVal(key: K, val: V)
      requires Valid() && key in contents
      modifies this`contents, table
      ensures Valid() && contents == old(contents)[key := val]
    {
      hide Holds;
      HoldsNonEmpty(table[..], hash, contents, key);
      var h := Index(key, sizemask, exponent);
      HoldsFind(table[..], hash, contents, key);
      var j := Search(h, key);
      ghost var b := table[..];
      HoldsUpdate(b, hash, contents, h, j, val);
      TotalUpdate(b, h, b[h][j := Entry(b[h][j].key, val)]);
      table[h] := table[h][j := Entry(key, val)];
      assert table[..] == b[h := b[h][j := Entry(b[h][j].key, val)]];
      contents := contents[key := val];
    }

    /** Unlinks the entry of a key; the rest of its chain and the other chains stay as they are. */
    method Delete(key: K) returns (ok: bool)
      requires Valid()
      modifies this`contents, this`used, table
      ensures Valid() && contents == old(contents) - {key} && ok == (key in old(contents))
      ensures forall i :: 0 <= i < table.Length ==> Unlinked(old(table[..])[i], table[i], key)
    {
      hide Holds;
      if table.Length == 0 {
        EmptyTable(table[..], hash, contents);
        return false;
      }
      var h := Index(key, sizemask, exponent);
      HoldsFind(table[..], hash, contents, key);
      var j := Search(h, key);
      if j == |table[h]| {
        return false;
      }
      ghost var b := table[..];
      HoldsRemove(b, hash, contents, h, j);
      TotalUpdate(b, h, b[h][..j] + b[h][j + 1..]);
      table[h] := table[h][..j] + table[h][j + 1..];
      assert table[..] == b[h := b[h][..j] + b[h][j + 1..]];
      contents := contents - {key};
      used := used - 1;
      return true;
    }
  }

  /** d is c, or c without the entry of the key. */
  ghost predicate Unlinked<K, V>(c: Chain<K, V>, d: Chain<K, V>, key: K) {
    d == c || exists j :: 0 <= j < |c| && c[j].key == key && d == c[..j] + c[j + 1..]
  }

  lemma NothingHolds<K(!new), V(!new)>(b: seq<Chain<K, V>>, hash: K -> nat)
    requires forall i :: 0 <= i < |b| ==> b[i] == []
    ensures Holds(b, hash, map[])
  {
  }

  lemma EmptyTable<K(!new), V(!new)>(b: seq<Chain<K, V>>, hash: K -> nat, m: map<K, V>)
    requires Holds(b, hash, m) && b == []
    ensures m == map[]
  {
  }

  lemma HoldsNonEmpty<K(!new), V(!new)>(b: seq<Chain<K, V>>, hash: K -> nat, m: map<K, V>, key: K)
    requires Holds(b, hash, m) && key in m
    ensures |b| > 0
  {
  }

  // ---------- iteration ----------

  /** A walk over a table. Apart from where it stands it knows, as history, the table it started on. */
  class Iterator<K(==, !new), V(!new)> {
    const ht: Table<K, V>
    var index: int
    var entry: Option<Entry<K, V>>       // the entry last returned, or none
    var nextEntry: Chain<K, V>           // the chain behind it, saved before the user got it
    ghost var start: seq<Chain<K, V>>
    ghost var all: map<K, V>
    ghost var x: nat

    /** The entries returned so far. */
    ghost function Visited(): map<K, V>
      requires Valid()
      reads this, ht, ht.table
    {
      Behind(all, start, ht.hash, index, x)
    }

    /** The buckets ahead are as they were, the saved chain is still the end of the current bucket, and
        only entries already returned may be missing from the table. */
    ghost predicate Valid()
      reads this, ht, ht.table
    {
      && ht.Valid() && ht.table.Length == |start| && Holds(start, ht.hash, all)
      && -1 <= index
      && (forall i :: index < i < |start| ==> ht.table[i] == start[i])
      && (if 0 <= index < |start| then x <= |start[index]| && nextEntry == start[index][x..]
          else x == 0 && nextEntry == [])
      && (0 <= index < |start| ==> EndsWith(ht.table[index], nextEntry))
      && (entry.Some? ==> 0 <= index < |start| && x > 0 && entry.value == start[index][x - 1])
      && (entry == None ==> nextEntry == [])
    }

    constructor (ht: Table<K, V>)
      requires ht.Valid()
      ensures Valid() && this.ht == ht && all == ht.contents && Visited() == map[]
    {
      this.ht := ht;
      index, entry, nextEntry := -1, None, [];
      start, all, x := ht.table[..], ht.contents, 0;
    }

    /** Returns the head of the chain and saves the rest, as the user may delete the head. */
    method Take(chain: Chain<K, V>)
      requires ht.Valid() && ht.table.Length == |start| && Holds(start, ht.hash, all)
      requires 0 <= index < |start| && x <= |start[index]| && chain == start[index][x..] && chain != []
      requires forall i :: index < i < |start| ==> ht.table[i] == start[i]
      requires EndsWith(ht.table[index], chain)
      modifies this`entry, this`nextEntry, this`x
      ensures Valid() && entry == Some(chain[0])
      ensures chain[0].key in all && all[chain[0].key] == chain[0].val
      ensures chain[0].key !in Behind(all, start, ht.hash, index, old(x))
      ensures Visited() == Behind(all, start, ht.hash, index, old(x))[chain[0].key := chain[0].val]
    {
      hide Table<K, V>.Valid, Holds, Behind, EndsWith;
      BehindNext(all, start, ht.hash, index, x);
      EndsWithRest(ht.table[index], chain);
      entry, nextEntry, x := Some(chain[0]), chain[1..], x + 1;
    }

    /** The next entry: one not returned before, until all have been. */
    method Next() returns (e: Option<Entry<K, V>>)
      requires Valid()
      modifies this
      ensures Valid() && ht.Valid() && all == old(all) && e == entry
      ensures e.Some? ==>
        && e.value.key in all && all[e.value.key] == e.value.val
        && e.value.key !in old(Visited()) && Visited() == old(Visited())[e.value.key := e.value.val]
      ensures e == None ==> Visited() == old(Visited()) == all
    {
      hide Table<K, V>.Valid, Holds, Behind, EndsWith;
      while true
        invariant Valid() && all == old(all) && start == old(start)
        invariant Visited() == old(Visited())
        decreases |start| - index, entry.Some?
      {
        var chain: Chain<K, V>;
        if entry == None {
          BehindTurn(all, start, ht.hash, index, x);
          index, x := index + 1, 0;
          if index >= ht.table.Length {
            BehindAll(all, start, ht.hash, index);
            return None;
          }
          chain := ht.table[index];
          EndsWithItself(chain);
        } else {
          chain := nextEntry;
        }
        if chain != [] {
          Take(chain);
          return entry;
        }
        entry := None;
      }
    }

    /** The user deletes the entry just returned; the walk is not disturbed. */
    method DeleteReturned()
      requires Valid() && entry.Some?
      modifies ht`contents, ht`used, ht.table
      ensures Valid() && ht.Valid() && ht.contents == old(ht.contents) - {entry.value.key} && Visited() == old(Visited())
    {
      hide Table<K, V>.Valid, Behind, Holds, EndsWith, Unlinked;
      ghost var b := ht.table[..];
      var _ := ht.Delete(entry.value.key);
      DeleteKeepsWalk(b, ht.table[..], start, ht.hash, all, index, x, nextEntry, entry.value.key);
    }
  }

  /** Unlinking the entry the walk has just passed changes nothing ahead of it. */
  lemma DeleteKeepsWalk<K(!new), V(!new)>(b: seq<Chain<K, V>>, b': seq<Chain<K, V>>, start: seq<Chain<K, V>>,
                                          hash: K -> nat, all: map<K, V>, index: nat, x: nat, rest: Chain<K, V>, key: K)
    requires |b| == |b'| == |start| && Holds(start, hash, all) && index < |start|
    requires 0 < x <= |start[index]| && rest == start[index][x..] && start[index][x - 1].key == key
    requires EndsWith(b[index], rest) && forall i :: index < i < |start| ==> b[i] == start[i]
    requires forall i :: 0 <= i < |start| ==> Unlinked(b[i], b'[i], key)
    ensures EndsWith(b'[index], rest) && forall i :: index < i < |start| ==> b'[i] == start[i]
  {
    hide EndsWith;
    forall i | index < i < |start| ensures b'[i] == start[i] {
      assert forall j :: 0 <= j < |start[i]| ==> Home(hash, start[i][j].key, |start|) == i;
    }
    assert forall y :: 0 <= y < |rest| ==> rest[y] == start[index][x + y];
    UnlinkKeepsEnd(b[index], b'[index], key, rest);
  }

  lemma UnlinkKeepsEnd<K, V>(c: Chain<K, V>, c': Chain<K, V>, key: K, d: Chain<K, V>)
    requires EndsWith(c, d) && Unlinked(c, c', key) && forall y :: 0 <= y < |d| ==> d[y].key != key
    ensures EndsWith(c', d)
  {
    if c' != c {
      var j :| 0 <= j < |c| && c[j].key == key && c' == c[..j] + c[j + 1..];
      var n := |c| - |d|;
      assert forall y :: n <= y < |c| ==> c[y] == d[y - n];
      assert c'[n - 1..] == c[n..];
    }
  }

  function KeysOf<K, V>(es: seq<Entry<K, V>>): set<K> {
    set i | 0 <= i < |es| :: es[i].key
  }

  lemma KeysAppend<K, V>(es: seq<Entry<K, V>>, e: Entry<K, V>)
    ensures KeysOf(es + [e]) == KeysOf(es) + {e.key}
  {
    var es' := es + [e];
    forall k | k in KeysOf(es) + {e.key} ensures k in KeysOf(es') {
      if k == e.key {
        assert es'[|es|].key == k;
      } else {
        var i :| 0 <= i < |es| && es[i].key == k;
        assert es'[i].key == k;
      }
    }
  }

  /** The entries are all from the map. */
  ghost predicate Drawn<K, V>(es: seq<Entry<K, V>>, m: map<K, V>) {
    forall i :: 0 <= i < |es| ==> es[i].key in m && m[es[i].key] == es[i].val
  }

  /** One entry more, with a key not seen before: the walk comes closer to its end. */
  lemma DrawnAppend<K, V>(es: seq<Entry<K, V>>, e: Entry<K, V>, m: map<K, V>, seen: map<K, V>)
    requires Drawn(es, m) && KeysOf(es) == seen.Keys && |es| == |seen|
    requires e.key in m && m[e.key] == e.val && e.key !in seen
    ensures Drawn(es + [e], m) && |es| < |m|
    ensures forall d :: d <= KeysOf(es) ==> d <= KeysOf(es + [e]) && d + {e.key} <= KeysOf(es + [e])
    ensures KeysOf(es + [e]) == seen[e.key := e.val].Keys && |es + [e]| == |seen[e.key := e.val]|
  {
    KeysAppend(es, e);
    assert seen[e.key := e.val].Keys == seen.Keys + {e.key};
    KeysDrawn(es, m);
    SmallerSet(seen.Keys + {e.key}, m.Keys);
    assert |seen.Keys| == |seen| && |m.Keys| == |m|;
  }

  lemma KeysDrawn<K, V>(es: seq<Entry<K, V>>, m: map<K, V>)
    requires Drawn(es, m)
    ensures KeysOf(es) <= m.Keys
  {
  }

  lemma SmallerSet<K>(a: set<K>, b: set<K>)
    requires a <= b
    ensures |a| <= |b|
  {
    assert b == a + (b - a);
  }

  /** Walks over the whole table, deleting some of the entries as they come: every entry is visited,
      and as many visits are made as there are entries, so each is visited exactly once. */
  method VisitAll<K(==, !new), V(!new)>(ht: Table<K, V>) returns (visited: seq<Entry<K, V>>, ghost deleted: set<K>)
    requires ht.Valid()
    modifies ht`contents, ht`used, ht.table
    ensures ht.Valid() && ht.contents == old(ht.contents) - deleted && deleted <= KeysOf(visited)
    ensures Drawn(visited, old(ht.contents))
    ensures KeysOf(visited) == old(ht.contents).Keys && |visited| == |old(ht.contents)|
  {
    hide *;
    ghost var all := ht.contents;
    var it := new Iterator(ht);
    visited, deleted := [], {};
    NoKeys(all);
    assert all == ht.contents - deleted;
    while true
      invariant it.Valid() && ht.Valid() && fresh(it) && it.ht == ht && it.all == all
      invariant ht.contents == all - deleted && deleted <= KeysOf(visited)
      invariant KeysOf(visited) == it.Visited().Keys && |visited| == |it.Visited()| && Drawn(visited, all)
      decreases |all| - |visited|
    {
      ghost var seen := it.Visited();
      var r := it.Next();
      if r == None {
        break;
      }
      DrawnAppend(visited, r.value, all, seen);
      visited := visited + [r.value];
      var wanted: bool := *;
      if wanted {
        it.DeleteReturned();
        RemoveMore(all, deleted, r.value.key);
        deleted := deleted + {r.value.key};
      }
    }
  }

  lemma RemoveMore<K, V>(m: map<K, V>, d: set<K>, k: K)
    ensures m - d - {k} == m - (d + {k})
  {
  }

  lemma NoKeys<K, V>(m: map<K, V>)
    ensures KeysOf<K, V>([]) == {} && Drawn([], m)
  {
  }

  lemma EndsWithItself<T>(c: seq<T>)
    ensures EndsWith(c, c)
  {
  }

  lemma EndsWithRest<T>(c: seq<T>, d: seq<T>)
    requires EndsWith(c, d) && d != []
    ensures EndsWith(c, d[1..])
  {
    assert c[|c| - |d|..][1..] == c[|c| - (|d| - 1)..];
  }

  ghost predicate EndsWith<T>(c: seq<T>, d: seq<T>) {
    |d| <= |c| && c[|c| - |d|..] == d
  }
}
