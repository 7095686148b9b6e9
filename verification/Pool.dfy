/** The mempool's priority index: an ordered set of keys, best first, and the ways it is cut down. */
module Pool {
  import opened Types
  import opened Ledger

  datatype Key = Key(rate: real, hash: Hash, time: int)

  /** TxPriority::operator<: the dearer key first, among equals the older one; the hash plays no part. */
  predicate Before(a: Key, b: Key) {
    if a.rate != b.rate then a.rate > b.rate else a.time < b.time
  }

  /** Keys the ordered set cannot tell apart. */
  predicate Tied(a: Key, b: Key) { !Before(a, b) && !Before(b, a) }

  /** Better keys come first, and no two are tied. */
  ghost predicate Sorted(s: seq<Key>) {
    forall i, j :: 0 <= i < j < |s| ==> Before(s[i], s[j])
  }

  /** The order a std::set needs: a strict weak order.  Being tied is the same as having equal rate and time. */
  lemma StrictWeakOrder(a: Key, b: Key, c: Key)
    ensures !Before(a, a)
    ensures Before(a, b) && Before(b, c) ==> Before(a, c)
    ensures Tied(a, b) && Tied(b, c) ==> Tied(a, c)
    ensures Tied(a, b) <==> a.rate == b.rate && a.time == b.time
  {
  }

  /** std::set::insert: a key tied with a stored one is dropped. */
  function Insert(s: seq<Key>, k: Key): seq<Key> {
    if s == [] then [k]
    else if Before(k, s[0]) then [k] + s
    else if Before(s[0], k) then [s[0]] + Insert(s[1..], k)
    else s
  }

  /** std::set::erase by key. */
  function Erase(s: seq<Key>, k: Key): seq<Key> {
    if s == [] then []
    else if Tied(s[0], k) then s[1..]
    else [s[0]] + Erase(s[1..], k)
  }

  function Take(s: seq<Key>, n: nat): (t: seq<Key>)
    ensures |t| <= n && t <= s
  {
    if |s| <= n then s else s[..n]
  }

  ghost predicate HasTie(s: seq<Key>, k: Key) {
    exists y :: y in s && Tied(y, k)
  }

  lemma SortedCons(k: Key, s: seq<Key>)
    ensures Sorted([k] + s) <==> Sorted(s) && forall y :: y in s ==> Before(k, y)
  {
    var all := [k] + s;
    if Sorted(all) {
      forall y | y in s
        ensures Before(k, y)
      {
        var i :| 0 <= i < |s| && s[i] == y;
        assert Before(all[0], all[i + 1]);
      }
      forall i, j | 0 <= i < j < |s|
        ensures Before(s[i], s[j])
      {
        assert Before(all[i + 1], all[j + 1]);
      }
    }
  }

  lemma SortedSnoc(s: seq<Key>, k: Key)
    ensures Sorted(s + [k]) <==> Sorted(s) && forall y :: y in s ==> Before(y, k)
  {
    var all := s + [k];
    if Sorted(all) {
      forall y | y in s
        ensures Before(y, k)
      {
        var i :| 0 <= i < |s| && s[i] == y;
        assert Before(all[i], all[|s|]);
      }
      forall i, j | 0 <= i < j < |s|
        ensures Before(s[i], s[j])
      {
        assert Before(all[i], all[j]);
      }
    }
  }

  lemma {:induction false} InsertSorted(s: seq<Key>, k: Key)
    requires Sorted(s)
    ensures Sorted(Insert(s, k))
    ensures forall x :: x in Insert(s, k) <==> x in s || (x == k && !HasTie(s, k))
    ensures |Insert(s, k)| == |s| + (if HasTie(s, k) then 0 else 1)
    decreases |s|
  {
    if s != [] {
      var rest := s[1..];
      assert s == [s[0]] + rest;
      SortedCons(s[0], rest);
      hide Sorted;
      if Before(s[0], k) {
        InsertSorted(rest, k);
        SortedCons(s[0], Insert(rest, k));
        assert HasTie(s, k) <==> HasTie(rest, k);
      } else if Before(k, s[0]) {
        SortedCons(k, s);
      } else {
        assert Tied(s[0], k);
      }
    } else {
      assert Insert(s, k) == [k];
    }
  }

  lemma {:induction false} EraseSorted(s: seq<Key>, k: Key)
    requires Sorted(s) && k in s
    ensures Sorted(Erase(s, k))
    ensures forall x :: x in Erase(s, k) <==> x in s && x != k
    decreases |s|
  {
    var rest := s[1..];
    assert s == [s[0]] + rest;
    SortedCons(s[0], rest);
    hide Sorted;
    if s[0] != k {
      EraseSorted(rest, k);
      SortedCons(s[0], Erase(rest, k));
    }
  }

  lemma SameEmptiness(a: seq<Key>, b: seq<Key>)
    requires forall x :: x in a <==> x in b
    ensures a == [] <==> b == []
  {
    if a != [] {
      assert a[0] in b;
    }
    if b != [] {
      assert b[0] in a;
    }
  }

  /** Two orderings of the same keys are the same list. */
  lemma {:induction false} SortedUnique(a: seq<Key>, b: seq<Key>)
    requires Sorted(a) && Sorted(b) && forall x :: x in a <==> x in b
    ensures a == b
    decreases |a|
  {
    SameEmptiness(a, b);
    if a != [] {
      assert a[0] in b && b[0] in a;
      assert a == [a[0]] + a[1..] && b == [b[0]] + b[1..];
      SortedCons(a[0], a[1..]);
      SortedCons(b[0], b[1..]);
      hide Sorted;
      assert a[0] == b[0];
      assert a[0] !in a[1..] && b[0] !in b[1..];
      forall x
        ensures x in a[1..] <==> x in b[1..]
      {
        assert (x in a) == (x == a[0] || x in a[1..]);
        assert (x in b) == (x == b[0] || x in b[1..]);
      }
      SortedUnique(a[1..], b[1..]);
    }
  }

  // ---------- the bounded index is the best part of the unbounded one ----------

  /** Truncating before an insertion does not matter if one truncates again after it. */
  lemma {:induction false} TakeInsert(s: seq<Key>, k: Key, n: nat)
    requires Sorted(s)
    ensures Take(Insert(Take(s, n), k), n) == Take(Insert(s, k), n)
    decreases |s|
  {
    if |s| > n {
      var cut := s[..n];
      if n == 0 {
        assert Take(Insert(s, k), 0) == [];
      } else if Before(k, s[0]) {
        assert cut[0] == s[0];
      } else if Before(s[0], k) {
        assert cut[1..] == s[1..][..n - 1];
        TakeInsert(s[1..], k, n - 1);
        assert Insert(cut, k) == [s[0]] + Insert(cut[1..], k);
        assert Take(Insert(cut, k), n) == [s[0]] + Take(Insert(cut[1..], k), n - 1);
        assert Take(Insert(s, k), n) == [s[0]] + Take(Insert(s[1..], k), n - 1);
      }
    }
  }

  /** The index after offering keys one by one, cut to `n` after each. */
  function Stream(offers: seq<Key>, n: nat): seq<Key> {
    if offers == [] then [] else Take(Insert(Stream(offers[..|offers| - 1], n), offers[|offers| - 1]), n)
  }

  /** The index that would never evict. */
  function Everything(offers: seq<Key>): seq<Key> {
    if offers == [] then [] else Insert(Everything(offers[..|offers| - 1]), offers[|offers| - 1])
  }

  /** The offers without those tied with an earlier one. */
  ghost function Firsts(offers: seq<Key>): seq<Key> {
    if offers == [] then []
    else
      var init, last := offers[..|offers| - 1], offers[|offers| - 1];
      Firsts(init) + if HasTie(init, last) then [] else [last]
  }

  lemma {:induction false} FirstsTie(offers: seq<Key>, k: Key)
    ensures HasTie(Firsts(offers), k) <==> HasTie(offers, k)
    decreases |offers|
  {
    if offers != [] {
      var init, last := offers[..|offers| - 1], offers[|offers| - 1];
      assert offers == init + [last];
      FirstsTie(init, k);
      if HasTie(init, last) {
        assert Firsts(offers) == Firsts(init);
        var y :| y in init && Tied(y, last);
        assert Tied(last, k) ==> Tied(y, k);
      } else {
        assert last in Firsts(offers);
      }
    }
  }

  /** Streaming top-k is batch top-k: whatever the order of the offers, the bounded index holds exactly the best `n`
      of all keys ever offered, each tie represented by its first offer. */
  lemma {:induction false} StreamIsTopK(offers: seq<Key>, n: nat)
    ensures Stream(offers, n) == Take(Everything(offers), n)
    ensures Sorted(Everything(offers))
    ensures forall k :: k in Everything(offers) <==> k in Firsts(offers)
    decreases |offers|
  {
    if offers != [] {
      var init, last := offers[..|offers| - 1], offers[|offers| - 1];
      StreamIsTopK(init, n);
      TakeInsert(Everything(init), last, n);
      InsertSorted(Everything(init), last);
      FirstsTie(init, last);
      assert HasTie(Everything(init), last) <==> HasTie(Firsts(init), last);
    }
  }

  // ---------- cleaning ----------

  /** The sender's balance does not cover the transaction.  SYSTEM is never asked. */
  predicate Unaffordable(rows: seq<TxRow>, tx: Tx) {
    tx.from != SYSTEM && Balance(rows, tx.from) < tx.amount + tx.fee
  }

  predicate Indexed(index: seq<Key>, hash: Hash) {
    exists i :: 0 <= i < |index| && index[i].hash == hash
  }

  predicate Doomed(rows: seq<TxRow>, pool: map<Hash, Tx>, k: Key) {
    k.hash in pool && Unaffordable(rows, pool[k.hash])
  }

  function DoomedKeys(rows: seq<TxRow>, pool: map<Hash, Tx>, index: seq<Key>): seq<Key> {
    if index == [] then []
    else
      var init, last := index[..|index| - 1], index[|index| - 1];
      DoomedKeys(rows, pool, init) + if Doomed(rows, pool, last) then [last] else []
  }

  /** The index as a filter would leave it. */
  function KeptKeys(rows: seq<TxRow>, pool: map<Hash, Tx>, index: seq<Key>): seq<Key> {
    if index == [] then []
    else
      var init, last := index[..|index| - 1], index[|index| - 1];
      KeptKeys(rows, pool, init) + if Doomed(rows, pool, last) then [] else [last]
  }

  /** The mempool as a filter would leave it: an unaffordable transaction goes only if the index knows it. */
  function KeptPool(rows: seq<TxRow>, pool: map<Hash, Tx>, index: seq<Key>): map<Hash, Tx> {
    map h | h in pool && !(Unaffordable(rows, pool[h]) && Indexed(index, h)) :: pool[h]
  }

  lemma {:induction false} DoomedAndKept(rows: seq<TxRow>, pool: map<Hash, Tx>, index: seq<Key>)
    ensures forall k :: k in DoomedKeys(rows, pool, index) <==> k in index && Doomed(rows, pool, k)
    ensures forall k :: k in KeptKeys(rows, pool, index) <==> k in index && !Doomed(rows, pool, k)
    ensures |DoomedKeys(rows, pool, index)| + |KeptKeys(rows, pool, index)| == |index|
    decreases |index|
  {
    if index != [] {
      var init, last := index[..|index| - 1], index[|index| - 1];
      assert index == init + [last];
      hide Doomed;
      DoomedAndKept(rows, pool, init);
    }
  }

  lemma {:induction false} FiltersSorted(rows: seq<TxRow>, pool: map<Hash, Tx>, index: seq<Key>)
    requires Sorted(index)
    ensures Sorted(KeptKeys(rows, pool, index)) && Sorted(DoomedKeys(rows, pool, index))
    ensures Sorted(EligibleKeys(rows, pool, index))
    decreases |index|
  {
    if index != [] {
      var init, last := index[..|index| - 1], index[|index| - 1];
      assert index == init + [last];
      SortedSnoc(init, last);
      FiltersSorted(rows, pool, init);
      DoomedAndKept(rows, pool, init);
      EligibleAre(rows, pool, init);
      SortedSnoc(KeptKeys(rows, pool, init), last);
      SortedSnoc(DoomedKeys(rows, pool, init), last);
      SortedSnoc(EligibleKeys(rows, pool, init), last);
      hide Sorted, Doomed, Eligible;
    }
  }

  lemma {:induction false} KeepAll(rows: seq<TxRow>, pool: map<Hash, Tx>, index: seq<Key>)
    requires forall k :: k in index ==> !Doomed(rows, pool, k)
    ensures KeptKeys(rows, pool, index) == index
    decreases |index|
  {
    if index != [] {
      var init, last := index[..|index| - 1], index[|index| - 1];
      assert index == init + [last];
      hide Doomed;
      assert last in index;
      KeepAll(rows, pool, init);
    }
  }

  /** After cleaning, every transaction that is still in the mempool and that the index knows can be paid. */
  lemma CleanedAffordable(rows: seq<TxRow>, pool: map<Hash, Tx>, index: seq<Key>, h: Hash)
    requires h in KeptPool(rows, pool, index) && Indexed(KeptKeys(rows, pool, index), h)
    ensures !Unaffordable(rows, pool[h])
  {
    hide Unaffordable;
    var index' := KeptKeys(rows, pool, index);
    DoomedAndKept(rows, pool, index);
    var i :| 0 <= i < |index'| && index'[i].hash == h;
    assert index'[i] in index;
    var j :| 0 <= j < |index| && index[j] == index'[i];
  }

  /** Once cleaned, the same balances find nothing more to clean. */
  lemma CleanIdempotent(rows: seq<TxRow>, pool: map<Hash, Tx>, index: seq<Key>)
    ensures var pool', index' := KeptPool(rows, pool, index), KeptKeys(rows, pool, index);
      KeptPool(rows, pool', index') == pool' && KeptKeys(rows, pool', index') == index'
  {
    hide Unaffordable;
    var pool', index' := KeptPool(rows, pool, index), KeptKeys(rows, pool, index);
    forall h | h in pool' && Indexed(index', h)
      ensures !Unaffordable(rows, pool'[h])
    {
      CleanedAffordable(rows, pool, index, h);
    }
    forall k | k in index'
      ensures !Doomed(rows, pool', k)
    {
      DoomedAndKept(rows, pool, index);
    }
    KeepAll(rows, pool', index');
  }

  // ---------- selection for a block ----------

  predicate Eligible(rows: seq<TxRow>, pool: map<Hash, Tx>, k: Key) {
    k.hash in pool && !Unaffordable(rows, pool[k.hash])
  }

  function EligibleKeys(rows: seq<TxRow>, pool: map<Hash, Tx>, index: seq<Key>): seq<Key> {
    if index == [] then []
    else
      var init, last := index[..|index| - 1], index[|index| - 1];
      EligibleKeys(rows, pool, init) + if Eligible(rows, pool, last) then [last] else []
  }

  /** The first `limit` live affordable entries in index order. */
  function Selection(rows: seq<TxRow>, pool: map<Hash, Tx>, index: seq<Key>, limit: nat): seq<Key> {
    Take(EligibleKeys(rows, pool, index), limit)
  }

  lemma {:induction false} EligibleAre(rows: seq<TxRow>, pool: map<Hash, Tx>, index: seq<Key>)
    ensures forall k :: k in EligibleKeys(rows, pool, index) <==> k in index && Eligible(rows, pool, k)
    decreases |index|
  {
    if index != [] {
      var init, last := index[..|index| - 1], index[|index| - 1];
      assert index == init + [last];
      hide Eligible;
      EligibleAre(rows, pool, init);
    }
  }

  lemma {:induction false} EligiblePrefix(rows: seq<TxRow>, pool: map<Hash, Tx>, index: seq<Key>, i: nat)
    requires i <= |index|
    ensures EligibleKeys(rows, pool, index[..i]) <= EligibleKeys(rows, pool, index)
    decreases |index|
  {
    if i == |index| {
      assert index[..i] == index;
    } else {
      var init := index[..|index| - 1];
      assert init[..i] == index[..i];
      EligiblePrefix(rows, pool, init, i);
    }
  }

  function TotalRate(keys: seq<Key>): real {
    if keys == [] then 0.0 else TotalRate(keys[..|keys| - 1]) + keys[|keys| - 1].rate
  }

  /** Some of the entries of `keys`, given by their positions. */
  function Pick(keys: seq<Key>, at: seq<nat>): (picked: seq<Key>)
    requires forall i :: 0 <= i < |at| ==> at[i] < |keys|
    ensures |picked| == |at|
  {
    seq(|at|, i requires 0 <= i < |at| => keys[at[i]])
  }

  lemma {:induction false} FirstOnesBest(keys: seq<Key>, at: seq<nat>)
    requires Sorted(keys)
    requires forall i :: 0 <= i < |at| ==> at[i] < |keys|
    requires forall i, j :: 0 <= i < j < |at| ==> at[i] < at[j]
    ensures |at| <= |keys|
    ensures TotalRate(Pick(keys, at)) <= TotalRate(keys[..|at|])
    ensures |at| > 0 ==> at[|at| - 1] >= |at| - 1
    decreases |at|
  {
    if at != [] {
      var n := |at| - 1;
      FirstOnesBest(keys, at[..n]);
      assert n > 0 ==> at[..n][n - 1] == at[n - 1];
      assert Pick(keys, at)[..n] == Pick(keys, at[..n]);
      assert keys[..|at|][..n] == keys[..n];
      assert at[n] == n || Before(keys[n], keys[at[n]]);
    }
  }

  lemma {:induction false} TotalRateGrows(keys: seq<Key>, m: nat, n: nat)
    requires m <= n <= |keys|
    requires forall i :: 0 <= i < |keys| ==> keys[i].rate >= 0.0
    ensures TotalRate(keys[..m]) <= TotalRate(keys[..n])
    decreases n
  {
    if m < n {
      TotalRateGrows(keys, m, n - 1);
      assert keys[..n][..n - 1] == keys[..n - 1];
    }
  }

  /** No choice of at most `limit` eligible index entries is worth more than the selection. */
  lemma SelectionOptimal(rows: seq<TxRow>, pool: map<Hash, Tx>, index: seq<Key>, limit: nat, at: seq<nat>)
    requires Sorted(index) && forall i :: 0 <= i < |index| ==> index[i].rate >= 0.0
    requires |at| <= limit
    requires forall i :: 0 <= i < |at| ==> at[i] < |EligibleKeys(rows, pool, index)|
    requires forall i, j :: 0 <= i < j < |at| ==> at[i] < at[j]
    ensures TotalRate(Pick(EligibleKeys(rows, pool, index), at)) <= TotalRate(Selection(rows, pool, index, limit))
  {
    var keys := EligibleKeys(rows, pool, index);
    EligibleAre(rows, pool, index);
    FiltersSorted(rows, pool, index);
    forall i | 0 <= i < |keys|
      ensures keys[i].rate >= 0.0
    {
      assert keys[i] in index;
    }
    FirstOnesBest(keys, at);
    var n := |Selection(rows, pool, index, limit)|;
    assert keys[..n] == Selection(rows, pool, index, limit);
    TotalRateGrows(keys, |at|, n);
  }
}
