/** Which transactions are in a mempool, entry by entry: what each operation puts in, takes out and leaves alone. */
module Mempools {
  import opened Types
  import opened Ledger
  import opened LedgerLaws
  import opened Pool
  import opened Chain
  import opened ChainRuns
  import opened Settlement
  import opened Replacement

  // ---------- admission ----------

  /** The index holds a key with the same rate and time, so the ordered set drops a second one. */
  predicate Taken(index: seq<Key>, key: Key) {
    exists k :: k in index && k.rate == key.rate && k.time == key.time
  }

  /** Among these keys and one more, the one that ranks last: the lowest rate, and among equal rates the latest. */
  ghost predicate Worst(index: seq<Key>, key: Key, worst: Key) {
    && (worst in index || worst == key)
    && forall k :: (k in index || k == key) && k != worst ==> k.rate > worst.rate || (k.rate == worst.rate && k.time < worst.time)
  }

  lemma TakenIsTie(index: seq<Key>, key: Key)
    ensures Taken(index, key) <==> HasTie(index, key)
  {
  }

  /** When a transaction is admitted, and all that becomes of mempool, index and rows. */
  lemma AdmitExactly(st: State, tx: Tx, stamp: Stamp) returns (worst: Key)
    requires Sorted(st.index) && |st.index| <= CAPACITY
    ensures var r, key := Admit(st, tx, stamp), KeyOf(tx, stamp);
      && (r.ok <==> tx.amount > 0.0 && tx.fee >= 0.0 && (tx.from == SYSTEM || Balance(st.db.rows, tx.from) >= tx.amount + tx.fee))
      && (!r.ok ==> r.state == st)
      && (r.ok ==>
            && r.state.db.blocks == st.db.blocks
            && r.state.db.rows == (if tx.status.Unknown? || HasHash(st.db.rows, tx.hash) then st.db.rows
                                   else st.db.rows + [TxRow(tx, None)]))
      && (r.ok && (|st.index| < CAPACITY || Taken(st.index, key)) ==>
            && r.state.pool == st.pool[tx.hash := tx]
            && forall k :: k in r.state.index <==> k in st.index || (k == key && !Taken(st.index, key)))
      && (r.ok && |st.index| == CAPACITY && !Taken(st.index, key) ==>
            && Worst(st.index, key, worst)
            && r.state.pool == st.pool[tx.hash := tx] - {worst.hash}
            && forall k :: k in r.state.index <==> (k in st.index || k == key) && k != worst)
  {
    var key := KeyOf(tx, stamp);
    var all := Insert(st.index, key);
    worst := key;
    InsertSorted(st.index, key);
    EvictOnce(st.pool[tx.hash := tx], all);
    TakenIsTie(st.index, key);
    hide Insert, Evict, HasTie, Taken;
    if |all| == CAPACITY + 1 {
      worst := all[CAPACITY];
      LastIsWorst(all, CAPACITY);
    }
  }

  lemma LastIsWorst(all: seq<Key>, n: nat)
    requires Sorted(all) && |all| == n + 1
    ensures forall k :: k in all && k != all[n] ==> Before(k, all[n])
    ensures forall k :: k in all[..n] <==> k in all && k != all[n]
  {
    forall k | k in all && k != all[n]
      ensures Before(k, all[n]) && k in all[..n]
    {
      var i :| 0 <= i < |all| && all[i] == k;
      assert i < n && all[..n][i] == k;
    }
    forall k | k in all[..n]
      ensures k in all && k != all[n]
    {
      var i :| 0 <= i < n && all[..n][i] == k;
      assert Before(all[i], all[n]);
    }
  }

  // ---------- cleaning ----------

  /** The index knows the transaction, and its sender cannot pay it. */
  predicate Fails(rows: seq<TxRow>, index: seq<Key>, tx: Tx, h: Hash) {
    (exists k :: k in index && k.hash == h) && tx.from != SYSTEM && Balance(rows, tx.from) < tx.amount + tx.fee
  }

  /** A clean-up takes out exactly the entries that fail, and the keys that name them. */
  lemma CleanExactly(st: State)
    ensures Clean(st).db == st.db
    ensures Clean(st).pool == map h | h in st.pool && !Fails(st.db.rows, st.index, st.pool[h], h) :: st.pool[h]
    ensures forall k :: k in Clean(st).index <==>
      k in st.index && !(k.hash in st.pool && Fails(st.db.rows, st.index, st.pool[k.hash], k.hash))
  {
    DoomedAndKept(st.db.rows, st.pool, st.index);
    forall h
      ensures Indexed(st.index, h) <==> exists k :: k in st.index && k.hash == h
    {
      IndexedByKey(st.index, h);
    }
    hide Balance, Indexed;
  }

  lemma IndexedByKey(index: seq<Key>, h: Hash)
    ensures Indexed(index, h) <==> exists k :: k in index && k.hash == h
  {
    if Indexed(index, h) {
      var i :| 0 <= i < |index| && index[i].hash == h;
      assert index[i] in index;
    }
    if k :| k in index && k.hash == h {
      var i :| 0 <= i < |index| && index[i] == k;
    }
  }

  // ---------- selection ----------

  /** What `createBlock` takes: live index entries that can be paid, no more than ten, and if any such entry is left out there
      are ten and each ranks before it. */
  lemma SelectionExactly(st: State)
    requires Sorted(st.index)
    ensures var chosen := Selection(st.db.rows, st.pool, st.index, BLOCK_LIMIT);
      && |chosen| <= 10 && Sorted(chosen)
      && (forall k :: k in chosen ==> k in st.index && Payable(st, k))
      && (forall k :: k in st.index && Payable(st, k) && k !in chosen ==> |chosen| == 10 && forall c :: c in chosen ==> Before(c, k))
  {
    var all := EligibleKeys(st.db.rows, st.pool, st.index);
    var chosen := Selection(st.db.rows, st.pool, st.index, BLOCK_LIMIT);
    EligibleAre(st.db.rows, st.pool, st.index);
    FiltersSorted(st.db.rows, st.pool, st.index);
    forall k
      ensures Eligible(st.db.rows, st.pool, k) <==> Payable(st, k)
    {
    }
    hide EligibleKeys, Eligible, Payable, Before;
    assert chosen == Take(all, 10);
    forall k | k in all && k !in chosen
      ensures |chosen| == 10 && forall c :: c in chosen ==> Before(c, k)
    {
      LeftOut(all, 10, k);
    }
    TakeSorted(all, 10);
  }

  predicate Payable(st: State, k: Key) {
    k.hash in st.pool
    && var tx := st.pool[k.hash];
    tx.from == SYSTEM || Balance(st.db.rows, tx.from) >= tx.amount + tx.fee
  }

  lemma LeftOut(all: seq<Key>, n: nat, k: Key)
    requires Sorted(all) && k in all && k !in Take(all, n)
    ensures |Take(all, n)| == n && forall c :: c in Take(all, n) ==> Before(c, k)
  {
    var i :| 0 <= i < |all| && all[i] == k;
    assert forall j :: 0 <= j < |Take(all, n)| ==> Take(all, n)[j] == all[j] && Take(all, n)[j] in Take(all, n);
    assert i >= |Take(all, n)|;
    forall c | c in Take(all, n)
      ensures Before(c, k)
    {
      var j :| 0 <= j < |Take(all, n)| && Take(all, n)[j] == c;
      assert all[j] == c;
    }
  }

  // ---------- a new block ----------

  /** A transaction of the block that is not SYSTEM's has this hash. */
  predicate Brought(txs: seq<Tx>, h: Hash) {
    exists tx :: tx in txs && tx.from != SYSTEM && tx.hash == h
  }

  lemma BroughtMoves(txs: seq<Tx>, h: Hash)
    ensures Moves(txs, h) <==> Brought(txs, h)
  {
    if Moves(txs, h) {
      var i :| 0 <= i < |txs| && txs[i].from != SYSTEM && txs[i].hash == h;
      assert txs[i] in txs;
    }
  }

  /** An accepted block takes its own transactions out of the mempool, and the clean-up those that fail after it. */
  lemma AppendExactly(st: State, block: Block)
    requires Append(st, block).ok
    ensures var st' := Append(st, block).state;
      && st'.pool == (map h | h in st.pool && !Brought(block.txs, h) && !Fails(st'.db.rows, st.index, st.pool[h], h) :: st.pool[h])
      && forall k :: k in st'.index <==>
           k in st.index
           && !(k.hash in st.pool && !Brought(block.txs, k.hash) && Fails(st'.db.rows, st.index, st.pool[k.hash], k.hash))
  {
    var before := State(InsertBlock(st.db, block), EraseMined(st.pool, block.txs), st.index);
    CleanExactly(before);
    forall h
      ensures Moves(block.txs, h) <==> Brought(block.txs, h)
    {
      BroughtMoves(block.txs, h);
    }
    hide Clean, Moves, Brought, Fails;
  }

  // ---------- a replaced tip ----------

  /** The transactions that are admitted again once a block is undone, under their hashes. */
  function Returning(rows: seq<TxRow>, txs: seq<Tx>): map<Hash, Tx> {
    if txs == [] then map[]
    else
      var init, last := txs[..|txs| - 1], txs[|txs| - 1];
      if last.from != SYSTEM && Balance(rows, last.from) >= last.amount + last.fee then Returning(rows, init)[last.hash := last]
      else Returning(rows, init)
  }

  lemma {:induction false} ReturningSame(rows: seq<TxRow>, rows': seq<TxRow>, txs: seq<Tx>)
    requires SameBalances(rows, rows')
    ensures Returning(rows, txs) == Returning(rows', txs)
    decreases |txs|
  {
    if txs != [] {
      ReturningSame(rows, rows', txs[..|txs| - 1]);
      hide Balance;
    }
  }

  /** All that is in these maps under a key is the same. */
  ghost predicate Within(pool: map<Hash, Tx>, all: map<Hash, Tx>) {
    forall h :: h in pool ==> h in all && pool[h] == all[h]
  }

  lemma KeepsBalances(rows: seq<TxRow>, rows': seq<TxRow>, tx: Tx)
    requires rows' == rows || (rows' == rows + [TxRow(tx, None)] && tx.status != Confirmed)
    ensures SameBalances(rows', rows)
  {
    forall a
      ensures Balance(rows', a) == Balance(rows, a)
    {
      if rows' != rows {
        assert rows'[..|rows'| - 1] == rows;
      }
    }
  }

  lemma BalancesSameTwice(a: seq<TxRow>, b: seq<TxRow>, c: seq<TxRow>)
    requires SameBalances(a, b) && SameBalances(b, c)
    ensures SameBalances(a, c)
  {
    hide Balance;
  }

  /** What re-admission leaves: with room in the index, every old entry and every one that returns. */
  ghost predicate Readmitted(st: State, st': State, back: map<Hash, Tx>, n: nat) {
    && Sorted(st'.index) && |st'.index| <= CAPACITY
    && SameBalances(st'.db.rows, st.db.rows)
    && Within(st'.pool, st.pool + back)
    && (forall k :: k in st'.index ==> k in st.index || k.hash in back)
    && (|st.index| + n <= CAPACITY ==>
          && st'.pool == st.pool + back && |st'.index| <= |st.index| + n
          && forall k :: k in st.index ==> k in st'.index)
  }

  lemma {:induction false} ReadmitExactly(st: State, txs: seq<Tx>, stamps: Tx -> Stamp)
    requires Sorted(st.index) && |st.index| <= CAPACITY && DistinctChecked(txs) && RewardsOnly(txs)
    ensures Readmitted(st, Readmit(st, txs, stamps), Returning(st.db.rows, txs), |txs|)
    decreases |txs|
  {
    if txs == [] {
      assert st.pool + map[] == st.pool;
    } else {
      var init, last := txs[..|txs| - 1], txs[|txs| - 1];
      ReadmitExactly(st, init, stamps);
      assert Checked(last) && (last.status == Confirmed ==> last.from == SYSTEM);
      hide RewardsOnly, DistinctChecked;
      ReadmitOne(st, Readmit(st, init, stamps), Returning(st.db.rows, init), |init|, last, stamps(last));
      hide Admit, Readmitted;
    }
  }

  lemma AdmitReadmits(st: State, tx: Tx, stamp: Stamp)
    requires Sorted(st.index) && |st.index| <= CAPACITY && Checked(tx) && tx.status != Confirmed && tx.from != SYSTEM
    ensures Readmitted(st, Admit(st, tx, stamp).state,
      if Balance(st.db.rows, tx.from) >= tx.amount + tx.fee then map[tx.hash := tx] else map[], 1)
  {
    hide Admit, Insert, Sorted, Balance, HasHash, Worst, HasTie, SameBalances, Taken, Take;
    var r := Admit(st, tx, stamp);
    var worst := AdmitExactly(st, tx, stamp);
    KeepsBalances(st.db.rows, r.state.db.rows, tx);
    SortedAfterAdmit(st, tx, stamp);
    assert st.pool + map[tx.hash := tx] == st.pool[tx.hash := tx] && st.pool + map[] == st.pool;
  }

  lemma SortedAfterAdmit(st: State, tx: Tx, stamp: Stamp)
    requires Sorted(st.index) && |st.index| <= CAPACITY
    ensures var index' := Admit(st, tx, stamp).state.index;
      Sorted(index') && |index'| <= CAPACITY && |index'| <= |st.index| + 1
  {
    AdmitIndex(st, tx, stamp);
    InsertSorted(st.index, KeyOf(tx, stamp));
    TakeSorted(Insert(st.index, KeyOf(tx, stamp)), CAPACITY);
    hide Admit, Insert, Sorted, HasTie;
  }

  lemma ReadmittedTwice(st: State, st1: State, st2: State, back1: map<Hash, Tx>, back2: map<Hash, Tx>, n: nat)
    requires Readmitted(st, st1, back1, n) && Readmitted(st1, st2, back2, 1)
    ensures Readmitted(st, st2, back1 + back2, n + 1)
  {
    BalancesSameTwice(st2.db.rows, st1.db.rows, st.db.rows);
    hide Sorted, SameBalances;
    assert st.pool + (back1 + back2) == (st.pool + back1) + back2;
  }

  lemma ReadmitOne(st: State, before: State, back: map<Hash, Tx>, n: nat, tx: Tx, stamp: Stamp)
    requires Readmitted(st, before, back, n) && Checked(tx) && (tx.status == Confirmed ==> tx.from == SYSTEM)
    ensures Readmitted(st,
      if tx.from != SYSTEM then Admit(before, tx, stamp).state else before,
      if tx.from != SYSTEM && Balance(st.db.rows, tx.from) >= tx.amount + tx.fee then back[tx.hash := tx] else back,
      n + 1)
  {
    assert Sorted(before.index) && |before.index| <= CAPACITY;
    assert Balance(before.db.rows, tx.from) == Balance(st.db.rows, tx.from);
    hide Admit, Balance, Sorted, Readmitted;
    if tx.from != SYSTEM {
      AdmitReadmits(before, tx, stamp);
      var more := if Balance(before.db.rows, tx.from) >= tx.amount + tx.fee then map[tx.hash := tx] else map[];
      ReadmittedTwice(st, before, Admit(before, tx, stamp).state, back, more, n);
      assert back + map[tx.hash := tx] == back[tx.hash := tx] && back + map[] == back;
    } else {
      OneMore(st, before, back, n);
    }
  }

  lemma OneMore(st: State, st': State, back: map<Hash, Tx>, n: nat)
    requires Readmitted(st, st', back, n)
    ensures Readmitted(st, st', back, n + 1)
  {
    hide Sorted, SameBalances;
  }

  lemma {:induction false} ReturningCanPay(rows: seq<TxRow>, txs: seq<Tx>)
    ensures forall h :: h in Returning(rows, txs) ==>
      var tx := Returning(rows, txs)[h]; Balance(rows, tx.from) >= tx.amount + tx.fee
    decreases |txs|
  {
    if txs != [] {
      ReturningCanPay(rows, txs[..|txs| - 1]);
      hide Balance;
    }
  }

  lemma ReplaceIsClean(st: State, block: Block, stamps: Tx -> Stamp)
    requires Replace(st, block, stamps).ok
    ensures var top := block.header.height;
      var inserted := st.(db := InsertBlock(DeleteTip(st.db, top), block));
      Replace(st, block, stamps).state == Clean(Readmit(inserted, TxsAt(st.db.rows, top), stamps))
  {
    hide Clean, Readmit, TxsAt, InsertBlock, DeleteTip, CanInsertBlock;
  }

  /** When a replacement succeeds, and that one which fails costs the tip but nothing of mempool or index. */
  lemma ReplaceWhen(st: State, block: Block, stamps: Tx -> Stamp)
    ensures var r, top := Replace(st, block, stamps), Top(st.db.blocks);
      var matches := top in st.db.blocks && block.header.height == top && block.header.prevHash == st.db.blocks[top].header.prevHash;
      var repeated := exists k :: k in st.db.blocks && k != top && st.db.blocks[k].header.hash == block.header.hash;
      && (r.ok <==> matches && !repeated)
      && (!r.ok ==> r.state.pool == st.pool && r.state.index == st.index)
      && (!matches ==> r.state == st)
      && (matches && repeated ==> r.state.db == DeleteTip(st.db, top))
  {
    hide Clean, Readmit, InsertBlock, TxsAt, WithoutHeight;
    StoredElsewhere(st.db.blocks, Top(st.db.blocks), block.header.hash);
    hide HashStored;
  }

  lemma StoredElsewhere(blocks: map<int, BlockRow>, top: int, hash: Hash)
    ensures HashStored(blocks - {top}, hash) <==> exists k :: k in blocks && k != top && blocks[k].header.hash == hash
  {
    var left := blocks - {top};
    if k :| k in blocks && k != top && blocks[k].header.hash == hash {
      assert k in left && left[k].header.hash == hash;
    }
  }

  /** With room in the index, the same entries fail before and after re-admission. */
  lemma SameFail(rows: seq<TxRow>, index: seq<Key>, index': seq<Key>, back: map<Hash, Tx>, tx: Tx, h: Hash)
    requires forall k :: k in index' ==> k in index || k.hash in back
    requires forall k :: k in index ==> k in index'
    requires h in back ==> Balance(rows, tx.from) >= tx.amount + tx.fee
    ensures Fails(rows, index', tx, h) <==> Fails(rows, index, tx, h)
  {
    hide Balance;
  }

  /** A successful replacement puts the undone block's transfers back, as far as they can be paid, and takes out the entries
      that fail then; with room in the index nothing else changes, and without it nothing else comes in. */
  lemma ReplaceExactly(st: State, block: Block, stamps: Tx -> Stamp)
    requires Sound(st) && RewardsOnly(TxsAt(st.db.rows, block.header.height)) && Replace(st, block, stamps).ok
    ensures var st', stored := Replace(st, block, stamps).state, TxsAt(st.db.rows, block.header.height);
      var back := Returning(st'.db.rows, stored);
      var all := st.pool + back;
      && Within(st'.pool, all)
      && (forall k :: k in st'.index ==> k in st.index || k.hash in back)
      && (|st.index| + |stored| <= CAPACITY ==>
            && st'.pool == (map h | h in all && !Fails(st'.db.rows, st.index, all[h], h) :: all[h])
            && forall k :: k in st.index && !(k.hash in all && Fails(st'.db.rows, st.index, all[k.hash], k.hash)) ==> k in st'.index)
  {
    var top, stored := block.header.height, TxsAt(st.db.rows, block.header.height);
    var inserted := st.(db := InsertBlock(DeleteTip(st.db, top), block));
    StoredAtDistinct(st.db.rows, top);
    hide Readmit, Clean, InsertBlock, TxsAt, DistinctChecked, RewardsOnly, Balance, Fails, Referential, TablesSound, PoolSound;
    ReplaceIsClean(st, block, stamps);
    hide Replace;
    ReadmitExactly(inserted, stored, stamps);
    var before := Readmit(inserted, stored, stamps);
    var rows := before.db.rows;
    CleanExactly(before);
    ReturningSame(rows, inserted.db.rows, stored);
    ReturningCanPay(rows, stored);
    hide Sorted, SameBalances, Returning;
    if |st.index| + |stored| <= CAPACITY {
      var back := Returning(rows, stored);
      var all := st.pool + back;
      forall h | h in all
        ensures Fails(rows, before.index, all[h], h) <==> Fails(rows, st.index, all[h], h)
      {
        SameFail(rows, st.index, before.index, back, all[h], h);
      }
    }
  }
}
