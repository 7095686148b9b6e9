/** One node's ledger: tables, mempool and priority index, and the operations of `Blockchain` on them.
    Each operation is a function on states, and a method of the class that carries it out in place. */
module Chain {
  import opened Types
  import opened Ledger
  import opened Pool
  import Difficulty
  import Merkle
  import Mining
  import Protocol

  const CAPACITY: nat := 10000
  const BLOCK_LIMIT: nat := 10
  const REWARD := 100.0

  datatype State = State(db: Db, pool: map<Hash, Tx>, index: seq<Key>)

  datatype Result = Result(state: State, ok: bool)

  datatype Drafted = Drafted(state: State, block: Block)

  function Headers(blocks: map<int, BlockRow>): (table: Protocol.Table)
    ensures table.Keys == blocks.Keys
  {
    map k | k in blocks :: blocks[k].header
  }

  // ---------- the operations as functions ----------

  datatype Evicted = Evicted(pool: map<Hash, Tx>, index: seq<Key>)

  /** The worst keys go until the index fits, each taking the transaction it names out of the mempool. */
  function Evict(pool: map<Hash, Tx>, index: seq<Key>): Evicted
    decreases |index|
  {
    if |index| <= CAPACITY then Evicted(pool, index)
    else Evict(pool - {index[|index| - 1].hash}, index[..|index| - 1])
  }

  function KeyOf(tx: Tx, stamp: Stamp): Key {
    Key(tx.fee / stamp.JsonSize() as real, tx.hash, stamp.now)
  }

  /** The index ranks by fee per character, compared without division here, then by age. */
  lemma KeyOrder(t1: Tx, s1: Stamp, t2: Tx, s2: Stamp)
    ensures var a, b := t1.fee * s2.JsonSize() as real, t2.fee * s1.JsonSize() as real;
      Before(KeyOf(t1, s1), KeyOf(t2, s2)) <==> a > b || (a == b && s1.now < s2.now)
  {
    CompareQuotients(t1.fee, s1.JsonSize() as real, t2.fee, s2.JsonSize() as real);
  }

  lemma CompareQuotients(a: real, b: real, c: real, d: real)
    requires b > 0.0 && d > 0.0
    ensures a / b > c / d <==> a * d > c * b
    ensures a / b == c / d <==> a * d == c * b
  {
    var x, y := a / b, c / d;
    assert a == x * b && c == y * d;
    assert a * d == x * (b * d) && c * b == y * (b * d);
    assert b * d > 0.0;
  }

  function Admit(st: State, tx: Tx, stamp: Stamp): Result {
    if tx.amount <= 0.0 || tx.fee < 0.0 || Unaffordable(st.db.rows, tx) then Result(st, false)
    else
      var evicted := Evict(st.pool[tx.hash := tx], Insert(st.index, KeyOf(tx, stamp)));
      Result(State(st.db.(rows := InsertTx(st.db.rows, tx, -1)), evicted.pool, evicted.index), true)
  }

  function Clean(st: State): State {
    st.(pool := KeptPool(st.db.rows, st.pool, st.index), index := KeptKeys(st.db.rows, st.pool, st.index))
  }

  predicate Moves(txs: seq<Tx>, h: Hash) {
    exists i :: 0 <= i < |txs| && txs[i].from != SYSTEM && txs[i].hash == h
  }

  /** The mempool without a block's transactions; coinbase and other SYSTEM ones are left in. */
  function EraseMined(pool: map<Hash, Tx>, txs: seq<Tx>): map<Hash, Tx> {
    map h | h in pool && !Moves(txs, h) :: pool[h]
  }

  function Append(st: State, block: Block): Result {
    var current := Top(st.db.blocks);
    var h := block.header;
    if h.height <= current then Result(st, false)
    else if h.height > 0 && (current !in st.db.blocks || st.db.blocks[current].header.hash != h.prevHash) then
      Result(st, false)
    else if !CanInsertBlock(st.db, block) then Result(st, false)
    else Result(Clean(State(InsertBlock(st.db, block), EraseMined(st.pool, block.txs), st.index)), true)
  }

  function Readmit(st: State, txs: seq<Tx>, stamps: Tx -> Stamp): State {
    if txs == [] then st
    else
      var before, tx := Readmit(st, txs[..|txs| - 1], stamps), txs[|txs| - 1];
      if tx.from != SYSTEM && tx.amount > 0.0 && tx.fee >= 0.0 then Admit(before, tx, stamps(tx)).state else before
  }

  /** Delete the tip and its rows, insert the new block, re-admit the old transactions, clean up. */
  function Replace(st: State, block: Block, stamps: Tx -> Stamp): Result {
    var current := Top(st.db.blocks);
    if current != block.header.height || current !in st.db.blocks
       || st.db.blocks[current].header.prevHash != block.header.prevHash
    then Result(st, false)
    else
      var cut := DeleteTip(st.db, current);
      if !CanInsertBlock(cut, block) then Result(st.(db := cut), false)
      else Result(Clean(Readmit(st.(db := InsertBlock(cut, block)), TxsAt(st.db.rows, current), stamps)), true)
  }

  /** The coinbase transaction; its hash covers the clock and is supplied from outside. */
  function Coinbase(miner: string, hash: Hash): Tx {
    Tx(hash, SYSTEM, miner, REWARD, 0.0, Confirmed, "Coinbase")
  }

  function TxsOf(pool: map<Hash, Tx>, keys: seq<Key>): seq<Tx> {
    if keys == [] then []
    else
      var init, last := keys[..|keys| - 1], keys[|keys| - 1];
      TxsOf(pool, init) + if last.hash in pool then [pool[last.hash]] else []
  }

  /** `createBlock`: if nothing could be selected from a non-empty mempool, mempool and index are emptied. */
  function Draft(st: State, sha: Merkle.Digest, miner: string, coinbaseHash: Hash, now: int): Drafted {
    var chosen := Selection(st.db.rows, st.pool, st.index, BLOCK_LIMIT);
    var txs := [Coinbase(miner, coinbaseHash)] + TxsOf(st.pool, chosen);
    var root := Merkle.Root(sha, Mining.TxHashes(txs));
    Drafted(if chosen == [] && st.pool != map[] then st.(pool := map[], index := []) else st,
            Block(Protocol.Draft(Headers(st.db.blocks), miner, root, now), txs))
  }

  // ---------- what happens to the headers ----------

  lemma TopOfHeaders(blocks: map<int, BlockRow>)
    ensures Top(Headers(blocks)) == Top(blocks)
  {
    assert Top(blocks) in blocks || forall k :: k !in blocks;
  }

  lemma InsertHeaders(db: Db, block: Block)
    ensures Protocol.Insert(Headers(db.blocks), block.header)
      == Protocol.Put(Headers(InsertBlock(db, block).blocks), CanInsertBlock(db, block))
    ensures !CanInsertBlock(db, block) ==> InsertBlock(db, block) == db
  {
    var table := Headers(db.blocks);
    assert (exists k | k in table :: table[k].hash == block.header.hash) <==> HashStored(db.blocks, block.header.hash);
    if CanInsertBlock(db, block) {
      assert Headers(InsertBlock(db, block).blocks) == table[block.header.height := block.header];
    }
  }

  lemma {:induction false} ReadmitKeepsBlocks(st: State, txs: seq<Tx>, stamps: Tx -> Stamp)
    ensures Readmit(st, txs, stamps).db.blocks == st.db.blocks
    decreases |txs|
  {
    if txs != [] {
      ReadmitKeepsBlocks(st, txs[..|txs| - 1], stamps);
    }
  }

  /** Seen through the header columns, appending and replacing do what the header protocol says, whatever the
      transactions and the mempool are. */
  lemma OperationsOnHeaders(st: State, block: Block, stamps: Tx -> Stamp)
    ensures var r := Append(st, block);
      Protocol.AddBlock(Headers(st.db.blocks), block.header) == Protocol.Put(Headers(r.state.db.blocks), r.ok)
    ensures var r := Replace(st, block, stamps);
      Protocol.ReplaceLast(Headers(st.db.blocks), block.header) == Protocol.Put(Headers(r.state.db.blocks), r.ok)
  {
    hide CanInsertBlock, InsertBlock, Protocol.Insert, Clean, Readmit;
    var current := Top(st.db.blocks);
    TopOfHeaders(st.db.blocks);
    InsertHeaders(st.db, block);
    var cut := DeleteTip(st.db, current);
    InsertHeaders(cut, block);
    assert Headers(cut.blocks) == Headers(st.db.blocks) - {current};
    ReadmitKeepsBlocks(st.(db := InsertBlock(cut, block)), TxsAt(st.db.rows, current), stamps);
    CleanKeepsDb(State(InsertBlock(st.db, block), EraseMined(st.pool, block.txs), st.index));
    CleanKeepsDb(Readmit(st.(db := InsertBlock(cut, block)), TxsAt(st.db.rows, current), stamps));
  }

  lemma CleanKeepsDb(st: State)
    ensures Clean(st).db == st.db
  {
  }

  // ---------- the operations in place ----------

  class Blockchain {
    const db: LedgerDB
    const sha: Merkle.Digest
    var pool: map<Hash, Tx>
    var index: seq<Key>

    ghost function Contents(): State
      reads this, db
    {
      State(db.Contents(), pool, index)
    }

    /** The ordering a std::set keeps by itself. */
    ghost predicate Valid()
      reads this
    {
      Sorted(index)
    }

    constructor (time: int, sha: Merkle.Digest)
      ensures Valid() && fresh(db) && this.sha == sha
      ensures Contents() == State(GenesisDb(time), map[], [])
    {
      db := new LedgerDB(time);
      this.sha := sha;
      pool := map[];
      index := [];
    }

    method CleanMempool() returns (removed: int)
      requires Valid()
      modifies this
      ensures Valid() && Contents() == Clean(old(Contents()))
      ensures removed == |old(index)| - |index|
    {
      var toRemove: seq<Key> := [];
      removed := 0;
      for i := 0 to |index|
        invariant Contents() == old(Contents()) && removed == |toRemove|
        invariant toRemove == DoomedKeys(db.rows, pool, index[..i])
      {
        assert index[..i + 1][..i] == index[..i];
        var priority := index[i];
        if priority.hash in pool {
          var tx := pool[priority.hash];
          if tx.from != SYSTEM {
            var balance := db.GetBalance(tx.from);
            if balance < tx.amount + tx.fee {
              toRemove := toRemove + [priority];
              removed := removed + 1;
            }
          }
        }
      }
      assert index[..|index|] == index;
      DoomedAndKept(db.rows, pool, index);
      FiltersSorted(db.rows, pool, index);
      RemoveKeys(toRemove);
    }

    /** The second loop of the clean-up. */
    method RemoveKeys(toRemove: seq<Key>)
      requires Valid()
      requires toRemove == DoomedKeys(db.rows, pool, index)
      modifies this
      ensures Valid() && Contents() == Clean(old(Contents()))
    {
      hide Removed, Doomed, Unaffordable, Indexed, Erase, KeptKeys, KeptPool, DoomedKeys;
      DoomedAndKept(db.rows, pool, index);
      FiltersSorted(db.rows, pool, index);
      RemovedNone(pool, index);
      assert toRemove[..0] == [];
      for i := 0 to |toRemove|
        invariant Removed(old(pool), old(index), toRemove[..i], pool, index)
        invariant db.Contents() == old(db.Contents())
      {
        var p := toRemove[i];
        assert toRemove[..i + 1] == toRemove[..i] + [p];
        assert p !in toRemove[..i];
        RemoveStep(old(pool), old(index), toRemove[..i], p, pool, index);
        pool := pool - {p.hash};
        index := Erase(index, p);
      }
      assert toRemove[..|toRemove|] == toRemove;
      RemovedAll(db.rows, old(pool), old(index), pool, index);
    }

    method AddBlock(block: Block) returns (ok: bool)
      requires Valid()
      modifies this, db
      ensures Valid() && Result(Contents(), ok) == Append(old(Contents()), block)
    {
      hide Clean, TxsAt, HashStored;
      var currentHeight := db.GetLatestHeight();
      if block.header.height <= currentHeight {
        return false;
      }
      if block.header.height > 0 {
        var prev := db.GetBlockByHeight(currentHeight);
        if prev.None? {
          return false;
        }
        if prev.value.header.hash != block.header.prevHash {
          return false;
        }
      }
      ok := db.AddBlock(block);
      if !ok {
        return;
      }
      for i := 0 to |block.txs|
        invariant pool == EraseMined(old(pool), block.txs[..i])
        invariant index == old(index) && db.Contents() == InsertBlock(old(db.Contents()), block)
      {
        MovesSnoc(block.txs[..i], block.txs[i]);
        assert block.txs[..i + 1] == block.txs[..i] + [block.txs[i]];
        if block.txs[i].from != SYSTEM {
          pool := pool - {block.txs[i].hash};
        }
      }
      assert block.txs[..|block.txs|] == block.txs;
      var _ := CleanMempool();
    }

    method AddTransaction(tx: Tx, stamp: Stamp) returns (ok: bool)
      requires Valid()
      modifies this, db
      ensures Valid() && Result(Contents(), ok) == Admit(old(Contents()), tx, stamp)
    {
      if tx.amount <= 0.0 {
        return false;
      }
      if tx.fee < 0.0 {
        return false;
      }
      if tx.from != SYSTEM {
        var balance := db.GetBalance(tx.from);
        if balance < tx.amount + tx.fee {
          return false;
        }
      }
      pool := pool[tx.hash := tx];
      InsertSorted(index, KeyOf(tx, stamp));
      index := Insert(index, KeyOf(tx, stamp));
      EvictExcess();
      var _ := db.AddTransaction(tx, -1);
      return true;
    }

    /** The loop that keeps the index within its capacity. */
    method EvictExcess()
      requires Valid()
      modifies this
      ensures Valid() && Evicted(pool, index) == Evict(old(pool), old(index))
    {
      while |index| > CAPACITY
        invariant Evict(pool, index) == Evict(old(pool), old(index)) && Valid()
        decreases |index|
      {
        var lowest := index[|index| - 1];
        pool := pool - {lowest.hash};
        index := index[..|index| - 1];
      }
    }

    method GetCurrentDifficulty() returns (d: int)
      ensures d == Difficulty.Current(Headers(db.blocks))
    {
      TopOfHeaders(db.blocks);
      var height := db.GetLatestHeight();
      if height < Difficulty.INTERVAL {
        return Difficulty.INITIAL;
      }
      var first := db.GetBlockByHeight(height - Difficulty.INTERVAL + 1);
      var last := db.GetBlockByHeight(height);
      if first.None? || last.None? {
        return Difficulty.FALLBACK;
      }
      return Difficulty.Retarget(last.value.header.difficulty,
                                 last.value.header.timestamp - first.value.header.timestamp);
    }

    /** The balance check of `createBlock`, one transaction at a time. */
    method CanPay(tx: Tx) returns (valid: bool)
      ensures valid == !Unaffordable(db.rows, tx)
    {
      valid := true;
      if tx.from != SYSTEM {
        var balance := db.GetBalance(tx.from);
        if balance < tx.amount + tx.fee {
          valid := false;
        }
      }
    }

    /** The selection loop of `createBlock`. */
    method SelectTransactions() returns (txs: seq<Tx>)
      ensures txs == TxsOf(pool, Selection(db.rows, pool, index, BLOCK_LIMIT))
    {
      hide Unaffordable;
      txs := [];
      ghost var chosen: seq<Key> := [];
      var txCount, i := 0, 0;
      while i < |index| && txCount < BLOCK_LIMIT
        invariant 0 <= i <= |index| && txCount == |chosen| <= BLOCK_LIMIT
        invariant chosen == EligibleKeys(db.rows, pool, index[..i])
        invariant txs == TxsOf(pool, chosen)
      {
        assert index[..i + 1][..i] == index[..i];
        var priority := index[i];
        if priority.hash in pool {
          var tx := pool[priority.hash];
          var valid := CanPay(tx);
          if valid {
            assert (chosen + [priority])[..|chosen|] == chosen;
            txs := txs + [tx];
            chosen := chosen + [priority];
            txCount := txCount + 1;
          }
        }
        i := i + 1;
      }
      EligiblePrefix(db.rows, pool, index, i);
      assert i == |index| ==> index[..i] == index;
      assert chosen == EligibleKeys(db.rows, pool, index)[..|chosen|];
      assert chosen == Selection(db.rows, pool, index, BLOCK_LIMIT);
    }

    method CreateBlock(miner: string, coinbaseHash: Hash, now: int) returns (block: Block)
      requires Valid()
      modifies this
      ensures Valid() && Drafted(Contents(), block) == Draft(old(Contents()), sha, miner, coinbaseHash, now)
    {
      hide Balance, EligibleKeys, TxsOf, Merkle.Root, Sorted;
      TopOfHeaders(db.blocks);
      var height, prevHash := 0, "0";
      var lastHeight := db.GetLatestHeight();
      if lastHeight >= 0 {
        var lastBlock := db.GetBlockByHeight(lastHeight);
        if lastBlock.Some? {
          height, prevHash := lastHeight + 1, lastBlock.value.header.hash;
        }
      }
      var difficulty := GetCurrentDifficulty();
      var picked := SelectTransactions();
      var txs := [Coinbase(miner, coinbaseHash)] + picked;
      TxsOfSelection(db.rows, pool, index);
      if |picked| == 0 && pool != map[] {
        pool := map[];
        index := [];
        EmptySorted();
      }
      var root := Merkle.CalculateMerkleRoot(sha, Mining.TxHashes(txs));
      block := Block(Header(height, "", prevHash, root, now, 0, difficulty, miner), txs);
    }

    method ReplaceLastBlock(block: Block, stamps: Tx -> Stamp) returns (ok: bool)
      requires Valid()
      modifies this, db
      ensures Valid() && Result(Contents(), ok) == Replace(old(Contents()), block, stamps)
    {
      var current := db.GetLatestHeight();
      if current != block.header.height {
        return false;
      }
      var oldBlock := db.GetBlockByHeight(current);
      if oldBlock.None? {
        return false;
      }
      if oldBlock.value.header.prevHash != block.header.prevHash {
        return false;
      }
      db.DeleteBlockRow(current);
      db.DeleteTransactionRows(current);
      ok := db.AddBlock(block);
      if !ok {
        return;
      }
      var txs := oldBlock.value.txs;
      ghost var inserted := Contents();
      for i := 0 to |txs|
        invariant Valid() && Contents() == Readmit(inserted, txs[..i], stamps)
      {
        assert txs[..i + 1][..i] == txs[..i];
        var tx := txs[i];
        if tx.from != SYSTEM && tx.amount > 0.0 && tx.fee >= 0.0 {
          var _ := AddTransaction(tx, stamps(tx));
        }
      }
      assert txs[..|txs|] == txs;
      var _ := CleanMempool();
    }
  }

  // ---------- helpers of the methods ----------

  lemma EmptySorted()
    ensures Sorted([])
  {
  }

  /** Every selected key names a transaction of the mempool. */
  lemma {:induction false} TxsOfLive(pool: map<Hash, Tx>, keys: seq<Key>)
    requires forall k :: k in keys ==> k.hash in pool
    ensures |TxsOf(pool, keys)| == |keys|
    ensures forall i :: 0 <= i < |keys| ==> TxsOf(pool, keys)[i] == pool[keys[i].hash]
    decreases |keys|
  {
    if keys != [] {
      var init, last := keys[..|keys| - 1], keys[|keys| - 1];
      assert keys == init + [last];
      TxsOfLive(pool, init);
    }
  }

  lemma TxsOfSelection(rows: seq<TxRow>, pool: map<Hash, Tx>, index: seq<Key>)
    ensures var chosen := Selection(rows, pool, index, BLOCK_LIMIT);
      && |TxsOf(pool, chosen)| == |chosen|
      && (forall i :: 0 <= i < |chosen| ==> chosen[i] in index && Eligible(rows, pool, chosen[i]))
      && (forall i :: 0 <= i < |chosen| ==> TxsOf(pool, chosen)[i] == pool[chosen[i].hash])
  {
    hide Unaffordable;
    EligibleAre(rows, pool, index);
    var all, chosen := EligibleKeys(rows, pool, index), Selection(rows, pool, index, BLOCK_LIMIT);
    forall i | 0 <= i < |chosen|
      ensures chosen[i] in index && Eligible(rows, pool, chosen[i])
    {
      assert chosen[i] == all[i];
    }
    TxsOfLive(pool, chosen);
  }

  /** What is left of mempool and index once the keys in `gone` have been taken out. */
  ghost predicate Removed(pool: map<Hash, Tx>, index: seq<Key>, gone: seq<Key>, pool': map<Hash, Tx>, index': seq<Key>) {
    && Sorted(index')
    && (forall x :: x in index' <==> x in index && x !in gone)
    && pool' == map h | h in pool && !Indexed(gone, h) :: pool[h]
  }

  lemma RemovedNone(pool: map<Hash, Tx>, index: seq<Key>)
    requires Sorted(index)
    ensures Removed(pool, index, [], pool, index)
  {
  }

  lemma RemoveStep(pool: map<Hash, Tx>, index: seq<Key>, gone: seq<Key>, p: Key, pool': map<Hash, Tx>, index': seq<Key>)
    requires Removed(pool, index, gone, pool', index') && p in index && p !in gone
    ensures Removed(pool, index, gone + [p], pool' - {p.hash}, Erase(index', p))
  {
    EraseSorted(index', p);
    IndexedSnoc(gone, p);
    hide Sorted, Erase, Indexed;
  }

  lemma RemovedAll(rows: seq<TxRow>, pool: map<Hash, Tx>, index: seq<Key>, pool': map<Hash, Tx>, index': seq<Key>)
    requires Sorted(index) && Removed(pool, index, DoomedKeys(rows, pool, index), pool', index')
    ensures pool' == KeptPool(rows, pool, index) && index' == KeptKeys(rows, pool, index)
    ensures Sorted(index')
  {
    DoomedAndKept(rows, pool, index);
    FiltersSorted(rows, pool, index);
    DoomedHashes(rows, pool, index);
    hide Indexed, Doomed, Unaffordable, DoomedKeys, KeptKeys;
    SortedUnique(index', KeptKeys(rows, pool, index));
  }

  lemma IndexedSnoc(keys: seq<Key>, k: Key)
    ensures forall h :: Indexed(keys + [k], h) <==> Indexed(keys, h) || k.hash == h
  {
    forall h
      ensures Indexed(keys + [k], h) <==> Indexed(keys, h) || k.hash == h
    {
      assert forall i :: 0 <= i < |keys| ==> (keys + [k])[i] == keys[i];
      assert (keys + [k])[|keys|] == k;
    }
  }

  lemma MovesSnoc(txs: seq<Tx>, tx: Tx)
    ensures forall h :: Moves(txs + [tx], h) <==> Moves(txs, h) || (tx.from != SYSTEM && tx.hash == h)
  {
    forall h
      ensures Moves(txs + [tx], h) <==> Moves(txs, h) || (tx.from != SYSTEM && tx.hash == h)
    {
      assert forall i :: 0 <= i < |txs| ==> (txs + [tx])[i] == txs[i];
      assert (txs + [tx])[|txs|] == tx;
    }
  }

  lemma DoomedHashes(rows: seq<TxRow>, pool: map<Hash, Tx>, index: seq<Key>)
    ensures forall h :: h in pool ==>
      (Indexed(DoomedKeys(rows, pool, index), h) <==> Unaffordable(rows, pool[h]) && Indexed(index, h))
  {
    hide Unaffordable;
    DoomedAndKept(rows, pool, index);
    var doomed := DoomedKeys(rows, pool, index);
    forall h | h in pool
      ensures Indexed(doomed, h) <==> Unaffordable(rows, pool[h]) && Indexed(index, h)
    {
      if Indexed(doomed, h) {
        var i :| 0 <= i < |doomed| && doomed[i].hash == h;
        assert doomed[i] in index;
        var j :| 0 <= j < |index| && index[j] == doomed[i];
      }
      if Unaffordable(rows, pool[h]) && Indexed(index, h) {
        var j :| 0 <= j < |index| && index[j].hash == h;
        assert index[j] in doomed;
        var i :| 0 <= i < |doomed| && doomed[i] == index[j];
      }
    }
  }
}
