/** What holds of a node's ledger after any run of operations. */
module ChainRuns {
  import opened Types
  import opened Ledger
  import opened LedgerLaws
  import opened Pool
  import opened Chain
  import Merkle
  import Protocol

  datatype Op =
    | Admission(tx: Tx, stamp: Stamp)
    | AppendBlock(block: Block)
    | ReplaceTip(block: Block, stamps: Tx -> Stamp)
    | DraftBlock(sha: Merkle.Digest, miner: string, coinbaseHash: Hash, now: int)
    | CleanUp

  function Init(time: int): State {
    State(GenesisDb(time), map[], [])
  }

  function Do(st: State, op: Op): State {
    match op
    case Admission(tx, stamp) => Admit(st, tx, stamp).state
    case AppendBlock(block) => Append(st, block).state
    case ReplaceTip(block, stamps) => Replace(st, block, stamps).state
    case DraftBlock(sha, miner, coinbaseHash, now) => Draft(st, sha, miner, coinbaseHash, now).state
    case CleanUp => Clean(st)
  }

  function Exec(st: State, ops: seq<Op>): State {
    if ops == [] then st else Do(Exec(st, ops[..|ops| - 1]), ops[|ops| - 1])
  }

  // ---------- integrity of tables, mempool and index ----------

  ghost predicate TablesSound(db: Db) {
    && Referential(db) && UniqueHashes(db.rows) && RowsChecked(db.rows)
    && (forall k :: k in db.blocks ==> 0 <= k == db.blocks[k].header.height)
  }

  ghost predicate IndexSound(index: seq<Key>) {
    Sorted(index) && |index| <= CAPACITY && forall k :: k in index ==> k.rate >= 0.0
  }

  ghost predicate PoolSound(pool: map<Hash, Tx>) {
    forall h :: h in pool ==> pool[h].hash == h && pool[h].amount > 0.0 && pool[h].fee >= 0.0
  }

  ghost predicate Sound(st: State) {
    TablesSound(st.db) && IndexSound(st.index) && PoolSound(st.pool)
  }

  lemma EvictOnce(pool: map<Hash, Tx>, index: seq<Key>)
    requires |index| <= CAPACITY + 1
    ensures var e := Evict(pool, index);
      && e.index == Take(index, CAPACITY)
      && e.pool == (if |index| <= CAPACITY then pool else pool - {index[CAPACITY].hash})
  {
    if |index| == CAPACITY + 1 {
      assert Evict(pool, index) == Evict(pool - {index[CAPACITY].hash}, index[..CAPACITY]);
    }
  }

  /** Admitting one transaction to an index within its bound: the best keys of the old ones and the new one. */
  lemma AdmitIndex(st: State, tx: Tx, stamp: Stamp)
    requires Sorted(st.index) && |st.index| <= CAPACITY
    ensures var r := Admit(st, tx, stamp);
      && (r.ok ==> r.state.index == Take(Insert(st.index, KeyOf(tx, stamp)), CAPACITY))
      && (!r.ok ==> r.state == st)
      && (forall h :: h in r.state.pool ==> r.state.pool[h] == if h == tx.hash && r.ok then tx else
            if h in st.pool then st.pool[h] else tx)
      && (forall h :: h in r.state.pool && h !in st.pool ==> h == tx.hash)
  {
    InsertSorted(st.index, KeyOf(tx, stamp));
    EvictOnce(st.pool[tx.hash := tx], Insert(st.index, KeyOf(tx, stamp)));
    hide Evict, Insert, Unaffordable;
  }

  lemma TakeSorted(s: seq<Key>, n: nat)
    requires Sorted(s)
    ensures Sorted(Take(s, n)) && forall k :: k in Take(s, n) ==> k in s
  {
  }

  lemma AdmitSound(st: State, tx: Tx, stamp: Stamp)
    requires Sound(st)
    ensures Sound(Admit(st, tx, stamp).state)
  {
    hide Insert, Sorted, Referential, UniqueHashes, RowsChecked, InsertTx, Take, Unaffordable, Evict;
    AdmitIndex(st, tx, stamp);
    PendingKeepsReferential(st.db, tx);
    InsertKeepsRows(st.db.rows, tx, -1);
    var key := KeyOf(tx, stamp);
    InsertSorted(st.index, key);
    TakeSorted(Insert(st.index, key), CAPACITY);
  }

  lemma CleanSound(st: State)
    requires Sound(st)
    ensures Sound(Clean(st))
  {
    DoomedAndKept(st.db.rows, st.pool, st.index);
    FiltersSorted(st.db.rows, st.pool, st.index);
    hide Sorted, TablesSound, Doomed;
  }

  lemma AppendSound(st: State, block: Block)
    requires Sound(st)
    ensures Sound(Append(st, block).state)
  {
    var db' := InsertBlock(st.db, block);
    BlockKeepsReferential(st.db, block);
    BatchKeepsRows(st.db.rows, block.txs, block.header.height);
    assert Top(st.db.blocks) >= 0;
    if Append(st, block).ok {
      assert TablesSound(db');
      hide TablesSound, Referential, UniqueHashes, RowsChecked, IndexSound;
      CleanSound(State(db', EraseMined(st.pool, block.txs), st.index));
    }
  }

  lemma {:induction false} ReadmitSound(st: State, txs: seq<Tx>, stamps: Tx -> Stamp)
    requires Sound(st)
    ensures Sound(Readmit(st, txs, stamps))
    decreases |txs|
  {
    hide Sound;
    if txs != [] {
      ReadmitSound(st, txs[..|txs| - 1], stamps);
      AdmitSound(Readmit(st, txs[..|txs| - 1], stamps), txs[|txs| - 1], stamps(txs[|txs| - 1]));
    }
  }

  lemma ReplaceSound(st: State, block: Block, stamps: Tx -> Stamp)
    requires Sound(st)
    ensures Sound(Replace(st, block, stamps).state)
  {
    var current := Top(st.db.blocks);
    var cut := DeleteTip(st.db, current);
    DeleteKeepsReferential(st.db, current);
    DeleteKeepsRows(st.db.rows, current);
    BlockKeepsReferential(cut, block);
    BatchKeepsRows(cut.rows, block.txs, block.header.height);
    var inserted := st.(db := InsertBlock(cut, block));
    assert TablesSound(cut) && Sound(st.(db := cut));
    if current == block.header.height {
      assert current >= 0;
      assert TablesSound(inserted.db) && Sound(inserted);
      hide Sound, TablesSound, Referential, UniqueHashes, RowsChecked, InsertBlock;
      ReadmitSound(inserted, TxsAt(st.db.rows, current), stamps);
      CleanSound(Readmit(inserted, TxsAt(st.db.rows, current), stamps));
    }
  }

  lemma GenesisSound(time: int)
    ensures Sound(Init(time))
  {
    var rows := GenesisDb(time).rows;
    assert rows[..|rows| - 1] == [];
    assert TxsAt(rows, 0) == [GenesisTx()];
  }

  /** After any operations, failed replacements included: a row that names a height belongs to a stored block
      that counts it, no hash is stored twice, the index is strictly ordered and within its capacity, and
      mempool entries sit under their own hash. */
  lemma {:induction false} RunSound(time: int, ops: seq<Op>)
    ensures Sound(Exec(Init(time), ops))
    decreases |ops|
  {
    if ops == [] {
      GenesisSound(time);
    } else {
      hide Sound;
      RunSound(time, ops[..|ops| - 1]);
      StepSound(Exec(Init(time), ops[..|ops| - 1]), ops[|ops| - 1]);
    }
  }

  lemma StepSound(st: State, op: Op)
    requires Sound(st)
    ensures Sound(Do(st, op))
  {
    match op
    case Admission(tx, stamp) => AdmitSound(st, tx, stamp);
    case AppendBlock(block) => AppendSound(st, block);
    case ReplaceTip(block, stamps) => ReplaceSound(st, block, stamps);
    case DraftBlock(_, _, _, _) =>
    case CleanUp => CleanSound(st);
  }

  // ---------- streaming admissions ----------

  datatype Offer = Offer(tx: Tx, stamp: Stamp)

  function AdmitAll(st: State, offers: seq<Offer>): State {
    if offers == [] then st
    else
      var last := offers[|offers| - 1];
      Admit(AdmitAll(st, offers[..|offers| - 1]), last.tx, last.stamp).state
  }

  /** The keys of the offers that were accepted. */
  function AcceptedKeys(st: State, offers: seq<Offer>): seq<Key> {
    if offers == [] then []
    else
      var init, last := offers[..|offers| - 1], offers[|offers| - 1];
      AcceptedKeys(st, init)
      + if Admit(AdmitAll(st, init), last.tx, last.stamp).ok then [KeyOf(last.tx, last.stamp)] else []
  }

  /** Starting from an empty index, the index always holds exactly the best 10000 keys accepted so far. */
  lemma {:induction false} IndexHoldsBest(st: State, offers: seq<Offer>)
    requires st.index == []
    ensures AdmitAll(st, offers).index == Take(Everything(AcceptedKeys(st, offers)), CAPACITY)
    ensures Sorted(AdmitAll(st, offers).index)
    decreases |offers|
  {
    var keys := AcceptedKeys(st, offers);
    StreamIsTopK(keys, CAPACITY);
    TakeSorted(Everything(keys), CAPACITY);
    if offers != [] {
      var init, last := offers[..|offers| - 1], offers[|offers| - 1];
      var before := AdmitAll(st, init);
      IndexHoldsBest(st, init);
      AdmitIndex(before, last.tx, last.stamp);
      StreamIsTopK(AcceptedKeys(st, init), CAPACITY);
      hide Everything, Insert, Admit, Sorted;
      if Admit(before, last.tx, last.stamp).ok {
        assert keys[..|keys| - 1] == AcceptedKeys(st, init);
        assert Stream(keys, CAPACITY) == Take(Insert(Stream(AcceptedKeys(st, init), CAPACITY), keys[|keys| - 1]), CAPACITY);
      } else {
        assert keys == AcceptedKeys(st, init);
      }
    }
  }

  // ---------- affordability ----------

  /** Every transaction that is both in the mempool and known to the index, SYSTEM's aside, is covered by its
      sender's balance. */
  ghost predicate Affordable(st: State) {
    forall h :: h in st.pool && Indexed(st.index, h) && st.pool[h].from != SYSTEM ==>
      Balance(st.db.rows, st.pool[h].from) >= st.pool[h].amount + st.pool[h].fee
  }

  /** What the callers see to: admitted transactions are not yet confirmed, and a block competing with the tip does
      not repeat the hash of another stored block. */
  predicate Gentle(st: State, op: Op) {
    match op
    case Admission(tx, _) => tx.status != Confirmed
    case ReplaceTip(block, _) =>
      var top := Top(st.db.blocks);
      block.header.height == top ==> !HashStored(st.db.blocks - {top}, block.header.hash)
    case _ => true
  }

  /** The second condition is met wherever the header protocol keeps its chains healthy. */
  lemma MinedReplacementIsGentle(st: State, block: Block, stamps: Tx -> Stamp, mined: set<Header>)
    requires Protocol.CollisionFree(mined) && Protocol.Tree(mined) && block.header in mined
    requires Protocol.Linked(mined, Headers(st.db.blocks))
    ensures Gentle(st, ReplaceTip(block, stamps))
  {
    var top, table := Top(st.db.blocks), Headers(st.db.blocks);
    if block.header.height == top {
      forall k | k in st.db.blocks && k != top
        ensures st.db.blocks[k].header.hash != block.header.hash
      {
        Protocol.HashNotStored(mined, table, block.header, k);
      }
    }
  }

  lemma CleanAffordable(st: State)
    ensures Affordable(Clean(st))
  {
    forall h | h in Clean(st).pool && Indexed(Clean(st).index, h)
      ensures !Unaffordable(st.db.rows, st.pool[h])
    {
      CleanedAffordable(st.db.rows, st.pool, st.index, h);
    }
  }

  lemma AdmitAffordable(st: State, tx: Tx, stamp: Stamp)
    requires Affordable(st) && Sorted(st.index) && |st.index| <= CAPACITY && tx.status != Confirmed
    ensures Affordable(Admit(st, tx, stamp).state)
  {
    var st' := Admit(st, tx, stamp).state;
    AdmitIndex(st, tx, stamp);
    forall a
      ensures Balance(st'.db.rows, a) == Balance(st.db.rows, a)
    {
      BalanceAfterInsert(st.db.rows, tx, -1, a);
    }
    InsertSorted(st.index, KeyOf(tx, stamp));
    TakeSorted(Insert(st.index, KeyOf(tx, stamp)), CAPACITY);
    forall h | h in st'.pool && Indexed(st'.index, h) && h != tx.hash
      ensures Indexed(st.index, h)
    {
      var i :| 0 <= i < |st'.index| && st'.index[i].hash == h;
      if st' != st {
        assert st'.index[i] in Insert(st.index, KeyOf(tx, stamp));
        var j :| 0 <= j < |st.index| && st.index[j] == st'.index[i];
      }
    }
    hide Balance, Insert, Evict, Sorted;
  }

  lemma DraftAffordable(st: State, sha: Merkle.Digest, miner: string, coinbaseHash: Hash, now: int)
    requires Affordable(st)
    ensures Affordable(Draft(st, sha, miner, coinbaseHash, now).state)
  {
  }

  lemma {:induction false} LiveAreEligible(rows: seq<TxRow>, pool: map<Hash, Tx>, index: seq<Key>, all: seq<Key>)
    requires forall h :: h in pool && Indexed(all, h) ==> !Unaffordable(rows, pool[h])
    requires index <= all
    ensures EligibleKeys(rows, pool, index) == LiveKeys(pool, index)
    ensures KeptKeys(rows, pool, index) == index
    decreases |index|
  {
    if index != [] {
      var init, last := index[..|index| - 1], index[|index| - 1];
      LiveAreEligible(rows, pool, init, all);
      assert all[|index| - 1] == last;
      assert last.hash in pool ==> !Unaffordable(rows, pool[last.hash]);
      hide Unaffordable;
    }
  }

  /** The index entries whose transaction is still in the mempool, whatever the balances. */
  function LiveKeys(pool: map<Hash, Tx>, index: seq<Key>): seq<Key> {
    if index == [] then []
    else
      var init, last := index[..|index| - 1], index[|index| - 1];
      LiveKeys(pool, init) + if last.hash in pool then [last] else []
  }

  lemma FirstAdmission(time: int, tx: Tx, stamp: Stamp)
    requires tx.amount > 0.0 && tx.fee >= 0.0 && !Unaffordable(Init(time).db.rows, tx)
    ensures var r := Admit(Init(time), tx, stamp);
      && r.ok && r.state.pool == map[tx.hash := tx] && r.state.index == [KeyOf(tx, stamp)]
      && r.state.db.rows == InsertTx(Init(time).db.rows, tx, -1)
  {
    assert Insert([], KeyOf(tx, stamp)) == [KeyOf(tx, stamp)];
    EvictOnce(map[tx.hash := tx], [KeyOf(tx, stamp)]);
    hide Unaffordable, InsertTx;
  }

  lemma SecondAdmission(st: State, key: Key, first: Tx, tx: Tx, stamp: Stamp)
    requires st.index == [key] && key.hash == first.hash && st.pool == map[first.hash := first]
    requires tx.amount > 0.0 && tx.fee >= 0.0 && !Unaffordable(st.db.rows, tx) && tx.hash != first.hash
    ensures var st' := Admit(st, tx, stamp).state;
      && first.hash in st'.pool && st'.pool[first.hash] == first && Indexed(st'.index, first.hash)
      && st'.db.rows == InsertTx(st.db.rows, tx, -1)
  {
    var k := KeyOf(tx, stamp);
    assert Insert([], k) == [k] && [key][1..] == [];
    var index := Insert(st.index, k);
    assert index == [k, key] || index == [key, k] || index == [key];
    EvictOnce(st.pool[tx.hash := tx], index);
    hide Unaffordable, InsertTx;
    assert index[0].hash == first.hash || index[1].hash == first.hash;
  }

  /** The condition on admissions is needed: a transfer that is confirmed from the start leaves an earlier one, still in the
      mempool and in the index, without cover. */
  lemma ConfirmedAdmissionUncovers(time: int, stamp1: Stamp, stamp2: Stamp)
    ensures var first := Tx("a", "genesis_miner", "x", 6000.0, 0.0, Pending, "");
      var second := Tx("b", "genesis_miner", "x", 6000.0, 0.0, Confirmed, "");
      !Affordable(Admit(Admit(Init(time), first, stamp1).state, second, stamp2).state)
  {
    var payer := "genesis_miner";
    var first := Tx("a", payer, "x", 6000.0, 0.0, Pending, "");
    var second := Tx("b", payer, "x", 6000.0, 0.0, Confirmed, "");
    var rows := Init(time).db.rows;
    assert rows[..|rows| - 1] == [] && Balance(rows, payer) == 10000.0;
    assert |GENESIS_HASH| == 64 && "a"[0] != "b"[0];
    var rows' := InsertTx(rows, first, -1);
    assert !HasHash(rows', "b");
    hide Balance, InsertTx, Admit, HasHash, GENESIS_HASH;
    FirstAdmission(time, first, stamp1);
    BalanceAfterInsert(rows, first, -1, payer);
    BalanceAfterInsert(rows', second, -1, payer);
    SecondAdmission(Admit(Init(time), first, stamp1).state, KeyOf(first, stamp1), first, second, stamp2);
  }

  lemma StepAffordable(st: State, op: Op)
    requires Sound(st) && Affordable(st) && Gentle(st, op)
    ensures Affordable(Do(st, op))
  {
    match op
    case Admission(tx, stamp) => AdmitAffordable(st, tx, stamp);
    case AppendBlock(block) =>
      CleanAffordable(State(InsertBlock(st.db, block), EraseMined(st.pool, block.txs), st.index));
    case ReplaceTip(block, stamps) =>
      var current := Top(st.db.blocks);
      var cut := DeleteTip(st.db, current);
      hide Affordable;
      CleanAffordable(Readmit(st.(db := InsertBlock(cut, block)), TxsAt(st.db.rows, current), stamps));
    case DraftBlock(sha, miner, coinbaseHash, now) => DraftAffordable(st, sha, miner, coinbaseHash, now);
    case CleanUp => CleanAffordable(st);
  }

  /** Where it holds, the periodic clean-up finds nothing to remove and the balance check inside `createBlock` turns
      nothing away: it selects the first ten live entries. */
  lemma AffordableRejectsNothing(st: State)
    requires Affordable(st)
    ensures Clean(st) == st
    ensures Selection(st.db.rows, st.pool, st.index, BLOCK_LIMIT) == Take(LiveKeys(st.pool, st.index), BLOCK_LIMIT)
  {
    LiveAreEligible(st.db.rows, st.pool, st.index, st.index);
    assert KeptPool(st.db.rows, st.pool, st.index) == st.pool;
  }
}
