/** Why no submitted transfer ever moves money: it is stored as pending when admitted, and the row a later block
    would insert for it is refused because its hash is already there. */
module Settlement {
  import opened Types
  import opened Ledger
  import opened LedgerLaws
  import opened Pool
  import opened Chain
  import opened ChainRuns
  import Merkle

  /** Confirmed transactions come from SYSTEM only. */
  predicate RewardsOnly(txs: seq<Tx>) {
    forall i :: 0 <= i < |txs| && txs[i].status == Confirmed ==> txs[i].from == SYSTEM
  }

  ghost predicate RowsRewardsOnly(rows: seq<TxRow>) {
    forall i :: 0 <= i < |rows| && rows[i].tx.status == Confirmed ==> rows[i].tx.from == SYSTEM
  }

  /** Submitted transactions start as pending; blocks are drafted here or arrive as bare headers. */
  predicate Proper(op: Op) {
    match op
    case Admission(tx, _) => tx.status != Confirmed
    case AppendBlock(block) => RewardsOnly(block.txs)
    case ReplaceTip(block, _) => RewardsOnly(block.txs)
    case _ => true
  }

  ghost predicate Unsettled(st: State) {
    && RowsRewardsOnly(st.db.rows)
    && forall h :: h in st.pool ==> st.pool[h].status != Confirmed
  }

  lemma {:induction false} BatchRewardsOnly(rows: seq<TxRow>, txs: seq<Tx>, height: int)
    requires RowsRewardsOnly(rows) && RewardsOnly(txs)
    ensures RowsRewardsOnly(InsertTxs(rows, txs, height))
    decreases |txs|
  {
    if txs != [] {
      assert RewardsOnly(txs[..|txs| - 1]);
      BatchRewardsOnly(rows, txs[..|txs| - 1], height);
    }
  }

  lemma CleanUnsettled(st: State)
    requires Unsettled(st)
    ensures Unsettled(Clean(st))
  {
  }

  lemma AdmitUnsettled(st: State, tx: Tx, stamp: Stamp)
    requires Unsettled(st) && Sorted(st.index) && |st.index| <= CAPACITY && tx.status != Confirmed
    ensures Unsettled(Admit(st, tx, stamp).state)
  {
    AdmitIndex(st, tx, stamp);
    hide Insert, Evict, Unaffordable, Sorted;
  }

  lemma {:induction false} ReadmitUnsettled(st: State, txs: seq<Tx>, stamps: Tx -> Stamp)
    requires Sound(st) && Unsettled(st) && RewardsOnly(txs)
    ensures Unsettled(Readmit(st, txs, stamps))
    decreases |txs|
  {
    if txs != [] {
      var init, last := txs[..|txs| - 1], txs[|txs| - 1];
      assert RewardsOnly(init);
      ReadmitUnsettled(st, init, stamps);
      ReadmitSound(st, init, stamps);
      hide Unsettled;
      if last.from != SYSTEM {
        AdmitUnsettled(Readmit(st, init, stamps), last, stamps(last));
      }
    }
  }

  lemma DeleteUnsettled(st: State, height: int)
    requires Sound(st) && Unsettled(st)
    ensures RowsRewardsOnly(WithoutHeight(st.db.rows, height)) && RewardsOnly(TxsAt(st.db.rows, height))
  {
    DeleteKeepsRows(st.db.rows, height);
    TxsAtAre(st.db.rows, height);
    var kept, txs := WithoutHeight(st.db.rows, height), TxsAt(st.db.rows, height);
    forall i | 0 <= i < |kept|
      ensures kept[i] in st.db.rows
    {
    }
    forall i | 0 <= i < |txs|
      ensures exists j :: 0 <= j < |st.db.rows| && st.db.rows[j].tx == txs[i]
    {
      assert txs[i] in txs;
    }
  }

  lemma ReplaceUnsettled(st: State, block: Block, stamps: Tx -> Stamp)
    requires Sound(st) && Unsettled(st) && RewardsOnly(block.txs)
    ensures Unsettled(Replace(st, block, stamps).state)
  {
    var current := Top(st.db.blocks);
    var cut := DeleteTip(st.db, current);
    DeleteUnsettled(st, current);
    BatchRewardsOnly(cut.rows, block.txs, block.header.height);
    var inserted := st.(db := InsertBlock(cut, block));
    if Replace(st, block, stamps).ok {
      DeletedSound(st, block);
      ReadmitUnsettled(inserted, TxsAt(st.db.rows, current), stamps);
      CleanUnsettled(Readmit(inserted, TxsAt(st.db.rows, current), stamps));
    }
  }

  lemma DeletedSound(st: State, block: Block)
    requires Sound(st) && block.header.height == Top(st.db.blocks)
    ensures Sound(st.(db := InsertBlock(DeleteTip(st.db, Top(st.db.blocks)), block)))
  {
    var current := Top(st.db.blocks);
    var cut := DeleteTip(st.db, current);
    DeleteKeepsReferential(st.db, current);
    DeleteKeepsRows(st.db.rows, current);
    BlockKeepsReferential(cut, block);
    BatchKeepsRows(cut.rows, block.txs, block.header.height);
  }

  lemma StepUnsettled(st: State, op: Op)
    requires Sound(st) && Unsettled(st) && Proper(op)
    ensures Unsettled(Do(st, op))
  {
    match op
    case Admission(tx, stamp) => AdmitUnsettled(st, tx, stamp);
    case AppendBlock(block) =>
      BatchRewardsOnly(st.db.rows, block.txs, block.header.height);
      CleanUnsettled(State(InsertBlock(st.db, block), EraseMined(st.pool, block.txs), st.index));
    case ReplaceTip(block, stamps) => ReplaceUnsettled(st, block, stamps);
    case DraftBlock(_, _, _, _) =>
    case CleanUp => CleanUnsettled(st);
  }

  lemma {:induction false} RunUnsettled(time: int, ops: seq<Op>)
    requires forall i :: 0 <= i < |ops| ==> Proper(ops[i])
    ensures Unsettled(Exec(Init(time), ops))
    decreases |ops|
  {
    if ops != [] {
      RunUnsettled(time, ops[..|ops| - 1]);
      RunSound(time, ops[..|ops| - 1]);
      hide Unsettled, Sound;
      StepUnsettled(Exec(Init(time), ops[..|ops| - 1]), ops[|ops| - 1]);
    }
  }

  /** A block drafted in such a state is itself proper, so mining stays within the runs considered. */
  lemma DraftIsProper(st: State, sha: Merkle.Digest, miner: string, coinbaseHash: Hash, now: int)
    requires Unsettled(st)
    ensures RewardsOnly(Draft(st, sha, miner, coinbaseHash, now).block.txs)
  {
    TxsOfSelection(st.db.rows, st.pool, st.index);
    hide Selection, TxsOf, Unaffordable;
  }

  lemma {:induction false} RewardsOnlyColumns(rows: seq<TxRow>, a: Address)
    requires RowsRewardsOnly(rows) && RowsChecked(rows) && a != SYSTEM
    ensures Sent(rows, a) == 0.0 && Balance(rows, a) == Received(rows, a) >= 0.0
    decreases |rows|
  {
    if rows != [] {
      RewardsOnlyColumns(rows[..|rows| - 1], a);
      assert Checked(rows[|rows| - 1].tx);
    }
  }

  /** After any such run no address but SYSTEM has sent anything, and every balance is the sum of the rewards received. */
  lemma TransfersNeverSettle(time: int, ops: seq<Op>, a: Address)
    requires forall i :: 0 <= i < |ops| ==> Proper(ops[i])
    requires a != SYSTEM
    ensures var rows := Exec(Init(time), ops).db.rows;
      Sent(rows, a) == 0.0 && Balance(rows, a) == Received(rows, a) >= 0.0
  {
    RunUnsettled(time, ops);
    RunSound(time, ops);
    RewardsOnlyColumns(Exec(Init(time), ops).db.rows, a);
  }

  lemma {:induction false} OnlyFirstContributes(rows: seq<TxRow>, txs: seq<Tx>, n: nat, a: Address)
    requires 0 < n <= |txs| && forall i :: 0 < i < |txs| ==> txs[i].status != Confirmed
    ensures Contribution(rows, txs, n, a) == if Stored(rows, txs, 0) then Effect(txs[0], a) else 0.0
    decreases n
  {
    if n > 1 {
      OnlyFirstContributes(rows, txs, n - 1, a);
    } else {
      assert Contribution(rows, txs, 0, a) == 0.0;
    }
  }

  /** In such a run the only confirmed transfers to oneself are rewards of a miner that calls itself SYSTEM. */
  lemma SelfTransfersPaySystem(time: int, ops: seq<Op>, i: nat)
    requires forall i :: 0 <= i < |ops| ==> Proper(ops[i])
    requires i < |Exec(Init(time), ops).db.rows|
    ensures var tx := Exec(Init(time), ops).db.rows[i].tx;
      tx.status == Confirmed && tx.from == tx.to ==> tx.to == SYSTEM
  {
    RunUnsettled(time, ops);
  }

  /** A draft from such a state starts with its coinbase and confirms nothing else. */
  lemma OnlyCoinbaseConfirmed(st: State, sha: Merkle.Digest, miner: string, coinbaseHash: Hash, now: int)
    requires Unsettled(st)
    ensures var d := Draft(st, sha, miner, coinbaseHash, now);
      && d.state.db == st.db && d.block.txs != [] && d.block.txs[0] == Coinbase(miner, coinbaseHash)
      && forall i :: 0 < i < |d.block.txs| ==> d.block.txs[i].status != Confirmed
  {
    TxsOfSelection(st.db.rows, st.pool, st.index);
    hide Selection, TxsOf, Unaffordable, Merkle.Root;
  }

  lemma AppendedRows(st: State, block: Block)
    requires Append(st, block).ok
    ensures Append(st, block).state.db.rows == InsertTxs(st.db.rows, block.txs, block.header.height)
  {
    CleanKeepsDb(State(InsertBlock(st.db, block), EraseMined(st.pool, block.txs), st.index));
    hide Clean, EraseMined, InsertTxs;
  }

  lemma CoinbaseStored(rows: seq<TxRow>, txs: seq<Tx>)
    requires txs != [] && Checked(txs[0])
    ensures Stored(rows, txs, 0) <==> !HasHash(rows, txs[0].hash)
  {
    hide HasHash;
  }

  /** What a mined block does to the balances: the miner gains the reward, SYSTEM loses it, and the transfers the block
      carries change nothing, not even by their fees.  A reward whose hash is stored already, as for two blocks of one
      miner in one second, is not paid.  A miner that calls itself SYSTEM creates money. */
  lemma MiningPaysOnlyReward(st: State, sha: Merkle.Digest, miner: string, coinbaseHash: Hash, now: int, header: Header, a: Address)
    requires Unsettled(st)
    requires var d := Draft(st, sha, miner, coinbaseHash, now);
      Append(d.state, Block(header, d.block.txs)).ok
    ensures var d := Draft(st, sha, miner, coinbaseHash, now);
      Balance(Append(d.state, Block(header, d.block.txs)).state.db.rows, a) - Balance(st.db.rows, a)
      == if HasHash(st.db.rows, coinbaseHash) then 0.0
         else if a == miner then 100.0
         else if a == SYSTEM then -100.0
         else 0.0
  {
    var d := Draft(st, sha, miner, coinbaseHash, now);
    var txs := d.block.txs;
    OnlyCoinbaseConfirmed(st, sha, miner, coinbaseHash, now);
    AppendedRows(d.state, Block(header, txs));
    hide Draft, Append, Unsettled, InsertTxs, Contribution, Balance, Stored, HasHash;
    BalanceAfterBatch(st.db.rows, txs, header.height, a);
    OnlyFirstContributes(st.db.rows, txs, |txs|, a);
    CoinbaseStored(st.db.rows, txs);
  }
}
