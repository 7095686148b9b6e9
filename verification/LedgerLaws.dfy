/** What the tables and the balance view obey, whatever statements were run. */
module LedgerLaws {
  import opened Types
  import opened Ledger

  // ---------- one hash is stored, and counted, once ----------

  ghost predicate UniqueHashes(rows: seq<TxRow>) {
    forall i, j :: 0 <= i < j < |rows| ==> rows[i].tx.hash != rows[j].tx.hash
  }

  ghost predicate RowsChecked(rows: seq<TxRow>) {
    forall i :: 0 <= i < |rows| ==> Checked(rows[i].tx)
  }

  /** The i-th transaction of a batch that is not in the table and whose hash no earlier insertable one has. */
  ghost predicate Stored(rows: seq<TxRow>, txs: seq<Tx>, i: int)
    requires 0 <= i < |txs|
  {
    && Checked(txs[i]) && !HasHash(rows, txs[i].hash)
    && forall j :: 0 <= j < i && Checked(txs[j]) ==> txs[j].hash != txs[i].hash
  }

  lemma {:induction false} InsertedHashes(rows: seq<TxRow>, txs: seq<Tx>, height: int, hash: Hash)
    ensures HasHash(InsertTxs(rows, txs, height), hash)
      <==> HasHash(rows, hash) || exists j :: 0 <= j < |txs| && Checked(txs[j]) && txs[j].hash == hash
    decreases |txs|
  {
    if txs != [] {
      var init, last := txs[..|txs| - 1], txs[|txs| - 1];
      InsertedHashes(rows, init, height, hash);
      InsertedHashes(rows, init, height, last.hash);
      HashAfterInsert(InsertTxs(rows, init, height), last, height, hash);
      assert (exists j :: 0 <= j < |txs| && Checked(txs[j]) && txs[j].hash == hash)
        <==> (Checked(last) && last.hash == hash) || exists j :: 0 <= j < |init| && Checked(init[j]) && init[j].hash == hash
      by {
        assert forall j :: 0 <= j < |init| ==> init[j] == txs[j];
      }
    }
  }

  lemma HashAfterInsert(rows: seq<TxRow>, tx: Tx, height: int, hash: Hash)
    ensures HasHash(InsertTx(rows, tx, height), hash) <==> HasHash(rows, hash) || (Checked(tx) && tx.hash == hash)
  {
    var rows' := InsertTx(rows, tx, height);
    assert forall i :: 0 <= i < |rows| ==> rows'[i] == rows[i];
    if |rows'| > |rows| {
      assert rows'[|rows|].tx == tx;
    }
  }

  /** The effect of the stored ones among the first `n` transactions of a batch. */
  ghost function Contribution(rows: seq<TxRow>, txs: seq<Tx>, n: nat, a: Address): real
    requires n <= |txs|
  {
    if n == 0 then 0.0
    else Contribution(rows, txs, n - 1, a) + if Stored(rows, txs, n - 1) then Effect(txs[n - 1], a) else 0.0
  }

  lemma {:induction false} ContributionOfPrefix(rows: seq<TxRow>, txs: seq<Tx>, m: nat, n: nat, a: Address)
    requires n <= m <= |txs|
    ensures Contribution(rows, txs[..m], n, a) == Contribution(rows, txs, n, a)
    decreases n
  {
    if n > 0 {
      ContributionOfPrefix(rows, txs, m, n - 1, a);
      assert Stored(rows, txs[..m], n - 1) <==> Stored(rows, txs, n - 1);
    }
  }

  lemma BalanceAfterInsert(rows: seq<TxRow>, tx: Tx, height: int, a: Address)
    ensures Balance(InsertTx(rows, tx, height), a)
      == Balance(rows, a) + if Checked(tx) && !HasHash(rows, tx.hash) then Effect(tx, a) else 0.0
  {
    var rows' := InsertTx(rows, tx, height);
    if rows' != rows {
      assert rows'[..|rows'| - 1] == rows;
    }
  }

  /** After a block's transactions went in, the recomputed balance is the old balance plus the effect of exactly
      those whose hash was new, each hash counted once. */
  lemma {:induction false} BalanceAfterBatch(rows: seq<TxRow>, txs: seq<Tx>, height: int, a: Address)
    ensures Balance(InsertTxs(rows, txs, height), a) == Balance(rows, a) + Contribution(rows, txs, |txs|, a)
    decreases |txs|
  {
    if txs != [] {
      var init, last := txs[..|txs| - 1], txs[|txs| - 1];
      BalanceAfterBatch(rows, init, height, a);
      ContributionOfPrefix(rows, txs, |init|, |init|, a);
      BalanceAfterInsert(InsertTxs(rows, init, height), last, height, a);
      InsertedHashes(rows, init, height, last.hash);
      assert Stored(rows, txs, |init|) <==> Checked(last) && !HasHash(InsertTxs(rows, init, height), last.hash);
    }
  }

  lemma InsertKeepsRows(rows: seq<TxRow>, tx: Tx, height: int)
    requires UniqueHashes(rows) && RowsChecked(rows)
    ensures UniqueHashes(InsertTx(rows, tx, height)) && RowsChecked(InsertTx(rows, tx, height))
  {
  }

  lemma {:induction false} BatchKeepsRows(rows: seq<TxRow>, txs: seq<Tx>, height: int)
    requires UniqueHashes(rows) && RowsChecked(rows)
    ensures UniqueHashes(InsertTxs(rows, txs, height)) && RowsChecked(InsertTxs(rows, txs, height))
    decreases |txs|
  {
    if txs != [] {
      BatchKeepsRows(rows, txs[..|txs| - 1], height);
      InsertKeepsRows(InsertTxs(rows, txs[..|txs| - 1], height), txs[|txs| - 1], height);
    }
  }

  // ---------- deleting a height ----------

  ghost predicate NoneAt(rows: seq<TxRow>, height: int) {
    forall i :: 0 <= i < |rows| ==> rows[i].height != Some(height)
  }

  lemma {:induction false} TxsAtNone(rows: seq<TxRow>, height: int)
    ensures NoneAt(rows, height) <==> TxsAt(rows, height) == []
    decreases |rows|
  {
    if rows != [] {
      TxsAtNone(rows[..|rows| - 1], height);
    }
  }

  lemma {:induction false} WithoutNone(rows: seq<TxRow>, height: int)
    requires NoneAt(rows, height)
    ensures WithoutHeight(rows, height) == rows
    decreases |rows|
  {
    if rows != [] {
      WithoutNone(rows[..|rows| - 1], height);
    }
  }

  /** Deleting a height forgets exactly what a block inserted there. */
  lemma {:induction false} DeleteUndoesBatch(rows: seq<TxRow>, txs: seq<Tx>, height: int)
    requires height >= 0 && NoneAt(rows, height)
    ensures WithoutHeight(InsertTxs(rows, txs, height), height) == rows
    decreases |txs|
  {
    if txs == [] {
      WithoutNone(rows, height);
    } else {
      var init := InsertTxs(rows, txs[..|txs| - 1], height);
      DeleteUndoesBatch(rows, txs[..|txs| - 1], height);
      var all := InsertTxs(rows, txs, height);
      if all != init {
        assert all[..|all| - 1] == init;
      }
    }
  }

  /** What is left is a part of the table, so no hash comes twice and every row still satisfies the CHECKs. */
  lemma {:induction false} DeleteKeepsRows(rows: seq<TxRow>, height: int)
    requires UniqueHashes(rows) && RowsChecked(rows)
    ensures UniqueHashes(WithoutHeight(rows, height)) && RowsChecked(WithoutHeight(rows, height))
    ensures NoneAt(WithoutHeight(rows, height), height)
    ensures forall r :: r in WithoutHeight(rows, height) ==> r in rows
    decreases |rows|
  {
    if rows != [] {
      var init := rows[..|rows| - 1];
      DeleteKeepsRows(init, height);
      forall i | 0 <= i < |WithoutHeight(init, height)|
        ensures WithoutHeight(init, height)[i].tx.hash != rows[|rows| - 1].tx.hash
      {
        assert WithoutHeight(init, height)[i] in init;
      }
    }
  }

  lemma {:induction false} TxsAtOther(rows: seq<TxRow>, height: int, k: int)
    requires k != height
    ensures TxsAt(WithoutHeight(rows, height), k) == TxsAt(rows, k)
    decreases |rows|
  {
    if rows != [] {
      var init, last := rows[..|rows| - 1], rows[|rows| - 1];
      TxsAtOther(init, height, k);
      if last.height != Some(height) {
        var kept := WithoutHeight(init, height) + [last];
        assert kept[..|kept| - 1] == WithoutHeight(init, height);
      } else {
        assert WithoutHeight(rows, height) == WithoutHeight(init, height);
        assert TxsAt(rows, k) == TxsAt(init, k);
      }
    }
  }

  lemma {:induction false} TxsAtAre(rows: seq<TxRow>, height: int)
    ensures forall tx :: tx in TxsAt(rows, height) ==> exists i :: 0 <= i < |rows| && rows[i].tx == tx
    decreases |rows|
  {
    if rows != [] {
      var init, last := rows[..|rows| - 1], rows[|rows| - 1];
      TxsAtAre(init, height);
      forall tx | tx in TxsAt(rows, height)
        ensures exists i :: 0 <= i < |rows| && rows[i].tx == tx
      {
        if tx in TxsAt(init, height) {
          var i :| 0 <= i < |init| && init[i].tx == tx;
          assert rows[i].tx == tx;
        } else {
          assert rows[|rows| - 1].tx == tx;
        }
      }
    }
  }

  lemma {:induction false} TxsAtDistinct(rows: seq<TxRow>, height: int)
    requires UniqueHashes(rows)
    ensures forall i, j :: 0 <= i < j < |TxsAt(rows, height)| ==> TxsAt(rows, height)[i].hash != TxsAt(rows, height)[j].hash
    decreases |rows|
  {
    if rows != [] {
      var init := rows[..|rows| - 1];
      TxsAtDistinct(init, height);
      TxsAtAre(init, height);
      forall i | 0 <= i < |TxsAt(init, height)|
        ensures TxsAt(init, height)[i].hash != rows[|rows| - 1].tx.hash
      {
        assert TxsAt(init, height)[i] in TxsAt(init, height);
      }
    }
  }

  // ---------- referential integrity ----------

  /** No foreign key is declared, yet a linked row's block exists and counts at least its linked rows. */
  ghost predicate Referential(db: Db) {
    && (forall i :: 0 <= i < |db.rows| && db.rows[i].height.Some? ==> db.rows[i].height.value in db.blocks)
    && (forall h :: h in db.blocks ==> |TxsAt(db.rows, h)| <= db.blocks[h].txCount)
  }

  lemma TxsAtInsert(rows: seq<TxRow>, tx: Tx, height: int, k: int)
    ensures var more := TxsAt(InsertTx(rows, tx, height), k);
      && TxsAt(rows, k) <= more
      && |more| <= |TxsAt(rows, k)| + (if k == height && height >= 0 then 1 else 0)
  {
    var rows' := InsertTx(rows, tx, height);
    if rows' != rows {
      assert rows'[..|rows'| - 1] == rows;
    }
  }

  lemma {:induction false} TxsAtBatch(rows: seq<TxRow>, txs: seq<Tx>, height: int, k: int)
    ensures |TxsAt(InsertTxs(rows, txs, height), k)|
      <= |TxsAt(rows, k)| + (if k == height && height >= 0 then |txs| else 0)
    decreases |txs|
  {
    if txs != [] {
      TxsAtBatch(rows, txs[..|txs| - 1], height, k);
      TxsAtInsert(InsertTxs(rows, txs[..|txs| - 1], height), txs[|txs| - 1], height, k);
    }
  }

  lemma {:induction false} BatchLinksOnly(rows: seq<TxRow>, txs: seq<Tx>, height: int)
    ensures rows <= InsertTxs(rows, txs, height)
    ensures forall i :: |rows| <= i < |InsertTxs(rows, txs, height)| ==>
      InsertTxs(rows, txs, height)[i].height == if height >= 0 then Some(height) else None
    decreases |txs|
  {
    if txs != [] {
      var before := InsertTxs(rows, txs[..|txs| - 1], height);
      BatchLinksOnly(rows, txs[..|txs| - 1], height);
      assert before <= InsertTxs(rows, txs, height);
      assert forall i :: 0 <= i < |before| ==> InsertTxs(rows, txs, height)[i] == before[i];
    }
  }

  lemma PendingKeepsReferential(db: Db, tx: Tx)
    requires Referential(db)
    ensures Referential(db.(rows := InsertTx(db.rows, tx, -1)))
  {
    forall h | h in db.blocks
      ensures |TxsAt(InsertTx(db.rows, tx, -1), h)| <= db.blocks[h].txCount
    {
      TxsAtInsert(db.rows, tx, -1, h);
    }
  }

  lemma BlockKeepsReferential(db: Db, block: Block)
    requires Referential(db)
    ensures Referential(InsertBlock(db, block))
  {
    if CanInsertBlock(db, block) {
      var db' := InsertBlock(db, block);
      var height := block.header.height;
      BatchLinksOnly(db.rows, block.txs, height);
      forall h | h in db'.blocks
        ensures |TxsAt(db'.rows, h)| <= db'.blocks[h].txCount
      {
        TxsAtBatch(db.rows, block.txs, height, h);
        if h == height {
          TxsAtNone(db.rows, height);
        }
      }
    }
  }

  lemma {:induction false} CountStored(rows: seq<TxRow>, txs: seq<Tx>, height: int)
    requires height >= 0 && NoneAt(rows, height)
    ensures |TxsAt(InsertTxs(rows, txs, height), height)| <= |txs|
    ensures |TxsAt(InsertTxs(rows, txs, height), height)| == |txs| <==> forall i :: 0 <= i < |txs| ==> Stored(rows, txs, i)
    decreases |txs|
  {
    if txs == [] {
      TxsAtNone(rows, height);
    } else {
      var init, last := txs[..|txs| - 1], txs[|txs| - 1];
      var before := InsertTxs(rows, init, height);
      CountStored(rows, init, height);
      InsertedHashes(rows, init, height, last.hash);
      assert forall i :: 0 <= i < |init| ==> (Stored(rows, txs, i) <==> Stored(rows, init, i));
      assert Stored(rows, txs, |init|) <==> Checked(last) && !HasHash(before, last.hash);
      var after := InsertTx(before, last, height);
      if after != before {
        assert after[..|after| - 1] == before;
      }
      hide Stored, HasHash, InsertTxs;
    }
  }

  /** The count in a block's row is that of its transactions, so it is larger than the number of rows linked to the block
      exactly when one of them was refused: its hash was stored, by an earlier row or by an earlier one of the block, or
      a CHECK failed. */
  lemma CountTellsRefused(db: Db, block: Block)
    requires Referential(db) && CanInsertBlock(db, block) && block.header.height >= 0
    ensures var db', h := InsertBlock(db, block), block.header.height;
      && h in db'.blocks && |TxsAt(db'.rows, h)| <= db'.blocks[h].txCount
      && (|TxsAt(db'.rows, h)| == db'.blocks[h].txCount <==> forall i :: 0 <= i < |block.txs| ==> Stored(db.rows, block.txs, i))
  {
    CountStored(db.rows, block.txs, block.header.height);
  }

  lemma DeleteKeepsReferential(db: Db, height: int)
    requires Referential(db) && UniqueHashes(db.rows) && RowsChecked(db.rows)
    ensures Referential(DeleteTip(db, height))
  {
    DeleteKeepsRows(db.rows, height);
    forall h | h in db.blocks && h != height
      ensures |TxsAt(WithoutHeight(db.rows, height), h)| <= db.blocks[h].txCount
    {
      TxsAtOther(db.rows, height, h);
    }
    var left := WithoutHeight(db.rows, height);
    forall i | 0 <= i < |left| && left[i].height.Some?
      ensures left[i].height.value in db.blocks - {height}
    {
      assert left[i] in db.rows;
    }
  }

  // ---------- conservation ----------

  /** The amount a confirmed transfer adds to the sum of all balances: the fee is lost, a transfer to oneself
      creates its amount. */
  function NetCreated(rows: seq<TxRow>): real {
    if rows == [] then 0.0
    else
      var tx := rows[|rows| - 1].tx;
      NetCreated(rows[..|rows| - 1])
      + if tx.status != Confirmed then 0.0 else if tx.from == tx.to then tx.amount else -tx.fee
  }

  function TotalBalance(rows: seq<TxRow>, addresses: seq<Address>): real {
    if addresses == [] then 0.0
    else TotalBalance(rows, addresses[..|addresses| - 1]) + Balance(rows, addresses[|addresses| - 1])
  }

  function TotalEffect(tx: Tx, addresses: seq<Address>): real {
    if addresses == [] then 0.0
    else TotalEffect(tx, addresses[..|addresses| - 1]) + Effect(tx, addresses[|addresses| - 1])
  }

  ghost predicate Distinct(addresses: seq<Address>) {
    forall i, j :: 0 <= i < j < |addresses| ==> addresses[i] != addresses[j]
  }

  lemma {:induction false} TotalEffectIs(tx: Tx, addresses: seq<Address>)
    requires Distinct(addresses) && tx.status == Confirmed
    ensures TotalEffect(tx, addresses)
      == (if tx.to in addresses then tx.amount else 0.0)
       - (if tx.from in addresses && tx.from != tx.to then tx.amount + tx.fee else 0.0)
    decreases |addresses|
  {
    if addresses != [] {
      var init, last := addresses[..|addresses| - 1], addresses[|addresses| - 1];
      TotalEffectIs(tx, init);
      assert addresses == init + [last];
      assert last !in init;
    }
  }

  lemma {:induction false} UnconfirmedTotal(tx: Tx, addresses: seq<Address>)
    requires tx.status != Confirmed
    ensures TotalEffect(tx, addresses) == 0.0
    decreases |addresses|
  {
    if addresses != [] {
      UnconfirmedTotal(tx, addresses[..|addresses| - 1]);
    }
  }

  lemma {:induction false} TotalSplits(rows: seq<TxRow>, addresses: seq<Address>)
    requires rows != []
    ensures TotalBalance(rows, addresses)
      == TotalBalance(rows[..|rows| - 1], addresses) + TotalEffect(rows[|rows| - 1].tx, addresses)
    decreases |addresses|
  {
    if addresses != [] {
      TotalSplits(rows, addresses[..|addresses| - 1]);
    }
  }

  lemma {:induction false} TotalOfNothing(addresses: seq<Address>)
    ensures TotalBalance([], addresses) == 0.0
    decreases |addresses|
  {
    if addresses != [] {
      TotalOfNothing(addresses[..|addresses| - 1]);
    }
  }

  /** Over any addresses that include all parties, SYSTEM too, the balances of the view add up to minus the fees of
      confirmed transfers plus the amounts of confirmed transfers to oneself. */
  lemma {:induction false} Conservation(rows: seq<TxRow>, addresses: seq<Address>)
    requires Distinct(addresses)
    requires forall i :: 0 <= i < |rows| ==> rows[i].tx.from in addresses && rows[i].tx.to in addresses
    ensures TotalBalance(rows, addresses) == NetCreated(rows)
    decreases |rows|
  {
    if rows == [] {
      TotalOfNothing(addresses);
    } else {
      var tx := rows[|rows| - 1].tx;
      Conservation(rows[..|rows| - 1], addresses);
      TotalSplits(rows, addresses);
      if tx.status == Confirmed {
        TotalEffectIs(tx, addresses);
      } else {
        UnconfirmedTotal(tx, addresses);
      }
    }
  }

  /** The other two columns of the view. */
  function Received(rows: seq<TxRow>, a: Address): real {
    if rows == [] then 0.0
    else
      var tx := rows[|rows| - 1].tx;
      Received(rows[..|rows| - 1], a) + if tx.status == Confirmed && tx.to == a then tx.amount else 0.0
  }

  function Sent(rows: seq<TxRow>, a: Address): real {
    if rows == [] then 0.0
    else
      var tx := rows[|rows| - 1].tx;
      Sent(rows[..|rows| - 1], a) + if tx.status == Confirmed && tx.from == a then tx.amount + tx.fee else 0.0
  }

  function ToSelf(rows: seq<TxRow>, a: Address): real {
    if rows == [] then 0.0
    else
      var tx := rows[|rows| - 1].tx;
      ToSelf(rows[..|rows| - 1], a)
      + if tx.status == Confirmed && tx.from == a && tx.to == a then tx.amount + tx.fee else 0.0
  }

  /** `balance` is not `total_received - total_sent`: it exceeds it by what the address sent to itself, fees
      included.  With checked rows the three columns agree exactly when there is no such transfer. */
  lemma {:induction false} BalanceColumns(rows: seq<TxRow>, a: Address)
    requires RowsChecked(rows)
    ensures Balance(rows, a) == Received(rows, a) - Sent(rows, a) + ToSelf(rows, a)
    ensures ToSelf(rows, a) >= 0.0
    ensures Balance(rows, a) == Received(rows, a) - Sent(rows, a)
      <==> forall i :: 0 <= i < |rows| && rows[i].tx.status == Confirmed ==> !(rows[i].tx.from == rows[i].tx.to == a)
    decreases |rows|
  {
    if rows != [] {
      var init := rows[..|rows| - 1];
      BalanceColumns(init, a);
      assert forall i :: 0 <= i < |init| ==> init[i] == rows[i];
      assert Checked(rows[|rows| - 1].tx);
    }
  }
}
