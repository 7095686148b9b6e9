/** The `blocks` and `transactions` tables, the statements run on them and the balance view. */
module Ledger {
  import opened Types

  datatype BlockRow = BlockRow(header: Header, txCount: nat)

  /** `height` is None where the column `block_height` is NULL. */
  datatype TxRow = TxRow(tx: Tx, height: Option<int>)

  /** `blocks` is keyed by its UNIQUE height; `rows` are the transaction rows in insertion order. */
  datatype Db = Db(blocks: map<int, BlockRow>, rows: seq<TxRow>)

  function GenesisDb(time: int): Db {
    Db(map[0 := BlockRow(GenesisHeader(time), 1)], [TxRow(GenesisTx(), Some(0))])
  }

  // ---------- statements ----------

  predicate HasHash(rows: seq<TxRow>, hash: Hash) {
    exists i :: 0 <= i < |rows| && rows[i].tx.hash == hash
  }

  /** The CHECK constraints of a transaction row. */
  predicate Checked(tx: Tx) {
    tx.amount > 0.0 && tx.fee >= 0.0 && !tx.status.Unknown?
  }

  /** INSERT INTO transactions; a row that violates a constraint is not stored. */
  function InsertTx(rows: seq<TxRow>, tx: Tx, height: int): seq<TxRow> {
    if HasHash(rows, tx.hash) || !Checked(tx) then rows
    else rows + [TxRow(tx, if height >= 0 then Some(height) else None)]
  }

  function InsertTxs(rows: seq<TxRow>, txs: seq<Tx>, height: int): seq<TxRow> {
    if txs == [] then rows
    else InsertTx(InsertTxs(rows, txs[..|txs| - 1], height), txs[|txs| - 1], height)
  }

  predicate HashStored(blocks: map<int, BlockRow>, hash: Hash) {
    exists k | k in blocks :: blocks[k].header.hash == hash
  }

  predicate CanInsertBlock(db: Db, block: Block) {
    block.header.height !in db.blocks && !HashStored(db.blocks, block.header.hash)
  }

  /** LedgerDB::addBlock: the transactions follow only if the block row went in, and their own failures
      are ignored. */
  function InsertBlock(db: Db, block: Block): Db {
    if !CanInsertBlock(db, block) then db
    else Db(db.blocks[block.header.height := BlockRow(block.header, |block.txs|)],
            InsertTxs(db.rows, block.txs, block.header.height))
  }

  /** SELECT * FROM transactions WHERE block_height = ?. */
  function TxsAt(rows: seq<TxRow>, height: int): seq<Tx> {
    if rows == [] then []
    else
      var init, last := rows[..|rows| - 1], rows[|rows| - 1];
      TxsAt(init, height) + if last.height == Some(height) then [last.tx] else []
  }

  /** DELETE FROM transactions WHERE block_height = ?. */
  function WithoutHeight(rows: seq<TxRow>, height: int): seq<TxRow> {
    if rows == [] then []
    else
      var init, last := rows[..|rows| - 1], rows[|rows| - 1];
      WithoutHeight(init, height) + if last.height == Some(height) then [] else [last]
  }

  function DeleteTip(db: Db, height: int): Db {
    Db(db.blocks - {height}, WithoutHeight(db.rows, height))
  }

  // ---------- the balance view ----------

  /** The CASE of the view `wallet_balance`: the receiver branch comes first, so a transfer to oneself
      only adds. */
  function Effect(tx: Tx, a: Address): real {
    if tx.status != Confirmed then 0.0
    else if tx.to == a then tx.amount
    else if tx.from == a then -tx.amount - tx.fee
    else 0.0
  }

  function Balance(rows: seq<TxRow>, a: Address): real {
    if rows == [] then 0.0 else Balance(rows[..|rows| - 1], a) + Effect(rows[|rows| - 1].tx, a)
  }

  /** The tables as the object the node holds on to. */
  class LedgerDB {
    var blocks: map<int, BlockRow>
    var rows: seq<TxRow>

    ghost function Contents(): Db
      reads this
    {
      Db(blocks, rows)
    }

    constructor (time: int)
      ensures Contents() == GenesisDb(time)
      ensures blocks == map[0 := BlockRow(Header(0, Zeros(64), "0", Zeros(64), time, 0, 1, "genesis_miner"), 1)]
      ensures rows == [TxRow(Tx(Zeros(64), "SYSTEM", "genesis_miner", 10000.0, 0.0, Confirmed, "Genesis block reward"), Some(0))]
    {
      blocks := map[0 := BlockRow(GenesisHeader(time), 1)];
      rows := [TxRow(GenesisTx(), Some(0))];
    }

    method GetLatestHeight() returns (height: int)
      ensures height == Top(blocks)
    {
      var seen := {};
      height := 0;
      while exists k :: k in blocks && k !in seen
        invariant seen <= blocks.Keys
        invariant forall k :: k in seen ==> k <= height
        invariant height in seen || (height == 0 && forall k :: k !in seen)
        decreases blocks.Keys - seen
      {
        var k :| k in blocks && k !in seen;
        if height !in seen || k > height {
          height := k;
        }
        seen := seen + {k};
      }
    }

    method GetTransactionsByBlock(height: int) returns (txs: seq<Tx>)
      ensures txs == TxsAt(rows, height)
    {
      txs := [];
      for i := 0 to |rows|
        invariant txs == TxsAt(rows[..i], height)
      {
        assert rows[..i + 1][..i] == rows[..i];
        if rows[i].height == Some(height) {
          txs := txs + [rows[i].tx];
        }
      }
      assert rows[..|rows|] == rows;
    }

    method GetBlockByHeight(height: int) returns (block: Option<Block>)
      ensures block == if height in blocks then Some(Block(blocks[height].header, TxsAt(rows, height))) else None
    {
      if height !in blocks {
        return None;
      }
      var txs := GetTransactionsByBlock(height);
      return Some(Block(blocks[height].header, txs));
    }

    method AddTransaction(tx: Tx, height: int) returns (ok: bool)
      modifies this`rows
      ensures rows == InsertTx(old(rows), tx, height)
      ensures ok == (Checked(tx) && !HasHash(old(rows), tx.hash))
    {
      ok := Checked(tx) && !HasHash(rows, tx.hash);
      if ok {
        rows := rows + [TxRow(tx, if height >= 0 then Some(height) else None)];
      }
    }

    method AddBlock(block: Block) returns (ok: bool)
      modifies this
      ensures Contents() == InsertBlock(old(Contents()), block)
      ensures ok == CanInsertBlock(old(Contents()), block)
    {
      var height := block.header.height;
      if height in blocks || HashStored(blocks, block.header.hash) {
        return false;
      }
      blocks := blocks[height := BlockRow(block.header, |block.txs|)];
      for i := 0 to |block.txs|
        invariant blocks == old(blocks)[height := BlockRow(block.header, |block.txs|)]
        invariant rows == InsertTxs(old(rows), block.txs[..i], height)
      {
        assert block.txs[..i + 1][..i] == block.txs[..i];
        var _ := AddTransaction(block.txs[i], height);
      }
      assert block.txs[..|block.txs|] == block.txs;
      return true;
    }

    /** DELETE FROM blocks WHERE height = ?. */
    method DeleteBlockRow(height: int)
      modifies this`blocks
      ensures blocks == old(blocks) - {height}
    {
      blocks := blocks - {height};
    }

    /** DELETE FROM transactions WHERE block_height = ?. */
    method DeleteTransactionRows(height: int)
      modifies this`rows
      ensures rows == WithoutHeight(old(rows), height)
    {
      var kept := [];
      for i := 0 to |rows|
        invariant kept == WithoutHeight(rows[..i], height) && rows == old(rows)
      {
        assert rows[..i + 1][..i] == rows[..i];
        if rows[i].height != Some(height) {
          kept := kept + [rows[i]];
        }
      }
      assert rows[..|rows|] == rows;
      rows := kept;
    }

    /** The view sums over all rows that are confirmed and name the address. */
    method GetBalance(a: Address) returns (balance: real)
      ensures balance == Balance(rows, a)
    {
      balance := 0.0;
      for i := 0 to |rows|
        invariant balance == Balance(rows[..i], a)
      {
        assert rows[..i + 1][..i] == rows[..i];
        var tx := rows[i].tx;
        if tx.status == Confirmed && (tx.to == a || tx.from == a) {
          if tx.to == a {
            balance := balance + tx.amount;
          } else {
            balance := balance - tx.amount - tx.fee;
          }
        }
      }
      assert rows[..|rows|] == rows;
    }
  }
}
