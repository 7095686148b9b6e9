/** Replacing the tip is an exact undo followed by a redo, up to the transactions it puts back. */
module Replacement {
  import opened Types
  import opened Ledger
  import opened LedgerLaws
  import opened Pool
  import opened Chain
  import opened ChainRuns

  lemma {:induction false} BalanceSplit(rows: seq<TxRow>, extra: seq<TxRow>, a: Address)
    ensures Balance(rows + extra, a) == Balance(rows, a) + Balance(extra, a)
    decreases |extra|
  {
    if extra == [] {
      assert rows + extra == rows;
    } else {
      var all := rows + extra;
      assert all[..|all| - 1] == rows + extra[..|extra| - 1];
      BalanceSplit(rows, extra[..|extra| - 1], a);
    }
  }

  lemma {:induction false} UnconfirmedBalance(rows: seq<TxRow>, a: Address)
    requires forall i :: 0 <= i < |rows| ==> rows[i].tx.status != Confirmed
    ensures Balance(rows, a) == 0.0
    decreases |rows|
  {
    if rows != [] {
      UnconfirmedBalance(rows[..|rows| - 1], a);
    }
  }

  /** The transactions read back for a freshly inserted block are among those it brought. */
  lemma {:induction false} StoredComeFromBlock(rows: seq<TxRow>, txs: seq<Tx>, height: int)
    requires NoneAt(rows, height)
    ensures forall tx :: tx in TxsAt(InsertTxs(rows, txs, height), height) ==> tx in txs
    decreases |txs|
  {
    if txs == [] {
      TxsAtNone(rows, height);
    } else {
      var init, last := txs[..|txs| - 1], txs[|txs| - 1];
      assert txs == init + [last];
      StoredComeFromBlock(rows, init, height);
      var before, after := InsertTxs(rows, init, height), InsertTxs(rows, txs, height);
      if after != before {
        assert after[..|after| - 1] == before;
      }
    }
  }

  /** Rows a replacement may add after the new block's own: unlinked ones, for transactions of the old block. */
  ghost predicate PutBack(extra: seq<TxRow>, txs: seq<Tx>) {
    forall i :: 0 <= i < |extra| ==> extra[i].height == None && extra[i].tx in txs && extra[i].tx.from != SYSTEM
  }

  /** A confirmed transfer of the old block that re-admission puts back: still affordable, and not stored. */
  predicate Returns(rows: seq<TxRow>, tx: Tx) {
    tx.status == Confirmed && tx.from != SYSTEM && !Unaffordable(rows, tx) && !HasHash(rows, tx.hash)
  }

  predicate NoneConfirmed(rows: seq<TxRow>) {
    forall i :: 0 <= i < |rows| ==> rows[i].tx.status != Confirmed
  }

  ghost predicate DistinctChecked(txs: seq<Tx>) {
    && (forall i, j :: 0 <= i < j < |txs| ==> txs[i].hash != txs[j].hash)
    && (forall i :: 0 <= i < |txs| ==> Checked(txs[i]))
  }

  /** Whether any confirmed transfer is put back shows in the tables before the first is. */
  lemma {:induction false} ReadmitConfirmed(st: State, txs: seq<Tx>, stamps: Tx -> Stamp) returns (extra: seq<TxRow>)
    requires DistinctChecked(txs)
    ensures Readmit(st, txs, stamps).db == st.db.(rows := st.db.rows + extra)
    ensures PutBack(extra, txs)
    ensures NoneConfirmed(extra) <==> forall i :: 0 <= i < |txs| ==> !Returns(st.db.rows, txs[i])
    decreases |txs|
  {
    if txs == [] {
      extra := [];
      assert st.db.rows + [] == st.db.rows;
    } else {
      var init, last := txs[..|txs| - 1], txs[|txs| - 1];
      assert txs == init + [last];
      var before := ReadmitConfirmed(st, init, stamps);
      var rows := st.db.rows + before;
      assert Readmit(st, init, stamps).db.rows == rows;
      StillReturns(st.db.rows, before, init, last);
      LastReadmitted(st, txs, stamps);
      hide Readmit, DistinctChecked, Unaffordable, HasHash, Returns, InsertTx;
      if AdmitsRow(rows, last) {
        extra := before + [TxRow(last, None)];
        assert rows + [TxRow(last, None)] == st.db.rows + extra;
      } else {
        extra := before;
      }
      LastReturns(st.db.rows, before, init, last, extra);
    }
  }

  predicate AdmitsRow(rows: seq<TxRow>, tx: Tx) {
    tx.from != SYSTEM && !Unaffordable(rows, tx) && !HasHash(rows, tx.hash)
  }

  lemma LastReadmitted(st: State, txs: seq<Tx>, stamps: Tx -> Stamp)
    requires txs != [] && Checked(txs[|txs| - 1])
    ensures var before, last := Readmit(st, txs[..|txs| - 1], stamps), txs[|txs| - 1];
      Readmit(st, txs, stamps).db == if AdmitsRow(before.db.rows, last)
                                     then before.db.(rows := before.db.rows + [TxRow(last, None)]) else before.db
  {
    hide Evict, Insert, Unaffordable;
  }

  lemma StillReturns(rows: seq<TxRow>, extra: seq<TxRow>, txs: seq<Tx>, tx: Tx)
    requires PutBack(extra, txs) && forall i :: 0 <= i < |txs| ==> txs[i].hash != tx.hash
    ensures HasHash(rows + extra, tx.hash) <==> HasHash(rows, tx.hash)
    ensures NoneConfirmed(extra) && tx.status == Confirmed ==> (AdmitsRow(rows + extra, tx) <==> Returns(rows, tx))
  {
    BalanceSplit(rows, extra, tx.from);
    if NoneConfirmed(extra) {
      UnconfirmedBalance(extra, tx.from);
    }
    var all := rows + extra;
    forall i | 0 <= i < |extra|
      ensures extra[i].tx.hash != tx.hash
    {
      assert extra[i].tx in txs;
    }
    assert forall i :: 0 <= i < |rows| ==> all[i] == rows[i];
    assert forall i :: |rows| <= i < |all| ==> all[i] == extra[i - |rows|];
  }

  lemma LastReturns(rows: seq<TxRow>, before: seq<TxRow>, init: seq<Tx>, last: Tx, extra: seq<TxRow>)
    requires NoneConfirmed(before) <==> forall i :: 0 <= i < |init| ==> !Returns(rows, init[i])
    requires NoneConfirmed(before) && last.status == Confirmed ==> (AdmitsRow(rows + before, last) <==> Returns(rows, last))
    requires extra == if AdmitsRow(rows + before, last) then before + [TxRow(last, None)] else before
    ensures NoneConfirmed(extra) <==> forall i :: 0 <= i < |init + [last]| ==> !Returns(rows, (init + [last])[i])
  {
    var txs := init + [last];
    hide AdmitsRow;
    assert forall i :: 0 <= i < |init| ==> txs[i] == init[i];
    assert txs[|init|] == last;
    assert forall i :: 0 <= i < |before| ==> extra[i] == before[i];
    assert Returns(rows, last) ==> last.status == Confirmed;
    if AdmitsRow(rows + before, last) {
      assert extra[|before|].tx == last;
    }
  }

  /** What was there before a block was appended is what deleting it leaves. */
  lemma DeleteUndoesAppend(db: Db, block: Block)
    requires Referential(db) && CanInsertBlock(db, block)
    requires block.header.height > Top(db.blocks) && block.header.height >= 0
    ensures var db' := InsertBlock(db, block);
      Top(db'.blocks) == block.header.height && DeleteTip(db', block.header.height) == db
  {
    var height := block.header.height;
    var db' := InsertBlock(db, block);
    assert height in db'.blocks;
    forall i | 0 <= i < |db.rows|
      ensures db.rows[i].height != Some(height)
    {
    }
    DeleteUndoesBatch(db.rows, block.txs, height);
    assert db'.blocks - {height} == db.blocks;
  }

  lemma StoredAtDistinct(rows: seq<TxRow>, height: int)
    requires UniqueHashes(rows) && RowsChecked(rows)
    ensures DistinctChecked(TxsAt(rows, height))
  {
    TxsAtDistinct(rows, height);
    TxsAtAre(rows, height);
    forall i | 0 <= i < |TxsAt(rows, height)|
      ensures Checked(TxsAt(rows, height)[i])
    {
      assert TxsAt(rows, height)[i] in TxsAt(rows, height);
    }
  }

  /** Appending `first` and then replacing it by a sibling leaves the same `blocks` table as appending the sibling
      alone, and the same transaction rows followed by unlinked rows for transactions of `first`; balances differ
      exactly by those rows.  This holds as well when the sibling is refused.  A confirmed transfer is among those rows if
      and only if one stored for `first` can still be paid, and is not stored, once the sibling is in. */
  lemma ReplaceIsUndoRedo(st: State, first: Block, second: Block, stamps: Tx -> Stamp) returns (extra: seq<TxRow>)
    requires Sound(st) && Append(st, first).ok
    requires second.header.height == first.header.height && second.header.prevHash == first.header.prevHash
    ensures var one, direct := Append(st, first).state, Append(st, second);
      var replaced := Replace(one, second, stamps);
      && replaced.ok == direct.ok
      && replaced.state.db == direct.state.db.(rows := direct.state.db.rows + extra)
      && PutBack(extra, first.txs) && (!direct.ok ==> extra == [])
      && (forall a :: Balance(replaced.state.db.rows, a) == Balance(direct.state.db.rows, a) + Balance(extra, a))
      && (NoneConfirmed(extra) <==> NoneReturns(one, first, direct))
      && (NoneConfirmed(extra) ==> SameBalances(replaced.state.db.rows, direct.state.db.rows))
  {
    var one, direct := Append(st, first).state, Append(st, second);
    var height := first.header.height;
    DeleteUndoesAppend(st.db, first);
    assert one.db == InsertBlock(st.db, first);
    var cut := DeleteTip(one.db, height);
    assert cut == st.db && one.db.blocks[height].header == first.header;
    var stored := TxsAt(one.db.rows, height);
    extra := [];
    if CanInsertBlock(st.db, second) {
      AppendSound(st, first);
      StoredAtDistinct(one.db.rows, height);
      extra := ReadmitConfirmed(one.(db := InsertBlock(cut, second)), stored, stamps);
      assert NoneAt(st.db.rows, height);
      StoredComeFromBlock(st.db.rows, first.txs, height);
    }
    hide Sound, Unaffordable, DistinctChecked, InsertTxs, Readmit, WithoutHeight, NoneAt, HashStored;
    forall a
      ensures Balance(direct.state.db.rows + extra, a) == Balance(direct.state.db.rows, a) + Balance(extra, a)
    {
      BalanceSplit(direct.state.db.rows, extra, a);
    }
    if NoneConfirmed(extra) {
      forall a
        ensures Balance(extra, a) == 0.0
      {
        UnconfirmedBalance(extra, a);
      }
    }
  }

  /** No confirmed transfer stored for `first` would come back after `direct`. */
  predicate NoneReturns(one: State, first: Block, direct: Result) {
    direct.ok ==>
      var stored := TxsAt(one.db.rows, first.header.height);
      forall i :: 0 <= i < |stored| ==> !Returns(direct.state.db.rows, stored[i])
  }

  // ---------- when balances come out as if the replaced block had never been ----------

  function With(addresses: seq<Address>, a: Address): (more: seq<Address>)
    requires Distinct(addresses)
    ensures Distinct(more) && a in more && forall b :: b in addresses ==> b in more
  {
    if a in addresses then addresses
    else
      var more := addresses + [a];
      assert more[|addresses|] == a && forall i :: 0 <= i < |addresses| ==> more[i] == addresses[i];
      more
  }

  function Parties(rows: seq<TxRow>): (addresses: seq<Address>)
    ensures Distinct(addresses)
  {
    if rows == [] then []
    else
      var tx := rows[|rows| - 1].tx;
      With(With(Parties(rows[..|rows| - 1]), tx.from), tx.to)
  }

  lemma PartiesGrow(rows: seq<TxRow>)
    requires rows != []
    ensures forall a :: a in Parties(rows[..|rows| - 1]) ==> a in Parties(rows)
    ensures rows[|rows| - 1].tx.from in Parties(rows) && rows[|rows| - 1].tx.to in Parties(rows)
  {
    hide Distinct, With;
  }

  lemma {:induction false} PartiesComplete(rows: seq<TxRow>)
    ensures forall i :: 0 <= i < |rows| ==> rows[i].tx.from in Parties(rows) && rows[i].tx.to in Parties(rows)
    decreases |rows|
  {
    if rows != [] {
      hide Parties, Distinct;
      var init, all, before := rows[..|rows| - 1], Parties(rows), Parties(rows[..|rows| - 1]);
      PartiesComplete(init);
      PartiesGrow(rows);
      forall i | 0 <= i < |rows|
        ensures rows[i].tx.from in all && rows[i].tx.to in all
      {
        if i < |init| {
          assert init[i] == rows[i] && rows[i].tx.from in before && rows[i].tx.to in before;
        }
      }
    }
  }

  ghost predicate AllZero(rows: seq<TxRow>) {
    forall a :: Balance(rows, a) == 0.0
  }

  ghost predicate SameBalances(rows: seq<TxRow>, rows': seq<TxRow>) {
    forall a :: Balance(rows, a) == Balance(rows', a)
  }

  lemma SplitBalances(rows: seq<TxRow>, rows': seq<TxRow>, extra: seq<TxRow>)
    requires forall a :: Balance(rows, a) == Balance(rows', a) + Balance(extra, a)
    ensures SameBalances(rows, rows') <==> AllZero(extra)
  {
    hide Balance;
  }

  lemma {:induction false} TotalOfZeros(rows: seq<TxRow>, addresses: seq<Address>)
    requires AllZero(rows)
    ensures TotalBalance(rows, addresses) == 0.0
    decreases |addresses|
  {
    if addresses != [] {
      TotalOfZeros(rows, addresses[..|addresses| - 1]);
    }
  }

  /** Confirmed transfers between different parties that pay a fee. */
  predicate PayFees(txs: seq<Tx>) {
    forall i :: 0 <= i < |txs| && txs[i].status == Confirmed && txs[i].from != SYSTEM ==> txs[i].fee > 0.0 && txs[i].from != txs[i].to
  }

  lemma {:induction false} FeesAreLost(rows: seq<TxRow>)
    requires forall i :: 0 <= i < |rows| && rows[i].tx.status == Confirmed ==> rows[i].tx.fee > 0.0 && rows[i].tx.from != rows[i].tx.to
    ensures NetCreated(rows) <= 0.0
    ensures NetCreated(rows) == 0.0 <==> NoneConfirmed(rows)
    decreases |rows|
  {
    if rows != [] {
      var init := rows[..|rows| - 1];
      assert forall i :: 0 <= i < |init| ==> init[i] == rows[i];
      FeesAreLost(init);
    }
  }

  /** The sum of all balances tells whether such transfers are confirmed. */
  lemma BalancesTell(rows: seq<TxRow>, txs: seq<Tx>)
    requires PutBack(rows, txs) && PayFees(txs)
    ensures AllZero(rows) <==> NoneConfirmed(rows)
  {
    if NoneConfirmed(rows) {
      forall a
        ensures Balance(rows, a) == 0.0
      {
        UnconfirmedBalance(rows, a);
      }
    } else if AllZero(rows) {
      TotalOfZeros(rows, Parties(rows));
      PartiesComplete(rows);
      Conservation(rows, Parties(rows));
      FeesAreLost(rows);
    }
  }

  /** Balances come out as if the replaced block had never been if the sibling is refused or no confirmed transfer of the
      block can still be paid without being stored once the sibling is in; a transfer that can stays in force although
      no block holds it any more.  Where transfers pay fees and go to others, that is the only way. */
  lemma BalancesReturnExactly(st: State, first: Block, second: Block, stamps: Tx -> Stamp)
    requires Sound(st) && Append(st, first).ok
    requires second.header.height == first.header.height && second.header.prevHash == first.header.prevHash
    ensures var one, direct := Append(st, first).state, Append(st, second);
      var same := SameBalances(Replace(one, second, stamps).state.db.rows, direct.state.db.rows);
      && (NoneReturns(one, first, direct) ==> same)
      && (PayFees(first.txs) ==> (same <==> NoneReturns(one, first, direct)))
  {
    var extra := ReplaceIsUndoRedo(st, first, second, stamps);
    hide Sound, Append, Replace, NoneReturns, PutBack, PayFees, Balance, NoneConfirmed, SameBalances, AllZero;
    var one, direct := Append(st, first).state, Append(st, second);
    if PayFees(first.txs) {
      BalancesTell(extra, first.txs);
    }
    SplitBalances(Replace(one, second, stamps).state.db.rows, direct.state.db.rows, extra);
  }

  /** Without fees the converse fails: two opposite transfers that are put back cancel each other. */
  lemma OppositeTransfersCancel()
    ensures var extra := [TxRow(Tx("1", "a", "b", 1.0, 0.0, Confirmed, ""), None), TxRow(Tx("2", "b", "a", 1.0, 0.0, Confirmed, ""), None)];
      AllZero(extra) && !NoneConfirmed(extra)
  {
    var one, two := TxRow(Tx("1", "a", "b", 1.0, 0.0, Confirmed, ""), None), TxRow(Tx("2", "b", "a", 1.0, 0.0, Confirmed, ""), None);
    assert [one, two][..1] == [one] && [one][..0] == [];
    forall a
      ensures Balance([one, two], a) == 0.0
    {
      assert Balance([one], a) == Effect(one.tx, a);
    }
    assert [one, two][0].tx.status == Confirmed;
  }

  /** A block's own header, delivered back to the node that holds the block as its tip, passes for a competing block:
      the header chain stays as it was, but the block's rows, the miner's reward among them, are gone. */
  lemma EchoForfeitsReward(st: State, block: Block, stamps: Tx -> Stamp)
    requires Sound(st) && Append(st, block).ok
    requires forall tx :: tx in block.txs && tx.from != SYSTEM ==> tx.status != Confirmed
    ensures var mined := Append(st, block).state;
      var echoed := Replace(mined, Block(block.header, []), stamps);
      && echoed.ok
      && Headers(echoed.state.db.blocks) == Headers(mined.db.blocks)
      && forall a :: Balance(echoed.state.db.rows, a) == Balance(st.db.rows, a)
  {
    var extra := ReplaceIsUndoRedo(st, block, Block(block.header, []), stamps);
    assert InsertTxs(st.db.rows, [], block.header.height) == st.db.rows;
    assert NoneConfirmed(extra);
  }
}
