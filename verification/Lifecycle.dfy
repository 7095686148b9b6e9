/** What happens to every mempool entry on every node, step by step of the whole system. */
module Lifecycle {
  import opened Types
  import opened Ledger
  import opened LedgerLaws
  import opened Pool
  import opened Chain
  import opened ChainRuns
  import opened Settlement
  import opened Replacement
  import opened Protocol
  import opened LedgerNetwork
  import opened Mempools
  import opened Forfeits
  import Merkle
  import Network

  // ---------- blocks that leave everything payable ----------

  lemma {:induction false} RewardsAddUp(rows: seq<TxRow>, txs: seq<Tx>, n: nat, a: Address)
    requires n <= |txs| && RewardsOnly(txs) && a != SYSTEM
    ensures Contribution(rows, txs, n, a) >= 0.0
    decreases n
  {
    if n > 0 {
      RewardsAddUp(rows, txs, n - 1, a);
    }
  }

  /** A block whose confirmed transactions are rewards lowers nobody's balance but SYSTEM's. */
  lemma BlockLowersNobody(rows: seq<TxRow>, txs: seq<Tx>, height: int, a: Address)
    requires RewardsOnly(txs) && a != SYSTEM
    ensures Balance(InsertTxs(rows, txs, height), a) >= Balance(rows, a)
  {
    BalanceAfterBatch(rows, txs, height, a);
    RewardsAddUp(rows, txs, |txs|, a);
  }

  lemma NoneFails(st: State, rows': seq<TxRow>, h: Hash)
    requires Affordable(st) && h in st.pool
    requires forall a :: a != SYSTEM ==> Balance(rows', a) >= Balance(st.db.rows, a)
    ensures !Fails(rows', st.index, st.pool[h], h)
  {
    IndexedByKey(st.index, h);
    hide Balance, Indexed;
  }

  /** Then an accepted block takes out just its own transactions, and no key. */
  lemma AppendTakesOwn(st: State, block: Block)
    requires Sound(st) && Affordable(st) && RewardsOnly(block.txs) && Append(st, block).ok
    ensures var st' := Append(st, block).state;
      && st'.pool == (map h | h in st.pool && !Brought(block.txs, h) :: st.pool[h])
      && st'.index == st.index
  {
    var st' := Append(st, block).state;
    AppendExactly(st, block);
    AppendedRows(st, block);
    AppendSound(st, block);
    forall a | a != SYSTEM
      ensures Balance(st'.db.rows, a) >= Balance(st.db.rows, a)
    {
      BlockLowersNobody(st.db.rows, block.txs, block.header.height, a);
    }
    forall h | h in st.pool
      ensures !Fails(st'.db.rows, st.index, st.pool[h], h)
    {
      NoneFails(st, st'.db.rows, h);
    }
    hide Append, Fails, Brought, Balance, Affordable, TablesSound, PoolSound, RewardsOnly;
    assert Sorted(st.index) && Sorted(st'.index);
    hide Sorted;
    SortedUnique(st.index, st'.index);
  }

  lemma AppendBareTakesNothing(st: State, b: Header)
    requires Sound(st) && Affordable(st)
    ensures var st' := Append(st, Block(b, [])).state;
      st'.pool == st.pool && st'.index == st.index && st'.db.rows == st.db.rows && Sound(st') && Affordable(st')
  {
    AppendBare(st, b);
    AppendSound(st, Block(b, []));
    if Append(st, Block(b, [])).ok {
      AppendTakesOwn(st, Block(b, []));
      hide Append;
      assert forall h :: !Brought([], h);
    }
    hide Append, Sound;
  }

  lemma {:induction false} ResponseTakesNothing(st: State, headers: seq<Header>)
    requires Sound(st) && Affordable(st)
    ensures var st' := AfterResponse(st, headers);
      st'.pool == st.pool && st'.index == st.index && st'.db.rows == st.db.rows && Sound(st') && Affordable(st')
    decreases |headers|
  {
    hide Sound, Affordable, Append;
    if headers != [] {
      ResponseTakesNothing(st, headers[..|headers| - 1]);
      AppendBareTakesNothing(AfterResponse(st, headers[..|headers| - 1]), headers[|headers| - 1]);
    }
  }

  /** Among messages only a broadcast that competes with the tip touches mempool or index. */
  lemma OtherMessagesTakeNothing(st: State, msg: Msg, stamps: Tx -> Stamp)
    requires Sound(st) && Affordable(st) && !Competing(st, msg)
    ensures var st' := AfterMessage(st, msg, stamps); st'.pool == st.pool && st'.index == st.index
  {
    hide Sound, Affordable, Append, Chain.Replace;
    match msg
    case GetBlocks(_) =>
    case BlocksResponse(headers) => ResponseTakesNothing(st, headers);
    case NewBlock(b) => AppendBareTakesNothing(st, b);
  }

  // ---------- in every history ----------

  /** A submitted transaction is accepted exactly when its amount is positive, its fee not negative and its sender can pay both;
      it is then in the mempool and in the index, in place of nothing else unless the index is full: then the key
      that ranks last goes with the entry it names.  A key tied with a stored one is dropped, the entry is kept. */
  lemma SubmittedStays(sha: Merkle.Digest, clocks: map<Network.NodeId, int>, worlds: seq<World>, acts: seq<Act>, i: nat,
                       n: Network.NodeId, tx: Tx, stamp: Stamp) returns (worst: Key)
    requires History(sha, clocks, worlds, acts) && i < |worlds| && CollisionFree(worlds[i].mined) && n in worlds[i].peers
    ensures var st, p' := worlds[i].peers[n].ledger, Move(sha, worlds[i], Submit(n, tx, stamp)).peers[n];
      var st', key, pending := p'.ledger, KeyOf(tx, stamp), tx.(status := Pending);
      var accepted := tx.amount > 0.0 && tx.fee >= 0.0 && (tx.from == SYSTEM || Balance(st.db.rows, tx.from) >= tx.amount + tx.fee);
      && p'.work == worlds[i].peers[n].work
      && (!accepted ==> st' == st)
      && (accepted ==>
            && st'.db.blocks == st.db.blocks
            && st'.db.rows == if HasHash(st.db.rows, tx.hash) then st.db.rows else st.db.rows + [TxRow(pending, None)])
      && (accepted && (|st.index| < 10000 || Taken(st.index, key)) ==>
            && st'.pool == st.pool[tx.hash := pending]
            && forall k :: k in st'.index <==> k in st.index || (k == key && !Taken(st.index, key)))
      && (accepted && |st.index| >= 10000 && !Taken(st.index, key) ==>
            && Worst(st.index, key, worst)
            && st'.pool == st.pool[tx.hash := pending] - {worst.hash}
            && forall k :: k in st'.index <==> (k in st.index || k == key) && k != worst)
  {
    hide History, CollisionFree, Network.Safe, Heads;
    HistoryHealthy(sha, clocks, worlds, acts, i);
    assert PeerHealthy(worlds[i].peers[n]);
    var st := worlds[i].peers[n].ledger;
    hide TablesSound, PoolSound, Affordable, Unsettled, Sorted, Admit, Worst, Taken, HasHash, Balance;
    worst := AdmitExactly(st, tx.(status := Pending), stamp);
  }

  /** A block that a node mines is broadcast and takes its own transactions out of the mempool, SYSTEM's excepted, and nothing else; every other
      nonce it tries leaves the mempool alone.  The index keeps all its keys. */
  lemma MiningTakesOwn(sha: Merkle.Digest, clocks: map<Network.NodeId, int>, worlds: seq<World>, acts: seq<Act>, i: nat,
                       n: Network.NodeId, nonce: int, hash: Hash)
    requires History(sha, clocks, worlds, acts) && i < |worlds| && CollisionFree(worlds[i].mined) && n in worlds[i].peers
    ensures var p, w' := worlds[i].peers[n], Move(sha, worlds[i], Try(n, nonce, hash));
      var p' := w'.peers[n];
      var grown := Top(p'.ledger.db.blocks) > Top(p.ledger.db.blocks);
      && p'.ledger.index == p.ledger.index
      && (!grown ==> p'.ledger.pool == p.ledger.pool && w'.sent == worlds[i].sent)
      && (grown ==>
            && p.work.Some? && p'.work.None?
            && w'.sent == worlds[i].sent + {NewBlock(p.work.value.header.(nonce := nonce, hash := hash))}
            && p'.ledger.pool == map h | h in p.ledger.pool && !Brought(p.work.value.txs, h) :: p.ledger.pool[h])
  {
    hide History, CollisionFree, Network.Safe, Heads;
    HistoryHealthy(sha, clocks, worlds, acts, i);
    assert PeerHealthy(worlds[i].peers[n]);
    if worlds[i].peers[n].work.Some? {
      hide AllHealthy, Sound, Affordable, Unsettled, Strike, Brought;
      StrikeTakesOwn(worlds[i].peers[n], worlds[i].peers[n].work.value.header.height, nonce, hash);
    }
  }

  lemma StrikeTakesOwn(p: Peer, target: int, nonce: int, hash: Hash)
    requires PeerHealthy(p) && p.work.Some?
    ensures var struck := Strike(p, target, nonce, hash);
      var p' := struck.peer;
      var grown := Top(p'.ledger.db.blocks) > Top(p.ledger.db.blocks);
      && p'.ledger.index == p.ledger.index
      && (!grown ==> p'.ledger.pool == p.ledger.pool && struck.reply == None)
      && (grown ==>
            && p'.work.None? && struck.reply == Some(NewBlock(p.work.value.header.(nonce := nonce, hash := hash)))
            && p'.ledger.pool == map h | h in p.ledger.pool && !Brought(p.work.value.txs, h) :: p.ledger.pool[h])
  {
    hide Sound, Affordable, Unsettled, Append, MeetsTarget, RewardsOnly, Brought;
    var block := Block(p.work.value.header.(nonce := nonce, hash := hash), p.work.value.txs);
    AppendGrows(p.ledger, block);
    if Append(p.ledger, block).ok {
      AppendTakesOwn(p.ledger, block);
    }
  }

  lemma AppendGrows(st: State, block: Block)
    ensures var r := Append(st, block);
      (r.ok ==> Top(r.state.db.blocks) > Top(st.db.blocks)) && (!r.ok ==> r.state == st)
  {
    if Append(st, block).ok {
      CleanKeepsDb(State(InsertBlock(st.db, block), EraseMined(st.pool, block.txs), st.index));
      assert block.header.height in Append(st, block).state.db.blocks;
    }
  }

  /** A broadcast that extends the tip and a sync response take nothing out of mempool or index, nor does any other message
      but a broadcast that competes with the tip.  That one puts the tip's transfers back as far as they can be paid, and
      takes out the indexed entries whose sender cannot pay any more; nothing else changes while the index has room. */
  lemma MessagesTake(sha: Merkle.Digest, clocks: map<Network.NodeId, int>, worlds: seq<World>, acts: seq<Act>, i: nat,
                     n: Network.NodeId, msg: Msg, stamps: Tx -> Stamp)
    requires History(sha, clocks, worlds, acts) && i < |worlds| && CollisionFree(worlds[i].mined) && n in worlds[i].peers
    ensures var st, st' := worlds[i].peers[n].ledger, Move(sha, worlds[i], Receive(n, msg, stamps)).peers[n].ledger;
      var stored := TxsAt(st.db.rows, Top(st.db.blocks));
      var back := Returning(st'.db.rows, stored);
      var all := st.pool + back;
      && (!(msg in worlds[i].sent && Competing(st, msg)) ==> st'.pool == st.pool && st'.index == st.index)
      && (msg in worlds[i].sent && Competing(st, msg) ==>
            && Within(st'.pool, all)
            && (|st.index| + |stored| <= 10000 ==>
                  st'.pool == map h | h in all && !Fails(st'.db.rows, st.index, all[h], h) :: all[h]))
  {
    hide History, Network.Safe, Heads;
    HistoryHealthy(sha, clocks, worlds, acts, i);
    assert PeerHealthy(worlds[i].peers[n]);
    var w, st := worlds[i], worlds[i].peers[n].ledger;
    if msg in w.sent {
      SafeOnHeads(w, n, msg);
      hide Network.MsgOk, CollisionFree, Linked, Tree, Sound, Affordable, Unsettled, OnMessage, Headers;
      if Competing(st, msg) {
        CompetitorTakes(w.mined, st, msg, stamps);
      } else {
        OtherMessagesTakeNothing(st, msg, stamps);
      }
      hide AfterMessage, Competing, Returning, Within, Fails;
    }
  }

  /** A delivered broadcast is stored, passed on, and ends the search for a nonce, exactly when it is a child of the tip or has
      the tip's height and parent; otherwise ledger and search stay as they were, and only a higher block is answered, by
      asking for what is missing. */
  lemma BroadcastTaken(sha: Merkle.Digest, clocks: map<Network.NodeId, int>, worlds: seq<World>, acts: seq<Act>, i: nat,
                       n: Network.NodeId, b: Header, stamps: Tx -> Stamp)
    requires History(sha, clocks, worlds, acts) && i < |worlds| && CollisionFree(worlds[i].mined) && n in worlds[i].peers
    requires NewBlock(b) in worlds[i].sent
    ensures var p, w' := worlds[i].peers[n], Move(sha, worlds[i], Receive(n, NewBlock(b), stamps));
      var table, top := Headers(p.ledger.db.blocks), Top(p.ledger.db.blocks);
      && top in table && n in w'.peers
      && var takes := b.prevHash == table[top].hash || (b.height == top && b.prevHash == table[top].prevHash);
      var reply := if takes then Some(NewBlock(b)) else if b.height > top then Some(GetBlocks(top + 1)) else None;
      && Handle(p, NewBlock(b), stamps).reply == reply && w'.sent == Network.Send(worlds[i].sent, reply)
      && (takes ==> Headers(w'.peers[n].ledger.db.blocks) == table[b.height := b] && w'.peers[n].work == None)
      && (!takes ==> w'.peers[n] == p)
  {
    hide History, Network.Safe, Heads, AllHealthy;
    HistoryHealthy(sha, clocks, worlds, acts, i);
    var w, p := worlds[i], worlds[i].peers[n];
    SafeOnHeads(w, n, NewBlock(b));
    BroadcastOnPeer(w.mined, p, b, stamps);
    hide Handle, CollisionFree, Linked, Tree;
  }

  lemma BroadcastOnPeer(mined: set<Header>, p: Peer, b: Header, stamps: Tx -> Stamp)
    requires CollisionFree(mined) && Tree(mined) && Linked(mined, Headers(p.ledger.db.blocks)) && b in mined
    ensures var table, top := Headers(p.ledger.db.blocks), Top(p.ledger.db.blocks);
      && top in table
      && var takes := b.prevHash == table[top].hash || (b.height == top && b.prevHash == table[top].prevHash);
      var h := Handle(p, NewBlock(b), stamps);
      && h.reply == (if takes then Some(NewBlock(b)) else if b.height > top then Some(GetBlocks(top + 1)) else None)
      && (takes ==> Headers(h.peer.ledger.db.blocks) == table[b.height := b] && h.peer.work == None)
      && (!takes ==> h.peer == p)
  {
    var table := Headers(p.ledger.db.blocks);
    TopOfHeaders(p.ledger.db.blocks);
    TipOf(mined, table);
    hide Linked, CollisionFree, Tree, Headers, OnNewBlock;
    BroadcastEffect(mined, table, b);
    NewBlockOnHeaders(p.ledger, b, stamps);
    NotTaken(p.ledger, b, stamps);
    hide AfterNewBlock;
  }

  lemma TipOf(mined: set<Header>, table: Table)
    requires Linked(mined, table)
    ensures Top(table) in table
  {
  }

  lemma NotTaken(st: State, b: Header, stamps: Tx -> Stamp)
    ensures var top := Top(st.db.blocks);
      (top in st.db.blocks && b.prevHash != st.db.blocks[top].header.hash
       && !(b.height == top && b.prevHash == st.db.blocks[top].header.prevHash))
      ==> AfterNewBlock(st, b, stamps) == st
  {
    hide Append, Chain.Replace;
  }

  lemma CompetitorTakes(mined: set<Header>, st: State, msg: Msg, stamps: Tx -> Stamp)
    requires CollisionFree(mined) && Tree(mined) && Linked(mined, Headers(st.db.blocks)) && Network.MsgOk(mined, msg)
    requires Sound(st) && Unsettled(st) && Competing(st, msg)
    ensures var st', stored := AfterMessage(st, msg, stamps), TxsAt(st.db.rows, Top(st.db.blocks));
      var back := Returning(st'.db.rows, stored);
      var all := st.pool + back;
      && Within(st'.pool, all)
      && (|st.index| + |stored| <= CAPACITY ==>
            st'.pool == map h | h in all && !Fails(st'.db.rows, st.index, all[h], h) :: all[h])
  {
    var block := Block(msg.header, []);
    MinedReplacementIsGentle(st, block, stamps, mined);
    DeleteUnsettled(st, msg.header.height);
    hide CollisionFree, Tree, Linked, Sound, Unsettled, Headers, RewardsOnly, RowsRewardsOnly, Within, Fails, Returning;
    ReplaceSucceeds(st, block, stamps);
    ReplaceExactly(st, block, stamps);
    hide Append, Chain.Replace, TxsAt;
  }

  lemma ReplaceSucceeds(st: State, block: Block, stamps: Tx -> Stamp)
    requires Gentle(st, ReplaceTip(block, stamps)) && Competing(st, NewBlock(block.header))
    ensures Chain.Replace(st, block, stamps).ok
  {
    hide Clean, Readmit, InsertBlock, TxsAt, WithoutHeight;
  }

  /** With an empty mempool nothing is drafted.  A draft leaves mempool and index alone, unless the mempool holds no transaction that the index knows: then it empties
      both. */
  lemma DraftingTakes(sha: Merkle.Digest, clocks: map<Network.NodeId, int>, worlds: seq<World>, acts: seq<Act>, i: nat,
                      n: Network.NodeId, coinbaseHash: Hash, now: int)
    requires History(sha, clocks, worlds, acts) && i < |worlds| && CollisionFree(worlds[i].mined) && n in worlds[i].peers
    ensures var st, st' := worlds[i].peers[n].ledger, Move(sha, worlds[i], Begin(n, coinbaseHash, now)).peers[n].ledger;
      && st' == (if st.pool == map[] || exists k :: k in st.index && k.hash in st.pool then st else st.(pool := map[], index := []))
      && var work, work' := worlds[i].peers[n].work, Move(sha, worlds[i], Begin(n, coinbaseHash, now)).peers[n].work;
      if st.pool == map[] then work' == work else work'.Some?
  {
    hide History, CollisionFree, Network.Safe, Heads;
    HistoryHealthy(sha, clocks, worlds, acts, i);
    assert PeerHealthy(worlds[i].peers[n]);
    var st := worlds[i].peers[n].ledger;
    hide Sound, Unsettled, Affordable;
    AffordableRejectsNothing(st);
    LiveKeysAre(st.pool, st.index);
    hide Selection, LiveKeys, TxsOf, Merkle.Root, Protocol.Draft;
  }

  lemma {:induction false} LiveKeysAre(pool: map<Hash, Tx>, index: seq<Key>)
    ensures LiveKeys(pool, index) != [] <==> exists k :: k in index && k.hash in pool
    decreases |index|
  {
    if index != [] {
      var init, last := index[..|index| - 1], index[|index| - 1];
      LiveKeysAre(pool, init);
      assert index == init + [last];
    }
  }

  /** No other step touches any mempool, and no step that of another node. */
  lemma OtherStepsTakeNothing(sha: Merkle.Digest, clocks: map<Network.NodeId, int>, worlds: seq<World>, acts: seq<Act>, i: nat,
                              act: Act, n: Network.NodeId)
    requires History(sha, clocks, worlds, acts) && i < |worlds| && CollisionFree(worlds[i].mined) && n in worlds[i].peers
    requires act.Tidy? || act.Stop? || act.Ask? || act.Drop? || act.n != n
    ensures var w' := Move(sha, worlds[i], act);
      n in w'.peers && w'.peers[n].ledger == worlds[i].peers[n].ledger
  {
    MoveIsLocal(sha, worlds[i], act);
    hide History, CollisionFree, Network.Safe, Heads;
    if act.Tidy? && act.n == n {
      HistoryHealthy(sha, clocks, worlds, acts, i);
      assert PeerHealthy(worlds[i].peers[n]);
      hide Sound, Unsettled, Affordable;
      AffordableRejectsNothing(worlds[i].peers[n].ledger);
      hide Clean;
    }
    hide Started, Handle, Strike, Admit, Clean;
  }
}
