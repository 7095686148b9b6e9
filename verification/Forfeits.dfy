/** When a node loses transaction rows it has stored, rewards among them. */
module Forfeits {
  import opened Types
  import opened Ledger
  import opened LedgerLaws
  import opened Pool
  import opened Chain
  import opened ChainRuns
  import opened Settlement
  import opened Replacement
  import opened Protocol
  import opened LedgerNetwork
  import Merkle
  import Network

  /** A broadcast that passes for a block competing with the tip, as the tip's own header does. */
  predicate Competing(st: State, msg: Msg) {
    var top := Top(st.db.blocks);
    && msg.NewBlock? && top in st.db.blocks
    && msg.header.height == top && msg.header.prevHash == st.db.blocks[top].header.prevHash
  }

  lemma AppendBare(st: State, b: Header)
    ensures Append(st, Block(b, [])).state.db.rows == st.db.rows
  {
    assert InsertTxs(st.db.rows, [], b.height) == st.db.rows;
  }

  lemma {:induction false} ResponseKeepsRows(st: State, headers: seq<Header>)
    ensures AfterResponse(st, headers).db.rows == st.db.rows
    decreases |headers|
  {
    hide Append;
    if headers != [] {
      ResponseKeepsRows(st, headers[..|headers| - 1]);
      AppendBare(AfterResponse(st, headers[..|headers| - 1]), headers[|headers| - 1]);
    }
  }

  /** Replacing a tip by a bare header leaves the other rows, and unconfirmed ones put back. */
  lemma ReplaceRows(st: State, b: Header, stamps: Tx -> Stamp) returns (extra: seq<TxRow>)
    requires Sound(st) && Unsettled(st) && Gentle(st, ReplaceTip(Block(b, []), stamps))
    requires Competing(st, NewBlock(b))
    ensures Chain.Replace(st, Block(b, []), stamps).state.db.rows == WithoutHeight(st.db.rows, b.height) + extra
    ensures PutBack(extra, TxsAt(st.db.rows, b.height)) && NoneConfirmed(extra)
  {
    var rows, top := st.db.rows, b.height;
    var cut := DeleteTip(st.db, top);
    assert CanInsertBlock(cut, Block(b, []));
    var inserted := st.(db := InsertBlock(cut, Block(b, [])));
    assert inserted.db.rows == cut.rows by {
      assert InsertTxs(cut.rows, [], top) == cut.rows;
    }
    StoredAtDistinct(rows, top);
    extra := ReadmitConfirmed(inserted, TxsAt(rows, top), stamps);
    CleanKeepsDb(Readmit(inserted, TxsAt(rows, top), stamps));
    DeleteUnsettled(st, top);
    hide Clean, Readmit, Sound, Unsettled, CanInsertBlock, InsertBlock;
  }

  /** What a message does to the rows of a node. */
  lemma MessageRows(mined: set<Header>, st: State, msg: Msg, stamps: Tx -> Stamp) returns (extra: seq<TxRow>)
    requires CollisionFree(mined) && Tree(mined) && Linked(mined, Headers(st.db.blocks)) && Network.MsgOk(mined, msg)
    requires Sound(st) && Unsettled(st)
    ensures var top := Top(st.db.blocks);
      && AfterMessage(st, msg, stamps).db.rows
         == (if Competing(st, msg) then WithoutHeight(st.db.rows, top) + extra else st.db.rows)
      && PutBack(extra, TxsAt(st.db.rows, top)) && NoneConfirmed(extra)
  {
    hide CollisionFree, Tree, Linked, Sound, Unsettled, Headers;
    extra := [];
    match msg
    case GetBlocks(_) =>
    case BlocksResponse(headers) => ResponseKeepsRows(st, headers);
    case NewBlock(b) =>
      AppendBare(st, b);
      if Competing(st, msg) {
        MinedReplacementIsGentle(st, Block(b, []), stamps, mined);
        extra := ReplaceRows(st, b, stamps);
        hide Append, Chain.Replace, Gentle;
      }
  }

  // ---------- what is lost ----------

  lemma {:induction false} UnlinkedAddNothing(rows: seq<TxRow>, extra: seq<TxRow>, height: int)
    requires forall i :: 0 <= i < |extra| ==> extra[i].height == None
    ensures TxsAt(rows + extra, height) == TxsAt(rows, height)
    decreases |extra|
  {
    if extra == [] {
      assert rows + extra == rows;
    } else {
      var all := rows + extra;
      assert all[..|all| - 1] == rows + extra[..|extra| - 1];
      UnlinkedAddNothing(rows, extra[..|extra| - 1], height);
    }
  }

  lemma {:induction false} TxsAtPrefix(rows: seq<TxRow>, rows': seq<TxRow>, height: int)
    requires rows <= rows' && TxsAt(rows', height) == []
    ensures TxsAt(rows, height) == []
  {
    TxsAtNone(rows, height);
    TxsAtNone(rows', height);
    forall i | 0 <= i < |rows|
      ensures rows[i].height != Some(height)
    {
      assert rows'[i] == rows[i];
    }
  }

  lemma CutRows(rows: seq<TxRow>, extra: seq<TxRow>, height: int)
    requires UniqueHashes(rows) && RowsChecked(rows)
    requires NoneConfirmed(extra) && forall i :: 0 <= i < |extra| ==> extra[i].height == None
    ensures var rows' := WithoutHeight(rows, height) + extra;
      && TxsAt(rows', height) == []
      && (rows <= rows' <==> TxsAt(rows, height) == [])
      && SameBalances(rows', WithoutHeight(rows, height))
      && (forall k :: k != height ==> TxsAt(rows', k) == TxsAt(rows, k))
  {
    var left := WithoutHeight(rows, height);
    var rows' := left + extra;
    DeleteKeepsRows(rows, height);
    TxsAtNone(left, height);
    UnlinkedAddNothing(left, extra, height);
    if rows <= rows' {
      TxsAtPrefix(rows, rows', height);
    }
    if TxsAt(rows, height) == [] {
      TxsAtNone(rows, height);
      WithoutNone(rows, height);
    }
    forall k | k != height
      ensures TxsAt(rows', k) == TxsAt(rows, k)
    {
      UnlinkedAddNothing(left, extra, k);
      TxsAtOther(rows, height, k);
    }
    forall a
      ensures Balance(rows', a) == Balance(left, a)
    {
      BalanceSplit(left, extra, a);
      UnconfirmedBalance(extra, a);
    }
  }

  /** The act delivers to this node a message that competes with its tip. */
  predicate Forfeits(w: World, act: Act, n: Network.NodeId) {
    act.Receive? && act.n == n && act.msg in w.sent && n in w.peers && Competing(w.peers[n].ledger, act.msg)
  }

  lemma OtherActsKeepRows(sha: Merkle.Digest, w: World, act: Act, n: Network.NodeId)
    requires n in w.peers && !(act.Receive? && act.n == n && act.msg in w.sent)
    ensures n in Move(sha, w, act).peers
    ensures w.peers[n].ledger.db.rows <= Move(sha, w, act).peers[n].ledger.db.rows
  {
    hide AfterMessage, OnMessage, MeetsTarget;
    var st := w.peers[n].ledger;
    if act.Try? && act.n == n && w.peers[n].work.Some? {
      AppendRows(st, Block(w.peers[n].work.value.header.(nonce := act.nonce, hash := act.hash), w.peers[n].work.value.txs));
      hide Append;
    } else {
      hide Evict, Pool.Insert, Unaffordable, Selection, Strike;
    }
  }

  lemma AppendRows(st: State, block: Block)
    ensures st.db.rows <= Append(st, block).state.db.rows
  {
    BatchLinksOnly(st.db.rows, block.txs, block.header.height);
    CleanKeepsDb(State(InsertBlock(st.db, block), EraseMined(st.pool, block.txs), st.index));
  }

  /** On any node of any history a step takes stored rows away if and only if it delivers a broadcast that competes with
      the tip while transactions are linked to it.  Then all of those go, the others stay, and balances are as if the
      tip had brought no transactions; the tip's reward survives every other step. */
  lemma RowsLostExactly(sha: Merkle.Digest, clocks: map<Network.NodeId, int>, worlds: seq<World>, acts: seq<Act>, i: nat, act: Act, n: Network.NodeId)
    requires History(sha, clocks, worlds, acts) && i < |worlds| && CollisionFree(worlds[i].mined) && n in clocks
    ensures n in worlds[i].peers && n in Move(sha, worlds[i], act).peers
    ensures var rows, rows' := worlds[i].peers[n].ledger.db.rows, Move(sha, worlds[i], act).peers[n].ledger.db.rows;
      var top := Top(worlds[i].peers[n].ledger.db.blocks);
      && (!(rows <= rows') <==> Forfeits(worlds[i], act, n) && TxsAt(rows, top) != [])
      && (Forfeits(worlds[i], act, n) ==>
            && TxsAt(rows', top) == [] && SameBalances(rows', WithoutHeight(rows, top))
            && forall k :: k != top ==> TxsAt(rows', k) == TxsAt(rows, k))
  {
    var w := worlds[i];
    HistoryHealthy(sha, clocks, worlds, acts, i);
    hide History, CollisionFree, Network.Safe, Linked, Tree;
    assert PeerHealthy(w.peers[n]);
    hide Sound, Affordable, Unsettled;
    MoveIsLocal(sha, w, act);
    if act.Receive? && act.n == n && act.msg in w.sent {
      ReceivedRows(sha, w, n, act.msg, act.stamps);
    } else {
      OtherActsKeepRows(sha, w, act, n);
    }
  }

  lemma ReceivedRows(sha: Merkle.Digest, w: World, n: Network.NodeId, msg: Msg, stamps: Tx -> Stamp)
    requires Network.Safe(Heads(w)) && CollisionFree(w.mined) && n in w.peers && msg in w.sent
    requires Healthy(w.peers[n].ledger)
    ensures n in Move(sha, w, Receive(n, msg, stamps)).peers
    ensures var st, rows' := w.peers[n].ledger, Move(sha, w, Receive(n, msg, stamps)).peers[n].ledger.db.rows;
      var rows, top := st.db.rows, Top(st.db.blocks);
      && (!Competing(st, msg) ==> rows' == rows)
      && (Competing(st, msg) ==>
            && TxsAt(rows', top) == [] && (rows <= rows' <==> TxsAt(rows, top) == [])
            && SameBalances(rows', WithoutHeight(rows, top))
            && forall k :: k != top ==> TxsAt(rows', k) == TxsAt(rows, k))
  {
    hide Linked, Tree, CollisionFree, Network.Safe, Network.MsgOk, AfterMessage, OnMessage, SameBalances, Competing, Affordable,
         Unsettled, UniqueHashes, RowsChecked, IndexSound, PoolSound, Referential, Balance, Headers;
    var st := w.peers[n].ledger;
    SafeOnHeads(w, n, msg);
    var extra := MessageRows(w.mined, st, msg, stamps);
    hide NoneConfirmed;
    CutRows(st.db.rows, extra, Top(st.db.blocks));
  }

  /** A node that is sent its own tip's broadcast, as by a peer that relays it, at any time while the block is its tip: the
      headers stay, and what the block brought is gone, the reward included. */
  lemma OwnBroadcastForfeitsReward(sha: Merkle.Digest, clocks: map<Network.NodeId, int>, worlds: seq<World>, acts: seq<Act>, i: nat,
                                   n: Network.NodeId, stamps: Tx -> Stamp)
    requires History(sha, clocks, worlds, acts) && i < |worlds| && CollisionFree(worlds[i].mined) && n in worlds[i].peers
    requires var blocks := worlds[i].peers[n].ledger.db.blocks;
      Top(blocks) in blocks && NewBlock(blocks[Top(blocks)].header) in worlds[i].sent
    ensures var st := worlds[i].peers[n].ledger;
      var top := Top(st.db.blocks);
      var w' := Move(sha, worlds[i], Receive(n, NewBlock(st.db.blocks[top].header), stamps));
      && n in w'.peers
      && var rows' := w'.peers[n].ledger.db.rows;
      && Headers(w'.peers[n].ledger.db.blocks) == Headers(st.db.blocks)
      && TxsAt(rows', top) == [] && SameBalances(rows', WithoutHeight(st.db.rows, top))
  {
    HistoryHealthy(sha, clocks, worlds, acts, i);
    assert PeerHealthy(worlds[i].peers[n]);
    hide History, AllHealthy, CollisionFree, Healthy, Network.Safe, Headers, Move;
    EchoOnNode(sha, worlds[i], n, stamps);
  }

  lemma EchoOnNode(sha: Merkle.Digest, w: World, n: Network.NodeId, stamps: Tx -> Stamp)
    requires Network.Safe(Heads(w)) && CollisionFree(w.mined) && n in w.peers && Healthy(w.peers[n].ledger)
    requires var blocks := w.peers[n].ledger.db.blocks;
      Top(blocks) in blocks && NewBlock(blocks[Top(blocks)].header) in w.sent
    ensures var st := w.peers[n].ledger;
      var top := Top(st.db.blocks);
      var w' := Move(sha, w, Receive(n, NewBlock(st.db.blocks[top].header), stamps));
      && n in w'.peers
      && var rows' := w'.peers[n].ledger.db.rows;
      && Headers(w'.peers[n].ledger.db.blocks) == Headers(st.db.blocks)
      && TxsAt(rows', top) == [] && SameBalances(rows', WithoutHeight(st.db.rows, top))
  {
    hide CollisionFree, Network.Safe, Linked, Tree, Healthy, Headers, Competing, AfterMessage, OnMessage, SameBalances;
    var st := w.peers[n].ledger;
    var echo := NewBlock(st.db.blocks[Top(st.db.blocks)].header);
    SafeOnHeads(w, n, echo);
    EchoKeepsHeaders(w.mined, st, stamps);
    ReceivedRows(sha, w, n, echo, stamps);
  }

  lemma EchoKeepsHeaders(mined: set<Header>, st: State, stamps: Tx -> Stamp)
    requires CollisionFree(mined) && Tree(mined) && Linked(mined, Headers(st.db.blocks)) && Top(st.db.blocks) in st.db.blocks
    requires st.db.blocks[Top(st.db.blocks)].header in mined
    ensures var echo := NewBlock(st.db.blocks[Top(st.db.blocks)].header);
      Competing(st, echo) && Headers(AfterMessage(st, echo, stamps).db.blocks) == Headers(st.db.blocks)
  {
    var table, tip := Headers(st.db.blocks), st.db.blocks[Top(st.db.blocks)].header;
    hide CollisionFree, Tree, AfterMessage, Linked;
    TopOfHeaders(st.db.blocks);
    MessageOnHeaders(st, NewBlock(tip), stamps);
    assert Top(table) in table && table[Top(table)] == tip;
    hide Headers;
    EchoOnTable(mined, table);
  }

  lemma EchoOnTable(mined: set<Header>, table: Table)
    requires CollisionFree(mined) && Tree(mined) && Linked(mined, table) && Top(table) in table && table[Top(table)] in mined
    ensures table[Top(table)].height == Top(table) && OnNewBlock(table, table[Top(table)]).table == table
  {
    hide CollisionFree, Tree, AddBlock, ReplaceLast;
    var tip := table[Top(table)];
    assert tip.height == Top(table);
    hide Linked;
    ReplaceKeepsLinked(mined, table, tip);
    assert table[Top(table) := tip] == table;
  }
}
