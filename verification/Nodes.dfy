/** A node: its message handlers and one pass of its mining loop, carried out on its ledger. */
module Nodes {
  import opened Types
  import opened Ledger
  import opened Chain
  import opened Protocol
  import Mining
  import opened LedgerNetwork

  const MAX_NONCE: nat := 1000000

  class Node {
    const id: string
    const chain: Blockchain
    /** The drafted block a nonce is being searched for. */
    var work: Option<Block>
    /** The height at which the search for it ends. */
    var targetHeight: int

    constructor (id: string, chain: Blockchain)
      ensures this.id == id && this.chain == chain && work == None
    {
      this.id := id;
      this.chain := chain;
      work := None;
      targetHeight := 0;
    }

    /** The node as the system machine sees it. */
    ghost function Contents(): Peer
      reads this, chain, chain.db
    {
      Peer(chain.Contents(), work)
    }

    ghost function Table(): Table
      reads this, chain, chain.db
    {
      Headers(chain.db.blocks)
    }

    method HandleNewBlock(b: Header, stamps: Tx -> Stamp) returns (reply: Option<Msg>)
      requires chain.Valid()
      modifies this, chain, chain.db
      ensures chain.Valid() && chain.Contents() == AfterNewBlock(old(chain.Contents()), b, stamps)
      ensures Reaction(Table(), reply) == OnNewBlock(old(Table()), b)
      ensures work == if reply == Some(NewBlock(b)) then None else old(work)
    {
      ghost var st := chain.Contents();
      TopOfHeaders(st.db.blocks);
      OperationsOnHeaders(st, Block(b, []), stamps);
      hide Append, AddBlock, ReplaceLast, Chain.Replace, Top;
      reply := None;
      var myHeight := chain.db.GetLatestHeight();
      var lastBlock := chain.db.GetBlockByHeight(myHeight);
      if lastBlock.None? {
        return;
      }
      var last := lastBlock.value.header;
      if b.height == myHeight + 1 && b.prevHash == last.hash {
        var ok := chain.AddBlock(Block(b, []));
        if ok {
          reply := Some(NewBlock(b));
          work := None;
        }
      } else if b.height == myHeight && b.prevHash == last.prevHash {
        var ok := chain.ReplaceLastBlock(Block(b, []), stamps);
        if ok {
          reply := Some(NewBlock(b));
          work := None;
        }
      } else if b.height > myHeight + 1 || (b.height == myHeight + 1 && b.prevHash != last.hash) {
        reply := Some(GetBlocks(myHeight + 1));
      }
    }

    method HandleGetBlocks(from: int) returns (reply: Option<Msg>)
      ensures Reaction(Table(), reply) == OnGetBlocks(Table(), from)
    {
      TopOfHeaders(chain.db.blocks);
      var currentHeight := chain.db.GetLatestHeight();
      var blocks: seq<Header> := [];
      var h := from;
      while h <= currentHeight
        invariant blocks + Snapshot(Table(), h, currentHeight) == Snapshot(Table(), from, currentHeight)
        invariant h <= currentHeight + 1 || blocks == []
        decreases currentHeight - h
      {
        var block := chain.db.GetBlockByHeight(h);
        if block.Some? {
          blocks := blocks + [block.value.header];
        }
        h := h + 1;
      }
      assert blocks == Snapshot(Table(), from, currentHeight);
      reply := if blocks == [] then None else Some(BlocksResponse(blocks));
    }

    method HandleBlocksResponse(headers: seq<Header>)
      requires chain.Valid()
      modifies chain, chain.db
      ensures chain.Valid() && chain.Contents() == AfterResponse(old(chain.Contents()), headers)
      ensures Table() == Absorb(old(Table()), headers)
    {
      for i := 0 to |headers|
        invariant chain.Valid() && chain.Contents() == AfterResponse(old(chain.Contents()), headers[..i])
      {
        assert headers[..i + 1][..i] == headers[..i];
        var b := headers[i];
        var height := chain.db.GetLatestHeight();
        if b.height > height {
          var _ := chain.AddBlock(Block(b, []));
        }
      }
      assert headers[..|headers|] == headers;
      ResponseOnHeaders(old(chain.Contents()), headers);
    }

    /** `handleMessage` on the three block messages; an accepted block also restarts the mining thread. */
    method HandleMessage(msg: Msg, stamps: Tx -> Stamp) returns (reply: Option<Msg>)
      requires chain.Valid()
      modifies this, chain, chain.db
      ensures chain.Valid() && Handled(Contents(), reply) == Handle(old(Contents()), msg, stamps)
      ensures Reaction(Table(), reply) == OnMessage(old(Table()), msg)
    {
      match msg {
        case NewBlock(b) =>
          reply := HandleNewBlock(b, stamps);
        case GetBlocks(from) =>
          reply := HandleGetBlocks(from);
        case BlocksResponse(headers) =>
          HandleBlocksResponse(headers);
          reply := None;
      }
    }

    /** What `mine_loop` does before the nonce loop. */
    method Begin(coinbaseHash: Hash, now: int)
      requires chain.Valid()
      modifies this, chain
      ensures chain.Valid() && Contents() == Started(chain.sha, old(Contents()), id, coinbaseHash, now)
      ensures old(chain.pool) == map[] ==> Contents() == old(Contents())
      ensures old(chain.pool) != map[] ==>
        && work.Some? && targetHeight == Top(chain.db.blocks) + 1
        && (0 <= Top(chain.db.blocks) && Top(chain.db.blocks) in chain.db.blocks ==> work.value.header.height == targetHeight)
    {
      TargetIsDraftHeight(chain.Contents(), chain.sha, id, coinbaseHash, now);
      if chain.pool == map[] {
        return;
      }
      var height := chain.db.GetLatestHeight();
      targetHeight := height + 1;
      var block := chain.CreateBlock(id, coinbaseHash, now);
      work := Some(block);
    }

    /** One pass of the nonce loop; between two passes blocks may arrive, so the tip may have changed since the draft. */
    method TryNonce(nonce: int) returns (reply: Option<Msg>)
      requires chain.Valid() && work.Some?
      modifies this, chain, chain.db
      ensures chain.Valid() && targetHeight == old(targetHeight)
      ensures var struck := Strike(old(Contents()), targetHeight, nonce, Mining.Seal(chain.sha, old(work.value.header), nonce).hash);
        Contents() == struck.peer && reply == struck.reply
      ensures old(Top(chain.db.blocks)) >= targetHeight ==> work == None && reply == None && chain.Contents() == old(chain.Contents())
      ensures old(Top(chain.db.blocks)) < targetHeight ==>
        var h := old(work.value.header);
        var hash := Mining.Seal(chain.sha, h, nonce).hash;
        work.None? <==> 0 <= h.difficulty <= |hash| && forall i :: 0 <= i < h.difficulty ==> hash[i] == '0'
    {
      TargetByCharacters(Mining.Seal(chain.sha, work.value.header, nonce).hash, work.value.header.difficulty);
      hide MeetsTarget, Append, Mining.HashedText;
      reply := None;
      var newHeader := Mining.Seal(chain.sha, work.value.header, nonce);
      var current := chain.db.GetLatestHeight();
      if current >= targetHeight {
        work := None;
        return;
      }
      if MeetsTarget(newHeader.hash, newHeader.difficulty) {
        var ok := chain.AddBlock(Block(newHeader, work.value.txs));
        if ok {
          reply := Some(NewBlock(newHeader));
        }
        work := None;
      }
    }

    /** One pass of `mine_loop` in which nothing arrives: clean up, draft, search for the least nonce that hits, append,
        broadcast.  `nonce` is the nonce found, or the limit if there is none below it. */
    method MineOnce(coinbaseHash: Hash, now: int) returns (reply: Option<Msg>, ghost nonce: int)
      requires chain.Valid()
      modifies this, chain, chain.db
      ensures chain.Valid()
      ensures var cleaned := Clean(old(chain.Contents()));
        if cleaned.pool == map[] then chain.Contents() == cleaned && reply == None
        else
          var draft := Chain.Draft(cleaned, chain.sha, id, coinbaseHash, now);
          var h := draft.block.header;
          && 0 <= nonce <= 1000000 && work == None
          && (forall j :: 0 <= j < nonce ==> !Mining.Hits(chain.sha, h, j))
          && (nonce == 1000000 ==> chain.Contents() == draft.state && reply == None)
          && (nonce < 1000000 ==>
                var sealed := Mining.Seal(chain.sha, h, nonce);
                var r := Append(draft.state, Block(sealed, draft.block.txs));
                && Mining.Hits(chain.sha, h, nonce)
                && chain.Contents() == r.state
                && reply == (if r.ok then Some(NewBlock(sealed)) else None))
    {
      hide Append, Clean, Chain.Draft, MeetsTarget, Top;
      reply, nonce := None, 0;
      var _ := chain.CleanMempool();
      if chain.pool == map[] {
        return;
      }
      Begin(coinbaseHash, now);
      ghost var drafted, block := chain.Contents(), work.value;
      var n := 0;
      while n < MAX_NONCE
        invariant 0 <= n <= MAX_NONCE && nonce == n && reply == None
        invariant chain.Valid() && Contents() == Peer(drafted, Some(block)) && Top(drafted.db.blocks) < targetHeight
        invariant forall j :: 0 <= j < n ==> !Mining.Hits(chain.sha, block.header, j)
      {
        reply := TryNonce(n);
        if work.None? {
          return;
        }
        n, nonce := n + 1, n + 1;
      }
      work := None;
    }
  }
}
