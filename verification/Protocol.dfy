/** How one node's header chain reacts to blocks and messages.  A node's chain is the `blocks` table
    seen through its header columns, keyed by the UNIQUE height. */
module Protocol {
  import opened Types
  import Difficulty

  type Table = map<int, Header>

  datatype Put = Put(table: Table, ok: bool)

  datatype Msg =
    | NewBlock(header: Header)
    | GetBlocks(from: int)
    | BlocksResponse(headers: seq<Header>)

  datatype Reaction = Reaction(table: Table, reply: Option<Msg>)

  // ---------- what the code does ----------

  /** INSERT INTO blocks, with UNIQUE (height) and UNIQUE (hash). */
  function Insert(table: Table, b: Header): Put {
    if b.height in table || exists k | k in table :: table[k].hash == b.hash then Put(table, false)
    else Put(table[b.height := b], true)
  }

  /** Nothing here compares the new height with the tip's height plus one. */
  function AddBlock(table: Table, b: Header): Put {
    var current := Top(table);
    if b.height <= current then Put(table, false)
    else if b.height > 0 && (current !in table || table[current].hash != b.prevHash) then Put(table, false)
    else Insert(table, b)
  }

  /** The old tip is deleted before the new block is inserted, so a failing insert loses it. */
  function ReplaceLast(table: Table, b: Header): Put {
    var current := Top(table);
    if current != b.height then Put(table, false)
    else if current !in table || table[current].prevHash != b.prevHash then Put(table, false)
    else Insert(table - {current}, b)
  }

  /** The header `createBlock` prepares, before a nonce is searched for. */
  function Draft(table: Table, miner: string, root: Hash, now: int): Header {
    var last := Top(table);
    var (height, prev) := if 0 <= last && last in table then (last + 1, table[last].hash) else (0, "0");
    Header(height, "", prev, root, now, 0, Difficulty.Current(table), miner)
  }

  function OnNewBlock(table: Table, b: Header): Reaction {
    var my := Top(table);
    if my !in table then Reaction(table, None)
    else if b.height == my + 1 && b.prevHash == table[my].hash then
      var put := AddBlock(table, b);
      Reaction(put.table, if put.ok then Some(NewBlock(b)) else None)
    else if b.height == my && b.prevHash == table[my].prevHash then
      var put := ReplaceLast(table, b);
      Reaction(put.table, if put.ok then Some(NewBlock(b)) else None)
    else if b.height > my + 1 || (b.height == my + 1 && b.prevHash != table[my].hash) then
      Reaction(table, Some(GetBlocks(my + 1)))
    else Reaction(table, None)
  }

  /** The request of the periodic synchronisation. */
  function SyncRequest(table: Table): Msg {
    GetBlocks(Top(table) + 1)
  }

  /** The stored headers of the heights `from` to `last`. */
  function Snapshot(table: Table, from: int, last: int): seq<Header>
    decreases last - from
  {
    if last < from then []
    else (if from in table then [table[from]] else []) + Snapshot(table, from + 1, last)
  }

  function OnGetBlocks(table: Table, from: int): Reaction {
    var blocks := Snapshot(table, from, Top(table));
    Reaction(table, if blocks == [] then None else Some(BlocksResponse(blocks)))
  }

  /** A sync response is taken in block by block. */
  function Absorb(table: Table, headers: seq<Header>): Table
    decreases |headers|
  {
    if headers == [] then table
    else if headers[0].height <= Top(table) then Absorb(table, headers[1..])
    else Absorb(AddBlock(table, headers[0]).table, headers[1..])
  }

  function OnMessage(table: Table, msg: Msg): Reaction {
    match msg
    case NewBlock(b) => OnNewBlock(table, b)
    case GetBlocks(from) => OnGetBlocks(table, from)
    case BlocksResponse(headers) => Reaction(Absorb(table, headers), None)
  }

  // ---------- what a healthy chain is ----------

  ghost predicate Known(mined: set<Header>, h: Header) {
    h in mined || h == GenesisHeader(h.timestamp)
  }

  ghost predicate HasParent(mined: set<Header>, h: Header) {
    exists p :: Known(mined, p) && p.hash == h.prevHash && p.height + 1 == h.height
  }

  /** Mined blocks form a tree rooted at genesis, carry one of the legal difficulties and meet it. */
  ghost predicate Tree(mined: set<Header>) {
    && (forall h {:trigger HasParent(mined, h)} :: h in mined ==> HasParent(mined, h))
    && (forall h :: h in mined ==>
          h.height >= 1 && Difficulty.Legal(h.difficulty) && MeetsTarget(h.hash, h.difficulty))
  }

  /** The only thing asked of the hash function: among the blocks of a run (genesis rows included), two
      headers with the same hash have the same height and the same parent hash. */
  ghost predicate CollisionFree(mined: set<Header>) {
    forall a, b :: Known(mined, a) && Known(mined, b) && a.hash == b.hash
      ==> a.height == b.height && a.prevHash == b.prevHash
  }

  /** Needed where a whole header must be known from its hash: no two mined headers share one. */
  ghost predicate ToldApart(mined: set<Header>) {
    forall x, y :: x in mined && y in mined && x.hash == y.hash ==> x == y
  }

  ghost predicate Link(table: Table, k: int) {
    k in table && k - 1 in table && table[k].prevHash == table[k - 1].hash
  }

  /** Heights run from 0 to the tip without a gap, a genesis row at 0, each block naming its predecessor's hash. */
  ghost predicate Linked(mined: set<Header>, table: Table) {
    && (forall k :: k in table <==> 0 <= k <= Top(table))
    && table[0] == GenesisHeader(table[0].timestamp)
    && (forall k :: k in table ==> table[k].height == k && Known(mined, table[k]))
    && (forall k :: k in table && k > 0 ==> table[k] in mined)
    && (forall k {:trigger Link(table, k)} :: 0 < k <= Top(table) ==> Link(table, k))
  }

  /** The height does not drop and everything below the old tip stays. */
  ghost predicate Grows(table: Table, table': Table) {
    && Top(table) <= Top(table')
    && (forall k :: k in table && k < Top(table) ==> k in table' && table'[k] == table[k])
  }

  // ---------- single steps on a healthy chain ----------

  lemma GenesisLinked(mined: set<Header>, time: int)
    ensures Linked(mined, map[0 := GenesisHeader(time)])
  {
    assert 0 in map[0 := GenesisHeader(time)];
  }

  lemma LinkedMonotone(mined: set<Header>, mined': set<Header>, table: Table)
    requires mined <= mined' && Linked(mined, table)
    ensures Linked(mined', table)
  {
  }

  lemma HasParentMonotone(mined: set<Header>, mined': set<Header>, h: Header, h': Header)
    requires mined <= mined' && HasParent(mined, h) && h.prevHash == h'.prevHash && h.height == h'.height
    ensures HasParent(mined', h')
  {
    var p :| Known(mined, p) && p.hash == h.prevHash && p.height + 1 == h.height;
    assert Known(mined', p);
  }

  /** A mined block that names the tip's hash is exactly one above the tip. */
  lemma ChildOfTip(mined: set<Header>, table: Table, b: Header)
    requires CollisionFree(mined) && Tree(mined) && Linked(mined, table) && b in mined
    requires b.prevHash == table[Top(table)].hash
    ensures b.height == Top(table) + 1
  {
    assert HasParent(mined, b);
    var p :| Known(mined, p) && p.hash == b.prevHash && p.height + 1 == b.height;
    assert Known(mined, table[Top(table)]);
  }

  /** A mined block's hash is stored nowhere but at its own height. */
  lemma HashNotStored(mined: set<Header>, table: Table, b: Header, k: int)
    requires CollisionFree(mined) && Linked(mined, table) && b in mined
    requires k in table && k != b.height
    ensures table[k].hash != b.hash
  {
    assert Known(mined, b) && Known(mined, table[k]);
  }

  lemma PutOnTop(mined: set<Header>, table: Table, b: Header, top: int)
    requires Linked(mined, table) && b in mined && b.height == top
    requires 0 < top && Top(table) <= top <= Top(table) + 1
    requires b.prevHash == table[top - 1].hash
    ensures Linked(mined, table[top := b]) && Top(table[top := b]) == top
    ensures Grows(table, table[top := b])
  {
    var table' := table[top := b];
    assert top in table';
    forall k | 0 < k <= top
      ensures Link(table', k)
    {
      assert k < top ==> Link(table, k);
    }
  }

  /** Although the code never compares the height with the tip's height plus one, an accepted block is
      exactly that, and it is accepted exactly when it names the tip as its parent. */
  lemma AddKeepsLinked(mined: set<Header>, table: Table, b: Header)
    requires CollisionFree(mined) && Tree(mined) && Linked(mined, table) && b in mined
    ensures var put := AddBlock(table, b);
      && put.ok == (b.prevHash == table[Top(table)].hash)
      && put.table == (if put.ok then table[b.height := b] else table)
      && (put.ok ==> b.height == Top(table) + 1 && Top(put.table) == b.height)
      && Linked(mined, put.table) && Grows(table, put.table)
  {
    if b.prevHash == table[Top(table)].hash {
      ChildOfTip(mined, table, b);
      forall k | k in table
        ensures table[k].hash != b.hash
      {
        HashNotStored(mined, table, b, k);
      }
      PutOnTop(mined, table, b, b.height);
    }
  }

  /** Under the same assumption the delete-then-insert of a replacement never loses the tip. */
  lemma ReplaceKeepsLinked(mined: set<Header>, table: Table, b: Header)
    requires CollisionFree(mined) && Tree(mined) && Linked(mined, table) && b in mined
    ensures var put := ReplaceLast(table, b);
      && put.ok == (b.height == Top(table) && b.prevHash == table[Top(table)].prevHash)
      && put.table == (if put.ok then table[b.height := b] else table)
      && Top(put.table) == Top(table)
      && Linked(mined, put.table) && Grows(table, put.table)
  {
    var top := Top(table);
    if b.height == top && b.prevHash == table[top].prevHash {
      forall k | k in table && k != top
        ensures table[k].hash != b.hash
      {
        HashNotStored(mined, table, b, k);
      }
      assert Link(table, top);
      PutOnTop(mined, table, b, top);
      assert (table - {top})[top := b] == table[top := b];
    }
  }

  /** What a broadcast does to a healthy chain: a child of the tip, or a block with the tip's height and parent, is stored and
      passed on; any other that is higher is answered by asking for all that is missing, and the rest is ignored. */
  lemma BroadcastEffect(mined: set<Header>, table: Table, b: Header)
    requires CollisionFree(mined) && Tree(mined) && Linked(mined, table) && b in mined
    ensures var top := Top(table);
      var takes := b.prevHash == table[top].hash || (b.height == top && b.prevHash == table[top].prevHash);
      OnNewBlock(table, b) ==
        if takes then Reaction(table[b.height := b], Some(NewBlock(b)))
        else Reaction(table, if b.height > top then Some(GetBlocks(top + 1)) else None)
  {
    hide CollisionFree, Tree;
    AddKeepsLinked(mined, table, b);
    ReplaceKeepsLinked(mined, table, b);
    hide AddBlock, ReplaceLast, Grows, HasParent, Known;
  }

  lemma GrowsTransitive(mined: set<Header>, a: Table, b: Table, c: Table)
    requires Linked(mined, a) && Grows(a, b) && Grows(b, c)
    ensures Grows(a, c)
  {
  }

  lemma {:induction false} AbsorbKeepsLinked(mined: set<Header>, table: Table, headers: seq<Header>)
    requires CollisionFree(mined) && Tree(mined) && Linked(mined, table)
    requires forall i :: 0 <= i < |headers| ==> Known(mined, headers[i])
    ensures Linked(mined, Absorb(table, headers)) && Grows(table, Absorb(table, headers))
    decreases |headers|
  {
    if headers != [] {
      var b := headers[0];
      assert Known(mined, b);
      if b.height <= Top(table) {
        AbsorbKeepsLinked(mined, table, headers[1..]);
      } else {
        AddKeepsLinked(mined, table, b);
        var next := AddBlock(table, b).table;
        AbsorbKeepsLinked(mined, next, headers[1..]);
        GrowsTransitive(mined, table, next, Absorb(next, headers[1..]));
      }
    }
  }

  lemma {:induction false} SnapshotKnown(mined: set<Header>, table: Table, from: int, last: int)
    requires Linked(mined, table)
    ensures forall i :: 0 <= i < |Snapshot(table, from, last)| ==> Known(mined, Snapshot(table, from, last)[i])
    decreases last - from
  {
    if from <= last {
      SnapshotKnown(mined, table, from + 1, last);
    }
  }

  /** On a healthy chain the fallback for missing blocks is never taken. */
  lemma DifficultyOfLinked(mined: set<Header>, table: Table)
    requires Tree(mined) && Linked(mined, table)
    ensures var top := Top(table);
      Difficulty.Current(table)
      == if top < 10 then 4
         else Difficulty.Retarget(table[top].difficulty, table[top].timestamp - table[top - 9].timestamp)
    ensures Difficulty.Legal(Difficulty.Current(table))
  {
    var top := Top(table);
    if top >= Difficulty.INTERVAL {
      assert table[top] in mined;
      assert top - Difficulty.INTERVAL + 1 in table;
      Difficulty.RetargetLegal(table[top].difficulty, table[top].timestamp - table[top - 9].timestamp);
    }
  }

  /** A draft always extends the tip it was made from: the fallback of `createBlock` is never taken on a healthy
      chain. */
  lemma DraftExtendsTip(mined: set<Header>, table: Table, miner: string, root: Hash, now: int)
    requires Tree(mined) && Linked(mined, table)
    ensures var d := Draft(table, miner, root, now);
      && 1 <= d.height == Top(table) + 1 && d.prevHash == table[Top(table)].hash
      && d.timestamp == now && d.merkleRoot == root && d.minedBy == miner && d.nonce == 0 && d.hash == ""
      && HasParent(mined, d) && Difficulty.Legal(d.difficulty)
  {
    DifficultyOfLinked(mined, table);
    hide Difficulty.Current, Difficulty.Legal;
    assert Known(mined, table[Top(table)]);
  }

  lemma {:induction false} AbsorbInTurn(table: Table, before: seq<Header>, after: seq<Header>)
    ensures Absorb(table, before + after) == Absorb(Absorb(table, before), after)
    decreases |before|
  {
    hide AddBlock;
    if before == [] {
      assert before + after == after;
    } else {
      assert (before + after)[0] == before[0] && (before + after)[1..] == before[1..] + after;
      AbsorbInTurn(if before[0].height <= Top(table) then table else AddBlock(table, before[0]).table, before[1..], after);
    }
  }

  /** Each block of a batch counts for itself: one that is higher than the tip and names it is stored, any other leaves no
      trace, and those after it are taken in just as well. */
  lemma AbsorbBlockByBlock(mined: set<Header>, table: Table, before: seq<Header>, b: Header, after: seq<Header>)
    requires CollisionFree(mined) && Tree(mined) && Linked(mined, table)
    requires Known(mined, b) && forall i :: 0 <= i < |before| ==> Known(mined, before[i])
    ensures var t := Absorb(table, before);
      && Top(t) in t
      && Absorb(table, before + [b] + after)
         == Absorb(if b.height > Top(t) && b.prevHash == t[Top(t)].hash then t[b.height := b] else t, after)
  {
    hide CollisionFree, Tree, Absorb, AddBlock;
    AbsorbKeepsLinked(mined, table, before);
    var t := Absorb(table, before);
    AbsorbInTurn(table, before + [b], after);
    AbsorbInTurn(table, before, [b]);
    OneBlock(t, b);
    if b.height > Top(t) {
      AddKeepsLinked(mined, t, b);
    }
  }

  lemma OneBlock(t: Table, b: Header)
    ensures Absorb(t, [b]) == if b.height <= Top(t) then t else AddBlock(t, b).table
  {
    hide AddBlock;
    assert [b][1..] == [];
  }

  // ---------- what the missing checks would allow ----------

  /** Without its genesis row a node takes no block any more. */
  lemma EmptyStaysEmpty(b: Header)
    ensures AddBlock(map[], b) == ReplaceLast(map[], b) == Put(map[], false)
  {
  }

  /** On its own `addBlock` takes any higher block that names the tip: the chain stays gap-free exactly when
      the block happens to be one above the tip. */
  lemma GapExactlyWhenNotNext(mined: set<Header>, table: Table, b: Header)
    requires Linked(mined, table)
    requires b.prevHash == table[Top(table)].hash
    requires forall k :: k in table ==> table[k].hash != b.hash
    ensures var put := AddBlock(table, b);
      && put.ok == (b.height > Top(table))
      && (put.ok ==> ((forall k :: 0 <= k <= Top(put.table) ==> k in put.table) <==> b.height == Top(table) + 1))
  {
    var put := AddBlock(table, b);
    if put.ok {
      assert b.height in put.table && Top(put.table) == b.height;
      assert b.height > Top(table) + 1 ==> Top(table) + 1 !in put.table;
    }
  }

  /** On a chain with such a gap the window can miss its first block; the difficulty is then 2, whatever it was. */
  lemma GapResetsDifficulty(table: Table)
    requires Top(table) >= 10 && Top(table) - 9 !in table
    ensures Difficulty.Current(table) == 2
  {
  }

  /** On its own a replacement loses the tip, and with it one block of height, exactly when the competing block
      repeats the hash of a block below. */
  lemma TipLostExactlyOnRepeatedHash(mined: set<Header>, table: Table, b: Header)
    requires Linked(mined, table) && Top(table) > 0
    requires b.height == Top(table) && b.prevHash == table[Top(table)].prevHash
    ensures var put := ReplaceLast(table, b);
      && put.ok == !(exists k :: k in table && k < Top(table) && table[k].hash == b.hash)
      && Top(put.table) == Top(table) - (if put.ok then 0 else 1)
      && (!put.ok ==> put.table == table - {Top(table)})
  {
    var top := Top(table);
    var put := ReplaceLast(table, b);
    assert top - 1 in table - {top};
    assert forall k :: k in table - {top} <==> k in table && k < top;
    assert put.ok <==> !exists k | k in table - {top} :: (table - {top})[k].hash == b.hash;
    if put.ok {
      assert top in put.table;
    }
  }
}
