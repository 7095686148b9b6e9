/** The whole system: nodes that keep ledgers, admit transactions, mine and exchange messages.  Seen on the headers it is
    the machine of `Network`, so what that one keeps holds here, and the ledgers are in turn what its mining and its
    messages make of them. */
module LedgerNetwork {
  import opened Types
  import opened Ledger
  import opened LedgerLaws
  import opened Pool
  import opened Chain
  import opened ChainRuns
  import opened Settlement
  import opened Protocol
  import Replacement
  import Draining
  import Merkle
  import Network

  // ---------- a ledger's reaction to messages ----------

  /** The ledger after a NEW_BLOCK message; a broadcast brings no transactions. */
  function AfterNewBlock(st: State, b: Header, stamps: Tx -> Stamp): State {
    var my := Top(st.db.blocks);
    if my !in st.db.blocks then st
    else if b.height == my + 1 && b.prevHash == st.db.blocks[my].header.hash then Append(st, Block(b, [])).state
    else if b.height == my && b.prevHash == st.db.blocks[my].header.prevHash then
      Chain.Replace(st, Block(b, []), stamps).state
    else st
  }

  /** The ledger after a sync response. */
  function AfterResponse(st: State, headers: seq<Header>): State {
    if headers == [] then st
    else
      var before, b := AfterResponse(st, headers[..|headers| - 1]), headers[|headers| - 1];
      if b.height <= Top(before.db.blocks) then before else Append(before, Block(b, [])).state
  }

  lemma {:induction false} AbsorbLast(table: Table, headers: seq<Header>, b: Header)
    ensures Absorb(table, headers + [b])
      == var before := Absorb(table, headers); if b.height <= Top(before) then before else AddBlock(before, b).table
    decreases |headers|
  {
    hide AddBlock;
    var all := headers + [b];
    if headers == [] {
      assert all[1..] == [];
    } else {
      assert all[1..] == headers[1..] + [b];
      AbsorbLast(if headers[0].height <= Top(table) then table else AddBlock(table, headers[0]).table, headers[1..], b);
    }
  }

  /** On the headers, the handlers are those of the protocol. */
  lemma {:induction false} ResponseOnHeaders(st: State, headers: seq<Header>)
    ensures Headers(AfterResponse(st, headers).db.blocks) == Absorb(Headers(st.db.blocks), headers)
    decreases |headers|
  {
    if headers != [] {
      var init, b := headers[..|headers| - 1], headers[|headers| - 1];
      assert headers == init + [b];
      var before := AfterResponse(st, init);
      ResponseOnHeaders(st, init);
      AbsorbLast(Headers(st.db.blocks), init, b);
      TopOfHeaders(before.db.blocks);
      OperationsOnHeaders(before, Block(b, []), (tx: Tx) => Stamp(0, 0));
      hide Append, AddBlock, Absorb, ReplaceLast, Chain.Replace;
    }
  }

  lemma NewBlockOnHeaders(st: State, b: Header, stamps: Tx -> Stamp)
    ensures Headers(AfterNewBlock(st, b, stamps).db.blocks) == OnNewBlock(Headers(st.db.blocks), b).table
  {
    TopOfHeaders(st.db.blocks);
    OperationsOnHeaders(st, Block(b, []), stamps);
    hide Append, AddBlock, ReplaceLast, Chain.Replace;
  }

  /** The ledger after any message; requests leave it alone. */
  function AfterMessage(st: State, msg: Msg, stamps: Tx -> Stamp): State {
    match msg
    case NewBlock(b) => AfterNewBlock(st, b, stamps)
    case GetBlocks(_) => st
    case BlocksResponse(headers) => AfterResponse(st, headers)
  }

  lemma MessageOnHeaders(st: State, msg: Msg, stamps: Tx -> Stamp)
    ensures Headers(AfterMessage(st, msg, stamps).db.blocks) == OnMessage(Headers(st.db.blocks), msg).table
  {
    hide OnNewBlock, Absorb, AfterNewBlock, AfterResponse, Snapshot;
    match msg
    case NewBlock(b) => NewBlockOnHeaders(st, b, stamps);
    case GetBlocks(_) =>
    case BlocksResponse(headers) => ResponseOnHeaders(st, headers);
  }

  // ---------- the system ----------

  /** `work` is the drafted block the mining thread is searching a nonce for. */
  datatype Peer = Peer(ledger: State, work: Option<Block>)

  datatype World = World(peers: map<Network.NodeId, Peer>, sent: set<Msg>, mined: set<Header>)

  /** A transaction may be submitted to any node at any time, over HTTP or by another node. */
  datatype Act =
    | Submit(n: Network.NodeId, tx: Tx, stamp: Stamp)
    | Tidy(n: Network.NodeId)
    | Begin(n: Network.NodeId, coinbaseHash: Hash, now: int)
    | Try(n: Network.NodeId, nonce: int, hash: Hash)
    | Stop(n: Network.NodeId)
    | Ask(n: Network.NodeId)
    | Receive(n: Network.NodeId, msg: Msg, stamps: Tx -> Stamp)
    | Drop(msg: Msg)

  function Genesis(clocks: map<Network.NodeId, int>): World {
    World(map n | n in clocks :: Peer(ChainRuns.Init(clocks[n]), None), {}, {})
  }

  /** What the mining thread does before it searches: nothing is drafted from an empty mempool. */
  function Started(sha: Merkle.Digest, p: Peer, n: Network.NodeId, coinbaseHash: Hash, now: int): Peer {
    if p.ledger.pool == map[] then p
    else
      var d := Chain.Draft(p.ledger, sha, n, coinbaseHash, now);
      Peer(d.state, Some(d.block))
  }

  /** `found` holds the header whose hash met the target. */
  datatype Struck = Struck(peer: Peer, reply: Option<Msg>, found: set<Header>)

  /** The height the mining thread aims at is that of its draft, unless the `blocks` table is empty. */
  lemma TargetIsDraftHeight(st: State, sha: Merkle.Digest, miner: string, coinbaseHash: Hash, now: int)
    ensures Chain.Draft(st, sha, miner, coinbaseHash, now).block.header.height
      == if Top(st.db.blocks) in st.db.blocks && Top(st.db.blocks) >= 0 then Top(st.db.blocks) + 1 else 0
  {
    TopOfHeaders(st.db.blocks);
    hide Selection, Merkle.Root;
  }

  /** One pass of the nonce loop whose header hashed to `hash`; it stops once the chain is as high as `target`. */
  function Strike(p: Peer, target: int, nonce: int, hash: Hash): Struck
    requires p.work.Some?
  {
    var block := p.work.value;
    var header := block.header.(nonce := nonce, hash := hash);
    if Top(p.ledger.db.blocks) >= target then Struck(p.(work := None), None, {})
    else if !MeetsTarget(hash, header.difficulty) then Struck(p, None, {})
    else
      var r := Append(p.ledger, Block(header, block.txs));
      Struck(Peer(r.state, None), if r.ok then Some(NewBlock(header)) else None, {header})
  }

  datatype Handled = Handled(peer: Peer, reply: Option<Msg>)

  /** A node after a message: its ledger, whether its search goes on, and what it sends. */
  function Handle(p: Peer, msg: Msg, stamps: Tx -> Stamp): Handled {
    var reply := OnMessage(Headers(p.ledger.db.blocks), msg).reply;
    Handled(Peer(AfterMessage(p.ledger, msg, stamps), if reply.Some? && reply.value.NewBlock? then None else p.work), reply)
  }

  function Move(sha: Merkle.Digest, w: World, act: Act): World {
    if act.Drop? then w.(sent := w.sent - {act.msg})
    else if act.n !in w.peers then w else
    var p := w.peers[act.n];
    match act
    case Submit(n, tx, stamp) =>
      w.(peers := w.peers[n := p.(ledger := Admit(p.ledger, tx.(status := Pending), stamp).state)])
    case Tidy(n) =>
      w.(peers := w.peers[n := p.(ledger := Clean(p.ledger))])
    case Begin(n, coinbaseHash, now) =>
      w.(peers := w.peers[n := Started(sha, p, n, coinbaseHash, now)])
    case Try(n, nonce, hash) =>
      if p.work.None? then w else
      var struck := Strike(p, p.work.value.header.height, nonce, hash);
      World(w.peers[n := struck.peer], Network.Send(w.sent, struck.reply), w.mined + struck.found)
    case Stop(n) =>
      w.(peers := w.peers[n := p.(work := None)])
    case Ask(n) =>
      w.(sent := w.sent + {SyncRequest(Headers(p.ledger.db.blocks))})
    case Receive(n, msg, stamps) =>
      if msg !in w.sent then w else
      var received := Handle(p, msg, stamps);
      w.(peers := w.peers[n := received.peer], sent := Network.Send(w.sent, received.reply))
  }

  ghost predicate MoveAt(sha: Merkle.Digest, worlds: seq<World>, acts: seq<Act>, i: int) {
    0 <= i < |acts| < |worlds| && worlds[i + 1] == Move(sha, worlds[i], acts[i])
  }

  ghost predicate History(sha: Merkle.Digest, clocks: map<Network.NodeId, int>, worlds: seq<World>, acts: seq<Act>) {
    && |worlds| == |acts| + 1
    && worlds[0] == Genesis(clocks)
    && forall i {:trigger MoveAt(sha, worlds, acts, i)} :: 0 <= i < |acts| ==> MoveAt(sha, worlds, acts, i)
  }

  // ---------- seen on the headers ----------

  function HeadOf(p: Peer): Network.Node {
    Network.Node(Headers(p.ledger.db.blocks), if p.work.Some? then Some(p.work.value.header) else None)
  }

  function Heads(w: World): Network.Net {
    Network.Net(map n | n in w.peers :: HeadOf(w.peers[n]), w.sent, w.mined)
  }

  /** Steps on transactions alone, and a start with an empty mempool, do nothing to the headers. */
  function HeadStep(sha: Merkle.Digest, w: World, act: Act): Network.Step {
    match act
    case Submit(n, _, _) => Network.Local(n)
    case Tidy(n) => Network.Local(n)
    case Begin(n, coinbaseHash, now) =>
      if n !in w.peers || w.peers[n].ledger.pool == map[] then Network.Local(n)
      else Network.Start(n, Chain.Draft(w.peers[n].ledger, sha, n, coinbaseHash, now).block.header.merkleRoot, now)
    case Try(n, nonce, hash) => Network.Found(n, nonce, hash)
    case Stop(n) => Network.Quit(n)
    case Ask(n) => Network.Sync(n)
    case Receive(n, msg, _) => Network.Deliver(n, msg)
    case Drop(msg) => Network.Lose(msg)
  }

  lemma OnePeer(w: World, n: Network.NodeId, p: Peer)
    ensures Heads(w.(peers := w.peers[n := p])).nodes == Heads(w).nodes[n := HeadOf(p)]
  {
    hide HeadOf;
  }

  lemma AdmitKeepsBlocks(st: State, tx: Tx, stamp: Stamp)
    ensures Admit(st, tx, stamp).state.db.blocks == st.db.blocks
  {
  }

  lemma BeginOnHeads(sha: Merkle.Digest, w: World, n: Network.NodeId, coinbaseHash: Hash, now: int)
    requires n in w.peers
    ensures var act := Begin(n, coinbaseHash, now);
      Heads(Move(sha, w, act)) == Network.Apply(Heads(w), HeadStep(sha, w, act))
  {
    var p := w.peers[n];
    var d := Chain.Draft(p.ledger, sha, n, coinbaseHash, now);
    assert d.state.db == p.ledger.db;
    assert d.block.header == Protocol.Draft(Headers(p.ledger.db.blocks), n, d.block.header.merkleRoot, now);
    hide Chain.Draft, Protocol.Draft;
    OnePeer(w, n, Peer(d.state, Some(d.block)));
    OnePeer(w, n, p);
  }

  lemma TryOnHeads(sha: Merkle.Digest, w: World, n: Network.NodeId, nonce: int, hash: Hash)
    requires n in w.peers && w.peers[n].work.Some?
    ensures Heads(Move(sha, w, Try(n, nonce, hash))) == Network.Hit(Heads(w), n, nonce, hash)
  {
    var p := w.peers[n];
    var header := p.work.value.header.(nonce := nonce, hash := hash);
    var block := Block(header, p.work.value.txs);
    hide Append, AddBlock, Chain.Replace, ReplaceLast, MeetsTarget, Headers;
    TopOfHeaders(p.ledger.db.blocks);
    OperationsOnHeaders(p.ledger, block, (tx: Tx) => Stamp(0, 0));
    OnePeer(w, n, Peer(Append(p.ledger, block).state, None));
    OnePeer(w, n, p.(work := None));
    OnePeer(w, n, p);
  }

  lemma ReceiveOnHeads(sha: Merkle.Digest, w: World, n: Network.NodeId, msg: Msg, stamps: Tx -> Stamp)
    requires n in w.peers
    ensures Heads(Move(sha, w, Receive(n, msg, stamps))) == Network.Apply(Heads(w), Network.Deliver(n, msg))
  {
    var p := w.peers[n];
    MessageOnHeaders(p.ledger, msg, stamps);
    hide AfterMessage, OnMessage;
    OnePeer(w, n, Handle(p, msg, stamps).peer);
  }

  /** Every step of the whole system is, on the headers, a step of the header network. */
  lemma MoveOnHeads(sha: Merkle.Digest, w: World, act: Act)
    ensures Heads(Move(sha, w, act)) == Network.Apply(Heads(w), HeadStep(sha, w, act))
  {
    hide Admit, Clean, Append, AfterMessage, OnMessage, Chain.Draft, Strike, Started, Network.Hit;
    if !act.Drop? && act.n in w.peers {
      var n, p := act.n, w.peers[act.n];
      match act
      case Submit(_, tx, stamp) =>
        AdmitKeepsBlocks(p.ledger, tx.(status := Pending), stamp);
        OnePeer(w, n, p.(ledger := Admit(p.ledger, tx.(status := Pending), stamp).state));
      case Tidy(_) =>
        CleanKeepsDb(p.ledger);
        OnePeer(w, n, p.(ledger := Clean(p.ledger)));
      case Begin(_, coinbaseHash, now) => BeginOnHeads(sha, w, n, coinbaseHash, now);
      case Try(_, nonce, hash) => if p.work.Some? { TryOnHeads(sha, w, n, nonce, hash); }
      case Stop(_) => OnePeer(w, n, p.(work := None));
      case Ask(_) =>
      case Receive(_, msg, stamps) => ReceiveOnHeads(sha, w, n, msg, stamps);
    }
  }

  lemma GenesisOnHeads(clocks: map<Network.NodeId, int>)
    ensures Heads(Genesis(clocks)) == Network.Init(clocks)
  {
    forall n | n in clocks
      ensures HeadOf(Peer(ChainRuns.Init(clocks[n]), None)) == Network.Node(map[0 := GenesisHeader(clocks[n])], None)
    {
      FreshHead(clocks[n]);
    }
    hide HeadOf, ChainRuns.Init, GenesisHeader;
  }

  lemma FreshHead(time: int)
    ensures HeadOf(Peer(ChainRuns.Init(time), None)) == Network.Node(map[0 := GenesisHeader(time)], None)
  {
    assert Headers(GenesisDb(time).blocks) == map[0 := GenesisHeader(time)];
  }

  /** Hence every history of the system is a run of the header network. */
  lemma {:induction false} HistoryIsRun(sha: Merkle.Digest, clocks: map<Network.NodeId, int>, worlds: seq<World>, acts: seq<Act>)
    returns (states: seq<Network.Net>, steps: seq<Network.Step>)
    requires History(sha, clocks, worlds, acts)
    ensures Network.Run(clocks, states, steps) && |states| == |worlds|
    ensures forall i :: 0 <= i < |worlds| ==> states[i] == Heads(worlds[i])
    decreases |acts|
  {
    hide Move, Genesis, Heads, HeadStep, Network.Apply, Network.Init;
    if acts == [] {
      GenesisOnHeads(clocks);
      states, steps := [Heads(worlds[0])], [];
    } else {
      var last := |acts| - 1;
      HistoryPrefix(sha, clocks, worlds, acts, last);
      states, steps := HistoryIsRun(sha, clocks, worlds[..last + 1], acts[..last]);
      assert MoveAt(sha, worlds, acts, last);
      MoveOnHeads(sha, worlds[last], acts[last]);
      states, steps := Network.Longer(clocks, states, steps, HeadStep(sha, worlds[last], acts[last]));
    }
  }

  lemma HistoryPrefix(sha: Merkle.Digest, clocks: map<Network.NodeId, int>, worlds: seq<World>, acts: seq<Act>, i: nat)
    requires History(sha, clocks, worlds, acts) && i <= |acts|
    ensures History(sha, clocks, worlds[..i + 1], acts[..i])
  {
    hide Move, Genesis;
    var worlds', acts' := worlds[..i + 1], acts[..i];
    forall k | 0 <= k < |acts'|
      ensures MoveAt(sha, worlds', acts', k)
    {
      assert MoveAt(sha, worlds, acts, k);
    }
  }

  // ---------- what every step keeps on the ledgers ----------

  ghost predicate Healthy(st: State) {
    Sound(st) && Affordable(st) && Unsettled(st)
  }

  ghost predicate PeerHealthy(p: Peer) {
    Healthy(p.ledger) && (p.work.Some? ==> RewardsOnly(p.work.value.txs))
  }

  ghost predicate AllHealthy(w: World) {
    forall n :: n in w.peers ==> PeerHealthy(w.peers[n])
  }

  lemma OpHealthy(st: State, op: Op)
    requires Healthy(st) && Gentle(st, op) && Proper(op)
    ensures Healthy(Do(st, op))
  {
    hide Sound, Affordable, Unsettled, Do;
    StepSound(st, op);
    StepAffordable(st, op);
    StepUnsettled(st, op);
  }

  lemma AppendHealthy(st: State, block: Block)
    requires Healthy(st) && RewardsOnly(block.txs)
    ensures Healthy(Append(st, block).state)
  {
    hide Healthy, Append, RewardsOnly;
    OpHealthy(st, AppendBlock(block));
  }

  lemma NewBlockHealthy(mined: set<Header>, st: State, b: Header, stamps: Tx -> Stamp)
    requires CollisionFree(mined) && Tree(mined) && Linked(mined, Headers(st.db.blocks)) && b in mined
    requires Healthy(st)
    ensures Healthy(AfterNewBlock(st, b, stamps))
  {
    var block := Block(b, []);
    MinedReplacementIsGentle(st, block, stamps, mined);
    hide Healthy, Append, Chain.Replace, Linked, CollisionFree, Tree, Gentle;
    AppendHealthy(st, block);
    OpHealthy(st, ReplaceTip(block, stamps));
  }

  lemma {:induction false} ResponseHealthy(st: State, headers: seq<Header>)
    requires Healthy(st)
    ensures Healthy(AfterResponse(st, headers))
    decreases |headers|
  {
    hide Healthy, Append;
    if headers != [] {
      ResponseHealthy(st, headers[..|headers| - 1]);
      AppendHealthy(AfterResponse(st, headers[..|headers| - 1]), Block(headers[|headers| - 1], []));
    }
  }

  lemma MessageHealthy(mined: set<Header>, st: State, msg: Msg, stamps: Tx -> Stamp)
    requires CollisionFree(mined) && Tree(mined) && Linked(mined, Headers(st.db.blocks)) && Network.MsgOk(mined, msg)
    requires Healthy(st)
    ensures Healthy(AfterMessage(st, msg, stamps))
  {
    hide Healthy, AfterNewBlock, AfterResponse, Linked, CollisionFree, Tree, Headers;
    match msg
    case NewBlock(b) => NewBlockHealthy(mined, st, b, stamps);
    case GetBlocks(_) =>
    case BlocksResponse(headers) => ResponseHealthy(st, headers);
  }

  /** A step of one node keeps its ledger healthy, and its draft free of confirmed transfers. */
  lemma PeerStaysHealthy(sha: Merkle.Digest, w: World, act: Act)
    requires Network.Safe(Heads(w)) && CollisionFree(w.mined) && !act.Drop? && act.n in w.peers && PeerHealthy(w.peers[act.n])
    ensures PeerHealthy(Move(sha, w, act).peers[act.n])
  {
    var n, p := act.n, w.peers[act.n];
    hide Healthy, Network.Safe, CollisionFree, RewardsOnly, Heads, Linked, Tree, Network.MsgOk, Headers,
         Admit, Clean, Chain.Draft, Append, MeetsTarget, AfterMessage, OnMessage, SyncRequest, Top;
    match act
    case Submit(_, tx, stamp) => OpHealthy(p.ledger, Admission(tx.(status := Pending), stamp));
    case Tidy(_) => OpHealthy(p.ledger, CleanUp);
    case Begin(_, coinbaseHash, now) =>
      OpHealthy(p.ledger, DraftBlock(sha, n, coinbaseHash, now));
      DraftedHealthy(p.ledger, sha, n, coinbaseHash, now);
    case Try(_, nonce, hash) =>
      if p.work.Some? {
        AppendHealthy(p.ledger, Block(p.work.value.header.(nonce := nonce, hash := hash), p.work.value.txs));
      }
    case Stop(_) =>
    case Ask(_) =>
    case Receive(_, msg, stamps) =>
      if msg in w.sent {
        SafeOnHeads(w, n, msg);
        MessageHealthy(w.mined, p.ledger, msg, stamps);
      }
  }

  lemma DraftedHealthy(st: State, sha: Merkle.Digest, miner: string, coinbaseHash: Hash, now: int)
    requires Healthy(st)
    ensures RewardsOnly(Chain.Draft(st, sha, miner, coinbaseHash, now).block.txs)
  {
    hide Sound, Affordable, Unsettled, Chain.Draft, RewardsOnly;
    DraftIsProper(st, sha, miner, coinbaseHash, now);
  }

  lemma SafeOnHeads(w: World, n: Network.NodeId, msg: Msg)
    requires Network.Safe(Heads(w)) && n in w.peers && msg in w.sent
    ensures Tree(w.mined) && Linked(w.mined, Headers(w.peers[n].ledger.db.blocks)) && Network.MsgOk(w.mined, msg)
  {
    hide Linked, Network.MsgOk, Tree, Headers;
    assert Heads(w).nodes[n] == HeadOf(w.peers[n]);
  }

  lemma MoveHealthy(sha: Merkle.Digest, w: World, act: Act)
    requires Network.Safe(Heads(w)) && CollisionFree(w.mined) && AllHealthy(w)
    ensures AllHealthy(Move(sha, w, act))
  {
    hide PeerHealthy, Network.Safe, CollisionFree;
    if !act.Drop? && act.n in w.peers {
      PeerStaysHealthy(sha, w, act);
      MoveIsLocal(sha, w, act);
      hide Move;
    }
  }

  lemma MoveIsLocal(sha: Merkle.Digest, w: World, act: Act)
    ensures var w' := Move(sha, w, act);
      w'.peers.Keys == w.peers.Keys && forall m :: m in w.peers && (act.Drop? || m != act.n) ==> w'.peers[m] == w.peers[m]
  {
    hide Admit, Clean, Chain.Draft, Append, AfterMessage, OnMessage, MeetsTarget;
  }

  lemma GenesisHealthy(clocks: map<Network.NodeId, int>)
    ensures AllHealthy(Genesis(clocks))
  {
    forall n | n in clocks
      ensures PeerHealthy(Genesis(clocks).peers[n])
    {
      GenesisSound(clocks[n]);
      RunUnsettled(clocks[n], []);
      hide Sound, Unsettled;
    }
  }

  /** What both layers keep in every history. */
  lemma {:induction false} HistoryHealthy(sha: Merkle.Digest, clocks: map<Network.NodeId, int>, worlds: seq<World>, acts: seq<Act>, i: nat)
    requires History(sha, clocks, worlds, acts) && i < |worlds| && CollisionFree(worlds[i].mined)
    ensures AllHealthy(worlds[i]) && Network.Safe(Heads(worlds[i])) && worlds[i].peers.Keys == clocks.Keys
    decreases i
  {
    hide AllHealthy, CollisionFree, Network.Safe, Move, Network.Init, Network.Run, Network.Apply;
    var states, steps := HistoryIsRun(sha, clocks, worlds, acts);
    Network.RunSafe(clocks, states, steps, i, i);
    assert worlds[i].peers.Keys == Heads(worlds[i]).nodes.Keys;
    if i == 0 {
      GenesisHealthy(clocks);
    } else {
      assert MoveAt(sha, worlds, acts, i - 1);
      Network.RunSafe(clocks, states, steps, i - 1, i);
      assert states[i - 1] == Heads(worlds[i - 1]);
      HistoryHealthy(sha, clocks, worlds, acts, i - 1);
      MoveHealthy(sha, worlds[i - 1], acts[i - 1]);
    }
  }

  // ---------- results about whole histories ----------

  /** On every node, at every moment, whatever was submitted, mined, delivered or replaced anywhere: the chain is
      gap-free and linked, the tables, mempool and index are consistent, and every live indexed transfer can be paid. */
  lemma EveryNodeConsistent(sha: Merkle.Digest, clocks: map<Network.NodeId, int>, worlds: seq<World>, acts: seq<Act>, i: nat, n: Network.NodeId)
    requires History(sha, clocks, worlds, acts) && i < |worlds| && n in clocks
    requires CollisionFree(worlds[i].mined)
    ensures n in worlds[i].peers
    ensures var st := worlds[i].peers[n].ledger;
      Linked(worlds[i].mined, Headers(st.db.blocks)) && Sound(st) && Affordable(st)
  {
    HistoryHealthy(sha, clocks, worlds, acts, i);
    hide Linked, Sound, Affordable, Unsettled, CollisionFree, Tree;
    assert PeerHealthy(worlds[i].peers[n]);
    assert Heads(worlds[i]).nodes[n] == HeadOf(worlds[i].peers[n]);
  }

  /** Hence no clean-up and no balance check of `createBlock` ever rejects anything, on any node. */
  lemma NoCheckRejects(sha: Merkle.Digest, clocks: map<Network.NodeId, int>, worlds: seq<World>, acts: seq<Act>, i: nat, n: Network.NodeId)
    requires History(sha, clocks, worlds, acts) && i < |worlds| && n in clocks
    requires CollisionFree(worlds[i].mined)
    ensures n in worlds[i].peers
    ensures var st := worlds[i].peers[n].ledger;
      && Clean(st) == st
      && Selection(st.db.rows, st.pool, st.index, BLOCK_LIMIT) == Take(LiveKeys(st.pool, st.index), 10)
  {
    hide Linked, Sound, Affordable, CollisionFree, Move, Clean;
    EveryNodeConsistent(sha, clocks, worlds, acts, i, n);
    AffordableRejectsNothing(worlds[i].peers[n].ledger);
  }

  /** No submitted transfer ever moves money on any node: nobody but SYSTEM has sent anything, and every other balance is
      the sum of the rewards received. */
  lemma NothingSettlesAnywhere(sha: Merkle.Digest, clocks: map<Network.NodeId, int>, worlds: seq<World>, acts: seq<Act>, i: nat, n: Network.NodeId, a: Address)
    requires History(sha, clocks, worlds, acts) && i < |worlds| && n in clocks
    requires CollisionFree(worlds[i].mined) && a != SYSTEM
    ensures n in worlds[i].peers
    ensures var rows := worlds[i].peers[n].ledger.db.rows;
      Sent(rows, a) == 0.0 && Balance(rows, a) == Received(rows, a) >= 0.0
  {
    HistoryHealthy(sha, clocks, worlds, acts, i);
    assert PeerHealthy(worlds[i].peers[n]);
    RewardsOnlyColumns(worlds[i].peers[n].ledger.db.rows, a);
  }

  /** What a node drafts is the best it could: at any time, the coinbase followed by live transactions, and no at most ten
      live index entries have a larger total rate than theirs. */
  lemma DraftsAreBest(sha: Merkle.Digest, clocks: map<Network.NodeId, int>, worlds: seq<World>, acts: seq<Act>, i: nat, n: Network.NodeId,
                      coinbaseHash: Hash, now: int, at: seq<nat>)
    requires History(sha, clocks, worlds, acts) && i < |worlds| && n in clocks
    requires CollisionFree(worlds[i].mined) && n in worlds[i].peers && worlds[i].peers[n].ledger.pool != map[]
    requires |at| <= 10
    requires forall k :: 0 <= k < |at| ==> at[k] < |LiveKeys(worlds[i].peers[n].ledger.pool, worlds[i].peers[n].ledger.index)|
    requires forall j, k :: 0 <= j < k < |at| ==> at[j] < at[k]
    ensures var st := worlds[i].peers[n].ledger;
      var live := LiveKeys(st.pool, st.index);
      var p' := Move(sha, worlds[i], Begin(n, coinbaseHash, now)).peers[n];
      && p'.work.Some?
      && p'.work.value.txs == [Coinbase(n, coinbaseHash)] + TxsOf(st.pool, Take(live, 10))
      && TotalRate(Pick(live, at)) <= TotalRate(Take(live, 10))
  {
    hide History, CollisionFree, Linked, TablesSound, PoolSound, Balance, Merkle.Root, Protocol.Draft, Headers;
    var st := worlds[i].peers[n].ledger;
    EveryNodeConsistent(sha, clocks, worlds, acts, i, n);
    LiveAreEligible(st.db.rows, st.pool, st.index, st.index);
    assert IndexSound(st.index);
    forall k | 0 <= k < |st.index|
      ensures st.index[k].rate >= 0.0
    {
      assert st.index[k] in st.index;
    }
    hide Affordable, Unaffordable, Sorted, Sound;
    SelectionOptimal(st.db.rows, st.pool, st.index, BLOCK_LIMIT, at);
  }

  /** A transaction in SYSTEM's name is accepted by a fresh node whatever it amounts to, and is then one that no mining
      removes. */
  lemma SystemSubmissionSticks(sha: Merkle.Digest, clocks: map<Network.NodeId, int>, n: Network.NodeId, tx: Tx, stamp: Stamp)
    requires n in clocks && tx.from == SYSTEM && tx.amount > 0.0 && tx.fee >= 0.0
    ensures var w := Move(sha, Genesis(clocks), Submit(n, tx, stamp));
      n in w.peers && Draining.Stuck(w.peers[n].ledger, tx.hash)
  {
    var pending := tx.(status := Pending);
    var st := ChainRuns.Init(clocks[n]);
    Draining.SystemAdmissionSticks(clocks[n], pending, stamp);
    hide Admit, Draining.Stuck;
    assert Genesis(clocks).peers[n].ledger == st;
  }
}
