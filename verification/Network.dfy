/** The whole network: nodes that mine, exchange messages and sync.  A message on its way can be delivered to any node,
    at any time, in any order, any number of times, until it is lost. */
module Network {
  import opened Types
  import opened Protocol
  import Agreement
  import Difficulty

  type NodeId = string

  /** `work` is the header the mining thread is searching a nonce for; a block accepted from a broadcast ends the search. */
  datatype Node = Node(table: Table, work: Option<Header>)

  /** `sent` holds the messages that are still on their way, `mined` every header for which a nonce was ever found. */
  datatype Net = Net(nodes: map<NodeId, Node>, sent: set<Msg>, mined: set<Header>)

  /** `Local` is whatever a node does to its mempool alone.  `Lose` drops a message for good, as when it is sent while
      nobody is connected; nothing is ever sent a second time. */
  datatype Step =
    | Start(n: NodeId, root: Hash, now: int)
    | Found(n: NodeId, nonce: int, hash: Hash)
    | Quit(n: NodeId)
    | Sync(n: NodeId)
    | Local(n: NodeId)
    | Deliver(n: NodeId, msg: Msg)
    | Lose(msg: Msg)

  function Init(clocks: map<NodeId, int>): Net {
    Net(map n | n in clocks :: Node(map[0 := GenesisHeader(clocks[n])], None), {}, {})
  }

  function Send(sent: set<Msg>, reply: Option<Msg>): set<Msg> {
    if reply.Some? then sent + {reply.value} else sent
  }

  /** One pass of the nonce loop whose header hashed to `hash`. */
  function Hit(s: Net, n: NodeId, nonce: int, hash: Hash): Net
    requires n in s.nodes && s.nodes[n].work.Some?
  {
    var node := s.nodes[n];
    var header := node.work.value.(nonce := nonce, hash := hash);
    if Top(node.table) >= header.height then s.(nodes := s.nodes[n := node.(work := None)])
    else if !MeetsTarget(hash, header.difficulty) then s
    else
      var put := AddBlock(node.table, header);
      Net(s.nodes[n := Node(put.table, None)],
          Send(s.sent, if put.ok then Some(NewBlock(header)) else None),
          s.mined + {header})
  }

  function Apply(s: Net, step: Step): Net {
    if step.Lose? then s.(sent := s.sent - {step.msg})
    else if step.n !in s.nodes then s else
    var node := s.nodes[step.n];
    match step
    case Start(n, root, now) =>
      s.(nodes := s.nodes[n := node.(work := Some(Draft(node.table, n, root, now)))])
    case Found(n, nonce, hash) =>
      if node.work.None? then s else Hit(s, n, nonce, hash)
    case Quit(n) =>
      s.(nodes := s.nodes[n := node.(work := None)])
    case Sync(n) =>
      s.(sent := s.sent + {SyncRequest(node.table)})
    case Local(_) => s
    case Deliver(n, msg) =>
      if msg !in s.sent then s else
      var reaction := OnMessage(node.table, msg);
      var relays := reaction.reply.Some? && reaction.reply.value.NewBlock?;
      s.(nodes := s.nodes[n := Node(reaction.table, if relays then None else node.work)], sent := Send(s.sent, reaction.reply))
  }

  ghost predicate StepAt(states: seq<Net>, steps: seq<Step>, i: int) {
    0 <= i < |steps| < |states| && states[i + 1] == Apply(states[i], steps[i])
  }

  /** A run: the states a network goes through from its genesis tables, and the steps between them. */
  ghost predicate Run(clocks: map<NodeId, int>, states: seq<Net>, steps: seq<Step>) {
    && |states| == |steps| + 1
    && states[0] == Init(clocks)
    && forall i {:trigger StepAt(states, steps, i)} :: 0 <= i < |steps| ==> StepAt(states, steps, i)
  }

  lemma Longer(clocks: map<NodeId, int>, states: seq<Net>, steps: seq<Step>, step: Step) returns (states': seq<Net>, steps': seq<Step>)
    requires Run(clocks, states, steps)
    ensures Run(clocks, states', steps')
    ensures states' == states + [Apply(states[|states| - 1], step)]
  {
    hide Apply, Init;
    states', steps' := states + [Apply(states[|states| - 1], step)], steps + [step];
    forall i | 0 <= i < |steps'|
      ensures StepAt(states', steps', i)
    {
      assert i < |steps| ==> StepAt(states, steps, i);
    }
  }

  // ---------- what every step keeps ----------

  ghost predicate MsgOk(mined: set<Header>, msg: Msg) {
    match msg
    case NewBlock(h) => h in mined
    case GetBlocks(_) => true
    case BlocksResponse(hs) => exists table, from :: SnapshotOf(mined, table, from, hs)
  }

  ghost predicate SnapshotOf(mined: set<Header>, table: Table, from: int, headers: seq<Header>) {
    Linked(mined, table) && headers == Snapshot(table, from, Top(table))
  }

  ghost predicate WorkOk(mined: set<Header>, work: Option<Header>) {
    work.Some? ==> work.value.height >= 1 && HasParent(mined, work.value) && Difficulty.Legal(work.value.difficulty)
  }

  ghost predicate Safe(s: Net) {
    && Tree(s.mined)
    && (forall n :: n in s.nodes ==> Linked(s.mined, s.nodes[n].table) && WorkOk(s.mined, s.nodes[n].work))
    && (forall m :: m in s.sent ==> MsgOk(s.mined, m))
  }

  ghost predicate AllGrow(s: Net, s': Net) {
    && s'.nodes.Keys == s.nodes.Keys && s.mined <= s'.mined
    && forall n :: n in s.nodes ==> Grows(s.nodes[n].table, s'.nodes[n].table)
  }

  lemma InitNodes(clocks: map<NodeId, int>)
    ensures Init(clocks).nodes.Keys == clocks.Keys
  {
  }

  lemma InitSafe(clocks: map<NodeId, int>)
    ensures Safe(Init(clocks))
  {
    forall n | n in clocks
      ensures Linked({}, Init(clocks).nodes[n].table)
    {
      GenesisLinked({}, clocks[n]);
    }
  }

  lemma CollisionFreeEarlier(mined: set<Header>, mined': set<Header>)
    requires mined <= mined' && CollisionFree(mined')
    ensures CollisionFree(mined)
  {
    forall a, b | Known(mined, a) && Known(mined, b) && a.hash == b.hash
      ensures a.height == b.height && a.prevHash == b.prevHash
    {
      assert Known(mined', a) && Known(mined', b);
    }
  }

  lemma MsgOkMonotone(mined: set<Header>, mined': set<Header>, msg: Msg)
    requires mined <= mined' && MsgOk(mined, msg)
    ensures MsgOk(mined', msg)
  {
    if msg.BlocksResponse? {
      var table, from :| SnapshotOf(mined, table, from, msg.headers);
      LinkedMonotone(mined, mined', table);
      assert SnapshotOf(mined', table, from, msg.headers);
    }
  }

  lemma SafeWithMore(s: Net, h: Header)
    requires Safe(s) && h.height >= 1 && HasParent(s.mined, h)
    requires Difficulty.Legal(h.difficulty) && MeetsTarget(h.hash, h.difficulty)
    ensures Safe(s.(mined := s.mined + {h}))
  {
    hide Linked, HasParent, MsgOk;
    var mined' := s.mined + {h};
    forall g | g in mined'
      ensures HasParent(mined', g)
    {
      HasParentMonotone(s.mined, mined', g, g);
    }
    forall n | n in s.nodes
      ensures Linked(mined', s.nodes[n].table) && WorkOk(mined', s.nodes[n].work)
    {
      LinkedMonotone(s.mined, mined', s.nodes[n].table);
      if s.nodes[n].work.Some? {
        HasParentMonotone(s.mined, mined', s.nodes[n].work.value, s.nodes[n].work.value);
      }
    }
    forall m | m in s.sent
      ensures MsgOk(mined', m)
    {
      MsgOkMonotone(s.mined, mined', m);
    }
  }

  lemma HitSafe(s: Net, n: NodeId, nonce: int, hash: Hash)
    requires Safe(s) && n in s.nodes && s.nodes[n].work.Some?
    ensures CollisionFree(Hit(s, n, nonce, hash).mined) ==>
      Safe(Hit(s, n, nonce, hash)) && AllGrow(s, Hit(s, n, nonce, hash))
  {
    hide Linked, HasParent, CollisionFree, Tree, AddBlock, MeetsTarget, Difficulty.Legal;
    var node := s.nodes[n];
    var header := node.work.value.(nonce := nonce, hash := hash);
    if CollisionFree(s.mined + {header}) && Top(node.table) < header.height && MeetsTarget(hash, header.difficulty) {
      HasParentMonotone(s.mined, s.mined, node.work.value, header);
      SafeWithMore(s, header);
      AddKeepsLinked(s.mined + {header}, node.table, header);
    }
  }

  /** What a message can do to a healthy chain, and what the reply to it contains. */
  lemma MessageSafe(mined: set<Header>, table: Table, msg: Msg)
    requires Tree(mined) && CollisionFree(mined) && Linked(mined, table) && MsgOk(mined, msg)
    ensures var reaction := OnMessage(table, msg);
      && Linked(mined, reaction.table) && Grows(table, reaction.table)
      && (reaction.reply.Some? ==> MsgOk(mined, reaction.reply.value))
  {
    hide Linked, Tree, CollisionFree;
    match msg
    case NewBlock(b) =>
      AddKeepsLinked(mined, table, b);
      ReplaceKeepsLinked(mined, table, b);
      hide AddBlock, ReplaceLast;
    case GetBlocks(from) =>
      assert SnapshotOf(mined, table, from, Snapshot(table, from, Top(table)));
    case BlocksResponse(headers) =>
      var sender, from :| SnapshotOf(mined, sender, from, headers);
      SnapshotKnown(mined, sender, from, Top(sender));
      AbsorbKeepsLinked(mined, table, headers);
  }

  lemma StepSafe(s: Net, step: Step)
    requires Safe(s) && CollisionFree(Apply(s, step).mined)
    ensures Safe(Apply(s, step)) && AllGrow(s, Apply(s, step))
  {
    hide Linked, Tree, CollisionFree, OnMessage;
    if !step.Lose? && step.n in s.nodes {
      CollisionFreeEarlier(s.mined, Apply(s, step).mined);
      var node := s.nodes[step.n];
      match step
      case Start(n, root, now) => DraftExtendsTip(s.mined, node.table, n, root, now);
      case Found(n, nonce, hash) => if node.work.Some? { HitSafe(s, n, nonce, hash); }
      case Quit(n) =>
      case Sync(n) =>
      case Local(n) =>
      case Deliver(n, msg) => if msg in s.sent { MessageSafe(s.mined, node.table, msg); }
    }
  }

  lemma AllGrowTransitive(a: Net, b: Net, c: Net)
    requires Safe(a) && AllGrow(a, b) && AllGrow(b, c)
    ensures AllGrow(a, c)
  {
    forall n | n in a.nodes
      ensures Grows(a.nodes[n].table, c.nodes[n].table)
    {
      GrowsTransitive(a.mined, a.nodes[n].table, b.nodes[n].table, c.nodes[n].table);
    }
  }

  lemma {:induction false} MinedGrows(clocks: map<NodeId, int>, states: seq<Net>, steps: seq<Step>, i: int, j: int)
    requires Run(clocks, states, steps) && 0 <= i <= j < |states|
    ensures states[i].mined <= states[j].mined
    decreases j
  {
    if i < j {
      MinedGrows(clocks, states, steps, i, j - 1);
      assert StepAt(states, steps, j - 1);
    }
  }

  lemma {:induction false} RunSafe(clocks: map<NodeId, int>, states: seq<Net>, steps: seq<Step>, i: int, j: int)
    requires Run(clocks, states, steps) && 0 <= i <= j < |states|
    requires CollisionFree(states[j].mined)
    ensures CollisionFree(states[i].mined)
    ensures Safe(states[i]) && Safe(states[j]) && AllGrow(states[i], states[j])
    ensures states[j].nodes.Keys == clocks.Keys
    decreases j
  {
    hide Safe, CollisionFree, Apply, Linked;
    if j == 0 {
      InitSafe(clocks);
      InitNodes(clocks);
    } else {
      var m := if i < j then i else j - 1;
      assert StepAt(states, steps, j - 1);
      MinedGrows(clocks, states, steps, j - 1, j);
      CollisionFreeEarlier(states[j - 1].mined, states[j].mined);
      RunSafe(clocks, states, steps, m, j - 1);
      StepSafe(states[j - 1], steps[j - 1]);
      AllGrowTransitive(states[m], states[j - 1], states[j]);
    }
  }

  // ---------- results about whole runs ----------

  /** In every reachable state every node's chain is gap-free from genesis and linked by hashes, and
      every block above genesis was mined, meets its own difficulty, and has a legal difficulty, although
      no receiver ever checks any of this. */
  lemma EveryChainLinked(clocks: map<NodeId, int>, states: seq<Net>, steps: seq<Step>, i: nat, n: NodeId)
    requires Run(clocks, states, steps) && i < |states| && n in clocks
    requires CollisionFree(states[i].mined)
    ensures n in states[i].nodes && Linked(states[i].mined, states[i].nodes[n].table)
    ensures forall k :: k in states[i].nodes[n].table && k > 0 ==>
      var h := states[i].nodes[n].table[k];
      && h in states[i].mined && Difficulty.Legal(h.difficulty)
      && |h.hash| >= h.difficulty && forall j :: 0 <= j < h.difficulty ==> h.hash[j] == '0'
  {
    RunSafe(clocks, states, steps, i, i);
    var table := states[i].nodes[n].table;
    assert Linked(states[i].mined, table);
    forall k | k in table && k > 0
      ensures table[k] in states[i].mined && Difficulty.Legal(table[k].difficulty)
      ensures |table[k].hash| >= table[k].difficulty && forall j :: 0 <= j < table[k].difficulty ==> table[k].hash[j] == '0'
    {
      TargetByCharacters(table[k].hash, table[k].difficulty);
      hide MeetsTarget;
    }
    hide MeetsTarget, Difficulty.Legal, HasParent;
  }

  /** Depth-one finality: between any two moments of a run no chain gets shorter, and below the earlier
      tip nothing changes. */
  lemma DepthOneFinality(clocks: map<NodeId, int>, states: seq<Net>, steps: seq<Step>, i: nat, j: nat, n: NodeId)
    requires Run(clocks, states, steps) && i <= j < |states| && n in clocks
    requires CollisionFree(states[j].mined)
    ensures n in states[i].nodes && n in states[j].nodes
    ensures Grows(states[i].nodes[n].table, states[j].nodes[n].table)
  {
    RunSafe(clocks, states, steps, i, j);
  }

  /** Agreement: whenever two nodes hold the same hash, at whatever heights, they hold it at the same
      height and agree on every block below. */
  lemma NodesAgreeBelow(clocks: map<NodeId, int>, states: seq<Net>, steps: seq<Step>, i: nat, n: NodeId, m: NodeId, h: int, g: int)
    requires Run(clocks, states, steps) && i < |states| && CollisionFree(states[i].mined)
    requires n in states[i].nodes && m in states[i].nodes
    requires h in states[i].nodes[n].table && g in states[i].nodes[m].table
    requires states[i].nodes[n].table[h].hash == states[i].nodes[m].table[g].hash
    ensures h == g
    ensures forall k :: 0 <= k <= h ==>
      && k in states[i].nodes[n].table && k in states[i].nodes[m].table
      && states[i].nodes[n].table[k].hash == states[i].nodes[m].table[k].hash
  {
    hide Linked, CollisionFree;
    RunSafe(clocks, states, steps, i, i);
    Agreement.CommonPrefix(states[i].mined, states[i].nodes[n].table, states[i].nodes[m].table, h, g);
  }

  /** Every sync response of a run was cut from the chain some node held at some earlier moment. */
  lemma {:induction false} ResponseOrigin(clocks: map<NodeId, int>, states: seq<Net>, steps: seq<Step>, i: nat, headers: seq<Header>)
    returns (j: nat, m: NodeId, from: int)
    requires Run(clocks, states, steps) && i < |states| && BlocksResponse(headers) in states[i].sent
    ensures j <= i && m in states[j].nodes
    ensures headers == Snapshot(states[j].nodes[m].table, from, Top(states[j].nodes[m].table))
    decreases i
  {
    var before := if i > 0 then states[i - 1] else states[0];
    if BlocksResponse(headers) in before.sent {
      j, m, from := ResponseOrigin(clocks, states, steps, i - 1, headers);
    } else {
      assert StepAt(states, steps, i - 1);
      hide Snapshot, OnNewBlock, Draft, AddBlock;
      j, m, from := i - 1, steps[i - 1].n, steps[i - 1].msg.from;
    }
  }

  /** In every reachable state a sync response, however old, was cut from a chain some node held earlier in the run;
      it brings the receiver up to that whole chain exactly when the request reached down to the receiver's tip and
      the tip lies on that chain, and leaves it alone otherwise.  A duplicate delivery has no further effect. */
  lemma SyncResponseEffect(clocks: map<NodeId, int>, states: seq<Net>, steps: seq<Step>, i: nat, n: NodeId, headers: seq<Header>)
    returns (j: nat, m: NodeId, from: int)
    requires Run(clocks, states, steps) && i < |states| && n in states[i].nodes
    requires CollisionFree(states[i].mined) && BlocksResponse(headers) in states[i].sent
    ensures j <= i && m in states[j].nodes
    ensures var s, sender, local := states[i], states[j].nodes[m].table, states[i].nodes[n].table;
      var once := Apply(s, Deliver(n, BlocksResponse(headers)));
      && headers == Snapshot(sender, from, Top(sender))
      && n in once.nodes
      && once.nodes[n].table == (if Agreement.Accepts(local, sender, from) then sender + local else local)
      && Apply(once, Deliver(n, BlocksResponse(headers))) == once
  {
    j, m, from := ResponseOrigin(clocks, states, steps, i, headers);
    hide Linked, Tree, CollisionFree, Absorb, Snapshot, Init, Grows, Agreement.Accepts;
    RunSafe(clocks, states, steps, j, i);
    var s, sender, local := states[i], states[j].nodes[m].table, states[i].nodes[n].table;
    LinkedMonotone(states[j].mined, s.mined, sender);
    Agreement.SyncAgrees(s.mined, local, sender, from);
    Agreement.SyncExchange(s.mined, local, sender, from);
    hide Apply;
    ResponseApplied(s, n, headers);
  }

  lemma ResponseApplied(s: Net, n: NodeId, headers: seq<Header>)
    requires n in s.nodes && BlocksResponse(headers) in s.sent
    requires var after := Absorb(s.nodes[n].table, headers); Absorb(after, headers) == after
    ensures var once := Apply(s, Deliver(n, BlocksResponse(headers)));
      && n in once.nodes && once.nodes[n].table == Absorb(s.nodes[n].table, headers)
      && Apply(once, Deliver(n, BlocksResponse(headers))) == once
  {
    hide Absorb;
  }

  lemma {:induction false} PathFromGenesis(mined: set<Header>, h: Header) returns (path: seq<Header>)
    requires Tree(mined) && Known(mined, h)
    ensures |path| == h.height + 1 && path[h.height] == h && path[0] == GenesisHeader(path[0].timestamp)
    ensures forall i :: 0 < i < |path| ==>
      path[i] in mined && path[i].height == i && path[i].prevHash == path[i - 1].hash
    decreases h.height
  {
    if h in mined {
      assert HasParent(mined, h);
      var parent :| Known(mined, parent) && parent.hash == h.prevHash && parent.height + 1 == h.height;
      path := PathFromGenesis(mined, parent);
      path := path + [h];
    } else {
      path := [h];
    }
  }

  /** All mined blocks of a run form one tree: each is reached from a genesis row by a path on which every
      block is one higher than the block whose hash it names. */
  lemma MinedBlocksFormTree(clocks: map<NodeId, int>, states: seq<Net>, steps: seq<Step>, i: nat, h: Header) returns (path: seq<Header>)
    requires Run(clocks, states, steps) && i < |states| && CollisionFree(states[i].mined) && h in states[i].mined
    ensures |path| == h.height + 1 > 1 && path[h.height] == h && path[0] == GenesisHeader(path[0].timestamp)
    ensures forall k :: 0 < k < |path| ==>
      path[k] in states[i].mined && path[k].height == k && path[k].prevHash == path[k - 1].hash
  {
    RunSafe(clocks, states, steps, i, i);
    path := PathFromGenesis(states[i].mined, h);
  }

  /** What the automatic synchronisation promised by the documentation cannot do: once two nodes differ
      below both of their tips, their tips stay different for the rest of the run. */
  lemma DeepForkIsPermanent(clocks: map<NodeId, int>, states: seq<Net>, steps: seq<Step>, i: nat, j: nat, n: NodeId, m: NodeId, k: int)
    requires Run(clocks, states, steps) && i <= j < |states| && CollisionFree(states[j].mined)
    requires n in states[i].nodes && m in states[i].nodes
    requires k in states[i].nodes[n].table && k < Top(states[i].nodes[n].table)
    requires k in states[i].nodes[m].table && k < Top(states[i].nodes[m].table)
    requires states[i].nodes[n].table[k].hash != states[i].nodes[m].table[k].hash
    ensures n in states[j].nodes && m in states[j].nodes
    ensures var a, b := states[j].nodes[n].table, states[j].nodes[m].table;
      Top(a) in a && Top(b) in b && a[Top(a)].hash != b[Top(b)].hash
  {
    hide CollisionFree, Tree, HasParent, Known;
    RunSafe(clocks, states, steps, i, j);
    var a, b := states[j].nodes[n].table, states[j].nodes[m].table;
    assert Top(a) in a && Top(b) in b;
    assert Grows(states[i].nodes[n].table, a) && Grows(states[i].nodes[m].table, b);
    Agreement.ForkNeverMerges(states[j].mined, a, b, k, Top(a), Top(b));
  }
}
