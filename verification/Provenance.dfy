/** Where blocks come from: whatever is stored or on its way was stored first by the node that mined it, and that node's
    chain is still at least as high. */
module Provenance {
  import opened Types
  import opened Protocol
  import opened Network
  import Difficulty

  ghost predicate Landed(nodes: map<NodeId, Node>, h: Header) {
    h.height == 0 || (h.minedBy in nodes && Top(nodes[h.minedBy].table) >= h.height)
  }

  ghost predicate TableLanded(nodes: map<NodeId, Node>, table: Table) {
    forall k :: k in table ==> Landed(nodes, table[k])
  }

  ghost predicate MsgLanded(nodes: map<NodeId, Node>, msg: Msg) {
    match msg
    case NewBlock(b) => Landed(nodes, b)
    case GetBlocks(_) => true
    case BlocksResponse(headers) => forall i :: 0 <= i < |headers| ==> Landed(nodes, headers[i])
  }

  /** Every node works on headers in its own name. */
  ghost predicate OwnWork(s: Net) {
    forall n :: n in s.nodes && s.nodes[n].work.Some? ==> s.nodes[n].work.value.minedBy == n
  }

  ghost predicate AllLanded(s: Net) {
    && OwnWork(s)
    && (forall n :: n in s.nodes ==> TableLanded(s.nodes, s.nodes[n].table))
    && (forall msg :: msg in s.sent ==> MsgLanded(s.nodes, msg))
  }

  lemma LandedLater(s: Net, s': Net, h: Header)
    requires AllGrow(s, s') && Landed(s.nodes, h)
    ensures Landed(s'.nodes, h)
  {
  }

  lemma {:induction false} AbsorbLanded(nodes: map<NodeId, Node>, table: Table, headers: seq<Header>)
    requires TableLanded(nodes, table) && MsgLanded(nodes, BlocksResponse(headers))
    ensures TableLanded(nodes, Absorb(table, headers))
    decreases |headers|
  {
    if headers != [] {
      var next := if headers[0].height <= Top(table) then table else AddBlock(table, headers[0]).table;
      assert Landed(nodes, headers[0]);
      hide Landed;
      AbsorbLanded(nodes, next, headers[1..]);
    }
  }

  lemma {:induction false} SnapshotLanded(nodes: map<NodeId, Node>, table: Table, from: int, last: int)
    requires TableLanded(nodes, table)
    ensures MsgLanded(nodes, BlocksResponse(Snapshot(table, from, last)))
    decreases last - from
  {
    hide Landed;
    if from <= last {
      SnapshotLanded(nodes, table, from + 1, last);
    }
  }

  lemma ReactionLanded(nodes: map<NodeId, Node>, table: Table, msg: Msg)
    requires TableLanded(nodes, table) && MsgLanded(nodes, msg)
    ensures var r := OnMessage(table, msg);
      TableLanded(nodes, r.table) && (r.reply.Some? ==> MsgLanded(nodes, r.reply.value))
  {
    hide Landed;
    match msg
    case NewBlock(b) =>
    case GetBlocks(from) => SnapshotLanded(nodes, table, from, Top(table));
    case BlocksResponse(headers) => AbsorbLanded(nodes, table, headers);
  }

  lemma MsgLandedLater(s: Net, s': Net, msg: Msg)
    requires AllGrow(s, s') && MsgLanded(s.nodes, msg)
    ensures MsgLanded(s'.nodes, msg)
  {
    if msg.BlocksResponse? {
      forall i | 0 <= i < |msg.headers|
        ensures Landed(s'.nodes, msg.headers[i])
      {
        LandedLater(s, s', msg.headers[i]);
      }
    } else if msg.NewBlock? {
      LandedLater(s, s', msg.header);
    }
  }

  lemma TableLandedLater(s: Net, s': Net, table: Table)
    requires AllGrow(s, s') && TableLanded(s.nodes, table)
    ensures TableLanded(s'.nodes, table)
  {
    forall k | k in table
      ensures Landed(s'.nodes, table[k])
    {
      LandedLater(s, s', table[k]);
    }
  }

  /** The facts carry over to a state whose nodes are at least as high, once they hold of what is new there. */
  lemma CarryLanded(s: Net, s': Net)
    requires AllLanded(s) && AllGrow(s, s') && OwnWork(s')
    requires forall n :: n in s.nodes ==> s'.nodes[n].table == s.nodes[n].table || TableLanded(s'.nodes, s'.nodes[n].table)
    requires forall msg :: msg in s'.sent ==> msg in s.sent || MsgLanded(s'.nodes, msg)
    ensures AllLanded(s')
  {
    hide TableLanded, MsgLanded, OwnWork;
    forall n | n in s.nodes
      ensures TableLanded(s'.nodes, s'.nodes[n].table)
    {
      if s'.nodes[n].table == s.nodes[n].table {
        TableLandedLater(s, s', s.nodes[n].table);
      }
    }
    forall msg | msg in s'.sent
      ensures MsgLanded(s'.nodes, msg)
    {
      if msg in s.sent {
        MsgLandedLater(s, s', msg);
      }
    }
  }

  /** A block that is broadcast has just become its miner's tip. */
  lemma HitIsOwn(s: Net, n: NodeId, nonce: int, hash: Hash)
    requires OwnWork(s) && n in s.nodes && s.nodes[n].work.Some?
    ensures var s' := Hit(s, n, nonce, hash);
      var h := s.nodes[n].work.value.(nonce := nonce, hash := hash);
      && h.minedBy == n && OwnWork(s') && s'.nodes.Keys == s.nodes.Keys
      && (forall m :: m in s.nodes && m != n ==> s'.nodes[m] == s.nodes[m])
      && ((s'.sent == s.sent && s'.nodes[n].table == s.nodes[n].table)
          || (Top(s.nodes[n].table) < h.height && Landed(s'.nodes, h)
              && s'.sent == s.sent + {NewBlock(h)} && s'.nodes[n].table == s.nodes[n].table[h.height := h]))
  {
    hide MeetsTarget;
    var table := s.nodes[n].table;
    var h := s.nodes[n].work.value.(nonce := nonce, hash := hash);
    if AddBlock(table, h).ok {
      assert h.height in AddBlock(table, h).table;
    } else {
      assert AddBlock(table, h).table == table;
    }
  }

  lemma HitLanded(s: Net, n: NodeId, nonce: int, hash: Hash)
    requires AllLanded(s) && n in s.nodes && s.nodes[n].work.Some? && AllGrow(s, Hit(s, n, nonce, hash))
    ensures AllLanded(Hit(s, n, nonce, hash))
  {
    var s' := Hit(s, n, nonce, hash);
    HitIsOwn(s, n, nonce, hash);
    TableLandedLater(s, s', s.nodes[n].table);
    hide Landed, AllGrow, Hit, OwnWork;
    CarryLanded(s, s');
  }

  lemma DeliveryLanded(s: Net, n: NodeId, msg: Msg)
    requires AllLanded(s) && n in s.nodes && msg in s.sent && AllGrow(s, Apply(s, Deliver(n, msg)))
    ensures AllLanded(Apply(s, Deliver(n, msg)))
  {
    var s' := Apply(s, Deliver(n, msg));
    TableLandedLater(s, s', s.nodes[n].table);
    MsgLandedLater(s, s', msg);
    ReactionLanded(s'.nodes, s.nodes[n].table, msg);
    assert OwnWork(s');
    hide TableLanded, MsgLanded, AllGrow, OwnWork, OnMessage;
    CarryLanded(s, s');
  }

  /** Whatever changes no table and sends at most a request. */
  lemma QuietLanded(s: Net, s': Net)
    requires AllLanded(s) && AllGrow(s, s') && OwnWork(s')
    requires forall n :: n in s.nodes ==> s'.nodes[n].table == s.nodes[n].table
    requires forall msg :: msg in s'.sent ==> msg in s.sent || msg.GetBlocks?
    ensures AllLanded(s')
  {
    assert forall msg: Msg :: msg.GetBlocks? ==> MsgLanded(s'.nodes, msg);
    hide TableLanded, MsgLanded, AllGrow, OwnWork;
    CarryLanded(s, s');
  }

  lemma QuietStep(s: Net, step: Step)
    requires OwnWork(s)
    requires step.Found? && step.n in s.nodes ==> s.nodes[step.n].work.None?
    requires step.Deliver? && step.n in s.nodes ==> step.msg !in s.sent
    ensures var s' := Apply(s, step);
      && OwnWork(s') && s'.nodes.Keys == s.nodes.Keys
      && (forall n :: n in s.nodes ==> s'.nodes[n].table == s.nodes[n].table)
      && (forall msg :: msg in s'.sent ==> msg in s.sent || msg.GetBlocks?)
  {
    hide Top, Difficulty.Current;
  }

  lemma StepLanded(s: Net, step: Step)
    requires Safe(s) && AllLanded(s) && CollisionFree(Apply(s, step).mined)
    ensures AllLanded(Apply(s, step))
  {
    StepSafe(s, step);
    hide Safe, CollisionFree, AllGrow, TableLanded, MsgLanded, OwnWork;
    if step.Found? && step.n in s.nodes && s.nodes[step.n].work.Some? {
      hide AllLanded, Hit;
      HitLanded(s, step.n, step.nonce, step.hash);
    } else if step.Deliver? && step.n in s.nodes && step.msg in s.sent {
      hide AllLanded, Apply;
      DeliveryLanded(s, step.n, step.msg);
    } else {
      assert OwnWork(s);
      hide AllLanded, Apply;
      QuietStep(s, step);
      QuietLanded(s, Apply(s, step));
    }
  }

  /** In every reachable state the miner of a stored block, or of one on its way, has a chain at least that high. */
  lemma {:induction false} RunLanded(clocks: map<NodeId, int>, states: seq<Net>, steps: seq<Step>, i: nat)
    requires Run(clocks, states, steps) && i < |states| && CollisionFree(states[i].mined)
    ensures AllLanded(states[i])
    decreases i
  {
    if i > 0 {
      RunSafe(clocks, states, steps, i - 1, i);
      hide Safe, CollisionFree, Apply, AllLanded;
      assert StepAt(states, steps, i - 1);
      RunLanded(clocks, states, steps, i - 1);
      StepLanded(states[i - 1], steps[i - 1]);
    }
  }
}
