/** Forks, agreement of tips, and what decides whether nodes can still come to one tip. */
module Tips {
  import opened Types
  import opened Protocol
  import opened Network
  import opened Futures
  import Agreement

  ghost predicate DifferAt(a: Table, b: Table, k: int) {
    k in a && k in b && k < Top(a) && k < Top(b) && a[k].hash != b[k].hash
  }

  /** The two chains differ below both of their tips. */
  ghost predicate DeepFork(a: Table, b: Table) {
    exists k :: DifferAt(a, b, k)
  }

  ghost predicate SameTip(a: Table, b: Table) {
    Top(a) in a && Top(b) in b && a[Top(a)].hash == b[Top(b)].hash
  }

  ghost predicate Forked(s: Net, n: NodeId, m: NodeId) {
    n in s.nodes && m in s.nodes && DeepFork(s.nodes[n].table, s.nodes[m].table)
  }

  ghost predicate Agree(s: Net, n: NodeId, m: NodeId) {
    n in s.nodes && m in s.nodes && SameTip(s.nodes[n].table, s.nodes[m].table)
  }

  // ---------- what a node can still be told ----------

  /** The tip of `b` lies on the chain `a`. */
  ghost predicate OnChain(a: Table, b: Table) {
    Top(b) in a && Top(b) in b && a[Top(b)].hash == b[Top(b)].hash
  }

  /** The announcement of a block that competes with the tip of `table` is still on its way. */
  ghost predicate Rival(s: Net, x: Header, table: Table) {
    && NewBlock(x) in s.sent && Top(table) in table
    && x.height == Top(table) && x.prevHash == table[Top(table)].prevHash
  }

  /** The tip of `b` lies on the chain `a`, or the announcement that puts the chain's block in its place is still on its way. */
  ghost predicate Near(s: Net, a: Table, b: Table) {
    Top(b) <= Top(a) && Top(b) in a && (OnChain(a, b) || Rival(s, a[Top(b)], b))
  }

  /** A sync response that takes whoever is just below height `k` of `trunk` to a height from `k` to just below its tip, and
      leaves it near `trunk`. */
  ghost predicate Brings(s: Net, trunk: Table, headers: seq<Header>, k: int) {
    && headers != []
    && var last := headers[|headers| - 1];
    && headers[0].height <= k <= last.height < Top(trunk) && last.height in trunk
    && last.prevHash == trunk[last.height].prevHash
    && (last.hash == trunk[last.height].hash || NewBlock(trunk[last.height]) in s.sent)
  }

  /** The block of `trunk` at height `k` is still on its way, by itself or in such a response. */
  ghost predicate Available(s: Net, trunk: Table, k: int) {
    && k in trunk
    && (NewBlock(trunk[k]) in s.sent || exists headers :: BlocksResponse(headers) in s.sent && Brings(s, trunk, headers, k))
  }

  /** A lower node near `trunk`. */
  ghost predicate OnTrunk(s: Net, trunk: Table, l: NodeId) {
    l in s.nodes && Top(s.nodes[l].table) < Top(trunk) && Near(s, trunk, s.nodes[l].table)
  }

  /** A lower node that what is on its way takes up to the parent of the tip of `trunk`, where it could mine a rival of it. */
  ghost predicate Climber(s: Net, trunk: Table, l: NodeId) {
    OnTrunk(s, trunk, l) && forall k :: Top(s.nodes[l].table) < k < Top(trunk) ==> Available(s, trunk, k)
  }

  ghost predicate SameParents(a: Table, b: Table) {
    Top(a) == Top(b) && Top(a) in a && Top(b) in b && a[Top(a)].prevHash == b[Top(b)].prevHash
  }

  // ---------- the condition ----------

  /** The node that is not higher, `m`, is near the chain of the other; or the two tips compete, and a rival of both is on
      its way or can still be mined by a third node. */
  ghost predicate CanFollow(s: Net, n: NodeId, m: NodeId)
    requires n in s.nodes && m in s.nodes
  {
    var a, b := s.nodes[n].table, s.nodes[m].table;
    Near(s, a, b) || (SameParents(a, b) && ((exists x :: Rival(s, x, b)) || (exists l :: Climber(s, a, l))))
  }

  ghost predicate CanMeet(s: Net, n: NodeId, m: NodeId) {
    && n in s.nodes && m in s.nodes
    && if Top(s.nodes[m].table) <= Top(s.nodes[n].table) then CanFollow(s, n, m) else CanFollow(s, m, n)
  }

  // ---------- what is decided ----------

  /** After these steps the two nodes have one tip, and the run's blocks are still told apart by their hashes. */
  ghost predicate MeetsAfter(s: Net, future: seq<Step>, n: NodeId, m: NodeId) {
    var s' := After(s, future);
    CollisionFree(s'.mined) && ToldApart(s'.mined) && Agree(s', n, m)
  }

  ghost predicate MeetSometime(s: Net, n: NodeId, m: NodeId) {
    exists future :: MeetsAfter(s, future, n, m)
  }

  /** After these steps all nodes have one tip. */
  ghost predicate AllMeetAfter(s: Net, future: seq<Step>) {
    && CollisionFree(After(s, future).mined) && ToldApart(After(s, future).mined)
    && forall n, m {:trigger Agree(After(s, future), n, m)} :: n in s.nodes && m in s.nodes ==> Agree(After(s, future), n, m)
  }

  ghost predicate AllMeetSometime(s: Net) {
    exists future :: AllMeetAfter(s, future)
  }

  // ---------- tables ----------

  lemma TipsStored(mined: set<Header>, a: Table, b: Table)
    requires Linked(mined, a) && Linked(mined, b) && Top(b) <= Top(a)
    ensures Top(b) in a && Top(b) in b && Top(a) in a
  {
  }

  lemma TipHeight(mined: set<Header>, t: Table)
    requires Linked(mined, t)
    ensures 0 <= Top(t) && Top(t) in t && t[Top(t)].height == Top(t)
  {
  }

  lemma RowsBelowTop(mined: set<Header>, t: Table)
    requires Linked(mined, t)
    ensures forall k :: k in t ==> k <= Top(t)
  {
  }

  lemma ResponseSource(s: Net, headers: seq<Header>) returns (sender: Table, from: int)
    requires Safe(s) && BlocksResponse(headers) in s.sent
    ensures SnapshotOf(s.mined, sender, from, headers)
  {
    assert MsgOk(s.mined, BlocksResponse(headers));
    hide SnapshotOf;
    sender, from :| SnapshotOf(s.mined, sender, from, headers);
  }

  lemma SafeTables(s: Net, n: NodeId, m: NodeId)
    requires Safe(s) && n in s.nodes && m in s.nodes
    ensures Tree(s.mined) && Linked(s.mined, s.nodes[n].table) && Linked(s.mined, s.nodes[m].table)
  {
  }

  lemma {:induction false} SnapshotEnds(mined: set<Header>, sender: Table, from: int)
    requires Linked(mined, sender) && from <= Top(sender)
    ensures var headers := Snapshot(sender, from, Top(sender));
      && headers != [] && headers[|headers| - 1] == sender[Top(sender)]
      && headers[0].height == if from < 0 then 0 else from
    decreases Top(sender) - from
  {
    Agreement.SnapshotStep(mined, sender, from);
    if from < Top(sender) {
      SnapshotEnds(mined, sender, from + 1);
    } else {
      assert Snapshot(sender, from + 1, Top(sender)) == [];
    }
  }

  lemma NoSnapshotAbove(sender: Table, from: int)
    requires Snapshot(sender, from, Top(sender)) != []
    ensures from <= Top(sender)
  {
  }
}
