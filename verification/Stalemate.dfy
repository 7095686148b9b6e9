/** Two tips of one height stay apart when no rival of both is on its way and no lower node can come to mine one. */
module Stalemate {
  import opened Types
  import opened Protocol
  import opened Network
  import opened Provenance
  import opened Futures
  import opened Tips
  import opened Parting
  import Agreement

  /** A healthy chain whose blocks were all mined, and announced, by nodes that are now past them. */
  ghost predicate Trunk(s: Net, trunk: Table) {
    Linked(s.mined, trunk) && Top(trunk) > 0 && TableLanded(s.nodes, trunk)
  }

  /** No lower node near the trunk has reached height `g`, and nothing on its way takes one there. */
  ghost predicate Gap(s: Net, trunk: Table, g: int) {
    && 0 <= g < Top(trunk)
    && (g > 0 ==> !Available(s, trunk, g))
    && (forall l :: OnTrunk(s, trunk, l) ==> Top(s.nodes[l].table) < g)
  }

  ghost predicate SentBefore(s: Net, s': Net, trunk: Table) {
    forall k :: k in trunk && k > 0 && NewBlock(trunk[k]) in s'.sent ==> NewBlock(trunk[k]) in s.sent
  }

  lemma TrunkSent(s: Net, step: Step, trunk: Table)
    requires Trunk(s, trunk) && OwnWork(s)
    ensures SentBefore(s, Apply(s, step), trunk)
  {
    hide Apply, Landed, OwnWork, HasParent, Link;
    forall k | k in trunk && k > 0 && NewBlock(trunk[k]) in Apply(s, step).sent
      ensures NewBlock(trunk[k]) in s.sent
    {
      assert trunk[k].height == k && Landed(s.nodes, trunk[k]);
      NotSentAgain(s, step, trunk[k]);
    }
  }

  // ---------- who is near the trunk was near it before ----------

  lemma GenesisOnChain(mined: set<Header>, a: Table, b: Table)
    requires Linked(mined, a) && Linked(mined, b) && Top(b) == 0
    ensures OnChain(a, b)
  {
    hide HasParent;
    assert Top(b) in b;
    assert 0 in a;
  }

  lemma StillNear(s: Net, s': Net, trunk: Table, t: Table)
    requires Linked(s.mined, trunk) && Linked(s.mined, t) && SentBefore(s, s', trunk) && Near(s', trunk, t)
    ensures Near(s, trunk, t)
  {
    if Top(t) == 0 {
      GenesisOnChain(s.mined, trunk, t);
    } else {
      assert Top(t) in t;
      hide Linked;
    }
  }

  lemma ReplacedNear(s: Net, s': Net, trunk: Table, t: Table, b: Header)
    requires Linked(s.mined, trunk) && Linked(s.mined, t) && ToldApart(s.mined) && SentBefore(s, s', trunk)
    requires Rival(s, b, t) && b in s.mined && b.height > 0 && Top(t[Top(t) := b]) == Top(t) && Near(s', trunk, t[Top(t) := b])
    ensures Near(s, trunk, t)
  {
    var e := Top(t);
    assert trunk[e] in s.mined;
    hide Linked;
    if trunk[e].hash == b.hash {
      assert trunk[e] == b;
    }
  }

  /** A new tip near the trunk names the trunk's block below it. */
  lemma ParentNear(mined: set<Header>, s': Net, trunk: Table, t': Table)
    requires CollisionFree(mined) && Linked(mined, trunk) && Linked(mined, t') && Near(s', trunk, t') && Top(t') > 0
    ensures Top(t') - 1 in trunk && Top(t') - 1 in t' && trunk[Top(t') - 1].hash == t'[Top(t') - 1].hash
    ensures trunk[Top(t')].prevHash == t'[Top(t')].prevHash
  {
    var e := Top(t');
    assert Link(trunk, e) && e in t' && Link(t', e);
    assert Known(mined, trunk[e]) && Known(mined, t'[e]);
    hide HasParent;
  }

  lemma ExtendedNear(s: Net, s': Net, trunk: Table, t: Table, b: Header)
    requires CollisionFree(s'.mined) && ToldApart(s'.mined)
    requires Linked(s'.mined, trunk) && Linked(s'.mined, t[b.height := b]) && SentBefore(s, s', trunk)
    requires Top(t) in t && 0 <= Top(t) && b.height == Top(t) + 1 && b in s'.mined && Top(t[b.height := b]) == b.height
    requires Near(s', trunk, t[b.height := b])
    ensures Near(s, trunk, t) && b.height in trunk
    ensures NewBlock(trunk[b.height]) in s.sent || b == trunk[b.height]
  {
    var t' := t[b.height := b];
    ParentNear(s'.mined, s', trunk, t');
    assert trunk[b.height] in s'.mined;
    hide Linked, CollisionFree;
  }

  lemma SyncedNear(s: Net, s': Net, trunk: Table, t: Table, headers: seq<Header>, sender: Table, from: int, k: int)
    requires CollisionFree(s.mined) && Linked(s.mined, trunk) && Linked(s.mined, t) && SentBefore(s, s', trunk)
    requires SnapshotOf(s.mined, sender, from, headers) && Agreement.Accepts(t, sender, from) && Top(t) < Top(sender)
    requires Top(sender) < Top(trunk) && Near(s', trunk, sender)
    requires Top(t) < k <= Top(sender)
    ensures Near(s, trunk, t) && Brings(s, trunk, headers, k)
  {
    hide Linked, CollisionFree, Snapshot, Near, SentBefore;
    var e := Top(sender);
    TipHeight(s.mined, t);
    TipHeight(s.mined, sender);
    ParentNear(s.mined, s', trunk, sender);
    SnapshotEnds(s.mined, sender, from);
    Agreement.CommonPrefix(s.mined, sender, trunk, e - 1, e - 1);
    assert OnChain(trunk, t);
    NearTip(s, s', trunk, t, sender);
  }

  lemma NearTip(s: Net, s': Net, trunk: Table, t: Table, sender: Table)
    requires Near(s', trunk, sender) && SentBefore(s, s', trunk) && 0 < Top(sender)
    requires OnChain(trunk, t) && Top(t) < Top(sender)
    ensures Near(s, trunk, t) && Top(sender) in trunk
    ensures Top(sender) in sender ==>
      trunk[Top(sender)].hash == sender[Top(sender)].hash || NewBlock(trunk[Top(sender)]) in s.sent
  {
  }

  // ---------- the gap stays ----------

  /** The state, its successor and what the steps of a run provide about them. */
  ghost predicate Ready(s: Net, s': Net, trunk: Table) {
    && Safe(s) && Safe(s') && OwnWork(s) && Trunk(s, trunk) && s.mined <= s'.mined && AllGrow(s, s')
    && CollisionFree(s.mined) && CollisionFree(s'.mined) && ToldApart(s.mined) && ToldApart(s'.mined)
    && SentBefore(s, s', trunk)
  }

  lemma StillGap(s: Net, s': Net, trunk: Table, g: int, l: NodeId)
    requires Ready(s, s', trunk) && Gap(s, trunk, g) && l in s.nodes && Changes(s, s', l, Still) && OnTrunk(s', trunk, l)
    ensures Top(s'.nodes[l].table) < g
  {
    hide CollisionFree, ToldApart, Safe, OwnWork, TableLanded, Near, Available, SentBefore, Linked;
    SafeTables(s, l, l);
    StillNear(s, s', trunk, s.nodes[l].table);
    assert OnTrunk(s, trunk, l);
  }

  lemma ReplacedGap(s: Net, s': Net, trunk: Table, g: int, l: NodeId, b: Header)
    requires Ready(s, s', trunk) && Gap(s, trunk, g) && l in s.nodes && Changes(s, s', l, Replaced(b)) && OnTrunk(s', trunk, l)
    ensures Top(s'.nodes[l].table) < g
  {
    hide CollisionFree, ToldApart, Safe, OwnWork, TableLanded, Near, Available, SentBefore, Linked;
    SafeTables(s, l, l);
    MinedWhenSent(s, b) by {
      hide Changes;
    }
    ReplacedNear(s, s', trunk, s.nodes[l].table, b);
    assert OnTrunk(s, trunk, l);
  }

  lemma ExtendedGap(s: Net, s': Net, trunk: Table, g: int, l: NodeId, b: Header)
    requires Ready(s, s', trunk) && Gap(s, trunk, g) && l in s.nodes && Changes(s, s', l, Extended(b)) && OnTrunk(s', trunk, l)
    ensures Top(s'.nodes[l].table) < g
  {
    hide CollisionFree, ToldApart, Safe, OwnWork, Near, SentBefore, Linked, Available, TableLanded, Gap;
    SafeTables(s, l, l);
    SafeTables(s', l, l);
    LinkedMonotone(s.mined, s'.mined, trunk);
    TipHeight(s.mined, s.nodes[l].table);
    ExtendedNear(s, s', trunk, s.nodes[l].table, b);
    TrunkHeight(s.mined, trunk, b.height);
    hide Ready;
    StopsBelow(s, trunk, g, l, b);
  }

  lemma StopsBelow(s: Net, trunk: Table, g: int, l: NodeId, b: Header)
    requires Gap(s, trunk, g) && OnTrunk(s, trunk, l) && TableLanded(s.nodes, trunk) && 0 <= Top(s.nodes[l].table)
    requires b.height == Top(s.nodes[l].table) + 1 && b.height in trunk && trunk[b.height].height == b.height
    requires NewBlock(trunk[b.height]) in s.sent || (b == trunk[b.height] && b.minedBy == l)
    ensures b.height < g
  {
    hide Near, Brings;
    assert Landed(s.nodes, trunk[b.height]);
  }

  lemma TrunkHeight(mined: set<Header>, trunk: Table, k: int)
    requires Linked(mined, trunk) && k in trunk
    ensures trunk[k].height == k
  {
  }

  lemma SyncedGap(s: Net, s': Net, trunk: Table, g: int, l: NodeId, headers: seq<Header>, sender: Table, from: int)
    requires Ready(s, s', trunk) && Gap(s, trunk, g) && l in s.nodes && Changes(s, s', l, Synced(headers, sender, from)) && OnTrunk(s', trunk, l)
    ensures Top(s'.nodes[l].table) < g
  {
    hide CollisionFree, ToldApart, Safe, OwnWork, TableLanded, SentBefore, Linked, Brings, SnapshotOf, Agreement.Accepts;
    var t := s.nodes[l].table;
    SafeTables(s, l, l);
    TipHeight(s.mined, t);
    SenderTip(s.mined, sender, from, headers);
    assert Near(s', trunk, sender);
    SyncedNear(s, s', trunk, t, headers, sender, from, Top(sender));
    assert OnTrunk(s, trunk, l);
    if Top(sender) >= g {
      BetweenRows(s.mined, trunk, g);
      SyncedNear(s, s', trunk, t, headers, sender, from, g);
    }
  }

  lemma BetweenRows(mined: set<Header>, trunk: Table, g: int)
    requires Linked(mined, trunk) && 0 <= g <= Top(trunk)
    ensures g in trunk
  {
  }

  lemma SenderTip(mined: set<Header>, sender: Table, from: int, headers: seq<Header>)
    requires SnapshotOf(mined, sender, from, headers)
    ensures Top(sender) in sender
  {
    TipHeight(mined, sender);
  }

  lemma ChangedGap(s: Net, s': Net, trunk: Table, g: int, l: NodeId, change: Change)
    requires Ready(s, s', trunk) && Gap(s, trunk, g) && l in s.nodes && Changes(s, s', l, change) && OnTrunk(s', trunk, l)
    ensures Top(s'.nodes[l].table) < g
  {
    hide Ready, Gap, Changes, OnTrunk;
    match change
    case Still => StillGap(s, s', trunk, g, l);
    case Extended(b) => ExtendedGap(s, s', trunk, g, l, b);
    case Replaced(b) => ReplacedGap(s, s', trunk, g, l, b);
    case Synced(headers, sender, from) => SyncedGap(s, s', trunk, g, l, headers, sender, from);
  }

  /** A response sent in a step was cut from a table of that moment. */
  lemma ResponsesSent(s: Net, step: Step, headers: seq<Header>) returns (l: NodeId, from: int)
    requires BlocksResponse(headers) in Apply(s, step).sent && BlocksResponse(headers) !in s.sent
    ensures l in s.nodes && headers == Snapshot(s.nodes[l].table, from, Top(s.nodes[l].table)) && headers != []
  {
    hide Snapshot, Absorb, Draft, AddBlock, ReplaceLast, MeetsTarget;
    l, from := step.n, step.msg.from;
  }

  /** A response just cut that brings height `g` shows a node near the trunk that has reached it. */
  lemma CutGap(s: Net, s': Net, trunk: Table, g: int, l: NodeId, from: int)
    requires Ready(s, s', trunk) && 0 < g && l in s.nodes
    requires var t := s.nodes[l].table; from <= Top(t) && Brings(s', trunk, Snapshot(t, from, Top(t)), g)
    ensures OnTrunk(s, trunk, l) && g <= Top(s.nodes[l].table)
  {
    hide CollisionFree, ToldApart, Safe, OwnWork, TableLanded, Linked;
    var t := s.nodes[l].table;
    SafeTables(s, l, l);
    TipHeight(s.mined, t);
    SnapshotEnds(s.mined, t, from);
    hide Snapshot;
    TrunkHeight(s.mined, trunk, Top(t));
  }

  lemma BringsBefore(s: Net, s': Net, trunk: Table, headers: seq<Header>, k: int)
    requires Brings(s', trunk, headers, k) && SentBefore(s, s', trunk) && 0 < k
    ensures Brings(s, trunk, headers, k)
  {
  }

  lemma AvailableBefore(s: Net, step: Step, trunk: Table, g: int)
    requires Ready(s, Apply(s, step), trunk) && Gap(s, trunk, g) && 0 < g
    ensures !Available(Apply(s, step), trunk, g)
  {
    hide Apply, Ready, Brings, OnTrunk;
    var s' := Apply(s, step);
    assert SentBefore(s, s', trunk) by {
      ReadySent(s, s', trunk);
    }
    if Available(s', trunk, g) {
      if NewBlock(trunk[g]) !in s'.sent {
        var headers :| BlocksResponse(headers) in s'.sent && Brings(s', trunk, headers, g);
        if BlocksResponse(headers) in s.sent {
          BringsBefore(s, s', trunk, headers, g);
        } else {
          var l, from := ResponsesSent(s, step, headers);
          NoSnapshotAbove(s.nodes[l].table, from);
          CutGap(s, s', trunk, g, l, from);
        }
      }
    }
  }

  lemma ReadySent(s: Net, s': Net, trunk: Table)
    requires Ready(s, s', trunk)
    ensures SentBefore(s, s', trunk)
  {
  }

  lemma GapStays(s: Net, step: Step, trunk: Table, g: int)
    requires Ready(s, Apply(s, step), trunk) && Gap(s, trunk, g)
    ensures Gap(Apply(s, step), trunk, g)
  {
    hide Apply, Available, Changes, Near;
    var s' := Apply(s, step);
    if g > 0 {
      AvailableBefore(s, step, trunk, g);
    }
    assert Safe(s) && OwnWork(s) && CollisionFree(s'.mined) && s'.nodes.Keys == s.nodes.Keys;
    forall l | OnTrunk(s', trunk, l)
      ensures Top(s'.nodes[l].table) < g
    {
      hide Ready, Safe, OwnWork, CollisionFree, Gap;
      var change := StepChanges(s, step, l);
      ChangedGap(s, s', trunk, g, l, change);
    }
  }

  // ---------- no rival ----------

  ghost predicate NoRival(s: Net, trunk: Table) {
    Top(trunk) in trunk
    && forall x :: NewBlock(x) in s.sent ==> !(x.height == Top(trunk) && x.prevHash == trunk[Top(trunk)].prevHash)
  }

  lemma NoRivalStays(s: Net, step: Step, trunk: Table, g: int)
    requires Ready(s, Apply(s, step), trunk) && Gap(s, trunk, g) && NoRival(s, trunk)
    ensures NoRival(Apply(s, step), trunk)
  {
    hide Apply, CollisionFree, ToldApart, Safe, Linked, TableLanded, SentBefore, Available;
    var s' := Apply(s, step);
    forall x | NewBlock(x) in s'.sent
      ensures !(x.height == Top(trunk) && x.prevHash == trunk[Top(trunk)].prevHash)
    {
      Broadcasts(s, step, x);
      if NewBlock(x) !in s.sent && x.height == Top(trunk) && x.prevHash == trunk[Top(trunk)].prevHash {
        OnParent(s, trunk, x.minedBy);
      }
    }
  }

  /** A node whose tip is the parent of the tip of `trunk` is a lower node on it, just below. */
  lemma OnParent(s: Net, trunk: Table, l: NodeId)
    requires Safe(s) && CollisionFree(s.mined) && Trunk(s, trunk) && l in s.nodes
    requires Top(s.nodes[l].table) in s.nodes[l].table && Top(trunk) in trunk
    requires trunk[Top(trunk)].prevHash == s.nodes[l].table[Top(s.nodes[l].table)].hash
    ensures OnTrunk(s, trunk, l) && Top(s.nodes[l].table) == Top(trunk) - 1
  {
    hide CollisionFree, Safe, TableLanded;
    var t := s.nodes[l].table;
    SafeTables(s, l, l);
    assert Link(trunk, Top(trunk));
    hide Linked;
    Agreement.CommonPrefix(s.mined, trunk, t, Top(trunk) - 1, Top(t));
  }

  // ---------- two tips ----------

  /** The two rows at the height of the tip of `trunk`, one of them that tip, are different children of one block. */
  ghost predicate Level(s: Net, n: NodeId, m: NodeId, trunk: Table, b: Header) {
    && n in s.nodes && m in s.nodes && Top(trunk) in trunk
    && var h := Top(trunk);
    && b.prevHash == trunk[h].prevHash && b.hash != trunk[h].hash
    && h in s.nodes[n].table && s.nodes[n].table[h] == trunk[h]
    && h in s.nodes[m].table && s.nodes[m].table[h] == b
  }

  lemma LevelStays(s: Net, step: Step, n: NodeId, m: NodeId, trunk: Table, b: Header)
    requires Ready(s, Apply(s, step), trunk) && Level(s, n, m, trunk, b) && NoRival(s, trunk)
    ensures Level(Apply(s, step), n, m, trunk, b)
  {
    hide Apply, CollisionFree, ToldApart, Safe, OwnWork, Trunk, SentBefore;
    RowMoves(s, step, n, Top(trunk));
    RowMoves(s, step, m, Top(trunk));
  }

  lemma MakeReady(s: Net, future: seq<Step>, trunk: Table)
    requires Safe(s) && OwnWork(s) && Trunk(s, trunk) && future != []
    requires CollisionFree(After(s, future).mined) && ToldApart(After(s, future).mined)
    ensures Ready(s, Apply(s, future[0]), trunk)
    ensures OwnWork(Apply(s, future[0])) && Trunk(Apply(s, future[0]), trunk)
  {
    hide Safe, OwnWork, CollisionFree, ToldApart, Linked, SentBefore, Apply, AllGrow, TableLanded;
    FirstStep(s, future);
    ToldApartEarlier(s.mined, Apply(s, future[0]).mined);
    TrunkSent(s, future[0], trunk);
    OwnWorkLater(s, future[0]);
    LinkedMonotone(s.mined, Apply(s, future[0]).mined, trunk);
    TableLandedLater(s, Apply(s, future[0]), trunk);
  }

  lemma {:induction false} LevelForGood(s: Net, future: seq<Step>, n: NodeId, m: NodeId, trunk: Table, b: Header, g: int)
    requires Safe(s) && OwnWork(s) && Trunk(s, trunk)
    requires Level(s, n, m, trunk, b) && NoRival(s, trunk) && Gap(s, trunk, g)
    ensures !MeetsAfter(s, future, n, m)
    decreases |future|
  {
    hide Safe, CollisionFree, ToldApart, Apply, OwnWork, Agree, Trunk, Gap, NoRival, Ready;
    if MeetsAfter(s, future, n, m) {
      AfterSafe(s, future);
      if future == [] {
        DifferingRows(s, n, m, Top(trunk));
      } else {
        MakeReady(s, future, trunk);
        GapStays(s, future[0], trunk, g);
        NoRivalStays(s, future[0], trunk, g);
        LevelStays(s, future[0], n, m, trunk, b);
        hide Level;
        assert Safe(Apply(s, future[0])) by {
          FirstStep(s, future);
        }
        LevelForGood(Apply(s, future[0]), future[1..], n, m, trunk, b, g);
      }
    }
  }

  // ---------- where the gap is ----------

  /** The highest of the lower nodes near the trunk, if there are any. */
  lemma {:induction false} HighestOnTrunk(s: Net, trunk: Table, among: set<NodeId>) returns (l: Option<NodeId>)
    ensures l.Some? ==> l.value in among && OnTrunk(s, trunk, l.value)
    ensures forall x :: x in among && OnTrunk(s, trunk, x) ==>
      l.Some? && Top(s.nodes[x].table) <= Top(s.nodes[l.value].table)
    decreases |among|
  {
    hide Near;
    l := None;
    if x :| x in among {
      l := HighestOnTrunk(s, trunk, among - {x});
      assert forall y :: y in among ==> y == x || y in among - {x};
      if OnTrunk(s, trunk, x) && (l == None || Top(s.nodes[l.value].table) < Top(s.nodes[x].table)) {
        l := Some(x);
      }
    }
  }

  lemma FindGap(s: Net, trunk: Table) returns (g: int)
    requires Safe(s) && Linked(s.mined, trunk) && Top(trunk) > 0 && !exists l :: Climber(s, trunk, l)
    ensures Gap(s, trunk, g)
  {
    hide Safe, Linked, Near, Available;
    var l := HighestOnTrunk(s, trunk, s.nodes.Keys);
    if l == None {
      g := 0;
    } else {
      assert !Climber(s, trunk, l.value);
      g :| Top(s.nodes[l.value].table) < g < Top(trunk) && !Available(s, trunk, g);
      SafeTables(s, l.value, l.value);
      TipHeight(s.mined, s.nodes[l.value].table);
    }
  }
}
