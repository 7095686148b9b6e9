/** A lower node climbs to the parent of two competing tips and mines a rival of both. */
module Climbing {
  import opened Types
  import opened Protocol
  import opened Network
  import opened Futures
  import opened Tips
  import opened Meeting
  import Agreement
  import Difficulty

  lemma ClimberLater(s: Net, s': Net, trunk: Table, l: NodeId)
    requires Climber(s, trunk, l) && s.sent <= s'.sent
    requires OnTrunk(s', trunk, l) && Top(s.nodes[l].table) <= Top(s'.nodes[l].table)
    ensures Climber(s', trunk, l)
  {
    forall k | Top(s'.nodes[l].table) < k < Top(trunk)
      ensures Available(s', trunk, k)
    {
      assert Available(s, trunk, k);
      AvailableLater(s, s', trunk, k);
    }
  }

  lemma AvailableLater(s: Net, s': Net, trunk: Table, k: int)
    requires Available(s, trunk, k) && s.sent <= s'.sent
    ensures Available(s', trunk, k)
  {
    if NewBlock(trunk[k]) !in s.sent {
      var headers :| BlocksResponse(headers) in s.sent && Brings(s, trunk, headers, k);
      assert Brings(s', trunk, headers, k);
    }
  }

  lemma BlockClimbs(mined: set<Header>, trunk: Table, b: Table, k: int)
    requires CollisionFree(mined) && Tree(mined) && Linked(mined, trunk) && Linked(mined, b)
    requires OnChain(trunk, b) && k == Top(b) + 1 && k in trunk
    ensures var b' := OnNewBlock(b, trunk[k]).table;
      Top(b') == k && OnChain(trunk, b')
  {
    hide CollisionFree, Tree;
    assert Link(trunk, k) && trunk[k].height == k && trunk[k] in mined;
    AddKeepsLinked(mined, b, trunk[k]);
    hide Linked, AddBlock, ReplaceLast;
  }

  /** One block further up. */
  lemma ClimbByBlock(s: Net, trunk: Table, l: NodeId, k: int) returns (step: Step)
    requires Safe(s) && CollisionFree(s.mined) && Linked(s.mined, trunk) && l in s.nodes
    requires OnChain(trunk, s.nodes[l].table) && k == Top(s.nodes[l].table) + 1 && k in trunk && NewBlock(trunk[k]) in s.sent
    ensures var s' := Apply(s, step);
      && OnlyMove(s, s', {l}) && Safe(s')
      && Top(s'.nodes[l].table) == k && OnChain(trunk, s'.nodes[l].table)
  {
    hide Linked, Tree, CollisionFree, Safe, Apply, OnNewBlock, OnChain;
    SafeTables(s, l, l);
    BlockClimbs(s.mined, trunk, s.nodes[l].table, k);
    step := Step.Deliver(l, NewBlock(trunk[k]));
    Delivered(s, l, NewBlock(trunk[k]));
    StepSafe(s, step);
  }

  /** What a response that brings the block at the next height makes of a table on the trunk. */
  lemma ResponseClimbs(s: Net, trunk: Table, b: Table, headers: seq<Header>)
    requires Safe(s) && CollisionFree(s.mined) && Linked(s.mined, trunk) && Linked(s.mined, b)
    requires BlocksResponse(headers) in s.sent && OnChain(trunk, b) && Brings(s, trunk, headers, Top(b) + 1)
    ensures var b' := Absorb(b, headers);
      Top(b) < Top(b') < Top(trunk) && Near(s, trunk, b')
  {
    hide Safe, CollisionFree, Tree, Linked, Absorb, Snapshot, Near, OnChain;
    var sender, from := ResponseSource(s, headers);
    NoSnapshotAbove(sender, from);
    SnapshotEnds(s.mined, sender, from);
    TipHeight(s.mined, sender);
    TipHeight(s.mined, b);
    ParentOfRow(s.mined, sender, Top(sender));
    ParentOfRow(s.mined, trunk, Top(sender));
    Agreement.CommonPrefix(s.mined, sender, trunk, Top(sender) - 1, Top(sender) - 1);
    OnSender(trunk, b, sender, from);
    SafeTree(s);
    Agreement.SyncExchange(s.mined, b, sender, from);
    RowsBelowTop(s.mined, b);
    RowsBelowTop(s.mined, sender);
    JoinedTop(sender, b);
    NearSender(s, trunk, sender, sender + b);
  }

  lemma SafeTree(s: Net)
    requires Safe(s)
    ensures Tree(s.mined)
  {
  }

  lemma OnSender(trunk: Table, b: Table, sender: Table, from: int)
    requires OnChain(trunk, b) && from <= Top(b) + 1 && Top(b) in sender && sender[Top(b)].hash == trunk[Top(b)].hash
    ensures Agreement.Accepts(b, sender, from)
  {
  }

  lemma NearSender(s: Net, trunk: Table, sender: Table, b': Table)
    requires Top(b') == Top(sender) && Top(sender) in sender && Top(sender) in b' && b'[Top(sender)] == sender[Top(sender)]
    requires Top(sender) in trunk && Top(sender) < Top(trunk) && trunk[Top(sender)].height == Top(sender)
    requires sender[Top(sender)].prevHash == trunk[Top(sender)].prevHash
    requires sender[Top(sender)].hash == trunk[Top(sender)].hash || NewBlock(trunk[Top(sender)]) in s.sent
    ensures Near(s, trunk, b')
  {
  }

  lemma RowsAtLeastZero(mined: set<Header>, trunk: Table, k: int)
    requires Linked(mined, trunk) && k in trunk
    ensures 0 <= k
  {
  }

  lemma ParentOfRow(mined: set<Header>, trunk: Table, k: int)
    requires Linked(mined, trunk) && 0 < k && k in trunk
    ensures k - 1 in trunk && trunk[k].prevHash == trunk[k - 1].hash && trunk[k].height == k
  {
    assert Link(trunk, k);
  }

  lemma ClimbByResponse(s: Net, trunk: Table, l: NodeId, headers: seq<Header>) returns (step: Step)
    requires Safe(s) && CollisionFree(s.mined) && Linked(s.mined, trunk) && l in s.nodes
    requires BlocksResponse(headers) in s.sent && OnChain(trunk, s.nodes[l].table)
    requires Brings(s, trunk, headers, Top(s.nodes[l].table) + 1)
    ensures var s' := Apply(s, step);
      && OnlyMove(s, s', {l}) && Safe(s')
      && Top(s.nodes[l].table) < Top(s'.nodes[l].table) && OnTrunk(s', trunk, l)
  {
    hide Linked, Tree, CollisionFree, Safe, Brings, OnChain, Apply, Near;
    var b := s.nodes[l].table;
    SafeTables(s, l, l);
    ResponseClimbs(s, trunk, b, headers);
    assert OnMessage(b, BlocksResponse(headers)).table == Absorb(b, headers);
    hide OnMessage;
    step := Step.Deliver(l, BlocksResponse(headers));
    Delivered(s, l, BlocksResponse(headers));
    StepSafe(s, step);
    NearLater(s, Apply(s, step), trunk, Absorb(b, headers));
  }

  /** Onto the trunk, if only near it. */
  lemma ClimbOn(s: Net, trunk: Table, l: NodeId) returns (step: Step)
    requires Safe(s) && CollisionFree(s.mined) && Linked(s.mined, trunk) && OnTrunk(s, trunk, l) && !OnChain(trunk, s.nodes[l].table)
    ensures var s' := Apply(s, step);
      && OnlyMove(s, s', {l}) && Safe(s') && OnTrunk(s', trunk, l)
      && Top(s'.nodes[l].table) == Top(s.nodes[l].table) && OnChain(trunk, s'.nodes[l].table)
  {
    hide Safe, CollisionFree, Apply, Linked;
    step := AdoptRival(s, l, trunk[Top(s.nodes[l].table)]);
  }

  lemma {:induction false} Climb(s: Net, trunk: Table, l: NodeId) returns (future: seq<Step>)
    requires Safe(s) && CollisionFree(s.mined) && Linked(s.mined, trunk) && Climber(s, trunk, l)
    ensures var s' := After(s, future);
      && OnlyMove(s, s', {l}) && Safe(s')
      && Top(s'.nodes[l].table) == Top(trunk) - 1 && OnChain(trunk, s'.nodes[l].table)
    decreases Top(trunk) - Top(s.nodes[l].table), if OnChain(trunk, s.nodes[l].table) then 0 else 1
  {
    hide Safe, CollisionFree, Apply, Linked, Near, Brings, OnChain;
    var b := s.nodes[l].table;
    future := [];
    if !OnChain(trunk, b) || Top(b) < Top(trunk) - 1 {
      var step: Step;
      if !OnChain(trunk, b) {
        step := ClimbOn(s, trunk, l);
      } else {
        step := ClimbHigher(s, trunk, l);
      }
      var s1 := Apply(s, step);
      ClimberLater(s, s1, trunk, l);
      assert s1.mined == s.mined;
      var rest := Climb(s1, trunk, l);
      future := [step] + rest;
      AfterOne(s, step);
      AfterBoth(s, [step], rest);
      OnlyMoveTwice(s, s1, After(s1, rest), {l}, {l});
      assert {l} + {l} == {l};
    }
  }

  lemma ClimbHigher(s: Net, trunk: Table, l: NodeId) returns (step: Step)
    requires Safe(s) && CollisionFree(s.mined) && Linked(s.mined, trunk) && Climber(s, trunk, l)
    requires OnChain(trunk, s.nodes[l].table) && Top(s.nodes[l].table) < Top(trunk) - 1
    ensures var s' := Apply(s, step);
      && OnlyMove(s, s', {l}) && Safe(s')
      && Top(s.nodes[l].table) < Top(s'.nodes[l].table) && OnTrunk(s', trunk, l)
  {
    hide Safe, CollisionFree, Apply, Linked, Brings;
    var k := Top(s.nodes[l].table) + 1;
    assert Available(s, trunk, k);
    if NewBlock(trunk[k]) in s.sent {
      step := ClimbByBlock(s, trunk, l, k);
    } else {
      var headers :| BlocksResponse(headers) in s.sent && Brings(s, trunk, headers, k);
      step := ClimbByResponse(s, trunk, l, headers);
    }
  }

  // ---------- mining ----------

  /** The header a node mines on its chain with this hash, a time of 0 and an empty Merkle root. */
  function MinedOn(table: Table, n: NodeId, hash: Hash): Header {
    Draft(table, n, "", 0).(nonce := 0, hash := hash)
  }

  function MineSteps(n: NodeId, hash: Hash): seq<Step> {
    [Step.Start(n, "", 0), Step.Found(n, 0, hash)]
  }

  lemma MinedOnTip(table: Table, n: NodeId, hash: Hash)
    requires Top(table) in table && 0 <= Top(table)
    requires forall k :: k in table ==> table[k].hash != hash && k <= Top(table)
    ensures var h := MinedOn(table, n, hash);
      && h.height == Top(table) + 1 && h.prevHash == table[Top(table)].hash && h.hash == hash
      && h.difficulty == Difficulty.Current(table)
      && AddBlock(table, h) == Put(table[h.height := h], true)
      && Top(table[h.height := h]) == h.height
  {
    hide Difficulty.Current;
    var h := MinedOn(table, n, hash);
    assert h.height in table[h.height := h];
  }

  /** A node finds a block on its own chain; nothing is delivered to anybody. */
  lemma MineAlone(s: Net, n: NodeId, hash: Hash)
    requires n in s.nodes
    requires var table := s.nodes[n].table;
      && Top(table) in table && 0 <= Top(table)
      && (forall k :: k in table ==> table[k].hash != hash && k <= Top(table))
      && MeetsTarget(hash, Difficulty.Current(table))
    ensures var s', table := After(s, MineSteps(n, hash)), s.nodes[n].table;
      var h := MinedOn(table, n, hash);
      && s'.nodes == s.nodes[n := Node(table[h.height := h], None)]
      && s'.mined == s.mined + {h} && s'.sent == s.sent + {NewBlock(h)}
  {
    var table := s.nodes[n].table;
    MinedOnTip(table, n, hash);
    hide MeetsTarget, AddBlock, Difficulty.Current;
    var x, y := Step.Start(n, "", 0), Step.Found(n, 0, hash);
    AfterTwo(s, x, y);
  }

  lemma {:induction false} LongerThanAll(mined: set<Header>) returns (length: nat)
    ensures length > 64 && forall h :: h in mined ==> |h.hash| < length
    decreases |mined|
  {
    length := 65;
    if h :| h in mined {
      var rest := LongerThanAll(mined - {h});
      length := if |h.hash| < rest then rest else |h.hash| + 1;
      assert forall g :: g in mined ==> g == h || g in mined - {h};
    }
  }

  /** A hash that meets a target and that no block has. */
  lemma FreshHash(mined: set<Header>, d: int) returns (hash: Hash)
    requires Difficulty.Legal(d)
    ensures MeetsTarget(hash, d) && Fresh(mined, hash)
  {
    var length := LongerThanAll(mined);
    hash := Zeros(length);
    assert hash[..d] == Zeros(d);
  }

  ghost predicate Fresh(mined: set<Header>, hash: Hash) {
    hash != GENESIS_HASH && forall h :: h in mined ==> h.hash != hash
  }

  lemma FreshTellsApart(mined: set<Header>, x: Header)
    requires CollisionFree(mined) && ToldApart(mined) && Fresh(mined, x.hash)
    ensures CollisionFree(mined + {x}) && ToldApart(mined + {x})
  {
    var mined' := mined + {x};
    forall a, b | Known(mined', a) && Known(mined', b) && a.hash == b.hash
      ensures a.height == b.height && a.prevHash == b.prevHash
    {
      if a != x && b != x {
        assert Known(mined, a) && Known(mined, b);
      }
    }
  }

  lemma FreshOnTable(mined: set<Header>, table: Table, hash: Hash)
    requires Linked(mined, table) && Fresh(mined, hash)
    ensures 0 <= Top(table) && Top(table) in table && forall k :: k in table ==> table[k].hash != hash && k <= Top(table)
  {
    hide HasParent;
  }

  /** A node on any chain mines a block and announces it. */
  lemma MineFresh(s: Net, l: NodeId) returns (future: seq<Step>, x: Header)
    requires Safe(s) && CollisionFree(s.mined) && ToldApart(s.mined) && l in s.nodes
    ensures var s', b := After(s, future), s.nodes[l].table;
      && Safe(s') && CollisionFree(s'.mined) && ToldApart(s'.mined)
      && s'.sent == s.sent + {NewBlock(x)}
      && s'.nodes == s.nodes[l := Node(b[x.height := x], None)] && Top(b[x.height := x]) == x.height
      && Top(b) in b && x.height == Top(b) + 1 && x.prevHash == b[Top(b)].hash
  {
    var b := s.nodes[l].table;
    hide Safe, CollisionFree, ToldApart, Linked, Tree, Apply, Difficulty.Current, Fresh;
    SafeTables(s, l, l);
    DifficultyOfLinked(s.mined, b);
    hide Difficulty.Legal, MeetsTarget;
    var hash := FreshHash(s.mined, Difficulty.Current(b));
    FreshOnTable(s.mined, b, hash);
    MinedOnTip(b, l, hash);
    x := MinedOn(b, l, hash);
    hide MinedOn;
    MineAlone(s, l, hash);
    FreshTellsApart(s.mined, x);
    future := MineSteps(l, hash);
    AfterSafe(s, future);
  }

  /** A climber ends with a new block at the height of the tip of `trunk` and on its parent, announced to all. */
  lemma MineRival(s: Net, trunk: Table, l: NodeId) returns (future: seq<Step>, x: Header)
    requires Safe(s) && CollisionFree(s.mined) && ToldApart(s.mined) && Linked(s.mined, trunk) && Climber(s, trunk, l)
    ensures Rivaled(s, After(s, future), trunk, x, {l})
  {
    hide Safe, CollisionFree, ToldApart, Linked, Apply, Near;
    var first := Climb(s, trunk, l);
    var s1 := After(s, first);
    RowsAtLeastZero(s.mined, trunk, Top(trunk) - 1);
    var second;
    second, x := MineFresh(s1, l);
    AfterBoth(s, first, second);
    future := first + second;
    TipHeight(s.mined, trunk);
    ParentOfRow(s.mined, trunk, Top(trunk));
  }

  /** A block that competes with the tip of `trunk` is on its way; only nodes that were lower have changed, and have it as
      their tip. */
  ghost predicate Rivaled(s: Net, s': Net, trunk: Table, x: Header, movers: set<NodeId>) {
    && Safe(s') && CollisionFree(s'.mined) && ToldApart(s'.mined)
    && s.sent <= s'.sent && s'.nodes.Keys == s.nodes.Keys
    && NewBlock(x) in s'.sent && Top(trunk) in trunk && x.height == Top(trunk) && x.prevHash == trunk[Top(trunk)].prevHash
    && (forall y :: y in s.nodes && y !in movers ==> s'.nodes[y].table == s.nodes[y].table)
    && (forall y :: y in s.nodes && y in movers ==>
          var t := s'.nodes[y].table;
          Top(s.nodes[y].table) < Top(trunk) && Top(t) == Top(trunk) && Top(t) in t && t[Top(t)] == x)
  }
}
