/** Why nodes that do not meet the condition never come to one tip, whatever happens. */
module Parting {
  import opened Types
  import opened Protocol
  import opened Network
  import opened Provenance
  import opened Futures
  import opened Tips
  import Agreement
  import Difficulty

  // ---------- what one step can do to one chain ----------

  lemma AddKeepsRows(table: Table, b: Header, k: int)
    requires k in table
    ensures k in AddBlock(table, b).table && AddBlock(table, b).table[k] == table[k]
  {
  }

  lemma {:induction false} AbsorbKeepsRows(table: Table, headers: seq<Header>, k: int)
    requires k in table
    ensures k in Absorb(table, headers) && Absorb(table, headers)[k] == table[k]
    decreases |headers|
  {
    if headers != [] {
      AddKeepsRows(table, headers[0], k);
      hide AddBlock;
      AbsorbKeepsRows(if headers[0].height <= Top(table) then table else AddBlock(table, headers[0]).table, headers[1..], k);
    }
  }

  /** How a step changes a node's table: not at all, by one block on top, by a rival of the tip, or by a response. */
  datatype Change =
    | Still
    | Extended(b: Header)
    | Replaced(b: Header)
    | Synced(headers: seq<Header>, sender: Table, from: int)

  ghost predicate Changes(s: Net, s': Net, l: NodeId, change: Change)
    requires l in s.nodes
  {
    && l in s'.nodes
    && var t, t' := s.nodes[l].table, s'.nodes[l].table;
    match change
    case Still => t' == t
    case Extended(b) =>
      && Top(t) in t && b.height == Top(t) + 1 && b.prevHash == t[Top(t)].hash && t' == t[b.height := b] && Top(t') == b.height
      && b in s'.mined && (NewBlock(b) in s.sent || b.minedBy == l)
    case Replaced(b) =>
      Rival(s, b, t) && t' == t[Top(t) := b] && Top(t') == Top(t) && b in s.mined
    case Synced(headers, sender, from) =>
      && BlocksResponse(headers) in s.sent && SnapshotOf(s.mined, sender, from, headers)
      && Agreement.Accepts(t, sender, from) && Top(t) < Top(sender) && t' == sender + t && Top(t') == Top(sender)
  }

  lemma NewBlockCases(mined: set<Header>, t: Table, b: Header)
    requires CollisionFree(mined) && Tree(mined) && Linked(mined, t) && b in mined
    ensures Top(t) in t
    ensures var t' := OnNewBlock(t, b).table;
      if b.height == Top(t) + 1 && b.prevHash == t[Top(t)].hash then t' == t[b.height := b] && Top(t') == b.height
      else if b.height == Top(t) && b.prevHash == t[Top(t)].prevHash then t' == t[Top(t) := b] && Top(t') == Top(t)
      else t' == t
  {
    TipsStored(mined, t, t);
    hide Linked, Tree, CollisionFree;
    AddKeepsLinked(mined, t, b);
    ReplaceKeepsLinked(mined, t, b);
    hide AddBlock, ReplaceLast, Grows;
  }

  lemma NewBlockChanges(s: Net, l: NodeId, b: Header) returns (change: Change)
    requires Safe(s) && CollisionFree(s.mined) && l in s.nodes && NewBlock(b) in s.sent
    ensures Changes(s, Apply(s, Deliver(l, NewBlock(b))), l, change)
  {
    hide Linked, Tree, CollisionFree, Apply, OnNewBlock, Safe;
    var t := s.nodes[l].table;
    SafeTables(s, l, l);
    MinedWhenSent(s, b);
    NewBlockCases(s.mined, t, b);
    Delivered(s, l, NewBlock(b));
    change :=
      if b.height == Top(t) + 1 && b.prevHash == t[Top(t)].hash then Extended(b)
      else if b.height == Top(t) && b.prevHash == t[Top(t)].prevHash then Replaced(b)
      else Still;
  }

  lemma MinedWhenSent(s: Net, b: Header)
    requires Safe(s) && NewBlock(b) in s.sent
    ensures b in s.mined && b.height >= 1
  {
    assert MsgOk(s.mined, NewBlock(b));
    hide Linked;
  }

  lemma ResponseCases(mined: set<Header>, t: Table, sender: Table, from: int)
    requires CollisionFree(mined) && Tree(mined) && Linked(mined, t) && Linked(mined, sender)
    ensures var t' := Absorb(t, Snapshot(sender, from, Top(sender)));
      if Agreement.Accepts(t, sender, from) && Top(t) < Top(sender) then t' == sender + t && Top(t') == Top(sender) else t' == t
  {
    hide Tree, CollisionFree, Absorb, Snapshot;
    Agreement.SyncExchange(mined, t, sender, from);
    SenderAdds(mined, t, sender);
    hide Linked, Agreement.Accepts;
  }

  lemma ResponseChanges(s: Net, l: NodeId, headers: seq<Header>) returns (change: Change)
    requires Safe(s) && CollisionFree(s.mined) && l in s.nodes && BlocksResponse(headers) in s.sent
    ensures Changes(s, Apply(s, Deliver(l, BlocksResponse(headers))), l, change)
  {
    hide Linked, Tree, CollisionFree, Apply, Absorb, Snapshot, Safe, Agreement.Accepts;
    var t := s.nodes[l].table;
    SafeTables(s, l, l);
    var sender, from := ResponseSource(s, headers);
    ResponseCases(s.mined, t, sender, from);
    Delivered(s, l, BlocksResponse(headers));
    change := if Agreement.Accepts(t, sender, from) && Top(t) < Top(sender) then Synced(headers, sender, from) else Still;
  }

  lemma SenderAdds(mined: set<Header>, t: Table, sender: Table)
    requires Linked(mined, t) && Linked(mined, sender)
    ensures Top(sender) <= Top(t) ==> sender + t == t
    ensures Top(t) < Top(sender) ==> Top(sender + t) == Top(sender)
  {
    assert Top(sender) in sender && Top(t) in t;
    if Top(t) < Top(sender) {
      assert Top(sender) in sender + t;
    }
  }

  lemma HitChanges(s: Net, l: NodeId, nonce: int, hash: Hash) returns (change: Change)
    requires Safe(s) && OwnWork(s) && l in s.nodes && s.nodes[l].work.Some? && CollisionFree(Hit(s, l, nonce, hash).mined)
    ensures Changes(s, Hit(s, l, nonce, hash), l, change)
  {
    hide MeetsTarget, CollisionFree, Safe, Linked, Tree, Insert;
    var t := s.nodes[l].table;
    var b := s.nodes[l].work.value.(nonce := nonce, hash := hash);
    SafeTables(s, l, l);
    TipsStored(s.mined, t, t);
    HitIsOwn(s, l, nonce, hash);
    if Hit(s, l, nonce, hash).nodes[l].table == t {
      change := Still;
    } else {
      change := Extended(b);
      HitSafe(s, l, nonce, hash);
      TopChild(Hit(s, l, nonce, hash), l, t, b);
      NamesTip(t, b);
    }
  }

  lemma NamesTip(t: Table, b: Header)
    requires AddBlock(t, b).table != t && b.height > 0
    ensures Top(t) in t && b.prevHash == t[Top(t)].hash
  {
  }

  lemma TopChild(s: Net, l: NodeId, t: Table, b: Header)
    requires Safe(s) && l in s.nodes && s.nodes[l].table == t[b.height := b] && 0 <= Top(t) < b.height
    ensures b.height == Top(t) + 1 && Top(t[b.height := b]) == b.height
  {
    var t' := t[b.height := b];
    assert Linked(s.mined, t');
    assert b.height in t';
    assert b.height - 1 in t';
  }

  lemma MinedNoLess(s: Net, step: Step)
    ensures s.mined <= Apply(s, step).mined
  {
    AfterMined(s, [step]);
    AfterOne(s, step);
    hide Apply;
  }

  lemma StaysStill(s: Net, step: Step, l: NodeId)
    requires l in s.nodes
    requires !(step.Deliver? && step.n == l && step.msg in s.sent && !step.msg.GetBlocks?)
    requires !(step.Found? && step.n == l && s.nodes[l].work.Some?)
    ensures l in Apply(s, step).nodes && Apply(s, step).nodes[l].table == s.nodes[l].table
  {
    hide MeetsTarget, AddBlock, ReplaceLast, Absorb, Snapshot, Draft;
  }

  lemma StepChanges(s: Net, step: Step, l: NodeId) returns (change: Change)
    requires Safe(s) && OwnWork(s) && l in s.nodes && CollisionFree(Apply(s, step).mined)
    ensures Changes(s, Apply(s, step), l, change)
  {
    MinedNoLess(s, step);
    CollisionFreeEarlier(s.mined, Apply(s, step).mined);
    hide Safe, OwnWork, CollisionFree;
    if step.Deliver? && step.n == l && step.msg in s.sent && step.msg.NewBlock? {
      hide Apply, Changes;
      change := NewBlockChanges(s, l, step.msg.header);
    } else if step.Deliver? && step.n == l && step.msg in s.sent && step.msg.BlocksResponse? {
      hide Apply, Changes;
      change := ResponseChanges(s, l, step.msg.headers);
    } else if step.Found? && step.n == l && s.nodes[l].work.Some? {
      hide Changes, Hit;
      change := HitChanges(s, l, step.nonce, step.hash);
    } else {
      hide Apply;
      StaysStill(s, step, l);
      change := Still;
    }
  }

  lemma ChangeKeepsRow(s: Net, s': Net, l: NodeId, change: Change, k: int)
    requires l in s.nodes && k in s.nodes[l].table && k <= Top(s.nodes[l].table) && Changes(s, s', l, change)
    ensures l in s'.nodes && k in s'.nodes[l].table
    ensures var t, x := s.nodes[l].table, s'.nodes[l].table[k];
      x == t[k] || (k == Top(t) && Rival(s, x, t) && x in s.mined)
  {
    hide Rival, SnapshotOf, Agreement.Accepts;
  }

  /** A stored row changes only at the tip, and only to a rival that was on its way. */
  lemma RowMoves(s: Net, step: Step, m: NodeId, k: int)
    requires Safe(s) && OwnWork(s) && CollisionFree(Apply(s, step).mined)
    requires m in s.nodes && k in s.nodes[m].table
    ensures var b, s' := s.nodes[m].table, Apply(s, step);
      && m in s'.nodes && k in s'.nodes[m].table
      && (s'.nodes[m].table[k] == b[k]
          || (k == Top(b) && Rival(s, s'.nodes[m].table[k], b) && s'.nodes[m].table[k] in s.mined))
  {
    hide Safe, OwnWork, CollisionFree, Apply, Rival, Changes;
    var change := StepChanges(s, step, m);
    ChangeKeepsRow(s, Apply(s, step), m, change, k);
  }

  // ---------- what can no longer be broadcast ----------

  /** What a step broadcasts was on its way before, or is new, higher than its miner's chain and on top of it. */
  lemma Broadcasts(s: Net, step: Step, x: Header)
    requires OwnWork(s) && NewBlock(x) in Apply(s, step).sent
    ensures NewBlock(x) in s.sent
      || (x.minedBy in s.nodes
          && var t := s.nodes[x.minedBy].table;
          Top(t) < x.height && (x.height > 0 ==> Top(t) in t && x.prevHash == t[Top(t)].hash))
  {
    if step.Found? && step.n in s.nodes && s.nodes[step.n].work.Some? {
      hide Hit;
      HitIsOwn(s, step.n, step.nonce, step.hash);
      if NewBlock(x) !in s.sent && x.height > 0 {
        HitNamesTip(s, step.n, step.nonce, step.hash);
      }
    } else {
      hide Hit, AddBlock, ReplaceLast, Absorb, Snapshot, Draft;
    }
  }

  lemma HitNamesTip(s: Net, n: NodeId, nonce: int, hash: Hash)
    requires n in s.nodes && s.nodes[n].work.Some? && s.nodes[n].work.value.height > 0
    requires Hit(s, n, nonce, hash).sent != s.sent
    ensures var t, b := s.nodes[n].table, s.nodes[n].work.value.(nonce := nonce, hash := hash);
      Top(t) in t && b.prevHash == t[Top(t)].hash
  {
    hide MeetsTarget, Insert;
  }

  /** A stored block that is not on its way will not be sent again: only its miner could, and is past its height. */
  lemma NotSentAgain(s: Net, step: Step, x: Header)
    requires OwnWork(s) && Landed(s.nodes, x) && x.height > 0
    requires NewBlock(x) in Apply(s, step).sent
    ensures NewBlock(x) in s.sent
  {
    Broadcasts(s, step, x);
  }

  lemma OwnWorkLater(s: Net, step: Step)
    requires OwnWork(s)
    ensures OwnWork(Apply(s, step))
  {
    if step.Found? && step.n in s.nodes && s.nodes[step.n].work.Some? {
      HitIsOwn(s, step.n, step.nonce, step.hash);
      hide Hit;
    } else {
      hide Hit, OnMessage, Top, Difficulty.Current;
    }
  }

  // ---------- different heights ----------

  /** The higher chain's block at the lower tip's height is another one, for good, and is not on its way to the lower one. */
  ghost predicate Behind(s: Net, n: NodeId, m: NodeId, c: Header) {
    && n in s.nodes && m in s.nodes && c in s.mined && c.height > 0 && Landed(s.nodes, c) && NewBlock(c) !in s.sent
    && var a, b := s.nodes[n].table, s.nodes[m].table;
    && c.height in a && c.height < Top(a) && a[c.height] == c
    && c.height in b && b[c.height].hash != c.hash
  }

  lemma BehindStays(s: Net, step: Step, n: NodeId, m: NodeId, c: Header)
    requires Safe(s) && OwnWork(s) && CollisionFree(Apply(s, step).mined) && ToldApart(s.mined) && Behind(s, n, m, c)
    requires AllGrow(s, Apply(s, step))
    ensures Behind(Apply(s, step), n, m, c)
  {
    hide Apply, CollisionFree, Safe, OwnWork;
    RowMoves(s, step, m, c.height);
    LandedLater(s, Apply(s, step), c);
    if NewBlock(c) in Apply(s, step).sent {
      NotSentAgain(s, step, c);
    }
    hide Landed;
  }

  /** Rows that differ at some height keep the tips apart. */
  lemma DifferingRows(s: Net, n: NodeId, m: NodeId, k: int)
    requires Safe(s) && CollisionFree(s.mined) && n in s.nodes && m in s.nodes
    requires k in s.nodes[n].table && k in s.nodes[m].table && s.nodes[n].table[k].hash != s.nodes[m].table[k].hash
    ensures !Agree(s, n, m)
  {
    var a, b := s.nodes[n].table, s.nodes[m].table;
    SafeTables(s, n, m);
    if Agree(s, n, m) {
      assert k <= Top(a);
      hide Safe, CollisionFree, Linked, Tree;
      Agreement.ForkNeverMerges(s.mined, a, b, k, Top(a), Top(b));
    }
  }

  lemma ToldApartEarlier(mined: set<Header>, mined': set<Header>)
    requires mined <= mined' && ToldApart(mined')
    ensures ToldApart(mined)
  {
  }

  lemma {:induction false} BehindForGood(s: Net, future: seq<Step>, n: NodeId, m: NodeId, c: Header)
    requires Safe(s) && OwnWork(s) && Behind(s, n, m, c)
    ensures !MeetsAfter(s, future, n, m)
    decreases |future|
  {
    hide Safe, CollisionFree, ToldApart, Apply, OwnWork, Agree, Landed;
    if MeetsAfter(s, future, n, m) {
      AfterSafe(s, future);
      ToldApartEarlier(s.mined, After(s, future).mined);
      if future == [] {
        DifferingRows(s, n, m, c.height);
      } else {
        FirstStep(s, future);
        BehindStays(s, future[0], n, m, c);
        OwnWorkLater(s, future[0]);
        hide Behind;
        BehindForGood(Apply(s, future[0]), future[1..], n, m, c);
      }
    }
  }

  lemma FirstStep(s: Net, future: seq<Step>)
    requires Safe(s) && future != [] && CollisionFree(After(s, future).mined) && ToldApart(After(s, future).mined)
    ensures var s' := Apply(s, future[0]);
      && Safe(s') && AllGrow(s, s') && CollisionFree(s.mined) && CollisionFree(s'.mined) && ToldApart(s'.mined)
      && s.mined <= s'.mined
  {
    hide Safe, CollisionFree, ToldApart, Apply, AllGrow;
    AfterSafe(s, future);
    AfterMined(Apply(s, future[0]), future[1..]);
    CollisionFreeEarlier(Apply(s, future[0]).mined, After(s, future).mined);
    ToldApartEarlier(Apply(s, future[0]).mined, After(s, future).mined);
    MinedNoLess(s, future[0]);
    StepSafe(s, future[0]);
  }
}
