/** The steps that bring nodes to one tip. */
module Meeting {
  import opened Types
  import opened Protocol
  import opened Network
  import opened Futures
  import opened Tips
  import Agreement
  import Difficulty

  /** Only the tables of these nodes may differ; nothing was mined and nothing lost. */
  ghost predicate OnlyMove(s: Net, s': Net, movers: set<NodeId>) {
    && s'.nodes.Keys == s.nodes.Keys && s'.mined == s.mined && s.sent <= s'.sent
    && forall x :: x in s.nodes && x !in movers ==> s'.nodes[x].table == s.nodes[x].table
  }

  lemma OnlyMoveTwice(s: Net, s1: Net, s2: Net, movers1: set<NodeId>, movers2: set<NodeId>)
    requires OnlyMove(s, s1, movers1) && OnlyMove(s1, s2, movers2)
    ensures OnlyMove(s, s2, movers1 + movers2)
  {
  }

  lemma Synced(s: Net, n: NodeId)
    requires n in s.nodes
    ensures Apply(s, Step.Sync(n)) == s.(sent := s.sent + {SyncRequest(s.nodes[n].table)})
  {
  }

  lemma JoinedTop(a: Table, b: Table)
    requires Top(b) < Top(a) && Top(a) in a
    requires forall k :: k in b ==> k <= Top(b)
    requires forall k :: k in a ==> k <= Top(a)
    ensures Top(a) in a + b && Top(a + b) == Top(a) && (a + b)[Top(a)] == a[Top(a)]
  {
    assert Top(a) !in b;
  }

  /** Asking a higher node for what comes above the own tip gives its tip. */
  lemma AnswerGivesTip(mined: set<Header>, a: Table, b: Table) returns (answer: Msg)
    requires CollisionFree(mined) && Tree(mined) && Linked(mined, a) && Linked(mined, b)
    requires Top(b) < Top(a) && a[Top(b)].hash == b[Top(b)].hash
    ensures OnMessage(a, SyncRequest(b)) == Reaction(a, Some(answer))
    ensures SameTip(a, OnMessage(b, answer).table)
  {
    hide CollisionFree, Tree, OnMessage, Known, HasParent;
    var request := SyncRequest(b);
    Agreement.LaggingNodeCatchesUp(mined, b, a, request);
    answer := OnMessage(a, request).reply.value;
    JoinedTop(a, b);
  }

  /** A higher node and one whose tip lies on its chain: one request and one answer. */
  lemma AskAndAbsorb(s: Net, n: NodeId, m: NodeId) returns (future: seq<Step>)
    requires n in s.nodes && m in s.nodes && n != m
    requires CollisionFree(s.mined) && Tree(s.mined) && Linked(s.mined, s.nodes[n].table) && Linked(s.mined, s.nodes[m].table)
    requires var a, b := s.nodes[n].table, s.nodes[m].table;
      Top(b) < Top(a) && a[Top(b)].hash == b[Top(b)].hash
    ensures Agree(After(s, future), n, m) && OnlyMove(s, After(s, future), {m})
  {
    var a, b := s.nodes[n].table, s.nodes[m].table;
    var answer := AnswerGivesTip(s.mined, a, b);
    hide Linked, Tree, CollisionFree, OnMessage, SameTip, Apply, SyncRequest;
    var request := SyncRequest(b);
    var x, y, z := Step.Sync(m), Step.Deliver(n, request), Step.Deliver(m, answer);
    future := [x, y, z];
    AfterThree(s, x, y, z);
    Synced(s, m);
    Delivered(Apply(s, x), n, request);
    Delivered(Apply(Apply(s, x), y), m, answer);
  }

  /** A rival on its way, delivered, becomes the tip. */
  lemma AdoptRival(s: Net, m: NodeId, x: Header) returns (step: Step)
    requires Safe(s) && CollisionFree(s.mined) && m in s.nodes && Rival(s, x, s.nodes[m].table)
    ensures var s', b := Apply(s, step), s.nodes[m].table;
      && OnlyMove(s, s', {m}) && Safe(s')
      && s'.nodes[m].table == b[Top(b) := x] && Top(s'.nodes[m].table) == Top(b)
  {
    var b := s.nodes[m].table;
    SafeTables(s, m, m);
    assert x in s.mined by {
      assert MsgOk(s.mined, NewBlock(x));
    }
    ReplaceKeepsLinked(s.mined, b, x);
    assert OnMessage(b, NewBlock(x)).table == b[Top(b) := x] by {
      hide ReplaceLast, AddBlock, CollisionFree, Tree;
    }
    hide Linked, Tree, CollisionFree, Safe, OnMessage, Apply, ReplaceLast;
    step := Step.Deliver(m, NewBlock(x));
    Delivered(s, m, NewBlock(x));
    StepSafe(s, step);
  }

  /** The higher node's chain wins, in at most four steps. */
  lemma Follow(s: Net, n: NodeId, m: NodeId) returns (future: seq<Step>)
    requires Safe(s) && CollisionFree(s.mined)
    requires n in s.nodes && m in s.nodes && n != m && Near(s, s.nodes[n].table, s.nodes[m].table)
    ensures Agree(After(s, future), n, m) && OnlyMove(s, After(s, future), {m})
  {
    hide Safe, CollisionFree, Apply, Linked, Tree;
    var a, b := s.nodes[n].table, s.nodes[m].table;
    var top := Top(b);
    SafeTables(s, n, m);
    TipsStored(s.mined, a, b);
    var before, s' := [], s;
    if a[top].hash != b[top].hash {
      var step := AdoptRival(s, m, a[top]);
      before, s' := [step], Apply(s, step);
      SafeTables(s', n, m);
      AfterOne(s, step);
    }
    assert After(s, before) == s' && OnlyMove(s, s', {m}) && s'.nodes[n].table == a;
    future := before;
    if top < Top(a) {
      var after := AskAndAbsorb(s', n, m);
      AfterBoth(s, before, after);
      OnlyMoveTwice(s, s', After(s', after), {m}, {m});
      future := before + after;
      assert {m} + {m} == {m};
    }
  }

  lemma NearLater(s: Net, s': Net, a: Table, b: Table)
    requires Near(s, a, b) && s.sent <= s'.sent
    ensures Near(s', a, b)
  {
  }

  /** One after another the nodes of `todo` come to the tip of `n`. */
  lemma {:induction false} Gather(s: Net, n: NodeId, todo: set<NodeId>) returns (future: seq<Step>)
    requires Safe(s) && CollisionFree(s.mined)
    requires n in s.nodes && n !in todo && todo <= s.nodes.Keys
    requires forall x :: x in todo ==> Near(s, s.nodes[n].table, s.nodes[x].table)
    ensures OnlyMove(s, After(s, future), todo)
    ensures forall x :: x in todo ==> Agree(After(s, future), n, x)
    decreases |todo|
  {
    hide Safe, CollisionFree, Apply, SameTip, Near;
    future := [];
    if m :| m in todo {
      var first := Follow(s, n, m);
      var s1 := After(s, first);
      AfterSafe(s, first);
      forall x | x in todo - {m}
        ensures Near(s1, s1.nodes[n].table, s1.nodes[x].table)
      {
        NearLater(s, s1, s.nodes[n].table, s.nodes[x].table);
      }
      var rest := Gather(s1, n, todo - {m});
      AfterBoth(s, first, rest);
      var s2 := After(s1, rest);
      OnlyMoveTwice(s, s1, s2, {m}, todo - {m});
      assert {m} + (todo - {m}) == todo;
      assert s2.nodes[m].table == s1.nodes[m].table && s2.nodes[n].table == s1.nodes[n].table;
      future := first + rest;
    }
  }
}
