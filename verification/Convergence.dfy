/** Exactly when two nodes, or all nodes, can still come to agree, and how little it takes that they cannot. */
module Convergence {
  import opened Types
  import opened Protocol
  import opened Network
  import opened Provenance
  import opened Futures
  import opened Tips
  import opened Meeting
  import opened Climbing
  import opened Parting
  import opened Stalemate
  import Difficulty

  // ---------- if the condition holds ----------

  lemma SameParentsAs(s: Net, n: NodeId, y: NodeId)
    requires Safe(s) && CollisionFree(s.mined) && n in s.nodes && y in s.nodes && CanFollow(s, n, y)
    requires Top(s.nodes[n].table) == Top(s.nodes[y].table)
    ensures SameParents(s.nodes[n].table, s.nodes[y].table)
  {
    var a, b := s.nodes[n].table, s.nodes[y].table;
    SafeTables(s, n, y);
    TipsStored(s.mined, a, b);
    if OnChain(a, b) {
      assert Known(s.mined, a[Top(b)]) && Known(s.mined, b[Top(b)]);
    }
  }

  /** A rival of the two competing tips is on its way, or can be mined. */
  lemma BringRival(s: Net, n: NodeId, m: NodeId) returns (future: seq<Step>, x: Header, movers: set<NodeId>)
    requires Safe(s) && CollisionFree(s.mined) && ToldApart(s.mined) && n in s.nodes && m in s.nodes
    requires CanFollow(s, n, m) && !Near(s, s.nodes[n].table, s.nodes[m].table)
    ensures Rivaled(s, After(s, future), s.nodes[n].table, x, movers)
  {
    hide Safe, CollisionFree, ToldApart, Near, Linked, Apply, Climber;
    var a, b := s.nodes[n].table, s.nodes[m].table;
    if x0 :| Rival(s, x0, b) {
      future, x, movers := [], x0, {};
    } else {
      var l :| Climber(s, a, l);
      SafeTables(s, n, n);
      future, x := MineRival(s, a, l);
      movers := {l};
    }
  }

  lemma NearRival(s: Net, s': Net, s3: Net, n: NodeId, x: Header, movers: set<NodeId>, y: NodeId)
    requires Safe(s) && CollisionFree(s.mined) && n in s.nodes && y in s.nodes && y != n && n !in movers
    requires Rivaled(s, s', s.nodes[n].table, x, movers)
    requires OnlyMove(s', s3, {n}) && s3.nodes[n].table == s.nodes[n].table[Top(s.nodes[n].table) := x]
    requires Top(s3.nodes[n].table) == Top(s.nodes[n].table) && Top(s.nodes[y].table) <= Top(s.nodes[n].table)
    requires CanFollow(s, n, y)
    ensures Near(s3, s3.nodes[n].table, s3.nodes[y].table)
  {
    hide Safe, CollisionFree, ToldApart, Climber;
    var a, t := s.nodes[n].table, s.nodes[y].table;
    if y !in movers && Top(t) == Top(a) {
      SameParentsAs(s, n, y);
    }
  }

  /** All of `todo` come to one tip with `n`, first onto a rival if some tip competes with that of `n`. */
  lemma JoinAll(s: Net, n: NodeId, todo: set<NodeId>) returns (future: seq<Step>)
    requires Safe(s) && CollisionFree(s.mined) && ToldApart(s.mined)
    requires n in s.nodes && n !in todo && todo <= s.nodes.Keys
    requires forall y :: y in todo ==> Top(s.nodes[y].table) <= Top(s.nodes[n].table) && CanFollow(s, n, y)
    ensures var s' := After(s, future);
      && CollisionFree(s'.mined) && ToldApart(s'.mined) && Safe(s') && s'.nodes.Keys == s.nodes.Keys
      && forall y :: y in todo ==> Agree(s', n, y)
  {
    hide Safe, CollisionFree, ToldApart, CanFollow, Near, Apply, Agree;
    if m :| m in todo && !Near(s, s.nodes[n].table, s.nodes[m].table) {
      var first, x, movers := BringRival(s, n, m);
      var s1 := After(s, first);
      RivalOfTrunk(s, s1, n, x, movers);
      var adopt := AdoptRival(s1, n, x);
      var s2 := Apply(s1, adopt);
      forall y | y in todo
        ensures Near(s2, s2.nodes[n].table, s2.nodes[y].table)
      {
        NearRival(s, s1, s2, n, x, movers, y);
      }
      hide Rivaled, Rival;
      var rest := Gather(s2, n, todo);
      AfterOne(s1, adopt);
      AfterBoth(s1, [adopt], rest);
      AfterBoth(s, first, [adopt] + rest);
      future := first + ([adopt] + rest);
      AfterSafe(s2, rest);
    } else {
      future := Gather(s, n, todo);
      AfterSafe(s, future);
    }
  }

  lemma RivalOfTrunk(s: Net, s': Net, n: NodeId, x: Header, movers: set<NodeId>)
    requires n in s.nodes && Rivaled(s, s', s.nodes[n].table, x, movers)
    ensures n !in movers && n in s'.nodes && s'.nodes[n].table == s.nodes[n].table
    ensures Safe(s') && CollisionFree(s'.mined) && ToldApart(s'.mined) && s'.nodes.Keys == s.nodes.Keys
    ensures Rival(s', x, s'.nodes[n].table)
  {
    hide Safe, CollisionFree, ToldApart;
  }

  // ---------- if it does not ----------

  lemma StaysForked(clocks: map<NodeId, int>, states: seq<Net>, steps: seq<Step>, n: NodeId, m: NodeId, future: seq<Step>)
    requires Run(clocks, states, steps) && Forked(states[|states| - 1], n, m)
    ensures !MeetsAfter(states[|states| - 1], future, n, m)
  {
    hide CollisionFree, ToldApart, Apply, Init;
    var s := states[|states| - 1];
    if MeetsAfter(s, future, n, m) {
      var k :| DifferAt(s.nodes[n].table, s.nodes[m].table, k);
      var states', steps' := Continue(clocks, states, steps, future);
      DeepForkIsPermanent(clocks, states', steps', |states| - 1, |states'| - 1, n, m, k);
    }
  }

  /** Different hashes at the lower tip's height and no deep fork: the two rows there compete. */
  lemma Compete(mined: set<Header>, a: Table, b: Table)
    requires CollisionFree(mined) && Tree(mined) && Linked(mined, a) && Linked(mined, b)
    requires Top(b) <= Top(a) && !OnChain(a, b)
    ensures Top(b) in a && Top(b) in b && 0 < Top(b) && a[Top(b)] in mined
    ensures a[Top(b)].height == Top(b) == b[Top(b)].height && a[Top(b)].hash != b[Top(b)].hash
    ensures !DeepFork(a, b) ==> a[Top(b)].prevHash == b[Top(b)].prevHash
  {
    hide HasParent, Known;
    var top := Top(b);
    assert top in a && top in b;
    assert Link(a, top) && Link(b, top);
    if !DeepFork(a, b) {
      assert !DifferAt(a, b, top - 1);
    }
  }

  lemma ApartBehind(s: Net, n: NodeId, m: NodeId, future: seq<Step>)
    requires Safe(s) && AllLanded(s) && CollisionFree(s.mined) && n in s.nodes && m in s.nodes
    requires Top(s.nodes[m].table) < Top(s.nodes[n].table) && !CanFollow(s, n, m) && !Forked(s, n, m)
    ensures !MeetsAfter(s, future, n, m)
  {
    hide CollisionFree, Safe, Linked, Tree, DeepFork, MeetsAfter, OwnWork, Top, MsgLanded, Landed;
    var a, b := s.nodes[n].table, s.nodes[m].table;
    SafeTables(s, n, m);
    Compete(s.mined, a, b);
    assert Landed(s.nodes, a[Top(b)]);
    BehindForGood(s, future, n, m, a[Top(b)]);
  }

  lemma ApartLevel(s: Net, n: NodeId, m: NodeId, future: seq<Step>)
    requires Safe(s) && AllLanded(s) && CollisionFree(s.mined) && n in s.nodes && m in s.nodes
    requires Top(s.nodes[m].table) == Top(s.nodes[n].table) && !CanFollow(s, n, m) && !Forked(s, n, m)
    ensures !MeetsAfter(s, future, n, m)
  {
    hide CollisionFree, Safe, Linked, Tree, DeepFork, MeetsAfter, OwnWork, Top, MsgLanded, TableLanded, Climber, Gap;
    var a, b := s.nodes[n].table, s.nodes[m].table;
    SafeTables(s, n, m);
    Compete(s.mined, a, b);
    LevelRivals(s, a, b);
    var g := FindGap(s, a);
    LevelForGood(s, future, n, m, a, b[Top(b)], g);
  }

  lemma LevelRivals(s: Net, a: Table, b: Table)
    requires SameParents(a, b) && !exists x :: Rival(s, x, b)
    ensures NoRival(s, a)
  {
    forall x | NewBlock(x) in s.sent
      ensures !(x.height == Top(a) && x.prevHash == a[Top(a)].prevHash)
    {
      assert !Rival(s, x, b);
    }
  }

  lemma Apart(clocks: map<NodeId, int>, states: seq<Net>, steps: seq<Step>, n: NodeId, m: NodeId, future: seq<Step>)
    requires Run(clocks, states, steps)
    requires var s := states[|states| - 1];
      && CollisionFree(s.mined) && n in s.nodes && m in s.nodes
      && Top(s.nodes[m].table) <= Top(s.nodes[n].table) && !CanFollow(s, n, m)
    ensures !MeetsAfter(states[|states| - 1], future, n, m)
  {
    var s := states[|states| - 1];
    hide CollisionFree, Apply, Init, Safe, AllLanded, Forked, MeetsAfter, CanFollow;
    if Forked(s, n, m) {
      StaysForked(clocks, states, steps, n, m, future);
    } else {
      RunSafe(clocks, states, steps, |states| - 1, |states| - 1);
      RunLanded(clocks, states, steps, |states| - 1);
      hide Run;
      if Top(s.nodes[m].table) < Top(s.nodes[n].table) {
        ApartBehind(s, n, m, future);
      } else {
        ApartLevel(s, n, m, future);
      }
    }
  }

  // ---------- the two together ----------

  lemma MeetBackwards(s: Net, n: NodeId, m: NodeId, future: seq<Step>)
    ensures MeetsAfter(s, future, n, m) == MeetsAfter(s, future, m, n)
  {
    hide After, CollisionFree, ToldApart;
  }

  lemma MeetNow(s: Net, n: NodeId)
    requires Safe(s) && CollisionFree(s.mined) && ToldApart(s.mined) && n in s.nodes
    ensures MeetsAfter(s, [], n, n)
  {
    SafeTables(s, n, n);
    TipsStored(s.mined, s.nodes[n].table, s.nodes[n].table);
    hide Safe, CollisionFree, ToldApart, Linked, Tree;
  }

  lemma MeetWhenCan(s: Net, n: NodeId, m: NodeId) returns (future: seq<Step>)
    requires Safe(s) && CollisionFree(s.mined) && ToldApart(s.mined) && CanMeet(s, n, m)
    ensures MeetsAfter(s, future, n, m)
  {
    hide CollisionFree, ToldApart, Safe, CanFollow, Agree, Apply;
    if n == m {
      hide MeetsAfter;
      MeetNow(s, n);
      future := [];
    } else if Top(s.nodes[m].table) <= Top(s.nodes[n].table) {
      future := JoinAll(s, n, {m});
    } else {
      future := JoinAll(s, m, {n});
      MeetBackwards(s, n, m, future);
    }
  }

  lemma NeverOtherwise(clocks: map<NodeId, int>, states: seq<Net>, steps: seq<Step>, n: NodeId, m: NodeId, future: seq<Step>)
    requires Run(clocks, states, steps) && CollisionFree(states[|states| - 1].mined)
    requires n in states[|states| - 1].nodes && m in states[|states| - 1].nodes && !CanMeet(states[|states| - 1], n, m)
    ensures !MeetsAfter(states[|states| - 1], future, n, m)
  {
    var s := states[|states| - 1];
    hide CollisionFree, CanFollow, MeetsAfter, Run;
    if Top(s.nodes[m].table) <= Top(s.nodes[n].table) {
      Apart(clocks, states, steps, n, m, future);
    } else {
      Apart(clocks, states, steps, m, n, future);
      MeetBackwards(s, n, m, future);
    }
  }

  /** Two nodes can still be brought to one tip if and only if the tip that is not higher lies on the other chain, or the
      announcement that puts it there is still on its way; or the two tips compete, and a rival of both is on its way or
      can still be mined by a lower node.  All this can be read off the tables and the messages on their way. */
  lemma MeetExactly(clocks: map<NodeId, int>, states: seq<Net>, steps: seq<Step>, n: NodeId, m: NodeId)
    requires Run(clocks, states, steps)
    requires var s := states[|states| - 1];
      CollisionFree(s.mined) && ToldApart(s.mined) && n in s.nodes && m in s.nodes
    ensures var s := states[|states| - 1];
      MeetSometime(s, n, m) <==> CanMeet(s, n, m)
  {
    var s := states[|states| - 1];
    hide CollisionFree, ToldApart, Init, Apply, Safe, MeetsAfter, CanMeet, StepAt;
    if CanMeet(s, n, m) {
      RunSafe(clocks, states, steps, |states| - 1, |states| - 1);
      var future := MeetWhenCan(s, n, m);
    } else {
      forall future
        ensures !MeetsAfter(s, future, n, m)
      {
        NeverOtherwise(clocks, states, steps, n, m, future);
      }
    }
  }

  // ---------- the whole network ----------

  lemma {:induction false} Highest(s: Net, among: set<NodeId>) returns (n: NodeId)
    requires among != {} && among <= s.nodes.Keys
    ensures n in among && forall x :: x in among ==> Top(s.nodes[x].table) <= Top(s.nodes[n].table)
    decreases |among|
  {
    n :| n in among;
    if among != {n} {
      assert among - {n} != {};
      var m := Highest(s, among - {n});
      assert forall x :: x in among ==> x == n || x in among - {n};
      if Top(s.nodes[m].table) > Top(s.nodes[n].table) {
        n := m;
      }
    }
  }

  ghost predicate AllPairsCanMeet(s: Net) {
    forall n, m {:trigger CanMeet(s, n, m)} :: n in s.nodes && m in s.nodes ==> CanMeet(s, n, m)
  }

  lemma AllMeet(s: Net) returns (future: seq<Step>)
    requires Safe(s) && CollisionFree(s.mined) && ToldApart(s.mined) && AllPairsCanMeet(s)
    ensures AllMeetAfter(s, future)
  {
    hide Safe, CollisionFree, ToldApart, CanFollow, Apply, Linked, Tree;
    future := [];
    if s.nodes.Keys != {} {
      var n := Highest(s, s.nodes.Keys);
      forall y | y in s.nodes
        ensures CanFollow(s, n, y)
      {
        assert CanMeet(s, n, y);
      }
      hide AllPairsCanMeet;
      future := JoinAll(s, n, s.nodes.Keys - {n});
      var s' := After(s, future);
      SafeTables(s', n, n);
      TipsStored(s'.mined, s'.nodes[n].table, s'.nodes[n].table);
      forall x | x in s.nodes
        ensures Agree(s', n, x)
      {
        assert x == n || x in s.nodes.Keys - {n};
      }
    }
  }

  lemma AllMeetIsPairs(s: Net, future: seq<Step>, n: NodeId, m: NodeId)
    requires AllMeetAfter(s, future) && n in s.nodes && m in s.nodes
    ensures MeetsAfter(s, future, n, m)
  {
    hide Agree, CollisionFree, ToldApart;
  }

  /** The whole network can still be brought to one tip if and only if every two of its nodes can. */
  lemma AllMeetExactly(clocks: map<NodeId, int>, states: seq<Net>, steps: seq<Step>)
    requires Run(clocks, states, steps)
    requires CollisionFree(states[|states| - 1].mined) && ToldApart(states[|states| - 1].mined)
    ensures var s := states[|states| - 1];
      AllMeetSometime(s) <==> AllPairsCanMeet(s)
  {
    var s := states[|states| - 1];
    hide CollisionFree, ToldApart, Init, Apply, Safe, CanMeet, MeetsAfter, AllMeetAfter, StepAt;
    if AllPairsCanMeet(s) {
      RunSafe(clocks, states, steps, |states| - 1, |states| - 1);
      var future := AllMeet(s);
    } else {
      var n, m :| n in s.nodes && m in s.nodes && !CanMeet(s, n, m);
      forall future
        ensures !AllMeetAfter(s, future)
      {
        NeverOtherwise(clocks, states, steps, n, m, future);
        if AllMeetAfter(s, future) {
          AllMeetIsPairs(s, future, n, m);
        }
      }
    }
  }

  // ---------- how nodes come apart ----------

  lemma LowDifficulty(table: Table)
    requires Top(table) < Difficulty.INTERVAL
    ensures Difficulty.Current(table) == Difficulty.INITIAL
  {
  }

  /** Two blocks in a row. */
  lemma MineTwoAlone(s: Net, n: NodeId, time: int, hash1: Hash, hash2: Hash) returns (h1: Header, h2: Header)
    requires n in s.nodes && s.nodes[n].table == map[0 := GenesisHeader(time)]
    requires hash1 != hash2 && hash1 != GENESIS_HASH && hash2 != GENESIS_HASH
    requires MeetsTarget(hash1, Difficulty.INITIAL) && MeetsTarget(hash2, Difficulty.INITIAL)
    ensures var s', table := After(s, MineSteps(n, hash1) + MineSteps(n, hash2)), map[0 := GenesisHeader(time), 1 := h1, 2 := h2];
      && s'.nodes == s.nodes[n := Node(table, None)] && Top(table) == 2
      && s'.mined == s.mined + {h1, h2}
    ensures h1.hash == hash1 && h1.height == 1 && h1.prevHash == GENESIS_HASH
    ensures h2.hash == hash2 && h2.height == 2 && h2.prevHash == hash1
  {
    var t0 := map[0 := GenesisHeader(time)];
    assert 0 in t0 && Top(t0) == 0;
    h1 := MinedOn(t0, n, hash1);
    MinedOnTip(t0, n, hash1);
    LowDifficulty(t0);
    hide MeetsTarget, AddBlock, Draft, MinedOn, Top, Apply, Difficulty.Current;
    MineAlone(s, n, hash1);
    var s1, t1 := After(s, MineSteps(n, hash1)), t0[1 := h1];
    h2 := MinedOn(t1, n, hash2);
    MinedOnTip(t1, n, hash2);
    LowDifficulty(t1);
    MineAlone(s1, n, hash2);
    AfterBoth(s, MineSteps(n, hash1), MineSteps(n, hash2));
    assert t1[2 := h2] == map[0 := GenesisHeader(time), 1 := h1, 2 := h2];
  }

  /** Four hashes that meet the initial difficulty. */
  lemma FourHashes()
    ensures MeetsTarget("0000a", 4) && MeetsTarget("0000b", 4) && MeetsTarget("0000c", 4) && MeetsTarget("0000d", 4)
    ensures "0000a"[4] == 'a' && "0000b"[4] == 'b' && "0000c"[4] == 'c' && "0000d"[4] == 'd'
  {
    assert "0000a"[..4] == Zeros(4) && "0000b"[..4] == Zeros(4) && "0000c"[..4] == Zeros(4) && "0000d"[..4] == Zeros(4);
  }

  lemma StartOfRun(clocks: map<NodeId, int>)
    ensures Run(clocks, [Init(clocks)], [])
  {
  }

  lemma FourTellApart(a1: Header, a2: Header, b1: Header, b2: Header)
    requires a1.hash == "0000a" && a2.hash == "0000b" && b1.hash == "0000c" && b2.hash == "0000d"
    ensures CollisionFree({a1, a2, b1, b2})
  {
    FourHashes();
    assert |GENESIS_HASH| == 64;
  }

  /** Two nodes that each mine two blocks before anything is delivered end up in a deep fork. */
  lemma DeepForkArises(n: NodeId, m: NodeId) returns (clocks: map<NodeId, int>, states: seq<Net>, steps: seq<Step>)
    requires n != m
    ensures Run(clocks, states, steps) && CollisionFree(states[|states| - 1].mined)
    ensures Forked(states[|states| - 1], n, m)
  {
    FourHashes();
    assert |GENESIS_HASH| == 64;
    clocks := map[n := 0, m := 0];
    var s := Init(clocks);
    assert s.nodes == map[n := Node(map[0 := GenesisHeader(0)], None), m := Node(map[0 := GenesisHeader(0)], None)];
    StartOfRun(clocks);
    var future1, future2 := MineSteps(n, "0000a") + MineSteps(n, "0000b"), MineSteps(m, "0000c") + MineSteps(m, "0000d");
    hide *;
    var a1, a2 := MineTwoAlone(s, n, 0, "0000a", "0000b");
    var s1 := After(s, future1);
    var b1, b2 := MineTwoAlone(s1, m, 0, "0000c", "0000d");
    AfterBoth(s, future1, future2);
    states, steps := Continue(clocks, [s], [], future1 + future2);
    FourTellApart(a1, a2, b1, b2);
    assert s1.mined + {b1, b2} == {a1, a2, b1, b2};
    ForkSeen(states[|states| - 1], n, m);
  }

  lemma ForkSeen(s: Net, n: NodeId, m: NodeId)
    requires n in s.nodes && m in s.nodes
    requires var a, b := s.nodes[n].table, s.nodes[m].table;
      1 in a && 1 in b && Top(a) == 2 == Top(b) && a[1].hash != b[1].hash
    ensures Forked(s, n, m)
  {
    assert DifferAt(s.nodes[n].table, s.nodes[m].table, 1);
  }

  lemma TwoTellApart(a: Header, b: Header)
    requires a.hash == "0000a" && b.hash == "0000c"
    ensures CollisionFree({a, b}) && ToldApart({a, b})
  {
    FourHashes();
    assert |GENESIS_HASH| == 64;
  }

  /** A node mines one block on genesis while it is connected to nobody. */
  lemma MineUnheard(s: Net, n: NodeId, hash: Hash) returns (future: seq<Step>, h: Header)
    requires n in s.nodes && s.nodes[n].table == map[0 := GenesisHeader(0)] && s.sent == {}
    requires hash != GENESIS_HASH && MeetsTarget(hash, Difficulty.INITIAL)
    ensures var s' := After(s, future);
      && s'.nodes == s.nodes[n := Node(map[0 := GenesisHeader(0), 1 := h], None)]
      && s'.mined == s.mined + {h} && s'.sent == {}
    ensures h.hash == hash && h.height == 1 && h.prevHash == GENESIS_HASH
  {
    var t := map[0 := GenesisHeader(0)];
    assert 0 in t && Top(t) == 0;
    h := MinedOn(t, n, hash);
    MinedOnTip(t, n, hash);
    LowDifficulty(t);
    hide MeetsTarget, AddBlock, Draft, MinedOn, Top, Apply, Difficulty.Current;
    MineAlone(s, n, hash);
    var s1 := After(s, MineSteps(n, hash));
    future := MineSteps(n, hash) + [Lose(NewBlock(h))];
    AfterBoth(s, MineSteps(n, hash), [Lose(NewBlock(h))]);
    AfterOne(s1, Lose(NewBlock(h)));
    Lost(s1, NewBlock(h));
    assert t[1 := h] == map[0 := GenesisHeader(0), 1 := h];
    assert s1.sent - {NewBlock(h)} == {};
  }

  lemma Lost(s: Net, msg: Msg)
    ensures Apply(s, Lose(msg)) == s.(sent := s.sent - {msg})
  {
  }

  /** No deep fork is needed: two nodes that each mine one block before they are connected, which nobody is sent, never
      come to one tip. */
  lemma OneBlockEachParts(n: NodeId, m: NodeId) returns (clocks: map<NodeId, int>, states: seq<Net>, steps: seq<Step>)
    requires n != m
    ensures Run(clocks, states, steps) && CollisionFree(states[|states| - 1].mined) && ToldApart(states[|states| - 1].mined)
    ensures n in states[|states| - 1].nodes && m in states[|states| - 1].nodes && !Forked(states[|states| - 1], n, m)
    ensures !MeetSometime(states[|states| - 1], n, m)
  {
    FourHashes();
    assert |GENESIS_HASH| == 64;
    clocks := map[n := 0, m := 0];
    var s := Init(clocks);
    var t := map[0 := GenesisHeader(0)];
    assert s.nodes == map[n := Node(t, None), m := Node(t, None)] && s.sent == {} && s.mined == {};
    StartOfRun(clocks);
    hide *;
    var future1, a := MineUnheard(s, n, "0000a");
    var s1 := After(s, future1);
    var future2, b := MineUnheard(s1, m, "0000c");
    AfterBoth(s, future1, future2);
    states, steps := Continue(clocks, [s], [], future1 + future2);
    TwoTellApart(a, b);
    assert s1.mined + {b} == {a, b};
    var s2 := states[|states| - 1];
    OneEach(s2, n, m, a, b);
    MeetExactly(clocks, states, steps, n, m);
  }

  lemma OneEach(s: Net, n: NodeId, m: NodeId, a: Header, b: Header)
    requires n != m && s.sent == {} && a.hash != b.hash
    requires s.nodes == map[n := Node(map[0 := GenesisHeader(0), 1 := a], None), m := Node(map[0 := GenesisHeader(0), 1 := b], None)]
    ensures !Forked(s, n, m) && !CanMeet(s, n, m)
  {
    var ta, tb := map[0 := GenesisHeader(0), 1 := a], map[0 := GenesisHeader(0), 1 := b];
    assert 1 in ta && 1 in tb && Top(ta) == 1 && Top(tb) == 1;
    assert forall k :: !DifferAt(ta, tb, k);
    hide Available;
    assert forall l :: !OnTrunk(s, ta, l);
  }
}
