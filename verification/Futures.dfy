/** Continuations of a run: a sequence of steps, and the state it leads to. */
module Futures {
  import opened Types
  import opened Protocol
  import opened Network

  function After(s: Net, future: seq<Step>): Net
    decreases |future|
  {
    if future == [] then s else After(Apply(s, future[0]), future[1..])
  }

  /** Whatever steps are taken after a run make a longer run. */
  lemma {:induction false} Continue(clocks: map<NodeId, int>, states: seq<Net>, steps: seq<Step>, future: seq<Step>)
    returns (states': seq<Net>, steps': seq<Step>)
    requires Run(clocks, states, steps)
    ensures Run(clocks, states', steps') && states <= states'
    ensures states'[|states'| - 1] == After(states[|states| - 1], future)
    decreases |future|
  {
    states', steps' := states, steps;
    if future != [] {
      hide Apply, Init;
      states', steps' := Longer(clocks, states, steps, future[0]);
      states', steps' := Continue(clocks, states', steps', future[1..]);
    }
  }

  lemma AfterOne(s: Net, x: Step)
    ensures After(s, [x]) == Apply(s, x)
  {
    hide Apply;
    assert [x][1..] == [];
    assert After(s, [x]) == After(Apply(s, x), []);
  }

  lemma AfterThree(s: Net, x: Step, y: Step, z: Step)
    ensures After(s, [x, y, z]) == Apply(Apply(Apply(s, x), y), z)
  {
    hide Apply;
    assert [x, y, z][1..] == [y, z] && [y, z][1..] == [z] && [z][1..] == [];
    assert After(Apply(Apply(s, x), y), [z]) == Apply(Apply(Apply(s, x), y), z);
    assert After(Apply(s, x), [y, z]) == Apply(Apply(Apply(s, x), y), z);
  }

  lemma AfterTwo(s: Net, x: Step, y: Step)
    ensures After(s, [x, y]) == Apply(Apply(s, x), y)
  {
    hide Apply;
    assert [x, y][1..] == [y] && [y][1..] == [];
    assert After(Apply(s, x), [y]) == Apply(Apply(s, x), y);
  }

  lemma {:induction false} AfterBoth(s: Net, first: seq<Step>, second: seq<Step>)
    ensures After(s, first + second) == After(After(s, first), second)
    decreases |first|
  {
    hide Apply;
    if first == [] {
      assert first + second == second;
    } else {
      assert (first + second)[1..] == first[1..] + second && (first + second)[0] == first[0];
      AfterBoth(Apply(s, first[0]), first[1..], second);
    }
  }

  lemma {:induction false} AfterSafe(s: Net, future: seq<Step>)
    requires Safe(s) && CollisionFree(After(s, future).mined)
    ensures CollisionFree(s.mined) && s.mined <= After(s, future).mined
    ensures Safe(After(s, future)) && AllGrow(s, After(s, future))
    decreases |future|
  {
    hide Safe, CollisionFree, Apply, AllGrow;
    AfterMined(s, future);
    CollisionFreeEarlier(s.mined, After(s, future).mined);
    if future != [] {
      var s1 := Apply(s, future[0]);
      AfterMined(s1, future[1..]);
      CollisionFreeEarlier(s1.mined, After(s, future).mined);
      StepSafe(s, future[0]);
      AfterSafe(s1, future[1..]);
      AllGrowTransitive(s, s1, After(s, future));
    } else {
      GrowsNowhere(s);
    }
  }

  lemma GrowsNowhere(s: Net)
    ensures AllGrow(s, s)
  {
  }

  lemma {:induction false} AfterMined(s: Net, future: seq<Step>)
    ensures s.mined <= After(s, future).mined
    decreases |future|
  {
    if future != [] {
      AfterMined(Apply(s, future[0]), future[1..]);
      hide OnMessage, Draft, AddBlock, MeetsTarget;
    }
  }

  lemma Delivered(s: Net, n: NodeId, msg: Msg)
    requires n in s.nodes && msg in s.sent
    ensures var s', reaction := Apply(s, Deliver(n, msg)), OnMessage(s.nodes[n].table, msg);
      && s'.nodes.Keys == s.nodes.Keys && s'.mined == s.mined && s.sent <= s'.sent
      && s'.nodes[n].table == reaction.table
      && (forall m :: m in s.nodes && m != n ==> s'.nodes[m] == s.nodes[m])
      && (reaction.reply.Some? ==> reaction.reply.value in s'.sent)
  {
    hide OnMessage;
  }
}
