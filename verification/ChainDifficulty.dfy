/** The difficulties on the chains of a run.  No receiver recomputes the difficulty of a block, yet every stored block
    has the one the rule gives for the rows below it. */
module ChainDifficulty {
  import opened Types
  import opened Protocol
  import opened Network
  import Agreement
  import Difficulty

  /** The healthy chain a header was drafted on, and that its difficulty is the rule's for that chain. */
  ghost predicate DraftedOn(mined: set<Header>, h: Header, table: Table) {
    && Linked(mined, table)
    && h.height == Top(table) + 1 && h.prevHash == table[Top(table)].hash
    && h.difficulty == Difficulty.Current(table)
  }

  ghost predicate Drafted(mined: set<Header>, h: Header) {
    exists table :: DraftedOn(mined, h, table)
  }

  ghost predicate AllDrafted(s: Net) {
    && (forall h {:trigger Drafted(s.mined, h)} :: h in s.mined ==> Drafted(s.mined, h))
    && (forall n :: n in s.nodes && s.nodes[n].work.Some? ==> Drafted(s.mined, s.nodes[n].work.value))
  }

  lemma DraftedMonotone(mined: set<Header>, mined': set<Header>, h: Header, h': Header)
    requires mined <= mined' && Drafted(mined, h)
    requires h'.height == h.height && h'.prevHash == h.prevHash && h'.difficulty == h.difficulty
    ensures Drafted(mined', h')
  {
    var table :| DraftedOn(mined, h, table);
    LinkedMonotone(mined, mined', table);
    hide Linked, Difficulty.Current;
    assert DraftedOn(mined', h', table);
  }

  lemma DraftIsDrafted(mined: set<Header>, table: Table, n: NodeId, root: Hash, now: int)
    requires Linked(mined, table)
    ensures Drafted(mined, Draft(table, n, root, now))
  {
    hide Difficulty.Current;
    assert DraftedOn(mined, Draft(table, n, root, now), table);
  }

  lemma HitDrafted(s: Net, n: NodeId, nonce: int, hash: Hash)
    requires AllDrafted(s) && n in s.nodes && s.nodes[n].work.Some?
    ensures AllDrafted(Hit(s, n, nonce, hash))
  {
    hide Drafted, MeetsTarget, AddBlock;
    var s' := Hit(s, n, nonce, hash);
    var work := s.nodes[n].work.value;
    forall h | h in s'.mined
      ensures Drafted(s'.mined, h)
    {
      if h in s.mined {
        DraftedMonotone(s.mined, s'.mined, h, h);
      } else {
        DraftedMonotone(s.mined, s'.mined, work, h);
      }
    }
    forall m | m in s'.nodes && s'.nodes[m].work.Some?
      ensures Drafted(s'.mined, s'.nodes[m].work.value)
    {
      DraftedMonotone(s.mined, s'.mined, s.nodes[m].work.value, s.nodes[m].work.value);
    }
  }

  lemma StepDrafted(s: Net, step: Step)
    requires Safe(s) && AllDrafted(s)
    ensures AllDrafted(Apply(s, step))
  {
    hide Drafted, Hit, OnMessage, Draft, Linked, Tree, HasParent, MsgOk, WorkOk, SyncRequest;
    if !step.Lose? && step.n in s.nodes {
      var node := s.nodes[step.n];
      assert Linked(s.mined, node.table);
      match step
      case Start(n, root, now) => DraftIsDrafted(s.mined, node.table, n, root, now);
      case Found(n, nonce, hash) => if node.work.Some? { HitDrafted(s, n, nonce, hash); }
      case Quit(n) =>
      case Sync(n) =>
      case Local(n) =>
      case Deliver(n, msg) =>
    }
  }

  lemma {:induction false} RunDrafted(clocks: map<NodeId, int>, states: seq<Net>, steps: seq<Step>, i: nat)
    requires Run(clocks, states, steps) && i < |states| && CollisionFree(states[i].mined)
    ensures AllDrafted(states[i])
    decreases i
  {
    if i > 0 {
      RunSafe(clocks, states, steps, i - 1, i);
      hide Safe, CollisionFree, Apply, AllDrafted;
      assert StepAt(states, steps, i - 1);
      RunDrafted(clocks, states, steps, i - 1);
      StepDrafted(states[i - 1], steps[i - 1]);
    }
  }

  /** The rows a chain had before height `k` was stored. */
  function Below(table: Table, k: int): Table {
    map i | i in table && i < k :: table[i]
  }

  lemma BelowTop(mined: set<Header>, table: Table, k: int)
    requires Linked(mined, table) && 0 < k && k in table
    ensures Top(Below(table, k)) == k - 1
    ensures forall i :: 0 <= i < k ==> i in table && i in Below(table, k) && Below(table, k)[i] == table[i]
  {
    assert k - 1 in Below(table, k);
  }

  /** The rule reads at most the heights `top - 9` to `top`, and height 0 never. */
  lemma CurrentReads(a: Table, b: Table)
    requires Top(a) == Top(b)
    requires forall k :: 0 < k <= Top(a) ==> k in a && k in b && a[k] == b[k]
    ensures Difficulty.Current(a) == Difficulty.Current(b)
  {
    hide Difficulty.Retarget;
  }

  lemma SharedParent(mined: set<Header>, table: Table, t: Table, k: int)
    requires Linked(mined, table) && Linked(mined, t) && k in table && k > 0 && Top(t) == k - 1 && t[k - 1].hash == table[k].prevHash
    ensures k - 1 in table && k - 1 in t && table[k - 1].hash == t[k - 1].hash
    ensures forall i :: 0 < i <= k - 1 ==> i in t && i in table
  {
    assert Link(table, k) && Top(t) in t;
    hide Known, HasParent;
  }

  lemma SharedRows(mined: set<Header>, table: Table, t: Table, k: int)
    requires CollisionFree(mined) && ToldApart(mined) && Linked(mined, table) && Linked(mined, t)
    requires k in table && k > 0 && Top(t) == k - 1 && t[k - 1].hash == table[k].prevHash
    ensures forall i :: 0 < i <= k - 1 ==> i in t && i in table && t[i] == table[i]
  {
    hide CollisionFree, Linked, Link;
    SharedParent(mined, table, t, k);
    forall i | 0 < i <= k - 1
      ensures t[i] == table[i]
    {
      Agreement.CommonPrefixRows(mined, table, t, k - 1, i);
    }
  }

  lemma RowDifficulty(mined: set<Header>, table: Table, k: int)
    requires CollisionFree(mined) && ToldApart(mined) && Linked(mined, table)
    requires k in table && k > 0 && Drafted(mined, table[k])
    ensures RuleAt(table, k)
  {
    hide Difficulty.Current, CollisionFree, ToldApart;
    var t: Table :| DraftedOn(mined, table[k], t);
    assert Top(t) == k - 1 && t[k - 1].hash == table[k].prevHash;
    BelowTop(mined, table, k);
    hide Linked, Below;
    SharedRows(mined, table, t, k);
    CurrentReads(t, Below(table, k));
  }

  ghost predicate RuleAt(table: Table, k: int) {
    k in table && table[k].difficulty == Difficulty.Current(Below(table, k))
  }

  /** In every reachable state each stored block has the difficulty the rule gives for the rows below it, on every
      node, although blocks were drafted elsewhere, replaced, and received out of order. */
  lemma EveryDifficultyFollowsRule(clocks: map<NodeId, int>, states: seq<Net>, steps: seq<Step>, i: nat, n: NodeId, k: int)
    requires Run(clocks, states, steps) && i < |states| && n in clocks
    requires CollisionFree(states[i].mined) && ToldApart(states[i].mined)
    ensures n in states[i].nodes
    ensures var table := states[i].nodes[n].table;
      k in table && k > 0 ==> RuleAt(table, k)
  {
    RunSafe(clocks, states, steps, i, i);
    RunDrafted(clocks, states, steps, i);
    var s := states[i];
    var table := s.nodes[n].table;
    if k in table && k > 0 {
      assert Linked(s.mined, table);
      assert Drafted(s.mined, table[k]);
      hide Safe, AllDrafted, Run, Linked, CollisionFree, ToldApart, Drafted;
      RowDifficulty(s.mined, table, k);
    }
  }

  // ---------- the limits on a chain's own windows ----------

  /** The time from the first to the last row of the window before height `k`. */
  function Span(table: Table, k: int): int
    requires k - 1 in table && k - Difficulty.INTERVAL in table
  {
    table[k - 1].timestamp - table[k - Difficulty.INTERVAL].timestamp
  }

  ghost predicate FollowsRule(table: Table) {
    && (forall k :: k in table <==> 0 <= k <= Top(table))
    && (forall k {:trigger RuleAt(table, k)} :: 0 < k <= Top(table) ==> RuleAt(table, k))
  }

  lemma NextDifficulty(table: Table, k: int)
    requires FollowsRule(table) && Difficulty.INTERVAL < k <= Top(table)
    ensures k in table && k - 1 in table && k - Difficulty.INTERVAL in table
    ensures table[k].difficulty == Difficulty.Retarget(table[k - 1].difficulty, Span(table, k))
  {
    hide Difficulty.Retarget;
    assert RuleAt(table, k);
    var below := Below(table, k);
    assert k - 1 in below && k - Difficulty.INTERVAL in below;
    assert Top(below) == k - 1;
  }

  function Spans(table: Table, first: int, last: int): seq<int>
    requires forall k :: k in table <==> 0 <= k <= Top(table)
    requires Difficulty.INTERVAL <= first && last <= Top(table)
    decreases last - first
  {
    if last <= first then [] else [Span(table, first + 1)] + Spans(table, first + 1, last)
  }

  lemma {:induction false} SpansAre(table: Table, first: int, last: int)
    requires forall k :: k in table <==> 0 <= k <= Top(table)
    requires Difficulty.INTERVAL <= first <= last <= Top(table)
    ensures var spans := Spans(table, first, last);
      |spans| == last - first && forall i :: 0 <= i < |spans| ==> spans[i] == Span(table, first + 1 + i)
    decreases last - first
  {
    if first < last {
      SpansAre(table, first + 1, last);
      var rest := Spans(table, first + 1, last);
      assert forall i :: 0 < i <= |rest| ==> Spans(table, first, last)[i] == rest[i - 1];
    }
  }

  /** The difficulty at a height is the rule iterated over the windows since any earlier one. */
  lemma {:induction false} DifficultyIterates(table: Table, first: int, last: int)
    requires FollowsRule(table) && Difficulty.INTERVAL <= first <= last <= Top(table)
    ensures table[last].difficulty == Difficulty.Repeated(table[first].difficulty, Spans(table, first, last))
    decreases last - first
  {
    if first < last {
      NextDifficulty(table, first + 1);
      DifficultyIterates(table, first + 1, last);
      hide Difficulty.Retarget, RuleAt, Span;
      assert Spans(table, first, last)[1..] == Spans(table, first + 1, last);
    }
  }

  lemma RunFollowsRule(clocks: map<NodeId, int>, states: seq<Net>, steps: seq<Step>, i: nat, n: NodeId)
    requires Run(clocks, states, steps) && i < |states| && n in clocks
    requires CollisionFree(states[i].mined) && ToldApart(states[i].mined)
    ensures n in states[i].nodes && FollowsRule(states[i].nodes[n].table)
    ensures forall k :: k in states[i].nodes[n].table && k > 0 ==> Difficulty.Legal(states[i].nodes[n].table[k].difficulty)
  {
    EveryChainLinked(clocks, states, steps, i, n);
    hide Run, CollisionFree, ToldApart, RuleAt, Known, Link, Difficulty.Legal;
    var table := states[i].nodes[n].table;
    forall k | 0 < k <= Top(table)
      ensures RuleAt(table, k)
    {
      EveryDifficultyFollowsRule(clocks, states, steps, i, n, k);
    }
  }

  lemma LimitsOf(table: Table, k: int)
    requires FollowsRule(table) && k <= Top(table)
    requires forall j :: j in table && j > 0 ==> Difficulty.Legal(table[j].difficulty)
    ensures k >= 13 && FastAt(table, k - 2) && FastAt(table, k - 1) && FastAt(table, k) ==> table[k].difficulty == 6
    ensures k >= 12 && SlowAt(table, k - 1) && SlowAt(table, k) ==> table[k].difficulty == 1
  {
    hide RuleAt, Difficulty.Retarget, Difficulty.Fast, Difficulty.Slow, Difficulty.Legal;
    if k >= 13 && FastAt(table, k - 2) && FastAt(table, k - 1) && FastAt(table, k) {
      DifficultyIterates(table, k - 3, k);
      SpansAre(table, k - 3, k);
      Difficulty.RetargetLimits(table[k - 3].difficulty, Spans(table, k - 3, k));
    }
    if k >= 12 && SlowAt(table, k - 1) && SlowAt(table, k) {
      DifficultyIterates(table, k - 2, k);
      SpansAre(table, k - 2, k);
      Difficulty.RetargetLimits(table[k - 2].difficulty, Spans(table, k - 2, k));
    }
  }

  /** The window before height `k` is stored and took less than three quarters of the expected time. */
  predicate FastAt(table: Table, k: int) {
    k - 1 in table && k - Difficulty.INTERVAL in table && Difficulty.Fast(Span(table, k))
  }

  predicate SlowAt(table: Table, k: int) {
    k - 1 in table && k - Difficulty.INTERVAL in table && Difficulty.Slow(Span(table, k))
  }

  /** Wherever three successive windows of a node's chain were fast the difficulty is 6, wherever two were slow it is 1,
      whatever it was before. */
  lemma LimitsOnChains(clocks: map<NodeId, int>, states: seq<Net>, steps: seq<Step>, i: nat, n: NodeId, k: int)
    requires Run(clocks, states, steps) && i < |states| && n in states[i].nodes
    requires CollisionFree(states[i].mined) && ToldApart(states[i].mined)
    requires k in states[i].nodes[n].table
    ensures var table := states[i].nodes[n].table;
      && (k >= 13 && FastAt(table, k - 2) && FastAt(table, k - 1) && FastAt(table, k) ==> table[k].difficulty == 6)
      && (k >= 12 && SlowAt(table, k - 1) && SlowAt(table, k) ==> table[k].difficulty == 1)
  {
    hide FastAt, SlowAt, CollisionFree, ToldApart;
    RunSafe(clocks, states, steps, i, i);
    hide Safe;
    RunFollowsRule(clocks, states, steps, i, n);
    hide Run;
    LimitsOf(states[i].nodes[n].table, k);
  }
}
