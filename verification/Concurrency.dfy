/** Several threads append to one node's `blocks` table, with `addBlock` and the two reads of `createBlock`
    split into their separate database calls. */
module Concurrency {
  import opened Types
  import opened Protocol

  type ThreadId = nat

  /** Where a thread is: holding nothing; `createBlock` has read the height; about to call `addBlock`;
      `addBlock` has read the height; `addBlock` has also compared the parent's hash. */
  datatype Thread =
    | Idle
    | Drafting(last: int)
    | Holding(block: Header)
    | HeightRead(block: Header, current: int)
    | Checked(block: Header, current: int)

  /** `winners` logs, in order, the tip height each successful insert was checked against. */
  datatype State = State(table: Table, threads: map<ThreadId, Thread>, mined: set<Header>, winners: seq<int>)

  /** `MinedElsewhere`: another node found a block, on any parent, whether this table holds it or not. */
  datatype Step =
    | MinedElsewhere(header: Header)
    | ReadLastHeight(t: ThreadId)
    | ReadLastBlock(t: ThreadId, draft: Header)
    | Receive(t: ThreadId, block: Header)
    | ReadHeight(t: ThreadId)
    | ReadPrevious(t: ThreadId)
    | InsertRow(t: ThreadId)

  function Init(threads: set<ThreadId>, time: int): State {
    State(map[0 := GenesisHeader(time)], map t | t in threads :: Idle, {}, [])
  }

  function Become(s: State, t: ThreadId, thread: Thread): State {
    s.(threads := s.threads[t := thread])
  }

  /** A step whose thread is elsewhere in its program does nothing. */
  ghost function Apply(s: State, step: Step): State {
    if step.MinedElsewhere? then
      if step.header.height >= 1 && HasParent(s.mined, step.header) then s.(mined := s.mined + {step.header}) else s
    else if step.t !in s.threads then s
    else match (step, s.threads[step.t])
    case (ReadLastHeight(t), Idle) => Become(s, t, Drafting(Top(s.table)))
    case (ReadLastBlock(t, draft), Drafting(last)) =>
      // the nonce search is folded in: `draft` supplies the fields that do not come from the table
      var (height, prev) := if 0 <= last && last in s.table then (last + 1, s.table[last].hash) else (0, "0");
      var block := draft.(height := height, prevHash := prev);
      Become(s, t, Holding(block)).(mined := s.mined + {block})
    case (Receive(t, block), Idle) => if block in s.mined then Become(s, t, Holding(block)) else s
    case (ReadHeight(t), Holding(block)) =>
      Become(s, t, if block.height <= Top(s.table) then Idle else HeightRead(block, Top(s.table)))
    case (ReadPrevious(t), HeightRead(block, current)) =>
      var refused := block.height > 0 && (current !in s.table || s.table[current].hash != block.prevHash);
      Become(s, t, if refused then Idle else Checked(block, current))
    case (InsertRow(t), Checked(block, current)) =>
      var put := Insert(s.table, block);
      Become(s, t, Idle).(table := put.table, winners := if put.ok then s.winners + [current] else s.winners)
    case _ => s
  }

  ghost predicate StepAt(states: seq<State>, steps: seq<Step>, i: int) {
    0 <= i < |steps| < |states| && states[i + 1] == Apply(states[i], steps[i])
  }

  ghost predicate Run(threads: set<ThreadId>, time: int, states: seq<State>, steps: seq<Step>) {
    && |states| == |steps| + 1
    && states[0] == Init(threads, time)
    && forall i {:trigger StepAt(states, steps, i)} :: 0 <= i < |steps| ==> StepAt(states, steps, i)
  }

  ghost predicate Rooted(mined: set<Header>) {
    && (forall h {:trigger HasParent(mined, h)} :: h in mined ==> HasParent(mined, h))
    && (forall h :: h in mined ==> h.height >= 1)
  }

  ghost predicate ThreadOk(s: State, thread: Thread) {
    match thread
    case Idle => true
    case Drafting(last) => last in s.table
    case Holding(block) => block in s.mined
    case HeightRead(block, current) => block in s.mined && current in s.table
    case Checked(block, current) => block in s.mined && current in s.table && s.table[current].hash == block.prevHash
  }

  ghost predicate Safe(s: State) {
    && Rooted(s.mined) && Linked(s.mined, s.table)
    && (forall t :: t in s.threads ==> ThreadOk(s, s.threads[t]))
    && |s.winners| == Top(s.table)
    && (forall i :: 0 <= i < |s.winners| ==> s.winners[i] == i)
  }

  /** Rows are only ever added. */
  ghost predicate Appended(table: Table, table': Table) {
    forall k :: k in table ==> k in table' && table'[k] == table[k]
  }

  lemma ChildHeight(s: State, block: Header, current: int)
    requires Safe(s) && CollisionFree(s.mined) && ThreadOk(s, Checked(block, current))
    ensures block.height == current + 1
  {
    assert HasParent(s.mined, block);
    var p :| Known(s.mined, p) && p.hash == block.prevHash && p.height + 1 == block.height;
    assert Known(s.mined, s.table[current]);
  }

  lemma InsertExtends(s: State, block: Header, current: int)
    requires Safe(s) && CollisionFree(s.mined) && ThreadOk(s, Checked(block, current))
    ensures var put := Insert(s.table, block);
      && Linked(s.mined, put.table) && Appended(s.table, put.table)
      && (put.ok ==> current == Top(s.table) && Top(put.table) == Top(s.table) + 1)
      && (!put.ok ==> put.table == s.table)
  {
    hide HasParent, CollisionFree;
    ChildHeight(s, block, current);
    if Insert(s.table, block).ok {
      assert current == Top(s.table);
      PutOnTop(s.mined, s.table, block, block.height);
    }
  }

  lemma InsertSafe(s: State, t: ThreadId)
    requires Safe(s) && CollisionFree(s.mined) && t in s.threads && s.threads[t].Checked?
    ensures var s' := Apply(s, InsertRow(t)); Safe(s') && Appended(s.table, s'.table)
  {
    hide Linked, Rooted, CollisionFree;
    assert ThreadOk(s, s.threads[t]);
    InsertExtends(s, s.threads[t].block, s.threads[t].current);
    ThreadsStayOk(s, Apply(s, InsertRow(t)), t);
  }

  lemma ThreadsStayOk(s: State, s': State, t: ThreadId)
    requires forall u :: u in s.threads ==> ThreadOk(s, s.threads[u])
    requires s.mined <= s'.mined && Appended(s.table, s'.table)
    requires s'.threads.Keys == s.threads.Keys
    requires forall u :: u in s.threads && u != t ==> s'.threads[u] == s.threads[u]
    requires t in s'.threads && ThreadOk(s', s'.threads[t])
    ensures forall u :: u in s'.threads ==> ThreadOk(s', s'.threads[u])
  {
  }

  lemma MoreMinedSafe(s: State, h: Header)
    requires Safe(s) && h.height >= 1 && HasParent(s.mined, h)
    ensures Safe(s.(mined := s.mined + {h}))
  {
    var s' := s.(mined := s.mined + {h});
    forall g | g in s'.mined
      ensures HasParent(s'.mined, g)
    {
      HasParentMonotone(s.mined, s'.mined, g, g);
    }
    LinkedMonotone(s.mined, s'.mined, s.table);
    forall t | t in s.threads
      ensures ThreadOk(s', s.threads[t])
    {
      assert ThreadOk(s, s.threads[t]);
    }
  }

  lemma DraftSafe(s: State, t: ThreadId, draft: Header)
    requires Safe(s) && t in s.threads && s.threads[t].Drafting?
    ensures var s' := Apply(s, ReadLastBlock(t, draft)); Safe(s') && s'.table == s.table
  {
    var last := s.threads[t].last;
    assert ThreadOk(s, s.threads[t]);
    var block := draft.(height := last + 1, prevHash := s.table[last].hash);
    assert Known(s.mined, s.table[last]);
    assert HasParent(s.mined, block);
    MoreMinedSafe(s, block);
    OnlyThreadMoved(s.(mined := s.mined + {block}), Apply(s, ReadLastBlock(t, draft)), t);
  }

  lemma StepSafe(s: State, step: Step)
    requires Safe(s) && CollisionFree(Apply(s, step).mined)
    ensures Safe(Apply(s, step)) && Appended(s.table, Apply(s, step).table)
  {
    hide Linked, Rooted, CollisionFree;
    if step.MinedElsewhere? {
      if Apply(s, step) != s {
        MoreMinedSafe(s, step.header);
      }
    } else if step.t in s.threads {
      match (step, s.threads[step.t])
      case (ReadLastBlock(t, draft), Drafting(_)) => DraftSafe(s, t, draft);
      case (InsertRow(t), Checked(_, _)) => InsertSafe(s, t);
      case _ =>
        SimpleStepSafe(s, step);
    }
  }

  lemma OnlyThreadMoved(s: State, s': State, t: ThreadId)
    requires Safe(s) && t in s.threads
    requires s'.table == s.table && s'.mined == s.mined && s'.winners == s.winners
    requires t in s'.threads && s'.threads == s.threads[t := s'.threads[t]] && ThreadOk(s', s'.threads[t])
    ensures Safe(s')
  {
    hide Linked, Rooted;
    ThreadsStayOk(s, s', t);
  }

  lemma SimpleStepSafe(s: State, step: Step)
    requires Safe(s) && !step.MinedElsewhere? && step.t in s.threads
    requires !(step.InsertRow? && s.threads[step.t].Checked?)
    requires !(step.ReadLastBlock? && s.threads[step.t].Drafting?)
    ensures Safe(Apply(s, step)) && Apply(s, step).table == s.table
  {
    assert Top(s.table) in s.table;
    assert ThreadOk(s, s.threads[step.t]);
    var s' := Apply(s, step);
    assert s' == s || s' == Become(s, step.t, s'.threads[step.t]);
    hide Linked, HasParent;
    if s' != s {
      OnlyThreadMoved(s, s', step.t);
    }
  }

  lemma InitSafe(threads: set<ThreadId>, time: int)
    ensures Safe(Init(threads, time))
  {
    GenesisLinked({}, time);
    assert 0 in Init(threads, time).table;
  }

  lemma {:induction false} RunSafe(threads: set<ThreadId>, time: int, states: seq<State>, steps: seq<Step>, i: int, j: int)
    requires Run(threads, time, states, steps) && 0 <= i <= j < |states|
    requires CollisionFree(states[j].mined)
    ensures Safe(states[j]) && Appended(states[i].table, states[j].table)
    decreases j
  {
    hide Apply, Safe, CollisionFree, Init;
    if j == 0 {
      InitSafe(threads, time);
    } else {
      var m := if i < j then i else j - 1;
      assert StepAt(states, steps, j - 1);
      Earlier(states[j - 1], steps[j - 1]);
      RunSafe(threads, time, states, steps, m, j - 1);
      StepSafe(states[j - 1], steps[j - 1]);
      AppendedTransitive(states[m].table, states[j - 1].table, states[j].table);
    }
  }

  lemma AppendedTransitive(a: Table, b: Table, c: Table)
    requires Appended(a, b) && Appended(b, c)
    ensures Appended(a, c)
  {
  }

  lemma Earlier(s: State, step: Step)
    requires CollisionFree(Apply(s, step).mined)
    ensures CollisionFree(s.mined)
  {
    var mined' := Apply(s, step).mined;
    forall a, b | Known(s.mined, a) && Known(s.mined, b) && a.hash == b.hash
      ensures a.height == b.height && a.prevHash == b.prevHash
    {
      assert Known(mined', a) && Known(mined', b);
    }
  }

  /** However the database calls of any number of appenders interleave, the chain stays gap-free and linked,
      no row ever changes, and for every tip exactly one block checked against it was inserted: the log of
      successful inserts is 0, 1, 2, ... up to the tip. */
  lemma AppendersNeverClash(threads: set<ThreadId>, time: int, states: seq<State>, steps: seq<Step>, i: nat, j: nat)
    requires Run(threads, time, states, steps) && i <= j < |states|
    requires CollisionFree(states[j].mined)
    ensures Linked(states[j].mined, states[j].table)
    ensures Appended(states[i].table, states[j].table)
    ensures |states[j].winners| == Top(states[j].table)
    ensures forall k :: 0 <= k < |states[j].winners| ==> states[j].winners[k] == k
  {
    RunSafe(threads, time, states, steps, i, j);
  }
}
