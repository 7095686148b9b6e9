/** Mining without new admissions: exactly when the mempool runs empty. */
module Draining {
  import opened Types
  import opened Ledger
  import opened Pool
  import opened Chain
  import opened ChainRuns
  import Merkle

  /** One round: a block is drafted, sealed with some nonce and hash, and appended. */
  datatype Round = Round(sha: Merkle.Digest, miner: string, coinbaseHash: Hash, now: int, nonce: int, hash: Hash)

  function Sealed(b: Block, r: Round): Block {
    b.(header := b.header.(nonce := r.nonce, hash := r.hash))
  }

  function Play(st: State, r: Round): Result {
    var d := Chain.Draft(st, r.sha, r.miner, r.coinbaseHash, r.now);
    Append(d.state, Sealed(d.block, r))
  }

  ghost predicate RoundAt(states: seq<State>, rounds: seq<Round>, i: int) {
    && 0 <= i < |rounds| < |states|
    && Play(states[i], rounds[i]).ok && states[i + 1] == Play(states[i], rounds[i]).state
  }

  /** Successive states of a ledger whose blocks are all accepted. */
  ghost predicate Mining(states: seq<State>, rounds: seq<Round>) {
    && |states| == |rounds| + 1
    && forall i {:trigger RoundAt(states, rounds, i)} :: 0 <= i < |rounds| ==> RoundAt(states, rounds, i)
  }

  /** A SYSTEM transaction in the mempool that the index knows.  Anyone can submit one: it is admitted without a
      balance check. */
  ghost predicate Stuck(st: State, h: Hash) {
    h in st.pool && Indexed(st.index, h) && st.pool[h].from == SYSTEM
  }

  ghost predicate NothingStuck(st: State) {
    forall h :: !Stuck(st, h)
  }

  /** It is accepted from the first moment on, whatever it amounts to. */
  lemma SystemAdmissionSticks(time: int, tx: Tx, stamp: Stamp)
    requires tx.from == SYSTEM && tx.amount > 0.0 && tx.fee >= 0.0
    ensures var r := Admit(Init(time), tx, stamp);
      r.ok && Stuck(r.state, tx.hash)
  {
    FirstAdmission(time, tx, stamp);
    var index := Admit(Init(time), tx, stamp).state.index;
    assert index[0].hash == tx.hash;
  }

  lemma DraftSound(st: State, r: Round)
    requires Sound(st)
    ensures var d := Chain.Draft(st, r.sha, r.miner, r.coinbaseHash, r.now);
      && Sound(d.state) && d.state.pool.Keys <= st.pool.Keys
      && (d.state == st || (d.state.pool == map[] && d.state.index == []))
  {
  }

  lemma PlaySound(st: State, r: Round)
    requires Sound(st)
    ensures Sound(Play(st, r).state)
  {
    hide Sound;
    DraftSound(st, r);
    var d := Chain.Draft(st, r.sha, r.miner, r.coinbaseHash, r.now);
    AppendSound(d.state, Sealed(d.block, r));
  }

  /** An accepted block only ever takes out of mempool and index. */
  lemma AppendShrinks(st: State, block: Block)
    requires Append(st, block).ok
    ensures var st' := Append(st, block).state;
      && (forall h :: h in st'.pool ==> h in st.pool && st'.pool[h] == st.pool[h] && !Moves(block.txs, h))
      && (forall h :: Indexed(st'.index, h) ==> Indexed(st.index, h))
  {
    var st' := Append(st, block).state;
    var pool := EraseMined(st.pool, block.txs);
    var rows := InsertBlock(st.db, block).rows;
    DoomedAndKept(rows, pool, st.index);
    forall h | Indexed(st'.index, h)
      ensures Indexed(st.index, h)
    {
      var i :| 0 <= i < |st'.index| && st'.index[i].hash == h;
      assert st'.index[i] in st.index;
      var j :| 0 <= j < |st.index| && st.index[j] == st'.index[i];
    }
    hide Unaffordable, Doomed;
  }

  /** If something non-SYSTEM can be taken, it is; if nothing can be taken, everything is thrown away. */
  lemma RoundShrinks(st: State, r: Round)
    requires Sound(st) && NothingStuck(st) && Play(st, r).ok && st.pool != map[]
    ensures var st' := Play(st, r).state; NothingStuck(st') && |st'.pool| < |st.pool|
  {
    var d := Chain.Draft(st, r.sha, r.miner, r.coinbaseHash, r.now);
    var block := Sealed(d.block, r);
    var st' := Play(st, r).state;
    AppendShrinks(d.state, block);
    var chosen := Selection(st.db.rows, st.pool, st.index, BLOCK_LIMIT);
    var picked := TxsOf(st.pool, chosen);
    TxsOfSelection(st.db.rows, st.pool, st.index);
    DraftSound(st, r);
    hide Append, Sound, Unaffordable;
    var gone: Hash :| gone in st.pool && gone !in st'.pool by {
      if chosen == [] {
        var h :| h in st.pool;
        assert h !in st'.pool;
      } else {
        var h := chosen[0].hash;
        ChosenMoves(st, chosen, block.txs, 0);
        assert h in st.pool && h !in st'.pool;
      }
    }
    assert st'.pool.Keys < st.pool.Keys;
    Smaller(st'.pool.Keys, st.pool.Keys);
    forall h
      ensures !Stuck(st', h)
    {
      assert !Stuck(st, h);
    }
  }

  lemma Smaller(a: set<Hash>, b: set<Hash>)
    requires a < b
    ensures |a| < |b|
  {
    var x :| x in b && x !in a;
    assert a <= b - {x};
    SubsetSize(a, b - {x});
  }

  lemma {:induction false} SubsetSize(a: set<Hash>, b: set<Hash>)
    requires a <= b
    ensures |a| <= |b|
    decreases |a|
  {
    if x :| x in a {
      SubsetSize(a - {x}, b - {x});
    }
  }

  /** A chosen transaction that is not SYSTEM's is one the accepted block removes. */
  lemma ChosenMoves(st: State, chosen: seq<Key>, txs: seq<Tx>, i: nat)
    requires Sound(st) && NothingStuck(st) && i < |chosen|
    requires chosen[i] in st.index && chosen[i].hash in st.pool
    requires |txs| == |chosen| + 1 && txs[i + 1] == st.pool[chosen[i].hash]
    ensures Moves(txs, chosen[i].hash)
  {
    var h := chosen[i].hash;
    var j :| 0 <= j < |st.index| && st.index[j] == chosen[i];
    assert !Stuck(st, h);
    assert txs[i + 1].hash == h && txs[i + 1].from != SYSTEM;
  }

  /** A stuck transaction survives every round, accepted or not. */
  lemma StuckStays(st: State, r: Round, h: Hash)
    requires Sound(st) && Stuck(st, h)
    ensures Stuck(Play(st, r).state, h)
  {
    var d := Chain.Draft(st, r.sha, r.miner, r.coinbaseHash, r.now);
    var block := Sealed(d.block, r);
    var chosen := Selection(st.db.rows, st.pool, st.index, BLOCK_LIMIT);
    StuckIsChosen(st, h);
    assert d.state == st;
    TxsOfSelection(st.db.rows, st.pool, st.index);
    forall i | 0 <= i < |block.txs| && block.txs[i].from != SYSTEM
      ensures block.txs[i].hash != h
    {
      assert i > 0 && block.txs[i] == st.pool[chosen[i - 1].hash];
    }
    assert !Moves(block.txs, h);
    if Append(st, block).ok {
      StuckSurvivesClean(State(InsertBlock(st.db, block), EraseMined(st.pool, block.txs), st.index), h);
    }
  }

  lemma StuckIsChosen(st: State, h: Hash)
    requires Stuck(st, h)
    ensures Selection(st.db.rows, st.pool, st.index, BLOCK_LIMIT) != []
  {
    var i :| 0 <= i < |st.index| && st.index[i].hash == h;
    EligibleAre(st.db.rows, st.pool, st.index);
    assert st.index[i] in EligibleKeys(st.db.rows, st.pool, st.index);
  }

  lemma StuckSurvivesClean(st: State, h: Hash)
    requires Stuck(st, h)
    ensures Stuck(Clean(st), h)
  {
    DoomedAndKept(st.db.rows, st.pool, st.index);
    var i :| 0 <= i < |st.index| && st.index[i].hash == h;
    var index' := Clean(st).index;
    assert st.index[i] in index';
    var j :| 0 <= j < |index'| && index'[j] == st.index[i];
  }

  lemma {:induction false} RoundsShrink(states: seq<State>, rounds: seq<Round>, i: nat)
    requires Mining(states, rounds) && Sound(states[0]) && i < |states|
    ensures Sound(states[i])
    ensures NothingStuck(states[0]) ==>
      NothingStuck(states[i]) && (states[i].pool == map[] || |states[i].pool| + i <= |states[0].pool|)
    ensures forall h :: Stuck(states[0], h) ==> Stuck(states[i], h)
    decreases i
  {
    hide Sound, Play, Stuck, NothingStuck;
    if i > 0 {
      var before, r := states[i - 1], rounds[i - 1];
      RoundsShrink(states, rounds, i - 1);
      hide Mining;
      assert RoundAt(states, rounds, i - 1) by {
        MiningRound(states, rounds, i - 1);
      }
      OneRound(before, r);
    }
  }

  lemma OneRound(st: State, r: Round)
    requires Sound(st) && Play(st, r).ok
    ensures var st' := Play(st, r).state;
      && Sound(st')
      && (NothingStuck(st) ==> NothingStuck(st') && (st'.pool == map[] || |st'.pool| < |st.pool|))
      && (forall h :: Stuck(st, h) ==> Stuck(st', h))
  {
    hide Sound, Play, Stuck, NothingStuck;
    PlaySound(st, r);
    forall h | Stuck(st, h)
      ensures Stuck(Play(st, r).state, h)
    {
      StuckStays(st, r, h);
    }
    if NothingStuck(st) {
      if st.pool != map[] {
        RoundShrinks(st, r);
      } else {
        EmptyStaysEmpty(st, r);
      }
    }
  }

  lemma MiningRound(states: seq<State>, rounds: seq<Round>, i: int)
    requires Mining(states, rounds) && 0 <= i < |rounds|
    ensures RoundAt(states, rounds, i)
  {
  }

  lemma EmptyStaysEmpty(st: State, r: Round)
    requires Sound(st) && st.pool == map[] && NothingStuck(st) && Play(st, r).ok
    ensures Play(st, r).state.pool == map[] && NothingStuck(Play(st, r).state)
  {
    hide Append;
    var d := Chain.Draft(st, r.sha, r.miner, r.coinbaseHash, r.now);
    AppendShrinks(d.state, Sealed(d.block, r));
    assert forall h :: !Stuck(Play(st, r).state, h);
  }

  /** After as many accepted rounds as the mempool had transactions it is empty, stale and unindexed entries
      notwithstanding, if and only if no SYSTEM transaction was both in it and in the index. */
  lemma DrainsExactlyWhenNothingStuck(states: seq<State>, rounds: seq<Round>)
    requires Mining(states, rounds) && Sound(states[0]) && |rounds| >= |states[0].pool|
    ensures states[|rounds|].pool == map[] <==> NothingStuck(states[0])
  {
    RoundsShrink(states, rounds, |rounds|);
    hide Sound;
    if !NothingStuck(states[0]) {
      var h :| Stuck(states[0], h);
      assert Stuck(states[|rounds|], h);
    }
  }
}
