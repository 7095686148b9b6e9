/** What a drafted block's Merkle root and a found hash are worth: although no node ever calls `validate`, every block mined
    by nodes that compute their hashes would pass it where it was mined. */
module Validity {
  import opened Types
  import opened Chain
  import opened Protocol
  import opened LedgerNetwork
  import Merkle
  import Mining
  import Network
  import Pool

  /** Sealed with any nonce, a draft validates exactly when its hash starts with as many zeros as its difficulty says. */
  lemma DraftValidates(st: State, sha: Merkle.Digest, miner: string, coinbaseHash: Hash, now: int, nonce: int)
    ensures var d := Chain.Draft(st, sha, miner, coinbaseHash, now).block;
      var sealed := Mining.Seal(sha, d.header, nonce);
      Mining.Validate(sha, Block(sealed, d.txs)) <==>
      0 <= d.header.difficulty <= |sealed.hash| && forall i :: 0 <= i < d.header.difficulty ==> sealed.hash[i] == '0'
  {
    var d := Chain.Draft(st, sha, miner, coinbaseHash, now).block;
    DraftRooted(st, sha, miner, coinbaseHash, now);
    hide Chain.Draft, Merkle.Root;
    Mining.SealedValidates(sha, d.header, nonce, d.txs);
  }

  ghost predicate Rooted(sha: Merkle.Digest, b: Block) {
    b.header.merkleRoot == Merkle.Root(sha, Mining.TxHashes(b.txs))
  }

  lemma DraftRooted(st: State, sha: Merkle.Digest, miner: string, coinbaseHash: Hash, now: int)
    ensures Rooted(sha, Chain.Draft(st, sha, miner, coinbaseHash, now).block)
  {
    hide Pool.Selection, Merkle.Root, Protocol.Draft;
    assert forall table, root :: Protocol.Draft(table, miner, root, now).merkleRoot == root by {
      RootOfDraft(miner, now);
    }
  }

  lemma RootOfDraft(miner: string, now: int)
    ensures forall table: Table, root: Hash :: Protocol.Draft(table, miner, root, now).merkleRoot == root
  {
  }

  // ---------- nodes that compute their hashes ----------

  /** A nonce is tried with the hash that goes with it. */
  predicate Computed(sha: Merkle.Digest, w: World, act: Act) {
    act.Try? && act.n in w.peers && w.peers[act.n].work.Some? ==>
      act.hash == Mining.Seal(sha, w.peers[act.n].work.value.header, act.nonce).hash
  }

  ghost predicate Honest(sha: Merkle.Digest, worlds: seq<World>, acts: seq<Act>) {
    |worlds| == |acts| + 1 && forall i {:trigger Computed(sha, worlds[i], acts[i])} :: 0 <= i < |acts| ==> Computed(sha, worlds[i], acts[i])
  }

  ghost predicate Valid(sha: Merkle.Digest, h: Header) {
    exists txs :: Mining.Validate(sha, Block(h, txs))
  }

  ghost predicate AllValid(sha: Merkle.Digest, w: World) {
    && (forall n :: n in w.peers && w.peers[n].work.Some? ==> Rooted(sha, w.peers[n].work.value))
    && (forall h {:trigger Valid(sha, h)} :: h in w.mined ==> Valid(sha, h))
  }

  /** A block that a node strikes validates. */
  lemma StruckValidates(sha: Merkle.Digest, p: Peer, nonce: int)
    requires p.work.Some? && Rooted(sha, p.work.value)
    ensures var sealed := Mining.Seal(sha, p.work.value.header, nonce);
      forall h :: h in Strike(p, p.work.value.header.height, nonce, sealed.hash).found ==>
        h == sealed && Mining.Validate(sha, Block(h, p.work.value.txs))
  {
    var header := p.work.value.header;
    var sealed := Mining.Seal(sha, header, nonce);
    Mining.SealedValidates(sha, header, nonce, p.work.value.txs);
    TargetByCharacters(sealed.hash, header.difficulty);
    assert sealed == header.(nonce := nonce, hash := sealed.hash);
    hide Append, MeetsTarget, Mining.CalculateHash, Mining.Validate, Merkle.Root;
  }

  lemma MoveValid(sha: Merkle.Digest, w: World, act: Act)
    requires AllValid(sha, w) && Computed(sha, w, act)
    ensures AllValid(sha, Move(sha, w, act))
  {
    hide Valid, Rooted;
    MoveIsLocal(sha, w, act);
    if act.Try? && act.n in w.peers && w.peers[act.n].work.Some? {
      var p := w.peers[act.n];
      hide Mining.Seal;
      assert Rooted(sha, p.work.value);
      StruckValidates(sha, p, act.nonce);
      forall h | h in Strike(p, p.work.value.header.height, act.nonce, act.hash).found
        ensures Valid(sha, h)
      {
        ValidBy(sha, h, p.work.value.txs);
      }
      StruckWork(p, p.work.value.header.height, act.nonce, act.hash);
      hide Strike;
    } else if act.Begin? && act.n in w.peers {
      DraftRooted(w.peers[act.n].ledger, sha, act.n, act.coinbaseHash, act.now);
      hide Chain.Draft;
    } else {
      hide Strike, Started, Admit, Clean, AfterMessage, OnMessage;
    }
  }

  lemma ValidBy(sha: Merkle.Digest, h: Header, txs: seq<Tx>)
    requires Mining.Validate(sha, Block(h, txs))
    ensures Valid(sha, h)
  {
    hide Mining.Validate;
  }

  lemma StruckWork(p: Peer, target: int, nonce: int, hash: Hash)
    requires p.work.Some?
    ensures var struck := Strike(p, target, nonce, hash); struck.peer.work == None || struck.peer.work == p.work
  {
    hide Append, MeetsTarget;
  }

  /** In every history in which hashes are computed, every block mined so far validates with some transactions, so its hash is
      the one of its own text and its Merkle root that of a list of transactions. */
  lemma {:induction false} EveryMinedBlockValidates(sha: Merkle.Digest, clocks: map<Network.NodeId, int>, worlds: seq<World>, acts: seq<Act>, i: nat)
    requires History(sha, clocks, worlds, acts) && Honest(sha, worlds, acts) && i < |worlds|
    ensures AllValid(sha, worlds[i])
    decreases i
  {
    hide Move, AllValid, Computed, Genesis;
    if i == 0 {
      GenesisValid(sha, clocks);
    } else {
      assert MoveAt(sha, worlds, acts, i - 1) && Computed(sha, worlds[i - 1], acts[i - 1]);
      EveryMinedBlockValidates(sha, clocks, worlds, acts, i - 1);
      MoveValid(sha, worlds[i - 1], acts[i - 1]);
    }
  }

  lemma GenesisValid(sha: Merkle.Digest, clocks: map<Network.NodeId, int>)
    ensures AllValid(sha, Genesis(clocks))
  {
  }

  /** So two mined headers with equal field widths share a hash only if they are the same, or a digest collision can be
      written down; what the results on difficulties and on meeting ask of the hash function is that much. */
  lemma MinedHeadersToldApart(sha: Merkle.Digest, clocks: map<Network.NodeId, int>, worlds: seq<World>, acts: seq<Act>, i: nat, x: Header, y: Header)
    returns (s: string, t: string)
    requires History(sha, clocks, worlds, acts) && Honest(sha, worlds, acts) && i < |worlds|
    requires x in worlds[i].mined && y in worlds[i].mined && x.hash == y.hash && Mining.SameWidths(x, y)
    ensures x == y || (s != t && sha(s) == sha(t))
  {
    EveryMinedBlockValidates(sha, clocks, worlds, acts, i);
    assert Valid(sha, x) && Valid(sha, y);
    hide AllValid, History, Honest, Mining.SameWidths, Merkle.Root, MeetsTarget;
    s, t := Mining.HashCommits(sha, x, y);
  }
}
