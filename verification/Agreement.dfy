/** What two healthy chains grown from the same set of mined blocks have in common, and what a sync
    exchange makes of them. */
module Agreement {
  import opened Types
  import opened Protocol

  lemma SameParent(mined: set<Header>, a: Table, b: Table, i: int, j: int)
    requires CollisionFree(mined) && Linked(mined, a) && Linked(mined, b)
    requires i in a && j in b && a[i].hash == b[j].hash
    ensures 0 <= i == j
    ensures i > 0 ==> i - 1 in a && i - 1 in b && a[i - 1].hash == b[i - 1].hash
  {
    hide HasParent;
    assert Known(mined, a[i]) && Known(mined, b[j]);
    if i > 0 {
      assert Link(a, i) && Link(b, i);
    }
  }

  /** The same hash anywhere in two chains means the same height and the same hashes all the way down. */
  lemma {:induction false} CommonPrefix(mined: set<Header>, a: Table, b: Table, i: int, j: int)
    requires CollisionFree(mined) && Linked(mined, a) && Linked(mined, b)
    requires i in a && j in b && a[i].hash == b[j].hash
    ensures 0 <= i == j
    ensures forall k :: 0 <= k <= i ==> k in a && k in b && a[k].hash == b[k].hash
    decreases i
  {
    hide Linked, CollisionFree;
    SameParent(mined, a, b, i, j);
    if i > 0 {
      CommonPrefix(mined, a, b, i - 1, j - 1);
    }
  }

  /** With headers told apart by their hashes, the shared part is equal row by row; genesis rows may
      still differ in their timestamps. */
  lemma CommonPrefixRows(mined: set<Header>, a: Table, b: Table, i: int, k: int)
    requires CollisionFree(mined) && Linked(mined, a) && Linked(mined, b)
    requires forall x, y :: x in mined && y in mined && x.hash == y.hash ==> x == y
    requires i in a && i in b && a[i].hash == b[i].hash && 0 < k <= i
    ensures a[k] == b[k]
  {
    CommonPrefix(mined, a, b, i, i);
    assert a[k] in mined && b[k] in mined;
  }

  /** Chains that differ at some height differ at every height above it. */
  lemma ForkNeverMerges(mined: set<Header>, a: Table, b: Table, k: int, i: int, j: int)
    requires CollisionFree(mined) && Linked(mined, a) && Linked(mined, b)
    requires k in a && k in b && a[k].hash != b[k].hash
    requires k <= i && i in a && j in b
    ensures a[i].hash != b[j].hash
  {
    if a[i].hash == b[j].hash {
      CommonPrefix(mined, a, b, i, j);
    }
  }

  /** Exactly when a sync response brings the receiver forward. */
  predicate Accepts(local: Table, sender: Table, from: int) {
    && from <= Top(local) + 1
    && Top(local) in sender && Top(local) in local
    && sender[Top(local)].hash == local[Top(local)].hash
  }

  lemma SyncStep(mined: set<Header>, local: Table, sender: Table, from: int)
    requires CollisionFree(mined) && Tree(mined) && Linked(mined, local) && Linked(mined, sender)
    requires from in sender && Top(local) < from
    ensures var put := AddBlock(local, sender[from]);
      && Linked(mined, put.table)
      && put.ok == Accepts(local, sender, from)
      && (put.ok ==> Accepts(put.table, sender, from + 1) && sender + put.table == sender + local)
      && (!put.ok ==> put.table == local)
  {
    hide Tree, CollisionFree;
    AddKeepsLinked(mined, local, sender[from]);
    assert Link(sender, from);
  }

  lemma NothingAbove(mined: set<Header>, local: Table, sender: Table, from: int)
    requires Linked(mined, local) && Linked(mined, sender)
    ensures Top(sender) < from && Accepts(local, sender, from) ==> sender + local == local
    ensures from !in sender && from <= Top(sender) ==> Accepts(local, sender, from) == Accepts(local, sender, from + 1)
  {
  }

  /** The response to a request from height `from` either gives the receiver all the sender's blocks
      above its own tip, or changes nothing; which of the two is decided by one comparison. */
  lemma {:induction false} SyncExchange(mined: set<Header>, local: Table, sender: Table, from: int)
    requires CollisionFree(mined) && Tree(mined) && Linked(mined, local) && Linked(mined, sender)
    ensures Absorb(local, Snapshot(sender, from, Top(sender)))
         == if Accepts(local, sender, from) then sender + local else local
    decreases Top(sender) - from
  {
    hide Tree, CollisionFree, Linked;
    NothingAbove(mined, local, sender, from);
    if from <= Top(sender) {
      if from in sender && Top(local) < from {
        SyncStep(mined, local, sender, from);
        SyncExchange(mined, AddBlock(local, sender[from]).table, sender, from + 1);
      } else {
        SyncExchange(mined, local, sender, from + 1);
      }
      SnapshotStep(mined, sender, from);
    }
  }

  lemma SnapshotStep(mined: set<Header>, sender: Table, from: int)
    requires Linked(mined, sender) && from <= Top(sender)
    ensures var rest := Snapshot(sender, from + 1, Top(sender));
      Snapshot(sender, from, Top(sender)) == if from in sender then [sender[from]] + rest else rest
    ensures from in sender ==> sender[from].height == from
  {
  }

  /** A receiver that accepts ends with the sender's hashes at every height the sender has, and taking the
      same response in a second time changes nothing. */
  lemma SyncAgrees(mined: set<Header>, local: Table, sender: Table, from: int)
    requires CollisionFree(mined) && Tree(mined) && Linked(mined, local) && Linked(mined, sender)
    ensures var response := Snapshot(sender, from, Top(sender));
      var after := Absorb(local, response);
      && (Accepts(local, sender, from) ==> forall k :: k in sender ==> k in after && after[k].hash == sender[k].hash)
      && Absorb(after, response) == after
  {
    hide Tree, CollisionFree;
    var response := Snapshot(sender, from, Top(sender));
    var after := Absorb(local, response);
    SnapshotKnown(mined, sender, from, Top(sender));
    AbsorbKeepsLinked(mined, local, response);
    SyncExchange(mined, local, sender, from);
    SyncExchange(mined, after, sender, from);
    if Accepts(local, sender, from) {
      CommonPrefix(mined, local, sender, Top(local), Top(local));
      assert Top(after) in sender;
      assert sender + after == after;
    }
  }

  /** The whole exchange: a node that is behind, whether it asks by itself or is told of the sender's newest block, and
      takes in the answer to its request, ends on the sender's chain exactly when its own tip lies on that
      chain, and otherwise stays as it was. */
  lemma LaggingNodeCatchesUp(mined: set<Header>, local: Table, sender: Table, request: Msg)
    requires CollisionFree(mined) && Tree(mined) && Linked(mined, local) && Linked(mined, sender)
    requires Top(sender) > Top(local) && request.GetBlocks?
    requires request == SyncRequest(local) || Some(request) == OnNewBlock(local, sender[Top(sender)]).reply
    ensures var answer := OnMessage(sender, request).reply;
      && OnMessage(sender, request).table == sender
      && answer.Some? && answer.value.BlocksResponse?
      && OnMessage(local, answer.value) == Reaction(
           if sender[Top(local)].hash == local[Top(local)].hash then sender + local else local, None)
  {
    var from := Top(local) + 1;
    assert Top(local) in sender && Top(sender) in sender;
    assert request == GetBlocks(from);
    SyncExchange(mined, local, sender, from);
    hide Tree, CollisionFree, Absorb, AddBlock, ReplaceLast;
    assert from in sender;
    assert Snapshot(sender, from, Top(sender)) != [];
  }
}
