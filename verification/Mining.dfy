/** The text a block hash is taken of, the nonce search, and the check that a finished block would pass. */
module Mining {
  import opened Types
  import Merkle

  // ---------- numbers as a stream prints them ----------

  function Digit(d: int): (c: char)
    requires 0 <= d < 10
    ensures '0' <= c <= '9'
  {
    '0' + d as char
  }

  function Decimal(n: int): (s: string)
    ensures s != []
    decreases if n < 0 then 1 - n else n
  {
    if n < 0 then "-" + Decimal(-n)
    else if n < 10 then [Digit(n)]
    else Decimal(n / 10) + [Digit(n % 10)]
  }

  lemma {:induction false} DecimalOfNat(n: nat)
    ensures forall i :: 0 <= i < |Decimal(n)| ==> '0' <= Decimal(n)[i] <= '9'
    decreases n
  {
    if n >= 10 {
      DecimalOfNat(n / 10);
    }
  }

  lemma {:induction false} DecimalOfNats(a: nat, b: nat)
    requires Decimal(a) == Decimal(b)
    ensures a == b
    decreases a + b
  {
    var s, t := Decimal(a), Decimal(b);
    assert s[|s| - 1] == Digit(a % 10) && t[|t| - 1] == Digit(b % 10);
    if a >= 10 {
      assert s[..|s| - 1] == Decimal(a / 10);
      assert |Decimal(a / 10)| > 0;
    }
    if b >= 10 {
      assert t[..|t| - 1] == Decimal(b / 10);
      assert |Decimal(b / 10)| > 0;
    }
    if a >= 10 && b >= 10 {
      DecimalOfNats(a / 10, b / 10);
    }
  }

  /** Different numbers are printed differently. */
  lemma DecimalTells(a: int, b: int)
    ensures Decimal(a) == Decimal(b) <==> a == b
  {
    DecimalOfNat(if a < 0 then -a else a);
    DecimalOfNat(if b < 0 then -b else b);
    assert (a < 0) == (Decimal(a)[0] == '-') && (b < 0) == (Decimal(b)[0] == '-');
    if Decimal(a) == Decimal(b) {
      if a < 0 && b < 0 {
        assert Decimal(a)[1..] == Decimal(-a) && Decimal(b)[1..] == Decimal(-b);
        DecimalOfNats(-a, -b);
      } else {
        DecimalOfNats(a, b);
      }
    }
  }

  // ---------- what a block hash is taken of ----------

  /** The fields one after the other, without anything between them; the hash itself and the transactions are not among
      them. */
  function HashedText(h: Header): string {
    Decimal(h.height) + h.prevHash + h.merkleRoot + Decimal(h.timestamp) + Decimal(h.nonce) + Decimal(h.difficulty) + h.minedBy
  }

  function CalculateHash(sha: Merkle.Digest, h: Header): Hash {
    sha(HashedText(h))
  }

  /** Every field but the last takes as many characters in one header as in the other. */
  predicate SameWidths(a: Header, b: Header) {
    && |Decimal(a.height)| == |Decimal(b.height)| && |a.prevHash| == |b.prevHash| && |a.merkleRoot| == |b.merkleRoot|
    && |Decimal(a.timestamp)| == |Decimal(b.timestamp)| && |Decimal(a.nonce)| == |Decimal(b.nonce)|
    && |Decimal(a.difficulty)| == |Decimal(b.difficulty)|
  }

  lemma SplitText(a: string, x: string, b: string, y: string)
    requires |a| == |b|
    ensures a + x == b + y <==> a == b && x == y
  {
    if a + x == b + y {
      assert (a + x)[..|a|] == a && (b + y)[..|b|] == b;
      assert (a + x)[|a|..] == x && (b + y)[|b|..] == y;
    }
  }

  /** Field by field: where the fields have the same widths, the text tells any two headers apart that differ in more than
      their hash. */
  lemma TextTellsFields(a: Header, b: Header)
    requires SameWidths(a, b)
    ensures HashedText(a) == HashedText(b) <==> a.(hash := "") == b.(hash := "")
  {
    DecimalTells(a.height, b.height);
    DecimalTells(a.timestamp, b.timestamp);
    DecimalTells(a.nonce, b.nonce);
    DecimalTells(a.difficulty, b.difficulty);
    hide Decimal;
    var a6, b6 := a.minedBy, b.minedBy;
    var a5, b5 := Decimal(a.difficulty) + a6, Decimal(b.difficulty) + b6;
    var a4, b4 := Decimal(a.nonce) + a5, Decimal(b.nonce) + b5;
    var a3, b3 := Decimal(a.timestamp) + a4, Decimal(b.timestamp) + b4;
    var a2, b2 := a.merkleRoot + a3, b.merkleRoot + b3;
    var a1, b1 := a.prevHash + a2, b.prevHash + b2;
    assert HashedText(a) == Decimal(a.height) + a1 && HashedText(b) == Decimal(b.height) + b1;
    SplitText(Decimal(a.height), a1, Decimal(b.height), b1);
    SplitText(a.prevHash, a2, b.prevHash, b2);
    SplitText(a.merkleRoot, a3, b.merkleRoot, b3);
    SplitText(Decimal(a.timestamp), a4, Decimal(b.timestamp), b4);
    SplitText(Decimal(a.nonce), a5, Decimal(b.nonce), b5);
    SplitText(Decimal(a.difficulty), a6, Decimal(b.difficulty), b6);
  }

  /** The widths matter: since nothing stands between the fields, a timestamp and a nonce can trade digits without changing
      the text, and so the hash. */
  lemma NeighboursTradeDigits(prevHash: Hash, root: Hash, miner: string)
    ensures var a, b := Header(1, "", prevHash, root, 12, 3, 4, miner), Header(1, "", prevHash, root, 1, 23, 4, miner);
      a != b && HashedText(a) == HashedText(b)
      && HashedText(a) == "1" + prevHash + root + "1234" + miner
  {
    assert Decimal(12) == Decimal(1) + [Digit(2)] && Decimal(23) == Decimal(2) + [Digit(3)];
    assert Decimal(1) == "1" && Decimal(2) == "2" && Decimal(3) == "3" && Decimal(4) == "4";
    assert Decimal(12) + Decimal(3) + Decimal(4) == "1234" && Decimal(1) + Decimal(23) + Decimal(4) == "1234";
    hide Decimal;
    var p := "1" + prevHash + root;
    assert p + "12" + "3" + "4" + miner == p + "1234" + miner && p + "1" + "23" + "4" + miner == p + "1234" + miner;
  }

  /** What a block hash commits to: headers of equal field widths that share it agree on every other field, or else two
      strings with one digest can be written down. */
  lemma HashCommits(sha: Merkle.Digest, a: Header, b: Header) returns (s: string, t: string)
    requires SameWidths(a, b)
    ensures a.(hash := "") == b.(hash := "") ==> CalculateHash(sha, a) == CalculateHash(sha, b)
    ensures CalculateHash(sha, a) == CalculateHash(sha, b) ==> a.(hash := "") == b.(hash := "") || (s != t && sha(s) == sha(t))
  {
    TextTellsFields(a, b);
    s, t := HashedText(a), HashedText(b);
  }

  /** The header with this nonce and the hash that goes with it. */
  function Seal(sha: Merkle.Digest, h: Header, nonce: int): Header {
    h.(nonce := nonce, hash := CalculateHash(sha, h.(nonce := nonce)))
  }

  predicate Hits(sha: Merkle.Digest, h: Header, nonce: int) {
    MeetsTarget(Seal(sha, h, nonce).hash, h.difficulty)
  }

  function TxHashes(txs: seq<Tx>): (hashes: seq<Hash>)
    ensures |hashes| == |txs| && forall i :: 0 <= i < |txs| ==> hashes[i] == txs[i].hash
  {
    seq(|txs|, i requires 0 <= i < |txs| => txs[i].hash)
  }

  predicate Validate(sha: Merkle.Digest, b: Block) {
    && b.header.hash == CalculateHash(sha, b.header)
    && MeetsTarget(b.header.hash, b.header.difficulty)
    && b.header.merkleRoot == Merkle.Root(sha, TxHashes(b.txs))
  }

  /** A sealed header validates with a list of transactions exactly when its hash starts with as many zeros as its
      difficulty says and its Merkle root is that of the list. */
  lemma SealedValidates(sha: Merkle.Digest, h: Header, nonce: int, txs: seq<Tx>)
    ensures var sealed := Seal(sha, h, nonce);
      Validate(sha, Block(sealed, txs)) <==>
      && 0 <= h.difficulty <= |sealed.hash| && (forall i :: 0 <= i < h.difficulty ==> sealed.hash[i] == '0')
      && h.merkleRoot == Merkle.Root(sha, TxHashes(txs))
  {
    HashIgnoresItself(sha, Seal(sha, h, nonce), h);
    TargetByCharacters(Seal(sha, h, nonce).hash, h.difficulty);
    hide HashedText, Merkle.Root, MeetsTarget;
  }

  /** Two blocks that both validate, under one hash and with equal field widths, have one header, and transaction hashes
      that are equal if there are equally many, and in any case form one Merkle tree; or else two strings with one
      digest can be written down. */
  lemma ValidBlocksUnderOneHash(sha: Merkle.Digest, a: Block, b: Block) returns (s: string, t: string)
    requires Merkle.Sha(sha) && Validate(sha, a) && Validate(sha, b) && a.header.hash == b.header.hash
    requires SameWidths(a.header, b.header) && Merkle.AllHashes(TxHashes(a.txs)) && Merkle.AllHashes(TxHashes(b.txs))
    ensures var xs, ys := TxHashes(a.txs), TxHashes(b.txs);
      var d := if Merkle.Depth(|xs|) <= Merkle.Depth(|ys|) then Merkle.Depth(|xs|) else Merkle.Depth(|ys|);
      || (s != t && sha(s) == sha(t))
      || (&& a.header == b.header && (|a.txs| == |b.txs| ==> xs == ys)
          && Merkle.SameTree(Merkle.Passes(sha, xs, Merkle.Depth(|xs|) - d), Merkle.Passes(sha, ys, Merkle.Depth(|ys|) - d), d))
  {
    var xs, ys := TxHashes(a.txs), TxHashes(b.txs);
    hide Merkle.Root, Merkle.Depth, Merkle.Passes, Merkle.SameTree, Merkle.Sha, Merkle.AllHashes, SameWidths, HashedText, MeetsTarget;
    s, t := HashCommits(sha, a.header, b.header);
    assert CalculateHash(sha, a.header) == CalculateHash(sha, b.header);
    if s == t || sha(s) != sha(t) {
      assert a.header == b.header;
      s, t := RootCommits(sha, xs, ys);
    }
  }

  lemma RootCommits(sha: Merkle.Digest, xs: seq<Hash>, ys: seq<Hash>) returns (s: string, t: string)
    requires Merkle.Sha(sha) && Merkle.AllHashes(xs) && Merkle.AllHashes(ys) && Merkle.Root(sha, xs) == Merkle.Root(sha, ys)
    ensures var d := if Merkle.Depth(|xs|) <= Merkle.Depth(|ys|) then Merkle.Depth(|xs|) else Merkle.Depth(|ys|);
      || (s != t && sha(s) == sha(t))
      || (&& (|xs| == |ys| ==> xs == ys)
          && Merkle.SameTree(Merkle.Passes(sha, xs, Merkle.Depth(|xs|) - d), Merkle.Passes(sha, ys, Merkle.Depth(|ys|) - d), d))
  {
    hide Merkle.Root, Merkle.Depth, Merkle.Passes, Merkle.SameTree, Merkle.Sha, Merkle.AllHashes;
    if |xs| == |ys| && xs != ys {
      s, t := Merkle.RootBinds(sha, xs, ys);
    } else {
      s, t := Merkle.RootDeterminesTree(sha, xs, ys);
    }
  }

  /** `Block::mine`: stops at the least nonce whose hash starts with as many zeros as the difficulty says.  A mined block
      passes `validate` exactly when its Merkle root was right to begin with; an exhausted search leaves the last hash
      tried in place. */
  method Mine(sha: Merkle.Digest, block: Block, maxNonce: int) returns (mined: Block, found: bool)
    ensures mined.txs == block.txs
    ensures found ==>
      && 0 <= mined.header.nonce < maxNonce
      && mined.header == Seal(sha, block.header, mined.header.nonce)
      && 0 <= block.header.difficulty <= |mined.header.hash|
      && (forall i :: 0 <= i < block.header.difficulty ==> mined.header.hash[i] == '0')
      && (Validate(sha, mined) <==> block.header.merkleRoot == Merkle.Root(sha, TxHashes(block.txs)))
    ensures forall j :: 0 <= j < (if found then mined.header.nonce else maxNonce) ==>
      var hash := Seal(sha, block.header, j).hash;
      !(0 <= block.header.difficulty <= |hash| && forall i :: 0 <= i < block.header.difficulty ==> hash[i] == '0')
    ensures !found ==>
      mined.header == if maxNonce <= 0 then block.header.(nonce := 0)
                      else Seal(sha, block.header, maxNonce - 1).(nonce := maxNonce)
  {
    hide HashedText, Merkle.Root, MeetsTarget;
    forall j
      ensures var hash := Seal(sha, block.header, j).hash;
        Hits(sha, block.header, j)
        <==> 0 <= block.header.difficulty <= |hash| && forall i :: 0 <= i < block.header.difficulty ==> hash[i] == '0'
    {
      TargetByCharacters(Seal(sha, block.header, j).hash, block.header.difficulty);
    }
    mined := block.(header := block.header.(nonce := 0));
    while mined.header.nonce < maxNonce
      invariant 0 <= mined.header.nonce && (mined.header.nonce <= maxNonce || mined.header.nonce == 0)
      invariant mined.txs == block.txs
      invariant mined.header == (if mined.header.nonce == 0 then block.header.(nonce := 0)
                                 else Seal(sha, block.header, mined.header.nonce - 1).(nonce := mined.header.nonce))
      invariant forall j :: 0 <= j < mined.header.nonce ==> !Hits(sha, block.header, j)
      decreases maxNonce - mined.header.nonce
    {
      HashIgnoresItself(sha, mined.header, block.header);
      mined := mined.(header := mined.header.(hash := CalculateHash(sha, mined.header)));
      assert mined.header == Seal(sha, block.header, mined.header.nonce);
      if MeetsTarget(mined.header.hash, mined.header.difficulty) {
        SealedValidates(sha, block.header, mined.header.nonce, block.txs);
        assert forall j :: 0 <= j < mined.header.nonce ==> !Hits(sha, block.header, j);
        return mined, true;
      }
      mined := mined.(header := mined.header.(nonce := mined.header.nonce + 1));
    }
    return mined, false;
  }

  /** What stands in the hash field does not matter. */
  lemma HashIgnoresItself(sha: Merkle.Digest, a: Header, b: Header)
    ensures a.(hash := "") == b.(nonce := a.nonce, hash := "") ==> CalculateHash(sha, a) == CalculateHash(sha, b.(nonce := a.nonce))
  {
  }
}
