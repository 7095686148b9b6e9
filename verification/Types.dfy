/** The values the ledger stores and exchanges. */
module Types {

  type Hash = string
  type Address = string

  datatype Option<+T> = None | Some(value: T)

  /** The sender of coinbase transactions. */
  const SYSTEM: Address := "SYSTEM"

  /** The `status` column; `Unknown` is any text outside the CHECK list. */
  datatype Status = Pending | Confirmed | Invalid | Unknown(text: string)

  /** A transaction.  `rest` stands for the fields no rule looks at: signature,
      timestamp, data and nonce. */
  datatype Tx = Tx(hash: Hash, from: Address, to: Address, amount: real, fee: real, status: Status, rest: string)

  /** Everything of a block except its transactions.  Broadcasts and sync responses carry only this. */
  datatype Header = Header(height: int, hash: Hash, prevHash: Hash, merkleRoot: Hash,
                           timestamp: int, nonce: int, difficulty: int, minedBy: string)

  datatype Block = Block(header: Header, txs: seq<Tx>)

  /** What the environment supplies when a transaction is admitted: the clock, and how many characters
      its JSON text has between the braces. */
  datatype Stamp = Stamp(body: nat, now: int) {
    function JsonSize(): nat { 2 + body }
  }

  function Zeros(n: nat): (s: string)
    ensures |s| == n && forall i :: 0 <= i < n ==> s[i] == '0'
  {
    seq(n, _ => '0')
  }

  /** The hash written into the genesis row by the schema script. */
  const GENESIS_HASH: Hash := Zeros(64)

  /** The genesis row; only its timestamp differs between nodes. */
  function GenesisHeader(time: int): Header {
    Header(0, GENESIS_HASH, "0", GENESIS_HASH, time, 0, 1, "genesis_miner")
  }

  function GenesisTx(): Tx {
    Tx(GENESIS_HASH, SYSTEM, "genesis_miner", 10000.0, 0.0, Confirmed, "Genesis block reward")
  }

  /** The proof-of-work test: the first `difficulty` characters of the hash are '0'.
      A hash shorter than the target never meets it. */
  predicate MeetsTarget(hash: Hash, difficulty: int) {
    0 <= difficulty <= |hash| && hash[..difficulty] == Zeros(difficulty)
  }

  /** The same character by character. */
  lemma TargetByCharacters(hash: Hash, difficulty: int)
    ensures MeetsTarget(hash, difficulty) <==> 0 <= difficulty <= |hash| && forall i :: 0 <= i < difficulty ==> hash[i] == '0'
  {
    if MeetsTarget(hash, difficulty) {
      assert forall i :: 0 <= i < difficulty ==> hash[i] == hash[..difficulty][i];
    }
  }

  lemma {:induction false} MaxExists(s: set<int>, x: int)
    requires x in s
    ensures exists t :: t in s && forall k :: k in s ==> k <= t
    decreases |s|
  {
    if y :| y in s && x < y {
      var rest := s - {x};
      MaxExists(rest, y);
      var t :| t in rest && forall k :: k in rest ==> k <= t;
      forall k | k in s ensures k <= t {
        assert k == x || k in rest;
      }
    } else {
      assert forall k :: k in s ==> k <= x;
    }
  }

  /** SELECT MAX(height): on an empty table the NULL reads back as 0. */
  function Top<T>(table: map<int, T>): (t: int)
    ensures t in table || (t == 0 && forall k :: k !in table)
    ensures forall k :: k in table ==> k <= t
  {
    if exists k :: k in table then
      var x :| x in table;
      MaxExists(table.Keys, x);
      var t :| t in table.Keys && forall k :: k in table.Keys ==> k <= t;
      t
    else 0
  }
}
