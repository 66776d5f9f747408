/** Loads of bond slaves: what each hash bucket adds to the slave it is assigned to. */
module BondLoads {
  import opened Options

  type SlaveId = nat

  /** struct bond_entry, a hash bucket. */
  datatype Entry = Entry(slave: Option<SlaveId>, txBytes: nat)

  /** What a bucket adds to slave `s`. */
  function Share(e: Entry, s: SlaveId): nat {
    if e.slave == Some(s) then e.txBytes else 0
  }

  /** The sum over the buckets assigned to `s`. */
  function Load(hash: seq<Entry>, s: SlaveId): nat {
    if hash == [] then 0 else Load(hash[..|hash| - 1], s) + Share(hash[|hash| - 1], s)
  }

  /** The sum over all buckets. */
  function Total(hash: seq<Entry>): nat {
    if hash == [] then 0 else Total(hash[..|hash| - 1]) + hash[|hash| - 1].txBytes
  }

  /** The effect on a slave's load of changing bucket `b`. */
  lemma {:induction false} LoadAfterChange(hash: seq<Entry>, b: nat, e: Entry, s: SlaveId)
    requires b < |hash|
    ensures Load(hash[b := e], s) == Load(hash, s) - Share(hash[b], s) + Share(e, s)
    ensures Share(hash[b], s) <= Load(hash, s)
  {
    var n := |hash| - 1;
    if b < n {
      assert hash[b := e][..n] == hash[..n][b := e];
      LoadAfterChange(hash[..n], b, e, s);
    } else {
      assert hash[b := e][..n] == hash[..n];
    }
  }

  lemma {:induction false} TotalAfterMove(hash: seq<Entry>, b: nat, e: Entry)
    requires b < |hash| && e.txBytes == hash[b].txBytes
    ensures Total(hash[b := e]) == Total(hash)
  {
    var n := |hash| - 1;
    if b < n {
      assert hash[b := e][..n] == hash[..n][b := e];
      TotalAfterMove(hash[..n], b, e);
    } else {
      assert hash[b := e][..n] == hash[..n];
    }
  }
}
