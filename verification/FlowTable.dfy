/** The hash table of flows and its rebuilding (ovs/datapath/flow.c).
 *
 * `place` is any function from hashes to buckets: it stands for the mixing of a
 * hash with the table's random seed.  `hashOf` and `keyStart` are any functions
 * of a key: they stand for the hash of the used bytes and for where these begin.
 */
module FlowTable {
  import opened Seqs
  import opened FlowChain

  const KEY_SIZE: nat := 128      // of struct sw_flow_key

  datatype Hashing = Hashing(hash: (seq<int>, nat, nat) -> nat, start: seq<int> -> nat)

  /** The test of ovs_flow_tbl_lookup. */
  ghost predicate Hit(f: Flow, hash: nat, key: seq<int>, start: nat, len: nat)
    requires start <= len <= |key| == KEY_SIZE
    reads f
  {
    f.hash == hash && |f.key| == KEY_SIZE && f.key[start..len] == key[start..len]
  }

  /** The chains hold flows of `fs` only, and no flow is on two of them. */
  ghost predicate Apart(chains: seq<seq<Flow>>, fs: set<Flow>) {
    && (forall b, f | 0 <= b < |chains| && f in chains[b] :: f in fs)
    && (forall b, c, f | 0 <= b < c < |chains| && f in chains[b] :: f !in chains[c])
  }

  ghost predicate AllLinked(chains: seq<seq<Flow>>, fs: set<Flow>, ver: bool)
    requires Apart(chains, fs)
    reads fs
  {
    forall b | 0 <= b < |chains| :: Linked(chains[b], ver)
  }

  /** A reader on the chains of version `ver` sees these links. */
  ghost predicate Sees(fs: set<Flow>, ver: bool, links: map<Flow, Link>)
    reads fs
  {
    forall f | f in fs :: f in links && f.nodes.At(ver) == links[f]
  }

  ghost predicate Fits(s: seq<Flow>, links: map<Flow, Link>) {
    && Distinct(s)
    && (forall i {:trigger links[s[i]]} | 0 <= i < |s| :: s[i] in links && links[s[i]] == Neighbours(s, i))
  }

  lemma SeenChains(chains: seq<seq<Flow>>, fs: set<Flow>, ver: bool, links: map<Flow, Link>)
    requires Apart(chains, fs) && Sees(fs, ver, links)
    ensures AllLinked(chains, fs, ver) <==> forall b | 0 <= b < |chains| :: Fits(chains[b], links)
  {
    forall b | 0 <= b < |chains| ensures Linked(chains[b], ver) <==> Fits(chains[b], links) {
      SeenChain(chains[b], fs, ver, links);
    }
  }

  lemma SeenChain(s: seq<Flow>, fs: set<Flow>, ver: bool, links: map<Flow, Link>)
    requires (forall f | f in s :: f in fs) && Sees(fs, ver, links)
    ensures Linked(s, ver) <==> Fits(s, links)
  {
    if Linked(s, ver) {
      assert forall i | 0 <= i < |s| :: s[i].nodes.At(ver) == links[s[i]];
    }
    if Fits(s, links) {
      assert forall i | 0 <= i < |s| :: s[i].nodes.At(ver) == links[s[i]];
    }
  }

  /** Every flow is on the chain of its hash. */
  ghost predicate Filed(chains: seq<seq<Flow>>, fs: set<Flow>, place: nat -> nat)
    requires Apart(chains, fs) && forall h :: place(h) < |chains|
    reads fs`hash, fs`key
  {
    && (forall f | f in fs :: f in chains[place(f.hash)] && |f.key| == KEY_SIZE)
    && (forall b, f | 0 <= b < |chains| && f in chains[b] :: place(f.hash) == b)
  }

  /** `out` is `chains` with the flow first on chain `b`. */
  ghost predicate PutFirst(chains: seq<seq<Flow>>, b: nat, f: Flow, out: seq<seq<Flow>>) {
    b < |chains| && out == chains[b := [f] + chains[b]]
  }

  lemma FiledOnce(chains: seq<seq<Flow>>, fs: set<Flow>, place: nat -> nat, f: Flow)
    requires Apart(chains, fs) && (forall h :: place(h) < |chains|) && Filed(chains, fs, place)
    requires f !in fs && |f.key| == KEY_SIZE
    requires Apart(chains[place(f.hash) := [f] + chains[place(f.hash)]], fs + {f})
    ensures Filed(chains[place(f.hash) := [f] + chains[place(f.hash)]], fs + {f}, place)
  {}

  class FlowTable {
    const place: nat -> nat
    const heads: array<Flow?>      // 'buckets'
    const ver: bool                // 'node_ver'
    var count: nat
    var keepFlows: bool
    ghost var chains: seq<seq<Flow>>
    ghost var flows: set<Flow>

    ghost predicate Buckets()
      reads this, heads
    {
      && |chains| == heads.Length > 0
      && (forall h :: place(h) < |chains|)
      && (forall b | 0 <= b < |chains| :: heads[b] == First(chains[b]))
    }

    ghost predicate Valid()
      reads this, heads, flows
    {
      && Buckets() && count == |flows|
      && Apart(chains, flows) && Filed(chains, flows, place) && AllLinked(chains, flows, ver)
    }

    /** ovs_flow_tbl_alloc. */
    constructor (n: nat, place: nat -> nat, ver: bool)
      requires n > 0 && forall h :: place(h) < n
      ensures Valid() && flows == {} && count == 0 && !keepFlows && fresh(heads)
      ensures heads.Length == n && this.place == place && this.ver == ver
    {
      heads := new Flow?[n](_ => null);
      this.place, this.ver := place, ver;
      count, keepFlows := 0, false;
      chains, flows := seq(n, _ => []), {};
    }

    /** Puts a flow first on a chain. */
    method LinkIn(b: nat, f: Flow)
      requires Buckets() && Apart(chains, flows) && AllLinked(chains, flows, ver)
      requires b < |chains| && f !in flows
      modifies this`chains, this`flows, heads, flows`nodes, f`nodes
      ensures Buckets() && Apart(chains, flows) && AllLinked(chains, flows, ver)
      ensures flows == old(flows) + {f} && chains == old(chains)[b := [f] + old(chains)[b]]
      ensures forall x | x in flows :: x.nodes.At(!ver) == old(x.nodes.At(!ver))
    {
      hide Linked, Neighbours;
      ghost var s := chains[b];
      AddHead(s, heads[b], ver, f);
      assert forall x | x in flows && x !in s :: x.nodes == old(x.nodes);
      heads[b] := f;
      forall c | 0 <= c < |chains| && c != b ensures Linked(chains[c], ver) {
        assert forall x | x in chains[c] :: x !in s;
      }
      chains := chains[b := [f] + s];
      flows := flows + {f};
    }

    /** __flow_tbl_insert. */
    method Add(f: Flow)
      requires Valid() && f !in flows && |f.key| == KEY_SIZE
      modifies this`count, this`chains, this`flows, heads, flows`nodes, f`nodes
      ensures Valid() && flows == old(flows) + {f}
      ensures forall x | x in flows :: x.nodes.At(!ver) == old(x.nodes.At(!ver))
      ensures PutFirst(old(chains), place(f.hash), f, chains)
    {
      hide Apart, AllLinked, Filed;
      LinkIn(place(f.hash), f);
      FiledOnce(old(chains), old(flows), place, f);
      count := count + 1;
    }

    /** ovs_flow_tbl_insert. */
    method Insert(f: Flow, key: seq<int>, len: nat, h: Hashing)
      requires Valid() && f !in flows && h.start(key) <= len <= |key| == KEY_SIZE
      modifies this`count, this`chains, this`flows, heads, flows`nodes, f`nodes, f`hash, f`key
      ensures Valid() && flows == old(flows) + {f} && f.key == key
      ensures Hit(f, h.hash(key, h.start(key), len), key, h.start(key), len)
    {
      hide Apart, Filed, AllLinked, Linked;
      f.hash := h.hash(key, h.start(key), len);
      f.key := key;
      Add(f);
    }

    /** ovs_flow_tbl_remove. */
    method Remove(f: Flow)
      requires Valid() && f in flows
      modifies this`count, this`chains, this`flows, heads, flows`nodes
      ensures Valid() && flows == old(flows) - {f}
      ensures forall x | x in flows :: x.nodes.At(!ver) == old(x.nodes.At(!ver))
    {
      hide Apart, Filed, AllLinked, Linked;
      ghost var k := PlaceOf(chains, flows, place, f);
      AllDistinct(chains, flows, ver);
      LinkOut(place(f.hash), k, f);
      FiledLess(old(chains), old(flows), place, place(f.hash), k);
      count := count - 1;
    }

    /** Takes a flow off a chain. */
    method LinkOut(b: nat, ghost k: nat, f: Flow)
      requires Buckets() && Apart(chains, flows) && AllLinked(chains, flows, ver)
      requires b < |chains| && k < |chains[b]| && chains[b][k] == f
      modifies this`chains, this`flows, heads, flows`nodes
      ensures Buckets() && Apart(chains, flows) && AllLinked(chains, flows, ver)
      ensures flows == old(flows) - {f} && chains == old(chains)[b := RemoveAt(old(chains)[b], k)]
      ensures forall x | x in old(flows) :: x.nodes.At(!ver) == old(x.nodes.At(!ver))
    {
      hide Linked, Neighbours, RemoveAt;
      ghost var s := chains[b];
      LinkedDistinct(s, ver);
      var head := Delete(s, k, heads[b], ver, f);
      assert forall x | x in flows && x !in s :: x.nodes == old(x.nodes);
      heads[b] := head;
      forall c | 0 <= c < |chains| && c != b ensures Linked(chains[c], ver) {
        assert forall x | x in chains[c] :: x !in s;
      }
      ApartLess(chains, flows, b, k);
      chains := chains[b := RemoveAt(s, k)];
      flows := flows - {f};
    }

    /** ovs_flow_tbl_lookup: finds a flow that passes the test exactly if the table holds one. */
    method Lookup(key: seq<int>, len: nat, h: Hashing) returns (r: Flow?)
      requires Valid() && h.start(key) <= len <= |key| == KEY_SIZE
      ensures r != null ==> r in flows && Hit(r, h.hash(key, h.start(key), len), key, h.start(key), len)
      ensures r != null ==> |r.key| == KEY_SIZE && r.key[h.start(key)..len] == key[h.start(key)..len]
      ensures r == null ==> forall f | f in flows :: !Hit(f, h.hash(key, h.start(key), len), key, h.start(key), len)
    {
      var start := h.start(key);
      var hash := h.hash(key, start, len);
      var b := place(hash);
      ghost var s, i := chains[b], 0;
      r := heads[b];
      while r != null
        invariant 0 <= i <= |s| && r == if i < |s| then s[i] else null
        invariant forall j | 0 <= j < i :: !Hit(s[j], hash, key, start, len)
        decreases |s| - i
      {
        assert s[i] in chains[b];
        if r.hash == hash && r.key[start..len] == key[start..len] {
          return;
        }
        assert s[i].nodes.At(ver) == Neighbours(s, i);
        r := r.nodes.At(ver).next;
        i := i + 1;
      }
    }

    /** ovs_flow_tbl_next: the next flow from a cursor, and the cursor after it. */
    method Next(bucket: nat, last: nat) returns (f: Flow?, bucket': nat, last': nat)
      requires Valid()
      ensures f == First(Ahead(chains, bucket, last))
      ensures Ahead(chains, bucket', last') == if f == null then [] else Ahead(chains, bucket, last)[1..]
    {
      hide Apart, Filed;
      bucket', last' := bucket, last;
      while bucket' < heads.Length
        invariant Ahead(chains, bucket', last') == Ahead(chains, bucket, last)
      {
        ghost var s := chains[bucket'];
        var i := 0;
        f := heads[bucket'];
        while f != null && i < last'
          invariant 0 <= i <= last' && f == if i < |s| then s[i] else null
          invariant i <= |s|
          decreases |s| - i
        {
          assert s[i].nodes.At(ver) == Neighbours(s, i);
          f := f.nodes.At(ver).next;
          i := i + 1;
        }
        if f != null {
          last' := i + 1;
          return;
        }
        bucket' := bucket' + 1;
        last' := 0;
      }
      f := null;
    }

    /** What repeated calls of Next return from the start: every flow, once. */
    method Enumerate() returns (out: seq<Flow>)
      requires Valid()
      ensures SetOf(out) == flows && Distinct(out) && |out| == count
    {
      hide Apart, Filed, AllLinked, Linked, SetOf, Distinct, From, Ahead;
      var f, bucket, last := Next(0, 0);
      out := [];
      ghost var all := Ahead(chains, 0, 0);
      while f != null
        invariant out + (if f == null then [] else [f]) + Ahead(chains, bucket, last) == all
        invariant f == null ==> Ahead(chains, bucket, last) == []
        decreases |all| - |out|
      {
        out := out + [f];
        f, bucket, last := Next(bucket, last);
      }
      assert out == all;
      AllDistinct(chains, flows, ver);
      AheadAll(chains, flows, 0);
      EveryFlow(chains, flows, place);
      Counted(out);
    }

    /** Walks one chain of this table, adding its flows to `t`. */
    method CopyChain(t: FlowTable, b: nat, ghost links: map<Flow, Link>)
      requires Buckets() && Apart(chains, flows) && Filed(chains, flows, place)
      requires t.Valid() && t.ver != ver && t != this && t.heads != heads
      requires b < |chains| && Sees(flows, ver, links) && Fits(chains[b], links)
      requires t.flows <= flows && forall f | f in chains[b] :: f !in t.flows
      modifies t`count, t`chains, t`flows, t.heads, flows`nodes
      ensures t.Valid() && t.flows == old(t.flows) + SetOf(chains[b])
      ensures Sees(flows, ver, links)
    {
      hide Filed, AllLinked, Apart, Valid, SetOf;
      ghost var s, i := chains[b], 0;
      NoneYet(s);
      var node := heads[b];
      while node != null
        invariant 0 <= i <= |s| && node == if i < |s| then s[i] else null
        invariant t.Valid() && t.flows == old(t.flows) + SetOf(s[..i]) && t.flows <= flows
        invariant Sees(flows, ver, links)
        decreases |s| - i
      {
        Keyed(chains, flows, place, b, i);
        NotYet(s, i);
        t.Add(node);
        OneMore(s, i);
        assert links[s[i]] == Neighbours(s, i);
        node := node.nodes.At(ver).next;
        i := i + 1;
      }
      assert s[..i] == s;
    }

    /** The loop of flow_table_copy_flows. */
    method CopyChains(t: FlowTable, ghost links: map<Flow, Link>)
      requires Buckets() && Apart(chains, flows) && Filed(chains, flows, place)
      requires t.Valid() && t.flows == {} && t.ver != ver && t != this && t.heads != heads
      requires Sees(flows, ver, links) && forall b | 0 <= b < |chains| :: Fits(chains[b], links)
      modifies t`count, t`chains, t`flows, t.heads, flows`nodes
      ensures t.Valid() && t.flows == flows && Sees(flows, ver, links)
    {
      hide Filed, Fits, Valid, Apart, Sees, SetOf;
      assert Below(0) == {};
      for b := 0 to heads.Length
        invariant t.Valid() && t.flows == Below(b) && Sees(flows, ver, links)
      {
        BelowNext(b);
        CopyChain(t, b, links);
      }
      assert Below(heads.Length) == flows;
    }

    /** flow_table_copy_flows: readers of this table see the same chains throughout. */
    method CopyFlows(t: FlowTable)
      requires Valid() && t.Valid() && t.flows == {} && t.ver != ver && t != this && t.heads != heads
      modifies this`keepFlows, t`count, t`chains, t`flows, t.heads, flows`nodes
      ensures Valid() && keepFlows && t.Valid() && t.flows == flows
      ensures forall f | f in flows :: f.nodes.At(ver) == old(f.nodes.At(ver))
    {
      hide Filed, Fits, AllLinked, Linked, Apart;
      ghost var links := Seen(flows, ver);
      SeenChains(chains, flows, ver, links);
      CopyChains(t, links);
      SeenChains(chains, flows, ver, links);
      keepFlows := true;
    }

    /** __flow_tbl_rehash, with the new table's size and placing of hashes. */
    method Rebuild(n: nat, newPlace: nat -> nat) returns (t: FlowTable)
      requires Valid() && n > 0 && forall h :: newPlace(h) < n
      modifies this`keepFlows, flows`nodes
      ensures Valid() && keepFlows && fresh(t) && t.Valid() && t.heads.Length == n && t.ver != ver
      ensures t.flows == flows && t.count == count
      ensures forall f | f in flows :: f.nodes.At(ver) == old(f.nodes.At(ver))
    {
      hide Apart, Filed, AllLinked, Linked;
      t := new FlowTable(n, newPlace, !ver);
      CopyFlows(t);
    }

    /** ovs_flow_tbl_rehash. */
    method Rehash(newPlace: nat -> nat) returns (t: FlowTable)
      requires Valid() && forall h :: newPlace(h) < heads.Length
      modifies this`keepFlows, flows`nodes
      ensures Valid() && fresh(t) && t.Valid() && t.heads.Length == heads.Length
      ensures t.flows == flows && t.count == count
      ensures forall f | f in flows :: f.nodes.At(ver) == old(f.nodes.At(ver))
    {
      hide Apart, Filed, AllLinked, Linked;
      t := Rebuild(heads.Length, newPlace);
    }

    /** ovs_flow_tbl_expand. */
    method Expand(newPlace: nat -> nat) returns (t: FlowTable)
      requires Valid() && forall h :: newPlace(h) < heads.Length * 2
      modifies this`keepFlows, flows`nodes
      ensures Valid() && fresh(t) && t.Valid() && t.heads.Length == heads.Length * 2
      ensures t.flows == flows && t.count == count
      ensures forall f | f in flows :: f.nodes.At(ver) == old(f.nodes.At(ver))
    {
      hide Apart, Filed, AllLinked, Linked;
      t := Rebuild(heads.Length * 2, newPlace);
    }

    lemma BelowNext(b: nat)
      requires Buckets() && Apart(chains, flows) && Filed(chains, flows, place) && b < |chains|
      ensures Below(b) + SetOf(chains[b]) == Below(b + 1) && forall f | f in chains[b] :: f !in Below(b)
    {}

    ghost function Below(b: nat): set<Flow>
      reads this, flows`hash
    {
      set f | f in flows && place(f.hash) < b
    }
  }

  ghost function Seen(fs: set<Flow>, ver: bool): map<Flow, Link>
    reads fs
  {
    map f | f in fs :: f.nodes.At(ver)
  }

  ghost function SetOf(s: seq<Flow>): set<Flow> {
    set f | f in s
  }

  lemma OneMore(s: seq<Flow>, i: nat)
    requires i < |s|
    ensures SetOf(s[..i + 1]) == SetOf(s[..i]) + {s[i]}
  {
    assert s[..i + 1] == s[..i] + [s[i]];
  }

  lemma NoneYet(s: seq<Flow>)
    ensures SetOf(s[..0]) == {}
  {}

  lemma NotYet(s: seq<Flow>, i: nat)
    requires i < |s| && Distinct(s)
    ensures s[i] !in SetOf(s[..i])
  {}

  lemma Keyed(chains: seq<seq<Flow>>, fs: set<Flow>, place: nat -> nat, b: nat, i: nat)
    requires Apart(chains, fs) && (forall h :: place(h) < |chains|) && Filed(chains, fs, place)
    requires b < |chains| && i < |chains[b]|
    ensures chains[b][i] in fs && |chains[b][i].key| == KEY_SIZE
  {
    assert chains[b][i] in chains[b];
  }

  lemma PlaceOf(chains: seq<seq<Flow>>, fs: set<Flow>, place: nat -> nat, f: Flow) returns (k: nat)
    requires Apart(chains, fs) && (forall h :: place(h) < |chains|) && Filed(chains, fs, place) && f in fs
    ensures k < |chains[place(f.hash)]| && chains[place(f.hash)][k] == f
  {
    k :| k < |chains[place(f.hash)]| && chains[place(f.hash)][k] == f;
  }

  lemma WithoutOne(s: seq<Flow>, k: nat)
    requires k < |s| && Distinct(s)
    ensures forall f :: f in RemoveAt(s, k) <==> f in s && f != s[k]
  {
    var t := RemoveAt(s, k);
    forall f | f in s && f != s[k] ensures f in t {
      var i :| 0 <= i < |s| && s[i] == f;
      assert t[if i < k then i else i - 1] == f;
    }
  }

  lemma LinkedDistinct(s: seq<Flow>, ver: bool)
    requires Linked(s, ver)
    ensures Distinct(s)
  {}

  lemma AllDistinct(chains: seq<seq<Flow>>, fs: set<Flow>, ver: bool)
    requires Apart(chains, fs) && AllLinked(chains, fs, ver)
    ensures forall b | 0 <= b < |chains| :: Distinct(chains[b])
  {}

  lemma ApartLess(chains: seq<seq<Flow>>, fs: set<Flow>, b: nat, k: nat)
    requires Apart(chains, fs) && b < |chains| && k < |chains[b]| && Distinct(chains[b])
    ensures Apart(chains[b := RemoveAt(chains[b], k)], fs - {chains[b][k]})
  {
    hide RemoveAt;
    WithoutOne(chains[b], k);
    assert chains[b][k] in chains[b];
  }

  lemma FiledLess(chains: seq<seq<Flow>>, fs: set<Flow>, place: nat -> nat, b: nat, k: nat)
    requires Apart(chains, fs) && (forall h :: place(h) < |chains|) && Filed(chains, fs, place)
    requires b < |chains| && k < |chains[b]| && Distinct(chains[b])
    requires Apart(chains[b := RemoveAt(chains[b], k)], fs - {chains[b][k]})
    ensures Filed(chains[b := RemoveAt(chains[b], k)], fs - {chains[b][k]}, place)
  {
    hide RemoveAt;
    WithoutOne(chains[b], k);
  }

  /** The flows from a cursor on: bucket by bucket, in chain order. */
  ghost function Ahead(chains: seq<seq<Flow>>, bucket: nat, last: nat): seq<Flow>
    decreases |chains| - bucket
  {
    if bucket >= |chains| then []
    else (if last < |chains[bucket]| then chains[bucket][last..] else []) + Ahead(chains, bucket + 1, 0)
  }

  ghost function From(chains: seq<seq<Flow>>, b: nat, fs: set<Flow>): set<Flow> {
    set f | f in fs && exists c :: b <= c < |chains| && f in chains[c]
  }

  lemma {:induction false} AheadAll(chains: seq<seq<Flow>>, fs: set<Flow>, b: nat)
    requires Apart(chains, fs) && b <= |chains| && forall c | 0 <= c < |chains| :: Distinct(chains[c])
    ensures SetOf(Ahead(chains, b, 0)) == From(chains, b, fs) && Distinct(Ahead(chains, b, 0))
    decreases |chains| - b
  {
    if b < |chains| {
      AheadAll(chains, fs, b + 1);
      var s, t := chains[b], Ahead(chains, b + 1, 0);
      assert Ahead(chains, b, 0) == s + t;
      hide Ahead, From, Apart;
      Split(chains, fs, b);
      Joined(s, t);
    }
  }

  lemma Joined(s: seq<Flow>, t: seq<Flow>)
    requires Distinct(s) && Distinct(t) && forall f | f in SetOf(t) :: f !in s
    ensures Distinct(s + t) && SetOf(s + t) == SetOf(s) + SetOf(t)
  {
    forall i, j | 0 <= i < |s| && 0 <= j < |t| ensures s[i] != t[j] {
      assert t[j] in SetOf(t);
    }
  }

  lemma Split(chains: seq<seq<Flow>>, fs: set<Flow>, b: nat)
    requires Apart(chains, fs) && b < |chains|
    ensures From(chains, b, fs) == SetOf(chains[b]) + From(chains, b + 1, fs)
    ensures forall f | f in From(chains, b + 1, fs) :: f !in chains[b]
  {}

  lemma EveryFlow(chains: seq<seq<Flow>>, fs: set<Flow>, place: nat -> nat)
    requires Apart(chains, fs) && (forall h :: place(h) < |chains|) && Filed(chains, fs, place)
    ensures From(chains, 0, fs) == fs
  {}

  lemma {:induction false} Counted(s: seq<Flow>)
    requires Distinct(s)
    ensures |s| == |SetOf(s)|
  {
    if s == [] {
      NoneYet(s);
      assert s[..0] == s;
    } else {
      hide SetOf;
      var k := |s| - 1;
      Counted(s[..k]);
      OneMore(s, k);
      NotYet(s, k);
      assert s[..|s|] == s;
    }
  }
}
