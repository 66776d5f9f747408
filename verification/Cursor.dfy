/** Iteration over a classifier (cls_cursor_init, cls_cursor_first, cls_cursor_next).
 *
 * A position names a rule as the code's pointers do: the table (by its index in
 * the hash map's order), the chain and the rule in the chain.
 */
module Cursor {
  import opened Options
  import opened Seqs
  import opened FlowMatch
  import opened Chains
  import opened ClsTable
  import opened PriorityList
  import opened Classifier

  datatype Position = Position(table: nat, chain: nat, rule: nat)

  /** The rules of the tables, in iteration order. */
  type Layout = seq<Table>

  predicate Within(l: Layout, p: Position) {
    && p.table < |l|
    && p.chain < |l[p.table].chains|
    && p.rule < |l[p.table].chains[p.chain].rules|
  }

  function RuleAt(l: Layout, p: Position): Rule
    requires Within(l, p)
  {
    l[p.table].chains[p.chain].rules[p.rule]
  }

  predicate Before(p: Position, q: Position) {
    p.table < q.table || (p.table == q.table && (p.chain < q.chain || (p.chain == q.chain && p.rule < q.rule)))
  }

  /** Should a cursor for `target` visit the rule at `p`? */
  predicate Wanted(l: Layout, target: Rule, p: Position) {
    Within(l, p) && IsLooseMatch(RuleAt(l, p), target)
  }

  ghost predicate LayoutOk(l: Layout, hash: Bits -> nat) {
    && (forall i | 0 <= i < |l| :: ChainsOk(l[i].chains, l[i].mask, hash))
    && (forall i, j | 0 <= i < j < |l| :: l[i].mask != l[j].mask)
  }

  /** The two tests of the code, of a table's mask and of a chain's head, decide for a whole chain. */
  lemma WantedByHead(l: Layout, hash: Bits -> nat, target: Rule, p: Position)
    requires LayoutOk(l, hash) && Within(l, p)
    ensures var t := l[p.table];
            Wanted(l, target, p) <==>
              !HasExtra(t.mask, target.mask) && EqualInMask(t.chains[p.chain].rules[0].flow, target.flow, target.mask)
  {
    assert ChainsOk(l[p.table].chains, l[p.table].mask, hash);
    assert ChainOk(l[p.table].chains[p.chain], l[p.table].mask, hash);
  }

  /** The first chain of table `t` from `from` on whose head matches, or -1. */
  method SearchChains(t: Table, target: Rule, from: nat, ghost hash: Bits -> nat) returns (c: int)
    requires ChainsOk(t.chains, t.mask, hash) && from <= |t.chains|
    ensures c == -1 || from <= c < |t.chains|
    ensures forall k | from <= k < (if c == -1 then |t.chains| else c) ::
              !EqualInMask(t.chains[k].rules[0].flow, target.flow, target.mask)
    ensures c != -1 ==> EqualInMask(t.chains[c].rules[0].flow, target.flow, target.mask)
  {
    c := from;
    while c < |t.chains|
      invariant from <= c <= |t.chains|
      invariant forall k | from <= k < c :: !EqualInMask(t.chains[k].rules[0].flow, target.flow, target.mask)
    {
      assert ChainOk(t.chains[c], t.mask, hash);
      if EqualInMask(t.chains[c].rules[0].flow, target.flow, target.mask) {
        return;
      }
      c := c + 1;
    }
    c := -1;
  }

  /** The first wanted position in the tables from `from` on. */
  method SearchTables(l: Layout, target: Rule, from: nat, ghost hash: Bits -> nat) returns (q: Option<Position>)
    requires LayoutOk(l, hash) && from <= |l|
    ensures q.None? ==> forall p | Wanted(l, target, p) :: p.table < from
    ensures q.Some? ==> Wanted(l, target, q.value) && from <= q.value.table
    ensures q.Some? ==> forall p | Wanted(l, target, p) && from <= p.table :: p == q.value || Before(q.value, p)
  {
    var i := from;
    while i < |l|
      invariant from <= i <= |l|
      invariant forall p | Wanted(l, target, p) && from <= p.table :: i <= p.table
    {
      assert ChainsOk(l[i].chains, l[i].mask, hash);
      var c := -1;
      if !HasExtra(l[i].mask, target.mask) {
        c := SearchChains(l[i], target, 0, hash);
      }
      forall p | Wanted(l, target, p) && p.table == i ensures c != -1 && c <= p.chain {
        WantedByHead(l, hash, target, p);
      }
      if c != -1 {
        assert ChainOk(l[i].chains[c], l[i].mask, hash);
        WantedByHead(l, hash, target, Position(i, c, 0));
        return Some(Position(i, c, 0));
      }
      i := i + 1;
    }
    return None;
  }

  /** cls_cursor_next: the next wanted position after `p`. */
  method Next(l: Layout, target: Rule, p: Position, ghost hash: Bits -> nat) returns (q: Option<Position>)
    requires LayoutOk(l, hash) && Wanted(l, target, p)
    ensures q.None? ==> forall x | Wanted(l, target, x) :: !Before(p, x)
    ensures q.Some? ==> Wanted(l, target, q.value) && Before(p, q.value)
    ensures q.Some? ==> forall x | Wanted(l, target, x) && Before(p, x) :: x == q.value || Before(q.value, x)
  {
    var t := l[p.table];
    assert ChainsOk(t.chains, t.mask, hash);
    WantedByHead(l, hash, target, p);
    if p.rule + 1 < |t.chains[p.chain].rules| {
      WantedByHead(l, hash, target, p.(rule := p.rule + 1));
      return Some(p.(rule := p.rule + 1));
    }
    var c := SearchChains(t, target, p.chain + 1, hash);
    forall x | Wanted(l, target, x) && Before(p, x) && x.table == p.table ensures c != -1 && c <= x.chain {
      WantedByHead(l, hash, target, x);
    }
    if c != -1 {
      assert ChainOk(t.chains[c], t.mask, hash);
      WantedByHead(l, hash, target, Position(p.table, c, 0));
      return Some(Position(p.table, c, 0));
    }
    q := SearchTables(l, target, p.table + 1, hash);
  }

  /** Distinct positions hold distinct rules. */
  lemma PositionsDistinct(l: Layout, hash: Bits -> nat, p: Position, q: Position)
    requires LayoutOk(l, hash) && Within(l, p) && Within(l, q) && Before(p, q)
    ensures RuleAt(l, p) != RuleAt(l, q)
  {
    assert ChainsOk(l[p.table].chains, l[p.table].mask, hash) && ChainsOk(l[q.table].chains, l[q.table].mask, hash);
    assert ChainOk(l[p.table].chains[p.chain], l[p.table].mask, hash);
    assert ChainOk(l[q.table].chains[q.chain], l[q.table].mask, hash);
  }

  /** A whole iteration visits each wanted rule once and then stops. */
  method VisitAll(l: Layout, target: Rule, ghost hash: Bits -> nat) returns (visited: seq<Rule>)
    requires LayoutOk(l, hash)
    ensures forall i, j | 0 <= i < j < |visited| :: visited[i] != visited[j]
    ensures forall r :: r in visited <==> exists p :: Wanted(l, target, p) && RuleAt(l, p) == r
  {
    hide LayoutOk, Wanted, Before;
    visited := [];
    ghost var places: seq<Position> := [];
    var p := SearchTables(l, target, 0, hash);
    while p.Some?
      invariant |places| == |visited|
      invariant forall i | 0 <= i < |places| :: Within(l, places[i]) && visited[i] == RuleAt(l, places[i])
      invariant Swept(l, target, places, p) && (p.Some? ==> Within(l, p.value))
      decreases p.Some?, if p.Some? then |l| - p.value.table else 0,
                if p.Some? then |l[p.value.table].chains| - p.value.chain else 0,
                if p.Some? then |l[p.value.table].chains[p.value.chain].rules| - p.value.rule else 0
    {
      ghost var was := p;
      Sweeping(l, target, places, p);
      visited := visited + [RuleAt(l, p.value)];
      p := Next(l, target, p.value, hash);
      SweptFurther(l, target, places, was.value, p);
      places := places + [was.value];
      Advanced(l, was.value, p);
    }
    SweptAll(l, target, places);
    VisitedOnce(l, target, hash, places, visited);
  }

  /** The wanted positions before `p` have been visited in order. */
  ghost predicate Swept(l: Layout, target: Rule, places: seq<Position>, p: Option<Position>) {
    && (forall i | 0 <= i < |places| :: Wanted(l, target, places[i]))
    && (forall i, j | 0 <= i < j < |places| :: Before(places[i], places[j]))
    && (p.Some? ==> Wanted(l, target, p.value) && forall i | 0 <= i < |places| :: Before(places[i], p.value))
    && (forall x | Wanted(l, target, x) :: x in places || (p.Some? && (x == p.value || Before(p.value, x))))
  }

  lemma Sweeping(l: Layout, target: Rule, places: seq<Position>, p: Option<Position>)
    requires Swept(l, target, places, p) && p.Some?
    ensures Wanted(l, target, p.value) && Within(l, p.value)
  {}

  lemma SweptFurther(l: Layout, target: Rule, places: seq<Position>, p: Position, q: Option<Position>)
    requires Swept(l, target, places, Some(p))
    requires q.None? ==> forall x | Wanted(l, target, x) :: !Before(p, x)
    requires q.Some? ==> Wanted(l, target, q.value) && Before(p, q.value)
    requires q.Some? ==> forall x | Wanted(l, target, x) && Before(p, x) :: x == q.value || Before(q.value, x)
    ensures Swept(l, target, places + [p], q)
  {
    hide Wanted;
    assert (places + [p])[|places|] == p;
  }

  lemma Advanced(l: Layout, p: Position, q: Option<Position>)
    requires Within(l, p) && (q.Some? ==> Within(l, q.value) && Before(p, q.value))
    ensures q.Some? ==>
              || p.table < q.value.table
              || (&& p.table == q.value.table
                  && (p.chain < q.value.chain || (p.chain == q.value.chain && p.rule < q.value.rule)))
  {}

  lemma SweptAll(l: Layout, target: Rule, places: seq<Position>)
    requires Swept(l, target, places, None)
    ensures forall i | 0 <= i < |places| :: Wanted(l, target, places[i])
    ensures forall i, j | 0 <= i < j < |places| :: Before(places[i], places[j])
    ensures forall x | Wanted(l, target, x) :: x in places
  {}

  lemma VisitedOnce(l: Layout, target: Rule, hash: Bits -> nat, places: seq<Position>, visited: seq<Rule>)
    requires LayoutOk(l, hash) && |places| == |visited|
    requires forall i | 0 <= i < |places| :: Wanted(l, target, places[i]) && visited[i] == RuleAt(l, places[i])
    requires forall i, j | 0 <= i < j < |places| :: Before(places[i], places[j])
    requires forall x | Wanted(l, target, x) :: x in places
    ensures forall i, j | 0 <= i < j < |visited| :: visited[i] != visited[j]
    ensures forall r :: r in visited <==> exists p :: Wanted(l, target, p) && RuleAt(l, p) == r
  {
    forall i, j | 0 <= i < j < |visited| ensures visited[i] != visited[j] {
      PositionsDistinct(l, hash, places[i], places[j]);
    }
    hide LayoutOk, Before;
    forall x | Wanted(l, target, x) ensures RuleAt(l, x) in visited {
      var i :| 0 <= i < |places| && places[i] == x;
      assert visited[i] == RuleAt(l, x);
    }
  }

  /** The criterion of a null target: it looks at no bit. */
  const CATCHALL := Rule(0, Bits({}), Bits({}), 0)

  lemma CatchallMatchesAll(r: Rule, target: Rule)
    requires target.mask == Bits({})
    ensures IsLooseMatch(r, target)
  {
    assert r.mask.ones * {} == {};
    assert r.flow.ones * {} == {} && target.flow.ones * {} == {};
  }

  /** cls_cursor_init: a target that looks at no bit is taken for a null one. */
  function Goal(target: Option<Rule>): Rule {
    if target.Some? && target.value.mask != Bits({}) then target.value else CATCHALL
  }

  /** Every rule matches a null target. */
  predicate MatchesTarget(r: Rule, target: Option<Rule>) {
    target.None? || IsLooseMatch(r, target.value)
  }

  lemma GoalMatches(target: Option<Rule>, r: Rule)
    ensures IsLooseMatch(r, Goal(target)) <==> MatchesTarget(r, target)
  {
    hide IsLooseMatch;
    if Goal(target) == CATCHALL {
      CatchallMatchesAll(r, CATCHALL);
      if target.Some? {
        CatchallMatchesAll(r, target.value);
      }
    }
  }

  /** A cursor visits the rules that loosely match its target, each once; without a target, all rules. */
  method Visit(c: Classifier, target: Option<Rule>) returns (visited: seq<Rule>)
    requires c.Valid()
    ensures forall i, j | 0 <= i < j < |visited| :: visited[i] != visited[j]
    ensures forall r :: r in visited <==> r in c.held && MatchesTarget(r, target)
  {
    var goal := Goal(target);
    var l := seq(|c.order|, i requires 0 <= i < |c.order| reads c requires c.Valid() => c.tables[c.order[i]]);
    LayoutOfClassifier(c.held, c.tables, c.hash, c.order, l);
    visited := VisitAll(l, goal, c.hash);
    forall r ensures IsLooseMatch(r, goal) <==> MatchesTarget(r, target) {
      GoalMatches(target, r);
    }
    forall r | r in c.held && IsLooseMatch(r, goal) ensures r in visited {
      var p :| Within(l, p) && RuleAt(l, p) == r;
      assert Wanted(l, goal, p);
    }
  }

  ghost predicate LaysOut(l: Layout, tables: Tables, order: seq<Bits>) {
    |l| == |order| && forall i | 0 <= i < |l| :: order[i] in tables && l[i] == tables[order[i]]
  }

  lemma LayoutOfClassifier(held: set<Rule>, tables: Tables, hash: Bits -> nat, order: seq<Bits>, l: Layout)
    requires Partitioned(held, tables, hash) && Lists(order, tables.Keys) && LaysOut(l, tables, order)
    ensures LayoutOk(l, hash)
    ensures forall p | Within(l, p) :: RuleAt(l, p) in held
    ensures forall r | r in held :: exists p :: Within(l, p) && RuleAt(l, p) == r
  {
    hide ChainsOk, RuleSet, OfMask, MaxOk;
    forall p | Within(l, p) ensures RuleAt(l, p) in held {
      PositionHeld(held, tables, hash, order, l, p);
    }
    forall r | r in held ensures exists p :: Within(l, p) && RuleAt(l, p) == r {
      var p := PositionOf(held, tables, hash, order, l, r);
    }
  }

  lemma PositionHeld(held: set<Rule>, tables: Tables, hash: Bits -> nat, order: seq<Bits>, l: Layout, p: Position)
    requires Partitioned(held, tables, hash) && LaysOut(l, tables, order) && Within(l, p)
    ensures RuleAt(l, p) in held
  {
    TableOfMask(held, tables, hash, order[p.table]);
    assert RuleAt(l, p) in l[p.table].chains[p.chain].rules;
    assert RuleAt(l, p) in l[p.table].Held();
  }

  lemma PositionOf(held: set<Rule>, tables: Tables, hash: Bits -> nat, order: seq<Bits>, l: Layout, r: Rule)
      returns (p: Position)
    requires Partitioned(held, tables, hash) && Lists(order, tables.Keys) && LaysOut(l, tables, order) && r in held
    ensures Within(l, p) && RuleAt(l, p) == r
  {
    TableOfRule(held, tables, hash, r);
    hide *;
    var i := IndexOf(order, tables.Keys, r.mask);
    InLayout(l, tables, order, i);
    var k, j := InChains(l[i].chains, r);
    p := Position(i, k, j);
    AtPosition(l, p);
  }

  lemma InLayout(l: Layout, tables: Tables, order: seq<Bits>, i: nat)
    requires LaysOut(l, tables, order) && i < |order|
    ensures i < |l| && order[i] in tables && l[i] == tables[order[i]] && l[i].Held() == RuleSet(l[i].chains)
  {}

  lemma AtPosition(l: Layout, p: Position)
    requires p.table < |l| && p.chain < |l[p.table].chains| && p.rule < |l[p.table].chains[p.chain].rules|
    ensures Within(l, p) && RuleAt(l, p) == l[p.table].chains[p.chain].rules[p.rule]
  {}

  lemma IndexOf(order: seq<Bits>, keys: set<Bits>, m: Bits) returns (i: nat)
    requires Lists(order, keys) && m in keys
    ensures i < |order| && order[i] == m
  {
    i :| 0 <= i < |order| && order[i] == m;
  }

  lemma InChains(chains: seq<Chain>, r: Rule) returns (k: nat, j: nat)
    requires r in RuleSet(chains)
    ensures k < |chains| && j < |chains[k].rules| && chains[k].rules[j] == r
  {
    k :| 0 <= k < |chains| && r in chains[k].rules;
    j :| 0 <= j < |chains[k].rules| && chains[k].rules[j] == r;
  }

  // ---------------------------------------------------------------------
  // The order of iteration

  /** The rules of the tables in order. */
  ghost function FlatAll(l: Layout): seq<Rule> {
    if l == [] then [] else Flat(l[0].chains) + FlatAll(l[1..])
  }

  lemma {:induction false} FlatAllConcat(a: Layout, b: Layout)
    ensures FlatAll(a + b) == FlatAll(a) + FlatAll(b)
  {
    if a == [] {
      assert a + b == b;
    } else {
      assert (a + b)[1..] == a[1..] + b;
      FlatAllConcat(a[1..], b);
    }
  }

  lemma {:induction false} FlatLayout(l: Layout, tables: Tables, order: seq<Bits>)
    requires LaysOut(l, tables, order)
    ensures (forall m | m in order :: m in tables) && FlatAll(l) == InOrder(tables, order)
  {
    if order != [] {
      FlatLayout(l[1..], tables, order[1..]);
      assert forall m | m in order :: m == order[0] || m in order[1..];
    }
  }

  lemma {:induction false} FlatAllMembers(l: Layout)
    ensures forall r :: r in FlatAll(l) <==> exists i :: 0 <= i < |l| && r in Flat(l[i].chains)
  {
    if l != [] {
      var rest := l[1..];
      FlatAllMembers(rest);
      forall r ensures r in FlatAll(l) <==> exists i :: 0 <= i < |l| && r in Flat(l[i].chains) {
        if i :| 0 <= i < |l| && r in Flat(l[i].chains) {
          assert i > 0 ==> r in Flat(rest[i - 1].chains);
        }
        if r in FlatAll(rest) {
          var i :| 0 <= i < |rest| && r in Flat(rest[i].chains);
          assert r in Flat(l[i + 1].chains);
        }
      }
    }
  }

  /** The rules before position `p`. */
  ghost function Prior(l: Layout, p: Position): seq<Rule>
    requires Within(l, p)
  {
    var t := l[p.table];
    FlatAll(l[..p.table]) + Flat(t.chains[..p.chain]) + t.chains[p.chain].rules[..p.rule]
  }

  /** The rules after position `p`. */
  ghost function Rest(l: Layout, p: Position): seq<Rule>
    requires Within(l, p)
  {
    var t := l[p.table];
    t.chains[p.chain].rules[p.rule + 1..] + Flat(t.chains[p.chain + 1..]) + FlatAll(l[p.table + 1..])
  }

  lemma SplitAt(l: Layout, p: Position)
    requires Within(l, p)
    ensures FlatAll(l) == Prior(l, p) + [RuleAt(l, p)] + Rest(l, p)
  {
    var t := l[p.table];
    var c := t.chains[p.chain];
    var a, b := l[..p.table], l[p.table + 1..];
    var d, e := t.chains[..p.chain], t.chains[p.chain + 1..];
    var f, g := c.rules[..p.rule], c.rules[p.rule + 1..];
    assert l == a + ([t] + b) && t.chains == d + [c] + e && c.rules == f + [RuleAt(l, p)] + g;
    assert ([t] + b)[1..] == b;
    FlatAllConcat(a, [t] + b);
    FlatMiddle(d, c, e);
    Regroup(FlatAll(a), Flat(d), f, RuleAt(l, p), g, Flat(e), FlatAll(b));
  }

  lemma Regroup(a: seq<Rule>, d: seq<Rule>, f: seq<Rule>, r: Rule, g: seq<Rule>, e: seq<Rule>, b: seq<Rule>)
    ensures a + (d + (f + [r] + g) + e + b) == a + d + f + [r] + (g + e + b)
  {}

  /** A rule after position `p` is at a later position. */
  lemma RestAt(l: Layout, p: Position, r: Rule) returns (x: Position)
    requires Within(l, p) && r in Rest(l, p)
    ensures Within(l, x) && Before(p, x) && RuleAt(l, x) == r
  {
    var t := l[p.table];
    var c := t.chains[p.chain];
    if r in c.rules[p.rule + 1..] {
      var k :| 0 <= k < |c.rules[p.rule + 1..]| && c.rules[p.rule + 1..][k] == r;
      x := Position(p.table, p.chain, p.rule + 1 + k);
    } else if r in Flat(t.chains[p.chain + 1..]) {
      var k, j := FlatAt(t.chains[p.chain + 1..], r);
      x := Position(p.table, p.chain + 1 + k, j);
    } else {
      var b := l[p.table + 1..];
      FlatAllMembers(b);
      var i :| 0 <= i < |b| && r in Flat(b[i].chains);
      assert b[i] == l[p.table + 1 + i];
      var k, j := FlatAt(b[i].chains, r);
      x := Position(p.table + 1 + i, k, j);
    }
  }

  lemma FlatAt(chains: seq<Chain>, r: Rule) returns (k: nat, j: nat)
    requires r in Flat(chains)
    ensures k < |chains| && j < |chains[k].rules| && chains[k].rules[j] == r
  {
    FlatMembers(chains);
    k :| 0 <= k < |chains| && r in chains[k].rules;
    j :| 0 <= j < |chains[k].rules| && chains[k].rules[j] == r;
  }

  /** A rule before position `p` is at an earlier position. */
  lemma PriorAt(l: Layout, p: Position, r: Rule) returns (x: Position)
    requires Within(l, p) && r in Prior(l, p)
    ensures Within(l, x) && Before(x, p) && RuleAt(l, x) == r
  {
    var t := l[p.table];
    var c := t.chains[p.chain];
    if r in c.rules[..p.rule] {
      var j :| 0 <= j < p.rule && c.rules[j] == r;
      x := Position(p.table, p.chain, j);
    } else if r in Flat(t.chains[..p.chain]) {
      var k, j := FlatAt(t.chains[..p.chain], r);
      x := Position(p.table, k, j);
    } else {
      FlatAllMembers(l[..p.table]);
      var i :| 0 <= i < p.table && r in Flat(l[..p.table][i].chains);
      var k, j := FlatAt(l[i].chains, r);
      x := Position(i, k, j);
    }
  }

  /** The rules after position `p` are those at later positions. */
  lemma LaterInRest(l: Layout, hash: Bits -> nat, p: Position, x: Position)
    requires LayoutOk(l, hash) && Within(l, p) && Within(l, x) && Before(p, x)
    ensures RuleAt(l, x) in Rest(l, p)
  {
    var r := RuleAt(l, x);
    SplitAt(l, x);
    SplitAt(l, p);
    PositionsDistinct(l, hash, p, x);
    if r in Prior(l, p) {
      var y := PriorAt(l, p, r);
      PositionsDistinct(l, hash, y, x);
      assert false;
    }
    hide *;
    assert r in Prior(l, x) + [r] + Rest(l, x);
    assert r in Prior(l, p) + [RuleAt(l, p)] + Rest(l, p);
  }

  lemma FlatAllDistinct(l: Layout, hash: Bits -> nat, p: Position)
    requires LayoutOk(l, hash) && Within(l, p)
    ensures RuleAt(l, p) !in Prior(l, p)
  {
    if RuleAt(l, p) in Prior(l, p) {
      var y := PriorAt(l, p, RuleAt(l, p));
      PositionsDistinct(l, hash, y, p);
      assert false;
    }
  }

  /** What follows a rule in the order is what is after its position. */
  lemma RestFollows(l: Layout, hash: Bits -> nat, p: Position)
    requires LayoutOk(l, hash) && Within(l, p)
    ensures Following(FlatAll(l), RuleAt(l, p)) == Rest(l, p)
  {
    hide *;
    SplitAt(l, p);
    FlatAllDistinct(l, hash, p);
    FollowingMiddle(Prior(l, p), RuleAt(l, p), Rest(l, p));
  }
}
