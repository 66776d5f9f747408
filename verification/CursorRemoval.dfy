/** Iteration that removes rules on its way (CLS_CURSOR_FOR_EACH_SAFE).
 *
 * The cursor takes the next rule before the current one is removed.  A rule stands
 * for a pointer to it, so its position is looked up in the tables as they are.
 */
module CursorRemoval {
  import opened Options
  import opened Seqs
  import opened FlowMatch
  import opened Chains
  import opened ClsTable
  import opened PriorityList
  import opened Classifier
  import opened Cursor

  /** The rules of a classifier in the order in which a cursor visits them. */
  ghost function RulesOf(c: Classifier): seq<Rule>
    requires c.Valid()
    reads c
  {
    InOrder(c.tables, c.order)
  }

  lemma RulesAreHeld(c: Classifier)
    requires c.Valid()
    ensures Distinct(RulesOf(c)) && forall r :: r in RulesOf(c) <==> r in c.held
  {
    ListedTables(c.order, c.tables);
    ListedDistinct(c.order, c.tables.Keys);
    InOrderMembers(c.held, c.tables, c.hash, c.order);
    assert forall r | r in c.held :: r.mask in c.order;
  }

  /** The tables of a classifier in order, and what is known of them. */
  method LayoutOf(c: Classifier) returns (l: Layout)
    requires c.Valid()
    ensures LaysOut(l, c.tables, c.order) && LayoutOk(l, c.hash) && FlatAll(l) == RulesOf(c)
    ensures forall p | Within(l, p) :: RuleAt(l, p) in c.held
  {
    l := seq(|c.order|, i requires 0 <= i < |c.order| reads c requires c.Valid() => c.tables[c.order[i]]);
    LayoutOfClassifier(c.held, c.tables, c.hash, c.order, l);
    FlatLayout(l, c.tables, c.order);
  }

  /** `n` is the first wanted rule of `rest`, a part of the order `all`. */
  ghost predicate IsFirst(n: Option<Rule>, rest: seq<Rule>, all: seq<Rule>, target: Rule) {
    match n
    case None => forall x | x in rest :: !IsLooseMatch(x, target)
    case Some(y) =>
      && y in rest && IsLooseMatch(y, target)
      && (forall x | x in rest && IsLooseMatch(x, target) :: x == y || x in Following(all, y))
  }

  /** cls_cursor_first, on rules. */
  method FirstRule(c: Classifier, target: Rule) returns (n: Option<Rule>)
    requires c.Valid()
    ensures IsFirst(n, RulesOf(c), RulesOf(c), target)
  {
    hide LayoutOk, LaysOut, FlatAll, IsFirst, RulesOf;
    var l := LayoutOf(c);
    n := FirstIn(l, target, c.hash);
  }

  method FirstIn(l: Layout, target: Rule, ghost hash: Bits -> nat) returns (n: Option<Rule>)
    requires LayoutOk(l, hash)
    ensures IsFirst(n, FlatAll(l), FlatAll(l), target)
  {
    hide LayoutOk, FlatAll, Following, Rest;
    var q := SearchTables(l, target, 0, hash);
    if q.Some? {
      AtInFlat(l, q.value);
      RestFollows(l, hash, q.value);
    }
    forall x | x in FlatAll(l) && IsLooseMatch(x, target)
      ensures q.Some? && (x == RuleAt(l, q.value) || x in Rest(l, q.value))
    {
      var p := Place(l, x);
      assert Wanted(l, target, p);
      if p != q.value {
        LaterInRest(l, hash, q.value, p);
      }
    }
    n := if q.Some? then Some(RuleAt(l, q.value)) else None;
  }

  /** cls_cursor_next, on rules. */
  method NextRule(c: Classifier, target: Rule, r: Rule) returns (n: Option<Rule>)
    requires c.Valid() && r in c.held && IsLooseMatch(r, target)
    ensures IsFirst(n, Following(RulesOf(c), r), RulesOf(c), target)
  {
    RulesAreHeld(c);
    hide LayoutOk, LaysOut, FlatAll, Following, IsFirst, RulesOf;
    var l := LayoutOf(c);
    n := NextIn(l, target, r, c.hash);
  }

  method NextIn(l: Layout, target: Rule, r: Rule, ghost hash: Bits -> nat) returns (n: Option<Rule>)
    requires LayoutOk(l, hash) && r in FlatAll(l) && IsLooseMatch(r, target)
    ensures IsFirst(n, Following(FlatAll(l), r), FlatAll(l), target)
  {
    hide LayoutOk, FlatAll, Following, Rest;
    var p := Locate(l, r);
    var q := Next(l, target, p, hash);
    RestFollows(l, hash, p);
    if q.Some? {
      LaterInRest(l, hash, p, q.value);
      RestFollows(l, hash, q.value);
    }
    forall x | x in Rest(l, p) && IsLooseMatch(x, target)
      ensures q.Some? && (x == RuleAt(l, q.value) || x in Rest(l, q.value))
    {
      var y := RestAt(l, p, x);
      assert Wanted(l, target, y);
      if y != q.value {
        LaterInRest(l, hash, q.value, y);
      }
    }
    n := if q.Some? then Some(RuleAt(l, q.value)) else None;
  }

  lemma AtInFlat(l: Layout, p: Position)
    requires Within(l, p)
    ensures RuleAt(l, p) in FlatAll(l)
  {
    hide FlatAll, Prior, Rest;
    SplitAt(l, p);
  }

  lemma Place(l: Layout, r: Rule) returns (p: Position)
    requires r in FlatAll(l)
    ensures Within(l, p) && RuleAt(l, p) == r
  {
    FlatAllMembers(l);
    var i :| 0 <= i < |l| && r in Flat(l[i].chains);
    var k, j := FlatAt(l[i].chains, r);
    p := Position(i, k, j);
  }

  /** Where a rule is. */
  method Locate(l: Layout, r: Rule) returns (p: Position)
    requires r in FlatAll(l)
    ensures Within(l, p) && RuleAt(l, p) == r
  {
    hide FlatAll;
    ghost var x := Place(l, r);
    assert r in l[x.table].chains[x.chain].rules;
    var i :| 0 <= i < |l| && exists k :: 0 <= k < |l[i].chains| && r in l[i].chains[k].rules;
    var k :| 0 <= k < |l[i].chains| && r in l[i].chains[k].rules;
    var j :| 0 <= j < |l[i].chains[k].rules| && l[i].chains[k].rules[j] == r;
    p := Position(i, k, j);
  }

  /** CLS_CURSOR_FOR_EACH_SAFE with a body that removes the rules that are `doomed`: every wanted rule is visited
   * once, and exactly the doomed ones among them are gone. */
  method VisitRemoving(c: Classifier, target: Option<Rule>, doomed: Rule -> bool) returns (visited: seq<Rule>)
    requires c.Valid()
    modifies c
    ensures c.Valid() && Distinct(visited)
    ensures forall r :: r in visited <==> r in old(c.held) && MatchesTarget(r, target)
    ensures forall r :: r in c.held <==> r in old(c.held) && !(MatchesTarget(r, target) && doomed(r))
  {
    hide Distinct, MatchesTarget, IsLooseMatch, Goal;
    visited := VisitGoal(c, Goal(target), doomed);
    forall r ensures IsLooseMatch(r, Goal(target)) <==> MatchesTarget(r, target) {
      GoalMatches(target, r);
    }
  }

  method VisitGoal(c: Classifier, target: Rule, doomed: Rule -> bool) returns (visited: seq<Rule>)
    requires c.Valid()
    modifies c
    ensures c.Valid() && Distinct(visited)
    ensures forall r :: r in visited <==> r in old(c.held) && IsLooseMatch(r, target)
    ensures forall r :: r in c.held <==> r in old(c.held) && !(IsLooseMatch(r, target) && doomed(r))
  {
    hide Following, Distinct, IsLooseMatch, InOrder, Without;
    visited := [];
    RulesAreHeld(c);
    NoneTwice();
    var r := FirstRule(c, target);
    while r.Some?
      invariant c.Valid() && (r.Some? ==> r.value in c.held && IsLooseMatch(r.value, target))
      invariant Distinct(visited) && forall x | x in visited :: x in old(c.held) && IsLooseMatch(x, target)
      invariant forall x | x in old(c.held) && IsLooseMatch(x, target) ::
                  x in visited || (r.Some? && (x == r.value || x in Following(RulesOf(c), r.value)))
      invariant forall x | x in visited && r.Some? :: x != r.value && x !in Following(RulesOf(c), r.value)
      invariant forall x :: x in c.held <==> x in old(c.held) && !(x in visited && doomed(x))
      decreases if r.Some? then 1 + |Following(RulesOf(c), r.value)| else 0
    {
      RulesAreHeld(c);
      ghost var all := RulesOf(c);
      var n := NextRule(c, target, r.value);
      FollowingAmong(all, r.value);
      if n.Some? {
        FollowingAmong(all, n.value);
        FollowingLess(all, r.value, n.value);
        FollowingWithout(all, r.value, n.value);
      }
      OneMoreDistinct(visited, r.value);
      visited := visited + [r.value];
      if doomed(r.value) {
        c.Remove(r.value);
      }
      r := n;
    }
  }

  lemma NoneTwice()
    ensures Distinct<Rule>([])
  {}

  lemma OneMoreDistinct(s: seq<Rule>, r: Rule)
    requires Distinct(s) && r !in s
    ensures Distinct(s + [r])
  {
    assert forall x | x in s :: x !in [r];
    DistinctConcat(s, [r]);
  }
}
