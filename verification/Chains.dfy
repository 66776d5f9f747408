/** The rules of one table of the classifier: a hash map of chains.
 *
 * A chain holds the rules of one masked value in order of falling priority; its
 * first rule is the node of the hash map.  A table's hash map is a sequence of
 * chains, in the map's iteration order; `hash` may be any function.
 */
module Chains {
  import opened Seqs
  import opened FlowMatch

  datatype Chain = Chain(hash: nat, rules: seq<Rule>)

  ghost predicate ChainOk(c: Chain, mask: Bits, hash: Bits -> nat) {
    && |c.rules| > 0
    && c.hash == hash(c.rules[0].flow)
    && (forall j | 0 <= j < |c.rules| ::
          c.rules[j].mask == mask && c.rules[j].flow == c.rules[0].flow && c.rules[j].WellFormed())
    && (forall j, k | 0 <= j < k < |c.rules| :: c.rules[j].priority > c.rules[k].priority)
  }

  ghost predicate ChainsOk(chains: seq<Chain>, mask: Bits, hash: Bits -> nat) {
    && (forall i | 0 <= i < |chains| :: ChainOk(chains[i], mask, hash))
    && (forall i, j | 0 <= i < j < |chains| :: chains[i].rules[0].flow != chains[j].rules[0].flow)
  }

  /** All rules held in `chains`. */
  ghost function RuleSet(chains: seq<Chain>): set<Rule> {
    set i, r | 0 <= i < |chains| && r in chains[i].rules :: r
  }

  ghost function AtPriority(s: set<Rule>, priority: nat): set<Rule> {
    set r | r in s && r.priority == priority
  }

  /** `priority` is the largest in `s` and `count` rules of `s` have it. */
  ghost predicate MaxOk(s: set<Rule>, priority: nat, count: nat) {
    && (forall r | r in s :: r.priority <= priority)
    && count == |AtPriority(s, priority)|
    && (if s == {} then priority == 0 else count > 0)
  }

  lemma MaxIsAttained(s: set<Rule>, priority: nat, count: nat)
    requires MaxOk(s, priority, count)
    ensures priority == 0 || exists r :: r in s && r.priority == priority
  {
    if s != {} {
      var r :| r in AtPriority(s, priority);
    }
  }

  lemma MaxAfterInsertion(s: set<Rule>, new': Rule, priority: nat, count: nat)
    requires MaxOk(s, priority, count) && new' !in s
    ensures MaxOk(s + {new'},
                  if new'.priority > priority then new'.priority else priority,
                  if new'.priority > priority then 1 else if new'.priority == priority then count + 1 else count)
  {
    var t := s + {new'};
    if new'.priority > priority {
      assert AtPriority(t, new'.priority) == {new'};
    } else if new'.priority == priority {
      assert AtPriority(t, priority) == AtPriority(s, priority) + {new'};
    } else {
      assert AtPriority(t, priority) == AtPriority(s, priority);
    }
  }

  lemma MaxAfterRemoval(s: set<Rule>, rule: Rule, priority: nat, count: nat)
    requires MaxOk(s, priority, count) && rule in s
    ensures count > 0 && rule.priority <= priority
    ensures rule.priority < priority ==> MaxOk(s - {rule}, priority, count)
    ensures rule.priority == priority && count > 1 ==> MaxOk(s - {rule}, priority, count - 1)
  {
    var t := s - {rule};
    if rule.priority == priority {
      assert AtPriority(t, priority) == AtPriority(s, priority) - {rule};
      assert t == {} ==> AtPriority(s, priority) == {rule};
    } else {
      assert AtPriority(t, priority) == AtPriority(s, priority);
      assert t == {} ==> AtPriority(s, priority) == {};
    }
  }

  lemma MaxAfterReplacement(s: set<Rule>, old': Rule, new': Rule, priority: nat, count: nat)
    requires MaxOk(s, priority, count) && old' in s && (new' == old' || new' !in s)
    requires old'.priority == new'.priority
    ensures MaxOk(s - {old'} + {new'}, priority, count)
    ensures |s - {old'} + {new'}| == |s|
  {
    var t := s - {old'} + {new'};
    var a := AtPriority(s, priority);
    if old'.priority == priority {
      assert AtPriority(t, priority) == a - {old'} + {new'};
    } else {
      assert AtPriority(t, priority) == a;
    }
    assert new' in t;
    assert a != {};
    assert AtPriority(t, priority) != {};
  }

  /** Adding the next chain of a hash-map scan: only its head can matter. */
  lemma MaxAfterChain(chains: seq<Chain>, i: nat, mask: Bits, hash: Bits -> nat, priority: nat, count: nat)
    requires ChainsOk(chains, mask, hash) && i < |chains|
    requires MaxOk(RuleSet(chains[..i]), priority, count)
    ensures var p := chains[i].rules[0].priority;
            MaxOk(RuleSet(chains[..i + 1]),
                  if p > priority then p else priority,
                  if p > priority then 1 else if p == priority then count + 1 else count)
  {
    HeadIsNew(chains, i, mask, hash);
    RuleSetExtend(chains, i);
    assert ChainOk(chains[i], mask, hash);
    MaxWithHead(RuleSet(chains[..i]), chains[i].rules, RuleSet(chains[..i + 1]), priority, count);
  }

  lemma MaxWithHead(s: set<Rule>, c: seq<Rule>, t: set<Rule>, priority: nat, count: nat)
    requires MaxOk(s, priority, count) && |c| > 0 && c[0] !in s
    requires forall j | 0 < j < |c| :: c[0].priority > c[j].priority
    requires forall r :: r in t <==> r in s || r in c
    ensures var p := c[0].priority;
            MaxOk(t, if p > priority then p else priority,
                  if p > priority then 1 else if p == priority then count + 1 else count)
  {
    MaxAfterInsertion(s, c[0], priority, count);
    var top := if c[0].priority > priority then c[0].priority else priority;
    forall r | r in t ensures r in s + {c[0]} || r.priority < top {
      if r in c {
        var j :| 0 <= j < |c| && c[j] == r;
      }
    }
    assert AtPriority(t, top) == AtPriority(s + {c[0]}, top);
    assert c[0] in t;
  }

  lemma HeadIsNew(chains: seq<Chain>, i: nat, mask: Bits, hash: Bits -> nat)
    requires ChainsOk(chains, mask, hash) && i < |chains|
    ensures chains[i].rules[0] !in RuleSet(chains[..i])
  {
    forall k | 0 <= k < i ensures chains[i].rules[0] !in chains[..i][k].rules {
      assert chains[..i][k] == chains[k] && chains[k].rules[0].flow != chains[i].rules[0].flow;
    }
  }

  lemma RuleSetExtend(chains: seq<Chain>, i: nat)
    requires i < |chains|
    ensures forall r :: r in RuleSet(chains[..i + 1]) <==> r in RuleSet(chains[..i]) || r in chains[i].rules
  {
    var next := chains[..i + 1];
    forall r | r in RuleSet(chains[..i]) ensures r in RuleSet(next) {
      var k :| 0 <= k < i && r in chains[..i][k].rules;
      assert r in next[k].rules;
    }
    assert next[i] == chains[i];
    forall r | r in RuleSet(next) ensures r in RuleSet(chains[..i]) || r in chains[i].rules {
      var k :| 0 <= k < |next| && r in next[k].rules;
      assert k < i ==> r in chains[..i][k].rules;
    }
  }

  // ---------------------------------------------------------------------
  // Chain surgery, on values

  lemma KeysUnique(chains: seq<Chain>, mask: Bits, hash: Bits -> nat, a: Rule, b: Rule)
    requires ChainsOk(chains, mask, hash) && a in RuleSet(chains) && b in RuleSet(chains) && SameKey(a, b)
    ensures a == b
  {
    var i :| 0 <= i < |chains| && a in chains[i].rules;
    var k :| 0 <= k < |chains| && b in chains[k].rules;
    assert ChainOk(chains[i], mask, hash) && ChainOk(chains[k], mask, hash);
    assert chains[i].rules[0].flow == chains[k].rules[0].flow;
    assert i == k;
    var ja :| 0 <= ja < |chains[i].rules| && chains[i].rules[ja] == a;
    var jb :| 0 <= jb < |chains[i].rules| && chains[i].rules[jb] == b;
    assert ja == jb;
  }

  /** Rewriting the rules of chain `i` from `c.rules` to `rs`. */
  lemma RewriteChain(chains: seq<Chain>, i: nat, rs: seq<Rule>, mask: Bits, hash: Bits -> nat)
    requires ChainsOk(chains, mask, hash) && i < |chains|
    requires ChainOk(Chain(chains[i].hash, rs), mask, hash)
    requires rs[0].flow == chains[i].rules[0].flow
    ensures ChainsOk(chains[i := Chain(chains[i].hash, rs)], mask, hash)
    ensures forall r :: r in RuleSet(chains[i := Chain(chains[i].hash, rs)])
                   <==> r in rs || (r in RuleSet(chains) && r !in chains[i].rules)
  {
    var out := chains[i := Chain(chains[i].hash, rs)];
    assert out[i].rules == rs;
    forall r | r in RuleSet(chains) && r !in chains[i].rules ensures r in RuleSet(out) {
      var k :| 0 <= k < |chains| && r in chains[k].rules;
      assert out[k] == chains[k];
    }
    forall r | r in RuleSet(out) ensures r in rs || (r in RuleSet(chains) && r !in chains[i].rules) {
      var k :| 0 <= k < |out| && r in out[k].rules;
      if k != i {
        assert r in chains[k].rules && ChainOk(chains[k], mask, hash) && ChainOk(chains[i], mask, hash);
      }
    }
  }

  lemma AppendChain(chains: seq<Chain>, c: Chain, mask: Bits, hash: Bits -> nat)
    requires ChainsOk(chains, mask, hash) && ChainOk(c, mask, hash)
    requires forall i | 0 <= i < |chains| :: chains[i].rules[0].flow != c.rules[0].flow
    ensures ChainsOk(chains + [c], mask, hash)
    ensures forall r :: r in RuleSet(chains + [c]) <==> r in RuleSet(chains) || r in c.rules
  {
    var out := chains + [c];
    assert out[..|chains|] == chains && out[..|chains| + 1] == out;
    RuleSetExtend(out, |chains|);
  }

  lemma DropChain(chains: seq<Chain>, i: nat, mask: Bits, hash: Bits -> nat)
    requires ChainsOk(chains, mask, hash) && i < |chains|
    ensures ChainsOk(chains[..i] + chains[i + 1..], mask, hash)
    ensures forall r :: r in RuleSet(chains[..i] + chains[i + 1..]) <==> r in RuleSet(chains) && r !in chains[i].rules
  {
    forall k | 0 <= k < |chains| && k != i ensures forall r | r in chains[k].rules :: r !in chains[i].rules {
      ChainsDisjoint(chains, mask, hash, k, i);
    }
    DropRules(chains, i);
    hide ChainOk, RuleSet;
    var out := chains[..i] + chains[i + 1..];
    assert forall k | 0 <= k < |out| :: out[k] == chains[if k < i then k else k + 1];
  }

  lemma DropRules(chains: seq<Chain>, i: nat)
    requires i < |chains|
    requires forall k | 0 <= k < |chains| && k != i :: forall r | r in chains[k].rules :: r !in chains[i].rules
    ensures forall r :: r in RuleSet(chains[..i] + chains[i + 1..]) <==> r in RuleSet(chains) && r !in chains[i].rules
  {
    var out := chains[..i] + chains[i + 1..];
    assert forall k | 0 <= k < |out| :: out[k] == chains[if k < i then k else k + 1];
    forall r | r in RuleSet(chains) && r !in chains[i].rules ensures r in RuleSet(out) {
      var k :| 0 <= k < |chains| && r in chains[k].rules;
      assert out[if k < i then k else k - 1] == chains[k];
    }
  }

  lemma ChainsDisjoint(chains: seq<Chain>, mask: Bits, hash: Bits -> nat, i: nat, j: nat)
    requires ChainsOk(chains, mask, hash) && i < |chains| && j < |chains| && i != j
    ensures forall r | r in chains[i].rules :: r !in chains[j].rules
  {
    assert ChainOk(chains[i], mask, hash) && ChainOk(chains[j], mask, hash);
  }

  lemma ChainFlow(c: Chain, mask: Bits, hash: Bits -> nat)
    requires ChainOk(c, mask, hash)
    ensures c.rules[0].flow.And(mask) == c.rules[0].flow
  {}

  lemma MatchIsInChain(chains: seq<Chain>, i: nat, mask: Bits, hash: Bits -> nat, flow: Bits)
    requires ChainsOk(chains, mask, hash) && i < |chains|
    requires EqualInMask(chains[i].rules[0].flow, flow, mask)
    ensures chains[i].rules[0] in RuleSet(chains) && Matches(chains[i].rules[0], flow)
    ensures forall x | x in RuleSet(chains) && Matches(x, flow) :: x.priority <= chains[i].rules[0].priority
  {
    var head := chains[i].rules[0];
    assert ChainOk(chains[i], mask, hash);
    MatchesIsEqualInMask(head, flow);
    assert head in chains[i].rules;
    forall x | x in RuleSet(chains) && Matches(x, flow) ensures x.priority <= head.priority {
      MatchesIsEqualInMask(x, flow);
      var k :| 0 <= k < |chains| && x in chains[k].rules;
      assert ChainOk(chains[k], mask, hash);
      ChainFlow(chains[k], mask, hash);
      ChainFlow(chains[i], mask, hash);
      assert k == i;
    }
  }

  lemma KeyAbsent(chains: seq<Chain>, rule: Rule, mask: Bits, hash: Bits -> nat)
    requires ChainsOk(chains, mask, hash)
    requires forall i | 0 <= i < |chains| :: chains[i].rules[0].flow != rule.flow
    ensures forall r | r in RuleSet(chains) :: !SameKey(r, rule)
  {
    forall r | r in RuleSet(chains) ensures !SameKey(r, rule) {
      var k :| 0 <= k < |chains| && r in chains[k].rules;
      assert ChainOk(chains[k], mask, hash);
    }
  }

  lemma HasChain(chains: seq<Chain>, rule: Rule, mask: Bits, hash: Bits -> nat)
    requires ChainsOk(chains, mask, hash) && rule in RuleSet(chains)
    ensures forall i | 0 <= i < |chains| && chains[i].rules[0].flow == rule.flow :: rule in chains[i].rules
    ensures exists i | 0 <= i < |chains| :: chains[i].rules[0].flow == rule.flow
  {
    var k :| 0 <= k < |chains| && rule in chains[k].rules;
    assert ChainOk(chains[k], mask, hash);
  }

  lemma ReplaceInChain(chains: seq<Chain>, i: nat, p: nat, rule: Rule, mask: Bits, hash: Bits -> nat)
    requires ChainsOk(chains, mask, hash) && i < |chains| && p < |chains[i].rules|
    requires rule.mask == mask && rule.WellFormed() && SameKey(rule, chains[i].rules[p])
    ensures var c := chains[i];
            var out := chains[i := Chain(c.hash, c.rules[p := rule])];
            ChainsOk(out, mask, hash) && RuleSet(out) == RuleSet(chains) - {c.rules[p]} + {rule}
    ensures chains[i].rules[p] in RuleSet(chains) && (rule == chains[i].rules[p] || rule !in RuleSet(chains))
  {
    var c := chains[i];
    var rs := c.rules[p := rule];
    assert ChainOk(c, mask, hash);
    assert ChainOk(Chain(c.hash, rs), mask, hash);
    RewriteChain(chains, i, rs, mask, hash);
    if rule in RuleSet(chains) {
      KeysUnique(chains, mask, hash, rule, c.rules[p]);
    }
    assert forall r | r in c.rules :: r in RuleSet(chains);
    ReplacedMembers(c, p, rule, mask, hash);
    hide ChainOk, ChainsOk, RuleSet;
  }

  lemma ReplacedMembers(c: Chain, p: nat, rule: Rule, mask: Bits, hash: Bits -> nat)
    requires ChainOk(c, mask, hash) && p < |c.rules|
    ensures forall r :: r in c.rules[p := rule] <==> r == rule || (r in c.rules && r != c.rules[p])
  {
    var rs := c.rules[p := rule];
    assert rs[p] == rule;
    forall r | r in c.rules && r != c.rules[p] ensures r in rs {
      var k :| 0 <= k < |c.rules| && c.rules[k] == r;
      assert rs[k] == r;
    }
    forall r | r in rs && r != rule ensures r in c.rules && r != c.rules[p] {
      var k :| 0 <= k < |rs| && rs[k] == r;
      assert c.rules[k] == r && k != p;
    }
  }

  lemma InsertInOrder(c: Chain, p: nat, rule: Rule, mask: Bits, hash: Bits -> nat)
    requires ChainOk(c, mask, hash) && p <= |c.rules|
    requires rule.mask == mask && rule.WellFormed() && rule.flow == c.rules[0].flow
    requires forall j | 0 <= j < p :: c.rules[j].priority > rule.priority
    requires p < |c.rules| ==> c.rules[p].priority < rule.priority
    ensures ChainOk(Chain(c.hash, c.rules[..p] + [rule] + c.rules[p..]), mask, hash)
    ensures forall r | r in c.rules :: r.priority != rule.priority
  {
    var rs := c.rules[..p] + [rule] + c.rules[p..];
    assert forall k | 0 <= k < |rs| :: rs[k] == if k < p then c.rules[k] else if k == p then rule else c.rules[k - 1];
    assert forall j | p <= j < |c.rules| :: c.rules[j].priority < rule.priority;
  }

  lemma InsertInChain(chains: seq<Chain>, i: nat, p: nat, rule: Rule, mask: Bits, hash: Bits -> nat)
    requires ChainsOk(chains, mask, hash) && i < |chains| && p <= |chains[i].rules|
    requires rule.mask == mask && rule.WellFormed() && rule.flow == chains[i].rules[0].flow
    requires forall j | 0 <= j < p :: chains[i].rules[j].priority > rule.priority
    requires p < |chains[i].rules| ==> chains[i].rules[p].priority < rule.priority
    ensures var c := chains[i];
            var out := chains[i := Chain(c.hash, c.rules[..p] + [rule] + c.rules[p..])];
            ChainsOk(out, mask, hash) && RuleSet(out) == RuleSet(chains) + {rule}
    ensures forall r | r in RuleSet(chains) :: !SameKey(r, rule)
  {
    var c := chains[i];
    var rs := c.rules[..p] + [rule] + c.rules[p..];
    assert ChainOk(c, mask, hash);
    InsertInOrder(c, p, rule, mask, hash);
    RewriteChain(chains, i, rs, mask, hash);
    InsertedMembers(c.rules, p, rule);
    forall r | r in RuleSet(chains) ensures !SameKey(r, rule) {
      if SameKey(r, rule) {
        HasChain(chains, r, mask, hash);
      }
    }
  }

  lemma InsertedMembers(rules: seq<Rule>, p: nat, rule: Rule)
    requires p <= |rules|
    ensures forall r :: r in rules[..p] + [rule] + rules[p..] <==> r in rules || r == rule
  {
    assert rules == rules[..p] + rules[p..];
  }

  lemma RemoveInChain(chains: seq<Chain>, i: nat, j: nat, mask: Bits, hash: Bits -> nat)
    requires ChainsOk(chains, mask, hash) && i < |chains| && j < |chains[i].rules| && |chains[i].rules| > 1
    ensures var c := chains[i];
            var out := chains[i := Chain(c.hash, c.rules[..j] + c.rules[j + 1..])];
            ChainsOk(out, mask, hash) && RuleSet(out) == RuleSet(chains) - {c.rules[j]}
  {
    var c := chains[i];
    var rs := c.rules[..j] + c.rules[j + 1..];
    assert ChainOk(c, mask, hash);
    assert forall k | 0 <= k < |rs| :: rs[k] == c.rules[if k < j then k else k + 1];
    assert ChainOk(Chain(c.hash, rs), mask, hash);
    RewriteChain(chains, i, rs, mask, hash);
    assert forall r :: r in rs <==> r in c.rules && r != c.rules[j];
  }

  // ---------------------------------------------------------------------
  // The order of iteration

  /** The rules of `chains` in the order in which they are visited. */
  ghost function Flat(chains: seq<Chain>): seq<Rule> {
    if chains == [] then [] else chains[0].rules + Flat(chains[1..])
  }

  lemma {:induction false} FlatConcat(a: seq<Chain>, b: seq<Chain>)
    ensures Flat(a + b) == Flat(a) + Flat(b)
  {
    if a == [] {
      assert a + b == b;
    } else {
      assert (a + b)[1..] == a[1..] + b;
      FlatConcat(a[1..], b);
    }
  }

  lemma FlatMiddle(a: seq<Chain>, c: Chain, b: seq<Chain>)
    ensures Flat(a + [c] + b) == Flat(a) + c.rules + Flat(b)
  {
    FlatConcat(a + [c], b);
    FlatConcat(a, [c]);
    FlatOne(c);
  }

  lemma {:induction false} FlatMembers(chains: seq<Chain>)
    ensures forall r :: r in Flat(chains) <==> exists i :: 0 <= i < |chains| && r in chains[i].rules
  {
    if chains != [] {
      var rest := chains[1..];
      FlatMembers(rest);
      forall r ensures r in Flat(chains) <==> exists i :: 0 <= i < |chains| && r in chains[i].rules {
        if i :| 0 <= i < |chains| && r in chains[i].rules {
          assert i > 0 ==> r in rest[i - 1].rules;
        }
        if r in Flat(rest) {
          var i :| 0 <= i < |rest| && r in rest[i].rules;
          assert r in chains[i + 1].rules;
        }
      }
    }
  }

  lemma FlatRuleSet(chains: seq<Chain>)
    ensures forall r :: r in Flat(chains) <==> r in RuleSet(chains)
  {
    FlatMembers(chains);
    hide Flat;
  }

  /** A rule of chain `i` is on no chain before or after it. */
  lemma OnOneChain(chains: seq<Chain>, i: nat, rule: Rule, mask: Bits, hash: Bits -> nat)
    requires ChainsOk(chains, mask, hash) && i < |chains| && rule in chains[i].rules
    ensures rule !in Flat(chains[..i]) && rule !in Flat(chains[i + 1..])
  {
    FlatMembers(chains[..i]);
    FlatMembers(chains[i + 1..]);
    forall k | 0 <= k < |chains| && k != i ensures rule !in chains[k].rules {
      ChainsDisjoint(chains, mask, hash, i, k);
    }
    hide Flat, ChainsOk;
    assert forall k | 0 <= k < i :: chains[..i][k] == chains[k];
    var after := chains[i + 1..];
    forall k | 0 <= k < |after| ensures rule !in after[k].rules {
      assert after[k] == chains[k + i + 1];
    }
  }

  lemma ChainDistinct(c: Chain, mask: Bits, hash: Bits -> nat)
    requires ChainOk(c, mask, hash)
    ensures Distinct(c.rules)
  {}

  /** When the rule at `j` goes from chain `i`, which becomes `left`, the others keep their order. */
  lemma FlatRemoved(chains: seq<Chain>, i: nat, j: nat, left: seq<Chain>, mask: Bits, hash: Bits -> nat)
    requires ChainsOk(chains, mask, hash) && i < |chains| && j < |chains[i].rules|
    requires Flat(left) == chains[i].rules[..j] + chains[i].rules[j + 1..]
    ensures Flat(chains[..i] + left + chains[i + 1..]) == Without(Flat(chains), chains[i].rules[j])
  {
    var c, a, b := chains[i], chains[..i], chains[i + 1..];
    var r, before, after := c.rules[j], c.rules[..j], c.rules[j + 1..];
    OnOneChain(chains, i, r, mask, hash);
    assert ChainOk(c, mask, hash);
    ChainDistinct(c, mask, hash);
    assert r !in before && r !in after;
    assert chains == a + [c] + b && c.rules == before + [r] + after;
    hide *;
    FlatConcat(a + left, b);
    FlatConcat(a, left);
    FlatMiddle(a, c, b);
    TakenOut(Flat(a), before, r, after, Flat(b));
  }

  lemma TakenOut(a: seq<Rule>, before: seq<Rule>, r: Rule, after: seq<Rule>, b: seq<Rule>)
    requires r !in a && r !in before && r !in after && r !in b
    ensures Without(a + (before + [r] + after) + b, r) == a + (before + after) + b
  {
    hide Without;
    WithoutMiddle(a + before, r, after + b);
    Regrouped(a, before + [r], after, b);
    assert a + (before + [r]) == a + before + [r];
    Regrouped(a, before, after, b);
  }

  lemma Regrouped(a: seq<Rule>, x: seq<Rule>, y: seq<Rule>, b: seq<Rule>)
    ensures a + (x + y) + b == a + x + (y + b)
  {}

  lemma FlatDropped(chains: seq<Chain>, i: nat, mask: Bits, hash: Bits -> nat)
    requires ChainsOk(chains, mask, hash) && i < |chains| && |chains[i].rules| == 1
    ensures Flat(chains[..i] + chains[i + 1..]) == Without(Flat(chains), chains[i].rules[0])
  {
    assert Flat([]) == chains[i].rules[..0] + chains[i].rules[1..];
    hide *;
    FlatRemoved(chains, i, 0, [], mask, hash);
    assert chains[..i] + [] + chains[i + 1..] == chains[..i] + chains[i + 1..];
  }

  lemma FlatRewritten(chains: seq<Chain>, i: nat, j: nat, mask: Bits, hash: Bits -> nat)
    requires ChainsOk(chains, mask, hash) && i < |chains| && j < |chains[i].rules|
    ensures var c := chains[i];
            Flat(chains[i := Chain(c.hash, c.rules[..j] + c.rules[j + 1..])]) == Without(Flat(chains), c.rules[j])
  {
    hide *;
    var left := Chain(chains[i].hash, chains[i].rules[..j] + chains[i].rules[j + 1..]);
    FlatOne(left);
    FlatRemoved(chains, i, j, [left], mask, hash);
    Spliced(chains, i, left);
  }

  lemma FlatOne(c: Chain)
    ensures Flat([c]) == c.rules
  {
    assert [c][1..] == [] && Flat([c]) == c.rules + [];
  }

  lemma Spliced(chains: seq<Chain>, i: nat, c: Chain)
    requires i < |chains|
    ensures chains[..i] + [c] + chains[i + 1..] == chains[i := c]
  {}

  /** No rule is visited twice. */
  lemma {:induction false} FlatDistinct(chains: seq<Chain>, mask: Bits, hash: Bits -> nat)
    requires ChainsOk(chains, mask, hash)
    ensures Distinct(Flat(chains))
  {
    if chains != [] {
      var c, rest := chains[0], chains[1..];
      assert ChainOk(c, mask, hash) && ChainsOk(rest, mask, hash);
      ChainDistinct(c, mask, hash);
      FlatDistinct(rest, mask, hash);
      forall r | r in c.rules ensures r !in Flat(rest) {
        OnOneChain(chains, 0, r, mask, hash);
      }
      hide *;
      DistinctConcat(c.rules, Flat(rest));
      FlatHead(chains);
    }
  }

  lemma FlatHead(chains: seq<Chain>)
    requires chains != []
    ensures Flat(chains) == chains[0].rules + Flat(chains[1..])
  {}
}
