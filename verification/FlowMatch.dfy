/** Flows, wildcard masks and classifier rules.
 *
 * A flow or a mask is the set of positions of its one-bits, so that `&` is
 * intersection.  A bit outside a rule's mask is wildcarded; by the invariant
 * of `struct match` such a bit is zero in the rule's flow.
 */
module FlowMatch {

  datatype Bits = Bits(ones: set<nat>)
  {
    function And(other: Bits): Bits { Bits(ones * other.ones) }
  }

  /** `id` stands for the address of the caller's rule object. */
  datatype Rule = Rule(id: nat, flow: Bits, mask: Bits, priority: nat)
  {
    predicate WellFormed() { flow.ones <= mask.ones }
  }

  predicate SameKey(a: Rule, b: Rule) {
    a.flow == b.flow && a.mask == b.mask && a.priority == b.priority
  }

  predicate EqualInMask(a: Bits, b: Bits, mask: Bits) {
    a.And(mask) == b.And(mask)
  }

  /** Does a packet agree with the rule on every bit the rule looks at? */
  predicate Matches(r: Rule, packet: Bits) {
    forall b | b in r.mask.ones :: b in packet.ones <==> b in r.flow.ones
  }

  /** The test of find_match is what it means for a packet to match. */
  lemma MatchesIsEqualInMask(r: Rule, packet: Bits)
    ensures Matches(r, packet) <==> EqualInMask(r.flow, packet, r.mask)
  {
    var f, p, m := r.flow.ones, packet.ones, r.mask.ones;
    if Matches(r, packet) {
      assert f * m == p * m;
    }
    if EqualInMask(r.flow, packet, r.mask) {
      forall b | b in m ensures b in p <==> b in f {
        assert b in f <==> b in f * m;
        assert b in p <==> b in p * m;
      }
    }
  }

  /** Does a mask wildcard some bit that `b` looks at? */
  predicate HasExtra(a: Bits, b: Bits) {
    a.And(b) != b
  }

  /** cls_rule_is_loose_match. */
  predicate IsLooseMatch(r: Rule, criteria: Rule) {
    !HasExtra(r.mask, criteria.mask) && EqualInMask(r.flow, criteria.flow, criteria.mask)
  }

  /** A rule loosely matches a criterion exactly when every packet of the rule
   * is a packet of the criterion. */
  lemma LooseMatchIsInclusion(r: Rule, c: Rule)
    requires r.WellFormed() && c.WellFormed()
    ensures IsLooseMatch(r, c) <==> forall p: Bits | Matches(r, p) :: Matches(c, p)
  {
    var f, m := r.flow.ones, c.mask.ones;
    if IsLooseMatch(r, c) {
      forall p: Bits | Matches(r, p) ensures Matches(c, p) {
        forall b | b in m ensures b in p.ones <==> b in c.flow.ones {
          assert b in r.mask.ones * m;
          assert b in f * m <==> b in c.flow.ones * m;
        }
      }
    }
    if forall p: Bits | Matches(r, p) :: Matches(c, p) {
      assert Matches(r, r.flow) && Matches(c, r.flow);
      MatchesIsEqualInMask(c, r.flow);
      forall b | b in m ensures b in r.mask.ones {
        var p, q := Bits(f + {b}), Bits(f - {b});
        assert b !in r.mask.ones ==> Matches(r, p) && Matches(r, q);
        assert b in p.ones && b !in q.ones;
      }
      assert r.mask.ones * m == m;
    }
  }

  /** Two rules overlap if they have one priority and some packet matches both. */
  ghost predicate Overlap(a: Rule, b: Rule) {
    a.priority == b.priority && exists p: Bits :: Matches(a, p) && Matches(b, p)
  }

  /** The test of classifier_rule_overlaps decides overlap; the packet that
   * has the one-bits of both flows is the witness. */
  lemma OverlapIsEqualInCombinedMask(a: Rule, b: Rule)
    requires a.WellFormed() && b.WellFormed() && a.priority == b.priority
    ensures Overlap(a, b) <==> EqualInMask(a.flow, b.flow, a.mask.And(b.mask))
  {
    var m := a.mask.ones * b.mask.ones;
    var f, g := a.flow.ones, b.flow.ones;
    if EqualInMask(a.flow, b.flow, a.mask.And(b.mask)) {
      assert f * m == g * m;
      forall x | x in a.mask.ones && x in g ensures x in f {
        assert x in g * m;
      }
      forall x | x in b.mask.ones && x in f ensures x in g {
        assert x in f * m;
      }
      assert Matches(a, Bits(f + g)) && Matches(b, Bits(f + g));
    }
    if Overlap(a, b) {
      var p: Bits :| Matches(a, p) && Matches(b, p);
      forall x ensures x in f * m <==> x in g * m {}
      assert f * m == g * m;
    }
  }
}
