/** What the rebalancing of a bond chooses to move (choose_entry_to_migrate and the loop of
 * bond_rebalance in ovs/lib/bond.c), in whole numbers of bytes. */
module BondChoice {
  import opened Options
  import opened BondLoads
  import opened BondBalance

  function Distance(x: int, y: int): nat { if x < y then y - x else x - y }

  // ---------------------------------------------------------------------
  // Ratios

  lemma QuotientAbove(a: real, b: real, c: real)
    requires b > 0.0
    ensures a / b > c <==> a > c * b
  {
    assert a == (a / b) * b;
    Scaled(a / b, c, b);
  }

  lemma Scaled(x: real, y: real, b: real)
    requires b > 0.0
    ensures x > y <==> x * b > y * b
  {
    if x > y {
      assert (x - y) * b > 0.0;
    } else {
      assert (y - x) * b >= 0.0;
    }
  }

  lemma QuotientsCompared(a: real, b: real, c: real, d: real)
    requires b > 0.0 && d > 0.0
    ensures a / b < c / d <==> a * d < c * b
  {
    QuotientAbove(c, d, a / b);
    Scaled(c, (a / b) * d, b);
    assert (a / b) * d * b == (a / b) * b * d;
    assert (a / b) * b == a;
  }

  lemma {:induction false} ProductReal(x: nat, y: nat)
    ensures (x * y) as real == x as real * y as real
    decreases y
  {
    if y > 0 {
      ProductReal(x, y - 1);
      assert x * y == x * (y - 1) + x;
      assert x as real * y as real == x as real * (y - 1) as real + x as real;
    }
  }

  /** How much a ratio falls when `d` goes from above to below. */
  lemma RatioFall(f: real, t: real, d: real)
    requires t > 0.0 && d >= 0.0
    ensures f / t - (f - d) / (t + d) == d * (f + t) / (t * (t + d))
  {
    var p, q := f / t, (f - d) / (t + d);
    assert p * t == f && q * (t + d) == f - d;
    var m := Positive(t, t + d);
    CrossMultiplied(p, q, f, t, d);
    QuotientIs(p - q, d * (f + t), m);
  }

  lemma CrossMultiplied(p: real, q: real, f: real, t: real, d: real)
    requires p * t == f && q * (t + d) == f - d
    ensures (p - q) * (t * (t + d)) == d * (f + t)
  {
    calc {
      (p - q) * (t * (t + d));
      p * (t * (t + d)) - q * (t * (t + d));
      { Regroup(p, t, t + d); Regroup(q, t + d, t); }
      f * (t + d) - (f - d) * t;
      d * (f + t);
    }
  }

  lemma Regroup(a: real, b: real, c: real)
    ensures a * (b * c) == (a * b) * c && b * c == c * b
  {}

  lemma Positive(a: real, b: real) returns (m: real)
    requires a > 0.0 && b > 0.0
    ensures m == a * b && m > 0.0
  {
    m := a * b;
  }

  lemma QuotientIs(x: real, a: real, b: real)
    requires b > 0.0 && x * b == a
    ensures x == a / b
  {
    assert (a / b) * b == a;
    assert (x - a / b) * b == 0.0;
  }

  lemma RatioOff(a: nat, b: nat)
    requires b > 0
    ensures Abs(a as real / b as real - 1.0) == Distance(a, b) as real / b as real
  {
    var x, y := a as real, b as real;
    var r := x / y;
    assert r * y == x;
    QuotientIs(r - 1.0, x - y, y);
    QuotientIs(1.0 - r, y - x, y);
    QuotientAbove(x, y, 1.0);
  }

  lemma ComparedInBytes(a: nat, b: nat, c: nat, d: nat)
    requires b > 0 && d > 0
    ensures a as real / b as real < c as real / d as real <==> a * d < c * b
  {
    QuotientsCompared(a as real, b as real, c as real, d as real);
    ProductReal(a, d);
    ProductReal(c, b);
  }

  lemma FallAsQuotient(f: nat, t: nat, d: nat)
    requires t > 0 && d <= f
    ensures (t * (t + d)) as real > 0.0
    ensures f as real / t as real - (f - d) as real / (t + d) as real == (d * (f + t)) as real / (t * (t + d)) as real
  {
    RatioFall(f as real, t as real, d as real);
    ProductReal(d, f + t);
    ProductReal(t, t + d);
    var m := Positive(t as real, (t + d) as real);
    assert (f + t) as real == f as real + t as real && (t + d) as real == t as real + d as real;
    assert (f - d) as real == f as real - d as real;
  }

  lemma AboveTenth(num: nat, den: nat)
    requires den as real > 0.0
    ensures num as real / den as real > 0.1 <==> 10 * num > den
  {
    QuotientAbove(num as real, den as real, 0.1);
  }

  lemma FallInBytes(f: nat, t: nat, d: nat)
    requires t > 0 && d <= f
    ensures f as real / t as real - (f - d) as real / (t + d) as real > 0.1 <==> 10 * d * (f + t) > t * (t + d)
  {
    FallAsQuotient(f, t, d);
    AboveTenth(d * (f + t), t * (t + d));
    assert 10 * (d * (f + t)) == 10 * d * (f + t);
  }

  lemma CloserInBytes(f: nat, t: nat, d: nat)
    requires t > 0 && d <= f
    ensures Abs((f - d) as real / (t + d) as real - 1.0) < Abs(f as real / t as real - 1.0) <==>
            Distance(f, t + 2 * d) * t < Distance(f, t) * (t + d)
  {
    RatioOff(f - d, t + d);
    RatioOff(f, t);
    assert Distance(f - d, t + d) == Distance(f, t + 2 * d);
    hide Distance, Abs;
    ComparedInBytes(Distance(f, t + 2 * d), t + d, Distance(f, t), t);
  }

  /** Moving `d` bytes is worth it exactly if the other slave carries nothing yet, or the ratio of the
   * loads falls by more than a tenth and comes closer to one. */
  lemma WorthInBytes(f: nat, t: nat, d: nat)
    requires d <= f
    ensures t == 0 ==> WorthMoving(f, t, d)
    ensures t > 0 ==>
              (WorthMoving(f, t, d) <==>
               10 * d * (f + t) > t * (t + d) && Distance(f, t + 2 * d) * t < Distance(f, t) * (t + d))
  {
    hide Abs, Distance;
    if t > 0 {
      FallInBytes(f, t, d);
      CloserInBytes(f, t, d);
    }
  }

  /** A move that is worth it brings the loads themselves closer exactly if the bucket is smaller than the overload. */
  lemma CloserLoads(f: nat, t: nat, d: nat)
    requires t < f && d <= f && WorthMoving(f, t, d)
    ensures Distance(f - d, t + d) < Distance(f, t) <==> 0 < d < f - t
  {}

  /** Two loads that such a move drives further apart, although the slave is overloaded. */
  lemma MoveWidens()
    ensures Overloaded(300000, 2) && WorthMoving(300000, 2, 299999)
    ensures Distance(300000 - 299999, 2 + 299999) > Distance(300000, 2)
  {
    WorthInBytes(300000, 2, 299999);
  }

  // ---------------------------------------------------------------------
  // Turns and runs

  /** A turn in bytes: the overload is at least 100000 and a 32nd of the lesser load, and the first bucket
   * worth it moves, if there are two to choose from. */
  lemma TurnInBytes(r: Round, n: Round) returns (k: int)
    requires Turn(r, n)
    ensures Listed(r)
    ensures var x, f, t := r.slaves[r.bals[0]], r.slaves[r.bals[0]].txBytes, r.slaves[r.bals[|r.bals| - 1]].txBytes;
            && f - t >= 100000 && f - t >= t / 32
            && -1 <= k < |x.entries| && (|x.entries| < 2 ==> k == -1) && Turned(r, k, n)
            && (k >= 0 ==>
                  var d := r.hash[x.entries[k]].txBytes;
                  t == 0 ||
                  (10 * d * (f + t) > t * (t + d) && Distance(f, t + 2 * d) * t < Distance(f, t) * (t + d)))
            && (|x.entries| >= 2 ==>
                  forall j | 0 <= j < (if k >= 0 then k else |x.entries|) ::
                    var d := r.hash[x.entries[j]].txBytes;
                    && t > 0
                    && (10 * d * (f + t) <= t * (t + d) || Distance(f, t + 2 * d) * t >= Distance(f, t) * (t + d)))
  {
    hide Turned, Distance;
    var x, t := r.slaves[r.bals[0]], r.slaves[r.bals[|r.bals| - 1]].txBytes;
    k :| Picked(x, t, r.hash, k) && Turned(r, k, n);
    hide WorthMoving;
    forall j | 0 <= j < |x.entries|
      ensures var f, d := x.txBytes, r.hash[x.entries[j]].txBytes;
              && (t == 0 ==> WorthMoving(f, t, d))
              && (t > 0 ==>
                    (WorthMoving(f, t, d) <==>
                     10 * d * (f + t) > t * (t + d) && Distance(f, t + 2 * d) * t < Distance(f, t) * (t + d)))
    {
      WorthInBytes(x.txBytes, t, r.hash[x.entries[j]].txBytes);
    }
  }

  /** The loop stops exactly if one slave is left, or the overload is small. */
  lemma HaltedInBytes(r: Round)
    requires |r.bals| >= 2 ==> r.bals[0] in r.slaves && r.bals[|r.bals| - 1] in r.slaves
    ensures Halted(r) <==>
            |r.bals| < 2 ||
            var f, t := r.slaves[r.bals[0]].txBytes, r.slaves[r.bals[|r.bals| - 1]].txBytes;
            f - t < t / 32 || f - t < 100000
  {}

  /** In a complete run, whenever the least loaded slave carries nothing, and the most loaded one has 100000 bytes or
   * more in two buckets or more, the first of these moves to it at once. */
  lemma IdleSlaveTakesFirst(run: seq<Round>, was: seq<Entry>, i: nat)
    requires IsRun(run, was) && Halted(run[|run| - 1]) && i < |run| && |run[i].bals| >= 2
    requires run[i].bals[0] in run[i].slaves && run[i].bals[|run[i].bals| - 1] in run[i].slaves
    requires var r := run[i];
             && r.slaves[r.bals[|r.bals| - 1]].txBytes == 0
             && r.slaves[r.bals[0]].txBytes >= 100000 && |r.slaves[r.bals[0]].entries| >= 2
    ensures i + 1 < |run| && Listed(run[i])
    ensures var r := run[i];
            var b, to := r.slaves[r.bals[0]].entries[0], r.bals[|r.bals| - 1];
            run[i + 1].hash == r.hash[b := Entry(Some(to), r.hash[b].txBytes)]
  {
    HaltedInBytes(run[i]);
    assert TurnAt(run, i + 1) && Listed(run[i]);
    hide *;
    IdleSlaveTakes(run[i], run[i + 1]);
  }

  lemma IdleSlaveTakes(r: Round, n: Round)
    requires Turn(r, n) && Listed(r) && r.slaves[r.bals[|r.bals| - 1]].txBytes == 0
    requires |r.slaves[r.bals[0]].entries| >= 2
    ensures var b, to := r.slaves[r.bals[0]].entries[0], r.bals[|r.bals| - 1];
            n.hash == r.hash[b := Entry(Some(to), r.hash[b].txBytes)]
  {
    hide Turn, Distance;
    var k := TurnInBytes(r, n);
    var first := r.slaves[r.bals[0]].entries[0];
    assert k == 0;
  }
}
