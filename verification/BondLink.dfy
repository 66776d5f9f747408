/** The link state machine of a bond slave (bond_link_status_update). */
module BondLink {
  import opened Options
  import opened BondBalance

  /** What a call sees: the time, the carrier, and the delays in force. */
  datatype Update = Update(now: int, carrier: bool, mayEnable: bool, lacp: bool, updelay: int, downdelay: int)
  {
    /** The signal that `enabled` is to follow. */
    predicate Up() { carrier && mayEnable }

    /** How long the signal must last before `enabled` follows it. */
    function Delay(): int { if lacp then 0 else if Up() then updelay else downdelay }
  }

  /** bond_link_status_update: first the timer, then, if it has run out, the flag. */
  function LinkStatus(x: Slave, u: Update): Slave {
    var expires := if (u.Up() == x.enabled) == x.delayExpires.None? then x.delayExpires
                   else if u.Up() == x.enabled then None
                   else Some(u.now + u.Delay());
    if expires.Some? && u.now >= expires.value then x.(enabled := u.Up(), delayExpires := None)
    else x.(delayExpires := expires)
  }

  /** After each update no timer is pending exactly when the flag agrees with the signal. */
  lemma NoTimerWhenAgreeing(x: Slave, u: Update)
    ensures var x' := LinkStatus(x, u); x'.delayExpires.None? <==> x'.enabled == u.Up()
  {}

  /** A signal that turns against the flag flips it at once under LACP or without a delay; else it
   * arms the timer, with the updelay for a slave that is to be enabled and the downdelay for the other. */
  lemma TurnedSignal(x: Slave, u: Update)
    requires x.delayExpires.None? && (u.carrier && u.mayEnable) != x.enabled
    ensures u.lacp ==> LinkStatus(x, u) == x.(enabled := !x.enabled)
    ensures !u.lacp && !x.enabled ==>
              LinkStatus(x, u) == if u.updelay > 0 then x.(delayExpires := Some(u.now + u.updelay))
                                  else x.(enabled := true)
    ensures !u.lacp && x.enabled ==>
              LinkStatus(x, u) == if u.downdelay > 0 then x.(delayExpires := Some(u.now + u.downdelay))
                                  else x.(enabled := false)
  {}

  /** What changes a slave's flag: an update, or its being enabled early because no slave is enabled. */
  datatype LinkEvent = Seen(update: Update) | EnabledEarly

  /** What an event does; enabling early is bond_enable_slave. */
  function Step(x: Slave, e: LinkEvent): Slave {
    match e
    case Seen(u) => LinkStatus(x, u)
    case EnabledEarly => x.(enabled := true, delayExpires := None)
  }

  /** The slave after a run of events. */
  function AfterEvents(x: Slave, es: seq<LinkEvent>): Slave {
    if es == [] then x else Step(AfterEvents(x, es[..|es| - 1]), es[|es| - 1])
  }

  /** From event `j` on, up to before event `k`, the signal has differed from `flag` and the flag has stood. */
  ghost predicate Disagreed(x: Slave, es: seq<LinkEvent>, j: nat, k: nat, flag: bool)
    requires j <= k <= |es|
  {
    forall i | j <= i < k :: es[i].Seen? && es[i].update.Up() != flag && AfterEvents(x, es[..i]).enabled == flag
  }

  lemma DisagreedPrefix(x: Slave, es: seq<LinkEvent>, n: nat, j: nat, flag: bool)
    requires j <= n <= |es| && Disagreed(x, es[..n], j, n, flag)
    ensures Disagreed(x, es, j, n, flag)
  {
    forall i | j <= i < n
      ensures es[i].Seen? && es[i].update.Up() != flag && AfterEvents(x, es[..i]).enabled == flag
    {
      assert es[..n][i] == es[i] && es[..n][..i] == es[..i];
    }
  }

  /** A pending timer was armed at some update since which the signal has always differed from the flag. */
  lemma {:induction false} PendingTimer(x: Slave, es: seq<LinkEvent>) returns (j: nat)
    requires x.delayExpires.None? && AfterEvents(x, es).delayExpires.Some?
    ensures j < |es| && es[j].Seen?
    ensures var u, flag := es[j].update, AfterEvents(x, es).enabled;
            && AfterEvents(x, es).delayExpires ==
                 Some(u.now + if u.lacp then 0 else if flag then u.downdelay else u.updelay)
            && Disagreed(x, es, j, |es|, flag)
    decreases |es|
  {
    var n := |es| - 1;
    var before := AfterEvents(x, es[..n]);
    if before.delayExpires.Some? {
      j := PendingTimer(x, es[..n]);
      assert es[..n][j] == es[j];
      DisagreedPrefix(x, es, n, j, before.enabled);
    } else {
      j := n;
    }
  }

  /** The flag flips only by an early enabling, or if the signal differed from it at
   * every update over at least the delay in force when the timer was armed. */
  lemma FlipNeedsDelay(x: Slave, es: seq<LinkEvent>) returns (j: nat)
    requires es != [] && x.delayExpires.None?
    requires AfterEvents(x, es).enabled != AfterEvents(x, es[..|es| - 1]).enabled
    ensures var n := |es| - 1;
            || (es[n].EnabledEarly? && AfterEvents(x, es).enabled)
            || (&& j <= n && es[n].Seen? && es[j].Seen?
                && var u, flag := es[j].update, AfterEvents(x, es[..n]).enabled;
                && Disagreed(x, es, j, |es|, flag)
                && es[n].update.now >= u.now + if u.lacp then 0 else if flag then u.downdelay else u.updelay)
  {
    var n := |es| - 1;
    var before := AfterEvents(x, es[..n]);
    j := n;
    hide LinkStatus, Disagreed;
    if es[n].Seen? {
      FlipStep(before, es[n].update);
      hide AfterEvents;
      if before.delayExpires.Some? {
        j := PendingTimer(x, es[..n]);
        assert es[..n][j] == es[j];
        DisagreedPrefix(x, es, n, j, before.enabled);
      }
      DisagreedLonger(x, es, n, j, before.enabled);
    }
  }

  lemma DisagreedLonger(x: Slave, es: seq<LinkEvent>, n: nat, j: nat, flag: bool)
    requires j <= n < |es| && (j < n ==> Disagreed(x, es, j, n, flag))
    requires es[n].Seen? && es[n].update.Up() != flag && AfterEvents(x, es[..n]).enabled == flag
    ensures Disagreed(x, es, j, n + 1, flag)
  {
    hide AfterEvents;
  }

  /** When one update flips the flag. */
  lemma FlipStep(x: Slave, u: Update)
    requires LinkStatus(x, u).enabled != x.enabled
    ensures u.Up() != x.enabled
    ensures if x.delayExpires.Some? then u.now >= x.delayExpires.value else u.Delay() <= 0
  {}

  /** Conversely a signal that differs from the flag at every update of a run
   * that lasts as long as the delay does flip it. */
  lemma LastingSignalFlips(x: Slave, es: seq<LinkEvent>, deadline: int)
    requires es != [] && x.delayExpires == Some(deadline)
    requires forall i | 0 <= i < |es| :: es[i].Seen? && es[i].update.Up() != x.enabled
    ensures (exists i | 0 <= i < |es| :: es[i].update.now >= deadline) <==>
            exists i | 0 < i <= |es| :: AfterEvents(x, es[..i]).enabled != x.enabled
  {
    hide AfterEvents, LinkStatus;
    if i :| 0 <= i < |es| && es[i].update.now >= deadline {
      var k := FirstLate(es, deadline);
      StaysUntil(x, es, deadline, k);
      FlipsWhenLate(x, es, deadline, k);
    } else {
      forall i | 0 < i <= |es| ensures AfterEvents(x, es[..i]).enabled == x.enabled {
        StaysUntil(x, es, deadline, i);
      }
    }
  }

  lemma FlipsWhenLate(x: Slave, es: seq<LinkEvent>, deadline: int, k: nat)
    requires k < |es| && es[k].Seen? && x.delayExpires == Some(deadline) && AfterEvents(x, es[..k]) == x
    requires es[k].update.Up() != x.enabled && es[k].update.now >= deadline
    ensures AfterEvents(x, es[..k + 1]).enabled != x.enabled
  {
    assert es[..k + 1][..k] == es[..k];
  }

  lemma FirstLate(es: seq<LinkEvent>, deadline: int) returns (k: nat)
    requires forall i | 0 <= i < |es| :: es[i].Seen?
    requires exists i | 0 <= i < |es| :: es[i].update.now >= deadline
    ensures k < |es| && es[k].update.now >= deadline && forall i | 0 <= i < k :: es[i].update.now < deadline
  {
    k := 0;
    while es[k].update.now < deadline
      invariant 0 <= k < |es| && forall i | 0 <= i < k :: es[i].update.now < deadline
      decreases |es| - k
    {
      k := k + 1;
    }
  }

  lemma {:induction false} StaysUntil(x: Slave, es: seq<LinkEvent>, deadline: int, k: nat)
    requires k <= |es| && x.delayExpires == Some(deadline)
    requires forall i | 0 <= i < k :: es[i].Seen? && es[i].update.Up() != x.enabled
    ensures (forall i | 0 <= i < k :: es[i].update.now < deadline) ==> AfterEvents(x, es[..k]) == x
    decreases k
  {
    if k > 0 {
      assert es[..k][..k - 1] == es[..k - 1];
      StaysUntil(x, es, deadline, k - 1);
    }
  }
}
