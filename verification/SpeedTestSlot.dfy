/** The process-wide slot that lets at most one live speed test start per minimum gap. */
module SpeedTestSlot {
  const MIN_GAP_SECONDS := 60.0

  class Slot {
    var lastAt: real
    /** Every grant so far, oldest first. */
    ghost var grants: seq<real>

    ghost predicate Valid()
      reads this
    {
      && Spaced(grants)
      && (grants != [] ==> lastAt == grants[|grants| - 1])
    }

    constructor ()
      ensures Valid() && grants == [] && lastAt == 0.0
    {
      lastAt := 0.0;
      grants := [];
    }

    /** VPN checks and the host WAN test call this same method before any live measurement. */
    method TryAcquire(now: real) returns (granted: bool)
      requires Valid()
      modifies this
      ensures Valid()
      ensures granted == (now - old(lastAt) >= 60.0)
      ensures granted ==> lastAt == now && grants == old(grants) + [now]
      ensures !granted ==> lastAt == old(lastAt) && grants == old(grants)
    {
      if now - lastAt < MIN_GAP_SECONDS {
        return false;
      }
      lastAt := now;
      grants := grants + [now];
      return true;
    }
  }

  /** Each grant is at least a minute later than every grant before it. */
  ghost predicate Spaced(grants: seq<real>) {
    forall i, j :: 0 <= i < j < |grants| ==> grants[j] - grants[i] >= 60.0
  }

  function CountBetween(grants: seq<real>, lo: real, hi: real): nat {
    if grants == [] then 0
    else CountBetween(grants[..|grants| - 1], lo, hi) + if lo <= grants[|grants| - 1] <= hi then 1 else 0
  }

  /** The k-th grant inside a window lies at least k-1 gaps after the window's start. */
  lemma {:induction false} GrantsPushForward(grants: seq<real>, lo: real, hi: real) returns (i: nat)
    requires Spaced(grants) && CountBetween(grants, lo, hi) > 0
    ensures i < |grants|
    ensures lo + MIN_GAP_SECONDS * (CountBetween(grants, lo, hi) - 1) as real <= grants[i] <= hi
  {
    var n := |grants| - 1;
    var front := grants[..n];
    var before := CountBetween(front, lo, hi);
    if before == 0 {
      i := n;
    } else {
      i := GrantsPushForward(front, lo, hi);
      if lo <= grants[n] <= hi {
        i := n;
      }
    }
  }

  /** Any time window of length `width` holds at most floor(width / 60) + 1 live tests, whatever the clock does. */
  lemma WindowBound(grants: seq<real>, start: real, width: real)
    requires Spaced(grants) && width >= 0.0
    ensures CountBetween(grants, start, start + width) <= (width / 60.0).Floor + 1
  {
    var count := CountBetween(grants, start, start + width);
    if count > 0 {
      var i := GrantsPushForward(grants, start, start + width);
      assert MIN_GAP_SECONDS * (count - 1) as real <= width;
      assert (count - 1) as real <= width / MIN_GAP_SECONDS;
      assert (count - 1) as real < (width / MIN_GAP_SECONDS).Floor as real + 1.0;
    }
  }
}
