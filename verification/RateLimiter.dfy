/** The limit on datagrams that are accepted from one address. Times are in nanoseconds. */
module RateLimiter {
  import opened RoutingTable

  const MAX_QUERIES_PER_SECOND: nat := 100

  datatype Window = Window(count: nat, start: int)

  type Limits = map<Ip, Window>

  datatype Arrival = Arrival(ip: Ip, at: int)

  /** A window opens with the first datagram of an address, and again when the last one is a second old. */
  predicate Opens(m: Limits, a: Arrival) { a.ip !in m || Seconds(a.at - m[a.ip].start) >= 1 }

  predicate Accepts(m: Limits, a: Arrival) { Opens(m, a) || m[a.ip].count < MAX_QUERIES_PER_SECOND }

  function After(m: Limits, a: Arrival): Limits {
    if Opens(m, a) then m[a.ip := Window(1, a.at)]
    else if Accepts(m, a) then m[a.ip := Window(m[a.ip].count + 1, m[a.ip].start)]
    else m
  }

  function Run(arrivals: seq<Arrival>): Limits {
    if arrivals == [] then map[] else After(Run(arrivals[..|arrivals| - 1]), arrivals[|arrivals| - 1])
  }

  predicate Monotone(arrivals: seq<Arrival>) {
    forall i, j | 0 <= i < j < |arrivals| :: arrivals[i].at <= arrivals[j].at
  }

  /** How many datagrams of an address are accepted at times `from` to `to`, both included. */
  function Accepted(arrivals: seq<Arrival>, ip: Ip, from: int, to: int): nat {
    if arrivals == [] then 0
    else
      var init, last := arrivals[..|arrivals| - 1], arrivals[|arrivals| - 1];
      Accepted(init, ip, from, to)
      + (if last.ip == ip && from <= last.at <= to && Accepts(Run(init), last) then 1 else 0)
  }

  // ----- the bound -----

  /** The state of an address: a full window or less, begun at or before the last arrival. */
  predicate WindowOk(arrivals: seq<Arrival>, ip: Ip) {
    ip in Run(arrivals) ==>
      var w := Run(arrivals)[ip];
      && 1 <= w.count <= MAX_QUERIES_PER_SECOND && arrivals != []
      && w.start <= arrivals[|arrivals| - 1].at
  }

  lemma {:induction false} WindowsAreOk(arrivals: seq<Arrival>, ip: Ip)
    requires Monotone(arrivals)
    ensures WindowOk(arrivals, ip)
  {
    if arrivals != [] {
      WindowsAreOk(arrivals[..|arrivals| - 1], ip);
    }
  }

  lemma SecondsAtLeastOne(duration: int)
    ensures Seconds(duration) >= 1 <==> duration >= SECOND
  {
  }

  /** Windows that ended before the last one cost 100 each, and each takes a second of the interval. */
  predicate Spent(arrivals: seq<Arrival>, ip: Ip, from: int, to: int, full: nat) {
    && ip in Run(arrivals)
    && Run(arrivals)[ip].start > from - SECOND + full * SECOND
    && Accepted(arrivals, ip, from, to) <= 100 * full + Run(arrivals)[ip].count
  }

  lemma {:induction false} SpentSoFar(arrivals: seq<Arrival>, ip: Ip, from: int, to: int) returns (full: nat)
    requires Monotone(arrivals)
    requires arrivals == [] || arrivals[|arrivals| - 1].at <= to
    ensures Accepted(arrivals, ip, from, to) == 0 || Spent(arrivals, ip, from, to, full)
  {
    full := 0;
    if arrivals != [] {
      var init, last := arrivals[..|arrivals| - 1], arrivals[|arrivals| - 1];
      full := SpentSoFar(init, ip, from, to);
      WindowsAreOk(init, ip);
      if last.ip == ip && Accepts(Run(init), last) && from <= last.at {
        SecondsAtLeastOne(if ip in Run(init) then last.at - Run(init)[ip].start else 0);
        if Accepted(init, ip, from, to) == 0 {
          full := 0;
        } else if Opens(Run(init), last) {
          full := full + 1;
        }
      }
    }
  }

  /** Seconds rounded up. */
  function Ceiling(duration: nat): nat { (duration + SECOND - 1) / SECOND }

  lemma FullWindowsFit(full: nat, duration: nat)
    requires full * SECOND < duration + SECOND
    ensures full <= Ceiling(duration)
  {
  }

  /** Arrivals after the interval do not count. */
  lemma {:induction false} UpTo(arrivals: seq<Arrival>, ip: Ip, from: int, to: int) returns (k: nat)
    requires Monotone(arrivals)
    ensures k <= |arrivals| && (k == 0 || arrivals[k - 1].at <= to)
    ensures Accepted(arrivals, ip, from, to) == Accepted(arrivals[..k], ip, from, to)
  {
    k := |arrivals|;
    assert arrivals[..k] == arrivals;
    if arrivals != [] && arrivals[k - 1].at > to {
      k := UpTo(arrivals[..k - 1], ip, from, to);
      assert arrivals[..|arrivals| - 1][..k] == arrivals[..k];
    }
  }

  /** At most 100 * (ceiling of T + 1) datagrams of one address are accepted in any interval of T seconds. */
  lemma RateIsBounded(arrivals: seq<Arrival>, ip: Ip, from: int, duration: nat)
    requires Monotone(arrivals)
    ensures Accepted(arrivals, ip, from, from + duration) <= 100 * (Ceiling(duration) + 1)
  {
    var to := from + duration;
    var k := UpTo(arrivals, ip, from, to);
    var full := SpentSoFar(arrivals[..k], ip, from, to);
    WindowsAreOk(arrivals[..k], ip);
    if Spent(arrivals[..k], ip, from, to, full) {
      FullWindowsFit(full, duration);
    }
  }

  /** The start of a window never moves back. */
  lemma {:induction false} StartsOnlyMoveOn(arrivals: seq<Arrival>, i: nat, ip: Ip)
    requires Monotone(arrivals) && i <= |arrivals| && ip in Run(arrivals[..i])
    ensures ip in Run(arrivals) && Run(arrivals[..i])[ip].start <= Run(arrivals)[ip].start
  {
    if i == |arrivals| {
      assert arrivals[..i] == arrivals;
    } else {
      var init := arrivals[..|arrivals| - 1];
      assert init[..i] == arrivals[..i];
      StartsOnlyMoveOn(init, i, ip);
      WindowsAreOk(init, ip);
      SecondsAtLeastOne(arrivals[|arrivals| - 1].at - Run(init)[ip].start);
    }
  }

  /** Two windows of one address start at least a second apart. */
  lemma WindowsAreASecondApart(arrivals: seq<Arrival>, i: nat, j: nat)
    requires Monotone(arrivals) && i < j < |arrivals| && arrivals[i].ip == arrivals[j].ip
    requires Opens(Run(arrivals[..i]), arrivals[i]) && Opens(Run(arrivals[..j]), arrivals[j])
    ensures arrivals[j].at - arrivals[i].at >= SECOND
  {
    var before, ip := arrivals[..j], arrivals[i].ip;
    assert before[..i + 1][..i] == arrivals[..i] && before[..i + 1][i] == arrivals[i];
    assert Run(before[..i + 1]) == After(Run(arrivals[..i]), arrivals[i]);
    StartsOnlyMoveOn(before, i + 1, ip);
    SecondsAtLeastOne(arrivals[j].at - Run(before)[ip].start);
  }

  // ----- nobody is refused without reason -----

  /** The count of a window is the number of datagrams accepted since it started, or fewer. */
  lemma {:induction false} CountIsAccepted(arrivals: seq<Arrival>, ip: Ip, to: int)
    requires Monotone(arrivals) && ip in Run(arrivals)
    requires arrivals == [] || arrivals[|arrivals| - 1].at <= to
    ensures Run(arrivals)[ip].count <= Accepted(arrivals, ip, Run(arrivals)[ip].start, to)
  {
    var init, last := arrivals[..|arrivals| - 1], arrivals[|arrivals| - 1];
    WindowsAreOk(init, ip);
    if last.ip != ip || !Opens(Run(init), last) {
      CountIsAccepted(init, ip, to);
      SecondsAtLeastOne(last.at - Run(init)[ip].start);
    }
  }

  /** A datagram is refused only when 100 of its address were accepted within the last second. */
  lemma RefusedOnlyWhenFull(arrivals: seq<Arrival>, a: Arrival)
    requires Monotone(arrivals + [a]) && !Accepts(Run(arrivals), a)
    ensures Accepted(arrivals, a.ip, a.at - SECOND + 1, a.at) >= 100
  {
    var start := Run(arrivals)[a.ip].start;
    assert forall i | 0 <= i < |arrivals| :: arrivals[i] == (arrivals + [a])[i] && arrivals[i].at <= (arrivals + [a])[|arrivals|].at;
    WindowsAreOk(arrivals, a.ip);
    SecondsAtLeastOne(a.at - start);
    CountIsAccepted(arrivals, a.ip, a.at);
    WiderInterval(arrivals, a.ip, start, a.at - SECOND + 1, a.at);
  }

  lemma {:induction false} WiderInterval(arrivals: seq<Arrival>, ip: Ip, start: int, from: int, to: int)
    requires from <= start
    ensures Accepted(arrivals, ip, start, to) <= Accepted(arrivals, ip, from, to)
  {
    if arrivals != [] {
      WiderInterval(arrivals[..|arrivals| - 1], ip, start, from, to);
    }
  }

  // ----- addresses do not disturb each other -----

  function Only(arrivals: seq<Arrival>, ip: Ip): seq<Arrival> {
    if arrivals == [] then []
    else Only(arrivals[..|arrivals| - 1], ip) + (if arrivals[|arrivals| - 1].ip == ip then [arrivals[|arrivals| - 1]] else [])
  }

  predicate SameFor(m: Limits, n: Limits, ip: Ip) { (ip in m <==> ip in n) && (ip in m && ip in n ==> m[ip] == n[ip]) }

  lemma {:induction false} AddressesAreIndependent(arrivals: seq<Arrival>, ip: Ip, from: int, to: int)
    ensures SameFor(Run(arrivals), Run(Only(arrivals, ip)), ip)
    ensures Accepted(arrivals, ip, from, to) == Accepted(Only(arrivals, ip), ip, from, to)
  {
    if arrivals != [] {
      var init, last := arrivals[..|arrivals| - 1], arrivals[|arrivals| - 1];
      AddressesAreIndependent(init, ip, from, to);
      if last.ip == ip {
        var only := Only(init, ip) + [last];
        assert only[..|only| - 1] == Only(init, ip);
      } else {
        assert Only(init, ip) + [] == Only(init, ip);
      }
    }
  }

  // ----- the object -----

  class RateLimiter {
    var rateLimits: Limits

    constructor ()
      ensures rateLimits == map[]
    {
      rateLimits := map[];
    }

    /** `check_rate_limit`. */
    method CheckRateLimit(ip: Ip, now: int) returns (accepted: bool)
      modifies this
      ensures accepted == Accepts(old(rateLimits), Arrival(ip, now))
      ensures rateLimits == After(old(rateLimits), Arrival(ip, now))
    {
      if ip !in rateLimits {
        rateLimits := rateLimits[ip := Window(1, now)];
        return true;
      }
      var window := rateLimits[ip];
      if Seconds(now - window.start) >= 1 {
        rateLimits := rateLimits[ip := Window(1, now)];
        return true;
      }
      if window.count >= MAX_QUERIES_PER_SECOND {
        return false;
      }
      rateLimits := rateLimits[ip := window.(count := window.count + 1)];
      return true;
    }
  }
}
