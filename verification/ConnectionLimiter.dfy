/** Connection accounting of event subscriptions (IpConnectionLimiter and subscribe, apps/hubble/src/rpc/server.ts). */
module ConnectionLimiter {

  type Counts = map<string, nat>

  function Count(counts: Counts, ip: string): nat {
    if ip in counts then counts[ip] else 0
  }

  predicate IsLoopback(ip: string) {
    ip == "127.0.0.1" || ip == "::1"
  }

  ghost function Sum(counts: Counts): nat {
    if counts == map[] then 0
    else
      var ip :| ip in counts;
      counts[ip] + Sum(counts - {ip})
  }

  lemma {:induction false} SumRemove(counts: Counts, ip: string)
    requires ip in counts
    ensures Sum(counts) == counts[ip] + Sum(counts - {ip})
    decreases |counts|
  {
    var first :| first in counts && Sum(counts) == counts[first] + Sum(counts - {first});
    if first != ip {
      SumRemove(counts - {first}, ip);
      SumRemove(counts - {ip}, first);
      assert counts - {first} - {ip} == counts - {ip} - {first};
    }
  }

  lemma SumUpdate(counts: Counts, ip: string, n: nat)
    ensures Sum(counts[ip := n]) == Sum(counts) - Count(counts, ip) + n
  {
    SumRemove(counts[ip := n], ip);
    assert counts[ip := n] - {ip} == counts - {ip};
    if ip in counts {
      SumRemove(counts, ip);
    } else {
      assert counts - {ip} == counts;
    }
  }

  class IpConnectionLimiter {
    const perIpLimit: nat
    const globalLimit: nat
    var ipConnections: Counts
    var totalConnections: nat

    ghost predicate Valid()
      reads this
    {
      && totalConnections == Sum(ipConnections) <= globalLimit
      && forall ip :: ip in ipConnections && !IsLoopback(ip) ==> ipConnections[ip] <= perIpLimit
    }

    ghost predicate Admits(ip: string)
      reads this
    {
      (IsLoopback(ip) || Count(ipConnections, ip) < perIpLimit) && Sum(ipConnections) < globalLimit
    }

    constructor (perIpLimit: nat, globalLimit: nat)
      ensures Valid() && ipConnections == map[]
      ensures this.perIpLimit == perIpLimit && this.globalLimit == globalLimit
    {
      this.perIpLimit, this.globalLimit := perIpLimit, globalLimit;
      ipConnections, totalConnections := map[], 0;
    }

    method AddConnection(ip: string) returns (ok: bool)
      requires Valid()
      modifies this
      ensures Valid()
      ensures ok <==> old(Admits(ip))
      ensures ip == "127.0.0.1" || ip == "::1" ==> (ok <==> old(totalConnections) < globalLimit)
      ensures ip != "127.0.0.1" && ip != "::1" ==>
        (ok <==> Count(old(ipConnections), ip) < perIpLimit && old(totalConnections) < globalLimit)
      ensures ipConnections == if ok then old(ipConnections)[ip := Count(old(ipConnections), ip) + 1] else old(ipConnections)
    {
      var connections := Count(ipConnections, ip);
      if !IsLoopback(ip) && connections >= perIpLimit {
        return false;
      }
      if totalConnections >= globalLimit {
        return false;
      }
      SumUpdate(ipConnections, ip, connections + 1);
      ipConnections := ipConnections[ip := connections + 1];
      totalConnections := totalConnections + 1;
      ok := true;
    }

    method RemoveConnection(ip: string)
      requires Valid()
      modifies this
      ensures Valid()
      ensures ipConnections == if Count(old(ipConnections), ip) > 0
        then old(ipConnections)[ip := Count(old(ipConnections), ip) - 1] else old(ipConnections)
    {
      var connections := Count(ipConnections, ip);
      if connections > 0 {
        SumUpdate(ipConnections, ip, connections - 1);
        ipConnections := ipConnections[ip := connections - 1];
        totalConnections := totalConnections - 1;
      }
    }

    method Clear()
      modifies this
      ensures Valid() && ipConnections == map[]
    {
      ipConnections, totalConnections := map[], 0;
    }
  }

  /**
   * The subscribe handler's use of the limiter. `open` counts the open streams of each address and
   * `uncounted` those among them that the limiter does not count.
   */
  class Subscriptions {
    const limiter: IpConnectionLimiter
    ghost var open: Counts
    ghost var uncounted: Counts

    /** Every open stream of an address is counted or not. */
    ghost predicate Accounted(ip: string)
      reads this, limiter
    {
      Count(limiter.ipConnections, ip) + Count(uncounted, ip) == Count(open, ip)
    }

    ghost predicate Valid()
      reads this, limiter
    {
      limiter.Valid() && forall ip :: Accounted(ip)
    }

    constructor (perIpLimit: nat, globalLimit: nat)
      ensures Valid() && open == uncounted == map[] && fresh(limiter) && limiter.ipConnections == map[]
      ensures limiter.perIpLimit == perIpLimit && limiter.globalLimit == globalLimit
    {
      limiter := new IpConnectionLimiter(perIpLimit, globalLimit);
      open, uncounted := map[], map[];
    }

    /** An authorized stream is opened even when the limiter refuses it, and is then not counted. */
    method Open(ip: string, authorized: bool) returns (accepted: bool)
      requires Valid()
      modifies this, limiter
      ensures Valid() && (accepted <==> old(limiter.Admits(ip)) || authorized)
      ensures limiter.ipConnections == if old(limiter.Admits(ip))
        then old(limiter.ipConnections)[ip := Count(old(limiter.ipConnections), ip) + 1] else old(limiter.ipConnections)
      ensures open == if accepted then old(open)[ip := Count(old(open), ip) + 1] else old(open)
      ensures uncounted == if accepted && !old(limiter.Admits(ip))
        then old(uncounted)[ip := Count(old(uncounted), ip) + 1] else old(uncounted)
    {
      var allowed := limiter.AddConnection(ip);
      accepted := allowed || authorized;
      if accepted {
        open := open[ip := Count(open, ip) + 1];
        if !allowed {
          uncounted := uncounted[ip := Count(uncounted, ip) + 1];
        }
      }
      assert forall x :: old(Accounted(x)) ==> Accounted(x);
    }

    /** Closing takes a connection off the count, whichever stream it is, unless the count is zero. */
    method Close(ip: string)
      requires Valid() && Count(open, ip) > 0
      modifies this, limiter
      ensures Valid() && open == old(open)[ip := Count(old(open), ip) - 1]
      ensures limiter.ipConnections == if Count(old(limiter.ipConnections), ip) > 0
        then old(limiter.ipConnections)[ip := Count(old(limiter.ipConnections), ip) - 1] else old(limiter.ipConnections)
      ensures Count(old(limiter.ipConnections), ip) == 0 ==>
        Count(old(uncounted), ip) > 0 && uncounted == old(uncounted)[ip := Count(old(uncounted), ip) - 1]
      ensures Count(old(limiter.ipConnections), ip) > 0 ==> uncounted == old(uncounted)
      ensures Count(open, ip) == 0 ==> Count(limiter.ipConnections, ip) == Count(uncounted, ip) == 0
    {
      assert Accounted(ip);
      if Count(limiter.ipConnections, ip) == 0 {
        uncounted := uncounted[ip := Count(uncounted, ip) - 1];
      }
      limiter.RemoveConnection(ip);
      open := open[ip := Count(open, ip) - 1];
      assert forall x :: old(Accounted(x)) ==> Accounted(x);
    }

    /** Clearing the limiter leaves every open stream uncounted. */
    method Clear()
      requires Valid()
      modifies this, limiter
      ensures Valid() && limiter.ipConnections == map[] && open == old(open) && uncounted == open
    {
      limiter.Clear();
      uncounted := open;
    }

    /**
     * The limiter knows an address's open streams exactly if and only if none is uncounted, and
     * then its limit bounds them; in general it bounds them up to the uncounted ones.
     */
    lemma CountIsExact(ip: string)
      requires Valid()
      ensures Count(limiter.ipConnections, ip) == Count(open, ip) <==> Count(uncounted, ip) == 0
      ensures Count(limiter.ipConnections, ip) <= Count(open, ip)
      ensures !IsLoopback(ip) ==> Count(open, ip) <= limiter.perIpLimit + Count(uncounted, ip)
    {
      assert Accounted(ip);
    }

    /**
     * An unauthorized stream gets in beside as many open streams as the limit allows, or more, if
     * and only if enough of them are uncounted, the server having room.
     */
    lemma AdmitsBeyondLimit(ip: string)
      requires Valid() && !IsLoopback(ip) && limiter.totalConnections < limiter.globalLimit
      ensures limiter.Admits(ip) && Count(open, ip) >= limiter.perIpLimit <==>
        Count(open, ip) - Count(uncounted, ip) < limiter.perIpLimit <= Count(open, ip)
    {
      assert Accounted(ip);
    }

    /** The open streams of all addresses exceed what the limiter counts by the uncounted ones. */
    lemma TotalIsExact()
      requires Valid()
      ensures Sum(open) == limiter.totalConnections + Sum(uncounted)
      ensures Sum(open) <= limiter.globalLimit + Sum(uncounted)
    {
      forall ip
        ensures Count(limiter.ipConnections, ip) + Count(uncounted, ip) == Count(open, ip)
      {
        assert Accounted(ip);
      }
      SumOfSums(limiter.ipConnections, uncounted, open);
    }
  }

  lemma {:induction false} SumZero(counts: Counts)
    requires forall ip :: Count(counts, ip) == 0
    ensures Sum(counts) == 0
    decreases |counts|
  {
    if counts != map[] {
      var ip :| ip in counts && Sum(counts) == counts[ip] + Sum(counts - {ip});
      assert Count(counts, ip) == 0;
      forall x
        ensures Count(counts - {ip}, x) == 0
      {
        assert Count(counts, x) == 0;
      }
      SumZero(counts - {ip});
    }
  }

  /** Sums add up when the counts do, address by address. */
  lemma {:induction false} SumOfSums(a: Counts, b: Counts, c: Counts)
    requires forall ip :: Count(a, ip) + Count(b, ip) == Count(c, ip)
    ensures Sum(a) + Sum(b) == Sum(c)
    decreases |c|
  {
    if c == map[] {
      assert forall ip :: Count(c, ip) == 0;
      SumZero(a);
      SumZero(b);
    } else {
      var ip :| ip in c;
      SumUpdate(a, ip, 0);
      SumUpdate(b, ip, 0);
      SumRemove(c, ip);
      forall x
        ensures Count(a[ip := 0], x) + Count(b[ip := 0], x) == Count(c - {ip}, x)
      {
        assert Count(a, x) + Count(b, x) == Count(c, x);
      }
      SumOfSums(a[ip := 0], b[ip := 0], c - {ip});
    }
  }

  /**
   * With one stream allowed per address, an authorized stream that comes and goes lets a second
   * unauthorized one in: the close took the first stream off the count.
   */
  method UndercountAdmitsExtra() returns (s: Subscriptions, first: bool, second: bool)
    ensures s.limiter.perIpLimit == 1 && first && second
    ensures s.Valid() && Count(s.open, "10.0.0.1") == 2 && Count(s.uncounted, "10.0.0.1") == 1
  {
    var ip := "10.0.0.1";
    assert ip[0] == '1' && ip[1] == '0' && !IsLoopback(ip);
    s := new Subscriptions(1, 10);
    assert Sum(s.limiter.ipConnections) == 0;
    SumUpdate(s.limiter.ipConnections, ip, 1);
    first := s.Open(ip, false);
    SumUpdate(s.limiter.ipConnections, ip, 0);
    var third := s.Open(ip, true);
    s.Close(ip);
    second := s.Open(ip, false);
  }
}
