/** internal/proxy/pool.go: the pool of proxies, its rotation and its reload. */
module ProxyPool {
  import opened Commons
  import opened Outcomes
  import opened ProxyHealth

  // ------------------------------------------------------------ rotation

  /** Which proxies were found available when proxy k was looked at at time readings[k]. */
  function Free(untils: seq<int>, readings: seq<int>): seq<bool>
    requires |readings| == |untils|
  {
    seq(|untils|, k requires 0 <= k < |untils| => untils[k] <= readings[k])
  }

  function Succ(i: nat, n: nat): (j: nat)
    requires i < n
    ensures j == if i + 1 < n then i + 1 else 0
  {
    (i + 1) % n
  }

  /** The first of `left` positions from `idx` on, in cyclic order, that is free. */
  function Pick(free: seq<bool>, idx: nat, left: nat): (r: Option<nat>)
    requires idx < |free|
    ensures r.Some? ==> r.value < |free| && free[r.value]
    decreases left
  {
    if left == 0 then None else if free[idx] then Some(idx) else Pick(free, Succ(idx, |free|), left - 1)
  }

  /** How many steps of the index lead from `idx` to `k`. */
  function Distance(idx: nat, k: nat, n: nat): (d: nat)
    requires idx < n && k < n
    ensures d < n
  {
    if k >= idx then k - idx else k + n - idx
  }

  lemma {:induction false} PickWithin(free: seq<bool>, idx: nat, left: nat)
    requires idx < |free| && left <= |free|
    ensures var r := Pick(free, idx, left);
            && (r.Some? ==> Distance(idx, r.value, |free|) < left)
            && forall j: nat :: j < |free| && Distance(idx, j, |free|) < left && free[j] ==>
                 r.Some? && Distance(idx, r.value, |free|) <= Distance(idx, j, |free|)
    decreases left
  {
    if left > 0 && !free[idx] {
      PickWithin(free, Succ(idx, |free|), left - 1);
    }
  }

  /** Round robin takes the first free proxy in cyclic order from the index, and fails only if none is. */
  lemma PickIsFirstFree(free: seq<bool>, idx: nat, k: nat)
    requires idx < |free| && k < |free|
    ensures Pick(free, idx, |free|) == Some(k) <==>
            free[k] && forall j: nat :: j < |free| && Distance(idx, j, |free|) < Distance(idx, k, |free|) ==> !free[j]
    ensures Pick(free, idx, |free|).None? <==> forall j: nat :: j < |free| ==> !free[j]
  {
    PickWithin(free, idx, |free|);
  }

  /** What round robin takes has no cooldown that ends after it was looked at, and it fails only if all have. */
  lemma PickIsNotCooling(untils: seq<int>, readings: seq<int>, idx: nat)
    requires |readings| == |untils| && idx < |untils|
    ensures var r := Pick(Free(untils, readings), idx, |untils|);
            && (r.Some? ==> readings[r.value] >= untils[r.value])
            && (r.None? <==> forall k :: 0 <= k < |untils| ==> readings[k] < untils[k])
  {
    var free := Free(untils, readings);
    PickIsFirstFree(free, idx, 0);
    assert forall k :: 0 <= k < |untils| ==> (free[k] <==> untils[k] <= readings[k]);
  }

  /** Where the index is after a pick. */
  function IndexAfter(pick: Option<nat>, idx: nat, n: nat): (i: nat)
    requires idx < n && (pick.Some? ==> pick.value < n)
    ensures i < n
  {
    if pick.Some? then Succ(pick.value, n) else idx
  }

  /** The picks of successive calls of Next, the c-th of which finds frees[c]. */
  function Picks(frees: seq<seq<bool>>, idx: nat, n: nat): (picks: seq<Option<nat>>)
    requires idx < n && forall c :: 0 <= c < |frees| ==> |frees[c]| == n
    ensures |picks| == |frees|
  {
    if frees == [] then []
    else
      var pick := Pick(frees[0], idx, n);
      [pick] + Picks(frees[1..], IndexAfter(pick, idx, n), n)
  }

  lemma {:induction false} PickedWithin(frees: seq<seq<bool>>, idx: nat, n: nat, k: nat)
    requires idx < n && k < n
    requires forall c :: 0 <= c < |frees| ==> |frees[c]| == n && frees[c][k]
    requires Distance(idx, k, n) < |frees|
    ensures Some(k) in Picks(frees, idx, n)
  {
    PickWithin(frees[0], idx, n);
    var pick := Pick(frees[0], idx, n);
    if pick != Some(k) {
      PickedWithin(frees[1..], IndexAfter(pick, idx, n), n, k);
    }
  }

  /** Round robin is fair: a proxy that stays available is picked in any n calls in a row, whatever the
      cooldowns of the others do. */
  lemma RoundRobinIsFair(frees: seq<seq<bool>>, idx: nat, n: nat, k: nat)
    requires idx < n && k < n && |frees| == n
    requires forall c :: 0 <= c < |frees| ==> |frees[c]| == n && frees[c][k]
    ensures Some(k) in Picks(frees, idx, n)
  {
    PickedWithin(frees, idx, n, k);
  }

  // --------------------------------------------------------------- class

  class Proxy {
    const url: string
    var consecutiveFails: nat
    var bannedUntil: int
    var banStreak: nat
    var totalSuccess: nat
    var totalFailure: nat

    constructor (u: string)
      ensures url == u && State() == CLEAN
    {
      url := u;
      consecutiveFails, bannedUntil, banStreak, totalSuccess, totalFailure := 0, 0, 0, 0, 0;
    }

    function State(): Health
      reads this
    {
      Health(consecutiveFails, bannedUntil, banStreak, totalSuccess, totalFailure)
    }

    predicate IsBanned(now: int)
      reads this
    {
      now < bannedUntil
    }
  }

  function Untils(ps: seq<Proxy>): (us: seq<int>)
    reads ps
    ensures |us| == |ps| && forall k :: 0 <= k < |ps| ==> us[k] == ps[k].bannedUntil
  {
    seq(|ps|, k requires 0 <= k < |ps| reads ps => ps[k].bannedUntil)
  }

  /** The list a pool works with: no proxies at all means one direct connection. */
  function Effective(urls: seq<string>): (us: seq<string>)
    ensures us != []
  {
    if urls == [] then [""] else urls
  }

  /** The index of proxies by URL: of several with one URL the last. */
  function Index(urls: seq<string>, proxies: seq<Proxy>): (m: map<string, Proxy>)
    requires |urls| == |proxies|
  {
    if urls == [] then map[]
    else
      var n := |urls| - 1;
      Index(urls[..n], proxies[..n])[urls[n] := proxies[n]]
  }

  lemma IndexMore(urls: seq<string>, n: nat, proxies: seq<Proxy>, p: Proxy)
    requires n < |urls| && |proxies| == n
    ensures Index(urls[..n + 1], proxies + [p]) == Index(urls[..n], proxies)[urls[n] := p]
  {
    assert urls[..n + 1][..n] == urls[..n] && (proxies + [p])[..n] == proxies;
  }

  /** Proxy `p` stands at a position of `u`. */
  ghost predicate StandsFor(urls: seq<string>, proxies: seq<Proxy>, u: string, p: Proxy)
    requires |urls| == |proxies|
  {
    exists k :: 0 <= k < |urls| && urls[k] == u && proxies[k] == p
  }

  lemma {:induction false} IndexFinds(urls: seq<string>, proxies: seq<Proxy>)
    requires |urls| == |proxies|
    ensures forall u :: u in urls <==> u in Index(urls, proxies)
    ensures forall u :: u in Index(urls, proxies) ==> StandsFor(urls, proxies, u, Index(urls, proxies)[u])
  {
    if urls != [] {
      var n := |urls| - 1;
      IndexFinds(urls[..n], proxies[..n]);
      assert urls == urls[..n] + [urls[n]];
      forall u | u in Index(urls, proxies)
        ensures StandsFor(urls, proxies, u, Index(urls, proxies)[u])
      {
        if u != urls[n] {
          var front := Index(urls[..n], proxies[..n]);
          assert u in front && Index(urls, proxies)[u] == front[u];
          assert StandsFor(urls[..n], proxies[..n], u, front[u]);
          var k :| 0 <= k < n && urls[..n][k] == u && proxies[..n][k] == Index(urls, proxies)[u];
          assert urls[k] == u && proxies[k] == Index(urls, proxies)[u];
        }
      }
    }
  }

  lemma IndexIsByURL(urls: seq<string>, proxies: seq<Proxy>)
    requires |urls| == |proxies| && forall k :: 0 <= k < |urls| ==> proxies[k].url == urls[k]
    ensures var m := Index(urls, proxies);
            && (forall p :: p in proxies ==> p.url in m)
            && (forall u :: u in m ==> m[u].url == u && m[u] in proxies)
  {
    IndexFinds(urls, proxies);
  }

  /** The reports that bring a cooldown which escalates, after `fails` failures in a row. */
  predicate CallsForMore(policy: Policy, report: Report, retryAfter: int, fails: nat) {
    || report.WasBlocked?
    || (report.WasRateLimited? && retryAfter <= 0)
    || (report.Failed? && 0 < policy.threshold <= fails + 1)
  }

  function Latest(a: int, b: int): int {
    if a < b then b else a
  }

  class Pool {
    const policy: Policy
    var proxies: seq<Proxy>
    var byURL: map<string, Proxy>
    var idx: nat

    ghost predicate Valid()
      reads this
    {
      && idx < |proxies|
      && (forall p :: p in proxies ==> p.url in byURL)
      && (forall u :: u in byURL ==> byURL[u].url == u && byURL[u] in proxies)
    }

    constructor (urls: seq<string>, settings: Policy)
      ensures Valid() && policy == settings && idx == 0
      ensures |proxies| == |Effective(urls)|
      ensures forall i :: 0 <= i < |proxies| ==> proxies[i].url == Effective(urls)[i]
      ensures forall i :: 0 <= i < |proxies| ==> fresh(proxies[i]) && proxies[i].State() == CLEAN
      ensures forall i, j :: 0 <= i < j < |proxies| ==> proxies[i] != proxies[j]
      ensures byURL == Index(Effective(urls), proxies)
    {
      policy, idx := settings, 0;
      var us := Effective(urls);
      var ps: seq<Proxy>, byUrl: map<string, Proxy> := [], map[];
      for i := 0 to |us|
        invariant |ps| == i
        invariant forall k :: 0 <= k < i ==> fresh(ps[k]) && ps[k].url == us[k] && ps[k].State() == CLEAN
        invariant forall j, k :: 0 <= j < k < i ==> ps[j] != ps[k]
        invariant byUrl == Index(us[..i], ps)
      {
        var p := new Proxy(us[i]);
        IndexMore(us, i, ps, p);
        ps, byUrl := ps + [p], byUrl[us[i] := p];
      }
      assert us[..|us|] == us;
      IndexIsByURL(us, ps);
      proxies, byURL := ps, byUrl;
    }

    /** Proxies that stay keep their object and with it their history; the others start clean. */
    method Reload(urls: seq<string>)
      requires Valid()
      modifies this
      ensures Valid() && idx == 0
      ensures |proxies| == |Effective(urls)|
      ensures forall i :: 0 <= i < |proxies| ==> proxies[i].url == Effective(urls)[i]
      ensures forall i :: 0 <= i < |proxies| && proxies[i].url in old(byURL) ==>
                proxies[i] == old(byURL)[proxies[i].url]
      ensures forall i :: 0 <= i < |proxies| && proxies[i].url !in old(byURL) ==>
                fresh(proxies[i]) && proxies[i].State() == CLEAN
      ensures byURL == Index(Effective(urls), proxies)
    {
      var us := Effective(urls);
      var ps: seq<Proxy>, byUrl: map<string, Proxy> := [], map[];
      for i := 0 to |us|
        invariant byURL == old(byURL) && Valid()
        invariant |ps| == i
        invariant forall k :: 0 <= k < i ==> ps[k].url == us[k]
        invariant forall k :: 0 <= k < i ==>
                    if us[k] in byURL then ps[k] == byURL[us[k]] else fresh(ps[k]) && ps[k].State() == CLEAN
        invariant byUrl == Index(us[..i], ps)
      {
        var p;
        if us[i] in byURL {
          p := byURL[us[i]];
        } else {
          p := new Proxy(us[i]);
        }
        IndexMore(us, i, ps, p);
        ps, byUrl := ps + [p], byUrl[us[i] := p];
      }
      assert us[..|us|] == us;
      IndexIsByURL(us, ps);
      proxies, byURL, idx := ps, byUrl, 0;
    }

    /** One proxy looked at, and the index moved on. */
    method LookAtNext(readings: seq<int>) returns (r: Option<Proxy>)
      requires Valid() && |readings| == |proxies|
      modifies this`idx
      ensures Valid() && idx == Succ(old(idx), |proxies|)
      ensures r == if proxies[old(idx)].bannedUntil <= readings[old(idx)] then Some(proxies[old(idx)]) else None
    {
      var p, k := proxies[idx], idx;
      idx := Succ(idx, |proxies|);
      r := if p.IsBanned(readings[k]) then None else Some(p);
    }

    /** nextRoundRobinLocked, with the time at which each proxy is looked at. */
    method NextRoundRobin(readings: seq<int>) returns (r: Option<Proxy>)
      requires Valid() && |readings| == |proxies|
      modifies this`idx
      ensures Valid()
      ensures var pick := Pick(Free(Untils(proxies), readings), old(idx), |proxies|);
              && r == (if pick.Some? then Some(proxies[pick.value]) else None)
              && idx == IndexAfter(pick, old(idx), |proxies|)
    {
      var n := |proxies|;
      ghost var free := Free(Untils(proxies), readings);
      for i := 0 to n
        invariant Valid()
        invariant Pick(free, idx, n - i) == Pick(free, old(idx), n)
        invariant idx == if old(idx) + i < n then old(idx) + i else old(idx) + i - n
      {
        var p := LookAtNext(readings);
        if p.Some? {
          return p;
        }
      }
      r := None;
    }

    /** nextRandomLocked: any of the proxies that were available when looked at. */
    method NextRandom(readings: seq<int>) returns (r: Option<Proxy>)
      requires Valid() && |readings| == |proxies|
      ensures r.Some? ==> exists k :: 0 <= k < |proxies| && proxies[k] == r.value && r.value.bannedUntil <= readings[k]
      ensures r.None? ==> forall k :: 0 <= k < |proxies| ==> proxies[k].IsBanned(readings[k])
    {
      var healthy: seq<nat> := [];
      for i := 0 to |proxies|
        invariant forall h :: 0 <= h < |healthy| ==>
                    healthy[h] < |proxies| && proxies[healthy[h]].bannedUntil <= readings[healthy[h]]
        invariant healthy == [] ==> forall k :: 0 <= k < i ==> proxies[k].IsBanned(readings[k])
      {
        if !proxies[i].IsBanned(readings[i]) {
          healthy := healthy + [i];
        }
      }
      if |healthy| == 0 {
        return None;
      }
      var chosen :| 0 <= chosen < |healthy|;
      r := Some(proxies[healthy[chosen]]);
    }

    /** None if a proxy is available, else the end of the cooldown that ends first. */
    method NextAvailableAt(now: int) returns (at: Option<int>)
      requires Valid()
      ensures at.None? <==> exists p :: p in proxies && !p.IsBanned(now)
      ensures at.Some? ==>
                && (forall p :: p in proxies ==> now < at.value <= p.bannedUntil)
                && exists p :: p in proxies && p.bannedUntil == at.value
    {
      at := None;
      for i := 0 to |proxies|
        invariant i == 0 <==> at.None?
        invariant at.Some? ==> forall k :: 0 <= k < i ==> now < at.value <= proxies[k].bannedUntil
        invariant at.Some? ==> exists k :: 0 <= k < i && proxies[k].bannedUntil == at.value
      {
        var until := proxies[i].bannedUntil;
        if now >= until {
          assert proxies[i] in proxies && !proxies[i].IsBanned(now);
          return None;
        }
        if at.None? || until < at.value {
          at := Some(until);
        }
      }
    }

    /** ReportOutcome, also for a proxy that Reload has dropped meanwhile. */
    method Report(p: Proxy, report: Report, retryAfter: int, now: int) returns (cooled: bool)
      modifies p
      ensures Reported(p.State(), cooled) == ReportOutcome(policy, old(p.State()), report, retryAfter, now)
      ensures Fits(policy) && CallsForMore(policy, report, retryAfter, old(p.consecutiveFails)) ==>
                && p.bannedUntil == Latest(old(p.bannedUntil), now + Documented(policy, old(p.banStreak)))
                && p.banStreak == old(p.banStreak) + 1
    {
      if report.Succeeded? {
        p.consecutiveFails, p.banStreak, p.totalSuccess := 0, 0, (p.totalSuccess + 1) % TWO_64;
        return false;
      }
      if report.Neutral? {
        return false;
      }
      p.totalFailure := (p.totalFailure + 1) % TWO_64;
      if report.WasRateLimited? && retryAfter > 0 {
        cooled := Cool(p, retryAfter, now);
        return;
      }
      if report.Failed? {
        p.consecutiveFails := p.consecutiveFails + 1;
        if !(policy.threshold > 0 && p.consecutiveFails >= policy.threshold) {
          return false;
        }
      }
      var d := EscalatedCooldown(p);
      cooled := Cool(p, d, now);
    }

    method EscalatedCooldown(p: Proxy) returns (d: int)
      modifies p
      ensures d == Escalated(policy, old(p.banStreak))
      ensures Fits(policy) ==> d == Documented(policy, old(p.banStreak))
      ensures p.State() == old(p.State()).(streak := old(p.banStreak) + 1)
    {
      if Fits(policy) {
        DocumentedIfFits(policy, p.banStreak);
      }
      var max := Cap(policy);
      d := policy.base;
      var i := 0;
      while i < p.banStreak && d < max
        invariant i <= p.banStreak && p.State() == old(p.State())
        invariant Doubling(d, p.banStreak - i, max) == Doubling(policy.base, p.banStreak, max)
      {
        d := Int64(d * 2);
        i := i + 1;
      }
      if d > max {
        d := max;
      }
      p.banStreak := p.banStreak + 1;
    }

    method Cool(p: Proxy, d: int, now: int) returns (cooled: bool)
      modifies p
      ensures Reported(p.State(), cooled) == ProxyHealth.Cool(old(p.State()), d, now)
    {
      cooled := !p.IsBanned(now);
      if now + d > p.bannedUntil {
        p.bannedUntil := now + d;
      }
      p.consecutiveFails := 0;
    }
  }
}
