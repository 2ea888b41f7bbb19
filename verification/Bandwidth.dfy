/**
 The link measurement: which speed-test servers are used and which figure is
 reported. The network side is a parameter: what the server list holds, what
 accurate pings find, what each test gives and when the measurement is told
 to stop. Rates are reals.
 */
module Bandwidth {
  import opened Basics
  import opened Text

  const MILLISECOND := 1_000_000
  const FACILITY_FLOOR := 2 * MILLISECOND
  const BUILDING_FLOOR := MILLISECOND
  const REFINE_BATCH := 10
  const REFINE_LIMIT := 30
  const WANT_QUALIFYING := 3
  const MAX_QUALIFYING := 5
  const MAX_SAMPLES := 3
  const AGREEMENT := 0.7

  datatype Candidate = Candidate(id: string, name: string, sponsor: string, latency: int, minLatency: int)

  datatype Sample = Sample(upload: real, download: real)

  datatype Prober = Prober(
    listing: Option<seq<Candidate>>,
    refine: seq<Candidate> -> seq<Candidate>,
    test: Candidate -> Option<Sample>,
    stopRefining: nat -> bool,
    stopTesting: nat -> bool)

  datatype Result = NoFigure | Measured(upload: int, download: int)

  /** Sponsor and city, without regard to case. */
  function Site(c: Candidate): string { LowerCase(c.sponsor + "|" + c.name) }

  predicate Clears(c: Candidate, floor: int) { c.minLatency >= floor }

  // ---- order by latency ----

  predicate Ordered(cs: seq<Candidate>) { forall i, j :: 0 <= i < j < |cs| ==> cs[i].latency <= cs[j].latency }

  function Insert(c: Candidate, cs: seq<Candidate>): seq<Candidate> {
    if cs != [] && cs[|cs| - 1].latency > c.latency
    then Insert(c, cs[..|cs| - 1]) + [cs[|cs| - 1]]
    else cs + [c]
  }

  /** Stable: a server goes behind those of equal latency before it. */
  function ByLatency(cs: seq<Candidate>): seq<Candidate> {
    if cs == [] then [] else Insert(cs[|cs| - 1], ByLatency(cs[..|cs| - 1]))
  }

  lemma OneMore(cs: seq<Candidate>, last: Candidate, c: Candidate)
    ensures multiset(cs + [last]) == multiset(cs) + multiset{last}
    ensures multiset(cs + [last])[c] == multiset(cs)[c] + if c == last then 1 else 0
  {
  }

  lemma {:induction false} InsertKeeps(c: Candidate, cs: seq<Candidate>)
    ensures multiset(Insert(c, cs)) == multiset(cs) + multiset{c}
    ensures forall x :: x in Insert(c, cs) ==> x == c || x in cs
  {
    if cs != [] && cs[|cs| - 1].latency > c.latency {
      InsertKeeps(c, cs[..|cs| - 1]);
      assert cs == cs[..|cs| - 1] + [cs[|cs| - 1]];
    }
  }

  lemma {:induction false} InsertOrders(c: Candidate, cs: seq<Candidate>)
    requires Ordered(cs)
    ensures Ordered(Insert(c, cs))
  {
    if cs != [] && cs[|cs| - 1].latency > c.latency {
      var front, last := cs[..|cs| - 1], cs[|cs| - 1];
      InsertOrders(c, front);
      InsertKeeps(c, front);
      var r := Insert(c, front);
      forall i | 0 <= i < |r| ensures r[i].latency <= last.latency {
        assert r[i] in r;
      }
    }
  }

  lemma LastOut(cs: seq<Candidate>)
    requires cs != []
    ensures multiset(cs) == multiset(cs[..|cs| - 1]) + multiset{cs[|cs| - 1]}
  {
    assert cs == cs[..|cs| - 1] + [cs[|cs| - 1]];
  }

  lemma {:induction false} SameServers(cs: seq<Candidate>)
    ensures multiset(ByLatency(cs)) == multiset(cs)
  {
    if cs != [] {
      SameServers(cs[..|cs| - 1]);
      InsertKeeps(cs[|cs| - 1], ByLatency(cs[..|cs| - 1]));
      LastOut(cs);
    }
  }

  lemma {:induction false} InOrder(cs: seq<Candidate>)
    ensures Ordered(ByLatency(cs))
  {
    if cs != [] {
      InOrder(cs[..|cs| - 1]);
      InsertOrders(cs[|cs| - 1], ByLatency(cs[..|cs| - 1]));
    }
  }

  lemma ByLatencyOrders(cs: seq<Candidate>)
    ensures Ordered(ByLatency(cs)) && multiset(ByLatency(cs)) == multiset(cs)
  {
    SameServers(cs);
    InOrder(cs);
  }

  /** How often a server is among the first n. */
  function Times(cs: seq<Candidate>, n: nat, c: Candidate): nat
    requires n <= |cs|
  {
    if n == 0 then 0 else Times(cs, n - 1, c) + if cs[n - 1] == c then 1 else 0
  }

  lemma {:induction false} TimesPrefix(a: seq<Candidate>, b: seq<Candidate>, n: nat, c: Candidate)
    requires n <= |a|
    ensures Times(a + b, n, c) == Times(a, n, c)
  {
    if n > 0 { TimesPrefix(a, b, n - 1, c); }
  }

  lemma TimesMore(cs: seq<Candidate>, last: Candidate, c: Candidate)
    ensures Times(cs + [last], |cs| + 1, c) == Times(cs, |cs|, c) + if last == c then 1 else 0
  {
    TimesPrefix(cs, [last], |cs|, c);
  }

  lemma {:induction false} TimesInAll(cs: seq<Candidate>, c: Candidate)
    ensures multiset(cs)[c] == Times(cs, |cs|, c)
  {
    if cs != [] {
      var front, last := cs[..|cs| - 1], cs[|cs| - 1];
      assert cs == front + [last];
      TimesInAll(front, c);
      TimesMore(front, last, c);
      OneMore(front, last, c);
    }
  }

  function IfOf(c: Candidate, latency: int): seq<Candidate> { if c.latency == latency then [c] else [] }

  /** The servers of one latency, in order. */
  function OfLatency(cs: seq<Candidate>, latency: int): seq<Candidate> {
    if cs == [] then [] else OfLatency(cs[..|cs| - 1], latency) + IfOf(cs[|cs| - 1], latency)
  }

  lemma OfLatencyMore(cs: seq<Candidate>, c: Candidate, latency: int)
    ensures OfLatency(cs + [c], latency) == OfLatency(cs, latency) + IfOf(c, latency)
  {
    assert (cs + [c])[..|cs|] == cs;
  }

  lemma Exchange(a: seq<Candidate>, c: Candidate, d: Candidate, latency: int)
    requires c.latency != d.latency
    ensures a + IfOf(c, latency) + IfOf(d, latency) == a + IfOf(d, latency) + IfOf(c, latency)
  {
  }

  lemma {:induction false} InsertStable(c: Candidate, cs: seq<Candidate>, latency: int)
    ensures OfLatency(Insert(c, cs), latency) == OfLatency(cs, latency) + IfOf(c, latency)
  {
    if cs != [] && cs[|cs| - 1].latency > c.latency {
      var front, last := cs[..|cs| - 1], cs[|cs| - 1];
      InsertStable(c, front, latency);
      OfLatencyMore(Insert(c, front), last, latency);
      Exchange(OfLatency(front, latency), c, last, latency);
    } else {
      OfLatencyMore(cs, c, latency);
    }
  }

  /** Servers of equal latency stay in the order they were in. */
  lemma {:induction false} ByLatencyStable(cs: seq<Candidate>, latency: int)
    ensures OfLatency(ByLatency(cs), latency) == OfLatency(cs, latency)
  {
    if cs != [] {
      ByLatencyStable(cs[..|cs| - 1], latency);
      InsertStable(cs[|cs| - 1], ByLatency(cs[..|cs| - 1]), latency);
    }
  }

  // ---- the shortlist ----

  /** The nearest server of its site that clears the floor. */
  predicate Nearest(cs: seq<Candidate>, i: nat, floor: int) {
    i < |cs| && Clears(cs[i], floor) && forall j :: 0 <= j < i && Clears(cs[j], floor) ==> Site(cs[j]) != Site(cs[i])
  }

  /** The nearest servers of their sites among the first n, in order. */
  function Picked(cs: seq<Candidate>, floor: int, n: nat): seq<Candidate>
    requires n <= |cs|
  {
    if n == 0 then []
    else Picked(cs, floor, n - 1) + if Nearest(cs, n - 1, floor) then [cs[n - 1]] else []
  }

  lemma {:induction false} PickedApart(cs: seq<Candidate>, floor: int, n: nat)
    requires n <= |cs|
    ensures forall i :: 0 <= i < |Picked(cs, floor, n)| ==> Clears(Picked(cs, floor, n)[i], floor)
    ensures forall i :: 0 <= i < |Picked(cs, floor, n)| ==> Picked(cs, floor, n)[i] in cs[..n]
    ensures forall i, j :: 0 <= i < j < |Picked(cs, floor, n)| ==>
      Site(Picked(cs, floor, n)[i]) != Site(Picked(cs, floor, n)[j])
  {
    if n > 0 {
      PickedApart(cs, floor, n - 1);
      assert forall c :: c in cs[..n - 1] ==> c in cs[..n];
    }
  }

  lemma {:induction false} PickedGrows(cs: seq<Candidate>, floor: int, n: nat, m: nat)
    requires n <= m <= |cs|
    ensures Picked(cs, floor, n) <= Picked(cs, floor, m)
    decreases m
  {
    if n < m {
      PickedGrows(cs, floor, n, m - 1);
    }
  }

  /** Nothing is picked only when no server clears the floor. */
  lemma {:induction false} NonePicked(cs: seq<Candidate>, floor: int, n: nat)
    requires n <= |cs|
    ensures Picked(cs, floor, n) == [] <==> forall i :: 0 <= i < n ==> !Clears(cs[i], floor)
  {
    if n > 0 {
      NonePicked(cs, floor, n - 1);
    }
  }

  function FirstFive(cs: seq<Candidate>): seq<Candidate> { if |cs| > MAX_QUALIFYING then cs[..MAX_QUALIFYING] else cs }

  method Shortlist(cs: seq<Candidate>, floor: int) returns (list: seq<Candidate>)
    ensures list == FirstFive(Picked(cs, floor, |cs|))
  {
    list := [];
    var seen: set<string> := {};
    for i := 0 to |cs|
      invariant list == Picked(cs, floor, i) && |list| < MAX_QUALIFYING
      invariant forall s :: s in seen <==> exists j :: 0 <= j < i && Clears(cs[j], floor) && Site(cs[j]) == s
    {
      if !Clears(cs[i], floor) || Site(cs[i]) in seen {
        continue;
      }
      seen := seen + {Site(cs[i])};
      list := list + [cs[i]];
      if |list| == MAX_QUALIFYING {
        PickedGrows(cs, floor, i + 1, |cs|);
        return;
      }
    }
  }

  // ---- the tests ----

  predicate Positive(s: Option<Sample>) { s.Some? && s.value.upload > 0.0 && s.value.download > 0.0 }

  /** The samples of the servers that gave one, in order. */
  function Samples(p: Prober, servers: seq<Candidate>): (r: seq<Sample>)
    ensures forall s :: s in r ==> s.upload > 0.0 && s.download > 0.0
  {
    if servers == [] then []
    else
      var last := p.test(servers[|servers| - 1]);
      Samples(p, servers[..|servers| - 1]) + if Positive(last) then [last.value] else []
  }

  /** A server's sample counts exactly when its test gave one with both rates above zero. */
  lemma SampleCounts(p: Prober, servers: seq<Candidate>, c: Candidate)
    ensures Samples(p, servers + [c]) ==
      var s := p.test(c);
      Samples(p, servers) + (if s.Some? && s.value.upload > 0.0 && s.value.download > 0.0 then [s.value] else [])
  {
    assert (servers + [c])[..|servers|] == servers;
  }

  predicate AllUp(samples: seq<Sample>, low: real) { forall s :: s in samples ==> low <= s.upload }

  predicate AllDown(samples: seq<Sample>, low: real) { forall s :: s in samples ==> low <= s.download }

  /** The smallest is no less than the given share of the largest, in both directions. */
  predicate Agree(samples: seq<Sample>) {
    |samples| >= 2 && forall s, t :: s in samples && t in samples ==>
      s.upload >= AGREEMENT * t.upload && s.download >= AGREEMENT * t.download
  }

  predicate Enough(samples: seq<Sample>) { |samples| >= MAX_SAMPLES || Agree(samples) }

  lemma Share(low: real, high: real)
    requires high > 0.0
    ensures low / high >= AGREEMENT <==> low >= AGREEMENT * high
  {
  }

  /** Compares the smallest and the largest rate of each direction. */
  method Agreed(samples: seq<Sample>) returns (yes: bool)
    requires forall s :: s in samples ==> s.upload > 0.0 && s.download > 0.0
    ensures yes <==> Agree(samples)
  {
    if |samples| < 2 {
      return false;
    }
    var minUp, maxUp := samples[0].upload, samples[0].upload;
    var minDown, maxDown := samples[0].download, samples[0].download;
    assert samples[0] in samples;
    ghost var a, b, c, d := samples[0], samples[0], samples[0], samples[0];
    for i := 1 to |samples|
      invariant a in samples && b in samples && c in samples && d in samples
      invariant minUp == a.upload && maxUp == b.upload && minDown == c.download && maxDown == d.download
      invariant forall k :: 0 <= k < i ==> minUp <= samples[k].upload <= maxUp
      invariant forall k :: 0 <= k < i ==> minDown <= samples[k].download <= maxDown
    {
      var s := samples[i];
      assert s in samples;
      if s.upload < minUp { minUp, a := s.upload, s; }
      if s.upload > maxUp { maxUp, b := s.upload, s; }
      if s.download < minDown { minDown, c := s.download, s; }
      if s.download > maxDown { maxDown, d := s.download, s; }
    }
    Share(minUp, maxUp);
    Share(minDown, maxDown);
    yes := minUp / maxUp >= AGREEMENT && minDown / maxDown >= AGREEMENT;
    if yes {
      forall s, t | s in samples && t in samples
        ensures s.upload >= AGREEMENT * t.upload && s.download >= AGREEMENT * t.download
      {
        assert AGREEMENT * t.upload <= AGREEMENT * maxUp && AGREEMENT * t.download <= AGREEMENT * maxDown;
      }
    }
  }

  method Lowest(samples: seq<Sample>) returns (up: real, down: real)
    requires samples != []
    ensures AllUp(samples, up) && AllDown(samples, down)
    ensures (exists s :: s in samples && s.upload == up) && (exists s :: s in samples && s.download == down)
  {
    up, down := samples[0].upload, samples[0].download;
    assert samples[0] in samples;
    for i := 1 to |samples|
      invariant forall k :: 0 <= k < i ==> up <= samples[k].upload && down <= samples[k].download
      invariant (exists s :: s in samples && s.upload == up) && (exists s :: s in samples && s.download == down)
    {
      assert samples[i] in samples;
      if samples[i].upload < up { up := samples[i].upload; }
      if samples[i].download < down { down := samples[i].download; }
    }
  }

  method Consider(s: Option<Sample>, samples: seq<Sample>) returns (more: seq<Sample>, enough: bool)
    requires !Enough(samples) && forall x :: x in samples ==> x.upload > 0.0 && x.download > 0.0
    ensures more == samples + (if Positive(s) then [s.value] else [])
    ensures enough <==> Enough(more)
  {
    if Positive(s) {
      more := samples + [s.value];
      var agreed := Agreed(more);
      enough := |more| >= MAX_SAMPLES || agreed;
    } else {
      more, enough := samples, false;
    }
  }

  lemma SamplesMore(p: Prober, list: seq<Candidate>, i: nat)
    requires i < |list|
    ensures Samples(p, list[..i + 1])
         == Samples(p, list[..i]) + (if Positive(p.test(list[i])) then [p.test(list[i]).value] else [])
  {
    assert list[..i + 1][..i] == list[..i];
  }

  /** Testing the first n servers was called for. */
  ghost predicate CalledFor(p: Prober, list: seq<Candidate>, n: nat)
    requires n <= |list|
  {
    forall k :: 0 <= k < n ==> !p.stopTesting(k) && !Enough(Samples(p, list[..k]))
  }

  /** Tests servers in order until there is enough or the measurement is stopped. */
  method TestServers(p: Prober, list: seq<Candidate>) returns (samples: seq<Sample>, ghost tested: nat)
    ensures tested <= |list| && samples == Samples(p, list[..tested]) && |samples| <= MAX_SAMPLES
    ensures tested < |list| ==> Enough(samples) || p.stopTesting(tested)
    ensures CalledFor(p, list, tested)
  {
    samples, tested := [], 0;
    for i := 0 to |list|
      invariant tested == i && samples == Samples(p, list[..i]) && !Enough(samples)
      invariant CalledFor(p, list, i)
    {
      if p.stopTesting(i) {
        return;
      }
      SamplesMore(p, list, i);
      var enough;
      samples, enough := Consider(p.test(list[i]), samples);
      tested := i + 1;
      if enough {
        return;
      }
    }
  }

  // ---- the whole measurement ----

  function Reachable(cs: seq<Candidate>, n: nat): seq<Candidate>
    requires n <= |cs|
  {
    if n == 0 then [] else Reachable(cs, n - 1) + if cs[n - 1].latency > 0 then [cs[n - 1]] else []
  }

  function Near(cs: seq<Candidate>): seq<Candidate> { ByLatency(Reachable(cs, |cs|)) }

  lemma {:induction false} ReachableExactly(cs: seq<Candidate>, n: nat, c: Candidate)
    requires n <= |cs|
    ensures var r := Reachable(cs, n); Times(r, |r|, c) == if c.latency > 0 then Times(cs, n, c) else 0
  {
    if n > 0 {
      ReachableExactly(cs, n - 1, c);
      TimesMore(Reachable(cs, n - 1), cs[n - 1], c);
      assert Reachable(cs, n - 1) + [] == Reachable(cs, n - 1);
    }
  }

  /** The near servers are those of the listing that answered, each as often as listed, by latency. */
  lemma NearMeans(cs: seq<Candidate>, c: Candidate)
    ensures Ordered(Near(cs))
    ensures multiset(Near(cs))[c] == if c.latency > 0 then multiset(cs)[c] else 0
  {
    ByLatencyOrders(Reachable(cs, |cs|));
    ReachableExactly(cs, |cs|, c);
    TimesInAll(Reachable(cs, |cs|), c);
    TimesInAll(cs, c);
  }

  predicate Pinged(c: Candidate) { c.latency > 0 && c.minLatency > 0 }

  function OnlyPinged(cs: seq<Candidate>, n: nat): seq<Candidate>
    requires n <= |cs|
  {
    if n == 0 then [] else OnlyPinged(cs, n - 1) + if Pinged(cs[n - 1]) then [cs[n - 1]] else []
  }

  /** A pinged batch keeps exactly the servers with both latencies found, each as often as it holds them. */
  lemma {:induction false} PingedExactly(cs: seq<Candidate>, n: nat, c: Candidate)
    requires n <= |cs|
    ensures var r := OnlyPinged(cs, n);
            Times(r, |r|, c) == if c.latency > 0 && c.minLatency > 0 then Times(cs, n, c) else 0
  {
    if n > 0 {
      PingedExactly(cs, n - 1, c);
      TimesMore(OnlyPinged(cs, n - 1), cs[n - 1], c);
      assert OnlyPinged(cs, n - 1) + [] == OnlyPinged(cs, n - 1);
    }
  }

  function Clearing(cs: seq<Candidate>, n: nat): nat
    requires n <= |cs|
  {
    if n == 0 then 0 else Clearing(cs, n - 1) + if Clears(cs[n - 1], FACILITY_FLOOR) then 1 else 0
  }

  function Limit(near: seq<Candidate>): nat { if |near| > REFINE_LIMIT then REFINE_LIMIT else |near| }

  /** The batch of ten that begins at a position, cut at the limit. */
  function Batch(near: seq<Candidate>, start: nat): seq<Candidate> {
    var limit := Limit(near);
    if start >= limit then []
    else near[start..if start + REFINE_BATCH > limit then limit else start + REFINE_BATCH]
  }

  /** The first k batches one after the other. */
  function Batches(near: seq<Candidate>, k: nat): seq<Candidate> {
    if k == 0 then [] else Batches(near, k - 1) + Batch(near, REFINE_BATCH * (k - 1))
  }

  /** Batches are of ten, and together the nearest thirty servers, in order, each in one batch. */
  lemma {:induction false} BatchesCover(near: seq<Candidate>, k: nat)
    ensures var n := if 10 * k < |near| then 10 * k else |near|;
            Batches(near, k) == near[..if n < 30 then n else 30]
    ensures |Batch(near, 10 * k)| <= 10
  {
    if k > 0 {
      BatchesCover(near, k - 1);
    }
  }

  /** The servers whose latency was found in the first k batches. */
  function Found(p: Prober, near: seq<Candidate>, k: nat): seq<Candidate> {
    if k == 0 then []
    else
      var batch := p.refine(Batch(near, REFINE_BATCH * (k - 1)));
      Found(p, near, k - 1) + OnlyPinged(batch, |batch|)
  }

  /** Whether pinging ends after batch k: enough servers clear the floor, or it is stopped. */
  predicate Done(p: Prober, near: seq<Candidate>, k: nat)
    requires k > 0
  {
    Clearing(Found(p, near, k), |Found(p, near, k)|) >= WANT_QUALIFYING || p.stopRefining(k)
  }

  ghost predicate GoesOn(p: Prober, near: seq<Candidate>, k: nat) {
    forall j :: 0 < j <= k ==> !Done(p, near, j)
  }

  /** Pinging ended with batch k and not before: done, or nothing left below the limit. */
  ghost predicate EndsAfter(p: Prober, near: seq<Candidate>, k: nat) {
    && (k > 0 ==> REFINE_BATCH * (k - 1) < Limit(near) && GoesOn(p, near, k - 1))
    && (REFINE_BATCH * k >= Limit(near) || (k > 0 && Done(p, near, k)))
  }

  /** Pings the nearest servers in batches, up to the limit, until done. */
  method RefineLatency(p: Prober, near: seq<Candidate>) returns (refined: seq<Candidate>, k: nat)
    ensures refined == Found(p, near, k) && EndsAfter(p, near, k)
  {
    refined, k := [], 0;
    while REFINE_BATCH * k < Limit(near)
      invariant refined == Found(p, near, k) && GoesOn(p, near, k)
      invariant k > 0 ==> REFINE_BATCH * (k - 1) < Limit(near)
      decreases Limit(near) - REFINE_BATCH * k
    {
      var batch := p.refine(Batch(near, REFINE_BATCH * k));
      refined := AppendPinged(refined, batch);
      k := k + 1;
      var clearing := CountClearing(refined);
      if clearing >= WANT_QUALIFYING || p.stopRefining(k) {
        return;
      }
    }
  }

  method AppendPinged(known: seq<Candidate>, batch: seq<Candidate>) returns (r: seq<Candidate>)
    ensures r == known + OnlyPinged(batch, |batch|)
  {
    r := known;
    for i := 0 to |batch|
      invariant r == known + OnlyPinged(batch, i)
    {
      if Pinged(batch[i]) {
        r := r + [batch[i]];
      }
    }
  }

  method CountClearing(cs: seq<Candidate>) returns (n: nat)
    ensures n == Clearing(cs, |cs|)
  {
    n := 0;
    for i := 0 to |cs|
      invariant n == Clearing(cs, i)
    {
      if Clears(cs[i], FACILITY_FLOOR) {
        n := n + 1;
      }
    }
  }

  /** The floor the shortlist was held to: the lower one only when no server clears the higher. */
  function FloorFor(refined: seq<Candidate>): int {
    if exists c :: c in refined && Clears(c, FACILITY_FLOOR) then FACILITY_FLOOR else BUILDING_FLOOR
  }

  predicate AllClear(cs: seq<Candidate>, floor: int) { forall c :: c in cs ==> Clears(c, floor) }

  predicate SitesApart(cs: seq<Candidate>) { forall i, j :: 0 <= i < j < |cs| ==> Site(cs[i]) != Site(cs[j]) }

  lemma ShortlistHolds(refined: seq<Candidate>, floor: int)
    ensures var list := FirstFive(Picked(refined, floor, |refined|));
            && |list| <= MAX_QUALIFYING && AllClear(list, floor) && SitesApart(list)
            && (list == [] <==> forall c :: c in refined ==> !Clears(c, floor))
  {
    PickedApart(refined, floor, |refined|);
    NonePicked(refined, floor, |refined|);
  }

  method ChooseServers(refined: seq<Candidate>) returns (list: seq<Candidate>)
    ensures |list| <= MAX_QUALIFYING && SitesApart(list) && AllClear(list, FloorFor(refined))
    ensures list == FirstFive(Picked(refined, FloorFor(refined), |refined|))
  {
    list := Shortlist(refined, FACILITY_FLOOR);
    ShortlistHolds(refined, FACILITY_FLOOR);
    if list == [] {
      list := Shortlist(refined, BUILDING_FLOOR);
      ShortlistHolds(refined, BUILDING_FLOOR);
    }
  }

  /** Testing ended with server n: all were tested, there is enough, or it is stopped. */
  ghost predicate TestedUpTo(p: Prober, list: seq<Candidate>, samples: seq<Sample>, n: nat) {
    && n <= |list| && samples == Samples(p, list[..n]) && CalledFor(p, list, n)
    && (n < |list| ==> Enough(samples) || p.stopTesting(n))
  }

  /**
   The servers found by pinging the nearest until done, by latency; of those
   the first five of different sites that clear the floor; of those the ones
   tested until there is enough. The figure is the lowest rate of each
   direction over the samples kept, and without a sample there is none.
   */
  method Measure(p: Prober)
    returns (result: Result, list: seq<Candidate>, refined: seq<Candidate>, samples: seq<Sample>)
    ensures if p.listing.None? then refined == []
            else var near := Near(p.listing.value);
              exists k: nat :: EndsAfter(p, near, k) && refined == ByLatency(Found(p, near, k))
    ensures Ordered(refined)
    ensures list == FirstFive(Picked(refined, FloorFor(refined), |refined|))
    ensures |list| <= 5 && SitesApart(list)
    ensures forall c :: c in list ==>
      c.minLatency >= if exists x :: x in refined && x.minLatency >= 2_000_000 then 2_000_000 else 1_000_000
    ensures exists n :: TestedUpTo(p, list, samples, n)
    ensures |samples| <= 3 && (result.NoFigure? <==> samples == [])
    ensures result.Measured? ==>
      && AllUp(samples, result.upload as real) && AllDown(samples, result.download as real)
      && (exists s :: s in samples && s.upload.Floor == result.upload)
      && (exists s :: s in samples && s.download.Floor == result.download)
  {
    result, list, refined, samples := NoFigure, [], [], [];
    assert TestedUpTo(p, list, samples, 0);
    if p.listing.None? {
      return;
    }
    var near := Near(p.listing.value);
    if near == [] {
      assert EndsAfter(p, near, 0) && refined == ByLatency(Found(p, near, 0));
      return;
    }
    var found, k := RefineLatency(p, near);
    refined := ByLatency(found);
    ByLatencyOrders(found);
    list := ChooseServers(refined);
    if list == [] {
      return;
    }
    ghost var tested;
    samples, tested := TestServers(p, list);
    assert TestedUpTo(p, list, samples, tested);
    if samples == [] {
      return;
    }
    var up, down := Lowest(samples);
    result := Measured(up.Floor, down.Floor);
  }
}
