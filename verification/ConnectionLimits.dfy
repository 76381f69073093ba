/** Connection caps: an atomic global counter taken by compare-and-swap, per-IP
    counters under a lock, and the rollback between them, interleaved freely
    among threads. */
module ConnectionLimits {

  type Ip = nat
  type Thread = nat

  datatype Caps = Caps(global: nat, perIp: nat)

  /** Where a thread stands between two atomic actions. */
  datatype Phase =
    | Wanting(ip: Ip)
    | Loaded(ip: Ip, seen: nat)
    | Reserved(ip: Ip)
    | RollingBack(ip: Ip)
    | Releasing(ip: Ip)

  /** What an acquire answered. */
  datatype Answer = Granted(ip: Ip) | GlobalFull(ip: Ip) | PerIpFull(ip: Ip)

  /** `held` is the connections acquired and not yet released, `answers` what
      the acquires so far returned; threads not in the map are between calls. */
  datatype State = State(
    global: nat, counts: map<Ip, nat>, threads: map<Thread, Phase>, held: multiset<Ip>, answers: seq<Answer>)

  datatype Step =
    | Begin(t: Thread, ip: Ip)
    | Load(t: Thread)
    | Swap(t: Thread)
    | Count(t: Thread)
    | RollBack(t: Thread)
    | Release(t: Thread, ip: Ip)
    | GiveBack(t: Thread)

  const INIT := State(0, map[], map[], multiset{}, [])

  function CountOf(counts: map<Ip, nat>, ip: Ip): nat { if ip in counts then counts[ip] else 0 }

  /** A release is enabled only for a connection that was acquired. */
  predicate Enabled(s: State, st: Step) {
    match st
    case Begin(t, _) => t !in s.threads
    case Load(t) => t in s.threads && s.threads[t].Wanting?
    case Swap(t) => t in s.threads && s.threads[t].Loaded?
    case Count(t) => t in s.threads && s.threads[t].Reserved?
    case RollBack(t) => t in s.threads && s.threads[t].RollingBack?
    case Release(t, ip) => t !in s.threads && s.held[ip] > 0
    case GiveBack(t) => t in s.threads && s.threads[t].Releasing?
  }

  /** The per-IP half of a release, under the lock. */
  function Decrement(counts: map<Ip, nat>, ip: Ip): map<Ip, nat> {
    if ip !in counts then counts
    else if counts[ip] <= 1 then counts - {ip}
    else counts[ip := counts[ip] - 1]
  }

  /** The effect of an enabled step; others change nothing. The rollback's plain
      subtraction would wrap at zero, which GuardNeverActs rules out. */
  function Do(c: Caps, s: State, st: Step): State {
    if !Enabled(s, st) then s
    else
      match st
      case Begin(t, ip) => s.(threads := s.threads[t := Wanting(ip)])
      case Load(t) =>
        if s.global >= c.global then
          s.(threads := s.threads - {t}, answers := s.answers + [GlobalFull(s.threads[t].ip)])
        else s.(threads := s.threads[t := Loaded(s.threads[t].ip, s.global)])
      case Swap(t) =>
        var ip := s.threads[t].ip;
        if s.global == s.threads[t].seen then s.(global := s.global + 1, threads := s.threads[t := Reserved(ip)])
        else s.(threads := s.threads[t := Wanting(ip)])
      case Count(t) =>
        var ip := s.threads[t].ip;
        var n := CountOf(s.counts, ip);
        if n >= c.perIp then s.(counts := s.counts[ip := n], threads := s.threads[t := RollingBack(ip)])
        else
          s.(counts := s.counts[ip := n + 1], threads := s.threads - {t}, held := s.held + multiset{ip},
             answers := s.answers + [Granted(ip)])
      case RollBack(t) =>
        s.(global := if s.global == 0 then 0 else s.global - 1, threads := s.threads - {t},
           answers := s.answers + [PerIpFull(s.threads[t].ip)])
      case Release(t, ip) =>
        s.(counts := Decrement(s.counts, ip), threads := s.threads[t := Releasing(ip)], held := s.held - multiset{ip})
      case GiveBack(t) => s.(global := if s.global == 0 then 0 else s.global - 1, threads := s.threads - {t})
  }

  // ── Sums ────────────────────────────────────────────────────────────

  ghost function Sum(m: map<Ip, nat>): nat
    decreases |m|
  {
    if m == map[] then 0
    else
      var k :| k in m;
      m[k] + Sum(m - {k})
  }

  lemma {:induction false} SumPick(m: map<Ip, nat>, k: Ip)
    requires k in m
    ensures Sum(m) == m[k] + Sum(m - {k})
    decreases |m|
  {
    var j :| j in m && Sum(m) == m[j] + Sum(m - {j});
    if j != k {
      SumPick(m - {j}, k);
      SumPick(m - {k}, j);
      assert m - {j} - {k} == m - {k} - {j};
    }
  }

  lemma {:induction false} SumSet(m: map<Ip, nat>, k: Ip, n: nat)
    ensures Sum(m[k := n]) + CountOf(m, k) == Sum(m) + n
  {
    SumPick(m[k := n], k);
    assert m[k := n] - {k} == m - {k};
    if k in m { SumPick(m, k); } else { assert m - {k} == m; }
  }

  lemma {:induction false} SumDecrement(m: map<Ip, nat>, k: Ip)
    requires CountOf(m, k) > 0
    ensures Sum(Decrement(m, k)) + 1 == Sum(m)
  {
    if m[k] <= 1 { SumPick(m, k); } else { SumSet(m, k, m[k] - 1); }
  }

  // ── Invariant ───────────────────────────────────────────────────────

  /** Threads that hold a global slot without a counted connection. */
  predicate Midway(p: Phase) { p.Reserved? || p.RollingBack? || p.Releasing? }

  function MidwayThreads(threads: map<Thread, Phase>): set<Thread> { set t | t in threads && Midway(threads[t]) }

  ghost predicate Inv(c: Caps, s: State) {
    && s.global == Sum(s.counts) + |MidwayThreads(s.threads)|
    && s.global <= c.global
    && (forall ip :: CountOf(s.counts, ip) == s.held[ip] <= c.perIp)
    && (forall t :: t in s.threads && s.threads[t].Loaded? ==> s.threads[t].seen < c.global)
  }

  lemma {:induction false} MidwaySet(threads: map<Thread, Phase>, t: Thread, p: Phase)
    ensures MidwayThreads(threads[t := p])
      == if Midway(p) then MidwayThreads(threads) + {t} else MidwayThreads(threads) - {t}
  {
  }

  lemma {:induction false} MidwayDrop(threads: map<Thread, Phase>, t: Thread)
    ensures MidwayThreads(threads - {t}) == MidwayThreads(threads) - {t}
  {
  }

  /** A thread midway shows in the global counter. */
  lemma {:induction false} MidwayCounts(s: State, t: Thread)
    requires t in s.threads && Midway(s.threads[t])
    ensures t in MidwayThreads(s.threads) && |MidwayThreads(s.threads)| >= 1
  {
    assert |{t}| <= |MidwayThreads(s.threads)| by {
      assert MidwayThreads(s.threads) == {t} + (MidwayThreads(s.threads) - {t});
    }
  }

  lemma {:induction false} AskKeeps(c: Caps, s: State, t: Thread, ip: Ip)
    requires Inv(c, s)
    ensures Inv(c, Do(c, s, Begin(t, ip))) && Inv(c, Do(c, s, Load(t)))
  {
    hide Sum, MidwayThreads;
    if t !in s.threads || !Midway(s.threads[t]) { NotMidway(s.threads, t); }
    MidwaySet(s.threads, t, Wanting(ip));
    MidwayDrop(s.threads, t);
    if t in s.threads { MidwaySet(s.threads, t, Loaded(s.threads[t].ip, s.global)); }
  }

  lemma {:induction false} SwapKeeps(c: Caps, s: State, t: Thread)
    requires Inv(c, s) && Enabled(s, Swap(t))
    ensures Inv(c, Do(c, s, Swap(t)))
  {
    hide Sum, MidwayThreads;
    MidwaySet(s.threads, t, Reserved(s.threads[t].ip));
    MidwaySet(s.threads, t, Wanting(s.threads[t].ip));
    NotMidway(s.threads, t);
  }

  lemma {:induction false} RefusalKeeps(c: Caps, s: State, t: Thread)
    requires Inv(c, s) && Enabled(s, Count(t)) && CountOf(s.counts, s.threads[t].ip) >= c.perIp
    ensures Inv(c, Do(c, s, Count(t)))
  {
    hide Sum, MidwayThreads;
    var ip := s.threads[t].ip;
    var n := CountOf(s.counts, ip);
    MidwayCounts(s, t);
    MidwaySet(s.threads, t, RollingBack(ip));
    assert MidwayThreads(s.threads) + {t} == MidwayThreads(s.threads);
    SumSet(s.counts, ip, n);
  }

  lemma {:induction false} GrantKeeps(c: Caps, s: State, t: Thread)
    requires Inv(c, s) && Enabled(s, Count(t)) && CountOf(s.counts, s.threads[t].ip) < c.perIp
    ensures Inv(c, Do(c, s, Count(t)))
  {
    hide Sum, MidwayThreads;
    var ip := s.threads[t].ip;
    MidwayCounts(s, t);
    MidwayDrop(s.threads, t);
    SumSet(s.counts, ip, CountOf(s.counts, ip) + 1);
  }

  lemma {:induction false} GiveBackKeeps(c: Caps, s: State, t: Thread)
    requires Inv(c, s)
    ensures Inv(c, Do(c, s, RollBack(t))) && Inv(c, Do(c, s, GiveBack(t)))
  {
    hide Sum, MidwayThreads;
    MidwayDrop(s.threads, t);
    if t in s.threads && Midway(s.threads[t]) { MidwayCounts(s, t); }
  }

  lemma {:induction false} ReleaseKeeps(c: Caps, s: State, t: Thread, ip: Ip)
    requires Inv(c, s) && Enabled(s, Release(t, ip))
    ensures Inv(c, Do(c, s, Release(t, ip)))
  {
    hide Sum, MidwayThreads;
    MidwaySet(s.threads, t, Releasing(ip));
    NotMidway(s.threads, t);
    SumDecrement(s.counts, ip);
    assert forall k ::
      CountOf(Decrement(s.counts, ip), k) == if k == ip then CountOf(s.counts, ip) - 1 else CountOf(s.counts, k);
  }

  /** Every atomic action of every thread keeps the books. */
  lemma {:induction false} StepKeeps(c: Caps, s: State, st: Step)
    requires Inv(c, s)
    ensures Inv(c, Do(c, s, st))
  {
    if Enabled(s, st) {
      match st
      case Begin(t, ip) => AskKeeps(c, s, t, ip);
      case Load(t) => AskKeeps(c, s, t, 0);
      case Swap(t) => SwapKeeps(c, s, t);
      case Count(t) =>
        if CountOf(s.counts, s.threads[t].ip) >= c.perIp { RefusalKeeps(c, s, t); } else { GrantKeeps(c, s, t); }
      case RollBack(t) => GiveBackKeeps(c, s, t);
      case Release(t, ip) => ReleaseKeeps(c, s, t, ip);
      case GiveBack(t) => GiveBackKeeps(c, s, t);
    }
  }

  lemma {:induction false} NotMidway(threads: map<Thread, Phase>, t: Thread)
    requires t !in threads || !Midway(threads[t])
    ensures t !in MidwayThreads(threads) && MidwayThreads(threads) - {t} == MidwayThreads(threads)
  {
  }

  // ── Runs ────────────────────────────────────────────────────────────

  function Run(c: Caps, s: State, steps: seq<Step>): State
    decreases |steps|
  {
    if steps == [] then s else Run(c, Do(c, s, steps[0]), steps[1..])
  }

  lemma {:induction false} RunKeeps(c: Caps, s: State, steps: seq<Step>)
    requires Inv(c, s)
    ensures Inv(c, Run(c, s, steps))
    decreases |steps|
  {
    if steps != [] {
      StepKeeps(c, s, steps[0]);
      RunKeeps(c, Do(c, s, steps[0]), steps[1..]);
    }
  }

  /** Conservation: in every interleaving the global counter is the sum of the
      per-IP counters plus the threads midway, each per-IP counter is the number
      of connections held from that address, and neither cap is exceeded. */
  lemma {:induction false} Conservation(c: Caps, steps: seq<Step>, ip: Ip)
    ensures var s := Run(c, INIT, steps);
            && s.global == Sum(s.counts) + |MidwayThreads(s.threads)|
            && CountOf(s.counts, ip) == s.held[ip]
            && s.global <= c.global && s.held[ip] <= c.perIp
  {
    assert Sum(map[]) == 0 && MidwayThreads(map[]) == {};
    RunKeeps(c, INIT, steps);
  }

  /** When no call is under way the counter is exactly the connections held. */
  lemma {:induction false} AtRest(c: Caps, steps: seq<Step>)
    requires Run(c, INIT, steps).threads == map[]
    ensures var s := Run(c, INIT, steps); s.global == Sum(s.counts)
  {
    Conservation(c, steps, 0);
    assert MidwayThreads(map[]) == {};
  }

  /** Giving a global slot back, after a release or in a rollback, never finds
      the counter at zero: the guard against underflow never acts. */
  lemma {:induction false} GuardNeverActs(c: Caps, steps: seq<Step>, t: Thread)
    requires Enabled(Run(c, INIT, steps), GiveBack(t)) || Enabled(Run(c, INIT, steps), RollBack(t))
    ensures Run(c, INIT, steps).global > 0
  {
    Conservation(c, steps, 0);
    MidwayCounts(Run(c, INIT, steps), t);
  }

  // ── Who is let in ───────────────────────────────────────────────────

  lemma {:induction false} HeldCounted(counts: map<Ip, nat>, held: multiset<Ip>)
    requires forall ip :: CountOf(counts, ip) == held[ip]
    ensures Sum(counts) == |held|
    decreases |counts|
  {
    if counts == map[] {
      assert forall ip :: held[ip] == CountOf(counts, ip) == 0;
      assert held == multiset{};
    } else {
      var k :| k in counts;
      SumPick(counts, k);
      var rest := held[k := 0];
      forall ip ensures CountOf(counts - {k}, ip) == rest[ip] { assert CountOf(counts, ip) == held[ip]; }
      HeldCounted(counts - {k}, rest);
      assert held[k] == counts[k] by { assert CountOf(counts, k) == held[k]; }
      assert rest[k := held[k]] == held;
    }
  }

  /** In every run: an acquire gets past the first cap exactly when connections
      held plus threads midway are below it, reserves exactly when nobody moved
      the counter since it looked, and is then granted exactly when its address
      holds fewer connections than the second cap. */
  lemma {:induction false} Decides(c: Caps, steps: seq<Step>, t: Thread)
    requires t in Run(c, INIT, steps).threads
    ensures var s := Run(c, INIT, steps);
            var ip := s.threads[t].ip;
            && (Enabled(s, Load(t)) ==>
                  if |s.held| + |MidwayThreads(s.threads)| < c.global then
                    Do(c, s, Load(t)) == s.(threads := s.threads[t := Loaded(ip, s.global)])
                  else Do(c, s, Load(t)) == s.(threads := s.threads - {t}, answers := s.answers + [GlobalFull(ip)]))
            && (Enabled(s, Swap(t)) ==>
                  (Do(c, s, Swap(t)).threads[t] == Reserved(ip) <==> s.global == s.threads[t].seen)
                  && (Do(c, s, Swap(t)).threads[t] == Wanting(ip) <==> s.global != s.threads[t].seen))
            && (Enabled(s, Count(t)) ==>
                  var s' := Do(c, s, Count(t));
                  if s.held[ip] < c.perIp then
                    s'.held == s.held + multiset{ip} && s'.answers == s.answers + [Granted(ip)] && t !in s'.threads
                  else s'.held == s.held && s'.answers == s.answers && s'.threads[t] == RollingBack(ip))
  {
    hide Sum, MidwayThreads;
    var s := Run(c, INIT, steps);
    Conservation(c, steps, s.threads[t].ip);
    forall ip ensures CountOf(s.counts, ip) == s.held[ip] { Conservation(c, steps, ip); }
    HeldCounted(s.counts, s.held);
  }

  /** One acquire, undisturbed. */
  function Acquire(t: Thread, ip: Ip): seq<Step> { [Begin(t, ip), Load(t), Swap(t), Count(t), RollBack(t)] }

  lemma {:induction false} RunFive(c: Caps, s: State, a: Step, b: Step, d: Step, e: Step, f: Step)
    ensures Run(c, s, [a, b, d, e, f]) == Do(c, Do(c, Do(c, Do(c, Do(c, s, a), b), d), e), f)
  {
    hide Do;
    var s1 := Do(c, s, a);
    var s2 := Do(c, s1, b);
    assert [a, b, d, e, f][1..] == [b, d, e, f] && [b, d, e, f][1..] == [d, e, f];
    assert Run(c, s2, [d, e, f]) == Do(c, Do(c, Do(c, s2, d), e), f) by {
      var s3 := Do(c, s2, d);
      assert [d, e, f][1..] == [e, f] && [e, f][1..] == [f] && [f][1..] == [];
      assert Run(c, Do(c, s3, e), [f]) == Run(c, Do(c, Do(c, s3, e), f), []);
      assert Run(c, s3, [e, f]) == Run(c, Do(c, s3, e), [f]);
    }
    assert Run(c, s1, [b, d, e, f]) == Run(c, s2, [d, e, f]);
  }

  /** The first cap, and the slot reserved under it. */
  lemma {:induction false} Reserving(c: Caps, s: State, t: Thread, ip: Ip)
    requires s.threads == map[]
    ensures var s' := Do(c, Do(c, Do(c, s, Begin(t, ip)), Load(t)), Swap(t));
            if s.global >= c.global then s' == s.(answers := s.answers + [GlobalFull(ip)])
            else s' == s.(global := s.global + 1, threads := map[t := Reserved(ip)])
  {
    var s1 := s.(threads := map[t := Wanting(ip)]);
    assert Do(c, s, Begin(t, ip)) == s1;
    if s.global >= c.global {
      assert map[t := Wanting(ip)] - {t} == map[];
      assert Do(c, s1, Load(t)) == s.(answers := s.answers + [GlobalFull(ip)]);
    } else {
      var s2 := s.(threads := map[t := Loaded(ip, s.global)]);
      assert Do(c, s1, Load(t)) == s2 by { assert s1.threads[t := Loaded(ip, s.global)] == s2.threads; }
      assert Do(c, s2, Swap(t)) == s.(global := s.global + 1, threads := map[t := Reserved(ip)]) by {
        assert s2.threads[t := Reserved(ip)] == map[t := Reserved(ip)];
      }
    }
  }

  /** The second cap, from a reserved slot. */
  lemma {:induction false} Counting(c: Caps, s: State, t: Thread, ip: Ip)
    requires s.threads == map[t := Reserved(ip)] && s.global > 0
    ensures var s' := Do(c, Do(c, s, Count(t)), RollBack(t));
            var n := CountOf(s.counts, ip);
            if n >= c.perIp then
              s' == s.(global := s.global - 1, counts := s.counts[ip := n], threads := map[],
                       answers := s.answers + [PerIpFull(ip)])
            else
              s' == s.(counts := s.counts[ip := n + 1], threads := map[], held := s.held + multiset{ip},
                       answers := s.answers + [Granted(ip)])
  {
    var n := CountOf(s.counts, ip);
    if n >= c.perIp {
      var s1 := s.(counts := s.counts[ip := n], threads := map[t := RollingBack(ip)]);
      assert Do(c, s, Count(t)) == s1 by { assert s.threads[t := RollingBack(ip)] == s1.threads; }
      assert s1.threads - {t} == map[];
    } else {
      assert s.threads - {t} == map[];
    }
  }

  /** From a state at rest, one acquire with no other thread succeeds exactly
      when both caps leave room; a refusal names the cap that was met first and
      leaves the global counter and the connections as they were. */
  lemma {:induction false} AcquireAlone(c: Caps, steps: seq<Step>, t: Thread, ip: Ip)
    requires Run(c, INIT, steps).threads == map[]
    ensures var s := Run(c, INIT, steps);
            var s' := Run(c, s, Acquire(t, ip));
            && s'.threads == map[]
            && if |s.held| >= c.global then s' == s.(answers := s.answers + [GlobalFull(ip)])
               else if s.held[ip] >= c.perIp then
                 s' == s.(counts := s.counts[ip := s.held[ip]], answers := s.answers + [PerIpFull(ip)])
               else
                 s' == s.(global := s.global + 1, counts := s.counts[ip := s.held[ip] + 1],
                          held := s.held + multiset{ip}, answers := s.answers + [Granted(ip)])
  {
    hide Sum, Run, Do;
    var s := Run(c, INIT, steps);
    RunFive(c, s, Begin(t, ip), Load(t), Swap(t), Count(t), RollBack(t));
    AtRest(c, steps);
    forall k ensures CountOf(s.counts, k) == s.held[k] { Conservation(c, steps, k); }
    HeldCounted(s.counts, s.held);
    Reserving(c, s, t, ip);
    if s.global >= c.global {
      Idle(c, s.(answers := s.answers + [GlobalFull(ip)]), t);
    } else {
      Counting(c, s.(global := s.global + 1, threads := map[t := Reserved(ip)]), t, ip);
    }
  }

  lemma {:induction false} Idle(c: Caps, s: State, t: Thread)
    requires s.threads == map[]
    ensures Do(c, Do(c, s, Count(t)), RollBack(t)) == s
  {
  }

  /** A refusal is documented to change nothing. It changes the per-IP table
      exactly when addresses are allowed no connections at all and this one has
      no entry: it leaves an entry of zero. */
  lemma {:induction false} RefusalLeavesEntry(c: Caps, steps: seq<Step>, t: Thread, ip: Ip)
    requires Run(c, INIT, steps).threads == map[]
    requires |Run(c, INIT, steps).held| >= c.global || Run(c, INIT, steps).held[ip] >= c.perIp
    ensures var s := Run(c, INIT, steps);
            Run(c, s, Acquire(t, ip)).counts != s.counts <==> |s.held| < c.global && c.perIp == 0 && ip !in s.counts
  {
    hide Run;
    var s := Run(c, INIT, steps);
    AcquireAlone(c, steps, t, ip);
    Conservation(c, steps, ip);
    assert s.held[ip] <= c.perIp && CountOf(s.counts, ip) == s.held[ip];
    if ip in s.counts { assert s.counts[ip := s.held[ip]] == s.counts; }
  }

  /** Acquiring and releasing leaves the counter, the connections and every
      address's count as they were; an address with no connection left has no
      entry. */
  lemma {:induction false} ReleaseUndoes(c: Caps, steps: seq<Step>, t: Thread, ip: Ip)
    requires Run(c, INIT, steps).threads == map[]
    requires |Run(c, INIT, steps).held| < c.global && Run(c, INIT, steps).held[ip] < c.perIp
    ensures var s := Run(c, INIT, steps);
            var s' := Do(c, Do(c, Run(c, s, Acquire(t, ip)), Release(t, ip)), GiveBack(t));
            && s'.global == s.global && s'.held == s.held && s'.threads == map[]
            && s'.answers == s.answers + [Granted(ip)]
            && s'.counts == (if s.held[ip] == 0 then s.counts - {ip} else s.counts)
            && forall k :: CountOf(s'.counts, k) == CountOf(s.counts, k)
  {
    hide Run;
    var s := Run(c, INIT, steps);
    AcquireAlone(c, steps, t, ip);
    Conservation(c, steps, ip);
    assert map[][t := Releasing(ip)] - {t} == map[];
    assert s.counts[ip := 1] - {ip} == s.counts - {ip};
    assert s.held[ip] > 0 ==> s.counts[ip := s.held[ip] + 1][ip := s.held[ip]] == s.counts;
    assert s.held + multiset{ip} - multiset{ip} == s.held;
  }
}
