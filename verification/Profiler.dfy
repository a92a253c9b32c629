/** The zone profiler: what a thread accumulates over any well-nested run of zones, and why no time
    is counted twice or lost. */
module Profiler {
  const ZONES := 12
  const STACK := 32

  type Zone = nat
  type Ticks = nat

  datatype Stats = Stats(calls: seq<nat>, ticks: seq<Ticks>, child: seq<Ticks>)

  /** One thread's accumulators and its open zones, innermost last. */
  datatype Thread = Thread(stats: Stats, stack: seq<Zone>)
  {
    ghost predicate Valid() {
      && |stats.calls| == |stats.ticks| == |stats.child| == ZONES
      && |stack| <= STACK
      && forall i :: 0 <= i < |stack| ==> stack[i] < ZONES
    }

    function Push(zone: Zone): (t: Thread) {
      if zone < ZONES && |stack| < STACK then this.(stack := stack + [zone]) else this
    }

    function Record(zone: Zone, start: Ticks, end: Ticks): (t: Thread)
      requires Valid()
      ensures t.Valid()
    {
      if zone >= ZONES || end <= start then this
      else
        var elapsed := end - start;
        var s := stats.(calls := stats.calls[zone := stats.calls[zone] + 1],
                        ticks := stats.ticks[zone := stats.ticks[zone] + elapsed]);
        if stack != [] && stack[|stack| - 1] != zone then
          var parent := stack[|stack| - 1];
          this.(stats := s.(child := s.child[parent := s.child[parent] + elapsed]))
        else this.(stats := s)
    }

    function Pop(zone: Zone, start: Ticks, end: Ticks): (t: Thread)
      requires Valid()
      ensures t.Valid()
    {
      (if stack != [] then this.(stack := stack[..|stack| - 1]) else this).Record(zone, start, end)
    }
  }

  function Zeros(): seq<nat> {
    seq(ZONES, _ => 0)
  }

  function Started(): (t: Thread)
    ensures t.Valid() && t.stack == []
  {
    Thread(Stats(Zeros(), Zeros(), Zeros()), [])
  }

  /** One zone's time on one thread, with the zones opened and closed inside it. */
  datatype Span = Span(zone: Zone, start: Ticks, end: Ticks, inner: seq<Span>)

  /** Inner spans lie inside the outer one, one after another. */
  predicate Nested(s: Span) {
    && s.zone < ZONES && s.start <= s.end
    && InOrder(s.inner, s.start, s.end)
  }

  predicate InOrder(ss: seq<Span>, from: Ticks, to: Ticks) {
    if ss == [] then from <= to
    else from <= ss[0].start && Nested(ss[0]) && InOrder(ss[1..], ss[0].end, to)
  }

  function Height(s: Span): nat {
    1 + Heights(s.inner)
  }

  function Heights(ss: seq<Span>): nat {
    if ss == [] then 0
    else if Height(ss[0]) > Heights(ss[1..]) then Height(ss[0]) else Heights(ss[1..])
  }

  /** The calls a span makes on its thread. */
  function Execute(t: Thread, s: Span): (r: Thread)
    requires t.Valid()
    ensures r.Valid()
    decreases s, 1
  {
    ExecuteAll(t.Push(s.zone), s.inner).Pop(s.zone, s.start, s.end)
  }

  function ExecuteAll(t: Thread, ss: seq<Span>): (r: Thread)
    requires t.Valid()
    ensures r.Valid()
    decreases ss, 0
  {
    if ss == [] then t else ExecuteAll(Execute(t, ss[0]), ss[1..])
  }

  function Elapsed(s: Span): Ticks {
    if s.end > s.start then s.end - s.start else 0
  }

  // --- what a run adds, zone by zone ---

  /** Time under zone `z`, inner and outer alike. */
  function TicksOf(s: Span, z: Zone): Ticks {
    (if s.zone == z then Elapsed(s) else 0) + TicksOfAll(s.inner, z)
  }

  function TicksOfAll(ss: seq<Span>, z: Zone): Ticks {
    if ss == [] then 0 else TicksOf(ss[0], z) + TicksOfAll(ss[1..], z)
  }

  /** Time of the spans directly inside zone `z` but of another zone. */
  function ChildOf(s: Span, z: Zone): Ticks {
    (if s.zone == z then Foreign(s.inner, z) else 0) + ChildOfAll(s.inner, z)
  }

  function ChildOfAll(ss: seq<Span>, z: Zone): Ticks {
    if ss == [] then 0 else ChildOf(ss[0], z) + ChildOfAll(ss[1..], z)
  }

  /** Spans of zone `z` that took any time, at any depth. */
  function CallsOf(s: Span, z: Zone): nat {
    (if s.zone == z && s.end > s.start then 1 else 0) + CallsOfAll(s.inner, z)
  }

  function CallsOfAll(ss: seq<Span>, z: Zone): nat {
    if ss == [] then 0 else CallsOf(ss[0], z) + CallsOfAll(ss[1..], z)
  }

  function Foreign(ss: seq<Span>, z: Zone): Ticks {
    if ss == [] then 0 else (if ss[0].zone != z then Elapsed(ss[0]) else 0) + Foreign(ss[1..], z)
  }

  /** What the spans of one level add to the child time of the zone they are opened in. */
  function GivenTo(t: Thread, ss: seq<Span>, z: Zone): Ticks {
    if t.stack != [] && t.stack[|t.stack| - 1] == z then Foreign(ss, z) else 0
  }

  lemma RecordAdds(t: Thread, zone: Zone, start: Ticks, end: Ticks, z: Zone)
    requires t.Valid() && zone < ZONES && start <= end && z < ZONES
    ensures var r := t.Record(zone, start, end);
            && r.stack == t.stack
            && r.stats.calls[z] == t.stats.calls[z] + (if zone == z && end > start then 1 else 0)
            && r.stats.ticks[z] == t.stats.ticks[z] + (if zone == z then end - start else 0)
            && r.stats.child[z] == t.stats.child[z]
                 + (if t.stack != [] && t.stack[|t.stack| - 1] == z && zone != z then end - start else 0)
  {
  }

  /** A run leaves the stack as it was and adds exactly its own times. */
  lemma {:induction false} ExecuteAdds(t: Thread, s: Span, z: Zone)
    requires t.Valid() && Nested(s) && |t.stack| + Height(s) <= STACK && z < ZONES
    ensures Execute(t, s).stack == t.stack
    ensures Execute(t, s).stats.calls[z] == t.stats.calls[z] + CallsOf(s, z)
    ensures Execute(t, s).stats.ticks[z] == t.stats.ticks[z] + TicksOf(s, z)
    ensures Execute(t, s).stats.child[z] == t.stats.child[z] + ChildOf(s, z) + GivenTo(t, [s], z)
    decreases s, 1
  {
    hide ExecuteAll, TicksOfAll, ChildOfAll, CallsOfAll;
    var entered := t.Push(s.zone);
    var inside := ExecuteAll(entered, s.inner);
    ExecuteAllAdds(entered, s.inner, s.start, s.end, z);
    var closed := inside.(stack := inside.stack[..|inside.stack| - 1]);
    assert closed.stack == t.stack;
    RecordAdds(closed, s.zone, s.start, s.end, z);
    assert Execute(t, s) == closed.Record(s.zone, s.start, s.end);
    assert Foreign([s], z) == (if s.zone != z then Elapsed(s) else 0) + Foreign([], z);
  }

  lemma {:induction false} ExecuteAllAdds(t: Thread, ss: seq<Span>, from: Ticks, to: Ticks, z: Zone)
    requires t.Valid() && InOrder(ss, from, to) && |t.stack| + Heights(ss) <= STACK && z < ZONES
    ensures ExecuteAll(t, ss).stack == t.stack
    ensures ExecuteAll(t, ss).stats.calls[z] == t.stats.calls[z] + CallsOfAll(ss, z)
    ensures ExecuteAll(t, ss).stats.ticks[z] == t.stats.ticks[z] + TicksOfAll(ss, z)
    ensures ExecuteAll(t, ss).stats.child[z] == t.stats.child[z] + ChildOfAll(ss, z) + GivenTo(t, ss, z)
    decreases ss, 0
  {
    if ss != [] {
      var n := Execute(t, ss[0]);
      ExecuteAdds(t, ss[0], z);
      ExecuteAllAdds(n, ss[1..], ss[0].end, to, z);
      assert Foreign([ss[0]], z) == (if ss[0].zone != z then Elapsed(ss[0]) else 0) + Foreign([], z);
    }
  }

  // --- no zone's inner time exceeds its own ---

  function ElapsedAll(ss: seq<Span>): Ticks {
    if ss == [] then 0 else Elapsed(ss[0]) + ElapsedAll(ss[1..])
  }

  lemma {:induction false} InnerFits(ss: seq<Span>, from: Ticks, to: Ticks, z: Zone)
    requires InOrder(ss, from, to)
    ensures from <= to && Foreign(ss, z) <= ElapsedAll(ss) <= to - from
    decreases ss
  {
    if ss != [] {
      InnerFits(ss[1..], ss[0].end, to, z);
    }
  }

  lemma {:induction false} ChildWithinTicks(s: Span, z: Zone)
    requires Nested(s)
    ensures ChildOf(s, z) <= TicksOf(s, z)
    decreases s, 1
  {
    InnerFits(s.inner, s.start, s.end, z);
    ChildWithinTicksAll(s.inner, s.start, s.end, z);
  }

  lemma {:induction false} ChildWithinTicksAll(ss: seq<Span>, from: Ticks, to: Ticks, z: Zone)
    requires InOrder(ss, from, to)
    ensures ChildOfAll(ss, z) <= TicksOfAll(ss, z)
    decreases ss, 0
  {
    if ss != [] {
      ChildWithinTicks(ss[0], z);
      ChildWithinTicksAll(ss[1..], ss[0].end, to, z);
    }
  }

  // --- what the sums over all zones come to ---

  function Sum(v: seq<nat>): nat {
    if v == [] then 0 else Sum(v[..|v| - 1]) + v[|v| - 1]
  }

  lemma {:induction false} SumUpdate(v: seq<nat>, i: nat, x: nat)
    requires i < |v|
    ensures Sum(v[i := v[i] + x]) == Sum(v) + x
    decreases |v|
  {
    var w := v[i := v[i] + x];
    if i == |v| - 1 {
      assert w[..|w| - 1] == v[..|v| - 1];
    } else {
      assert w[..|w| - 1] == v[..|v| - 1][i := v[i] + x];
      SumUpdate(v[..|v| - 1], i, x);
    }
  }

  /** The time of every span, at any depth. */
  function AllTime(s: Span): Ticks {
    Elapsed(s) + AllTimes(s.inner)
  }

  function AllTimes(ss: seq<Span>): Ticks {
    if ss == [] then 0 else AllTime(ss[0]) + AllTimes(ss[1..])
  }

  /** The time of every span opened directly inside its own zone, below a given zone. */
  function Recursive(s: Span): Ticks {
    Recursives(s.inner, s.zone)
  }

  function Recursives(ss: seq<Span>, parent: Zone): Ticks {
    if ss == [] then 0
    else (if ss[0].zone == parent then Elapsed(ss[0]) else 0) + Recursive(ss[0]) + Recursives(ss[1..], parent)
  }

  /** What a level of spans adds to the child times of all zones: everything but its own roots, when
      it has no zone to be inside of, and never what is directly inside its own zone. */
  ghost predicate SumsAdded(t: Thread, r: Thread, all: Ticks, roots: Ticks, recursive: Ticks) {
    && t.Valid() && r.Valid()
    && Sum(r.stats.ticks) == Sum(t.stats.ticks) + all
    && Sum(r.stats.child) + recursive + (if t.stack == [] then roots else 0) == Sum(t.stats.child) + all
  }

  /** Spans opened directly inside the zone on top of the stack, of that same zone. */
  function Repeats(t: Thread, ss: seq<Span>): Ticks {
    if t.stack == [] then RecursivesOf(ss) else Recursives(ss, t.stack[|t.stack| - 1])
  }

  function RecursivesOf(ss: seq<Span>): Ticks {
    if ss == [] then 0 else Recursive(ss[0]) + RecursivesOf(ss[1..])
  }

  lemma OneRecursive(s: Span, parent: Zone)
    ensures Recursives([s], parent) == (if s.zone == parent then Elapsed(s) else 0) + Recursive(s)
  {
    assert Recursives([], parent) == 0;
  }

  lemma RecordSums(t: Thread, zone: Zone, start: Ticks, end: Ticks)
    requires t.Valid() && zone < ZONES && start <= end
    ensures var r := t.Record(zone, start, end);
            && Sum(r.stats.ticks) == Sum(t.stats.ticks) + (end - start)
            && Sum(r.stats.child) == Sum(t.stats.child)
                                     + (if t.stack != [] && t.stack[|t.stack| - 1] != zone then end - start else 0)
  {
    if end > start {
      SumUpdate(t.stats.ticks, zone, end - start);
      if t.stack != [] && t.stack[|t.stack| - 1] != zone {
        SumUpdate(t.stats.child, t.stack[|t.stack| - 1], end - start);
      }
    }
  }

  lemma {:induction false} ExecuteSums(t: Thread, s: Span)
    requires t.Valid() && Nested(s) && |t.stack| + Height(s) <= STACK
    ensures Execute(t, s).stack == t.stack
    ensures SumsAdded(t, Execute(t, s), AllTime(s), Elapsed(s), Repeats(t, [s]))
    decreases s, 1
  {
    hide ExecuteAll, Sum, AllTimes, ElapsedAll;
    var entered := t.Push(s.zone);
    var inside := ExecuteAll(entered, s.inner);
    ExecuteAllSums(entered, s.inner, s.start, s.end);
    var closed := inside.(stack := inside.stack[..|inside.stack| - 1]);
    assert closed.stack == t.stack;
    RecordSums(closed, s.zone, s.start, s.end);
    assert Execute(t, s) == closed.Record(s.zone, s.start, s.end);
    assert RecursivesOf([s]) == Recursive(s) + RecursivesOf([]);
    if t.stack != [] {
      OneRecursive(s, t.stack[|t.stack| - 1]);
    }
  }

  lemma {:induction false} ExecuteAllSums(t: Thread, ss: seq<Span>, from: Ticks, to: Ticks)
    requires t.Valid() && InOrder(ss, from, to) && |t.stack| + Heights(ss) <= STACK
    ensures ExecuteAll(t, ss).stack == t.stack
    ensures SumsAdded(t, ExecuteAll(t, ss), AllTimes(ss), ElapsedAll(ss), Repeats(t, ss))
    decreases ss, 0
  {
    if ss != [] {
      ExecuteSums(t, ss[0]);
      ExecuteAllSums(Execute(t, ss[0]), ss[1..], ss[0].end, to);
      assert RecursivesOf([ss[0]]) == Recursive(ss[0]) + RecursivesOf([]);
      if t.stack != [] {
        OneRecursive(ss[0], t.stack[|t.stack| - 1]);
      }
    }
  }

  // --- the report ---

  function SelfTime(s: Stats, z: Zone): Ticks
    requires |s.ticks| == |s.child| == ZONES && z < ZONES
  {
    if s.ticks[z] > s.child[z] then s.ticks[z] - s.child[z] else 0
  }

  function SelfTimes(s: Stats): (r: seq<Ticks>)
    requires |s.ticks| == |s.child| == ZONES
  {
    seq(ZONES, z requires 0 <= z < ZONES => SelfTime(s, z))
  }

  /** A thread's whole history: spans one after another, on an empty stack. */
  ghost predicate History(ss: seq<Span>) {
    Heights(ss) <= STACK && exists to :: InOrder(ss, 0, to)
  }

  function Recorded(ss: seq<Span>): Thread {
    ExecuteAll(Started(), ss)
  }

  lemma {:induction false} SumDifference(a: seq<nat>, b: seq<nat>, c: seq<nat>)
    requires |a| == |b| == |c| && forall i :: 0 <= i < |a| ==> b[i] <= a[i] && c[i] == a[i] - b[i]
    ensures Sum(b) <= Sum(a) && Sum(c) == Sum(a) - Sum(b)
    decreases |a|
  {
    if a != [] {
      SumDifference(a[..|a| - 1], b[..|b| - 1], c[..|c| - 1]);
    }
  }

  lemma {:induction false} SumZeros(n: nat)
    ensures Sum(seq(n, _ => 0)) == 0
  {
    if n > 0 {
      SumZeros(n - 1);
      assert seq(n, _ => 0)[..n - 1] == seq(n - 1, _ => 0);
    }
  }

  /** The subtraction never truncates, and the self times add up to the time of the root spans plus
      whatever was spent directly inside its own zone, which is counted again for each level. */
  lemma SelfTimesConserve(ss: seq<Span>)
    requires History(ss)
    ensures var s := Recorded(ss).stats;
            && (forall z :: 0 <= z < ZONES ==> s.child[z] <= s.ticks[z])
            && Sum(SelfTimes(s)) == ElapsedAll(ss) + RecursivesOf(ss)
  {
    var to :| InOrder(ss, 0, to);
    var s := Recorded(ss).stats;
    forall z | 0 <= z < ZONES
      ensures s.child[z] <= s.ticks[z]
    {
      ExecuteAllAdds(Started(), ss, 0, to, z);
      ChildWithinTicksAll(ss, 0, to, z);
    }
    ExecuteAllSums(Started(), ss, 0, to);
    SumZeros(ZONES);
    SumDifference(s.ticks, s.child, SelfTimes(s));
  }

  /** So the report accounts for every tick once exactly when no time passed in a zone opened
      directly inside itself. */
  lemma AccountedOnceIff(ss: seq<Span>)
    requires History(ss)
    ensures Sum(SelfTimes(Recorded(ss).stats)) == ElapsedAll(ss) <==> RecursivesOf(ss) == 0
  {
    SelfTimesConserve(ss);
  }

  // --- several threads ---

  function AddUp(a: seq<nat>, b: seq<nat>): (r: seq<nat>)
    requires |a| == |b|
    ensures |r| == |a|
  {
    seq(|a|, i requires 0 <= i < |a| => a[i] + b[i])
  }

  lemma {:induction false} SumAdds(a: seq<nat>, b: seq<nat>)
    requires |a| == |b|
    ensures Sum(AddUp(a, b)) == Sum(a) + Sum(b)
    decreases |a|
  {
    if a != [] {
      assert AddUp(a, b)[..|a| - 1] == AddUp(a[..|a| - 1], b[..|b| - 1]);
      SumAdds(a[..|a| - 1], b[..|b| - 1]);
    }
  }

  ghost predicate Sized(s: Stats) {
    |s.calls| == |s.ticks| == |s.child| == ZONES
  }

  function AddStats(a: Stats, b: Stats): (s: Stats)
    requires Sized(a) && Sized(b)
    ensures Sized(s)
  {
    Stats(AddUp(a.calls, b.calls), AddUp(a.ticks, b.ticks), AddUp(a.child, b.child))
  }

  /** The threads' totals, zone by zone. */
  function Merged(threads: seq<Stats>): (s: Stats)
    requires forall i :: 0 <= i < |threads| ==> Sized(threads[i])
    ensures Sized(s)
  {
    if threads == [] then Started().stats
    else AddStats(Merged(threads[..|threads| - 1]), threads[|threads| - 1])
  }

  function RecordedAll(threads: seq<seq<Span>>): (r: seq<Stats>)
    ensures |r| == |threads| && forall i :: 0 <= i < |r| ==> Sized(r[i]) && r[i] == Recorded(threads[i]).stats
  {
    seq(|threads|, i requires 0 <= i < |threads| => Recorded(threads[i]).stats)
  }

  function RootTime(threads: seq<seq<Span>>): Ticks {
    if threads == [] then 0 else RootTime(threads[..|threads| - 1]) + ElapsedAll(threads[|threads| - 1])
  }

  function RepeatedTime(threads: seq<seq<Span>>): Ticks {
    if threads == [] then 0 else RepeatedTime(threads[..|threads| - 1]) + RecursivesOf(threads[|threads| - 1])
  }

  /** The same over all threads at once: merging before subtracting loses nothing either. */
  lemma {:induction false} MergedConserves(threads: seq<seq<Span>>)
    requires forall i :: 0 <= i < |threads| ==> History(threads[i])
    ensures var s := Merged(RecordedAll(threads));
            && (forall z :: 0 <= z < ZONES ==> s.child[z] <= s.ticks[z])
            && Sum(SelfTimes(s)) == RootTime(threads) + RepeatedTime(threads)
    decreases |threads|
  {
    var all := RecordedAll(threads);
    var s := Merged(all);
    if threads == [] {
      SumZeros(ZONES);
      assert SelfTimes(s) == Zeros();
    } else {
      assert all[..|all| - 1] == RecordedAll(threads[..|threads| - 1]);
      MergedConserves(threads[..|threads| - 1]);
      SelfTimesConserve(threads[|threads| - 1]);
      SelfTimesAdd(Merged(all[..|all| - 1]), Recorded(threads[|threads| - 1]).stats);
    }
  }

  lemma SelfTimesAdd(a: Stats, b: Stats)
    requires Sized(a) && Sized(b)
    requires forall z :: 0 <= z < ZONES ==> a.child[z] <= a.ticks[z] && b.child[z] <= b.ticks[z]
    ensures var s := AddStats(a, b);
            && (forall z :: 0 <= z < ZONES ==> s.child[z] <= s.ticks[z])
            && Sum(SelfTimes(s)) == Sum(SelfTimes(a)) + Sum(SelfTimes(b))
  {
    assert SelfTimes(AddStats(a, b)) == AddUp(SelfTimes(a), SelfTimes(b));
    SumAdds(SelfTimes(a), SelfTimes(b));
  }

  // --- as the driver keeps it ---

  class ThreadStats {
    const calls: array<nat>
    const ticks: array<Ticks>
    const child: array<Ticks>
    const open: array<Zone>
    var depth: nat

    ghost predicate Valid()
      reads this, calls, ticks, child, open
    {
      && calls.Length == ticks.Length == child.Length == ZONES && open.Length == STACK
      && calls != ticks && calls != child && calls != open && ticks != child && ticks != open && child != open
      && depth <= STACK
      && Model().Valid()
    }

    ghost function Model(): Thread
      requires depth <= open.Length
      reads this, calls, ticks, child, open
    {
      Thread(Stats(calls[..], ticks[..], child[..]), open[..depth])
    }

    constructor ()
      ensures Valid() && Model() == Started()
      ensures fresh(calls) && fresh(ticks) && fresh(child) && fresh(open)
    {
      calls := new nat[ZONES](_ => 0);
      ticks := new Ticks[ZONES](_ => 0);
      child := new Ticks[ZONES](_ => 0);
      open := new Zone[STACK](_ => 0);
      depth := 0;
      new;
      assert calls[..] == Zeros() && ticks[..] == Zeros() && child[..] == Zeros() && open[..0] == [];
    }

    method Push(zone: Zone, now: Ticks) returns (start: Ticks)
      requires Valid()
      modifies this`depth, open
      ensures Valid() && Model() == old(Model()).Push(zone) && start == now
    {
      if zone < ZONES && depth < STACK {
        open[depth] := zone;
        depth := depth + 1;
      }
      return now;
    }

    method Pop(zone: Zone, start: Ticks, now: Ticks)
      requires Valid()
      modifies this`depth, calls, ticks, child
      ensures Valid() && Model() == old(Model()).Pop(zone, start, now)
    {
      ghost var t := Model();
      if depth > 0 {
        depth := depth - 1;
        assert open[..depth] == t.stack[..|t.stack| - 1];
      }
      Record(zone, start, now);
    }

    method Record(zone: Zone, start: Ticks, end: Ticks)
      requires Valid()
      modifies calls, ticks, child
      ensures Valid() && Model() == old(Model()).Record(zone, start, end)
    {
      if zone >= ZONES || end <= start {
        return;
      }
      ghost var t := Model();
      var elapsed := end - start;
      calls[zone] := calls[zone] + 1;
      ticks[zone] := ticks[zone] + elapsed;
      assert calls[..] == t.stats.calls[zone := t.stats.calls[zone] + 1];
      assert ticks[..] == t.stats.ticks[zone := t.stats.ticks[zone] + elapsed];
      if depth > 0 && open[depth - 1] != zone {
        var parent := open[depth - 1];
        assert parent == t.stack[|t.stack| - 1];
        child[parent] := child[parent] + elapsed;
        assert child[..] == t.stats.child[parent := t.stats.child[parent] + elapsed];
      }
    }
  }

  method Merge(threads: seq<ThreadStats>, ghost models: seq<Stats>) returns (out: Stats)
    requires |models| == |threads|
    requires forall i :: 0 <= i < |threads| ==> threads[i].Valid() && threads[i].Model().stats == models[i]
    ensures (forall i :: 0 <= i < |models| ==> Sized(models[i])) && out == Merged(models)
  {
    assert forall i :: 0 <= i < |models| ==> threads[i].Model().Valid();
    out := Started().stats;
    for t := 0 to |threads|
      invariant Sized(out) && out == Merged(models[..t])
    {
      var next := AddThread(out, threads[t]);
      assert models[..t + 1] == models[..t] + [models[t]];
      MergedStep(models[..t], models[t]);
      out := next;
    }
    assert models[..|threads|] == models;
  }

  lemma MergedStep(front: seq<Stats>, last: Stats)
    requires (forall i :: 0 <= i < |front| ==> Sized(front[i])) && Sized(last)
    ensures Merged(front + [last]) == AddStats(Merged(front), last)
  {
    assert (front + [last])[..|front|] == front;
  }

  method AddThread(out: Stats, t: ThreadStats) returns (r: Stats)
    requires Sized(out) && t.Valid()
    ensures Sized(r) && r == AddStats(out, t.Model().stats)
  {
    r := out;
    for i := 0 to ZONES
      invariant Sized(r)
      invariant forall z :: i <= z < ZONES ==>
                  r.calls[z] == out.calls[z] && r.ticks[z] == out.ticks[z] && r.child[z] == out.child[z]
      invariant forall z :: 0 <= z < i ==>
                  && r.calls[z] == out.calls[z] + t.calls[z]
                  && r.ticks[z] == out.ticks[z] + t.ticks[z]
                  && r.child[z] == out.child[z] + t.child[z]
    {
      r := Stats(r.calls[i := r.calls[i] + t.calls[i]],
                 r.ticks[i := r.ticks[i] + t.ticks[i]],
                 r.child[i := r.child[i] + t.child[i]]);
    }
  }
}
