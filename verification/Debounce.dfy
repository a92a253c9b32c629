/** One settle per burst of reconfiguration callbacks: a single deadline re-armed by each callback,
    and delayed blocks that wait it out. */
module Debounce {
  import opened Common

  const SETTLE_DELAY := 0.4
  const TOPOLOGY_SETTLE := 5.0

  /** A settled-phase callback, and whether displays came or went. */
  datatype Callback = Callback(at: real, topology: bool)

  /** One run of the settle body; `adopts` when it takes the desk as found for the new snapshot. */
  datatype SettleRun = SettleRun(at: real, adopts: bool)

  /** `due` are the delayed blocks outstanding on the main queue, oldest first. */
  datatype Watch = Watch(armed: bool, deadline: real, topologyAt: real, due: seq<real>, runs: seq<SettleRun>)
  {
    /** A callback re-arms the deadline, and schedules a block if none is waiting. */
    function Reconfigured(c: Callback): Watch {
      this.(
        topologyAt := if c.topology then c.at else topologyAt,
        deadline := c.at + SETTLE_DELAY,
        armed := true,
        due := if armed then due else due + [c.at + SETTLE_DELAY])
    }

    /** The oldest block runs: it waits out a deadline that moved, or settles. */
    function SettleNow(now: real): Watch
      requires due != []
    {
      if now < deadline then this.(due := due[1..] + [deadline])
      else this.(due := due[1..], armed := false,
                 runs := runs + [SettleRun(now, now - topologyAt >= TOPOLOGY_SETTLE)])
    }

    ghost predicate Valid() {
      && |due| == (if armed then 1 else 0)
      && (armed ==> due[0] <= deadline)
    }
  }

  // --- safety, however late timers fire ---

  datatype Event = Called(c: Callback) | Fired(now: real)

  /** Blocks never run before they are due, and time does not run backwards. */
  ghost predicate Possible(w: Watch, e: Event, clock: real) {
    match e
    case Called(c) => clock <= c.at
    case Fired(now) => clock <= now && w.due != [] && w.due[0] <= now
  }

  function Step(w: Watch, e: Event): Watch {
    match e
    case Called(c) => w.Reconfigured(c)
    case Fired(now) => if w.due == [] then w else w.SettleNow(now)
  }

  function Clock(e: Event): real {
    match e
    case Called(c) => c.at
    case Fired(now) => now
  }

  ghost predicate PossibleRun(w: Watch, es: seq<Event>, clock: real)
    decreases |es|
  {
    es == [] || (Possible(w, es[0], clock) && PossibleRun(Step(w, es[0]), es[1..], Clock(es[0])))
  }

  function After(w: Watch, es: seq<Event>): Watch
    decreases |es|
  {
    if es == [] then w else After(Step(w, es[0]), es[1..])
  }

  /** The last callback so far, if one came since `last`. */
  function LastCall(es: seq<Event>, last: Option<real>): Option<real>
    decreases |es|
  {
    if es == [] then last
    else LastCall(es[1..], if es[0].Called? then Some(es[0].c.at) else last)
  }

  /** Times the watch went from idle to armed. */
  function Bursts(w: Watch, es: seq<Event>): nat
    decreases |es|
  {
    if es == [] then 0
    else (if es[0].Called? && !w.armed then 1 else 0) + Bursts(Step(w, es[0]), es[1..])
  }

  /** Over every interleaving of callbacks and late timers there is one block outstanding exactly
      while armed, the deadline is always 0.4 s past the last callback, and the settles are one for
      each burst that has ended. */
  lemma {:induction false} AlwaysOneBlock(w: Watch, es: seq<Event>, clock: real, last: Option<real>)
    requires w.Valid() && PossibleRun(w, es, clock)
    requires w.armed ==> last.Some? && w.deadline == last.value + 0.4 <= clock + 0.4
    ensures var n := After(w, es);
            && n.Valid()
            && (n.armed ==> LastCall(es, last).Some? && n.deadline == LastCall(es, last).value + 0.4)
            && |n.runs| + (if n.armed then 1 else 0) == |w.runs| + (if w.armed then 1 else 0) + Bursts(w, es)
    decreases |es|
  {
    if es != [] {
      var e := es[0];
      AlwaysOneBlock(Step(w, e), es[1..], Clock(e), if e.Called? then Some(e.c.at) else last);
    }
  }

  /** A settle only ever runs on a desk that has been quiet for the whole delay. */
  lemma SettlesOnlyWhenQuiet(w: Watch, es: seq<Event>, clock: real, now: real)
    requires w.Valid() && !w.armed && PossibleRun(w, es, clock)
    requires var n := After(w, es); n.due != [] && |n.SettleNow(now).runs| > |n.runs|
    ensures LastCall(es, None).Some? && now >= LastCall(es, None).value + 0.4
  {
    AlwaysOneBlock(w, es, clock, None);
  }

  // --- exactly which settles, when timers fire on time ---

  /** Blocks due by `t` have run, each at its own time. */
  function Drained(w: Watch, t: real): (r: Watch)
    requires w.Valid()
    ensures r.Valid() && (r.armed ==> r.deadline == w.deadline && w.armed)
    decreases if w.armed then 1 + (if w.due[0] < w.deadline then 1 else 0) else 0
  {
    if w.armed && w.due[0] <= t then Drained(w.SettleNow(w.due[0]), t) else w
  }

  function Played(w: Watch, calls: seq<Callback>): (r: Watch)
    requires w.Valid() && InOrder(calls)
    requires w.armed && calls != [] ==> w.deadline <= calls[0].at + SETTLE_DELAY
    ensures r.Valid()
    decreases |calls|
  {
    if calls == [] then w else Played(Drained(w, calls[0].at).Reconfigured(calls[0]), calls[1..])
  }

  ghost predicate InOrder(calls: seq<Callback>) {
    forall i :: 0 < i < |calls| ==> calls[i - 1].at <= calls[i].at
  }

  /** When displays last came or went, up to and including callback `i`. */
  function TopologyAt(calls: seq<Callback>, i: nat, before: real): real
    requires i < |calls|
  {
    if calls[i].topology then calls[i].at else if i == 0 then before else TopologyAt(calls, i - 1, before)
  }

  /** The settle, if any, between callback `i` and the next. */
  function SettleAfter(calls: seq<Callback>, i: nat, before: real): seq<SettleRun>
    requires i < |calls|
  {
    var at := calls[i].at + 0.4;
    if i + 1 == |calls| || calls[i + 1].at >= at
    then [SettleRun(at, at - TopologyAt(calls, i, before) >= 5.0)] else []
  }

  /** The settles a list of callbacks calls for: one after each that is followed by enough quiet. */
  function Settles(calls: seq<Callback>, i: nat, before: real): seq<SettleRun>
    requires i <= |calls|
    decreases |calls| - i
  {
    if i == |calls| then [] else SettleAfter(calls, i, before) + Settles(calls, i + 1, before)
  }

  /** The watch just after callback `i`: armed, with a block due by the deadline. */
  ghost predicate JustCalled(w: Watch, calls: seq<Callback>, i: nat, before: real) {
    && i < |calls| && w.Valid() && w.armed
    && w.deadline == calls[i].at + SETTLE_DELAY
    && w.topologyAt == TopologyAt(calls, i, before)
  }

  lemma DrainPast(w: Watch, t: real)
    requires w.Valid() && w.armed
    ensures var d := Drained(w, t);
            if w.deadline <= t then
              !d.armed && d.topologyAt == w.topologyAt
              && d.runs == w.runs + [SettleRun(w.deadline, w.deadline - w.topologyAt >= TOPOLOGY_SETTLE)]
            else
              d.armed && d.topologyAt == w.topologyAt && d.deadline == w.deadline && d.runs == w.runs
  {
    if w.due[0] <= t {
      var again := w.SettleNow(w.due[0]);
      if w.due[0] < w.deadline {
        assert again == w.(due := [w.deadline]);
        assert w.deadline <= t ==> Drained(again, t) == Drained(again.SettleNow(w.deadline), t);
      }
    }
  }

  lemma RestInOrder(w: Watch, calls: seq<Callback>, i: nat)
    requires InOrder(calls) && i < |calls| && w.deadline == calls[i].at + SETTLE_DELAY
    ensures InOrder(calls[i + 1..])
    ensures i + 1 < |calls| ==> w.deadline <= calls[i + 1..][0].at + SETTLE_DELAY
  {
  }

  lemma NextCall(w: Watch, calls: seq<Callback>, i: nat, before: real)
    requires InOrder(calls) && JustCalled(w, calls, i, before) && i + 1 < |calls|
    ensures var n := Drained(w, calls[i + 1].at).Reconfigured(calls[i + 1]);
            JustCalled(n, calls, i + 1, before) && n.runs == w.runs + SettleAfter(calls, i, before)
  {
    DrainPast(w, calls[i + 1].at);
  }

  lemma {:induction false} PlaysOut(w: Watch, calls: seq<Callback>, i: nat, before: real, t: real)
    requires InOrder(calls) && JustCalled(w, calls, i, before)
    requires t >= calls[|calls| - 1].at + SETTLE_DELAY
    requires InOrder(calls[i + 1..])
    requires i + 1 < |calls| ==> w.deadline <= calls[i + 1..][0].at + SETTLE_DELAY
    ensures Drained(Played(w, calls[i + 1..]), t).runs == w.runs + Settles(calls, i, before)
    ensures !Drained(Played(w, calls[i + 1..]), t).armed
    decreases |calls| - i
  {
    hide SettleAfter, Drained, InOrder, TopologyAt;
    if i + 1 == |calls| {
      LastCallSettles(w, calls, before, t);
      assert Settles(calls, i, before) == SettleAfter(calls, i, before) + [];
    } else {
      var n := Drained(w, calls[i + 1].at).Reconfigured(calls[i + 1]);
      NextCall(w, calls, i, before);
      RestInOrder(n, calls, i + 1);
      assert calls[i + 1..][1..] == calls[i + 2..];
      assert Played(w, calls[i + 1..]) == Played(n, calls[i + 2..]);
      PlaysOut(n, calls, i + 1, before, t);
      assert w.runs + SettleAfter(calls, i, before) + Settles(calls, i + 1, before)
          == w.runs + (SettleAfter(calls, i, before) + Settles(calls, i + 1, before));
    }
  }

  lemma LastCallSettles(w: Watch, calls: seq<Callback>, before: real, t: real)
    requires calls != [] && JustCalled(w, calls, |calls| - 1, before)
    requires t >= calls[|calls| - 1].at + SETTLE_DELAY
    ensures !Drained(w, t).armed && Drained(w, t).runs == w.runs + SettleAfter(calls, |calls| - 1, before)
  {
    DrainPast(w, t);
  }

  /** With timers on time, an idle watch settles exactly once after each burst, 0.4 s behind its last
      callback, and adopts the desk as found exactly when displays last came or went five seconds
      before that or earlier. */
  lemma OneSettlePerBurst(w: Watch, calls: seq<Callback>, t: real)
    requires w.Valid() && !w.armed && calls != [] && InOrder(calls)
    requires t >= calls[|calls| - 1].at + 0.4
    ensures Drained(Played(w, calls), t).runs == w.runs + Settles(calls, 0, w.topologyAt)
    ensures !Drained(Played(w, calls), t).armed
  {
    var n := Drained(w, calls[0].at).Reconfigured(calls[0]);
    assert Played(w, calls) == Played(n, calls[1..]);
    RestInOrder(n, calls, 0);
    PlaysOut(n, calls, 0, w.topologyAt, t);
  }
}
