/** The watch and the settles it triggers, together: commits raise callbacks, callbacks arm the watch,
    and still it all comes to an end. */
module DeskWatch {
  import opened Desk
  import opened DeskSettle
  import opened DeskAgree
  import opened DeskRest
  import opened DeskAdopt
  import opened Debounce

  /** `commits` counts the settles that changed anything. */
  datatype Site = Site(w: Watch, desk: Displays, m: Memory, commits: nat)

  /** A settle, on the desk as it is if it adopts it. */
  function SettledSite(s: Site, w: Watch, adopts: bool, job: Job): Site
    requires s.m.seats.Some? ==> |s.m.seats.value| > 0
  {
    var m := if adopts then Adopted(s.desk, s.m) else s.m;
    Site(w, Settled(s.desk, m, job), Remembered(s.desk, m, job),
         s.commits + if Staged(s.desk, m, job) == [] then 0 else 1)
  }

  /** A callback, or the delayed block running; nobody else touches the desk. */
  function Next(s: Site, e: Event, job: Job): Site
    requires s.m.seats.Some? ==> |s.m.seats.value| > 0
  {
    var w := Step(s.w, e);
    if |w.runs| > |s.w.runs| then SettledSite(s, w, w.runs[|w.runs| - 1].adopts, job) else s.(w := w)
  }

  /** A head's mode is as wide as the head. */
  ghost predicate Coherent(desk: Displays, job: Job) {
    forall i :: 0 <= i < |job.heads| && Bounds(desk, job.heads[i]).mode.Some? ==>
                  Bounds(desk, job.heads[i]).mode.value.width == job.width
  }

  ghost predicate Ready(s: Site, job: Job) {
    Proper(s.desk, s.m, job) && Coherent(s.desk, job) && s.w.Valid()
  }

  ghost predicate Timely(w: Watch, clock: real) {
    w.armed ==> w.deadline <= clock + SETTLE_DELAY
  }

  lemma AdoptedProper(desk: Displays, m: Memory, job: Job)
    requires Proper(desk, m, job) && Coherent(desk, job)
    ensures Proper(desk, Adopted(desk, m), job)
  {
    var s := SnapshotOf(desk);
    forall k | 0 <= k < |s| && s[k].id in job.heads && s[k].mode.Some?
      ensures s[k].mode.value.width == job.width
    {
      FoundAt(desk, k);
      var i :| 0 <= i < |job.heads| && job.heads[i] == s[k].id;
      assert Bounds(desk, job.heads[i]) == Listed(desk)[k];
    }
  }

  lemma CoherentKept(desk: Displays, m: Memory, job: Job)
    requires Proper(desk, m, job) && Coherent(desk, job)
    ensures Coherent(Settled(desk, m, job), job)
  {
    forall i | 0 <= i < |job.heads| && Bounds(Settled(desk, m, job), job.heads[i]).mode.Some?
      ensures Bounds(Settled(desk, m, job), job.heads[i]).mode.value.width == job.width
    {
      HeadModeKept(desk, m, job, i);
    }
  }

  /** What every event keeps, time not running backwards and displays not coming or going. */
  lemma ReadyKept(s: Site, e: Event, clock: real, job: Job)
    requires Ready(s, job) && Timely(s.w, clock) && Possible(s.w, e, clock)
    ensures Ready(Next(s, e, job), job) && Timely(Next(s, e, job).w, Clock(e))
  {
    var v := Step(s.w, e);
    assert v.Valid() && Timely(v, Clock(e));
    AdoptedProper(s.desk, s.m, job);
    if |v.runs| > |s.w.runs| {
      SettledReady(s, v, v.runs[|v.runs| - 1].adopts, job);
    }
  }

  lemma SettledReady(s: Site, w: Watch, adopts: bool, job: Job)
    requires Ready(s, job) && w.Valid()
    ensures Ready(SettledSite(s, w, adopts, job), job)
  {
    var m := if adopts then Adopted(s.desk, s.m) else s.m;
    AdoptedProper(s.desk, s.m, job);
    ProperAfterSettle(s.desk, m, job);
    CoherentKept(s.desk, m, job);
    hide Proper, Coherent, Settled, Remembered, Adopted, Staged;
  }

  /** Displays have stopped coming and going, and time does not run backwards. */
  ghost predicate Quiet(s: Site, es: seq<Event>, clock: real, job: Job)
    requires Ready(s, job) && Timely(s.w, clock)
    decreases |es|
  {
    es == [] ||
    (Possible(s.w, es[0], clock) && (es[0].Called? ==> !es[0].c.topology) &&
     (ReadyKept(s, es[0], clock, job); Quiet(Next(s, es[0], job), es[1..], Clock(es[0]), job)))
  }

  function After(s: Site, es: seq<Event>, ghost clock: real, job: Job): Site
    requires Ready(s, job) && Timely(s.w, clock) && Quiet(s, es, clock, job)
    decreases |es|
  {
    if es == [] then s
    else
      ReadyKept(s, es[0], clock, job);
      After(Next(s, es[0], job), es[1..], Clock(es[0]), job)
  }

  /** The earliest the next settle can come. */
  function NextSettle(w: Watch, clock: real): real {
    if !w.armed then clock + SETTLE_DELAY else if w.deadline < clock then clock else w.deadline
  }

  /** One event puts the next settle off, or is a settle no earlier than that. */
  lemma EventPutsOff(w: Watch, e: Event, clock: real)
    requires w.Valid() && Possible(w, e, clock) && Timely(w, clock) && (e.Called? ==> !e.c.topology)
    ensures var v := Step(w, e);
            && Timely(v, Clock(e)) && v.topologyAt == w.topologyAt
            && if |v.runs| > |w.runs| then
                 var run := v.runs[|v.runs| - 1];
                 && v.runs == w.runs + [run] && !v.armed
                 && run.at == Clock(e) >= NextSettle(w, clock)
                 && (run.adopts <==> run.at - w.topologyAt >= 5.0)
                 && NextSettle(v, Clock(e)) >= NextSettle(w, clock) + 0.4
               else v.runs == w.runs && NextSettle(v, Clock(e)) >= NextSettle(w, clock)
  {
  }

  /** At most one settle for each delay left of the five seconds, and one that adopts the desk: with
      the heads healthy not even that. */
  lemma {:induction false} CommitsBounded(s: Site, es: seq<Event>, clock: real, job: Job, k: nat)
    requires Ready(s, job) && Timely(s.w, clock) && Quiet(s, es, clock, job)
    requires NextSettle(s.w, clock) + SETTLE_DELAY * k as real >= s.w.topologyAt + TOPOLOGY_SETTLE
    ensures After(s, es, clock, job).commits <= s.commits + k + 1
    ensures k == 0 && Healthy(s.desk, job.heads) ==> After(s, es, clock, job).commits == s.commits
    decreases |es|
  {
    if es != [] {
      var e := es[0];
      var n := Next(s, e, job);
      ReadyKept(s, e, clock, job);
      EventPutsOff(s.w, e, clock);
      if |n.w.runs| == |s.w.runs| {
        CommitsBounded(n, es[1..], Clock(e), job, k);
      } else if k > 0 {
        CommitsBounded(n, es[1..], Clock(e), job, k - 1);
      } else {
        AdoptingStep(s, n.w, job);
        CommitsBounded(n, es[1..], Clock(e), job, 0);
      }
    }
  }

  lemma AdoptingStep(s: Site, w: Watch, job: Job)
    requires Ready(s, job)
    ensures var n := SettledSite(s, w, true, job);
            Healthy(n.desk, job.heads) && n.commits == s.commits + if Healthy(s.desk, job.heads) then 0 else 1
  {
    AdoptedProper(s.desk, s.m, job);
    AdoptingSettleRests(s.desk, s.m, job);
  }

  /** Once displays have stopped coming and going and nobody else touches the desk, at most thirteen
      settles change anything, whatever the snapshot holds and however callbacks and timers fall; and
      as a commit is what raises the callbacks, that is the end of it. */
  lemma CommitsEnd(s: Site, es: seq<Event>, clock: real, job: Job)
    requires Ready(s, job) && Timely(s.w, clock) && Quiet(s, es, clock, job)
    requires s.w.armed && s.w.topologyAt <= clock && s.w.deadline == clock + 0.4
    ensures After(s, es, clock, job).commits <= s.commits + 13
  {
    CommitsBounded(s, es, clock, job, 12);
  }

  /** Settles that still have something to do, while snapshot and seats agree. */
  function Outstanding(s: Site, job: Job): nat
    requires s.m.seats.Some? ==> |s.m.seats.value| > 0
  {
    if !Healthy(s.desk, job.heads) then 2 else if Staged(s.desk, s.m, job) == [] then 0 else 1
  }

  /** And when snapshot and seats agree, at most two. */
  lemma {:induction false} AgreedCommitsEnd(s: Site, es: seq<Event>, clock: real, job: Job)
    requires Ready(s, job) && Timely(s.w, clock) && Quiet(s, es, clock, job)
    requires Agrees(s.desk, s.m, job)
    ensures After(s, es, clock, job).commits <= s.commits + Outstanding(s, job) <= s.commits + 2
    decreases |es|
  {
    if es != [] {
      var e := es[0];
      var n := Next(s, e, job);
      ReadyKept(s, e, clock, job);
      EventPutsOff(s.w, e, clock);
      if |n.w.runs| == |s.w.runs| {
        AgreedCommitsEnd(n, es[1..], Clock(e), job);
      } else if n.w.runs[|n.w.runs| - 1].adopts {
        AdoptingStep(s, n.w, job);
        CommitsBounded(n, es[1..], Clock(e), job, 0);
      } else {
        AgreedStep(s, n.w, job);
        AgreedCommitsEnd(n, es[1..], Clock(e), job);
      }
    }
  }

  lemma AgreedStep(s: Site, w: Watch, job: Job)
    requires Ready(s, job) && Agrees(s.desk, s.m, job)
    ensures var n := SettledSite(s, w, false, job);
            && Agrees(n.desk, n.m, job)
            && n.commits + Outstanding(n, job) <= s.commits + Outstanding(s, job)
  {
    AgreementKept(s.desk, s.m, job);
    if Healthy(s.desk, job.heads) {
      HealthySettlesToRest(s.desk, s.m, job);
    } else {
      UnhealthySettles(s.desk, s.m, job);
    }
  }
}
