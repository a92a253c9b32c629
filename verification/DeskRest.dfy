/** Where settling comes to rest: exactly which snapshots let it, and that then at most two settles
    commit before the heads sit side by side on their own desktops with every remembered display back
    in place. */
module DeskRest {
  import opened Desk
  import opened DeskSettle
  import opened DeskAgree

  // --- which desks rest ---

  lemma SeatsStaged(heads: seq<nat>, width: nat, s: Seat)
    requires |heads| > 0
    ensures SeatOps(heads, width, s.x, s.y, |heads|) != []
  {
  }

  lemma UnhealthyStages(desk: Displays, m: Memory, job: Job)
    requires Proper(desk, m, job) && !Healthy(desk, job.heads)
    ensures Staged(desk, m, job) != []
  {
    SeatsStaged(job.heads, job.width, FirstSeat(desk, job.heads, job.width, job.height, m.seats, job.anchors));
  }

  lemma InPlace(desk: Displays, m: Memory, job: Job, k: nat)
    requires Proper(desk, m, job) && Staged(desk, m, job) == [] && k < |m.snapshot| && Online(desk, m.snapshot[k].id)
    ensures var e, d := m.snapshot[k], Bounds(desk, m.snapshot[k].id);
            d.x == e.x && d.y == e.y && (Mirrors(desk, e) ==> d.mirror == e.mirrorOf)
  {
    NothingToRestore(desk, m.snapshot, job.keepModes);
    ListedFound(desk, m.snapshot[k].id);
  }

  /** Where nothing is staged, snapshot and seats agree. */
  lemma RestAgrees(desk: Displays, m: Memory, job: Job)
    requires Proper(desk, m, job) && Staged(desk, m, job) == []
    ensures Agrees(desk, m, job)
  {
    if !Healthy(desk, job.heads) {
      UnhealthyStages(desk, m, job);
    }
    forall k | 0 <= k < |m.snapshot| && Mirrors(desk, m.snapshot[k])
      ensures m.snapshot[k].id !in job.heads && m.snapshot[k].mirrorOf !in job.heads
    {
      InPlace(desk, m, job, k);
      MirrorUnhealthy(desk, job.heads, m.snapshot[k]);
    }
    forall i | 0 <= i < |job.heads| && Pin(desk, m, job.heads[i]).Some?
      ensures Pin(desk, m, job.heads[i]).value == SeatsOf(desk, job.heads)[i]
    {
      InPlace(desk, m, job, FindEntry(m.snapshot, job.heads[i]).value);
    }
    AimInRow(desk, m, job);
    hide Proper, Staged, Pin, MirrorsAgree, Healthy;
    if AllPinned(desk, m, job) {
      assert Pins(desk, m, job) == SeatsOf(desk, job.heads);
    }
  }

  lemma MirrorUnhealthy(desk: Displays, heads: seq<nat>, e: Entry)
    requires Distinct(desk) && Mirrors(desk, e) && Bounds(desk, e.id).mirror == e.mirrorOf && Healthy(desk, heads)
    ensures e.id !in heads && e.mirrorOf !in heads
  {
    if i :| 0 <= i < |heads| && heads[i] == e.id {
      assert InMirrorSet(desk, heads[i]);
    } else if j :| 0 <= j < |heads| && heads[j] == e.mirrorOf {
      var i :| 0 <= i < |Listed(desk)| && Listed(desk)[i].id == e.id;
      FoundAt(desk, i);
      assert InMirrorSet(desk, heads[j]);
    }
  }

  /** And they go on contradicting each other: settling does not end it. */
  lemma DisagreementKept(desk: Displays, m: Memory, job: Job)
    requires Proper(desk, m, job) && !Agrees(desk, m, job)
    ensures !Agrees(Settled(desk, m, job), Remembered(desk, m, job), job)
  {
    SnapshotAfterSettle(desk, m, job);
    if MirrorsAgree(desk, m, job) {
      if AllPinned(desk, m, job) {
        PinsKept(desk, m, job);
      } else {
        AimKept(desk, m, job);
        AgreeAlike(desk, m, Settled(desk, m, job), Remembered(desk, m, job), job);
      }
    }
    hide Settled, Remembered, Proper, MirrorsAgree, SeatsAgree;
  }

  lemma PinsKept(desk: Displays, m: Memory, job: Job)
    requires Proper(desk, m, job) && AllPinned(desk, m, job)
    ensures SeatsAgree(Settled(desk, m, job), Remembered(desk, m, job), job) <==> SeatsAgree(desk, m, job)
  {
    SnapshotAfterSettle(desk, m, job);
    AgreeAlike(desk, m, Settled(desk, m, job), Remembered(desk, m, job), job);
  }

  /** With one of two heads remembered elsewhere, the heads are seated and torn apart in turn, and the
      seats stay what they were. */
  lemma AimKept(desk: Displays, m: Memory, job: Job)
    requires Proper(desk, m, job) && MirrorsAgree(desk, m, job)
    requires !AllPinned(desk, m, job) && !SeatsAgree(desk, m, job)
    ensures Aim(Settled(desk, m, job), Remembered(desk, m, job), job) == Aim(desk, m, job)
  {
    var after, kept := Settled(desk, m, job), Remembered(desk, m, job);
    SnapshotAfterSettle(desk, m, job);
    SettleSeatsHeads(desk, m, job);
    AimInRow(desk, m, job);
    LandingsAim(desk, m, job);
    if Healthy(desk, job.heads) {
      TornApart(desk, m, job);
    }
    hide Settled, Landings, Proper, MirrorsAgree, Healthy, SeatsAgree, AllPinned;
    RowFromFirst(job.heads, job.width, Aim(desk, m, job));
  }

  lemma TornApart(desk: Displays, m: Memory, job: Job)
    requires Proper(desk, m, job) && Healthy(desk, job.heads) && InRow(Aim(desk, m, job), job.width)
    requires !AllPinned(desk, m, job) && !SeatsAgree(desk, m, job)
    ensures !InRow(Landings(desk, m, job), job.width)
  {
    hide Healthy, Pin, Distinct, DistinctEntries;
    var i :| 0 <= i < |job.heads| && Pin(desk, m, job.heads[i]).None?;
    var j :| 0 <= j < |job.heads| && Pin(desk, m, job.heads[j]).Some?
             && Pin(desk, m, job.heads[j]).value != Aim(desk, m, job)[j];
    var a, l := Aim(desk, m, job), Landings(desk, m, job);
    assert l[i] == a[i] && l[j] != a[j];
    assert a[1] == Seat(a[0].x + job.width, a[0].y);
  }

  lemma RowFromFirst(heads: seq<nat>, width: nat, seats: seq<Seat>)
    requires 0 < |seats| == |heads| <= MAX_HEADS && InRow(seats, width)
    ensures Run(heads, width, seats[0]) == seats
  {
    forall i | 0 <= i < |seats|
      ensures Run(heads, width, seats[0])[i] == seats[i]
    {
      assert i == 0 || seats[i] == Seat(seats[0].x + width, seats[0].y);
    }
  }

  /** One settle after another, each from where the last left the desk and the driver. */
  ghost predicate SettleRun(ds: seq<Displays>, ms: seq<Memory>, job: Job) {
    && |ds| == |ms| > 0
    && (forall i :: 0 <= i < |ms| && ms[i].seats.Some? ==> |ms[i].seats.value| > 0)
    && forall i :: 1 <= i < |ds| ==>
         ds[i] == Settled(ds[i - 1], ms[i - 1], job) && ms[i] == Remembered(ds[i - 1], ms[i - 1], job)
  }

  ghost predicate Quarrels(desk: Displays, m: Memory, job: Job) {
    Proper(desk, m, job) && !Agrees(desk, m, job)
  }

  lemma QuarrelKept(desk: Displays, m: Memory, job: Job)
    requires Quarrels(desk, m, job)
    ensures |job.heads| > 0 && (m.seats.Some? ==> |m.seats.value| > 0)
    ensures Staged(desk, m, job) != [] && Quarrels(Settled(desk, m, job), Remembered(desk, m, job), job)
  {
    DisagreementStages(desk, m, job);
    ProperAfterSettle(desk, m, job);
    DisagreementKept(desk, m, job);
  }

  /** Settling a desk whose snapshot and seats contradict each other never ends: every settle of every
      run commits. */
  lemma {:induction false} NeverRests(ds: seq<Displays>, ms: seq<Memory>, job: Job, n: nat)
    requires SettleRun(ds, ms, job) && Quarrels(ds[0], ms[0], job) && n < |ds|
    ensures Quarrels(ds[n], ms[n], job) && Staged(ds[n], ms[n], job) != []
    decreases n
  {
    hide Quarrels, Settled, Remembered, Staged;
    if n > 0 {
      NeverRests(ds, ms, job, n - 1);
      QuarrelKept(ds[n - 1], ms[n - 1], job);
    }
    QuarrelKept(ds[n], ms[n], job);
  }

  lemma DisagreementStages(desk: Displays, m: Memory, job: Job)
    requires Proper(desk, m, job) && !Agrees(desk, m, job)
    ensures Staged(desk, m, job) != []
  {
    if Staged(desk, m, job) == [] {
      RestAgrees(desk, m, job);
    }
  }

  /** From any desk at most two settles commit, after which nothing is staged, the heads are healthy
      and every remembered display is in place: exactly when snapshot and seats agree. */
  lemma TwoSettlesRestIff(desk: Displays, m: Memory, job: Job)
    requires Proper(desk, m, job)
    ensures var d, k := Settled(desk, m, job), Remembered(desk, m, job);
            AtRest(Settled(d, k, job), Remembered(d, k, job), job) <==> Agrees(desk, m, job)
  {
    var d, k := Settled(desk, m, job), Remembered(desk, m, job);
    if !Agrees(desk, m, job) {
      QuarrelKept(desk, m, job);
      QuarrelKept(d, k, job);
      DisagreementStages(Settled(d, k, job), Remembered(d, k, job), job);
    } else if Healthy(desk, job.heads) {
      HealthySettlesToRest(desk, m, job);
      RestIsKept(d, k, job);
    } else {
      UnhealthySettles(desk, m, job);
      HealthySettlesToRest(d, k, job);
    }
  }

  lemma RestIsKept(desk: Displays, m: Memory, job: Job)
    requires (m.seats.Some? ==> |m.seats.value| > 0) && AtRest(desk, m, job) && |job.heads| > 0
    ensures AtRest(Settled(desk, m, job), Remembered(desk, m, job), job)
  {
    NothingStagedIsRest(desk, Remembered(desk, m, job), job);
  }

  /** A snapshot from before the heads were made agrees with any seats. */
  lemma EarlySnapshotAgrees(desk: Displays, m: Memory, job: Job)
    requires Proper(desk, m, job)
    requires forall k :: 0 <= k < |m.snapshot| ==>
               m.snapshot[k].id !in job.heads && m.snapshot[k].mirrorOf !in job.heads
    ensures Agrees(desk, m, job)
  {
    forall i | 0 <= i < |job.heads|
      ensures Pin(desk, m, job.heads[i]).None?
    {
    }
    assert Pin(desk, m, job.heads[0]).None?;
  }

  lemma AgreementKept(desk: Displays, m: Memory, job: Job)
    requires Proper(desk, m, job)
    ensures Agrees(Settled(desk, m, job), Remembered(desk, m, job), job) <==> Agrees(desk, m, job)
  {
    if !Agrees(desk, m, job) {
      DisagreementKept(desk, m, job);
    } else if !Healthy(desk, job.heads) {
      UnhealthySettles(desk, m, job);
    } else {
      SnapshotAfterSettle(desk, m, job);
      if AllPinned(desk, m, job) {
        PinsKept(desk, m, job);
      } else {
        SettleSeatsHeads(desk, m, job);
        AimInRow(desk, m, job);
        LandingsAim(desk, m, job);
        AgreeAlike(desk, m, Settled(desk, m, job), Remembered(desk, m, job), job);
      }
    }
  }
}
