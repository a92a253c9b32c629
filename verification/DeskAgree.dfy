/** Settling where snapshot and seats agree: what is left out of place after one settle, and that nothing
    is after two. */
module DeskAgree {
  import opened Desk
  import opened DeskSettle

  // --- coming to rest ---

  /** Nothing out of place: this desk has come to rest. */
  ghost predicate AtRest(desk: Displays, m: Memory, job: Job)
    requires m.seats.Some? ==> |m.seats.value| > 0
  {
    && Staged(desk, m, job) == []
    && Settled(desk, m, job) == desk
    && Healthy(desk, job.heads)
    && forall k :: 0 <= k < |m.snapshot| ==> EntryOps(desk, m.snapshot[k], job.keepModes) == []
  }

  lemma NothingStagedIsRest(desk: Displays, m: Memory, job: Job)
    requires m.seats.Some? ==> |m.seats.value| > 0
    requires Healthy(desk, job.heads)
    requires forall k :: 0 <= k < |m.snapshot| ==> EntryOps(desk, m.snapshot[k], job.keepModes) == []
    ensures AtRest(desk, m, job)
  {
    NothingToRestore(desk, m.snapshot, job.keepModes);
    assert Staged(desk, m, job) == [];
    forall i | 0 <= i < |desk|
      ensures Committed(desk, [])[i] == desk[i]
    {
      One(desk[i], []);
    }
    assert Committed(desk, []) == desk;
  }

  /** From healthy heads one settle puts every remembered display in place, heads and all. */
  lemma HealthyRestores(desk: Displays, m: Memory, job: Job, k: nat)
    requires Proper(desk, m, job) && Healthy(desk, job.heads) && k < |m.snapshot|
    ensures EntryOps(Settled(desk, m, job), m.snapshot[k], job.keepModes) == []
  {
    var e := m.snapshot[k];
    var ops := Staged(desk, m, job);
    assert ops == RestoreOps(desk, m.snapshot, job.keepModes);
    ListedCommitted(desk, ops);
    FindCommitted(Listed(desk), ops, e.id);
    OnlineCommitted(desk, ops, e.mirrorOf);
    ListedFound(desk, e.id);
    if Online(desk, e.id) {
      var d := Find(desk, e.id).value;
      RestoreOne(desk, m.snapshot, job.keepModes, k, d);
      RestoredMeans(desk, e, d, job.keepModes);
    }
  }

  /** With the heads in place to begin with, one settle is enough. */
  lemma HealthySettlesToRest(desk: Displays, m: Memory, job: Job)
    requires Proper(desk, m, job) && Healthy(desk, job.heads) && Agrees(desk, m, job)
    ensures AtRest(Settled(desk, m, job), Remembered(desk, m, job), job)
  {
    forall k | 0 <= k < |m.snapshot|
      ensures EntryOps(Settled(desk, m, job), m.snapshot[k], job.keepModes) == []
    {
      HealthyRestores(desk, m, job, k);
    }
    SettleSeatsHeads(desk, m, job);
    AimInRow(desk, m, job);
    LandingsAim(desk, m, job);
    hide Settled, Landings, Aim, Healthy, Proper, MirrorsAgree, Pin, EntryOps, InRow, AllPinned;
    NothingStagedIsRest(Settled(desk, m, job), Remembered(desk, m, job), job);
  }

  /** From any other desk one settle seats the heads, and does not upset an agreement. */
  lemma UnhealthySettles(desk: Displays, m: Memory, job: Job)
    requires Proper(desk, m, job) && !Healthy(desk, job.heads) && Agrees(desk, m, job)
    ensures var after, kept := Settled(desk, m, job), Remembered(desk, m, job);
            Proper(after, kept, job) && Healthy(after, job.heads) && Agrees(after, kept, job)
  {
    SettleSeatsHeads(desk, m, job);
    ProperAfterSettle(desk, m, job);
    SnapshotAfterSettle(desk, m, job);
    LandingsAim(desk, m, job);
    AgreeAlike(desk, m, Settled(desk, m, job), Remembered(desk, m, job), job);
    hide Settled, Pin, Proper, Landings, Healthy, MirrorsAgree, InRow, SeatsAgree;
  }

  /** Pins agree with the same seats as before after a settle that does not move the aim. */
  lemma AgreeAlike(desk: Displays, m: Memory, after: Displays, kept: Memory, job: Job)
    requires (m.seats.Some? ==> |m.seats.value| > 0) && (kept.seats.Some? ==> |kept.seats.value| > 0)
    requires forall i :: 0 <= i < |job.heads| ==> Pin(after, kept, job.heads[i]) == Pin(desk, m, job.heads[i])
    requires AllPinned(desk, m, job) || Aim(after, kept, job) == Aim(desk, m, job)
    ensures SeatsAgree(after, kept, job) <==> SeatsAgree(desk, m, job)
  {
    hide Pin, Aim, InRow;
    if AllPinned(desk, m, job) {
      assert Pins(after, kept, job) == Pins(desk, m, job);
    }
  }

  /** Remembered displays that one settle leaves out of place: one that had been caught mirroring a
      head while its own master was online, and a head that went to a seat it is not remembered in. */
  ghost predicate Misplaced(desk: Displays, m: Memory, job: Job, k: nat)
    requires k < |m.snapshot| && (m.seats.Some? ==> |m.seats.value| > 0)
  {
    var e := m.snapshot[k];
    && Online(desk, e.id)
    && if e.id in job.heads then
         !Healthy(desk, job.heads)
         && exists i :: 0 <= i < |job.heads| && job.heads[i] == e.id && Aim(desk, m, job)[i] != Seat(e.x, e.y)
       else e.mirrorOf != 0 && Online(desk, e.mirrorOf) && Bounds(desk, e.id).mirror in job.heads
  }

  /** After one settle each remembered display is in place exactly unless it is one of those. */
  lemma EntryAfterSettle(desk: Displays, m: Memory, job: Job, k: nat)
    requires Proper(desk, m, job) && MirrorsAgree(desk, m, job) && k < |m.snapshot|
    ensures EntryOps(Settled(desk, m, job), m.snapshot[k], job.keepModes) == [] <==> !Misplaced(desk, m, job, k)
  {
    var e := m.snapshot[k];
    ListedFound(desk, e.id);
    if !Online(desk, e.id) {
      ListedCommitted(desk, Staged(desk, m, job));
      FindCommitted(Listed(desk), Staged(desk, m, job), e.id);
    } else if Healthy(desk, job.heads) {
      HealthyRestores(desk, m, job, k);
      NothingFollows(desk, job.heads, e.id);
    } else if e.id in job.heads {
      HeadEntryAfterSeating(desk, m, job, k);
    } else {
      OtherEntryAfterSettle(desk, m, job, k);
    }
  }

  lemma NothingFollows(desk: Displays, heads: seq<nat>, id: nat)
    requires Distinct(desk) && Online(desk, id)
    ensures Healthy(desk, heads) && id !in heads ==> Bounds(desk, id).mirror !in heads
  {
    var i :| 0 <= i < |Listed(desk)| && Listed(desk)[i].id == id;
    FoundAt(desk, i);
    if Bounds(desk, id).mirror in heads && id !in heads {
      FollowerUnhealthy(desk, heads, i);
    }
  }

  lemma HeadEntryAfterSeating(desk: Displays, m: Memory, job: Job, k: nat)
    requires Proper(desk, m, job) && MirrorsAgree(desk, m, job) && k < |m.snapshot|
    requires !Healthy(desk, job.heads) && m.snapshot[k].id in job.heads && Online(desk, m.snapshot[k].id)
    ensures EntryOps(Settled(desk, m, job), m.snapshot[k], job.keepModes) == [] <==> !Misplaced(desk, m, job, k)
  {
    var e := m.snapshot[k];
    assert !Mirrors(desk, e);
    var ops := Staged(desk, m, job);
    var i :| 0 <= i < |job.heads| && job.heads[i] == e.id;
    var h := Bounds(desk, e.id);
    ListedFound(desk, e.id);
    ListedCommitted(desk, ops);
    FindCommitted(Listed(desk), ops, e.id);
    OnlineCommitted(desk, ops, e.mirrorOf);
    SeatedEntry(desk, m, job, k, i);
    hide Healthy, Staged, Bounds, Aim, Changed, EntryOps, Online, Find, Listed, MirrorsAgree;
    PlacedIff(Settled(desk, m, job), e, Changed(h, ops), job.keepModes);
    assert forall j :: 0 <= j < |job.heads| && job.heads[j] == e.id ==> j == i;
  }

  lemma SeatedEntry(desk: Displays, m: Memory, job: Job, k: nat, i: nat)
    requires Proper(desk, m, job) && k < |m.snapshot| && i < |job.heads| && job.heads[i] == m.snapshot[k].id
    requires !Healthy(desk, job.heads) && Online(desk, m.snapshot[k].id)
    ensures var e, d := m.snapshot[k], Changed(Bounds(desk, m.snapshot[k].id), Staged(desk, m, job));
            Seat(d.x, d.y) == Aim(desk, m, job)[i] && (job.keepModes && e.mode.Some? ==> d.mode == e.mode)
  {
    var e := m.snapshot[k];
    var restore := RestoreOps(desk, m.snapshot, job.keepModes);
    var s := FirstSeat(desk, job.heads, job.width, job.height, m.seats, job.anchors);
    var h := Bounds(desk, e.id);
    ListedFound(desk, e.id);
    RestoreOne(desk, m.snapshot, job.keepModes, k, h);
    RestoredMeans(desk, e, h, job.keepModes);
    ChangedAppend(h, restore, ArrangeOps(desk, job.heads, job.width, s));
    HeadSeated(desk, job.heads, job.width, s, i, Changed(h, restore));
  }

  lemma OtherEntryAfterSettle(desk: Displays, m: Memory, job: Job, k: nat)
    requires Proper(desk, m, job) && MirrorsAgree(desk, m, job) && k < |m.snapshot|
    requires m.snapshot[k].id !in job.heads && Online(desk, m.snapshot[k].id)
    ensures EntryOps(Settled(desk, m, job), m.snapshot[k], job.keepModes) == [] <==> !Misplaced(desk, m, job, k)
  {
    var e := m.snapshot[k];
    var ops := Staged(desk, m, job);
    ListedFound(desk, e.id);
    ListedCommitted(desk, ops);
    FindCommitted(Listed(desk), ops, e.id);
    OnlineCommitted(desk, ops, e.mirrorOf);
    var i :| 0 <= i < |Listed(desk)| && Listed(desk)[i].id == e.id;
    FoundAt(desk, i);
    var d := Listed(desk)[i];
    OtherSettled(desk, m, job, i);
    RestoreOne(desk, m.snapshot, job.keepModes, k, d);
    RestoredMeans(desk, e, d, job.keepModes);
    assert Mirrors(desk, e) ==> e.mirrorOf !in job.heads;
    hide EntryOps, Staged, Changed, Committed, Online, RestoreOps, Proper, MirrorsAgree, Listed;
    PlacedIff(Settled(desk, m, job), e, Changed(d, ops), job.keepModes);
  }

  /** With an agreement, the second settle commits exactly when the first left something misplaced. */
  lemma SecondSettleNeeded(desk: Displays, m: Memory, job: Job)
    requires Proper(desk, m, job) && Agrees(desk, m, job)
    ensures Staged(Settled(desk, m, job), Remembered(desk, m, job), job) != []
       <==> exists k :: 0 <= k < |m.snapshot| && Misplaced(desk, m, job, k)
  {
    var after := Settled(desk, m, job);
    if Healthy(desk, job.heads) {
      HealthySettlesToRest(desk, m, job);
    } else {
      UnhealthySettles(desk, m, job);
    }
    NothingToRestore(after, m.snapshot, job.keepModes);
    forall k | 0 <= k < |m.snapshot|
      ensures EntryOps(after, m.snapshot[k], job.keepModes) == [] <==> !Misplaced(desk, m, job, k)
    {
      EntryAfterSettle(desk, m, job, k);
    }
    hide Settled, EntryOps, Misplaced, Agrees, Proper, RestoreOps;
  }
}
