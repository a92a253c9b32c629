/** Settles that take the desk as they find it for the new snapshot. */
module DeskAdopt {
  import opened Common
  import opened Desk
  import opened DeskSettle
  import opened DeskRest

  // --- adopting the desk as it is ---

  /** A desk is in place by its own snapshot. */
  lemma AdoptionRestoresNothing(desk: Displays, keepModes: bool)
    requires Distinct(desk)
    ensures RestoreOps(desk, SnapshotOf(desk), keepModes) == []
  {
    var s := SnapshotOf(desk);
    forall k | 0 <= k < |s|
      ensures EntryOps(desk, s[k], keepModes) == []
    {
      FoundAt(Listed(desk), k);
    }
    NothingToRestore(desk, s, keepModes);
  }

  /** A settle that adopts the desk only seats the heads, and always leaves them healthy; the next one
      that adopts finds nothing to do. */
  lemma AdoptingSettleRests(desk: Displays, m: Memory, job: Job)
    requires Proper(desk, Adopted(desk, m), job)
    ensures var after, kept := Settled(desk, Adopted(desk, m), job), Remembered(desk, Adopted(desk, m), job);
            && Healthy(after, job.heads)
            && (Staged(desk, Adopted(desk, m), job) == [] <==> Healthy(desk, job.heads))
            && Staged(after, Adopted(after, kept), job) == []
  {
    var a := Adopted(desk, m);
    var after := Settled(desk, a, job);
    AdoptionRestoresNothing(desk, job.keepModes);
    NoNewMirrorsAdopted(desk, m, job);
    if Healthy(desk, job.heads) {
      assert Staged(desk, a, job) == [];
      forall i | 0 <= i < |desk|
        ensures Committed(desk, [])[i] == desk[i]
      {
        One(desk[i], []);
      }
      assert after == desk;
    } else {
      SettleSeatsHeads(desk, a, job);
      UnhealthyStages(desk, a, job);
    }
    DistinctCommitted(desk, Staged(desk, a, job));
    AdoptionRestoresNothing(after, job.keepModes);
  }

  lemma NoNewMirrorsAdopted(desk: Displays, m: Memory, job: Job)
    requires Distinct(desk)
    ensures NoNewMirrors(desk, Adopted(desk, m), job)
  {
    forall k | 0 <= k < |SnapshotOf(desk)|
      ensures Bounds(desk, SnapshotOf(desk)[k].id).mirror == SnapshotOf(desk)[k].mirrorOf
    {
      FoundAt(desk, k);
    }
  }

  /** The heads can be listed, and whatever they mirror is online. */
  ghost predicate HeadsListed(desk: Displays, heads: seq<nat>) {
    forall i :: 0 <= i < |heads| ==>
      Online(desk, heads[i]) && (Bounds(desk, heads[i]).mirror != 0 ==> Online(desk, Bounds(desk, heads[i]).mirror))
  }

  /** A snapshot of the desk as it is agrees with any seats exactly when its heads are healthy. */
  lemma AdoptedAgreesIff(desk: Displays, m: Memory, job: Job)
    requires Proper(desk, Adopted(desk, m), job) && HeadsListed(desk, job.heads)
    ensures Agrees(desk, Adopted(desk, m), job) <==> Healthy(desk, job.heads)
  {
    var a := Adopted(desk, m);
    AdoptedMirrors(desk, m, job);
    forall i | 0 <= i < |job.heads|
      ensures Pin(desk, a, job.heads[i]) == Some(SeatsOf(desk, job.heads)[i])
    {
      AdoptedPin(desk, m, job.heads[i]);
    }
    PairedInRow(desk, job.heads, job.width);
    hide Pin, Adopted, InMirrorSet, Paired, Proper, SeatsOf, MirrorsAgree, InRow, Aim, Bounds;
    assert AllPinned(desk, a, job) && Pins(desk, a, job) == SeatsOf(desk, job.heads);
  }

  /** So a settle that adopts heads out of place seats them, and leaves the driver with a snapshot it
      can never come to rest by: only adopting again ends it. */
  lemma ScatteredAdoptionQuarrels(desk: Displays, m: Memory, job: Job)
    requires Proper(desk, Adopted(desk, m), job) && HeadsListed(desk, job.heads)
    ensures var after, kept := Settled(desk, Adopted(desk, m), job), Remembered(desk, Adopted(desk, m), job);
            Proper(after, kept, job) && (Quarrels(after, kept, job) <==> !Healthy(desk, job.heads))
  {
    AdoptedAgreesIff(desk, m, job);
    ProperAfterSettle(desk, Adopted(desk, m), job);
    AgreementKept(desk, Adopted(desk, m), job);
    hide Proper, Settled, Remembered, Adopted, Agrees;
  }

  lemma AdoptedPin(desk: Displays, m: Memory, id: nat)
    requires Distinct(desk) && Online(desk, id)
    ensures Pin(desk, Adopted(desk, m), id) == Some(Seat(Bounds(desk, id).x, Bounds(desk, id).y))
  {
    var i :| 0 <= i < |Listed(desk)| && Listed(desk)[i].id == id;
    assert SnapshotOf(desk)[i].id == id;
    var k := FindEntry(SnapshotOf(desk), id).value;
    FoundAt(desk, k);
  }

  lemma AdoptedMirrors(desk: Displays, m: Memory, job: Job)
    requires Distinct(desk) && HeadsListed(desk, job.heads) && GoodHeads(job.heads)
    ensures MirrorsAgree(desk, Adopted(desk, m), job)
       <==> forall i :: 0 <= i < |job.heads| ==> !InMirrorSet(desk, job.heads[i])
  {
    var s := SnapshotOf(desk);
    forall k | 0 <= k < |s|
      ensures Online(desk, s[k].id) && Bounds(desk, s[k].id) == Listed(desk)[k]
    {
      FoundAt(desk, k);
    }
    if MirrorsAgree(desk, Adopted(desk, m), job) {
      forall i | 0 <= i < |job.heads|
        ensures !InMirrorSet(desk, job.heads[i])
      {
        var k :| 0 <= k < |Listed(desk)| && Listed(desk)[k].id == job.heads[i];
        assert !Mirrors(desk, s[k]);
        assert Bounds(desk, job.heads[i]).mirror == 0;
        forall j | 0 <= j < |Listed(desk)|
          ensures Listed(desk)[j].mirror != job.heads[i]
        {
          assert Mirrors(desk, s[j]) ==> s[j].mirrorOf !in job.heads;
        }
      }
    } else {
      var k :| 0 <= k < |s| && Mirrors(desk, s[k]) && (s[k].id in job.heads || s[k].mirrorOf in job.heads);
      if i :| 0 <= i < |job.heads| && job.heads[i] == s[k].id {
        assert InMirrorSet(desk, job.heads[i]);
      } else {
        var j :| 0 <= j < |job.heads| && job.heads[j] == s[k].mirrorOf;
        assert InMirrorSet(desk, job.heads[j]);
      }
    }
  }

  /** Two heads with a gap between them, above the main display. */
  function Scattered(): Displays {
    [Display(1, 0, 0, 1512, 982, None, 0), Display(11, 0, -1080, 1920, 1080, None, 0),
     Display(12, 3000, -1080, 1920, 1080, None, 0)]
  }

  lemma ScatteredFound()
    ensures Distinct(Scattered()) && Listed(Scattered()) == Scattered()
    ensures forall k :: 0 <= k < 3 ==> Find(Scattered(), Scattered()[k].id) == Some(Scattered()[k])
    ensures Online(Scattered(), 11) && Online(Scattered(), 12)
  {
    var desk := Scattered();
    assert Listed(desk) == desk && desk[1].id == 11 && desk[2].id == 12;
    forall k | 0 <= k < 3
      ensures Find(desk, desk[k].id) == Some(desk[k])
    {
      FoundAt(desk, k);
    }
  }

  /** Adopted by a driver that has seated none, they are an instance. */
  lemma ScatteredNeverRests() returns (m: Memory, job: Job)
    ensures Proper(Scattered(), Adopted(Scattered(), m), job) && HeadsListed(Scattered(), job.heads)
    ensures Quarrels(Settled(Scattered(), Adopted(Scattered(), m), job),
                     Remembered(Scattered(), Adopted(Scattered(), m), job), job)
  {
    var desk := Scattered();
    m, job := Memory([], None), Job([11, 12], 1920, 1080, true, Anchors(0, 1));
    ScatteredFound();
    assert desk[1].id == 11 && desk[2].id == 12;
    assert Find(desk, 11) == Some(desk[1]) && Find(desk, 12) == Some(desk[2]);
    assert forall k :: 0 <= k < |SnapshotOf(desk)| ==> SnapshotOf(desk)[k].mode.None?;
    assert job.heads[0] == 11 && job.heads[1] == 12;
    assert !Paired(desk, job.heads);
    hide Find, Scattered, Online, InMirrorSet, Listed, Settled, Remembered, Quarrels;
    assert DistinctEntries(SnapshotOf(desk)) by { SnapshotDistinct(desk); }
    ScatteredAdoptionQuarrels(desk, m, job);
  }

  lemma SnapshotDistinct(desk: Displays)
    requires Distinct(desk)
    ensures DistinctEntries(SnapshotOf(desk))
  {
  }
}
