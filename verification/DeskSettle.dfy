/** What one settle does to each display, whatever the snapshot holds. */
module DeskSettle {
  import opened Common
  import opened Desk

  // --- transactions, display by display ---

  lemma {:induction false} ChangedAppend(d: Display, a: seq<Op>, b: seq<Op>)
    ensures Changed(d, a + b) == Changed(Changed(d, a), b)
    decreases |b|
  {
    if b == [] {
      assert a + b == a;
    } else {
      assert (a + b)[..|a + b| - 1] == a + b[..|b| - 1];
      ChangedAppend(d, a, b[..|b| - 1]);
    }
  }

  ghost predicate Spares(ops: seq<Op>, id: nat) {
    forall i :: 0 <= i < |ops| ==> ops[i].id != id
  }

  lemma {:induction false} SparedUnchanged(d: Display, ops: seq<Op>)
    requires Spares(ops, d.id)
    ensures Changed(d, ops) == d
    decreases |ops|
  {
    if ops != [] {
      SparedUnchanged(d, ops[..|ops| - 1]);
    }
  }

  lemma {:induction false} FindCommitted(desk: Displays, ops: seq<Op>, id: nat)
    ensures Find(Committed(desk, ops), id) ==
            match Find(desk, id) case None => None case Some(d) => Some(Changed(d, ops))
    decreases |desk|
  {
    if desk != [] {
      assert Committed(desk, ops)[1..] == Committed(desk[1..], ops);
      FindCommitted(desk[1..], ops, id);
    }
  }

  lemma ListedCommitted(desk: Displays, ops: seq<Op>)
    ensures Listed(Committed(desk, ops)) == Committed(Listed(desk), ops)
  {
  }

  lemma OnlineCommitted(desk: Displays, ops: seq<Op>, id: nat)
    ensures Online(Committed(desk, ops), id) <==> Online(desk, id)
  {
    ListedCommitted(desk, ops);
    forall i | 0 <= i < |Listed(desk)|
      ensures Listed(Committed(desk, ops))[i].id == Listed(desk)[i].id
    {
    }
  }

  lemma {:induction false} FoundAt(desk: Displays, i: nat)
    requires Distinct(desk) && i < |desk|
    ensures Find(desk, desk[i].id) == Some(desk[i])
    decreases i
  {
    if i > 0 {
      FoundAt(desk[1..], i - 1);
    }
  }

  // --- restoring ---

  ghost predicate DistinctEntries(s: seq<Entry>) {
    forall i, j :: 0 <= i < j < |s| ==> s[i].id != s[j].id
  }

  /** Where restoring puts a display. */
  function Restored(desk: Displays, e: Entry, d: Display, keepModes: bool): Display {
    Changed(d, OriginOps(e, d) + ModeOps(e, d, keepModes) + MirrorOps(desk, e, d))
  }

  lemma RestoredMeans(desk: Displays, e: Entry, d: Display, keepModes: bool)
    ensures var r := Restored(desk, e, d, keepModes);
            && r.x == e.x && r.y == e.y
            && r.mode == (if keepModes && e.mode.Some? then e.mode else d.mode)
            && r.mirror == if e.mirrorOf != 0 && Online(desk, e.mirrorOf) then e.mirrorOf else d.mirror
  {
    var a, b, c := OriginOps(e, d), ModeOps(e, d, keepModes), MirrorOps(desk, e, d);
    ChangedAppend(d, a + b, c);
    ChangedAppend(d, a, b);
    One(d, a);
    One(Changed(d, a), b);
    One(Changed(Changed(d, a), b), c);
  }

  lemma One(d: Display, ops: seq<Op>)
    requires |ops| <= 1
    ensures Changed(d, ops) == if ops == [] then d else Change(d, ops[0])
  {
    if |ops| == 1 {
      assert ops[..0] == [];
      assert Changed(d, ops[..0]) == d;
    }
  }

  lemma EntryOpsOwn(desk: Displays, e: Entry, keepModes: bool)
    ensures forall i :: 0 <= i < |EntryOps(desk, e, keepModes)| ==> EntryOps(desk, e, keepModes)[i].id == e.id
  {
  }

  lemma {:induction false} RestoreSpares(desk: Displays, s: seq<Entry>, keepModes: bool, id: nat)
    requires forall i :: 0 <= i < |s| ==> s[i].id != id
    ensures Spares(RestoreOps(desk, s, keepModes), id)
    decreases |s|
  {
    if s != [] {
      RestoreSpares(desk, s[..|s| - 1], keepModes, id);
      EntryOpsOwn(desk, s[|s| - 1], keepModes);
    }
  }

  /** A remembered display moves by its own entry alone. */
  lemma {:induction false} RestoreOne(desk: Displays, s: seq<Entry>, keepModes: bool, k: nat, d: Display)
    requires DistinctEntries(s) && k < |s| && d.id == s[k].id
    ensures Changed(d, RestoreOps(desk, s, keepModes)) == Changed(d, EntryOps(desk, s[k], keepModes))
    decreases |s|
  {
    var front, last := s[..|s| - 1], s[|s| - 1];
    ChangedAppend(d, RestoreOps(desk, front, keepModes), EntryOps(desk, last, keepModes));
    EntryOpsOwn(desk, last, keepModes);
    if k < |s| - 1 {
      RestoreOne(desk, front, keepModes, k, d);
      SparedUnchanged(Changed(d, RestoreOps(desk, front, keepModes)), EntryOps(desk, last, keepModes));
    } else {
      RestoreSpares(desk, front, keepModes, d.id);
      SparedUnchanged(d, RestoreOps(desk, front, keepModes));
    }
  }

  lemma {:induction false} NothingToRestore(desk: Displays, s: seq<Entry>, keepModes: bool)
    ensures RestoreOps(desk, s, keepModes) == [] <==>
            forall k :: 0 <= k < |s| ==> EntryOps(desk, s[k], keepModes) == []
    decreases |s|
  {
    hide EntryOps;
    if s != [] {
      NothingToRestore(desk, s[..|s| - 1], keepModes);
      assert forall k :: 0 <= k < |s| - 1 ==> s[..|s| - 1][k] == s[k];
    }
  }

  // --- seating ---

  lemma {:induction false} FollowersMeans(shown: Displays, head: nat, d: Display)
    ensures Changed(d, FollowerOps(shown, head)) == d
         || Changed(d, FollowerOps(shown, head)) == d.(mirror := 0)
    ensures (exists i :: 0 <= i < |shown| && shown[i].id == d.id != head && shown[i].mirror == head)
            ==> Changed(d, FollowerOps(shown, head)) == d.(mirror := 0)
    ensures (forall i :: 0 <= i < |shown| && shown[i].id == d.id ==> shown[i].mirror != head)
            ==> Changed(d, FollowerOps(shown, head)) == d
    decreases |shown|
  {
    if shown != [] {
      var front, f := shown[..|shown| - 1], shown[|shown| - 1];
      var last := if f.id != head && f.mirror == head then [Mirror(f.id, 0)] else [];
      FollowersMeans(front, head, d);
      ChangedAppend(d, FollowerOps(front, head), last);
      One(Changed(d, FollowerOps(front, head)), last);
    }
  }

  /** The display is made to show its own desktop by a detach of this head. */
  ghost predicate DetachedBy(desk: Displays, head: nat, d: Display) {
    || (d.id == head && Bounds(desk, head).mirror != 0)
    || exists i :: 0 <= i < |Listed(desk)| && Listed(desk)[i].id == d.id != head && Listed(desk)[i].mirror == head
  }

  lemma DetachMeans(desk: Displays, head: nat, d: Display)
    requires Distinct(desk)
    ensures Changed(d, DetachOps(desk, head)) == if DetachedBy(desk, head, d) then d.(mirror := 0) else d
  {
    var own := if Bounds(desk, head).mirror != 0 then [Mirror(head, 0)] else [];
    ChangedAppend(d, own, FollowerOps(Listed(desk), head));
    One(d, own);
    FollowersMeans(Listed(desk), head, Changed(d, own));
    if !DetachedBy(desk, head, d) && d.id == head {
      HeadFollowsNot(Listed(desk), head, d);
    }
  }

  lemma {:induction false} HeadFollowsNot(shown: Displays, head: nat, d: Display)
    requires d.id == head
    ensures Changed(d, FollowerOps(shown, head)) == d
    decreases |shown|
  {
    if shown != [] {
      var front, f := shown[..|shown| - 1], shown[|shown| - 1];
      var last := if f.id != head && f.mirror == head then [Mirror(f.id, 0)] else [];
      HeadFollowsNot(front, head, d);
      ChangedAppend(d, FollowerOps(front, head), last);
      One(d, last);
    }
  }

  /** The display is made to show its own desktop by a detach of some head. */
  ghost predicate DetachedByAny(desk: Displays, heads: seq<nat>, d: Display) {
    exists k :: 0 <= k < |heads| && DetachedBy(desk, heads[k], d)
  }

  lemma OneMoreDetaches(desk: Displays, heads: seq<nat>, d: Display, e: Display)
    requires heads != [] && d.id == e.id
    ensures DetachedByAny(desk, heads, d)
       <==> DetachedByAny(desk, heads[..|heads| - 1], d) || DetachedBy(desk, heads[|heads| - 1], e)
  {
    assert DetachedBy(desk, heads[|heads| - 1], e) <==> DetachedBy(desk, heads[|heads| - 1], d);
    hide DetachedBy;
    assert forall k :: 0 <= k < |heads| - 1 ==> heads[..|heads| - 1][k] == heads[k];
  }

  lemma {:induction false} DetachAllMeans(desk: Displays, heads: seq<nat>, d: Display)
    requires Distinct(desk)
    ensures Changed(d, DetachAll(desk, heads)) == if DetachedByAny(desk, heads, d) then d.(mirror := 0) else d
    decreases |heads|
  {
    if heads != [] {
      var front, h := heads[..|heads| - 1], heads[|heads| - 1];
      DetachAllMeans(desk, front, d);
      var freed := Changed(d, DetachAll(desk, front));
      assert freed.id == d.id;
      hide DetachOps, DetachedBy, DetachedByAny, Changed, Distinct;
      ChangedAppend(d, DetachAll(desk, front), DetachOps(desk, h));
      DetachMeans(desk, h, freed);
      OneMoreDetaches(desk, heads, d, freed);
    }
  }

  lemma {:induction false} SeatMeans(heads: seq<nat>, width: nat, x: int, y: int, n: nat, d: Display)
    requires n <= |heads| && (forall i, j :: 0 <= i < j < |heads| ==> heads[i] != heads[j])
    ensures forall i :: 0 <= i < n && heads[i] == d.id ==>
              Changed(d, SeatOps(heads, width, x, y, n)) == d.(x := x + width * i, y := y)
    ensures (forall i :: 0 <= i < n ==> heads[i] != d.id) ==> Changed(d, SeatOps(heads, width, x, y, n)) == d
    decreases n
  {
    if n > 0 {
      var front := SeatOps(heads, width, x, y, n - 1);
      var last := [Origin(heads[n - 1], x + width * (n - 1), y)];
      SeatMeans(heads, width, x, y, n - 1, d);
      ChangedAppend(d, front, last);
      One(Changed(d, front), last);
      hide Changed;
    }
  }

  // --- what a settle is given ---

  /** Displays told apart, and heads online at the width asked for. The snapshot is any at all, with
      the heads in it or without; a head's remembered mode is of the width asked for too. */
  ghost predicate Proper(desk: Displays, m: Memory, job: Job) {
    && Distinct(desk) && DistinctEntries(m.snapshot)
    && GoodHeads(job.heads)
    && (forall i, j :: 0 <= i < j < |job.heads| ==> job.heads[i] != job.heads[j])
    && (forall i :: 0 <= i < |job.heads| ==>
          Find(desk, job.heads[i]).Some? && Find(desk, job.heads[i]).value.width == job.width)
    && (forall k :: 0 <= k < |m.snapshot| && m.snapshot[k].id in job.heads && m.snapshot[k].mode.Some? ==>
          job.keepModes ==> m.snapshot[k].mode.value.width == job.width)
    && (m.seats.Some? ==> |m.seats.value| > 0)
  }

  /** A remembered mirror set that would be put back: both displays are online. */
  predicate Mirrors(desk: Displays, e: Entry) {
    Online(desk, e.id) && e.mirrorOf != 0 && Online(desk, e.mirrorOf)
  }

  /** No mirror set that would be put back has a head in it. */
  predicate MirrorsAgree(desk: Displays, m: Memory, job: Job) {
    forall k :: 0 <= k < |m.snapshot| && Mirrors(desk, m.snapshot[k]) ==>
                  m.snapshot[k].id !in job.heads && m.snapshot[k].mirrorOf !in job.heads
  }

  /** Nor would restoring bring one about: any such is there already. */
  ghost predicate NoNewMirrors(desk: Displays, m: Memory, job: Job) {
    forall k :: 0 <= k < |m.snapshot| && Mirrors(desk, m.snapshot[k])
                && (m.snapshot[k].id in job.heads || m.snapshot[k].mirrorOf in job.heads) ==>
                  Bounds(desk, m.snapshot[k].id).mirror == m.snapshot[k].mirrorOf
  }

  function FindEntry(s: seq<Entry>, id: nat): (r: Option<nat>)
    ensures r.Some? ==> r.value < |s| && s[r.value].id == id
    ensures r.None? ==> forall i :: 0 <= i < |s| ==> s[i].id != id
  {
    if s == [] then None
    else if s[|s| - 1].id == id then Some(|s| - 1)
    else FindEntry(s[..|s| - 1], id)
  }

  /** Where restoring moves a display to, if the snapshot remembers it. */
  function Pin(desk: Displays, m: Memory, id: nat): Option<Seat> {
    var k := FindEntry(m.snapshot, id);
    if k.Some? && Online(desk, id) then Some(Seat(m.snapshot[k.value].x, m.snapshot[k.value].y)) else None
  }

  /** The seats a settle leaves the driver with. */
  function Aim(desk: Displays, m: Memory, job: Job): (r: seq<Seat>)
    requires m.seats.Some? ==> |m.seats.value| > 0
    ensures |r| == |job.heads|
  {
    if Healthy(desk, job.heads) then SeatsOf(desk, job.heads)
    else Run(job.heads, job.width, FirstSeat(desk, job.heads, job.width, job.height, m.seats, job.anchors))
  }

  /** Where a settle leaves a head: pinned if restoring has the last word, else in its seat. */
  function Landing(desk: Displays, m: Memory, job: Job, i: nat): Seat
    requires i < |job.heads| && (m.seats.Some? ==> |m.seats.value| > 0)
  {
    var pin := Pin(desk, m, job.heads[i]);
    if Healthy(desk, job.heads) && pin.Some? then pin.value else Aim(desk, m, job)[i]
  }

  predicate InRow(seats: seq<Seat>, width: nat) {
    forall i :: 1 <= i < |seats| ==> seats[i] == Seat(seats[i - 1].x + width, seats[i - 1].y)
  }

  predicate AllPinned(desk: Displays, m: Memory, job: Job) {
    forall i :: 0 <= i < |job.heads| ==> Pin(desk, m, job.heads[i]).Some?
  }

  function Pins(desk: Displays, m: Memory, job: Job): (r: seq<Seat>)
    requires AllPinned(desk, m, job)
    ensures |r| == |job.heads|
  {
    seq(|job.heads|, i requires 0 <= i < |job.heads| => Pin(desk, m, job.heads[i]).value)
  }

  /** Heads that are all remembered were remembered side by side; heads remembered in part, where
      their seats are anyway. */
  predicate SeatsAgree(desk: Displays, m: Memory, job: Job)
    requires m.seats.Some? ==> |m.seats.value| > 0
  {
    if AllPinned(desk, m, job) then InRow(Pins(desk, m, job), job.width)
    else forall i :: 0 <= i < |job.heads| && Pin(desk, m, job.heads[i]).Some? ==>
                       Pin(desk, m, job.heads[i]).value == Aim(desk, m, job)[i]
  }

  /** Snapshot and seats do not contradict each other. */
  predicate Agrees(desk: Displays, m: Memory, job: Job)
    requires m.seats.Some? ==> |m.seats.value| > 0
  {
    MirrorsAgree(desk, m, job) && SeatsAgree(desk, m, job)
  }

  // --- one settle ---

  lemma AimInRow(desk: Displays, m: Memory, job: Job)
    requires Proper(desk, m, job)
    ensures InRow(Aim(desk, m, job), job.width)
  {
    if Healthy(desk, job.heads) {
      forall i | 1 <= i < |job.heads|
        ensures var s := SeatsOf(desk, job.heads); s[i] == Seat(s[i - 1].x + job.width, s[i - 1].y)
      {
        assert Bounds(desk, job.heads[i - 1]).width == job.width;
      }
    } else {
      var s := FirstSeat(desk, job.heads, job.width, job.height, m.seats, job.anchors);
      forall i | 1 <= i < |job.heads|
        ensures var r := Run(job.heads, job.width, s); r[i] == Seat(r[i - 1].x + job.width, r[i - 1].y)
      {
        assert job.width * i == job.width * (i - 1) + job.width;
      }
    }
  }

  lemma ListedFound(desk: Displays, id: nat)
    requires Distinct(desk)
    ensures Find(Listed(desk), id) == if Online(desk, id) then Find(desk, id) else None
    ensures Online(desk, id) ==> Find(desk, id).Some?
  {
    if Online(desk, id) {
      var i :| 0 <= i < |Listed(desk)| && Listed(desk)[i].id == id;
      FoundAt(Listed(desk), i);
      FoundAt(desk, i);
    }
  }

  /** Restoring alone, for any display: put where it is remembered, or left as it is. */
  lemma RestoredDisplay(desk: Displays, m: Memory, keepModes: bool, d: Display)
    requires Distinct(desk) && DistinctEntries(m.snapshot) && Find(desk, d.id) == Some(d)
    ensures var r := Changed(d, RestoreOps(desk, m.snapshot, keepModes));
            var k := FindEntry(m.snapshot, d.id);
            if k.Some? && Online(desk, d.id) then r == Restored(desk, m.snapshot[k.value], d, keepModes) else r == d
  {
    ListedFound(desk, d.id);
    var k := FindEntry(m.snapshot, d.id);
    if k.Some? {
      RestoreOne(desk, m.snapshot, keepModes, k.value, d);
    } else {
      RestoreSpares(desk, m.snapshot, keepModes, d.id);
      SparedUnchanged(d, RestoreOps(desk, m.snapshot, keepModes));
    }
  }

  /** A head after restoring alone. */
  lemma HeadRestored(desk: Displays, m: Memory, job: Job, i: nat)
    requires Proper(desk, m, job) && i < |job.heads|
    ensures var h := Bounds(desk, job.heads[i]);
            var r := Changed(h, RestoreOps(desk, m.snapshot, job.keepModes));
            var pin := Pin(desk, m, job.heads[i]);
            && r.width == job.width
            && Seat(r.x, r.y) == (if pin.Some? then pin.value else Seat(h.x, h.y))
            && (NoNewMirrors(desk, m, job) ==> r.mirror == h.mirror)
  {
    var h := Bounds(desk, job.heads[i]);
    RestoredDisplay(desk, m, job.keepModes, h);
    var k := FindEntry(m.snapshot, h.id);
    if k.Some? && Online(desk, h.id) {
      RestoredMeans(desk, m.snapshot[k.value], h, job.keepModes);
      RestoredWidth(desk, m.snapshot[k.value], h, job.keepModes, job.width);
    }
  }

  lemma RestoredWidth(desk: Displays, e: Entry, d: Display, keepModes: bool, width: nat)
    requires d.width == width && (keepModes && e.mode.Some? ==> e.mode.value.width == width)
    ensures Restored(desk, e, d, keepModes).width == width
  {
    var a, b, c := OriginOps(e, d), ModeOps(e, d, keepModes), MirrorOps(desk, e, d);
    ChangedAppend(d, a + b, c);
    ChangedAppend(d, a, b);
    One(d, a);
    One(Changed(d, a), b);
    One(Changed(Changed(d, a), b), c);
  }

  /** A head after one settle. */
  lemma HeadSettled(desk: Displays, m: Memory, job: Job, i: nat)
    requires Proper(desk, m, job) && i < |job.heads|
    ensures var d := Bounds(Settled(desk, m, job), job.heads[i]);
            && Find(Settled(desk, m, job), job.heads[i]) == Some(d)
            && d.width == job.width
            && Seat(d.x, d.y) == Landing(desk, m, job, i)
            && (NoNewMirrors(desk, m, job) ==> d.mirror == 0)
  {
    var h := Bounds(desk, job.heads[i]);
    var restore := RestoreOps(desk, m.snapshot, job.keepModes);
    var r := Changed(h, restore);
    var s := FirstSeat(desk, job.heads, job.width, job.height, m.seats, job.anchors);
    FindCommitted(desk, Staged(desk, m, job), job.heads[i]);
    HeadRestored(desk, m, job, i);
    ChangedAppend(h, restore, ArrangeOps(desk, job.heads, job.width, s));
    if Healthy(desk, job.heads) {
      assert !InMirrorSet(desk, job.heads[i]);
    } else {
      HeadSeated(desk, job.heads, job.width, s, i, r);
    }
  }

  /** Seating alone: whatever was restored, a head ends up in its seat, and on its own desktop if it
      mirrored anything before. */
  lemma HeadSeated(desk: Displays, heads: seq<nat>, width: nat, s: Seat, i: nat, r: Display)
    requires Distinct(desk) && i < |heads| && r.id == heads[i]
    requires forall i, j :: 0 <= i < j < |heads| ==> heads[i] != heads[j]
    requires !Healthy(desk, heads)
    ensures var d := Changed(r, ArrangeOps(desk, heads, width, s));
            && d == r.(x := s.x + width * i, y := s.y, mirror := d.mirror)
            && (d.mirror == 0 || d.mirror == r.mirror)
            && (Bounds(desk, heads[i]).mirror != 0 ==> d.mirror == 0)
  {
    var detach := DetachAll(desk, heads);
    ChangedAppend(r, detach, SeatOps(heads, width, s.x, s.y, |heads|));
    DetachAllMeans(desk, heads, r);
    SeatMeans(heads, width, s.x, s.y, |heads|, Changed(r, detach));
    if Bounds(desk, heads[i]).mirror != 0 {
      assert DetachedBy(desk, heads[i], r);
    }
  }

  /** A head's mode after one settle is the one remembered for it, or the one it had. */
  lemma HeadModeKept(desk: Displays, m: Memory, job: Job, i: nat)
    requires Proper(desk, m, job) && i < |job.heads|
    ensures var h, d := Bounds(desk, job.heads[i]), Bounds(Settled(desk, m, job), job.heads[i]);
            d.mode == h.mode || (d.mode.Some? && d.mode.value.width == job.width)
  {
    var h := Bounds(desk, job.heads[i]);
    var restore := RestoreOps(desk, m.snapshot, job.keepModes);
    var s := FirstSeat(desk, job.heads, job.width, job.height, m.seats, job.anchors);
    FindCommitted(desk, Staged(desk, m, job), job.heads[i]);
    RestoredDisplay(desk, m, job.keepModes, h);
    ChangedAppend(h, restore, ArrangeOps(desk, job.heads, job.width, s));
    var k := FindEntry(m.snapshot, h.id);
    if k.Some? && Online(desk, h.id) {
      RestoredMeans(desk, m.snapshot[k.value], h, job.keepModes);
    }
    if !Healthy(desk, job.heads) {
      HeadSeated(desk, job.heads, job.width, s, i, Changed(h, restore));
    }
  }

  lemma FollowerUnhealthy(desk: Displays, heads: seq<nat>, i: nat)
    requires i < |Listed(desk)| && Listed(desk)[i].id !in heads && Listed(desk)[i].mirror in heads
    ensures !Healthy(desk, heads)
  {
    var k :| 0 <= k < |heads| && heads[k] == Listed(desk)[i].mirror;
    assert InMirrorSet(desk, heads[k]);
  }

  /** Detaching frees a listed display from the heads, and seating leaves it where it is. */
  lemma OtherDetached(desk: Displays, heads: seq<nat>, i: nat, r: Display)
    requires Distinct(desk) && i < |Listed(desk)| && r.id == Listed(desk)[i].id && r.id !in heads
    ensures Changed(r, DetachAll(desk, heads)) == if Listed(desk)[i].mirror in heads then r.(mirror := 0) else r
  {
    var d := Listed(desk)[i];
    DetachAllMeans(desk, heads, r);
    if d.mirror in heads {
      var k :| 0 <= k < |heads| && heads[k] == d.mirror;
      assert DetachedBy(desk, heads[k], r);
    } else {
      forall k | 0 <= k < |heads|
        ensures !DetachedBy(desk, heads[k], r)
      {
        forall j | 0 <= j < |Listed(desk)| && Listed(desk)[j].id == r.id
          ensures j == i
        {
        }
      }
    }
  }

  /** Any other display: restored, and then freed if it had been mirroring a head. */
  lemma OtherSettled(desk: Displays, m: Memory, job: Job, i: nat)
    requires Proper(desk, m, job) && i < |Listed(desk)| && Listed(desk)[i].id !in job.heads
    ensures var d := Listed(desk)[i];
            var r := Changed(d, RestoreOps(desk, m.snapshot, job.keepModes));
            Changed(d, Staged(desk, m, job)) == if d.mirror in job.heads then r.(mirror := 0) else r
  {
    var d := Listed(desk)[i];
    var restore := RestoreOps(desk, m.snapshot, job.keepModes);
    var s := FirstSeat(desk, job.heads, job.width, job.height, m.seats, job.anchors);
    var r := Changed(d, restore);
    ChangedAppend(d, restore, ArrangeOps(desk, job.heads, job.width, s));
    if d.mirror in job.heads {
      FollowerUnhealthy(desk, job.heads, i);
    }
    if !Healthy(desk, job.heads) {
      var detach := DetachAll(desk, job.heads);
      ChangedAppend(r, detach, SeatOps(job.heads, job.width, s.x, s.y, |job.heads|));
      OtherDetached(desk, job.heads, i, r);
      SeatMeans(job.heads, job.width, s.x, s.y, |job.heads|, Changed(r, detach));
    }
  }

  /** Restoring never makes a display mirror a head. */
  lemma RestoreMirrorsNoHead(desk: Displays, m: Memory, job: Job, i: nat)
    requires Proper(desk, m, job) && NoNewMirrors(desk, m, job)
    requires i < |Listed(desk)| && Listed(desk)[i].id !in job.heads
    ensures var d := Listed(desk)[i];
            var r := Changed(d, RestoreOps(desk, m.snapshot, job.keepModes));
            r.mirror in job.heads ==> r.mirror == d.mirror
  {
    var d := Listed(desk)[i];
    FoundAt(desk, i);
    RestoredDisplay(desk, m, job.keepModes, d);
    var k := FindEntry(m.snapshot, d.id);
    if k.Some? {
      RestoredMeans(desk, m.snapshot[k.value], d, job.keepModes);
    }
  }

  lemma HeadFreed(desk: Displays, m: Memory, job: Job, k: nat)
    requires Proper(desk, m, job) && NoNewMirrors(desk, m, job) && k < |job.heads|
    ensures !InMirrorSet(Settled(desk, m, job), job.heads[k])
  {
    var after := Settled(desk, m, job);
    ListedCommitted(desk, Staged(desk, m, job));
    HeadSettled(desk, m, job, k);
    forall i | 0 <= i < |Listed(after)| && Listed(after)[i].id != job.heads[k]
      ensures Listed(after)[i].mirror != job.heads[k]
    {
      NoFollower(desk, m, job, i, k);
    }
  }

  lemma NoFollower(desk: Displays, m: Memory, job: Job, i: nat, k: nat)
    requires Proper(desk, m, job) && NoNewMirrors(desk, m, job)
    requires i < |Listed(desk)| && k < |job.heads| && Listed(desk)[i].id != job.heads[k]
    ensures Changed(Listed(desk)[i], Staged(desk, m, job)).mirror != job.heads[k]
  {
    var d := Listed(desk)[i];
    if d.id in job.heads {
      var h :| 0 <= h < |job.heads| && job.heads[h] == d.id;
      HeadSettled(desk, m, job, h);
      FoundAt(desk, i);
      FindCommitted(desk, Staged(desk, m, job), d.id);
    } else {
      OtherSettled(desk, m, job, i);
      RestoreMirrorsNoHead(desk, m, job, i);
    }
  }

  function Landings(desk: Displays, m: Memory, job: Job): seq<Seat>
    requires m.seats.Some? ==> |m.seats.value| > 0
  {
    seq(|job.heads|, i requires 0 <= i < |job.heads| => Landing(desk, m, job, i))
  }

  /** One settle leaves the heads on their own desktops where they land, so healthy exactly when they
      land side by side; and out of place before, they always do. */
  lemma SettleSeatsHeads(desk: Displays, m: Memory, job: Job)
    requires Proper(desk, m, job) && NoNewMirrors(desk, m, job)
    ensures SeatsOf(Settled(desk, m, job), job.heads) == Landings(desk, m, job)
    ensures Healthy(Settled(desk, m, job), job.heads) <==> InRow(Landings(desk, m, job), job.width)
    ensures !Healthy(desk, job.heads) ==> InRow(Landings(desk, m, job), job.width)
  {
    var after := Settled(desk, m, job);
    forall k | 0 <= k < |job.heads|
      ensures !InMirrorSet(after, job.heads[k])
      ensures Bounds(after, job.heads[k]).width == job.width
      ensures Seat(Bounds(after, job.heads[k]).x, Bounds(after, job.heads[k]).y) == Landings(desk, m, job)[k]
    {
      HeadFreed(desk, m, job, k);
      HeadSettled(desk, m, job, k);
    }
    AimInRow(desk, m, job);
    LandingsAim(desk, m, job);
    hide Settled, Landings, Landing, InMirrorSet, Bounds, Aim, Proper, NoNewMirrors, InRow;
    assert SeatsOf(after, job.heads) == Landings(desk, m, job);
    PairedInRow(after, job.heads, job.width);
  }

  /** Where heads that were out of place are after one settle: side by side and level with each other,
      the first in the first remembered seat; or, with none remembered, ending at the left edge of the
      native panel and level with its top, if there is one that is no head; or else meeting at the
      middle of the main display, standing on its top. */
  lemma HeadsSeatedAt(desk: Displays, m: Memory, job: Job)
    requires Proper(desk, m, job) && !Healthy(desk, job.heads)
    ensures var after := Settled(desk, m, job);
            var first, last := Bounds(after, job.heads[0]), Bounds(after, job.heads[|job.heads| - 1]);
            var native, main := Bounds(desk, job.anchors.native), Bounds(desk, job.anchors.main);
            && (forall i :: 1 <= i < |job.heads| ==>
                  var l, r := Bounds(after, job.heads[i - 1]), Bounds(after, job.heads[i]);
                  r.x == l.x + l.width && r.y == l.y)
            && (if m.seats.Some? then
                  first.x == m.seats.value[0].x && first.y == m.seats.value[0].y
                else if job.anchors.native != 0 && job.anchors.native !in job.heads then
                  last.x + last.width == native.x && last.y == native.y
                else
                  IsHalf(first.x + first.width, 2 * main.x + main.width) && first.y + job.height == main.y)
  {
    var s := FirstSeat(desk, job.heads, job.width, job.height, m.seats, job.anchors);
    forall i | 0 <= i < |job.heads|
      ensures var d := Bounds(Settled(desk, m, job), job.heads[i]);
              d.width == job.width && d.x == s.x + job.width * i && d.y == s.y
    {
      HeadSettled(desk, m, job, i);
    }
    FirstSeatIff(desk, job.heads, job.width, job.height, m.seats, job.anchors, s);
    var n := |job.heads|;
    assert job.width * n == job.width * (n - 1) + job.width;
    forall i | 1 <= i < n
      ensures job.width * i == job.width * (i - 1) + job.width
    {
    }
    hide Settled, Bounds, Healthy, FirstSeat;
  }

  /** Heads land in their seats unless all is well and restoring moves them. */
  lemma LandingsAim(desk: Displays, m: Memory, job: Job)
    requires m.seats.Some? ==> |m.seats.value| > 0
    ensures |Landings(desk, m, job)| == |job.heads|
    ensures !Healthy(desk, job.heads) ==> Landings(desk, m, job) == Aim(desk, m, job)
    ensures SeatsAgree(desk, m, job) && !AllPinned(desk, m, job) ==> Landings(desk, m, job) == Aim(desk, m, job)
    ensures Healthy(desk, job.heads) && AllPinned(desk, m, job) ==> Landings(desk, m, job) == Pins(desk, m, job)
  {
    hide Healthy, Pin, Aim;
  }

  lemma PairedInRow(desk: Displays, heads: seq<nat>, width: nat)
    requires forall i :: 0 <= i < |heads| ==> Bounds(desk, heads[i]).width == width
    ensures Paired(desk, heads) <==> InRow(SeatsOf(desk, heads), width)
  {
    var s := SeatsOf(desk, heads);
    if Paired(desk, heads) {
      forall i | 1 <= i < |heads|
        ensures s[i] == Seat(s[i - 1].x + width, s[i - 1].y)
      {
      }
    }
    if InRow(s, width) {
      forall i | 1 <= i < |heads|
        ensures var p, c := Bounds(desk, heads[i - 1]), Bounds(desk, heads[i]);
                c.x == p.x + p.width && c.y == p.y
      {
        assert s[i] == Seat(s[i - 1].x + width, s[i - 1].y);
      }
    }
  }

  lemma ProperAfterSettle(desk: Displays, m: Memory, job: Job)
    requires Proper(desk, m, job)
    ensures Proper(Settled(desk, m, job), Remembered(desk, m, job), job)
  {
    forall i | 0 <= i < |job.heads|
      ensures Find(Settled(desk, m, job), job.heads[i]).Some?
           && Find(Settled(desk, m, job), job.heads[i]).value.width == job.width
    {
      HeadSettled(desk, m, job, i);
    }
    DistinctCommitted(desk, Staged(desk, m, job));
    hide Online, Staged, Committed, Healthy, Find, FindEntry;
    assert Distinct(Settled(desk, m, job));
  }

  /** The snapshot is about the same displays after a settle as before. */
  lemma SnapshotAfterSettle(desk: Displays, m: Memory, job: Job)
    requires Proper(desk, m, job)
    ensures MirrorsAgree(Settled(desk, m, job), Remembered(desk, m, job), job) <==> MirrorsAgree(desk, m, job)
    ensures forall id :: Pin(Settled(desk, m, job), Remembered(desk, m, job), id) == Pin(desk, m, id)
    ensures Remembered(desk, m, job).seats == Some(Aim(desk, m, job))
  {
    forall id
      ensures Online(Settled(desk, m, job), id) <==> Online(desk, id)
    {
      OnlineCommitted(desk, Staged(desk, m, job), id);
    }
    hide Online, Staged, Committed, Healthy, Find, FindEntry, Settled;
  }

  lemma DistinctCommitted(desk: Displays, ops: seq<Op>)
    requires Distinct(desk)
    ensures Distinct(Committed(desk, ops))
  {
  }

  /** Nothing is staged for a remembered display exactly when it is in its place, in its mode, and a
      mirror of its master if that is there. */
  lemma PlacedIff(desk: Displays, e: Entry, d: Display, keepModes: bool)
    requires Find(Listed(desk), e.id) == Some(d)
    ensures EntryOps(desk, e, keepModes) == [] <==>
              && d.x == e.x && d.y == e.y && (keepModes && e.mode.Some? ==> d.mode == e.mode)
              && (e.mirrorOf != 0 && Online(desk, e.mirrorOf) ==> d.mirror == e.mirrorOf)
  {
    hide Online, Find, Listed;
  }
}
