/** The display layout as the driver keeps it: a snapshot, remembered seats, and a debounced watch,
    updated by staged plans and by callbacks. */
module DisplayKeeper {
  import opened Common
  import opened Desk
  import opened Debounce

  class OizysDisplays {
    var snapshot: seq<Entry>
    var seats: Option<seq<Seat>>
    var pending: seq<Seat>
    var watch: Option<Job>
    var topologyAt: real
    var settleDeadline: real
    var settleArmed: bool

    /** Delayed blocks on the main queue, and the settles they came to. */
    ghost var due: seq<real>
    ghost var runs: seq<SettleRun>

    ghost predicate Valid()
      reads this
    {
      && (seats.Some? ==> |seats.value| > 0)
      && (watch.Some? ==> 0 < |watch.value.heads| <= MAX_HEADS)
      && (due != [] ==> watch.Some?)
    }

    ghost function Memory(): Desk.Memory
      reads this
    {
      Desk.Memory(snapshot, seats)
    }

    ghost function Watch(): Debounce.Watch
      reads this
    {
      Debounce.Watch(settleArmed, settleDeadline, topologyAt, due, runs)
    }

    constructor ()
      ensures Valid() && snapshot == [] && seats.None? && watch.None? && !settleArmed && due == [] && runs == []
    {
      snapshot, seats, pending, watch := [], None, [], None;
      topologyAt, settleDeadline, settleArmed := 0.0, 0.0, false;
      due, runs := [], [];
    }

    method TakeSnapshot(desk: Displays)
      requires Valid()
      modifies this`snapshot
      ensures Valid() && snapshot == SnapshotOf(desk)
    {
      var shown := Listed(desk);
      snapshot := [];
      for i := 0 to |shown|
        invariant snapshot == SnapshotOf(desk)[..i]
      {
        var d := shown[i];
        snapshot := snapshot + [Entry(d.id, d.x, d.y, d.mode, d.mirror)];
      }
    }

    method FindListed(shown: Displays, id: nat) returns (found: bool)
      ensures found <==> exists i :: 0 <= i < |shown| && shown[i].id == id
    {
      found := false;
      for k := 0 to |shown|
        invariant !found && forall i :: 0 <= i < k ==> shown[i].id != id
      {
        if shown[k].id == id {
          return true;
        }
      }
    }

    /** Stage one remembered display, if it is online now. */
    method PlanEntry(desk: Displays, e: Entry, keepModes: bool) returns (ops: seq<Op>)
      ensures ops == EntryOps(desk, e, keepModes)
    {
      ops := [];
      var d := Find(Listed(desk), e.id);
      if d.None? {
        return;
      }
      var now := d.value;
      if now.x != e.x || now.y != e.y {
        ops := ops + [Origin(now.id, e.x, e.y)];
      }
      if keepModes && e.mode.Some? {
        if ModesDiffer(now.mode, e.mode) {
          ops := ops + [SetMode(now.id, e.mode.value)];
        }
      }
      assert ops == OriginOps(e, now) + ModeOps(e, now, keepModes);
      if e.mirrorOf != 0 {
        var masterOnline := FindListed(Listed(desk), e.mirrorOf);
        if masterOnline && now.mirror != e.mirrorOf {
          ops := ops + [Mirror(now.id, e.mirrorOf)];
        }
      }
    }

    /** Stage the snapshot into an open transaction; says whether anything was staged. */
    method PlanRestore(desk: Displays, keepModes: bool) returns (ops: seq<Op>, changed: int)
      requires Valid()
      ensures ops == RestoreOps(desk, snapshot, keepModes)
      ensures changed == if ops == [] then 0 else 1
    {
      hide EntryOps;
      ops, changed := [], 0;
      for i := 0 to |snapshot|
        invariant ops == RestoreOps(desk, snapshot[..i], keepModes)
        invariant changed == if ops == [] then 0 else 1
      {
        assert snapshot[..i + 1][..i] == snapshot[..i];
        var more := PlanEntry(desk, snapshot[i], keepModes);
        ops := ops + more;
        if |more| > 0 {
          changed := 1;
        }
      }
      assert snapshot[..|snapshot|] == snapshot;
    }

    method HeadInMirrorSet(desk: Displays, head: nat) returns (r: bool)
      ensures r <==> InMirrorSet(desk, head)
    {
      if Bounds(desk, head).mirror != 0 {
        return true;
      }
      var shown := Listed(desk);
      for k := 0 to |shown|
        invariant forall i :: 0 <= i < k ==> !(shown[i].id != head && shown[i].mirror == head)
      {
        if shown[k].id != head && shown[k].mirror == head {
          return true;
        }
      }
      return false;
    }

    method HeadsAreHealthy(desk: Displays, heads: seq<nat>) returns (r: bool)
      ensures r <==> Healthy(desk, heads)
    {
      for k := 0 to |heads|
        invariant forall i :: 0 <= i < k ==> !InMirrorSet(desk, heads[i])
      {
        var mirrored := HeadInMirrorSet(desk, heads[k]);
        if mirrored {
          return false;
        }
      }
      var i := 1;
      while i < |heads|
        invariant 1 <= i
        invariant forall j :: 1 <= j < i && j < |heads| ==>
                    var p, c := Bounds(desk, heads[j - 1]), Bounds(desk, heads[j]);
                    c.x == p.x + p.width && c.y == p.y
      {
        var previous, current := Bounds(desk, heads[i - 1]), Bounds(desk, heads[i]);
        if current.x != previous.x + previous.width || current.y != previous.y {
          return false;
        }
        i := i + 1;
      }
      return true;
    }

    method DetachMirrorSet(desk: Displays, head: nat) returns (ops: seq<Op>)
      ensures ops == DetachOps(desk, head)
    {
      ops := [];
      if Bounds(desk, head).mirror != 0 {
        ops := ops + [Mirror(head, 0)];
      }
      var shown := Listed(desk);
      ghost var own := ops;
      for i := 0 to |shown|
        invariant ops == own + FollowerOps(shown[..i], head)
      {
        assert shown[..i + 1][..i] == shown[..i];
        if shown[i].id != head && shown[i].mirror == head {
          ops := ops + [Mirror(shown[i].id, 0)];
        }
      }
      assert shown[..|shown|] == shown;
    }

    method DetachHeads(desk: Displays, heads: seq<nat>) returns (ops: seq<Op>)
      ensures ops == DetachAll(desk, heads)
    {
      hide DetachOps;
      ops := [];
      for k := 0 to |heads|
        invariant ops == DetachAll(desk, heads[..k])
      {
        assert heads[..k + 1][..k] == heads[..k];
        var more := DetachMirrorSet(desk, heads[k]);
        ops := ops + more;
      }
      assert heads[..|heads|] == heads;
    }

    /** Each head exactly one width along from the last; recorded until the commit succeeds. */
    method SeatHeads(heads: seq<nat>, width: nat, first: Seat) returns (ops: seq<Op>)
      modifies this`pending
      ensures ops == SeatOps(heads, width, first.x, first.y, |heads|)
      ensures pending == Run(heads, width, first)
    {
      ops := [];
      pending := [];
      for i := 0 to |heads|
        invariant ops == SeatOps(heads, width, first.x, first.y, i)
        invariant pending == Run(heads, width, first)[..i]
      {
        ops := ops + [Origin(heads[i], first.x + width * i, first.y)];
        pending := pending + [Seat(first.x + width * i, first.y)];
      }
    }

    /** Stage the head layout: -1 for a bad argument, 0 for heads already well, 1 when staged. */
    method PlanArrange(desk: Displays, heads: Option<seq<nat>>, width: nat, height: nat, anchors: Anchors)
      returns (ops: seq<Op>, staged: int)
      requires Valid()
      modifies this`seats, this`pending
      ensures Valid()
      ensures staged == if heads.None? || !GoodHeads(heads.value) then -1
                        else if Healthy(desk, heads.value) then 0 else 1
      ensures staged < 0 ==> ops == [] && seats == old(seats) && pending == []
      ensures staged == 0 ==> ops == [] && seats == Some(SeatsOf(desk, heads.value)) && pending == []
      ensures staged > 0 ==>
                var first := FirstSeat(desk, heads.value, width, height, old(seats), anchors);
                && ops == ArrangeOps(desk, heads.value, width, first) && ops != []
                && seats == old(seats) && pending == Run(heads.value, width, first)
                && StartsRight(desk, heads.value, width, height, old(seats), anchors, pending[0])
    {
      ops := [];
      pending := [];
      if heads.None? || |heads.value| == 0 || |heads.value| > MAX_HEADS {
        return [], -1;
      }
      var ids := heads.value;
      for k := 0 to |ids|
        invariant forall i :: 0 <= i < k ==> ids[i] != 0
      {
        if ids[k] == 0 {
          return [], -1;
        }
      }
      var well := HeadsAreHealthy(desk, ids);
      if well {
        seats := Some(SeatsOf(desk, ids));
        return [], 0;
      }
      hide Healthy, InMirrorSet, DetachAll, Bounds, StartsRight;
      var first := FirstSeat(desk, ids, width, height, seats, anchors);
      FirstSeatIff(desk, ids, width, height, seats, anchors, first);
      var detach := DetachHeads(desk, ids);
      var seating := SeatHeads(ids, width, first);
      ops := detach + seating;
      staged := 1;
    }

    /** Both plans in one transaction; a desk that is already right is not touched. */
    method Settle(desk: Displays, heads: Option<seq<nat>>, width: nat, height: nat, keepModes: bool, anchors: Anchors,
                  serverAccepts: bool)
      returns (after: Displays, rc: int)
      requires Valid()
      modifies this`seats, this`pending
      ensures Valid()
      ensures heads.None? || !GoodHeads(heads.value) ==> rc == -1 && after == desk && seats == old(seats)
      ensures heads.Some? && GoodHeads(heads.value) ==>
                var job := Job(heads.value, width, height, keepModes, anchors);
                var ops := Staged(desk, old(Memory()), job);
                && rc == (if ops == [] || serverAccepts then 0 else -1)
                && after == (if rc == 0 && ops != [] then Settled(desk, old(Memory()), job) else desk)
                && (rc == 0 ==> Memory() == Remembered(desk, old(Memory()), job))
                && (rc != 0 ==> seats == if Healthy(desk, heads.value) then Some(SeatsOf(desk, heads.value))
                                         else old(seats))
    {
      var restore, staged := PlanRestore(desk, keepModes);
      var arrange, seating := PlanArrange(desk, heads, width, height, anchors);
      if seating < 0 {
        return desk, -1;
      }
      var ops := restore + arrange;
      hide RestoreOps, ArrangeOps, Committed, Healthy;
      after := desk;
      if staged + seating <= 0 {
        rc := 0;
      } else if serverAccepts {
        after := Committed(desk, ops);
        rc := 0;
      } else {
        rc := -1;
      }
      if rc == 0 {
        SeatsCommitted();
      }
    }

    /** Adopt the seats a committed plan put the heads in. */
    method SeatsCommitted()
      requires Valid()
      modifies this`seats, this`pending
      ensures Valid() && pending == []
      ensures seats == if old(pending) == [] then old(seats) else Some(old(pending))
    {
      if |pending| > 0 {
        seats := Some(pending);
      }
      pending := [];
    }

    /** The reconfiguration callback. */
    method Reconfigured(beginning: bool, topology: bool, now: real)
      requires Valid()
      modifies this
      ensures Valid() && Memory() == old(Memory()) && watch == old(watch)
      ensures beginning ==> Watch() == old(Watch())
      ensures !beginning && watch.None? ==>
                Watch() == old(Watch()).(topologyAt := if topology then now else old(topologyAt))
      ensures !beginning && watch.Some? ==> Watch() == old(Watch()).Reconfigured(Callback(now, topology))
    {
      if beginning {
        return;
      }
      if topology {
        topologyAt := now;
      }
      if watch.None? {
        return;
      }
      settleDeadline := now + SETTLE_DELAY;
      if !settleArmed {
        settleArmed := true;
        due := due + [now + SETTLE_DELAY];
      }
    }

    /** The delayed block: wait out a deadline that moved, or settle the desk as it now is. */
    method SettleNow(now: real, desk: Displays, serverAccepts: bool) returns (after: Displays, rc: int)
      requires Valid() && due != []
      modifies this
      ensures Valid() && watch == old(watch)
      ensures Watch() == old(Watch()).SettleNow(now)
      ensures runs == old(runs) ==> after == desk && Memory() == old(Memory())
      ensures runs != old(runs) && GoodHeads(watch.value.heads) ==>
                var m := if runs[|runs| - 1].adopts then Adopted(desk, old(Memory())) else old(Memory());
                var ops := Staged(desk, m, watch.value);
                && snapshot == m.snapshot
                && rc == (if ops == [] || serverAccepts then 0 else -1)
                && after == (if rc == 0 && ops != [] then Settled(desk, m, watch.value) else desk)
                && (rc == 0 ==> Memory() == Remembered(desk, m, watch.value))
    {
      due := due[1..];
      if now < settleDeadline {
        due := due + [settleDeadline];
        return desk, 0;
      }
      settleArmed := false;
      runs := runs + [SettleRun(now, now - topologyAt >= TOPOLOGY_SETTLE)];
      if now - topologyAt >= TOPOLOGY_SETTLE {
        TakeSnapshot(desk);
      }
      var job := watch.value;
      after, rc := Settle(desk, Some(job.heads), job.width, job.height, job.keepModes, job.anchors, serverAccepts);
    }

    /** Start watching; arming counts as a topology change. */
    method StartWatching(job: Job, now: real)
      requires Valid()
      modifies this`watch, this`topologyAt
      ensures Valid()
      ensures if 0 < |job.heads| <= MAX_HEADS then watch == Some(job) && topologyAt == now
              else watch == old(watch) && topologyAt == old(topologyAt)
    {
      if |job.heads| == 0 || |job.heads| > MAX_HEADS {
        return;
      }
      watch := Some(job);
      topologyAt := now;
    }
  }
}
