/** Putting the desk back: what one settle stages into a display transaction, and where a desk
    comes to rest. The window server applies a committed transaction exactly. */
module Desk {
  import opened Common

  const LIST_CAP := 16
  const MAX_HEADS := 2

  /** Point size, backing pixels and refresh rate: what makes two modes the same mode. */
  datatype Mode = Mode(width: nat, height: nat, pixelWidth: nat, pixelHeight: nat, refresh: nat)

  /** An online display; `mirror` is the display it shows, zero for its own. */
  datatype Display = Display(id: nat, x: int, y: int, width: nat, height: nat, mode: Option<Mode>, mirror: nat)

  type Displays = seq<Display>

  /** A display as the snapshot remembers it. */
  datatype Entry = Entry(id: nat, x: int, y: int, mode: Option<Mode>, mirrorOf: nat)

  /** A staged change. */
  datatype Op =
    | Origin(id: nat, x: int, y: int)
    | SetMode(id: nat, mode: Mode)
    | Mirror(id: nat, master: nat)

  // --- the window server ---

  function Change(d: Display, op: Op): Display {
    if op.id != d.id then d
    else match op
      case Origin(_, x, y) => d.(x := x, y := y)
      case SetMode(_, m) => d.(mode := Some(m), width := m.width, height := m.height)
      case Mirror(_, m) => d.(mirror := m)
  }

  function Changed(d: Display, ops: seq<Op>): (r: Display)
    ensures r.id == d.id
  {
    if ops == [] then d else Change(Changed(d, ops[..|ops| - 1]), ops[|ops| - 1])
  }

  function Committed(desk: Displays, ops: seq<Op>): (r: Displays)
    ensures |r| == |desk|
  {
    seq(|desk|, i requires 0 <= i < |desk| => Changed(desk[i], ops))
  }

  /** The displays a list of sixteen can hold. */
  function Listed(desk: Displays): (r: Displays)
    ensures r <= desk
  {
    if |desk| <= LIST_CAP then desk else desk[..LIST_CAP]
  }

  ghost predicate Distinct(desk: Displays) {
    forall i, j :: 0 <= i < j < |desk| ==> desk[i].id != desk[j].id
  }

  function Find(desk: Displays, id: nat): (r: Option<Display>)
    ensures r.Some? ==> r.value in desk && r.value.id == id
    ensures r.None? ==> forall i :: 0 <= i < |desk| ==> desk[i].id != id
  {
    if desk == [] then None
    else if desk[0].id == id then Some(desk[0])
    else Find(desk[1..], id)
  }

  /** Where a display is; a display that is not there has empty bounds. */
  function Bounds(desk: Displays, id: nat): Display {
    match Find(desk, id)
    case Some(d) => d
    case None => Display(id, 0, 0, 0, 0, None, 0)
  }

  /** One that is gone is a point at the origin that mirrors nothing. */
  lemma GoneIsEmpty(desk: Displays, id: nat)
    requires forall i :: 0 <= i < |desk| ==> desk[i].id != id
    ensures var b := Bounds(desk, id); b.x == b.y == 0 && b.width == b.height == 0 && b.mirror == 0
  {
    var d := Find(desk, id);
  }

  predicate Online(desk: Displays, id: nat) {
    exists i :: 0 <= i < |Listed(desk)| && Listed(desk)[i].id == id
  }

  // --- restoring the snapshot ---

  /** What the snapshot records of a desk: every listed display. */
  function SnapshotOf(desk: Displays): seq<Entry> {
    seq(|Listed(desk)|, i requires 0 <= i < |Listed(desk)| =>
      var d := Listed(desk)[i]; Entry(d.id, d.x, d.y, d.mode, d.mirror))
  }

  /** Modes cannot be told apart once either is missing, unless both are. */
  predicate ModesDiffer(a: Option<Mode>, b: Option<Mode>) {
    a != b
  }

  function OriginOps(e: Entry, d: Display): seq<Op> {
    if d.x != e.x || d.y != e.y then [Origin(d.id, e.x, e.y)] else []
  }

  function ModeOps(e: Entry, d: Display, keepModes: bool): seq<Op> {
    if keepModes && e.mode.Some? && ModesDiffer(d.mode, e.mode) then [SetMode(d.id, e.mode.value)] else []
  }

  function MirrorOps(desk: Displays, e: Entry, d: Display): seq<Op> {
    if e.mirrorOf != 0 && Online(desk, e.mirrorOf) && d.mirror != e.mirrorOf then [Mirror(d.id, e.mirrorOf)] else []
  }

  /** Everything staged for one remembered display; nothing if it is not online now. */
  function EntryOps(desk: Displays, e: Entry, keepModes: bool): seq<Op> {
    match Find(Listed(desk), e.id)
    case None => []
    case Some(d) => OriginOps(e, d) + ModeOps(e, d, keepModes) + MirrorOps(desk, e, d)
  }

  function RestoreOps(desk: Displays, snapshot: seq<Entry>, keepModes: bool): seq<Op> {
    if snapshot == [] then []
    else RestoreOps(desk, snapshot[..|snapshot| - 1], keepModes)
         + EntryOps(desk, snapshot[|snapshot| - 1], keepModes)
  }

  // --- seating the heads ---

  predicate InMirrorSet(desk: Displays, head: nat) {
    || Bounds(desk, head).mirror != 0
    || exists i :: 0 <= i < |Listed(desk)| && Listed(desk)[i].id != head && Listed(desk)[i].mirror == head
  }

  predicate Paired(desk: Displays, heads: seq<nat>) {
    forall i :: 1 <= i < |heads| ==>
      var p, c := Bounds(desk, heads[i - 1]), Bounds(desk, heads[i]);
      c.x == p.x + p.width && c.y == p.y
  }

  /** Seated side by side, each showing its own desktop. */
  predicate Healthy(desk: Displays, heads: seq<nat>) {
    && (forall i :: 0 <= i < |heads| ==> !InMirrorSet(desk, heads[i]))
    && Paired(desk, heads)
  }

  function FollowerOps(shown: Displays, head: nat): seq<Op> {
    if shown == [] then []
    else
      var d := shown[|shown| - 1];
      FollowerOps(shown[..|shown| - 1], head) + (if d.id != head && d.mirror == head then [Mirror(d.id, 0)] else [])
  }

  /** Break the set from whichever side can break it. */
  function DetachOps(desk: Displays, head: nat): seq<Op> {
    (if Bounds(desk, head).mirror != 0 then [Mirror(head, 0)] else []) + FollowerOps(Listed(desk), head)
  }

  function DetachAll(desk: Displays, heads: seq<nat>): seq<Op> {
    if heads == [] then [] else DetachAll(desk, heads[..|heads| - 1]) + DetachOps(desk, heads[|heads| - 1])
  }

  function SeatOps(heads: seq<nat>, width: nat, x: int, y: int, n: nat): seq<Op>
    requires n <= |heads|
  {
    if n == 0 then []
    else SeatOps(heads, width, x, y, n - 1) + [Origin(heads[n - 1], x + width * (n - 1), y)]
  }

  datatype Seat = Seat(x: int, y: int)

  /** The panel attached natively, if that is known, and the main display. */
  datatype Anchors = Anchors(native: nat, main: nat)

  /** Half a coordinate, cut towards zero as a cast to an integer cuts it. */
  function Halved(n: int): int {
    if n >= 0 then n / 2 else -(-n / 2)
  }

  function FirstSeat(desk: Displays, heads: seq<nat>, width: nat, height: nat, seats: Option<seq<Seat>>, a: Anchors)
    : Seat
    requires seats.Some? ==> |seats.value| > 0
  {
    if seats.Some? then seats.value[0]
    else if a.native != 0 && a.native !in heads then
      var n := Bounds(desk, a.native);
      Seat(n.x - width * |heads|, n.y)
    else
      var m := Bounds(desk, a.main);
      Seat(Halved(2 * m.x + m.width) - width, m.y - height)
  }

  /** The number n / 2, cut towards zero. */
  ghost predicate IsHalf(half: int, n: int) {
    2 * half == n || (2 * half == n - 1 && n > 0) || (2 * half == n + 1 && n < 0)
  }

  /** A row of heads starts in the first remembered seat; or, with none remembered, so that it ends at the
      left edge of the native panel and is level with its top, if there is one that is no head; or else so
      that its first two meet at the middle of the main display, standing on its top. */
  ghost predicate StartsRight(desk: Displays, heads: seq<nat>, width: nat, height: nat, seats: Option<seq<Seat>>,
                              a: Anchors, s: Seat)
    requires seats.Some? ==> |seats.value| > 0
  {
    var native, main := Bounds(desk, a.native), Bounds(desk, a.main);
    if seats.Some? then s == seats.value[0]
    else if a.native != 0 && a.native !in heads then s.x + width * |heads| == native.x && s.y == native.y
    else IsHalf(s.x + width, 2 * main.x + main.width) && s.y + height == main.y
  }

  lemma FirstSeatIff(desk: Displays, heads: seq<nat>, width: nat, height: nat, seats: Option<seq<Seat>>, a: Anchors,
                     s: Seat)
    requires seats.Some? ==> |seats.value| > 0
    ensures s == FirstSeat(desk, heads, width, height, seats, a) <==>
            StartsRight(desk, heads, width, height, seats, a, s)
  {
    hide Bounds;
  }

  function ArrangeOps(desk: Displays, heads: seq<nat>, width: nat, first: Seat): seq<Op> {
    if Healthy(desk, heads) then []
    else DetachAll(desk, heads) + SeatOps(heads, width, first.x, first.y, |heads|)
  }

  /** What is carried from one settle to the next. */
  datatype Memory = Memory(snapshot: seq<Entry>, seats: Option<seq<Seat>>)

  /** The memory of a driver that takes its snapshot now. */
  function Adopted(desk: Displays, m: Memory): Memory {
    m.(snapshot := SnapshotOf(desk))
  }

  predicate GoodHeads(heads: seq<nat>) {
    0 < |heads| <= MAX_HEADS && forall i :: 0 <= i < |heads| ==> heads[i] != 0
  }

  function SeatsOf(desk: Displays, heads: seq<nat>): seq<Seat> {
    seq(|heads|, i requires 0 <= i < |heads| => Seat(Bounds(desk, heads[i]).x, Bounds(desk, heads[i]).y))
  }

  function Run(heads: seq<nat>, width: nat, first: Seat): seq<Seat> {
    seq(|heads|, i requires 0 <= i < |heads| => Seat(first.x + width * i, first.y))
  }

  datatype Job = Job(heads: seq<nat>, width: nat, height: nat, keepModes: bool, anchors: Anchors)

  /** What one settle stages. */
  function Staged(desk: Displays, m: Memory, job: Job): seq<Op>
    requires m.seats.Some? ==> |m.seats.value| > 0
  {
    RestoreOps(desk, m.snapshot, job.keepModes)
    + ArrangeOps(desk, job.heads, job.width, FirstSeat(desk, job.heads, job.width, job.height, m.seats, job.anchors))
  }

  /** The desk after one settle. */
  function Settled(desk: Displays, m: Memory, job: Job): Displays
    requires m.seats.Some? ==> |m.seats.value| > 0
  {
    Committed(desk, Staged(desk, m, job))
  }

  /** The seats remembered after it. */
  function Remembered(desk: Displays, m: Memory, job: Job): (r: Memory)
    requires m.seats.Some? ==> |m.seats.value| > 0
    ensures |job.heads| > 0 ==> r.seats.Some? && |r.seats.value| == |job.heads|
  {
    m.(seats := Some(
      if Healthy(desk, job.heads) then SeatsOf(desk, job.heads)
      else Run(job.heads, job.width, FirstSeat(desk, job.heads, job.width, job.height, m.seats, job.anchors))))
  }
}
