/** A calibration sitting: the phone posts one reading for each patch of each display, and the fit is
    given the readings of all of them. */
module CaptureSession {
  import opened Common
  import opened Http

  const LEVELS := 8

  datatype Reading = Reading(display: int, patch: int, r: real, g: real, b: real)

  datatype Phase = Idle | WaitingForPhone | Measuring(display: nat, patch: nat) | Solving | Failed

  /** The session's fields. `accepted` is not one of them: the readings taken, in order. */
  datatype Session = Session(phase: Phase, serverOnly: bool, listening: bool,
                             entryToken: string, readingToken: string, used: bool,
                             displays: nat, current: nat, currentPatch: nat,
                             readings: map<(nat, nat), Reading>, accepted: seq<Reading>)
  {
    function Shutdown(): Session {
      this.(listening := false, entryToken := "", readingToken := "", used := true)
    }

    /** The first reading of the first display is awaited. */
    function Begin(): Session {
      this.(current := 0, currentPatch := 0, phase := Measuring(0, 0))
    }

    /** Where the sitting goes after the reading of display `d` and patch `p`. */
    function Advance(d: nat, p: nat): Session {
      if p + 1 < LEVELS then this.(currentPatch := p + 1, phase := Measuring(d, p + 1))
      else if d + 1 < displays then this.(current := d + 1, currentPatch := 0, phase := Measuring(d + 1, 0))
      else this.(phase := Solving)
    }

    function Take(reading: Reading): Session
      requires reading.display >= 0 && reading.patch >= 0
    {
      this.(readings := readings[(reading.display, reading.patch) := reading], accepted := accepted + [reading])
      .Advance(reading.display, reading.patch)
    }
  }

  type Decoder = Data -> Option<Reading>

  predicate Unit(x: real) {
    0.0 <= x <= 1.0
  }

  /** The reading a body holds, if it is the one that is due. */
  function DecodeReading(body: Data, display: nat, patch: nat, decode: Decoder): (r: Option<Reading>)
    ensures r.Some? ==> r.value.display == display && r.value.patch == patch
                        && Unit(r.value.r) && Unit(r.value.g) && Unit(r.value.b)
  {
    match decode(body)
    case None => None
    case Some(x) =>
      if x.display == display && x.patch == patch && Unit(x.r) && Unit(x.g) && Unit(x.b) then Some(x) else None
  }

  datatype Reply = Reply(status: nat, location: string)

  function Page(status: nat): Reply {
    Reply(status, "")
  }

  function Record(s: Session, body: Data, decode: Decoder): (Session, Reply) {
    if s.current >= s.displays then (s, Page(400))
    else
      match DecodeReading(body, s.current, s.currentPatch, decode)
      case None => (s, Page(400))
      case Some(reading) => (s.Take(reading), Page(200))
  }

  function Answer(s: Session, verb: string, path: string, body: Data, decode: Decoder): (Session, Reply) {
    if verb == "GET" && path == "/" + s.entryToken && s.entryToken != "" && !s.used then
      (s.(used := true), Reply(303, "/" + s.readingToken))
    else if verb == "GET" && path == "/" + s.readingToken && s.readingToken != "" then
      var t := if s.phase.WaitingForPhone? && !s.serverOnly then s.Begin() else s;
      if !t.serverOnly && !t.phase.Measuring? then (t, Page(410)) else (t, Page(200))
    else if verb == "POST" && path == "/" + s.readingToken + "/reading" && s.readingToken != "" then
      if !s.phase.Measuring? || s.serverOnly then (s, Page(410)) else Record(s, body, decode)
    else (s, Page(404))
  }

  /** The reply to the last reading was delivered, or was not: `Some` readings are to be solved. */
  function Conclude(s: Session, sent: bool): (Session, Option<map<(nat, nat), Reading>>) {
    if !s.phase.Solving? then (s, None)
    else if sent then (s.Shutdown(), Some(s.readings))
    else (s.(phase := Failed).Shutdown(), None)
  }

  datatype Event =
    | Request(verb: string, path: string, body: Data)
    | LastReplySent(sent: bool)
    | Stop
    | Expire

  function Next(s: Session, e: Event, decode: Decoder): Session {
    match e
    case Request(verb, path, body) => Answer(s, verb, path, body, decode).0
    case LastReplySent(sent) => Conclude(s, sent).0
    case Stop => s.Shutdown().(phase := Idle)
    case Expire => if s.listening then s.Shutdown().(phase := Failed) else s
  }

  function Started(entry: string, token: string, displays: nat, serverOnly: bool): Session {
    Session(WaitingForPhone, serverOnly, true, entry, token, false, displays, 0, 0, map[], [])
  }

  function After(s: Session, es: seq<Event>, decode: Decoder): Session
    decreases |es|
  {
    if es == [] then s else Next(After(s, es[..|es| - 1], decode), es[|es| - 1], decode)
  }

  // --- what every run keeps ---

  /** The readings taken so far are the first ones due, each taken once, and each is what the phone
      posted when it was due. */
  ghost predicate InTurn(readings: map<(nat, nat), Reading>, accepted: seq<Reading>) {
    && (forall k: nat, p: nat :: (k, p) in readings <==> p < LEVELS && k * LEVELS + p < |accepted|)
    && (forall i :: 0 <= i < |accepted| ==> TakenAs(readings, i, accepted[i]))
  }

  ghost predicate TakenAs(readings: map<(nat, nat), Reading>, i: nat, x: Reading) {
    && x.display == i / LEVELS && x.patch == i % LEVELS
    && Unit(x.r) && Unit(x.g) && Unit(x.b)
    && (i / LEVELS, i % LEVELS) in readings && readings[(i / LEVELS, i % LEVELS)] == x
  }

  ghost predicate Inv(s: Session) {
    && InTurn(s.readings, s.accepted)
    && match s.phase
       case WaitingForPhone => s.accepted == []
       case Measuring(d, p) =>
         && d == s.current && p == s.currentPatch && d < s.displays && p < LEVELS
         && |s.accepted| == d * LEVELS + p
       case Solving => |s.accepted| == s.displays * LEVELS
       case _ => true
  }

  lemma TakenNext(readings: map<(nat, nat), Reading>, accepted: seq<Reading>, x: Reading)
    requires InTurn(readings, accepted) && x.display >= 0 && 0 <= x.patch < LEVELS
    requires |accepted| == x.display * LEVELS + x.patch && Unit(x.r) && Unit(x.g) && Unit(x.b)
    ensures InTurn(readings[(x.display, x.patch) := x], accepted + [x])
  {
    var n := |accepted|;
    var later := readings[(x.display, x.patch) := x];
    assert n / LEVELS == x.display && n % LEVELS == x.patch;
    forall k: nat, p: nat
      ensures (k, p) in later <==> p < LEVELS && k * LEVELS + p < n + 1
    {
      if p < LEVELS && k * LEVELS + p == n {
        assert k == x.display && p == x.patch;
      }
    }
    forall i | 0 <= i < n
      ensures TakenAs(later, i, accepted[i])
    {
      assert TakenAs(readings, i, accepted[i]);
      assert i == i / LEVELS * LEVELS + i % LEVELS;
    }
  }

  lemma TakeKeepsInv(s: Session, x: Reading)
    requires Inv(s) && s.phase == Measuring(s.current, s.currentPatch)
    requires x.display == s.current && x.patch == s.currentPatch && Unit(x.r) && Unit(x.g) && Unit(x.b)
    ensures Inv(s.Take(x))
  {
    TakenNext(s.readings, s.accepted, x);
    hide InTurn;
  }

  lemma NextKeepsInv(s: Session, e: Event, decode: Decoder)
    requires Inv(s) && s.displays > 0
    ensures Inv(Next(s, e, decode)) && Next(s, e, decode).displays == s.displays
  {
    hide InTurn;
    if e.Request? && s.phase.Measuring? {
      var r := DecodeReading(e.body, s.current, s.currentPatch, decode);
      if r.Some? {
        TakeKeepsInv(s, r.value);
      }
    }
  }

  lemma {:induction false} RunKeepsInv(s: Session, es: seq<Event>, decode: Decoder)
    requires Inv(s) && s.displays > 0
    ensures Inv(After(s, es, decode)) && After(s, es, decode).displays == s.displays
    decreases |es|
  {
    if es != [] {
      RunKeepsInv(s, es[..|es| - 1], decode);
      NextKeepsInv(After(s, es[..|es| - 1], decode), es[|es| - 1], decode);
    }
  }

  /** Whatever is asked of the server and in whatever order, the fit is given one reading for every
      patch of every display and nothing else. */
  lemma SolvesWithAllReadings(entry: string, token: string, displays: nat, es: seq<Event>, decode: Decoder)
    requires displays > 0
    ensures var s := After(Started(entry, token, displays, false), es, decode);
            var given := Conclude(s, true).1;
            given.Some? ==>
              && (forall d: nat, p: nat :: (d, p) in given.value <==> d < displays && p < 8)
              && (forall d: nat, p: nat | (d, p) in given.value :: DueAt(given.value[(d, p)], 8 * d + p))
  {
    var first := Started(entry, token, displays, false);
    RunKeepsInv(first, es, decode);
    var s := After(first, es, decode);
    if s.phase.Solving? {
      forall d: nat, p: nat
        ensures (d, p) in s.readings <==> d < displays && p < LEVELS
      {
        if d < displays {
          assert d * LEVELS + LEVELS <= displays * LEVELS;
        }
      }
      forall d: nat, p: nat | (d, p) in s.readings
        ensures TakenAs(s.readings, d * LEVELS + p, s.readings[(d, p)])
      {
        var i := d * LEVELS + p;
        assert i / LEVELS == d && i % LEVELS == p && i == 8 * d + p;
        assert TakenAs(s.readings, i, s.accepted[i]);
      }
    }
  }

  /** The address in the code leads to the page, and the page to the first patch of the first display. */
  lemma EntryLeadsToPage(entry: string, token: string, displays: nat, body: Data, decode: Decoder)
    requires entry != "" && token != ""
    ensures var s := Started(entry, token, displays, false);
            var (sent, first) := Answer(s, "GET", "/" + entry, body, decode);
            var (begun, page) := Answer(sent, "GET", first.location, body, decode);
            && first == Reply(303, "/" + token) && page.status == 200
            && begun == s.(used := true, phase := Measuring(0, 0), current := 0, currentPatch := 0)
  {
  }

  /** The page itself serves without the address in the code, any number of times, and starts the
      measuring only once. */
  lemma PageAgain(s: Session, body: Data, decode: Decoder)
    requires s.phase.Measuring? && s.readingToken != "" && s.entryToken != s.readingToken
    ensures var (t, r) := Answer(s, "GET", "/" + s.readingToken, body, decode);
            t == s && r.status == 200
  {
    assert ("/" + s.readingToken)[1..] == s.readingToken && ("/" + s.entryToken)[1..] == s.entryToken;
  }

  /** A server that is only tried out shows its page and takes no readings. */
  lemma ServerOnlyMeasuresNothing(s: Session, body: Data, decode: Decoder)
    requires s.serverOnly && s.readingToken != "" && s.used
    ensures Answer(s, "GET", "/" + s.readingToken, body, decode) == (s, Page(200))
    ensures Answer(s, "POST", ReadingPath(s), body, decode) == (s, Page(410))
  {
  }

  function ReadingPath(s: Session): string {
    "/" + s.readingToken + "/reading"
  }

  /** The reading of patch `n % 8` of display `n / 8`, each channel from none to full. */
  predicate DueAt(x: Reading, n: nat) {
    && x.display == n / 8 && x.patch == n % 8
    && 0.0 <= x.r <= 1.0 && 0.0 <= x.g <= 1.0 && 0.0 <= x.b <= 1.0
  }

  /** A reading is taken exactly when it is the one that is due; any other gets 400 and changes nothing. */
  lemma PostIff(s: Session, body: Data, decode: Decoder)
    requires Inv(s) && s.phase.Measuring? && !s.serverOnly && s.readingToken != ""
    ensures var (t, r) := Answer(s, "POST", ReadingPath(s), body, decode);
            if decode(body).Some? && DueAt(decode(body).value, |s.accepted|) then
              && r.status == 200 && t.accepted == s.accepted + [decode(body).value]
              && t.phase == (if |t.accepted| == 8 * s.displays then Solving
                             else Measuring(|t.accepted| / 8, |t.accepted| % 8))
            else r.status == 400 && t == s
  {
    var n := |s.accepted|;
    assert n / 8 == s.current && n % 8 == s.currentPatch;
    if s.currentPatch + 1 < LEVELS {
      assert (n + 1) / 8 == s.current && (n + 1) % 8 == s.currentPatch + 1;
      assert n + 1 < 8 * (s.current + 1) <= 8 * s.displays;
    } else {
      assert n + 1 == 8 * (s.current + 1);
    }
    hide InTurn;
  }

  function Posts(s: Session, bodies: seq<Data>): (es: seq<Event>)
    ensures |es| == |bodies|
  {
    seq(|bodies|, i requires 0 <= i < |bodies| => Request("POST", ReadingPath(s), bodies[i]))
  }

  /** The first readings of a sitting have been taken, and nothing else has changed. */
  ghost predicate Came(s: Session, bodies: seq<Data>, decode: Decoder, t: Session) {
    && Inv(t)
    && t == s.(phase := t.phase, current := t.current, currentPatch := t.currentPatch,
               readings := t.readings, accepted := t.accepted)
    && |t.accepted| == |bodies|
    && (forall i :: 0 <= i < |bodies| ==> decode(bodies[i]) == Some(t.accepted[i]))
    && t.phase == if |bodies| == 8 * s.displays then Solving else Measuring(|bodies| / 8, |bodies| % 8)
  }

  /** Posted in turn, the readings are all taken, and the last one of the last display ends the
      measuring. */
  lemma {:induction false} SittingCompletes(s: Session, bodies: seq<Data>, decode: Decoder)
    requires Inv(s) && s.phase == Measuring(0, 0) && !s.serverOnly && s.readingToken != ""
    requires |bodies| <= 8 * s.displays
    requires forall i :: 0 <= i < |bodies| ==> decode(bodies[i]).Some? && DueAt(decode(bodies[i]).value, i)
    ensures Came(s, bodies, decode, After(s, Posts(s, bodies), decode))
    decreases |bodies|
  {
    if bodies != [] {
      hide Next, Answer, Inv, Came, DueAt, After;
      var front, last := bodies[..|bodies| - 1], bodies[|bodies| - 1];
      SittingCompletes(s, front, decode);
      OneMorePost(s, front, last, decode);
      OneMoreCame(s, front, last, decode, After(s, Posts(s, front), decode));
      assert front + [last] == bodies;
    }
  }

  lemma OneMorePost(s: Session, bodies: seq<Data>, body: Data, decode: Decoder)
    ensures After(s, Posts(s, bodies + [body]), decode)
         == Answer(After(s, Posts(s, bodies), decode), "POST", ReadingPath(s), body, decode).0
  {
    var es := Posts(s, bodies + [body]);
    assert es[..|es| - 1] == Posts(s, bodies) && es[|es| - 1] == Request("POST", ReadingPath(s), body);
    hide Answer;
  }

  lemma OneMoreCame(s: Session, bodies: seq<Data>, body: Data, decode: Decoder, t: Session)
    requires Came(s, bodies, decode, t) && |bodies| < 8 * s.displays && !s.serverOnly && s.readingToken != ""
    requires decode(body).Some? && DueAt(decode(body).value, |bodies|)
    ensures Came(s, bodies + [body], decode, Answer(t, "POST", ReadingPath(s), body, decode).0)
  {
    PostIff(t, body, decode);
    PostChanges(t, body, decode);
    NextKeepsInv(t, Request("POST", ReadingPath(s), body), decode);
    hide Answer, Inv, DueAt;
  }

  lemma PostChanges(s: Session, body: Data, decode: Decoder)
    ensures var t := Answer(s, "POST", ReadingPath(s), body, decode).0;
            t == s.(phase := t.phase, current := t.current, currentPatch := t.currentPatch,
                    readings := t.readings, accepted := t.accepted)
  {
  }

  /** A reading posted twice is taken once. */
  lemma RepeatRefused(s: Session, body: Data, decode: Decoder)
    requires Inv(s) && s.displays > 0 && s.phase.Measuring? && !s.serverOnly && s.readingToken != ""
    ensures var path := "/" + s.readingToken + "/reading";
            var (t, r) := Answer(s, "POST", path, body, decode);
            var (u, again) := Answer(t, "POST", path, body, decode);
            u == t && again.status in {400, 410} && (t != s ==> r.status == 200)
  {
  }

  /** The `i`th event of a run is a request that is sent on from the address in the code. */
  predicate SentOn(s: Session, es: seq<Event>, decode: Decoder, i: nat) {
    && i < |es| && es[i].Request?
    && Answer(After(s, es[..i], decode), es[i].verb, es[i].path, es[i].body, decode).1.status == 303
  }

  lemma {:induction false} UsedStays(s: Session, es: seq<Event>, decode: Decoder, i: nat, j: nat)
    requires i <= j <= |es| && After(s, es[..i], decode).used
    ensures After(s, es[..j], decode).used
    decreases j
  {
    hide Next;
    if i < j {
      UsedStays(s, es, decode, i, j - 1);
      assert es[..j][..j - 1] == es[..j - 1];
      UsedOnce(After(s, es[..j - 1], decode), es[j - 1], decode);
    }
  }

  lemma UsedOnce(s: Session, e: Event, decode: Decoder)
    ensures s.used ==> Next(s, e, decode).used
    ensures e.Request? && Answer(s, e.verb, e.path, e.body, decode).1.status == 303 ==>
              !s.used && Next(s, e, decode).used
  {
  }

  /** The address in the code works once. */
  lemma EntryWorksOnce(s: Session, es: seq<Event>, decode: Decoder, i: nat, j: nat)
    requires i < j
    ensures !(SentOn(s, es, decode, i) && SentOn(s, es, decode, j))
  {
    if SentOn(s, es, decode, i) && SentOn(s, es, decode, j) {
      assert es[..i + 1][..i] == es[..i];
      UsedOnce(After(s, es[..i], decode), es[i], decode);
      UsedOnce(After(s, es[..j], decode), es[j], decode);
      hide Next, Answer;
      UsedStays(s, es, decode, i + 1, j);
    }
  }

  /** A sitting that has ended answers nothing but that there is nothing here. */
  lemma ClosedAnswersNothing(s: Session, verb: string, path: string, body: Data, decode: Decoder)
    ensures Answer(s.Shutdown(), verb, path, body, decode) == (s.Shutdown(), Page(404))
  {
  }

  /** The readings go to the fit exactly when the last of them came and its reply was delivered; a reply
      that was not fails the sitting. */
  lemma GivenIff(s: Session, sent: bool)
    ensures var (t, given) := Conclude(s, sent);
            && (given.Some? <==> s.phase.Solving? && sent)
            && (given.Some? ==> given.value == s.readings)
            && (s.phase.Solving? && !sent ==> t.phase.Failed?)
            && (!s.phase.Solving? ==> t == s)
  {
  }

  /** Stopped, timed out or concluded, a sitting has ended. */
  lemma EndedAnswersNothing(s: Session, e: Event, verb: string, path: string, body: Data, decode: Decoder)
    requires e.Stop? || (e.Expire? && s.listening) || (e.LastReplySent? && s.phase.Solving?)
    ensures var t := Next(s, e, decode);
            && !t.listening && t.used && t.entryToken == "" && t.readingToken == ""
            && Answer(t, verb, path, body, decode) == (t, Page(404))
  {
  }

  // --- as the app keeps it ---

  class CalibrationSession {
    var phase: Phase
    var serverOnly: bool
    var listening: bool
    var entryToken: string
    var readingToken: string
    var used: bool
    var displays: nat
    var current: nat
    var currentPatch: nat
    var readings: map<(nat, nat), Reading>
    ghost var accepted: seq<Reading>

    ghost function Model(): Session
      reads this
    {
      Session(phase, serverOnly, listening, entryToken, readingToken, used, displays, current, currentPatch,
              readings, accepted)
    }

    constructor (entry: string, token: string, displays: nat, serverOnly: bool)
      ensures Model() == Started(entry, token, displays, serverOnly)
    {
      phase, listening, used := WaitingForPhone, true, false;
      this.serverOnly, this.displays := serverOnly, displays;
      entryToken, readingToken := entry, token;
      current, currentPatch, readings, accepted := 0, 0, map[], [];
    }

    method Handle(verb: string, path: string, body: Data, decode: Decoder) returns (reply: Reply)
      modifies this
      ensures (Model(), reply) == Answer(old(Model()), verb, path, body, decode)
    {
      if verb == "GET" && path == "/" + entryToken && entryToken != "" && !used {
        used := true;
        return Reply(303, "/" + readingToken);
      }
      if verb == "GET" && path == "/" + readingToken && readingToken != "" {
        if phase.WaitingForPhone? && !serverOnly {
          current, currentPatch := 0, 0;
          phase := Measuring(0, 0);
        }
        if !serverOnly && !phase.Measuring? {
          return Page(410);
        }
        return Page(200);
      }
      if verb == "POST" && path == "/" + readingToken + "/reading" && readingToken != "" {
        if !phase.Measuring? || serverOnly {
          return Page(410);
        }
        reply := Ingest(body, decode);
        return;
      }
      return Page(404);
    }

    method Ingest(body: Data, decode: Decoder) returns (reply: Reply)
      modifies this
      ensures (Model(), reply) == Record(old(Model()), body, decode)
    {
      if current >= displays {
        return Page(400);
      }
      var decoded := DecodeReading(body, current, currentPatch, decode);
      if decoded.None? {
        return Page(400);
      }
      var reading := decoded.value;
      readings := readings[(reading.display, reading.patch) := reading];
      accepted := accepted + [reading];
      var next := reading.patch + 1;
      if next < LEVELS {
        currentPatch := next;
        phase := Measuring(reading.display, next);
      } else if reading.display + 1 < displays {
        current, currentPatch := reading.display + 1, 0;
        phase := Measuring(current, 0);
      } else {
        phase := Solving;
      }
      return Page(200);
    }

    /** What follows the reply to the last reading. */
    method Delivered(sent: bool) returns (given: Option<map<(nat, nat), Reading>>)
      modifies this
      ensures (Model(), given) == Conclude(old(Model()), sent)
    {
      if !phase.Solving? {
        return None;
      }
      if !sent {
        phase := Failed;
        Shutdown();
        return None;
      }
      given := Some(readings);
      Shutdown();
    }

    method Shutdown()
      modifies this
      ensures Model() == old(Model()).Shutdown()
    {
      listening, entryToken, readingToken, used := false, "", "", true;
    }
  }
}
