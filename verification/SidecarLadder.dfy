/** Connecting the iPad: what the watcher does on every trigger, timer and answer, and why it never
    has two connects in the air nor keeps pushing at a framework that refuses. */
module SidecarLadder {
  import opened Common

  type Seconds = int

  /** Seconds before each further attempt. */
  function Ladder(): (r: seq<Seconds>)
    ensures |r| == RUNGS
  {
    [5, 10, 20, 40, 60]
  }

  const RUNGS := 5
  const STAND_DOWN: Seconds := 30 * 60
  const AFTER_DISCONNECT: Seconds := 5 * 60

  /** What one decision reads of the settings, the framework, the desk and the clock. `sends` is
      whether the framework takes a connect call. */
  datatype World = World(enabled: bool, requireDesk: bool, available: bool, found: bool, connected: bool,
                         locked: bool, atDesk: bool, sends: bool, now: Seconds)

  /** The watcher's fields, with two it does not keep: the generations of the connects not yet
      answered, and how many connects were asked for since the last trigger. */
  datatype Watcher = Watcher(busy: bool, attempt: nat, retry: Option<Seconds>, quietUntil: Option<Seconds>,
                             wasConnected: bool, nearby: bool, generation: nat,
                             waiting: seq<nat>, asked: nat)
  {
    function CancelRetry(): Watcher {
      this.(retry := None, attempt := 0)
    }

    function ArmRetry(now: Seconds): Watcher {
      if attempt < RUNGS then this.(retry := Some(now + Ladder()[attempt]), attempt := attempt + 1)
      else this.(attempt := 0, quietUntil := Some(now + STAND_DOWN))
    }

    function Connect(w: World): Watcher {
      var tried := this.(busy := true, asked := asked + 1);
      if w.sends then tried.(waiting := waiting + [generation])
      else tried.(busy := false).ArmRetry(w.now)
    }

    predicate StandingDown(now: Seconds) {
      quietUntil.Some? && now < quietUntil.value
    }

    function TurnedOff(): Watcher {
      this.(generation := generation + 1, retry := None, attempt := 0, busy := false, nearby := false,
            wasConnected := false, quietUntil := None)
    }

    function Evaluate(w: World): Watcher {
      if !w.enabled then TurnedOff()
      else if !w.available then this
      else if !w.found then (if nearby then CancelRetry() else this).(nearby := false)
      else
        (if nearby then this else this.(nearby := true, quietUntil := None).CancelRetry()).Approach(w)
    }

    /** The rest of the decision, once the iPad is in reach. */
    function Approach(w: World): Watcher {
      if w.connected then CancelRetry().(wasConnected := true)
      else if wasConnected && !busy then
        CancelRetry().(wasConnected := false, quietUntil := Some(w.now + AFTER_DISCONNECT))
      else
        var free := this.(wasConnected := false);
        if busy || retry.Some? || w.locked || (w.requireDesk && !w.atDesk) || StandingDown(w.now) then free
        else free.Connect(w)
    }

    function Invalidate(w: World): Watcher {
      this.(generation := generation + 1, asked := 0).CancelRetry().Evaluate(w)
    }

    /** The answer to the `i`th connect still waiting. */
    function Answered(i: nat, refused: bool, w: World): Watcher
      requires i < |waiting|
    {
      var left := this.(waiting := waiting[..i] + waiting[i + 1..], busy := false);
      if waiting[i] != generation then left.Evaluate(w)
      else if refused then left.ArmRetry(w.now)
      else left.(attempt := 0, wasConnected := true)
    }
  }

  datatype Event =
    | Trigger(w: World)
    | Restart(w: World)
    | RetryFires(w: World)
    | Answer(i: nat, refused: bool, w: World)

  predicate Enabled(s: Watcher, e: Event) {
    match e
    case Trigger(_) => true
    case Restart(_) => true
    case RetryFires(w) => s.retry.Some? && s.retry.value <= w.now
    case Answer(i, _, _) => i < |s.waiting|
  }

  function Next(s: Watcher, e: Event): Watcher
    requires Enabled(s, e)
  {
    match e
    case Trigger(w) => s.Invalidate(w)
    case Restart(w) => s.(asked := 0).Evaluate(w)
    case RetryFires(w) => s.(retry := None).Evaluate(w)
    case Answer(i, refused, w) => s.Answered(i, refused, w)
  }

  function Started(connected: bool): Watcher {
    Watcher(false, 0, None, None, connected, false, 0, [], 0)
  }

  // --- what every step keeps ---

  /** One connect in the air at most, and never with the retry timer running. `asked` stays behind
      the rung the ladder is on, and an answer that will be ignored leaves the ladder at its foot. */
  ghost predicate Inv(s: Watcher) {
    && s.attempt <= RUNGS
    && |s.waiting| <= 1
    && (s.busy <==> s.waiting != [])
    && (s.busy ==> s.retry.None?)
    && s.asked <= RUNGS + 1
    && (s.busy ==> s.asked <= s.attempt + 1)
    && (s.busy && s.waiting[0] != s.generation ==> s.asked == 0)
    && (s.retry.Some? ==> s.asked <= s.attempt)
    && ((s.busy || s.retry.Some?) && !s.nearby ==> s.asked == 0)
  }

  /** The switch is not turned off under a connect that has not been answered. */
  predicate Careful(s: Watcher, e: Event) {
    e.w.enabled || s.waiting == [] || e.Answer?
  }

  lemma EvaluateKeepsInv(s: Watcher, w: World)
    requires s.attempt <= RUNGS && |s.waiting| <= 1 && (s.busy <==> s.waiting != [])
    requires s.busy ==> s.retry.None? && s.asked == 0
    requires s.asked <= s.attempt && (s.nearby || s.asked == 0)
    requires w.enabled || s.waiting == []
    ensures Inv(s.Evaluate(w))
  {
  }

  lemma NextKeepsInv(s: Watcher, e: Event)
    requires Inv(s) && Enabled(s, e) && Careful(s, e)
    ensures Inv(Next(s, e))
  {
    hide Ladder;
    match e
    case Trigger(w) => EvaluateKeepsInv(s.(generation := s.generation + 1, asked := 0).CancelRetry(), w);
    case Restart(w) => EvaluateKeepsInv(s.(asked := 0), w);
    case RetryFires(w) => EvaluateKeepsInv(s.(retry := None), w);
    case Answer(i, refused, w) =>
      var left := s.(waiting := s.waiting[..i] + s.waiting[i + 1..], busy := false);
      assert left.waiting == [];
      if s.waiting[i] != s.generation {
        EvaluateKeepsInv(left, w);
      }
  }

  /** A run of events, each possible where it happens. */
  ghost predicate Run(s: Watcher, es: seq<Event>)
    decreases |es|
  {
    es == [] || (Enabled(s, es[0]) && Run(Next(s, es[0]), es[1..]))
  }

  ghost predicate CarefulRun(s: Watcher, es: seq<Event>)
    requires Run(s, es)
    decreases |es|
  {
    es == [] || (Careful(s, es[0]) && CarefulRun(Next(s, es[0]), es[1..]))
  }

  function After(s: Watcher, es: seq<Event>): Watcher
    requires Run(s, es)
    decreases |es|
  {
    if es == [] then s else After(Next(s, es[0]), es[1..])
  }

  lemma {:induction false} RunKeepsInv(s: Watcher, es: seq<Event>)
    requires Inv(s) && Run(s, es) && CarefulRun(s, es)
    ensures Inv(After(s, es))
    decreases |es|
  {
    if es != [] {
      NextKeepsInv(s, es[0]);
      RunKeepsInv(Next(s, es[0]), es[1..]);
    }
  }

  /** Over every order of triggers, timers and answers: one connect at a time, none beside a running
      timer, and at most six between two triggers. */
  lemma NeverPushes(connected: bool, es: seq<Event>)
    requires Run(Started(connected), es) && CarefulRun(Started(connected), es)
    ensures var s := After(Started(connected), es);
            |s.waiting| <= 1 && (s.waiting != [] ==> s.retry.None?) && s.asked <= 6
  {
    RunKeepsInv(Started(connected), es);
  }

  // --- when a connect is asked for ---

  /** A decision asks for one connect exactly when switched on, with the framework there and the iPad in
      reach and unconnected, nobody having just taken it away, the screen unlocked and the desk right if
      that matters, and neither a connect out, nor, for an iPad that was in reach before, a timer running
      or a stand-down on; otherwise for none. */
  lemma AsksIff(s: Watcher, w: World)
    ensures var n := s.Evaluate(w);
            && (n.asked == s.asked + 1 <==>
                && w.enabled && w.available && w.found && !w.connected && !s.wasConnected
                && !w.locked && (w.requireDesk ==> w.atDesk) && !s.busy
                && (s.nearby ==> s.retry.None? && (s.quietUntil.Some? ==> s.quietUntil.value <= w.now)))
            && (n.asked == s.asked || n.asked == s.asked + 1)
            && n.waiting == if n.asked == s.asked + 1 && w.sends then s.waiting + [s.generation] else s.waiting
  {
  }

  /** Where no connect may go out. */
  predicate Forbids(w: World) {
    !w.enabled || !w.available || !w.found || w.connected || w.locked || (w.requireDesk && !w.atDesk)
  }

  /** However long the screen is locked, the desk is the wrong one, the iPad is away or connected, or the
      switch is off, no connect goes out. */
  lemma {:induction false} NoneWhileForbidden(s: Watcher, es: seq<Event>)
    requires Run(s, es) && forall i :: 0 <= i < |es| ==> Forbids(es[i].w)
    ensures After(s, es).asked <= s.asked && forall g :: g in After(s, es).waiting ==> g in s.waiting
    decreases |es|
  {
    if es != [] {
      NoneThen(s, es[0]);
      NoneWhileForbidden(Next(s, es[0]), es[1..]);
    }
  }

  lemma NoneThen(s: Watcher, e: Event)
    requires Enabled(s, e) && Forbids(e.w)
    ensures Next(s, e).asked <= s.asked && forall g :: g in Next(s, e).waiting ==> g in s.waiting
  {
    match e
    case Trigger(w) => AsksIff(s.(generation := s.generation + 1, asked := 0).CancelRetry(), w);
    case Restart(w) => AsksIff(s.(asked := 0), w);
    case RetryFires(w) => AsksIff(s.(retry := None), w);
    case Answer(i, refused, w) => AsksIff(s.(waiting := s.waiting[..i] + s.waiting[i + 1..], busy := false), w);
  }

  // --- turning the switch off and on ---

  /** Nothing stands in the way of a connect. */
  predicate Open(w: World) {
    && w.enabled && w.available && w.found && !w.connected && !w.locked && w.sends
    && (w.requireDesk ==> w.atDesk)
  }

  /** Off and on again is safe exactly when no connect was waiting: the watcher forgets that it is
      busy, so a second one goes out beside the first. */
  lemma OffAndOnIff(s: Watcher, off: World, on: World)
    requires Inv(s) && !off.enabled && Open(on)
    ensures var again := Next(Next(s, Trigger(off)), Trigger(on));
            |again.waiting| <= 1 <==> s.waiting == []
  {
  }

  // --- climbing the ladder ---

  /** The timer fires on a desk that is ready, and the framework refuses. */
  function Climb(s: Watcher, fire: World, refuse: World): (r: Watcher)
    requires Inv(s) && s.retry.Some? && s.retry.value <= fire.now && s.nearby && !s.wasConnected
    requires Open(fire) && !s.StandingDown(fire.now)
    ensures r == s.(retry := None).ArmRetry(refuse.now).(asked := s.asked + 1)
  {
    var tried := Next(s, RetryFires(fire));
    assert s.waiting == [];
    Next(tried, Answer(0, true, refuse))
  }

  /** A refusal is followed by another attempt after five seconds, then ten, twenty, forty and sixty, and
      then by half an hour without any. */
  lemma RefusedAgain(s: Watcher, now: Seconds)
    requires s.attempt <= 5
    ensures var n := s.ArmRetry(now);
            if s.attempt == 5 then n == s.(attempt := 0, quietUntil := Some(now + 1800))
            else && n == s.(attempt := s.attempt + 1, retry := n.retry)
                 && n.retry == Some(now + if s.attempt == 0 then 5 else if s.attempt == 1 then 10
                                          else if s.attempt == 2 then 20 else if s.attempt == 3 then 40 else 60)
  {
  }

  /** Attempts that are all refused, until none is left. */
  ghost predicate Refusals(s: Watcher, ws: seq<(World, World)>)
    decreases |ws|
  {
    && Inv(s) && s.nearby && !s.wasConnected
    && if s.retry.None? then ws == []
       else
         && ws != []
         && var (fire, refuse) := ws[0];
            && Open(fire) && s.retry.value <= fire.now <= refuse.now
            && !s.StandingDown(fire.now)
            && Refusals(Climb(s, fire, refuse), ws[1..])
  }

  function AfterRefusals(s: Watcher, ws: seq<(World, World)>): Watcher
    requires Refusals(s, ws)
    decreases |ws|
  {
    if ws == [] then s else AfterRefusals(Climb(s, ws[0].0, ws[0].1), ws[1..])
  }

  function LeftToWait(attempt: nat): Seconds
    requires attempt <= RUNGS
    decreases RUNGS - attempt
  {
    if attempt == RUNGS then 0 else Ladder()[attempt] + LeftToWait(attempt + 1)
  }

  /** From the first refusal on, exactly as many attempts as there are rungs, at least the ladder's
      seconds apart, and then half an hour of standing down. */
  lemma {:induction false} RefusalsStandDown(s: Watcher, ws: seq<(World, World)>)
    requires s.retry.Some? && s.attempt > 0 && Refusals(s, ws)
    ensures |ws| == 6 - s.attempt
    ensures var last := ws[|ws| - 1].1.now;
            && AfterRefusals(s, ws).quietUntil == Some(last + 1800)
            && AfterRefusals(s, ws).retry.None?
            && last >= s.retry.value + LeftToWait(s.attempt)
    decreases |ws|
  {
    var next := Climb(s, ws[0].0, ws[0].1);
    if s.attempt < RUNGS {
      RefusalsStandDown(next, ws[1..]);
    }
  }

  // --- leaving the iPad alone ---

  /** Nothing asked for and nothing armed until then, with the iPad in reach and not connected. */
  predicate StandsDown(s: Watcher, until: Seconds) {
    s.waiting == [] && !s.busy && s.retry.None? && s.nearby && !s.wasConnected && s.quietUntil == Some(until)
  }

  /** It stays in reach, unconnected and switched on, as far as the framework can tell. */
  predicate LeftAlone(w: World) {
    w.enabled && (w.available ==> w.found && !w.connected)
  }

  /** A stand-down outlives an event exactly when the iPad is left alone; and then nothing is asked. */
  lemma StandDownKeptIff(s: Watcher, e: Event, until: Seconds)
    requires StandsDown(s, until) && Enabled(s, e) && e.w.now < until
    ensures StandsDown(Next(s, e), until) <==> LeftAlone(e.w)
    ensures LeftAlone(e.w) ==> Next(s, e).asked == 0
  {
  }

  /** At every point of a run. */
  ghost predicate StandsDownThroughout(s: Watcher, es: seq<Event>, until: Seconds)
    requires Run(s, es)
    decreases |es|
  {
    StandsDown(s, until) && (es == [] || StandsDownThroughout(Next(s, es[0]), es[1..], until))
  }

  /** A stand-down is kept throughout a run of events before its end exactly when the iPad is left
      alone in all of them, and then none of them asks for a connect. */
  lemma {:induction false} StandDownHoldsIff(s: Watcher, es: seq<Event>, until: Seconds)
    requires StandsDown(s, until) && Run(s, es)
    requires forall i :: 0 <= i < |es| ==> es[i].w.now < until
    ensures StandsDownThroughout(s, es, until) <==> forall i :: 0 <= i < |es| ==> LeftAlone(es[i].w)
    ensures StandsDownThroughout(s, es, until) && es != [] ==> After(s, es).asked == 0
    decreases |es|
  {
    if es != [] {
      var n, rest := Next(s, es[0]), es[1..];
      StandDownKeptIff(s, es[0], until);
      assert forall i :: 0 <= i < |rest| ==> rest[i] == es[i + 1];
      if LeftAlone(es[0].w) {
        StandDownHoldsIff(n, rest, until);
        hide Next, LeftAlone, Enabled;
        assert (forall i :: 0 <= i < |es| ==> LeftAlone(es[i].w))
          <==> forall i :: 0 <= i < |rest| ==> LeftAlone(rest[i].w);
      }
    }
  }

  /** And such a run is always possible. */
  lemma {:induction false} StandDownRuns(s: Watcher, es: seq<Event>, until: Seconds)
    requires StandsDown(s, until)
    requires forall i :: 0 <= i < |es| ==>
               (es[i].Trigger? || es[i].Restart?) && es[i].w.now < until && LeftAlone(es[i].w)
    ensures Run(s, es) && StandsDownThroughout(s, es, until)
    decreases |es|
  {
    if es != [] {
      StandDownKeptIff(s, es[0], until);
      StandDownRuns(Next(s, es[0]), es[1..], until);
    }
  }

  /** A display taken away by hand is left alone for five minutes. */
  lemma HandDisconnectRespected(s: Watcher, seen: World, es: seq<Event>)
    requires Inv(s) && !s.busy && s.nearby && s.wasConnected
    requires seen.enabled && seen.available && seen.found && !seen.connected
    requires forall i :: 0 <= i < |es| ==>
               (es[i].Trigger? || es[i].Restart?) && es[i].w.now < seen.now + 300 && LeftAlone(es[i].w)
    ensures var n := Next(s, Trigger(seen));
            && StandsDown(n, seen.now + 300)
            && Run(n, es) && StandsDownThroughout(n, es, seen.now + 300)
  {
    StandDownRuns(Next(s, Trigger(seen)), es, seen.now + AFTER_DISCONNECT);
  }

  /** So is one that the watcher itself connected. */
  lemma DisconnectAfterConnectRespected(s: Watcher, w: World, seen: World)
    requires Inv(s) && s.busy && s.nearby && s.waiting[0] == s.generation
    requires seen.enabled && seen.available && seen.found && !seen.connected
    ensures StandsDown(Next(Next(s, Answer(0, false, w)), Trigger(seen)), seen.now + 300)
    ensures Next(s, Answer(0, false, w)).attempt == 0 && Next(s, Answer(0, false, w)).wasConnected
  {
    assert s.waiting[..0] + s.waiting[1..] == [];
  }

  /** Switched off, the watcher will not heed the answer to any connect still out. */
  lemma OffHeedsNothing(s: Watcher, e: Event)
    requires Enabled(s, e) && !e.w.enabled && !(e.Answer? && s.waiting[e.i] == s.generation)
    requires forall g :: g in s.waiting ==> g <= s.generation
    ensures var n := Next(s, e);
            && !n.busy && n.retry.None? && n.quietUntil.None? && !n.nearby && !n.wasConnected
            && forall g :: g in n.waiting ==> g < n.generation
  {
    if e.Answer? {
      var left := s.waiting[..e.i] + s.waiting[e.i + 1..];
      assert forall g :: g in left ==> g in s.waiting;
      assert Next(s, e).waiting == left;
    }
  }

  /** A refusal that comes after another trigger arms nothing and starts no stand-down, whatever that
      trigger came to. */
  lemma StaleRefusalArmsNothing(s: Watcher, w: World, later: World)
    requires Inv(s) && s.busy && s.waiting[0] <= s.generation && Forbids(later)
    ensures var t := Next(s, Trigger(w));
            Enabled(t, Answer(0, true, later)) &&
            var n := Next(t, Answer(0, true, later));
            && n.retry.None? && n.attempt == 0 && !n.busy
            && n.quietUntil in {None, t.quietUntil, Some(later.now + 300)}
  {
  }

  /** Connecting and disconnecting by hand cuts a half hour's stand-down to five minutes. */
  lemma HandsShortenStandDown(s: Watcher, on: World, off: World, later: World)
    requires Inv(s) && !s.busy && s.nearby && s.StandingDown(later.now)
    requires on.enabled && on.available && on.found && on.connected
    requires off.enabled && off.available && off.found && !off.connected
    requires Open(later) && off.now + 300 <= later.now
    ensures Next(Next(Next(s, Trigger(on)), Trigger(off)), Trigger(later)).asked == 1
  {
    var one := Next(s, Trigger(on));
    assert one.wasConnected && one.nearby && !one.busy && one.retry.None?;
    var two := Next(one, Trigger(off));
    assert two.quietUntil == Some(off.now + AFTER_DISCONNECT) && !two.wasConnected && two.nearby && !two.busy;
  }

  // --- as the app keeps it ---

  class SidecarAuto {
    var busy: bool
    var attempt: nat
    var retry: Option<Seconds>
    var quietUntil: Option<Seconds>
    var wasConnected: bool
    var nearby: bool
    var generation: nat
    ghost var waiting: seq<nat>
    ghost var asked: nat

    ghost function Model(): Watcher
      reads this
    {
      Watcher(busy, attempt, retry, quietUntil, wasConnected, nearby, generation, waiting, asked)
    }

    constructor (connected: bool)
      ensures Model() == Started(connected)
    {
      busy, attempt, retry, quietUntil := false, 0, None, None;
      wasConnected, nearby, generation := connected, false, 0;
      waiting, asked := [], 0;
    }

    /** A device, lock, power or display notification, or a setting written. */
    method Invalidate(w: World)
      modifies this
      ensures Model() == old(Model()).Invalidate(w)
    {
      asked := 0;
      generation := generation + 1;
      CancelRetry();
      Evaluate(w);
    }

    method Evaluate(w: World)
      modifies this
      ensures Model() == old(Model()).Evaluate(w)
    {
      if !w.enabled {
        generation := generation + 1;
        CancelRetry();
        busy, nearby, wasConnected, quietUntil := false, false, false, None;
        return;
      }
      if !w.available {
        return;
      }
      if !w.found {
        if nearby {
          CancelRetry();
        }
        nearby := false;
        return;
      }
      if !nearby {
        nearby, quietUntil := true, None;
        CancelRetry();
      }
      if w.connected {
        CancelRetry();
        wasConnected := true;
        return;
      }
      if wasConnected && !busy {
        wasConnected := false;
        quietUntil := Some(w.now + AFTER_DISCONNECT);
        CancelRetry();
        return;
      }
      wasConnected := false;
      if busy || retry.Some? {
        return;
      }
      if w.locked {
        return;
      }
      if w.requireDesk && !w.atDesk {
        return;
      }
      if quietUntil.Some? && w.now < quietUntil.value {
        return;
      }
      Connect(w);
    }

    method Connect(w: World)
      modifies this
      ensures Model() == old(Model()).Connect(w)
    {
      busy, asked := true, asked + 1;
      if w.sends {
        waiting := waiting + [generation];
      } else {
        busy := false;
        ArmRetry(w.now);
      }
    }

    /** The completion of a connect that was sent under `sent`. */
    method Answered(sent: nat, ghost i: nat, refused: bool, w: World)
      requires i < |waiting| && waiting[i] == sent
      modifies this
      ensures Model() == old(Model()).Answered(i, refused, w)
    {
      waiting := waiting[..i] + waiting[i + 1..];
      busy := false;
      if generation != sent {
        Evaluate(w);
      } else if !refused {
        attempt, wasConnected := 0, true;
      } else {
        ArmRetry(w.now);
      }
    }

    method ArmRetry(now: Seconds)
      modifies this
      ensures Model() == old(Model()).ArmRetry(now)
    {
      if attempt >= RUNGS {
        attempt, quietUntil := 0, Some(now + STAND_DOWN);
        return;
      }
      retry := Some(now + Ladder()[attempt]);
      attempt := attempt + 1;
    }

    method RetryFires(w: World)
      requires Enabled(Model(), Event.RetryFires(w))
      modifies this
      ensures Model() == Next(old(Model()), Event.RetryFires(w))
    {
      retry := None;
      Evaluate(w);
    }

    method CancelRetry()
      modifies this
      ensures Model() == old(Model()).CancelRetry()
    {
      retry, attempt := None, 0;
    }
  }
}
