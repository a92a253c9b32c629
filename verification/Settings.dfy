/** The panel's settings: what is shown while edits are on their way to the file, and what is shown
    once they have arrived. */
module Settings {
  import opened Common

  type Key = string
  type Value = string

  datatype Setting = Setting(key: Key, value: Value)

  /** What the main queue keeps: the settings on show, the values last known to be saved, and edits
      not yet known to be saved. */
  datatype Panel = Panel(settings: seq<Setting>, confirmed: map<Key, Value>, drafts: map<Key, Value>)
  {
    function Edit(key: Key, value: Value): Panel {
      Panel(Replace(settings, key, value), confirmed, drafts[key := value])
    }

    /** A `config set` has come back. */
    function FinishSet(key: Key, value: Value, success: bool): Panel {
      if key !in drafts then this
      else
        var saved := if success then confirmed[key := value] else confirmed;
        var left := if drafts[key] == value then drafts - {key} else drafts;
        Panel(if key in saved then Replace(settings, key, Current(left, saved, key)) else settings, saved, left)
    }

    /** A listing has come back, or failed to. */
    function Accept(listing: Option<seq<Setting>>): Panel {
      match listing
      case None => this
      case Some(loaded) => Panel(Overlaid(loaded, drafts), AsMap(loaded), drafts)
    }

    /** A `config reset` has come back well. */
    function FinishReset(): Panel {
      this.(drafts := map[])
    }
  }

  /** A draft where there is one, the saved value otherwise. */
  function Current(drafts: map<Key, Value>, saved: map<Key, Value>, key: Key): Value
    requires key in saved
  {
    if key in drafts then drafts[key] else saved[key]
  }

  /** The first setting with that key takes the value. */
  function Replace(settings: seq<Setting>, key: Key, value: Value): (r: seq<Setting>)
    ensures |r| == |settings| && forall i :: 0 <= i < |r| ==> r[i].key == settings[i].key
    decreases |settings|
  {
    if settings == [] then []
    else if settings[0].key == key then [Setting(key, value)] + settings[1..]
    else [settings[0]] + Replace(settings[1..], key, value)
  }

  function AsMap(settings: seq<Setting>): map<Key, Value>
    decreases |settings|
  {
    if settings == [] then map[]
    else AsMap(settings[..|settings| - 1])[settings[|settings| - 1].key := settings[|settings| - 1].value]
  }

  function Overlaid(settings: seq<Setting>, drafts: map<Key, Value>): (r: seq<Setting>)
    ensures |r| == |settings|
  {
    seq(|settings|, i requires 0 <= i < |settings| =>
          if settings[i].key in drafts then Setting(settings[i].key, drafts[settings[i].key]) else settings[i])
  }

  // --- the panel, the command queue and the file ---

  datatype Command = Set(key: Key, value: Value) | Reset | List

  /** What a command reports to the main queue when it is done. */
  datatype Answer =
    | WasSet(key: Key, value: Value, success: bool)
    | WasReset(success: bool)
    | Listed(listing: Option<seq<Setting>>)

  datatype Heard = Nothing | OfWrite | GoodListing | NoListing

  /** `file` is every key of the driver's table with its saved value or its default. `heard` is the
      answer last delivered, `sent` the keys whose last edit was submitted, and `dropped` the keys
      whose drafts a reset has thrown away since the last listing. */
  datatype System = System(panel: Panel, queue: seq<Command>, answers: seq<Answer>, file: seq<Setting>,
                           heard: Heard, sent: set<Key>, dropped: set<Key>)

  datatype Event =
    | Edit(key: Key, value: Value)
    | Submit(key: Key, value: Value)
    | SubmitReset
    | Refresh
    | Execute(saves: Option<Value>, success: bool)
    | Deliver

  predicate Enabled(s: System, e: Event) {
    match e
    case Execute(saves, success) => s.queue != [] && (!s.queue[0].List? && success ==> saves.Some?)
    case Deliver => s.answers != []
    case _ => true
  }

  /** The settings file with every key back at its default. */
  function Restored(file: seq<Setting>, defaults: map<Key, Value>): (r: seq<Setting>)
    ensures |r| == |file| && forall i :: 0 <= i < |r| ==> r[i].key == file[i].key
  {
    seq(|file|, i requires 0 <= i < |file| =>
          if file[i].key in defaults then Setting(file[i].key, defaults[file[i].key]) else file[i])
  }

  /** The command at the head of the serial queue runs. A `config set` writes the canonical form of
      its value, and like a reset may fail even after writing. */
  function Executed(s: System, saves: Option<Value>, success: bool, defaults: map<Key, Value>): System
    requires s.queue != []
  {
    var rest := s.(queue := s.queue[1..]);
    match s.queue[0]
    case Set(key, value) =>
      rest.(file := if saves.Some? then Replace(s.file, key, saves.value) else s.file,
            answers := s.answers + [WasSet(key, value, success)])
    case Reset =>
      rest.(file := if saves.Some? then Restored(s.file, defaults) else s.file,
            answers := s.answers + [WasReset(success)])
    case List =>
      rest.(answers := s.answers + [Listed(if success then Some(s.file) else None)])
  }

  function Delivered(s: System): System
    requires s.answers != []
  {
    var rest := s.(answers := s.answers[1..]);
    match s.answers[0]
    case WasSet(key, value, success) =>
      rest.(panel := s.panel.FinishSet(key, value, success), queue := s.queue + [List], heard := OfWrite)
    case WasReset(success) =>
      rest.(panel := if success then s.panel.FinishReset() else s.panel, queue := s.queue + [List], heard := OfWrite,
            dropped := if success then s.dropped + s.panel.drafts.Keys else s.dropped)
    case Listed(listing) =>
      rest.(panel := s.panel.Accept(listing), heard := if listing.Some? then GoodListing else NoListing,
            dropped := if listing.Some? then {} else s.dropped)
  }

  function Next(s: System, e: Event, defaults: map<Key, Value>): System
    requires Enabled(s, e)
  {
    match e
    case Edit(key, value) =>
      s.(panel := s.panel.Edit(key, value), sent := s.sent - {key}, dropped := s.dropped - {key})
    case Submit(key, value) =>
      s.(queue := s.queue + [Set(key, value)],
         sent := if key in s.panel.drafts && s.panel.drafts[key] == value then s.sent + {key} else s.sent)
    case SubmitReset => s.(queue := s.queue + [Reset])
    case Refresh => s.(queue := s.queue + [List])
    case Execute(saves, success) => Executed(s, saves, success, defaults)
    case Deliver => Delivered(s)
  }

  ghost predicate Run(s: System, es: seq<Event>, defaults: map<Key, Value>)
    decreases |es|
  {
    es == [] || (Enabled(s, es[0]) && Run(Next(s, es[0], defaults), es[1..], defaults))
  }

  function After(s: System, es: seq<Event>, defaults: map<Key, Value>): System
    requires Run(s, es, defaults)
    decreases |es|
  {
    if es == [] then s else After(Next(s, es[0], defaults), es[1..], defaults)
  }

  function Started(file: seq<Setting>): System {
    System(Panel([], map[], map[]), [], [], file, Nothing, {}, {})
  }

  // --- what is on show ---

  ghost predicate Distinct(settings: seq<Setting>) {
    forall i, j :: 0 <= i < |settings| && 0 <= j < |settings| && settings[i].key == settings[j].key ==> i == j
  }

  /** Every setting shows its draft, or its saved value without one, but for those a reset dropped. */
  ghost predicate FaithfulBut(p: Panel, dropped: set<Key>) {
    forall i :: 0 <= i < |p.settings| ==>
      && p.settings[i].key in p.confirmed
      && (p.settings[i].key !in dropped ==>
            p.settings[i].value == Current(p.drafts, p.confirmed, p.settings[i].key))
  }

  ghost predicate Faithful(p: Panel) {
    FaithfulBut(p, {})
  }

  lemma {:induction false} Replaced(settings: seq<Setting>, key: Key, value: Value)
    requires Distinct(settings)
    ensures forall i :: 0 <= i < |settings| ==>
              Replace(settings, key, value)[i].value == if settings[i].key == key then value else settings[i].value
    decreases |settings|
  {
    forall i | 0 <= i < |settings|
      ensures Replace(settings, key, value)[i].value == if settings[i].key == key then value else settings[i].value
    {
      var rest := settings[1..];
      assert i > 0 ==> settings[i] == rest[i - 1];
      if settings[0].key == key {
        assert i > 0 ==> settings[i].key != settings[0].key;
      } else {
        assert Distinct(rest) by {
          assert forall k :: 0 <= k < |rest| ==> rest[k] == settings[k + 1];
        }
        Replaced(rest, key, value);
      }
    }
  }

  lemma {:induction false} AsMapHolds(settings: seq<Setting>)
    requires Distinct(settings)
    ensures forall i :: 0 <= i < |settings| ==>
              settings[i].key in AsMap(settings) && AsMap(settings)[settings[i].key] == settings[i].value
    decreases |settings|
  {
    if settings != [] {
      var front := settings[..|settings| - 1];
      assert forall i :: 0 <= i < |front| ==> front[i] == settings[i];
      assert Distinct(front);
      AsMapHolds(front);
    }
  }

  lemma EditKeepsFaithful(p: Panel, dropped: set<Key>, key: Key, value: Value)
    requires Distinct(p.settings) && FaithfulBut(p, dropped)
    ensures Distinct(p.Edit(key, value).settings) && FaithfulBut(p.Edit(key, value), dropped - {key})
  {
    Replaced(p.settings, key, value);
  }

  lemma FinishSetKeepsFaithful(p: Panel, dropped: set<Key>, key: Key, value: Value, success: bool)
    requires Distinct(p.settings) && FaithfulBut(p, dropped)
    ensures var q := p.FinishSet(key, value, success); Distinct(q.settings) && FaithfulBut(q, dropped)
  {
    if key in p.drafts {
      var q := p.FinishSet(key, value, success);
      if key in q.confirmed {
        Replaced(p.settings, key, Current(q.drafts, q.confirmed, key));
      }
    }
  }

  /** What a `config set` of a drafted key leaves: saved if it went well; and no longer a draft if it was
      of the draft's value, so that the saved value shows, the new one or the one before. */
  lemma FinishSetShows(p: Panel, key: Key, value: Value, success: bool, i: nat)
    requires Distinct(p.settings) && Faithful(p) && i < |p.settings| && p.settings[i].key == key && key in p.drafts
    ensures var q := p.FinishSet(key, value, success);
            && q.confirmed == (if success then p.confirmed[key := value] else p.confirmed)
            && (p.drafts[key] == value ==> key !in q.drafts
                                           && q.settings[i].value == if success then value else p.confirmed[key])
            && (p.drafts[key] != value ==> q.drafts == p.drafts && q.settings[i].value == p.drafts[key])
  {
    var q := p.FinishSet(key, value, success);
    Replaced(p.settings, key, Current(q.drafts, q.confirmed, key));
  }

  lemma AcceptKeepsFaithful(p: Panel, dropped: set<Key>, listing: Option<seq<Setting>>)
    requires Distinct(p.settings) && FaithfulBut(p, dropped)
    requires listing.Some? ==> Distinct(listing.value)
    ensures Distinct(p.Accept(listing).settings)
    ensures FaithfulBut(p.Accept(listing), if listing.Some? then {} else dropped)
  {
    if listing.Some? {
      AsMapHolds(listing.value);
    }
  }

  lemma ResetKeepsFaithful(p: Panel, dropped: set<Key>)
    requires FaithfulBut(p, dropped)
    ensures FaithfulBut(p.FinishReset(), dropped + p.drafts.Keys)
  {
  }

  // --- what becomes of an edit ---

  function Lookup(m: map<Key, Value>, key: Key): Option<Value> {
    if key in m then Some(m[key]) else None
  }

  /** The draft of one key, told from the events: the last edit, until a `config set` of that very value
      has come back or a reset has gone well. */
  function DraftAfter(s: System, es: seq<Event>, defaults: map<Key, Value>, key: Key, draft: Option<Value>)
    : Option<Value>
    requires Run(s, es, defaults)
    decreases |es|
  {
    if es == [] then draft
    else
      var next :=
        if es[0].Edit? && es[0].key == key then Some(es[0].value)
        else if es[0].Deliver? && s.answers[0].WasReset? && s.answers[0].success then None
        else if es[0].Deliver? && s.answers[0].WasSet? && s.answers[0].key == key && Some(s.answers[0].value) == draft
          then None
        else draft;
      DraftAfter(Next(s, es[0], defaults), es[1..], defaults, key, next)
  }

  /** That is the draft the panel has. */
  lemma {:induction false} DraftIsLastEdit(s: System, es: seq<Event>, defaults: map<Key, Value>, key: Key)
    requires Run(s, es, defaults)
    ensures Lookup(After(s, es, defaults).panel.drafts, key)
         == DraftAfter(s, es, defaults, key, Lookup(s.panel.drafts, key))
    decreases |es|
  {
    if es != [] {
      DraftIsLastEdit(Next(s, es[0], defaults), es[1..], defaults, key);
    }
  }

  /** What the file has for one of its keys, told from the commands that ran: the value the last `config
      set` of it saved, or its default if a reset saved since. */
  function SavedAfter(s: System, es: seq<Event>, defaults: map<Key, Value>, key: Key, saved: Value): Value
    requires Run(s, es, defaults)
    decreases |es|
  {
    if es == [] then saved
    else
      var e := es[0];
      var next :=
        if e.Execute? && e.saves.Some? && s.queue[0].Set? && s.queue[0].key == key then e.saves.value
        else if e.Execute? && e.saves.Some? && s.queue[0].Reset? && key in defaults then defaults[key]
        else saved;
      SavedAfter(Next(s, e, defaults), es[1..], defaults, key, next)
  }

  lemma {:induction false} FileIsLastSaved(s: System, es: seq<Event>, defaults: map<Key, Value>, i: nat)
    requires Run(s, es, defaults) && Distinct(s.file) && i < |s.file|
    ensures var t := After(s, es, defaults);
            && SameKeys(t.file, s.file)
            && t.file[i].value == SavedAfter(s, es, defaults, s.file[i].key, s.file[i].value)
    decreases |es|
  {
    if es != [] {
      var e := es[0];
      FileOneOn(s, e, defaults, i);
      hide Next, Distinct, Enabled;
      FileIsLastSaved(Next(s, e, defaults), es[1..], defaults, i);
    }
  }

  lemma FileOneOn(s: System, e: Event, defaults: map<Key, Value>, i: nat)
    requires Enabled(s, e) && Distinct(s.file) && i < |s.file|
    ensures var t := Next(s, e, defaults);
            && SameKeys(t.file, s.file) && Distinct(t.file)
            && t.file[i].value ==
               if e.Execute? && e.saves.Some? && s.queue[0].Set? && s.queue[0].key == s.file[i].key then e.saves.value
               else if e.Execute? && e.saves.Some? && s.queue[0].Reset? && s.file[i].key in defaults
                 then defaults[s.file[i].key]
               else s.file[i].value
  {
    if e.Execute? && s.queue[0].Set? && e.saves.Some? {
      Replaced(s.file, s.queue[0].key, e.saves.value);
    }
  }

  /** Commands run in the order they were submitted, and report in the order they ran. */
  lemma InOrder(s: System, e: Event, defaults: map<Key, Value>)
    requires Enabled(s, e)
    ensures var n := Next(s, e, defaults);
            && (e.Submit? ==> n.queue == s.queue + [Set(e.key, e.value)])
            && (e.SubmitReset? ==> n.queue == s.queue + [Reset])
            && (e.Execute? ==> s.queue == [s.queue[0]] + n.queue && |n.answers| == |s.answers| + 1
                               && n.answers[..|s.answers|] == s.answers)
            && (e.Deliver? ==> s.answers == [s.answers[0]] + n.answers
                               && n.queue == if s.answers[0].Listed? then s.queue else s.queue + [List])
            && (e.Submit? && e.key in s.panel.drafts && s.panel.drafts[e.key] == e.value ==> e.key in n.sent)
            && (e.Deliver? && s.answers[0].Listed? && s.answers[0].listing.Some? ==> n.heard.GoodListing?)
  {
  }

  // --- what every step keeps ---

  /** A submitted edit still on the panel is still under way. */
  ghost predicate UnderWay(s: System, key: Key, value: Value) {
    || (exists i :: 0 <= i < |s.queue| && s.queue[i] == Set(key, value))
    || (exists i :: 0 <= i < |s.answers| && s.answers[i].WasSet?
                    && s.answers[i].key == key && s.answers[i].value == value)
  }

  ghost predicate SentUnderWay(s: System) {
    forall key :: key in s.sent && key in s.panel.drafts ==> UnderWay(s, key, s.panel.drafts[key])
  }

  /** No write among them. */
  ghost predicate NoWrites(answers: seq<Answer>) {
    forall i :: 0 <= i < |answers| ==> answers[i].Listed?
  }

  /** A listing with no write behind it is what the file holds. */
  ghost predicate ListingsCurrent(answers: seq<Answer>, file: seq<Setting>) {
    forall i :: 0 <= i < |answers| && answers[i].Listed? && answers[i].listing.Some? ==>
                  && SameKeys(answers[i].listing.value, file)
                  && (NoWrites(answers[i + 1..]) ==> answers[i].listing.value == file)
  }

  ghost predicate SameKeys(a: seq<Setting>, b: seq<Setting>) {
    |a| == |b| && forall i :: 0 <= i < |a| ==> a[i].key == b[i].key
  }

  ghost predicate PanelCurrent(s: System) {
    s.heard.GoodListing? && NoWrites(s.answers) ==>
      SameKeys(s.panel.settings, s.file) && s.panel.confirmed == AsMap(s.file)
  }

  /** After every write a listing follows. */
  ghost predicate ListingFollows(s: System) {
    s.heard.OfWrite? ==>
      || (exists i :: 0 <= i < |s.queue| && s.queue[i].List?)
      || (exists i :: 0 <= i < |s.answers| && s.answers[i].Listed?)
  }

  ghost predicate Inv(s: System) {
    && Distinct(s.file) && Distinct(s.panel.settings)
    && FaithfulBut(s.panel, s.dropped)
    && (s.heard.GoodListing? ==> s.dropped == {})
    && SentUnderWay(s)
    && ListingsCurrent(s.answers, s.file)
    && PanelCurrent(s)
    && ListingFollows(s)
  }

  lemma {:induction false} RunKeepsInv(s: System, es: seq<Event>, defaults: map<Key, Value>)
    requires Inv(s) && Run(s, es, defaults)
    ensures Inv(After(s, es, defaults))
    decreases |es|
  {
    if es != [] {
      NextKeepsInv(s, es[0], defaults);
      RunKeepsInv(Next(s, es[0], defaults), es[1..], defaults);
    }
  }

  lemma NextKeepsInv(s: System, e: Event, defaults: map<Key, Value>)
    requires Inv(s) && Enabled(s, e)
    ensures Inv(Next(s, e, defaults))
  {
    match e
    case Edit(key, value) => EditKeepsFaithful(s.panel, s.dropped, key, value);
    case Submit(key, value) => SubmitKeepsInv(s, key, value, defaults);
    case SubmitReset => assert forall i :: 0 <= i < |s.queue| ==> (s.queue + [Reset])[i] == s.queue[i];
    case Refresh => assert forall i :: 0 <= i < |s.queue| ==> (s.queue + [List])[i] == s.queue[i];
    case Execute(saves, success) => ExecutedKeepsInv(s, saves, success, defaults);
    case Deliver => DeliveredKeepsInv(s);
  }

  lemma SubmitKeepsInv(s: System, key: Key, value: Value, defaults: map<Key, Value>)
    requires Inv(s)
    ensures Inv(Next(s, Submit(key, value), defaults))
  {
    var t := Next(s, Submit(key, value), defaults);
    assert forall i :: 0 <= i < |s.queue| ==> t.queue[i] == s.queue[i];
    assert t.queue[|s.queue|] == Set(key, value);
  }

  lemma ExecutedKeepsInv(s: System, saves: Option<Value>, success: bool, defaults: map<Key, Value>)
    requires Inv(s) && s.queue != []
    ensures Inv(Executed(s, saves, success, defaults))
  {
    var t := Executed(s, saves, success, defaults);
    var n := |s.answers|;
    assert forall i :: 0 <= i < n ==> t.answers[i] == s.answers[i];
    assert forall i :: 1 <= i < |s.queue| ==> t.queue[i - 1] == s.queue[i];
    assert t.answers[n].Listed? <==> s.queue[0].List?;
    assert SentUnderWay(t) by {
      forall key | key in t.sent && key in t.panel.drafts
        ensures UnderWay(t, key, t.panel.drafts[key])
      {
        assert UnderWay(s, key, s.panel.drafts[key]);
      }
    }
    forall i | 0 <= i < |t.answers| && t.answers[i].Listed? && t.answers[i].listing.Some?
      ensures SameKeys(t.answers[i].listing.value, t.file)
      ensures NoWrites(t.answers[i + 1..]) ==> t.answers[i].listing.value == t.file
    {
      if i < n {
        assert t.answers[i + 1..][n - i - 1] == t.answers[n];
        if s.queue[0].List? {
          assert s.answers[i + 1..] == t.answers[i + 1..][..n - i - 1];
        }
      }
    }
  }

  lemma DeliveredKeepsInv(s: System)
    requires Inv(s) && s.answers != []
    ensures Inv(Delivered(s))
  {
    match s.answers[0] {
      case WasSet(key, value, success) => FinishSetKeepsFaithful(s.panel, s.dropped, key, value, success);
      case WasReset(success) => ResetKeepsFaithful(s.panel, s.dropped);
      case Listed(listing) => AcceptKeepsFaithful(s.panel, s.dropped, listing);
    }
    DeliveredKeepsSent(s);
    DeliveredKeepsListings(s);
    hide FaithfulBut, SentUnderWay, ListingsCurrent, PanelCurrent, ListingFollows;
  }

  lemma DeliveredKeepsSent(s: System)
    requires SentUnderWay(s) && s.answers != []
    ensures SentUnderWay(Delivered(s))
  {
    var t := Delivered(s);
    assert forall i :: 0 <= i < |t.answers| ==> t.answers[i] == s.answers[i + 1];
    assert forall i :: 0 <= i < |s.queue| ==> t.queue[i] == s.queue[i];
    forall k | k in t.sent && k in t.panel.drafts
      ensures UnderWay(t, k, t.panel.drafts[k])
    {
      assert UnderWay(s, k, s.panel.drafts[k]);
    }
  }

  lemma DeliveredKeepsListings(s: System)
    requires ListingsCurrent(s.answers, s.file) && PanelCurrent(s) && ListingFollows(s) && s.answers != []
    ensures var t := Delivered(s); ListingsCurrent(t.answers, t.file) && PanelCurrent(t) && ListingFollows(t)
  {
    OneLessCurrent(s.answers, s.file);
    DeliveredFollows(s);
    DeliveredCurrent(s);
    hide ListingsCurrent, PanelCurrent, ListingFollows;
  }

  lemma OneLessCurrent(answers: seq<Answer>, file: seq<Setting>)
    requires ListingsCurrent(answers, file) && answers != []
    ensures ListingsCurrent(answers[1..], file)
  {
    hide SameKeys, NoWrites;
    assert forall i :: 0 <= i < |answers| - 1 ==>
                         answers[1..][i] == answers[i + 1] && answers[1..][i + 1..] == answers[i + 2..];
  }

  lemma DeliveredCurrent(s: System)
    requires ListingsCurrent(s.answers, s.file) && PanelCurrent(s) && s.answers != []
    ensures PanelCurrent(Delivered(s))
  {
    assert s.answers[0 + 1..] == Delivered(s).answers;
  }

  lemma DeliveredFollows(s: System)
    requires ListingFollows(s) && s.answers != []
    ensures ListingFollows(Delivered(s))
  {
    var t := Delivered(s);
    assert forall i :: 0 <= i < |t.answers| ==> t.answers[i] == s.answers[i + 1];
    assert forall i :: 0 <= i < |s.queue| ==> t.queue[i] == s.queue[i];
    assert !s.answers[0].Listed? ==> t.queue[|s.queue|] == List;
  }

  /** In every order of edits, submissions, resets, refreshes, commands and answers, what is on show is
      the draft or else the saved value, except for keys whose drafts a reset has dropped and that no
      listing and no edit has shown again since. */
  lemma AlwaysFaithful(file: seq<Setting>, es: seq<Event>, defaults: map<Key, Value>)
    requires Distinct(file) && Run(Started(file), es, defaults)
    ensures var s := After(Started(file), es, defaults); FaithfulBut(s.panel, s.dropped)
  {
    RunKeepsInv(Started(file), es, defaults);
  }

  /** Once everything submitted has been answered, the last answer was a listing; if that listing was
      good, the panel shows what the file holds wherever no edit is left unsubmitted, resets or not. */
  lemma SettledShowsFile(file: seq<Setting>, es: seq<Event>, defaults: map<Key, Value>)
    requires Distinct(file) && Run(Started(file), es, defaults)
    ensures var s := After(Started(file), es, defaults);
            s.queue == [] && s.answers == [] ==>
              && !s.heard.OfWrite?
              && s.panel.drafts.Keys !! s.sent
              && (s.heard.GoodListing? ==> Faithful(s.panel) && s.panel.settings == Overlaid(s.file, s.panel.drafts))
  {
    RunKeepsInv(Started(file), es, defaults);
    var s := After(Started(file), es, defaults);
    if s.queue == [] && s.answers == [] {
      forall key | key in s.panel.drafts
        ensures key !in s.sent
      {
        assert key in s.sent ==> UnderWay(s, key, s.panel.drafts[key]);
      }
      AsMapHolds(s.file);
    }
  }

  /** A reset drops the drafts but leaves them on show until the next listing: what is on show is
      right after it exactly when no loaded setting's draft differs from its saved value. */
  lemma ResetFaithfulIff(p: Panel)
    requires Distinct(p.settings) && Faithful(p)
    ensures Faithful(p.FinishReset()) <==>
            forall i :: 0 <= i < |p.settings| && p.settings[i].key in p.drafts ==>
                          p.drafts[p.settings[i].key] == p.confirmed[p.settings[i].key]
  {
  }

  // --- as the app keeps it ---

  class OizysModel {
    var settings: seq<Setting>
    var confirmed: map<Key, Value>
    var drafts: map<Key, Value>

    ghost function Model(): Panel
      reads this
    {
      Panel(settings, confirmed, drafts)
    }

    constructor ()
      ensures Model() == Started([]).panel
    {
      settings, confirmed, drafts := [], map[], map[];
    }

    method FirstIndex(key: Key) returns (index: Option<nat>)
      ensures index.Some? ==> index.value < |settings| && settings[index.value].key == key
      ensures forall i :: 0 <= i < (if index.Some? then index.value else |settings|) ==> settings[i].key != key
    {
      for i := 0 to |settings|
        invariant forall j :: 0 <= j < i ==> settings[j].key != key
      {
        if settings[i].key == key {
          return Some(i);
        }
      }
      return None;
    }

    method EditSetting(key: Key, value: Value)
      modifies this
      ensures Model() == old(Model()).Edit(key, value)
    {
      drafts := drafts[key := value];
      var index := FirstIndex(key);
      ReplaceAt(settings, key, value, index);
      if index.Some? {
        settings := settings[index.value := Setting(key, value)];
      }
    }

    method SetCompleted(key: Key, value: Value, success: bool)
      modifies this
      ensures Model() == old(Model()).FinishSet(key, value, success)
    {
      var wasDraft := key in drafts;
      if success && wasDraft {
        confirmed := confirmed[key := value];
      }
      if key in drafts && drafts[key] == value {
        drafts := drafts - {key};
      }
      if wasDraft && key in confirmed {
        var index := FirstIndex(key);
        ReplaceAt(settings, key, Current(drafts, confirmed, key), index);
        if index.Some? {
          settings := settings[index.value := Setting(key, if key in drafts then drafts[key] else confirmed[key])];
        }
      }
    }

    method AcceptSettings(listing: Option<seq<Setting>>)
      modifies this
      ensures Model() == old(Model()).Accept(listing)
    {
      if listing.None? {
        return;
      }
      confirmed := AsMap(listing.value);
      settings := Overlaid(listing.value, drafts);
    }
  }

  lemma {:induction false} ReplaceAt(settings: seq<Setting>, key: Key, value: Value, index: Option<nat>)
    requires index.Some? ==> index.value < |settings| && settings[index.value].key == key
    requires forall i :: 0 <= i < (if index.Some? then index.value else |settings|) ==> settings[i].key != key
    ensures Replace(settings, key, value)
         == if index.Some? then settings[index.value := Setting(key, value)] else settings
    decreases |settings|
  {
    if settings != [] && settings[0].key != key {
      var tail, rest := settings[1..], if index.Some? then Some(index.value - 1) else None;
      assert settings == [settings[0]] + tail;
      assert forall i :: 0 <= i < |tail| ==> tail[i] == settings[i + 1];
      ReplaceAt(tail, key, value, rest);
      hide Replace;
      if index.Some? {
        assert settings[index.value := Setting(key, value)]
            == [settings[0]] + tail[index.value - 1 := Setting(key, value)];
      }
    }
  }
}
