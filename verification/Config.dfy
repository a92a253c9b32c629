/** The driver's settings: one table that parsing, clamping, printing and storing all go by. */
module Config {
  import opened Common
  import opened Texts
  import opened HeadList
  import opened Utf8

  datatype FieldType = IntField | DoubleField | BoolField | HeadsField | HeadRefField | WordField | TextField

  datatype Field = Field(key: Text, kind: FieldType, capacity: nat, fallback: Text, low: nat, high: nat)

  /** What one member of the configuration holds. */
  datatype Value =
    | Int(n: int)
    | Double(x: real)
    | Flag(on: bool)
    | Heads(left: bool, right: bool)
    | HeadRef(head: int)
    | Word(word: Text)
    | Name(name: Text)

  const LEVELS: seq<Text> := ["debug", "info", "warn", "error"]

  function Number(key: Text, fallback: Text, low: nat, high: nat): Field {
    Field(key, IntField, 0, fallback, low, high)
  }

  function Switch(key: Text, fallback: Text): Field {
    Field(key, BoolField, 0, fallback, 0, 1)
  }

  function Fields(): (r: seq<Field>)
    ensures Sound(r)
  {
    HeadFields() + PowerFields() + DriverFields() + SidecarFields()
  }

  function HeadFields(): (r: seq<Field>)
    ensures forall i :: 0 <= i < |r| ==> WellFormed(r[i])
  {
    [ Field("heads.active", HeadsField, 0, "left,right", 0, 0),
      Field("heads.native", HeadRefField, 0, "none", 0, 0),
      Number("head.width", "1920", 640, 7680),
      Number("head.height", "1080", 480, 4320),
      Field("head.refresh_hz", DoubleField, 0, "60", 24, 240),
      Number("capture.fps", "60", 1, 240),
      Number("capture.queue_depth", "3", 1, 8),
      Switch("capture.dump_frames", "false"),
      Number("head.left.keepalive_s", "0", 0, 600),
      Number("head.right.keepalive_s", "0", 0, 600),
      Number("head.left.standby_min", "0", 0, 240),
      Number("head.right.standby_min", "0", 0, 240) ]
  }

  function PowerFields(): (r: seq<Field>)
    ensures forall i :: 0 <= i < |r| ==> WellFormed(r[i])
  {
    [ Switch("power.saving", "true"),
      Number("power.light_fps", "30", 1, 240),
      Number("power.video_fps", "30", 1, 240),
      Number("power.idle_fps", "10", 1, 240),
      Number("power.idle_after_s", "20", 1, 600),
      Number("head.left.brightness", "100", 10, 100),
      Number("head.right.brightness", "100", 10, 100),
      Number("head.left.contrast", "100", 50, 150),
      Number("head.right.contrast", "100", 50, 150),
      Number("head.left.warmth", "0", 0, 100),
      Number("head.right.warmth", "0", 0, 100) ]
  }

  function DriverFields(): (r: seq<Field>)
    ensures forall i :: 0 <= i < |r| ==> WellFormed(r[i])
  {
    [ Number("control.poll_ms", "13", 8, 50),
      Number("control.heartbeat_s", "3", 1, 10),
      Number("refresh_clock_hz", "100", 20, 1000),
      Number("codec.ceiling.sync", "7", 1, 15),
      Number("codec.ceiling.dc", "10", 1, 15),
      Number("codec.ceiling.chroma_ac", "10", 1, 15),
      Number("codec.ceiling.luma_ac", "9", 1, 15),
      Number("encode.parallel_threshold", "64", 1, 2040),
      Number("dock.buffers", "2", 2, 3),
      Switch("displaylink.auto_stop", "true"),
      Switch("display.keep_modes", "true") ]
  }

  function SidecarFields(): (r: seq<Field>)
    ensures forall i :: 0 <= i < |r| ==> WellFormed(r[i])
  {
    [ Switch("sidecar.auto_connect", "false"),
      Switch("sidecar.require_desk", "true"),
      Field("sidecar.device", TextField, 64, "", 0, 0),
      Number("sidecar.brightness", "100", 10, 100),
      Number("sidecar.contrast", "100", 50, 150),
      Field("log.level", WordField, 16, "info", 0, 0) ]
  }

  predicate WellFormed(f: Field) {
    match f.kind
    case IntField => f.low < f.high <= 100000 && Digits(f.fallback)
    case DoubleField => f.low < f.high && Digits(f.fallback)
    case BoolField => f.fallback == "true" || f.fallback == "false"
    case HeadsField => f.fallback == "left,right"
    case HeadRefField => f.fallback == "none"
    case WordField => f.fallback == "info" && f.capacity == 16
    case TextField => f.fallback == "" && f.capacity == 64
  }

  // --- the parsers ---

  /** `strtod` of a whole text: nothing unless it is a finite number from end to end. */
  type Strtod = Text -> Option<real>

  ghost predicate ReadsDecimals(strtod: Strtod) {
    forall text | Digits(text) :: strtod(text) == Some(ReadDecimal(text) as real)
  }

  function ParseBool(text: Text): Option<bool> {
    if Same(text, "1") || Same(text, "true") || Same(text, "yes") || Same(text, "on") then Some(true)
    else if Same(text, "0") || Same(text, "false") || Same(text, "no") || Same(text, "off") then Some(false)
    else None
  }

  function ParseHeadRef(text: Text): Option<int> {
    if Same(text, "none") || Same(text, "null") || text == "" then Some(-1)
    else if Same(text, "left") || text == "0" then Some(0)
    else if Same(text, "right") || text == "1" then Some(1)
    else None
  }

  function FindLevel(text: Text, i: nat): Option<Text>
    requires i <= |LEVELS|
    decreases |LEVELS| - i
  {
    if i == |LEVELS| then None else if Same(text, LEVELS[i]) then Some(LEVELS[i]) else FindLevel(text, i + 1)
  }

  function Clamp(x: real, f: Field): real {
    if f.low == f.high then x
    else if x < f.low as real then f.low as real
    else if x > f.high as real then f.high as real
    else x
  }

  /** Conversion to an integer drops the fraction. */
  function Truncate(x: real): int {
    if x >= 0.0 then x.Floor else -(-x).Floor
  }

  /** What a text means for a field, or nothing when it will not parse. */
  function Meaning(f: Field, text: Text, strtod: Strtod): Option<Value> {
    match f.kind
    case IntField =>
      (match strtod(text) case None => None case Some(x) => Some(Int(Truncate(Clamp(x, f)))))
    case DoubleField =>
      (match strtod(text) case None => None case Some(x) => Some(Double(Clamp(x, f))))
    case BoolField =>
      (match ParseBool(text) case None => None case Some(on) => Some(Flag(on)))
    case HeadsField =>
      (match ParseHeads(text) case None => None case Some((left, right)) => Some(Heads(left, right)))
    case HeadRefField =>
      (match ParseHeadRef(text) case None => None case Some(head) => Some(HeadRef(head)))
    case TextField => Some(Name(Cut(text, f.capacity)))
    case WordField =>
      (match FindLevel(text, 0) case None => None case Some(level) => Some(Word(Cut(level, f.capacity))))
  }

  /** A number is clamped to the nearer end of its range. */
  lemma ClampedTo(x: real, f: Field)
    requires f.low < f.high
    ensures var y := Clamp(x, f);
            && f.low as real <= y <= f.high as real
            && (f.low as real <= x <= f.high as real ==> y == x)
            && (x < f.low as real ==> y == f.low as real)
            && (x > f.high as real ==> y == f.high as real)
  {
  }

  /** So a whole number means itself, or that end; its fraction, if it has one, is dropped. */
  lemma NumberMeans(f: Field, text: Text, strtod: Strtod)
    requires f.kind.IntField? && f.low < f.high && strtod(text).Some?
    ensures Meaning(f, text, strtod).Some?
    ensures var x, v := strtod(text).value, Meaning(f, text, strtod).value;
            && v.Int?
            && (x < f.low as real ==> v.n == f.low)
            && (x > f.high as real ==> v.n == f.high)
            && (f.low as real <= x <= f.high as real ==> v.n as real <= x < v.n as real + 1.0)
  {
  }

  /** A word in any letter case. */
  predicate Reads(text: Text, word: Text) {
    |text| == |word| && forall i :: 0 <= i < |text| ==>
      text[i] == word[i] || ('a' <= word[i] <= 'z' && text[i] == word[i] - 'a' + 'A')
  }

  lemma SameReads(text: Text, word: Text)
    requires forall i :: 0 <= i < |word| ==> !('A' <= word[i] <= 'Z')
    ensures Same(text, word) <==> Reads(text, word)
  {
    if |text| == |word| {
      forall i | 0 <= i < |text|
        ensures LowerCase(text[i]) == word[i] <==>
                text[i] == word[i] || ('a' <= word[i] <= 'z' && text[i] == word[i] - 'a' + 'A')
      {
      }
    }
  }

  /** Four words are on and four are off, and nothing else is either. */
  lemma SwitchIff(text: Text)
    ensures ParseBool(text) == Some(true) <==>
            Reads(text, "1") || Reads(text, "true") || Reads(text, "yes") || Reads(text, "on")
    ensures ParseBool(text) == Some(false) <==>
            Reads(text, "0") || Reads(text, "false") || Reads(text, "no") || Reads(text, "off")
  {
    SameReads(text, "1");
    SameReads(text, "true");
    SameReads(text, "yes");
    SameReads(text, "on");
    SameReads(text, "0");
    SameReads(text, "false");
    SameReads(text, "no");
    SameReads(text, "off");
    OnOrOff(text);
  }

  lemma OnOrOff(text: Text)
    ensures !((Reads(text, "1") || Reads(text, "true") || Reads(text, "yes") || Reads(text, "on"))
              && (Reads(text, "0") || Reads(text, "false") || Reads(text, "no") || Reads(text, "off")))
  {
    FirstRead(text, "1");
    FirstRead(text, "true");
    FirstRead(text, "yes");
    FirstRead(text, "on");
    FirstRead(text, "0");
    FirstRead(text, "false");
    FirstRead(text, "no");
    FirstRead(text, "off");
    hide Reads;
  }

  lemma FirstRead(text: Text, word: Text)
    requires word != ""
    ensures Reads(text, word) ==> |text| == |word| && (text[0] == word[0] || text[0] as int == word[0] as int - 32)
  {
  }

  /** The names of the native panel's head, and what they mean. */
  lemma HeadRefIff(text: Text)
    ensures ParseHeadRef(text) == Some(-1) <==> Reads(text, "none") || Reads(text, "null") || text == ""
    ensures ParseHeadRef(text) == Some(0) <==> Reads(text, "left") || text == "0"
    ensures ParseHeadRef(text) == Some(1) <==> Reads(text, "right") || text == "1"
    ensures ParseHeadRef(text).Some? ==> -1 <= ParseHeadRef(text).value <= 1
  {
    SameReads(text, "none");
    SameReads(text, "null");
    SameReads(text, "left");
    SameReads(text, "right");
    FirstRead(text, "none");
    FirstRead(text, "null");
    FirstRead(text, "left");
    FirstRead(text, "right");
    hide Same, Reads;
  }

  /** A level of the log is read in any letter case, and kept in lower case. */
  lemma LevelIff(f: Field, text: Text, strtod: Strtod, level: Text)
    requires f.kind.WordField? && f.capacity == 16
    ensures Meaning(f, text, strtod) == Some(Word(level)) <==>
            level in {"debug", "info", "warn", "error"} && Reads(text, level)
  {
    SameReads(text, LEVELS[0]);
    SameReads(text, LEVELS[1]);
    SameReads(text, LEVELS[2]);
    SameReads(text, LEVELS[3]);
    FirstRead(text, LEVELS[0]);
    FirstRead(text, LEVELS[1]);
    FirstRead(text, LEVELS[2]);
    FirstRead(text, LEVELS[3]);
    hide Same, Reads;
    LevelsInTurn(text);
    assert forall i :: 0 <= i < 4 ==> |LEVELS[i]| <= 5;
  }

  lemma LevelsInTurn(text: Text)
    ensures FindLevel(text, 0) == if Same(text, LEVELS[0]) then Some(LEVELS[0])
                                  else if Same(text, LEVELS[1]) then Some(LEVELS[1])
                                  else if Same(text, LEVELS[2]) then Some(LEVELS[2])
                                  else if Same(text, LEVELS[3]) then Some(LEVELS[3]) else None
  {
    hide Same;
    assert FindLevel(text, 4) == None;
    assert FindLevel(text, 3) == if Same(text, LEVELS[3]) then Some(LEVELS[3]) else FindLevel(text, 4);
    assert FindLevel(text, 2) == if Same(text, LEVELS[2]) then Some(LEVELS[2]) else FindLevel(text, 3);
  }

  /** A name is kept as far as the buffer holds it, which is one byte less than its size. */
  lemma NameMeans(f: Field, text: Text, strtod: Strtod)
    requires f.kind.TextField? && f.capacity > 0
    ensures Meaning(f, text, strtod) == Some(Name(if |text| < f.capacity then text else text[..f.capacity - 1]))
  {
  }

  /** As much of a text as a buffer holds. */
  function Cut(text: Text, capacity: nat): Text {
    if capacity == 0 then "" else Take(text, capacity - 1)
  }

  /** How a value is written. `g` is the format a double is printed in. */
  function Render(v: Value, g: real -> Text): Text {
    match v
    case Int(n) => if n >= 0 then Decimal(n) else "-" + Decimal(-n)
    case Double(x) => g(x)
    case Flag(on) => if on then "true" else "false"
    case Heads(left, right) => if left && right then "left,right" else if left then "left" else "right"
    case HeadRef(head) => if head == 0 then "left" else if head == 1 then "right" else "none"
    case Word(word) => word
    case Name(name) => name
  }

  // --- what a field may hold ---

  predicate InRange(f: Field, v: Value) {
    match f.kind
    case IntField => v.Int? && f.low <= v.n <= f.high
    case DoubleField => v.Double? && f.low as real <= v.x <= f.high as real
    case BoolField => v.Flag?
    case HeadsField => v.Heads? && (v.left || v.right)
    case HeadRefField => v.HeadRef? && -1 <= v.head <= 1
    case WordField => v.Word? && v.word in LEVELS
    case TextField => v.Name? && |v.name| < f.capacity
  }

  lemma MeaningInRange(f: Field, text: Text, strtod: Strtod)
    requires WellFormed(f)
    ensures var v := Meaning(f, text, strtod); v.Some? ==> InRange(f, v.value)
  {
  }

  lemma DefaultParses(f: Field, strtod: Strtod)
    requires WellFormed(f) && ReadsDecimals(strtod)
    ensures Meaning(f, f.fallback, strtod).Some?
  {
    match f.kind {
      case BoolField =>
        SwitchesRead();
        hide ParseBool;
      case HeadsField =>
        HeadListsRead();
        hide ParseHeads;
      case HeadRefField =>
        HeadNamesRead();
        hide ParseHeadRef;
      case WordField =>
        LevelsRead("info");
        hide FindLevel;
      case _ =>
    }
  }

  lemma SwitchesRead()
    ensures ParseBool("true") == Some(true) && ParseBool("false") == Some(false)
  {
    Starts("true", "");
    Starts("false", "");
    DiffersAtFirst("false", "true");
  }

  lemma HeadNamesRead()
    ensures ParseHeadRef("none") == Some(-1) && ParseHeadRef("left") == Some(0) && ParseHeadRef("right") == Some(1)
  {
    Starts("none", "");
    Starts("left", "");
    Starts("right", "");
    DiffersAtFirst("left", "none");
    DiffersAtFirst("right", "none");
    assert !Same("right", "left");
  }

  lemma LevelsRead(word: Text)
    requires word in LEVELS
    ensures FindLevel(word, 0) == Some(word) && |word| <= 5
  {
    var i :| 0 <= i < |LEVELS| && LEVELS[i] == word;
    LevelFound(i, 0);
  }

  lemma {:induction false} LevelFound(i: nat, from: nat)
    requires from <= i < |LEVELS|
    ensures FindLevel(LEVELS[i], from) == Some(LEVELS[i])
    decreases i - from
  {
    Starts(LEVELS[i], "");
    if from < i {
      DiffersAtFirst(LEVELS[i], LEVELS[from]);
      LevelFound(i, from + 1);
    }
  }

  lemma IntReadsBack(f: Field, n: nat, strtod: Strtod)
    requires f.kind.IntField? && f.low <= n <= f.high <= 100000 && ReadsDecimals(strtod)
    ensures Meaning(f, Decimal(n), strtod) == Some(Int(n)) && |Decimal(n)| < 64
  {
    DecimalReadsBack(n);
    DecimalFits(n);
    hide Decimal, ReadDecimal;
  }

  lemma WordReadsBack(f: Field, word: Text, strtod: Strtod)
    requires f.kind.WordField? && f.capacity == 16 && word in LEVELS
    ensures Meaning(f, word, strtod) == Some(Word(word)) && |word| < 64
  {
    LevelsRead(word);
    hide FindLevel;
  }

  lemma SwitchReadsBack(f: Field, on: bool, strtod: Strtod)
    requires f.kind.BoolField?
    ensures Meaning(f, if on then "true" else "false", strtod) == Some(Flag(on))
  {
    SwitchesRead();
    hide ParseBool;
  }

  /** A printed value reads back as itself, and fits the buffer it is printed to. */
  lemma RenderReadsBack(f: Field, v: Value, strtod: Strtod, g: real -> Text)
    requires WellFormed(f) && InRange(f, v) && ReadsDecimals(strtod) && f.kind != DoubleField
    ensures Meaning(f, Render(v, g), strtod) == Some(v) && |Render(v, g)| < 64
  {
    match f.kind {
      case IntField => IntReadsBack(f, v.n, strtod);
      case WordField => WordReadsBack(f, v.word, strtod);
      case BoolField => SwitchReadsBack(f, v.on, strtod);
      case HeadsField =>
        HeadListsRead();
        hide ParseHeads;
      case HeadRefField =>
        HeadNamesRead();
        hide ParseHeadRef;
      case TextField =>
    }
  }

  lemma DecimalFits(n: nat)
    requires n <= 100000
    ensures |Decimal(n)| <= 6
  {
    assert n / 10 <= 10000 && n / 10 / 10 <= 1000 && n / 10 / 10 / 10 <= 100;
    assert |Decimal(n / 10 / 10 / 10 / 10)| <= 2;
    assert |Decimal(n / 10 / 10 / 10)| <= 3;
    assert |Decimal(n / 10 / 10)| <= 4;
    assert |Decimal(n / 10)| <= 5;
  }

  // --- the configuration ---

  /** One value for each field of the table. */
  type Values = seq<Value>

  type Table = seq<Field>

  predicate Sound(t: Table) {
    forall i :: 0 <= i < |t| ==> WellFormed(t[i])
  }

  ghost predicate InRanges(t: Table, c: Values) {
    |c| == |t| && forall i :: 0 <= i < |c| ==> InRange(t[i], c[i])
  }

  function FindFrom(t: Table, key: Text, i: nat): (r: Option<nat>)
    requires i <= |t|
    ensures r.Some? ==> i <= r.value < |t| && t[r.value].key == key
    ensures forall j :: i <= j < (if r.Some? then r.value else |t|) ==> t[j].key != key
    decreases |t| - i
  {
    if i == |t| then None else if t[i].key == key then Some(i) else FindFrom(t, key, i + 1)
  }

  function FindField(t: Table, key: Text): (r: Option<nat>)
    ensures r.Some? ==> r.value < |t| && t[r.value].key == key
  {
    FindFrom(t, key, 0)
  }

  function Applied(t: Table, c: Values, i: nat, text: Text, strtod: Strtod): Values
    requires i < |c| == |t|
  {
    match Meaning(t[i], text, strtod)
    case None => c
    case Some(v) => c[i := v]
  }

  /** One entry of a settings file: ignored unless its key is known and its text parses. */
  function ReadEntry(t: Table, c: Values, key: Text, text: Text, strtod: Strtod): (r: Values)
    requires |c| == |t|
    ensures |r| == |c|
  {
    var i := FindField(t, key);
    if i.None? then c else Applied(t, c, i.value, text, strtod)
  }

  datatype Entry = Entry(key: Text, text: Text)

  /** The entries of a file, in the order they happen to be read. */
  function ReadAll(t: Table, c: Values, entries: seq<Entry>, strtod: Strtod): (r: Values)
    requires |c| == |t|
    ensures |r| == |c|
    decreases |entries|
  {
    if entries == [] then c
    else ReadEntry(t, ReadAll(t, c, entries[..|entries| - 1], strtod),
                   entries[|entries| - 1].key, entries[|entries| - 1].text, strtod)
  }

  ghost predicate DistinctKeys(entries: seq<Entry>) {
    forall i, j :: 0 <= i < |entries| && 0 <= j < |entries| && entries[i].key == entries[j].key ==> i == j
  }

  lemma {:induction false} ReadAllInRanges(t: Table, c: Values, entries: seq<Entry>, strtod: Strtod)
    requires Sound(t)
    requires InRanges(t, c)
    ensures InRanges(t, ReadAll(t, c, entries, strtod))
    decreases |entries|
  {
    if entries != [] {
      var last := entries[|entries| - 1];
      ReadAllInRanges(t, c, entries[..|entries| - 1], strtod);
      var i := FindField(t, last.key);
      if i.Some? {
        MeaningInRange(t[i.value], last.text, strtod);
      }
    }
  }

  /** Entry `k` is the one that decides field `f`. */
  ghost predicate Sets(t: Table, entries: seq<Entry>, k: int, strtod: Strtod, f: nat)
    requires f < |t|
  {
    0 <= k < |entries| && FindField(t, entries[k].key) == Some(f) && Meaning(t[f], entries[k].text, strtod).Some?
  }

  lemma EntryEffect(t: Table, c: Values, e: Entry, strtod: Strtod, f: nat)
    requires f < |c| == |t|
    ensures ReadEntry(t, c, e.key, e.text, strtod)[f]
         == var v := Meaning(t[f], e.text, strtod);
            if FindField(t, e.key) == Some(f) && v.Some? then v.value else c[f]
  {
  }

  /** A field that no entry sets keeps its value. */
  lemma {:induction false} LeftAlone(t: Table, c: Values, entries: seq<Entry>, strtod: Strtod, f: nat)
    requires f < |c| == |t|
    requires forall k :: !Sets(t, entries, k, strtod, f)
    ensures ReadAll(t, c, entries, strtod)[f] == c[f]
    decreases |entries|
  {
    hide FindField, Meaning, ReadEntry;
    if entries != [] {
      var front := entries[..|entries| - 1];
      forall k
        ensures !Sets(t, front, k, strtod, f)
      {
        assert !Sets(t, entries, k, strtod, f);
      }
      LeftAlone(t, c, front, strtod, f);
      assert !Sets(t, entries, |entries| - 1, strtod, f);
      EntryEffect(t, ReadAll(t, c, front, strtod), entries[|entries| - 1], strtod, f);
    }
  }

  /** A field that one entry sets has that entry's meaning, wherever in the file it stands. */
  lemma {:induction false} SetByEntry(t: Table, c: Values, entries: seq<Entry>, strtod: Strtod, f: nat, k: nat)
    requires f < |c| == |t| && DistinctKeys(entries)
    requires Sets(t, entries, k, strtod, f)
    ensures Some(ReadAll(t, c, entries, strtod)[f]) == Meaning(t[f], entries[k].text, strtod)
    decreases |entries|
  {
    OneSetter(t, entries, strtod, f);
    hide FindField, Meaning, ReadEntry;
    var front, n := entries[..|entries| - 1], |entries| - 1;
    EntryEffect(t, ReadAll(t, c, front, strtod), entries[n], strtod, f);
    if k < n {
      assert !Sets(t, entries, n, strtod, f);
      assert Sets(t, front, k, strtod, f);
      SetByEntry(t, c, front, strtod, f, k);
    }
  }

  lemma SameField(t: Table, a: Text, b: Text, f: nat)
    requires FindField(t, a) == Some(f) && FindField(t, b) == Some(f)
    ensures a == b
  {
  }

  /** A file gives the same configuration in whatever order its keys are read. */
  lemma OrderIrrelevant(t: Table, c: Values, a: seq<Entry>, b: seq<Entry>, strtod: Strtod)
    requires |c| == |t| && DistinctKeys(a) && DistinctKeys(b)
    requires forall e :: e in a <==> e in b
    ensures ReadAll(t, c, a, strtod) == ReadAll(t, c, b, strtod)
  {
    hide FindField, Meaning, ReadAll;
    forall f | 0 <= f < |c|
      ensures ReadAll(t, c, a, strtod)[f] == ReadAll(t, c, b, strtod)[f]
    {
      if k :| Sets(t, a, k, strtod, f) {
        var j := SameSetter(t, a, b, strtod, f, k);
        SetByEntry(t, c, a, strtod, f, k);
        SetByEntry(t, c, b, strtod, f, j);
      } else if j :| Sets(t, b, j, strtod, f) {
        var k := SameSetter(t, b, a, strtod, f, j);
      } else {
        LeftAlone(t, c, a, strtod, f);
        LeftAlone(t, c, b, strtod, f);
      }
    }
  }

  lemma SameSetter(t: Table, a: seq<Entry>, b: seq<Entry>, strtod: Strtod, f: nat, k: int) returns (j: int)
    requires f < |t| && Sets(t, a, k, strtod, f) && a[k] in b
    ensures Sets(t, b, j, strtod, f) && b[j] == a[k]
  {
    j :| 0 <= j < |b| && b[j] == a[k];
  }

  lemma OneSetter(t: Table, a: seq<Entry>, strtod: Strtod, f: nat)
    requires f < |t| && DistinctKeys(a)
    ensures forall j, k | Sets(t, a, j, strtod, f) && Sets(t, a, k, strtod, f) :: j == k
  {
    forall j, k | Sets(t, a, j, strtod, f) && Sets(t, a, k, strtod, f)
      ensures j == k
    {
      SameField(t, a[j].key, a[k].key, f);
    }
  }

  // --- defaults, and setting a key ---

  /** The defaults of the first `n` fields, over a cleared record. */
  function DefaultsUpTo(t: Table, n: nat, strtod: Strtod): (r: Values)
    requires n <= |t|
    ensures |r| == |t|
  {
    if n == 0 then seq(|t|, _ => Int(0))
    else Applied(t, DefaultsUpTo(t, n - 1, strtod), n - 1, t[n - 1].fallback, strtod)
  }

  function Defaults(t: Table, strtod: Strtod): (r: Values)
    ensures |r| == |t|
  {
    DefaultsUpTo(t, |t|, strtod)
  }

  lemma {:induction false} DefaultsInRangesUpTo(t: Table, n: nat, strtod: Strtod)
    requires Sound(t) && n <= |t| && ReadsDecimals(strtod)
    ensures forall i :: 0 <= i < n ==> InRange(t[i], DefaultsUpTo(t, n, strtod)[i])
    decreases n
  {
    if n > 0 {
      hide Meaning, InRange, ReadsDecimals, WellFormed;
      DefaultsInRangesUpTo(t, n - 1, strtod);
      DefaultParses(t[n - 1], strtod);
      MeaningInRange(t[n - 1], t[n - 1].fallback, strtod);
    }
  }

  /** Every configuration the driver can load has each field in its declared range. */
  lemma LoadedInRanges(t: Table, entries: seq<Entry>, strtod: Strtod)
    requires Sound(t) && ReadsDecimals(strtod)
    ensures InRanges(t, ReadAll(t, Defaults(t, strtod), entries, strtod))
  {
    DefaultsInRangesUpTo(t, |t|, strtod);
    ReadAllInRanges(t, Defaults(t, strtod), entries, strtod);
  }

  /** The text a stored value comes back as: a switch is stored as a truth value, which is read as a
      number; a number as a number; and any other text as a string, which repairs what is no UTF-8. */
  function Stored(f: Field, text: Text): Text {
    match f.kind
    case BoolField => if text == "true" then "1" else "0"
    case IntField => text
    case DoubleField => text
    case _ => Repaired(text)
  }

  /** The value that comes back. */
  function Kept(f: Field, v: Value): Value {
    if f.kind.TextField? && v.Name? then Name(Cut(Repaired(v.name), f.capacity)) else v
  }

  /** A name comes back whole if it is UTF-8 to the end of what the buffer held of it, or if a
      replacement character would be cut off in the same bytes. */
  predicate Survives(f: Field, v: Value) {
    f.kind.TextField? && v.Name? && f.capacity > 0 ==>
      IsUtf8(v.name) || EndsReplaced(v.name, f.capacity - 1)
  }

  lemma KeptIff(f: Field, v: Value)
    requires WellFormed(f) && InRange(f, v)
    ensures Kept(f, v) == v <==> Survives(f, v)
  {
    if f.kind.TextField? {
      SurvivesIff(v.name, f.capacity - 1);
    }
  }

  lemma StoredReadsBack(f: Field, v: Value, strtod: Strtod, g: real -> Text)
    requires WellFormed(f) && InRange(f, v) && ReadsDecimals(strtod) && f.kind != DoubleField
    ensures Meaning(f, Stored(f, Render(v, g)), strtod) == Some(Kept(f, v))
  {
    if f.kind.BoolField? {
      SwitchStored(f, v.on, strtod, g);
    } else if f.kind.IntField? {
      RenderReadsBack(f, v, strtod, g);
    } else if !f.kind.TextField? {
      RenderReadsBack(f, v, strtod, g);
      WordsAscii(f, v, g);
      Utf8Untouched(Render(v, g));
      hide Render, Meaning;
    }
  }

  lemma WordsAscii(f: Field, v: Value, g: real -> Text)
    requires WellFormed(f) && InRange(f, v) && (v.Heads? || v.HeadRef? || v.Word?)
    ensures IsUtf8(Render(v, g))
  {
    AsciiIsUtf8(Render(v, g));
  }

  lemma SwitchStored(f: Field, on: bool, strtod: Strtod, g: real -> Text)
    requires f.kind.BoolField?
    ensures Meaning(f, Stored(f, Render(Flag(on), g)), strtod) == Some(Flag(on))
  {
    Starts("1", "");
    Starts("0", "");
    DiffersAtFirst("0", "1");
    DiffersAtFirst("0", "true");
    DiffersAtFirst("0", "yes");
    DiffersAtFirst("0", "on");
  }

  /** `after` is `before` with the entry of one key replaced or added. */
  ghost predicate Rewritten(before: seq<Entry>, after: seq<Entry>, key: Text, text: Text) {
    && DistinctKeys(before) && DistinctKeys(after)
    && forall e :: e in after <==> e == Entry(key, text) || (e in before && e.key != key)
  }

  /** `config set` stored a value for a key that the table has, and is no double: `after` is the file
      with it, whatever else is in there and in whatever order it is read. */
  ghost predicate SetInFile(t: Table, key: Text, value: Text, before: seq<Entry>, after: seq<Entry>,
                            strtod: Strtod, g: real -> Text) {
    && Sound(t) && ReadsDecimals(strtod)
    && var i := FindField(t, key);
       && i.Some? && t[i.value].kind != DoubleField
       && var v := Meaning(t[i.value], value, strtod);
          v.Some? && Rewritten(before, after, key, Stored(t[i.value], Render(v.value, g)))
  }

  /** What was set is what the next load has, as the store keeps it, and nothing else changes; so the
      load has the very value set exactly when that survives the store. */
  lemma SetTakesEffect(t: Table, key: Text, value: Text, c: Values, before: seq<Entry>, after: seq<Entry>,
                       strtod: Strtod, g: real -> Text)
    requires |c| == |t| && SetInFile(t, key, value, before, after, strtod, g)
    ensures var i := FindField(t, key).value;
            var v := Meaning(t[i], value, strtod).value;
            && ReadAll(t, c, after, strtod) == ReadAll(t, c, before, strtod)[i := Kept(t[i], v)]
            && (ReadAll(t, c, after, strtod) == ReadAll(t, c, before, strtod)[i := v] <==> Survives(t[i], v))
  {
    var i := FindField(t, key).value;
    var v := Meaning(t[i], value, strtod).value;
    MeaningInRange(t[i], value, strtod);
    KeptIff(t[i], v);
    hide Kept, Survives, Meaning, Stored, Render, FindField, ReadAll, Rewritten;
    LoadAfterSet(t, key, value, c, before, after, strtod, g);
    assert ReadAll(t, c, after, strtod)[i] == Kept(t[i], v);
  }

  lemma LoadAfterSet(t: Table, key: Text, value: Text, c: Values, before: seq<Entry>, after: seq<Entry>,
                     strtod: Strtod, g: real -> Text)
    requires |c| == |t| && SetInFile(t, key, value, before, after, strtod, g)
    ensures var i := FindField(t, key).value;
            ReadAll(t, c, after, strtod)
            == ReadAll(t, c, before, strtod)[i := Kept(t[i], Meaning(t[i], value, strtod).value)]
  {
    var i := FindField(t, key).value;
    var v := Meaning(t[i], value, strtod).value;
    var text := Stored(t[i], Render(v, g));
    MeaningInRange(t[i], value, strtod);
    StoredReadsBack(t[i], v, strtod, g);
    hide FindField, Meaning, ReadAll, Render, Stored, Kept;
    assert Entry(key, text) in after;
    var k :| 0 <= k < |after| && after[k] == Entry(key, text);
    assert Sets(t, after, k, strtod, i);
    SetByEntry(t, c, after, strtod, i, k);
    forall f | 0 <= f < |c| && f != i
      ensures ReadAll(t, c, after, strtod)[f] == ReadAll(t, c, before, strtod)[f]
    {
      OtherFieldKept(t, key, text, c, before, after, strtod, f);
    }
  }

  lemma OtherFieldKept(t: Table, key: Text, text: Text, c: Values, before: seq<Entry>, after: seq<Entry>,
                       strtod: Strtod, f: nat)
    requires f < |c| == |t| && FindField(t, key) != Some(f)
    requires Rewritten(before, after, key, text)
    ensures ReadAll(t, c, after, strtod)[f] == ReadAll(t, c, before, strtod)[f]
  {
    hide FindField, Meaning, ReadAll;
    if k :| Sets(t, before, k, strtod, f) {
      var j := SameSetter(t, before, after, strtod, f, k);
      SetByEntry(t, c, before, strtod, f, k);
      SetByEntry(t, c, after, strtod, f, j);
    } else {
      forall j
        ensures !Sets(t, after, j, strtod, f)
      {
        if Sets(t, after, j, strtod, f) {
          var k := SameSetter(t, after, before, strtod, f, j);
        }
      }
      LeftAlone(t, c, before, strtod, f);
      LeftAlone(t, c, after, strtod, f);
    }
  }

  // --- what a build pins down ---

  datatype Build = Production | Verbose | Minimal

  function Pinned(key: Text, build: Build): Option<Value> {
    match build
    case Production =>
      if key == "capture.dump_frames" then Some(Flag(false))
      else if key == "log.level" then Some(Word("error"))
      else None
    case Verbose => if key == "log.level" then Some(Word("debug")) else None
    case Minimal => None
  }

  function Effective(t: Table, c: Values, build: Build): (r: Values)
    requires |c| == |t|
    ensures |r| == |c|
  {
    seq(|c|, i requires 0 <= i < |c| =>
          match Pinned(t[i].key, build) case Some(v) => v case None => c[i])
  }

  /** A production build shows the level `error` and no dumping of frames, a verbose one the level
      `debug`; all else is shown as it was loaded. */
  lemma PinnedIs(t: Table, c: Values, i: nat, build: Build)
    requires |c| == |t| && i < |t|
    ensures var shown := Effective(t, c, build)[i];
            && (t[i].key == "log.level" ==>
                  shown == if build.Production? then Word("error") else if build.Verbose? then Word("debug") else c[i])
            && (t[i].key == "capture.dump_frames" ==> shown == if build.Production? then Flag(false) else c[i])
            && (t[i].key != "log.level" && t[i].key != "capture.dump_frames" ==> shown == c[i])
  {
    assert "log.level"[0] == 'l' && "capture.dump_frames"[0] == 'c';
  }

  /** A key that was set reads back with the very value set exactly when the build pins it to that, or
      does not pin it and the value survives the store. */
  lemma SetIsSeenIff(t: Table, key: Text, value: Text, c: Values, before: seq<Entry>, after: seq<Entry>,
                     strtod: Strtod, g: real -> Text, build: Build)
    requires |c| == |t| && SetInFile(t, key, value, before, after, strtod, g)
    ensures var i := FindField(t, key).value;
            var v := Meaning(t[i], value, strtod).value;
            Effective(t, ReadAll(t, c, after, strtod), build)[i] == v
            <==> match Pinned(key, build) case Some(p) => p == v case None => Survives(t[i], v)
  {
    var i := FindField(t, key).value;
    var v := Meaning(t[i], value, strtod).value;
    SetTakesEffect(t, key, value, c, before, after, strtod, g);
    MeaningInRange(t[i], value, strtod);
    KeptIff(t[i], v);
    hide Meaning, ReadAll, Render, Stored, Pinned, Kept, Survives, Rewritten;
  }

  /** Cut inside a character, a name is mended by the store into another one: sixty-two letters and
      an accented one are 64 bytes, of which the buffer holds 63. */
  lemma CutNameIsMended(name: Text, f: Field)
    requires f.kind == TextField && f.capacity == 64 && |name| == 64
    requires forall i :: 0 <= i < 62 ==> name[i] == 'a'
    requires name[62] == 0xC3 as char && name[63] == 0xA9 as char
    ensures IsUtf8(name) && !Survives(f, Name(Cut(name, 64)))
  {
    LettersThen(name, 62);
    LettersThen(name[..63], 62);
    assert First(name[62..]) == Front(2, true);
    assert IsUtf8("") && name[62..][2..] == "";
    assert name[..63][62..] == [0xC3 as char];
  }

  /** Leading letters change neither whether a text is UTF-8 nor how it ends. */
  lemma {:induction false} LettersThen(text: Text, n: nat)
    requires n <= |text| && forall i :: 0 <= i < n ==> text[i] == 'a'
    ensures IsUtf8(text) <==> IsUtf8(text[n..])
    ensures n < |text| ==> (EndsReplaced(text, |text|) <==> EndsReplaced(text[n..], |text| - n))
    decreases n
  {
    if n > 0 {
      assert text[1..][n - 1..] == text[n..];
      LettersThen(text[1..], n - 1);
    } else {
      assert text[0..] == text;
    }
  }

  // --- as the driver keeps it ---

  class OizysConfig {
    const members: array<Value>

    ghost predicate Valid()
      reads this, members
    {
      members.Length == |Fields()|
    }

    constructor ()
      ensures Valid() && fresh(members)
    {
      members := new Value[|Fields()|](_ => Int(0));
    }

    /** 0 when the text parses, and -2 when it does not. */
    method Apply(i: nat, text: Text, strtod: Strtod) returns (rc: int)
      requires Valid() && i < |Fields()|
      modifies members
      ensures members[..] == Applied(Fields(), old(members[..]), i, text, strtod)
      ensures rc == if Meaning(Fields()[i], text, strtod).Some? then 0 else -2
    {
      var field := Fields()[i];
      hide Fields;
      match field.kind {
        case IntField =>
          var x := strtod(text);
          if x.None? {
            return -2;
          }
          members[i] := Int(Truncate(Clamp(x.value, field)));
        case DoubleField =>
          var x := strtod(text);
          if x.None? {
            return -2;
          }
          members[i] := Double(Clamp(x.value, field));
        case BoolField =>
          var on := ParseBool(text);
          if on.None? {
            return -2;
          }
          members[i] := Flag(on.value);
        case HeadsField =>
          var heads := ReadHeadList(text);
          if heads.None? {
            return -2;
          }
          members[i] := Heads(heads.value.0, heads.value.1);
        case HeadRefField =>
          var head := ParseHeadRef(text);
          if head.None? {
            return -2;
          }
          members[i] := HeadRef(head.value);
        case TextField =>
          members[i] := Name(Cut(text, field.capacity));
        case WordField =>
          var level := FindLevel(text, 0);
          if level.None? {
            return -2;
          }
          members[i] := Word(Cut(level.value, field.capacity));
      }
      return 0;
    }

    method Find(key: Text) returns (r: Option<nat>)
      ensures r == FindField(Fields(), key)
    {
      for i := 0 to |Fields()|
        invariant FindField(Fields(), key) == FindFrom(Fields(), key, i)
      {
        if Fields()[i].key == key {
          return Some(i);
        }
      }
      return None;
    }

    method LoadDefaults(strtod: Strtod)
      requires Valid() && ReadsDecimals(strtod)
      modifies members
      ensures members[..] == Defaults(Fields(), strtod) && InRanges(Fields(), members[..])
    {
      hide Fields, Meaning, InRange, ReadsDecimals;
      forall i | 0 <= i < members.Length {
        members[i] := Int(0);
      }
      for i := 0 to |Fields()|
        invariant members[..] == DefaultsUpTo(Fields(), i, strtod)
      {
        var rc := Apply(i, Fields()[i].fallback, strtod);
        DefaultParses(Fields()[i], strtod);
        assert rc == 0;
      }
      DefaultsInRangesUpTo(Fields(), |Fields()|, strtod);
    }

    /** One key of the settings file. */
    method ReadValue(key: Text, text: Text, strtod: Strtod)
      requires Valid()
      modifies members
      ensures members[..] == ReadEntry(Fields(), old(members[..]), key, text, strtod)
    {
      var i := Find(key);
      if i.Some? {
        var _ := Apply(i.value, text, strtod);
      }
    }
  }
}
