/** The watcher's cursors, in memory and on disk, over any interleaving of appends, scans, stops and restarts. */
module SessionWatcher {
  import opened Prelude
  import opened SessionScan

  /** A turn together with the session file it was read from. */
  datatype Recorded = Recorded(key: string, turn: Turn)

  /** The session files, the cursors in memory, those in the cursor file, and everything handed to the recorder. */
  datatype State = State(files: map<string, seq<Line>>, cursors: map<string, nat>, saved: map<string, nat>,
      log: seq<Recorded>)

  function CursorOf(cursors: map<string, nat>, key: string): nat {
    if key in cursors then cursors[key] else 0
  }

  function Labelled(key: string, turns: seq<Turn>): (r: seq<Recorded>)
    ensures |r| == |turns|
    ensures forall i :: 0 <= i < |r| ==> r[i] == Recorded(key, turns[i])
  {
    seq(|turns|, i requires 0 <= i < |turns| => Recorded(key, turns[i]))
  }

  /** `_process_session_file`: a file that cannot be opened changes nothing. */
  function Processed(g: Gateway, s: State, key: string): State {
    if key !in s.files then s
    else
      var lines, from := s.files[key], CursorOf(s.cursors, key);
      s.(cursors := s.cursors[key := if from <= |lines| then |lines| else from],
         log := s.log + Labelled(key, ScanOf(g, lines, from, |lines|).turns))
  }

  /** The files of one scan in the order in which the directory lists them. */
  function ProcessedAll(g: Gateway, s: State, order: seq<string>): State {
    if order == [] then s else Processed(g, ProcessedAll(g, s, order[..|order| - 1]), order[|order| - 1])
  }

  /** `scan_sessions`: the cursors are saved only when something was recorded. */
  function Scanned(g: Gateway, s: State, order: seq<string>): State {
    var t := ProcessedAll(g, s, order);
    if |t.log| > |s.log| then t.(saved := t.cursors) else t
  }

  datatype Op = Append(key: string, line: Line) | ScanAll(order: seq<string>) | Stop | Restart

  function Step(g: Gateway, s: State, op: Op): State {
    match op
    case Append(key, line) => s.(files := s.files[key := (if key in s.files then s.files[key] else []) + [line]])
    case ScanAll(order) => Scanned(g, s, order)
    case Stop => s.(saved := s.cursors)
    case Restart => s.(cursors := s.saved)
  }

  function Ran(g: Gateway, ops: seq<Op>): State {
    if ops == [] then State(map[], map[], map[], []) else Step(g, Ran(g, ops[..|ops| - 1]), ops[|ops| - 1])
  }

  // ---------- the watcher ----------

  /** What outlives the watcher: session files, cursor file, recorder. */
  class Home {
    var files: map<string, seq<Line>>
    var cursorFile: map<string, nat>
    var log: seq<Recorded>

    constructor (files: map<string, seq<Line>>)
      ensures this.files == files && cursorFile == map[] && log == []
    {
      this.files := files;
      cursorFile := map[];
      log := [];
    }
  }

  class SessionWatcher {
    const g: Gateway
    const home: Home
    var cursors: map<string, nat>
    var running: bool

    ghost function View(): State
      reads this, home
    {
      State(home.files, cursors, home.cursorFile, home.log)
    }

    /** A new watcher starts from the cursor file. */
    constructor (g: Gateway, home: Home)
      ensures this.g == g && this.home == home && running
      ensures View() == Step(g, State(home.files, home.cursorFile, home.cursorFile, home.log), Restart)
    {
      this.g := g;
      this.home := home;
      cursors := home.cursorFile;
      running := true;
    }

    method ScanSessions(order: seq<string>) returns (recorded: nat)
      modifies this`cursors, home`cursorFile, home`log
      ensures View() == Scanned(g, old(View()), order)
      ensures recorded == |home.log| - |old(home.log)|
    {
      recorded := 0;
      for i := 0 to |order|
        invariant View() == ProcessedAll(g, old(View()), order[..i])
        invariant recorded == |home.log| - |old(home.log)|
      {
        assert order[..i + 1][..i] == order[..i];
        var n := ProcessSessionFile(order[i]);
        recorded := recorded + n;
      }
      assert order[..|order|] == order;
      if recorded > 0 {
        home.cursorFile := cursors;
      }
    }

    method ProcessSessionFile(key: string) returns (recorded: nat)
      modifies this`cursors, home`log
      ensures View() == Processed(g, old(View()), key)
      ensures recorded == |home.log| - |old(home.log)|
    {
      recorded := 0;
      if key !in home.files { return; }
      var lines := home.files[key];
      var from := if key in cursors then cursors[key] else 0;
      var pending: Option<string> := None;
      var provider: Option<string> := None;
      var model: Option<string> := None;
      ghost var turns := [];
      var i := from;
      while i < |lines|
        invariant from <= i && (from <= |lines| ==> i <= |lines|) && (from > |lines| ==> i == from)
        invariant i <= |lines| ==> Scan(pending, provider, model, turns) == ScanOf(g, lines, from, i)
        invariant from > |lines| ==> turns == []
        invariant View() == old(View()).(log := old(home.log) + Labelled(key, turns)) && recorded == |turns|
      {
        var l := lines[i];
        match l {
          case Ignored =>
          case ModelChange(p, m) =>
            provider := Some(OrElse(p, UNKNOWN));
            model := Some(OrElse(m, UNKNOWN));
          case Snapshot(p, m) =>
            provider := Some(OrElse(p, OrElse(provider, UNKNOWN)));
            model := Some(OrElse(m, OrElse(model, UNKNOWN)));
          case UserMessage(_) =>
            var text := UserText(g, l);
            if text.Some? {
              pending := text;
            }
          case AssistantMessage(_, content) =>
            if pending.Some? && IsReply(l) {
              var turn := Turn(i, EntryId(g, l), pending.value, TextOf(content), OrElse(provider, UNKNOWN),
                  OrElse(model, UNKNOWN));
              assert Labelled(key, turns + [turn]) == Labelled(key, turns) + [Recorded(key, turn)];
              home.log := home.log + [Recorded(key, turn)];
              turns := turns + [turn];
              recorded := recorded + 1;
              pending := None;
            }
        }
        i := i + 1;
      }
      cursors := cursors[key := i];
    }

    method StopWatching()
      modifies this`running, home`cursorFile
      ensures View() == Step(g, old(View()), Stop) && !running
    {
      running := false;
      home.cursorFile := cursors;
    }
  }

  // ---------- what every run keeps ----------

  ghost predicate Below(a: map<string, nat>, b: map<string, nat>) {
    forall key :: CursorOf(a, key) <= CursorOf(b, key)
  }

  /** Cursors stay within their files. */
  ghost predicate Within(cursors: map<string, nat>, files: map<string, seq<Line>>) {
    forall key <- cursors :: key in files && cursors[key] <= |files[key]|
  }

  /** A recorded turn lies before the cursor and is one that a single scan of its file records. */
  ghost predicate IsSettled(g: Gateway, files: map<string, seq<Line>>, cursors: map<string, nat>, r: Recorded) {
    && r.key in files
    && r.turn.index < CursorOf(cursors, r.key)
    && ExchangeOf(r.turn) in Exchanges(ScanOf(g, files[r.key], 0, |files[r.key]|).turns)
  }

  /** No line of a file is recorded twice. */
  ghost predicate OnceEach(log: seq<Recorded>) {
    forall i, j :: 0 <= i < j < |log| ==> DifferentLines(log[i], log[j])
  }

  ghost predicate DifferentLines(a: Recorded, b: Recorded) {
    a.key == b.key ==> a.turn.index != b.turn.index
  }

  ghost predicate Kept(g: Gateway, s: State, cursors: map<string, nat>) {
    && Within(s.cursors, s.files)
    && OnceEach(s.log)
    && forall k :: 0 <= k < |s.log| ==> IsSettled(g, s.files, cursors, s.log[k])
  }

  /** Between operations everything recorded lies before the saved cursors, which never overtake those in memory. */
  ghost predicate Safe(g: Gateway, s: State) {
    Kept(g, s, s.saved) && Below(s.saved, s.cursors) && Within(s.saved, s.files)
  }

  lemma {:induction false} EveryRunSafe(g: Gateway, ops: seq<Op>)
    ensures Safe(g, Ran(g, ops))
  {
    if ops != [] {
      EveryRunSafe(g, ops[..|ops| - 1]);
      StepKeepsSafe(g, Ran(g, ops[..|ops| - 1]), ops[|ops| - 1]);
    }
  }

  lemma StepKeepsSafe(g: Gateway, s: State, op: Op)
    requires Safe(g, s)
    ensures Safe(g, Step(g, s, op))
  {
    match op
    case Append(key, line) => AppendKeepsSafe(g, s, key, line);
    case ScanAll(order) => ScanKeepsSafe(g, s, order);
    case Stop => LaterCursorsKeep(g, s, s.saved, s.cursors);
    case Restart =>
  }

  lemma LaterCursorsKeep(g: Gateway, s: State, earlier: map<string, nat>, later: map<string, nat>)
    requires Kept(g, s, earlier) && Below(earlier, later)
    ensures Kept(g, s, later)
  {
    hide ScanOf, Exchanges;
    forall k | 0 <= k < |s.log| ensures IsSettled(g, s.files, later, s.log[k]) {
      assert IsSettled(g, s.files, earlier, s.log[k]);
    }
  }

  /** A longer file still records what the shorter one did. */
  lemma {:induction false} GrowingFileKeepsTurns(g: Gateway, lines: seq<Line>, line: Line, end: nat)
    requires end <= |lines|
    ensures ScanOf(g, lines + [line], 0, end) == ScanOf(g, lines, 0, end)
  {
    if end > 0 {
      GrowingFileKeepsTurns(g, lines, line, end - 1);
    }
  }

  lemma AppendKeepsSafe(g: Gateway, s: State, key: string, line: Line)
    requires Safe(g, s)
    ensures Safe(g, Step(g, s, Append(key, line)))
  {
    var before := if key in s.files then s.files[key] else [];
    var t := Step(g, s, Append(key, line));
    forall k | 0 <= k < |t.log| ensures IsSettled(g, t.files, t.saved, t.log[k]) {
      assert IsSettled(g, s.files, s.saved, s.log[k]);
      if t.log[k].key == key {
        GrowingFileKeepsTurns(g, before, line, |before|);
        NextExchanges(g, ScanOf(g, before, 0, |before|), line, |before|);
      }
    }
  }

  lemma ScanKeepsSafe(g: Gateway, s: State, order: seq<string>)
    requires Safe(g, s)
    ensures Safe(g, Scanned(g, s, order))
  {
    LaterCursorsKeep(g, s, s.saved, s.cursors);
    ProcessingKeeps(g, s, order);
    hide ProcessedAll, Kept;
    var t := ProcessedAll(g, s, order);
    if |t.log| == |s.log| {
      NothingRecordedKeeps(g, s, t);
    }
  }

  lemma NothingRecordedKeeps(g: Gateway, s: State, t: State)
    requires Kept(g, s, s.saved) && Kept(g, t, t.cursors) && t.log == s.log && t.files == s.files && t.saved == s.saved
    ensures Kept(g, t, t.saved)
  {}

  lemma {:induction false} ProcessingKeeps(g: Gateway, s: State, order: seq<string>)
    requires Kept(g, s, s.cursors)
    ensures var t := ProcessedAll(g, s, order);
            && Kept(g, t, t.cursors) && Below(s.cursors, t.cursors)
            && t.files == s.files && t.saved == s.saved
            && |t.log| >= |s.log| && (|t.log| == |s.log| ==> t.log == s.log)
  {
    if order != [] {
      ProcessingKeeps(g, s, order[..|order| - 1]);
      FileKeeps(g, ProcessedAll(g, s, order[..|order| - 1]), order[|order| - 1]);
    }
  }

  lemma FileKeeps(g: Gateway, s: State, key: string)
    requires Kept(g, s, s.cursors)
    ensures var t := Processed(g, s, key);
            && Kept(g, t, t.cursors) && Below(s.cursors, t.cursors)
            && |t.log| >= |s.log| && (|t.log| == |s.log| ==> t.log == s.log)
  {
    var t := Processed(g, s, key);
    if key in s.files {
      var lines, from := s.files[key], CursorOf(s.cursors, key);
      var turns := ScanOf(g, lines, from, |lines|).turns;
      IndicesIncrease(g, lines, from, |lines|);
      WindowIsPartOfWider(g, lines, 0, from, |lines|);
      hide ScanOf;
      LaterCursorsKeep(g, s, s.cursors, t.cursors);
      forall k | 0 <= k < |t.log| ensures IsSettled(g, t.files, t.cursors, t.log[k]) {
        if k < |s.log| {
          assert IsSettled(g, s.files, t.cursors, s.log[k]);
        } else {
          assert t.log[k].turn == turns[k - |s.log|];
          assert ExchangeOf(t.log[k].turn) == Exchanges(turns)[k - |s.log|];
        }
      }
      WindowIsNew(g, s, key, turns);
    }
  }

  lemma WindowIsNew(g: Gateway, s: State, key: string, turns: seq<Turn>)
    requires Kept(g, s, s.cursors)
    requires forall t <- turns :: t.index >= CursorOf(s.cursors, key)
    requires forall i, j :: 0 <= i < j < |turns| ==> turns[i].index < turns[j].index
    ensures OnceEach(s.log + Labelled(key, turns))
  {
    hide ScanOf, Exchanges;
    var log := s.log + Labelled(key, turns);
    forall i, j | 0 <= i < j < |log| ensures DifferentLines(log[i], log[j]) {
      if j < |s.log| {
        assert DifferentLines(s.log[i], s.log[j]);
      } else {
        assert log[j].turn == turns[j - |s.log|];
        if i < |s.log| {
          assert IsSettled(g, s.files, s.cursors, s.log[i]);
        }
      }
    }
  }

  lemma OnceEachEitherWay(log: seq<Recorded>, i: nat, j: nat)
    requires OnceEach(log) && i < |log| && j < |log|
    ensures i == j || DifferentLines(log[i], log[j])
  {
    if i > j {
      assert DifferentLines(log[j], log[i]);
    }
  }

  /**
   Over any interleaving, an assistant entry is recorded at most once, and what is recorded for it is
   what one scan of the whole file would record there.
   */
  lemma RecordedOnceAndAsWhole(g: Gateway, ops: seq<Op>, i: nat, j: nat)
    requires var log := Ran(g, ops).log;
             i < |log| && j < |log| && log[i].key == log[j].key && log[i].turn.index == log[j].turn.index
    ensures i == j
    ensures var s := Ran(g, ops);
            var r := s.log[i];
            r.key in s.files && ExchangeOf(r.turn) in Exchanges(ScanOf(g, s.files[r.key], 0, |s.files[r.key]|).turns)
  {
    EveryRunSafe(g, ops);
    var s := Ran(g, ops);
    hide Ran, ScanOf, Exchanges;
    assert IsSettled(g, s.files, s.saved, s.log[i]);
    OnceEachEitherWay(s.log, i, j);
  }
}
