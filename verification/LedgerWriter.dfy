/** The writer of the command ledger: append, and recovery of its memory from the file. */
module LedgerWriter {
  import opened Prelude
  import opened HashChain

  /** What an append is given; `stages` holds name and verdict of each stage result in order. */
  datatype Command = Command(entryId: string, timestamp: string, runId: string, envelopeId: string, name: string,
      stages: seq<(string, string)>, outcome: string)

  /** `_prev_hash` and `_sequence` */
  datatype Memory = Memory(prevHash: string, sequence: int)

  const FRESH := Memory(GENESIS, 0)

  /** A dictionary comprehension: a later result of the same stage replaces an earlier one. */
  function StageSummary(stages: seq<(string, string)>): map<string, string> {
    if stages == [] then map[]
    else
      var last := stages[|stages| - 1];
      StageSummary(stages[..|stages| - 1])[last.0 := last.1]
  }

  function EntryData(c: Command, sequence: int): (d: Data)
    ensures "sequence_number" in d && d["sequence_number"] == Num(sequence)
  {
    map["entry_id" := Str(c.entryId),
        "timestamp" := Str(c.timestamp),
        "run_id" := Str(c.runId),
        "envelope_id" := Str(c.envelopeId),
        "command_name" := Str(c.name),
        "stage_summary" := Table(StageSummary(c.stages)),
        "outcome" := Str(c.outcome),
        "sequence_number" := Num(sequence)]
  }

  /** The table names the stages that reported, each with its last verdict. */
  ghost predicate HoldsLastVerdicts(table: map<string, string>, stages: seq<(string, string)>) {
    && (forall name :: name in table <==> Reported(stages, name))
    && forall i :: 0 <= i < |stages| && IsLastOf(stages, i) ==>
         stages[i].0 in table && table[stages[i].0] == stages[i].1
  }

  ghost predicate Reported(stages: seq<(string, string)>, name: string) {
    exists i :: 0 <= i < |stages| && stages[i].0 == name
  }

  ghost predicate IsLastOf(stages: seq<(string, string)>, i: nat)
    requires i < |stages|
  {
    forall j :: i < j < |stages| ==> stages[j].0 != stages[i].0
  }

  /** A later result of a stage replaces an earlier one, so the last of each counts. */
  lemma {:induction false} LastVerdictCounts(stages: seq<(string, string)>)
    ensures HoldsLastVerdicts(StageSummary(stages), stages)
  {
    if stages != [] {
      var n := |stages| - 1;
      LastVerdictCounts(stages[..n]);
      hide HoldsLastVerdicts;
      OneMoreVerdict(StageSummary(stages[..n]), stages[..n], stages[n]);
      assert stages == stages[..n] + [stages[n]];
    }
  }

  lemma OneMoreVerdict(table: map<string, string>, stages: seq<(string, string)>, last: (string, string))
    requires HoldsLastVerdicts(table, stages)
    ensures HoldsLastVerdicts(table[last.0 := last.1], stages + [last])
  {
    var more, n := stages + [last], |stages|;
    assert more[n] == last;
    forall i | 0 <= i < n && IsLastOf(more, i) ensures IsLastOf(stages, i) && more[i].0 != last.0 {
      assert forall j :: i < j < n ==> more[j] == stages[j];
    }
    forall name ensures name in table[last.0 := last.1] <==> Reported(more, name) {
      if i :| 0 <= i < n && stages[i].0 == name {
        assert more[i].0 == name;
      }
    }
  }

  /** The record's data says which command it stands for, under which number. */
  ghost predicate Tells(d: Data, c: Command, sequence: int) {
    && d.Keys == {"entry_id", "timestamp", "run_id", "envelope_id", "command_name", "stage_summary", "outcome",
                  "sequence_number"}
    && d["entry_id"] == Str(c.entryId) && d["timestamp"] == Str(c.timestamp) && d["run_id"] == Str(c.runId)
    && d["envelope_id"] == Str(c.envelopeId) && d["command_name"] == Str(c.name) && d["outcome"] == Str(c.outcome)
    && d["sequence_number"] == Num(sequence)
    && d["stage_summary"].Table? && HoldsLastVerdicts(d["stage_summary"].rows, c.stages)
  }

  lemma EntryTells(c: Command, sequence: int)
    ensures Tells(EntryData(c, sequence), c, sequence)
  {
    LastVerdictCounts(c.stages);
    hide HoldsLastVerdicts, StageSummary;
  }

  /** The last line that is not blank, if any. */
  function LastLine(lines: seq<Line>): (l: Option<Line>)
    ensures l.Some? ==> l.value in lines && !l.value.Blank?
  {
    if lines == [] then None
    else if !lines[|lines| - 1].Blank? then Some(lines[|lines| - 1])
    else LastLine(lines[..|lines| - 1])
  }

  function Recovered(lines: seq<Line>): Outcome<Memory> {
    match LastLine(lines)
    case None => Ok(FRESH)
    case Some(Entry(r)) =>
      var prev := OrElse(r.chainHash, GENESIS);
      if "sequence_number" !in r.data then Ok(Memory(prev, 1))
      else if r.data["sequence_number"].Num? then Ok(Memory(prev, r.data["sequence_number"].n + 1))
      else Raised
    case Some(_) => Raised
  }

  class LedgerFile {
    var lines: seq<Line>

    constructor (lines: seq<Line>)
      ensures this.lines == lines
    {
      this.lines := lines;
    }
  }

  class LedgerWriter {
    const h: Hashing
    const file: LedgerFile
    var prevHash: string
    var sequence: int

    ghost function Mem(): Memory
      reads this
    {
      Memory(prevHash, sequence)
    }

    constructor (h: Hashing, file: LedgerFile)
      ensures this.h == h && this.file == file && Mem() == FRESH
    {
      this.h := h;
      this.file := file;
      prevHash := GENESIS;
      sequence := 0;
    }

    /** `_recover_state`, the last act of `__init__` */
    method RecoverState() returns (o: Outcome<()>)
      requires Mem() == FRESH
      modifies this
      ensures match Recovered(file.lines)
              case Ok(m) => o == Ok(()) && Mem() == m
              case Raised => o == Raised
    {
      var last: Option<Line> := None;
      for i := 0 to |file.lines|
        invariant last == LastLine(file.lines[..i])
        invariant Mem() == FRESH
      {
        assert file.lines[..i + 1][..i] == file.lines[..i];
        if !file.lines[i].Blank? {
          last := Some(file.lines[i]);
        }
      }
      assert file.lines[..|file.lines|] == file.lines;
      match last {
        case None =>
        case Some(Malformed) => return Raised;
        case Some(Entry(r)) =>
          prevHash := OrElse(r.chainHash, GENESIS);
          var number := if "sequence_number" in r.data then r.data["sequence_number"] else Num(0);
          if !number.Num? { return Raised; }
          sequence := number.n + 1;
      }
      return Ok(());
    }

    /** `append` */
    method Append(c: Command) returns (r: Record)
      modifies this, file
      ensures r == LinkTo(h, old(prevHash), EntryData(c, old(sequence)))
      ensures file.lines == old(file.lines) + [Entry(r)]
      ensures Mem() == Memory(h.sha(old(prevHash) + h.sha(h.canon(r.data))), old(sequence) + 1)
    {
      var data := EntryData(c, sequence);
      var contentHash := h.sha(h.canon(data));
      var chainHash := h.sha(prevHash + contentHash);
      r := Record(data, Some(contentHash), Some(prevHash), Some(chainHash));
      file.lines := file.lines + [Entry(r)];
      prevHash := chainHash;
      sequence := sequence + 1;
    }
  }

  // ---------- any interleaving of appends and restarts ----------

  datatype Op = Append(c: Command) | Restart

  datatype State = State(lines: seq<Line>, mem: Memory)

  function Step(h: Hashing, s: State, op: Op): Outcome<State> {
    match op
    case Append(c) =>
      var r := LinkTo(h, s.mem.prevHash, EntryData(c, s.mem.sequence));
      Ok(State(s.lines + [Entry(r)], Memory(h.sha(s.mem.prevHash + h.sha(h.canon(r.data))), s.mem.sequence + 1)))
    case Restart =>
      match Recovered(s.lines)
      case Ok(m) => Ok(State(s.lines, m))
      case Raised => Raised
  }

  /** The state after a sequence of operations that starts with no file. */
  function Ran(h: Hashing, ops: seq<Op>): Outcome<State> {
    if ops == [] then Ok(State([], FRESH))
    else
      match Ran(h, ops[..|ops| - 1])
      case Ok(s) => Step(h, s, ops[|ops| - 1])
      case Raised => Raised
  }

  /** The data of the appended commands in order, numbered from 0; restarts leave no trace. */
  function Numbered(ops: seq<Op>): seq<Data> {
    if ops == [] then []
    else
      var front, last := Numbered(ops[..|ops| - 1]), ops[|ops| - 1];
      if last.Append? then front + [EntryData(last.c, |front|)] else front
  }

  lemma {:induction false} SequencedFromZero(ops: seq<Op>, k: nat)
    requires k < |Numbered(ops)|
    ensures "sequence_number" in Numbered(ops)[k] && Numbered(ops)[k]["sequence_number"] == Num(k)
  {
    var front := Numbered(ops[..|ops| - 1]);
    if k < |front| {
      SequencedFromZero(ops[..|ops| - 1], k);
    }
  }

  /** What every sequence of operations keeps. */
  ghost predicate InStep(h: Hashing, ops: seq<Op>, s: State) {
    && (forall l <- s.lines :: l.Entry?)
    && Records(s.lines) == ChainOf(h, Numbered(ops))
    && |s.lines| == |Numbered(ops)|
    && Recovered(s.lines) == Ok(s.mem)
    && s.mem == Memory(HeadOf(Records(s.lines)), |s.lines|)
  }

  /**
   After any interleaving of appends and restarts nothing has raised, the file holds exactly the
   chain over the appended commands numbered 0, 1, 2, ..., and the writer's memory is what a restart
   would recover.
   */
  lemma {:induction false} EveryRunInStep(h: Hashing, ops: seq<Op>)
    ensures Ran(h, ops).Ok? && InStep(h, ops, Ran(h, ops).value)
  {
    if ops != [] {
      EveryRunInStep(h, ops[..|ops| - 1]);
      var s := Ran(h, ops[..|ops| - 1]).value;
      match ops[|ops| - 1]
      case Append(c) => AppendKeepsStep(h, ops, s, c);
      case Restart =>
    }
  }

  lemma AppendKeepsStep(h: Hashing, ops: seq<Op>, s: State, c: Command)
    requires ops != [] && ops[|ops| - 1] == Append(c) && InStep(h, ops[..|ops| - 1], s)
    ensures InStep(h, ops, Step(h, s, Append(c)).value)
  {
    hide EntryData;
    var before := Numbered(ops[..|ops| - 1]);
    var d := EntryData(c, |before|);
    var r := LinkTo(h, s.mem.prevHash, d);
    var lines := s.lines + [Entry(r)];
    assert lines[..|lines| - 1] == s.lines;
    assert Numbered(ops) == before + [d];
    assert (before + [d])[..|before|] == before;
    assert Records(lines) == Records(s.lines) + [r];
  }

  /** The appended commands in order. */
  function Appended(ops: seq<Op>): seq<Command> {
    if ops == [] then []
    else Appended(ops[..|ops| - 1]) + if ops[|ops| - 1].Append? then [ops[|ops| - 1].c] else []
  }

  lemma {:induction false} NumberedTells(ops: seq<Op>)
    ensures |Numbered(ops)| == |Appended(ops)|
    ensures forall k :: 0 <= k < |Appended(ops)| ==> Tells(Numbered(ops)[k], Appended(ops)[k], k)
  {
    hide EntryData, Tells;
    if ops != [] {
      NumberedTells(ops[..|ops| - 1]);
      if ops[|ops| - 1].Append? {
        EntryTells(ops[|ops| - 1].c, |Numbered(ops[..|ops| - 1])|);
      }
    }
  }

  /** After any appends and restarts the k-th line of the file tells the k-th command, numbered k. */
  lemma EveryRunTells(h: Hashing, ops: seq<Op>)
    ensures Ran(h, ops).Ok?
    ensures var lines := Ran(h, ops).value.lines;
            && |lines| == |Appended(ops)|
            && forall k :: 0 <= k < |lines| ==> lines[k].Entry? && Tells(lines[k].record.data, Appended(ops)[k], k)
  {
    EveryRunInStep(h, ops);
    NumberedTells(ops);
    ChainCarriesData(h, Numbered(ops));
    var lines := Ran(h, ops).value.lines;
    hide Ran, Tells, ChainOf, Recovered, Numbered, Appended;
    assert DataOf(Records(lines)) == Numbered(ops);
    forall k | 0 <= k < |lines| ensures lines[k].Entry? && lines[k].record.data == Numbered(ops)[k] {
      RecordAt(lines, k);
      assert DataOf(Records(lines))[k] == lines[k].record.data;
    }
  }

  lemma {:induction false} RecordAt(lines: seq<Line>, k: nat)
    requires k < |lines| && forall l <- lines :: l.Entry?
    ensures lines[k].Entry? && |Records(lines)| == |lines| && Records(lines)[k] == lines[k].record
  {
    var n := |lines| - 1;
    assert forall l <- lines[..n] :: l in lines;
    assert lines[k] in lines && lines[n] in lines;
    if n > 0 {
      RecordAt(lines[..n], if k < n then k else 0);
    }
  }

  /** Hence verification never finds a violation in a file that one writer at a time has written. */
  lemma {:induction false} EveryRunVerifies(h: Hashing, ops: seq<Op>)
    ensures Ran(h, ops).Ok? && Violations(h, Ran(h, ops).value.lines) == Ok([])
  {
    EveryRunInStep(h, ops);
    var lines := Ran(h, ops).value.lines;
    CleanMeansChained(h, lines);
    ChainCarriesData(h, Numbered(ops));
  }

  lemma {:induction false} ChainCarriesData(h: Hashing, datas: seq<Data>)
    ensures DataOf(ChainOf(h, datas)) == datas
  {
    if datas != [] {
      ChainCarriesData(h, datas[..|datas| - 1]);
      var front := ChainOf(h, datas[..|datas| - 1]);
      assert DataOf(ChainOf(h, datas))[..|front|] == DataOf(front);
      assert datas == datas[..|front|] + [datas[|front|]];
    }
  }

  /**
   A writer whose memory is stale, because another writer appended since it was recovered, keeps the
   file clean only if its remembered hash is still the head.
   */
  lemma AppendVerifiesIff(h: Hashing, s: State, c: Command)
    requires Violations(h, s.lines) == Ok([])
    ensures Violations(h, Step(h, s, Append(c)).value.lines) == Ok([]) <==> s.mem.prevHash == Running(s.lines)
  {
    var r := LinkTo(h, s.mem.prevHash, EntryData(c, s.mem.sequence));
    var lines := s.lines + [Entry(r)];
    assert lines[..|lines| - 1] == s.lines;
    LinkHasNoViolations(h, |lines|, r, Running(s.lines));
  }
}
