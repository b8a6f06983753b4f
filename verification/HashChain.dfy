/**
 The hash-chained command ledger: appending, recovering after a restart, verifying. The hash and the
 canonical text of an entry are parameters; neither is taken to be injective.
 */
module HashChain {
  import opened Prelude

  datatype Value = Num(n: int) | Str(s: string) | Table(rows: map<string, string>)

  const HASH_KEYS := {"content_hash", "prev_hash", "chain_hash"}

  /** An entry without its three hash fields. */
  type Data = m: map<string, Value> | m.Keys !! HASH_KEYS witness map[]

  /** One entry of the file; any hash field may be missing from a file this program did not write. */
  datatype Record = Record(data: Data, contentHash: Option<string>, prevHash: Option<string>, chainHash: Option<string>)

  /** A line of the file: white space, text that is not JSON, or an entry. */
  datatype Line = Blank | Malformed | Entry(record: Record)

  datatype Kind = ContentMismatch | PrevMismatch | ChainMismatch

  datatype Violation = Violation(line: nat, kind: Kind)

  datatype Hashing = Hashing(sha: string -> string, canon: Data -> string)

  function Zeros(n: nat): (s: string)
    ensures |s| == n
  {
    seq(n, _ => '0')
  }

  const GENESIS := Zeros(64)

  /** Digests are 64 characters long. */
  ghost predicate IsDigest(h: Hashing) {
    forall s :: |h.sha(s)| == 64
  }

  // ---------- verify_chain ----------

  /** The hash that `verify_chain` carries after some lines. */
  function Running(lines: seq<Line>): string {
    if lines == [] then GENESIS
    else
      match lines[|lines| - 1]
      case Entry(r) => OrElse(r.chainHash, "")
      case _ => Running(lines[..|lines| - 1])
  }

  function LineViolations(h: Hashing, line: nat, r: Record, prev: string): seq<Violation> {
    (if r.contentHash != Some(h.sha(h.canon(r.data))) then [Violation(line, ContentMismatch)] else [])
    + (if r.prevHash != Some(prev) then [Violation(line, PrevMismatch)] else [])
    + (if r.chainHash != Some(h.sha(prev + OrElse(r.contentHash, ""))) then [Violation(line, ChainMismatch)] else [])
  }

  function Violations(h: Hashing, lines: seq<Line>): Outcome<seq<Violation>> {
    if lines == [] then Ok([])
    else
      var front := lines[..|lines| - 1];
      match Violations(h, front)
      case Raised => Raised
      case Ok(before) =>
        match lines[|lines| - 1]
        case Blank => Ok(before)
        case Malformed => Raised
        case Entry(r) => Ok(before + LineViolations(h, |lines|, r, Running(front)))
  }

  /** Once a line does not parse, the whole verification raises. */
  lemma {:induction false} MalformedRaises(h: Hashing, lines: seq<Line>, i: nat)
    requires i < |lines| && lines[i].Malformed?
    ensures Violations(h, lines).Raised?
  {
    if i < |lines| - 1 {
      MalformedRaises(h, lines[..|lines| - 1], i);
    }
  }

  method VerifyChain(h: Hashing, lines: seq<Line>) returns (o: Outcome<seq<Violation>>)
    ensures o == Violations(h, lines)
  {
    var violations := [];
    var prev := GENESIS;
    for i := 0 to |lines|
      invariant prev == Running(lines[..i])
      invariant Ok(violations) == Violations(h, lines[..i])
    {
      assert lines[..i + 1][..i] == lines[..i];
      match lines[i] {
        case Blank =>
        case Malformed =>
          MalformedRaises(h, lines, i);
          return Raised;
        case Entry(r) =>
          ghost var before := violations;
          if r.contentHash != Some(h.sha(h.canon(r.data))) {
            violations := violations + [Violation(i + 1, ContentMismatch)];
          }
          if r.prevHash != Some(prev) {
            violations := violations + [Violation(i + 1, PrevMismatch)];
          }
          if r.chainHash != Some(h.sha(prev + OrElse(r.contentHash, ""))) {
            violations := violations + [Violation(i + 1, ChainMismatch)];
          }
          assert violations == before + LineViolations(h, i + 1, r, prev);
          prev := OrElse(r.chainHash, "");
      }
    }
    assert lines[..|lines|] == lines;
    return Ok(violations);
  }

  // ---------- what a clean verification says ----------

  function Records(lines: seq<Line>): seq<Record> {
    if lines == [] then []
    else
      var front, last := lines[..|lines| - 1], lines[|lines| - 1];
      Records(front) + if last.Entry? then [last.record] else []
  }

  function HeadOf(records: seq<Record>): string {
    if records == [] then GENESIS else OrElse(records[|records| - 1].chainHash, "")
  }

  /** The record that continues a chain whose head is `prev`. */
  function LinkTo(h: Hashing, prev: string, data: Data): Record {
    var content := h.sha(h.canon(data));
    Record(data, Some(content), Some(prev), Some(h.sha(prev + content)))
  }

  /** The one ledger over given entry data, and what its records say. */
  function ChainOf(h: Hashing, datas: seq<Data>): (records: seq<Record>)
    ensures |records| == |datas|
  {
    if datas == [] then []
    else
      var front := ChainOf(h, datas[..|datas| - 1]);
      front + [LinkTo(h, HeadOf(front), datas[|datas| - 1])]
  }

  function DataOf(records: seq<Record>): (datas: seq<Data>)
    ensures |datas| == |records|
  {
    seq(|records|, i requires 0 <= i < |records| => records[i].data)
  }

  lemma {:induction false} RunningIsHead(lines: seq<Line>)
    ensures Running(lines) == HeadOf(Records(lines))
  {
    if lines != [] {
      RunningIsHead(lines[..|lines| - 1]);
    }
  }

  /**
   A file verifies without violations exactly when it parses and its records are the chain over
   their own data: the data decide every hash.
   */
  lemma {:induction false} CleanMeansChained(h: Hashing, lines: seq<Line>)
    ensures Violations(h, lines) == Ok([]) <==>
            Malformed !in lines && Records(lines) == ChainOf(h, DataOf(Records(lines)))
  {
    if lines != [] {
      var front, last := lines[..|lines| - 1], lines[|lines| - 1];
      CleanMeansChained(h, front);
      RunningIsHead(front);
      assert lines == front + [last];
      if last.Entry? {
        LinkHasNoViolations(h, |lines|, last.record, Running(front));
        ChainGrows(h, Records(front), last.record);
        hide ChainOf, LinkTo, Running, HeadOf, LineViolations;
        assert Violations(h, lines) == Ok([]) <==>
               Violations(h, front) == Ok([]) && LineViolations(h, |lines|, last.record, Running(front)) == [];
      } else {
        assert Records(lines) == Records(front);
      }
    }
  }

  lemma LinkHasNoViolations(h: Hashing, line: nat, r: Record, prev: string)
    ensures LineViolations(h, line, r, prev) == [] <==> r == LinkTo(h, prev, r.data)
  {}

  lemma ChainGrows(h: Hashing, records: seq<Record>, r: Record)
    ensures records + [r] == ChainOf(h, DataOf(records + [r])) <==>
            records == ChainOf(h, DataOf(records)) && r == LinkTo(h, HeadOf(records), r.data)
  {
    var more := records + [r];
    assert DataOf(more)[..|records|] == DataOf(records);
    var front := ChainOf(h, DataOf(records));
    assert ChainOf(h, DataOf(more)) == front + [LinkTo(h, HeadOf(front), r.data)];
    assert more[..|records|] == records && more[|records|] == r;
    assert (front + [LinkTo(h, HeadOf(front), r.data)])[..|records|] == front;
  }

  // ---------- the head decides the ledger ----------

  /** The texts that were hashed to make a ledger: its canonical entries and its chain inputs. */
  function Hashed(h: Hashing, records: seq<Record>): set<string> {
    if records == [] then {}
    else
      var front, r := records[..|records| - 1], records[|records| - 1];
      Hashed(h, front) + {h.canon(r.data), HeadOf(front) + h.sha(h.canon(r.data))}
  }

  /**
   A concrete break: two texts with one digest, two data with one text, or a text whose digest is
   the genesis value.
   */
  datatype Break = Unbroken | Collision(s: string, t: string) | SameText(d: Data, e: Data) | Genesis(s: string)

  ghost predicate IsBreak(h: Hashing, a: seq<Record>, b: seq<Record>, w: Break) {
    match w
    case Unbroken => false
    case Collision(s, t) => s in Hashed(h, a) && t in Hashed(h, b) && s != t && h.sha(s) == h.sha(t)
    case SameText(d, e) => d in DataOf(a) && e in DataOf(b) && d != e && h.canon(d) == h.canon(e)
    case Genesis(s) => s in Hashed(h, a) + Hashed(h, b) && h.sha(s) == GENESIS
  }

  lemma BreakOfFront(h: Hashing, a: seq<Record>, b: seq<Record>, w: Break)
    requires a != [] && b != [] && IsBreak(h, a[..|a| - 1], b[..|b| - 1], w)
    ensures IsBreak(h, a, b, w)
  {
    assert DataOf(a)[..|a| - 1] == DataOf(a[..|a| - 1]);
    assert DataOf(b)[..|b| - 1] == DataOf(b[..|b| - 1]);
  }

  /**
   Two chains with one head are the same record by record, or a break is found among the very
   texts that were hashed to make them.
   */
  lemma {:induction false} SameHeadSameRecords(h: Hashing, a: seq<Record>, b: seq<Record>) returns (w: Break)
    requires IsDigest(h)
    requires a == ChainOf(h, DataOf(a)) && b == ChainOf(h, DataOf(b)) && HeadOf(a) == HeadOf(b)
    ensures a == b || IsBreak(h, a, b, w)
  {
    w := Unbroken;
    if a == [] && b != [] {
      w := GenesisBreak(h, b);
    } else if b == [] && a != [] {
      w := GenesisBreak(h, a);
    } else if a != [] {
      var p := FrontAndLast(h, a);
      var q := FrontAndLast(h, b);
      if p == q {
        w := LastRecordsAgree(h, a, b);
        if w.Unbroken? {
          w := SameHeadSameRecords(h, a[..|a| - 1], b[..|b| - 1]);
          if a[..|a| - 1] == b[..|b| - 1] {
            assert a == a[..|a| - 1] + [a[|a| - 1]] == b;
          } else {
            BreakOfFront(h, a, b, w);
          }
        }
      } else {
        w := Collision(p, q);
      }
    }
  }

  /** A non-empty chain splits into a chain and its last link; `text` is what the link's chain hash is the digest of. */
  lemma FrontAndLast(h: Hashing, a: seq<Record>) returns (text: string)
    requires IsDigest(h) && a != [] && a == ChainOf(h, DataOf(a))
    ensures var front, r := a[..|a| - 1], a[|a| - 1];
            && front == ChainOf(h, DataOf(front)) && r == LinkTo(h, HeadOf(front), r.data)
            && text == HeadOf(front) + h.sha(h.canon(r.data)) && text in Hashed(h, a)
            && HeadOf(a) == h.sha(text) && |HeadOf(front)| == 64
  {
    var front, r := a[..|a| - 1], a[|a| - 1];
    assert a == front + [r];
    ChainGrows(h, front, r);
    text := HeadOf(front) + h.sha(h.canon(r.data));
    if front != [] {
      var f, s := front[..|front| - 1], front[|front| - 1];
      assert front == f + [s];
      ChainGrows(h, f, s);
    }
  }

  lemma GenesisBreak(h: Hashing, a: seq<Record>) returns (w: Break)
    requires IsDigest(h) && a != [] && a == ChainOf(h, DataOf(a)) && HeadOf(a) == GENESIS
    ensures IsBreak(h, a, [], w) && IsBreak(h, [], a, w)
  {
    var text := FrontAndLast(h, a);
    w := Genesis(text);
  }

  lemma LastRecordsAgree(h: Hashing, a: seq<Record>, b: seq<Record>) returns (w: Break)
    requires IsDigest(h) && a != [] && b != []
    requires a == ChainOf(h, DataOf(a)) && b == ChainOf(h, DataOf(b))
    requires var r, s := a[|a| - 1], b[|b| - 1];
             HeadOf(a[..|a| - 1]) + h.sha(h.canon(r.data)) == HeadOf(b[..|b| - 1]) + h.sha(h.canon(s.data))
    ensures HeadOf(a[..|a| - 1]) == HeadOf(b[..|b| - 1])
    ensures if w.Unbroken? then a[|a| - 1] == b[|b| - 1] else IsBreak(h, a, b, w)
  {
    var t := FrontAndLast(h, a);
    var u := FrontAndLast(h, b);
    var r, s := a[|a| - 1], b[|b| - 1];
    assert t[..64] == u[..64] && t[64..] == u[64..];
    assert t[64..] == h.sha(h.canon(r.data)) && u[64..] == h.sha(h.canon(s.data));
    assert t[..64] == HeadOf(a[..|a| - 1]) && u[..64] == HeadOf(b[..|b| - 1]);
    if h.canon(r.data) != h.canon(s.data) {
      w := Collision(h.canon(r.data), h.canon(s.data));
    } else if r.data != s.data {
      assert DataOf(a)[|a| - 1] == r.data && DataOf(b)[|b| - 1] == s.data;
      w := SameText(r.data, s.data);
    } else {
      w := Unbroken;
    }
  }

  /** Two files that verify cleanly and end in one hash hold the same entries, or a break is found. */
  lemma {:induction false} HeadDecidesLedger(h: Hashing, a: seq<Line>, b: seq<Line>) returns (w: Break)
    requires IsDigest(h) && Violations(h, a) == Ok([]) == Violations(h, b) && Running(a) == Running(b)
    ensures Records(a) == Records(b) || IsBreak(h, Records(a), Records(b), w)
  {
    CleanMeansChained(h, a);
    CleanMeansChained(h, b);
    RunningIsHead(a);
    RunningIsHead(b);
    w := SameHeadSameRecords(h, Records(a), Records(b));
  }

  /** Editing one entry's data, its hashes left alone, is reported once, at its own line. */
  lemma {:induction false} EditIsLocated(h: Hashing, lines: seq<Line>, k: nat, d: Data)
    requires Violations(h, lines) == Ok([]) && k < |lines| && lines[k].Entry?
    requires h.sha(h.canon(d)) != h.sha(h.canon(lines[k].record.data))
    ensures var edited := lines[k := Entry(lines[k].record.(data := d))];
            Running(edited) == Running(lines) && Violations(h, edited) == Ok([Violation(k + 1, ContentMismatch)])
  {
    var edited := lines[k := Entry(lines[k].record.(data := d))];
    var n := |lines| - 1;
    if k < n {
      assert edited[..n] == lines[..n][k := Entry(lines[k].record.(data := d))];
      EditIsLocated(h, lines[..n], k, d);
      if lines[n].Entry? {
        assert LineViolations(h, n + 1, lines[n].record, Running(lines[..n])) == [];
        assert [Violation(k + 1, ContentMismatch)] + [] == [Violation(k + 1, ContentMismatch)];
      }
    } else {
      assert edited[..n] == lines[..n];
      var r, prev := lines[n].record, Running(lines[..n]);
      assert Violations(h, lines[..n]) == Ok([]) && LineViolations(h, n + 1, r, prev) == [];
      assert LineViolations(h, n + 1, r.(data := d), prev) == [Violation(n + 1, ContentMismatch)];
      assert [] + [Violation(n + 1, ContentMismatch)] == [Violation(n + 1, ContentMismatch)];
    }
  }
}
