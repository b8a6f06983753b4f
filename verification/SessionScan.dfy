/** What one scan of a session file records, as a function of the window of lines it reads. */
module SessionScan {
  import opened Prelude
  import opened Text

  datatype Part = TextPart(text: string) | OtherPart

  datatype Content = Plain(text: string) | Parts(parts: seq<Part>)

  /** A line of a session file; `Ignored` covers blank lines, text that is not JSON, and other entry types and roles. */
  datatype Line =
    | Ignored
    | ModelChange(provider: Option<string>, modelId: Option<string>)
    | Snapshot(provider: Option<string>, modelId: Option<string>)
    | UserMessage(content: Content)
    | AssistantMessage(id: Option<string>, content: Content)

  /** The parts of the gateway format that are parameters: user-text extraction and the id of an unnamed entry. */
  datatype Gateway = Gateway(extract: string -> Option<string>, hashId: string -> string)

  /** A recorded exchange; `index` is the line of its assistant entry. */
  datatype Turn = Turn(index: nat, id: string, user: string, response: string, provider: string, model: string)

  /** `last_user_message`, `session_model_info` and the turns recorded so far. */
  datatype Scan = Scan(pending: Option<string>, provider: Option<string>, model: Option<string>, turns: seq<Turn>)

  const UNKNOWN := "unknown"

  function JoinTexts(parts: seq<Part>): string {
    if parts == [] then ""
    else
      var front, last := parts[..|parts| - 1], parts[|parts| - 1];
      match last
      case OtherPart => JoinTexts(front)
      case TextPart(t) => if exists p <- front :: p.TextPart? then JoinTexts(front) + "\n" + t else t
  }

  /** The texts among the parts, in order. */
  function Texts(parts: seq<Part>): seq<string> {
    if parts == [] then []
    else (if parts[0].TextPart? then [parts[0].text] else []) + Texts(parts[1..])
  }

  /** The texts one after the other with a newline between neighbours. */
  function Lines(texts: seq<string>): string {
    if texts == [] then ""
    else if |texts| == 1 then texts[0]
    else texts[0] + "\n" + Lines(texts[1..])
  }

  /** Content given in parts reads as its text parts in order, joined by newlines. */
  lemma {:induction false} JoinedInOrder(parts: seq<Part>)
    ensures JoinTexts(parts) == Lines(Texts(parts))
    ensures (exists p <- parts :: p.TextPart?) <==> Texts(parts) != []
  {
    if parts != [] {
      var front, last := parts[..|parts| - 1], parts[|parts| - 1];
      assert parts == front + [last];
      JoinedInOrder(front);
      TextsAppend(front, last);
      if last.TextPart? {
        LinesAppend(Texts(front), last.text);
      } else {
        assert Texts(front) + [] == Texts(front);
      }
    }
  }

  lemma {:induction false} TextsAppend(parts: seq<Part>, last: Part)
    ensures Texts(parts + [last]) == Texts(parts) + if last.TextPart? then [last.text] else []
  {
    if parts != [] {
      assert (parts + [last])[1..] == parts[1..] + [last];
      TextsAppend(parts[1..], last);
    }
  }

  lemma {:induction false} LinesAppend(texts: seq<string>, last: string)
    ensures Lines(texts + [last]) == if texts == [] then last else Lines(texts) + "\n" + last
  {
    if texts != [] {
      assert (texts + [last])[1..] == texts[1..] + [last];
      LinesAppend(texts[1..], last);
    }
  }

  function TextOf(c: Content): string {
    match c
    case Plain(t) => t
    case Parts(ps) => JoinTexts(ps)
  }

  /** The user text a line brings, if it brings any. */
  function UserText(g: Gateway, l: Line): (u: Option<string>)
    ensures u.Some? ==> l.UserMessage?
  {
    if !l.UserMessage? then None
    else
      var found := g.extract(TextOf(l.content));
      if found.Some? && found.value != "" then found else None
  }

  /** Whether a line is an assistant entry with more than white space in it. */
  predicate IsReply(l: Line) {
    l.AssistantMessage? && Strip(TextOf(l.content)) != ""
  }

  function EntryId(g: Gateway, l: Line): string
    requires l.AssistantMessage?
  {
    OrElse(l.id, g.hashId(TextOf(l.content)))
  }

  /** The turn that an assistant entry at `index` completes for a pending user message. */
  function TurnAt(g: Gateway, s: Scan, l: Line, index: nat): Turn
    requires s.pending.Some? && l.AssistantMessage?
  {
    Turn(index, EntryId(g, l), s.pending.value, TextOf(l.content), OrElse(s.provider, UNKNOWN),
        OrElse(s.model, UNKNOWN))
  }

  function Next(g: Gateway, s: Scan, l: Line, index: nat): Scan {
    match l
    case Ignored => s
    case ModelChange(p, m) => s.(provider := Some(OrElse(p, UNKNOWN)), model := Some(OrElse(m, UNKNOWN)))
    case Snapshot(p, m) =>
      s.(provider := Some(OrElse(p, OrElse(s.provider, UNKNOWN))), model := Some(OrElse(m, OrElse(s.model, UNKNOWN))))
    case UserMessage(_) =>
      if UserText(g, l).Some? then s.(pending := UserText(g, l)) else s
    case AssistantMessage(_, _) =>
      if s.pending.Some? && IsReply(l) then s.(pending := None, turns := s.turns + [TurnAt(g, s, l, index)]) else s
  }

  /** A scan of the lines from `from` up to `end`: every scan starts with nothing pending and no model known. */
  function ScanOf(g: Gateway, lines: seq<Line>, from: nat, end: nat): Scan
    requires end <= |lines|
  {
    if end <= from then Scan(None, None, None, [])
    else Next(g, ScanOf(g, lines, from, end - 1), lines[end - 1], end - 1)
  }

  // ---------- what windows have to do with the whole file ----------

  /** A turn without its model attribution. */
  datatype Exchange = Exchange(index: nat, id: string, user: string, response: string)

  function ExchangeOf(t: Turn): Exchange {
    Exchange(t.index, t.id, t.user, t.response)
  }

  function Exchanges(ts: seq<Turn>): (es: seq<Exchange>)
    ensures |es| == |ts|
    ensures forall i :: 0 <= i < |es| ==> es[i] == ExchangeOf(ts[i])
  {
    seq(|ts|, i requires 0 <= i < |ts| => ExchangeOf(ts[i]))
  }

  /** Recorded indices lie in the window and increase. */
  lemma {:induction false} IndicesIncrease(g: Gateway, lines: seq<Line>, from: nat, end: nat)
    requires end <= |lines|
    ensures var ts := ScanOf(g, lines, from, end).turns;
            && (forall t <- ts :: from <= t.index < end)
            && (forall i, j :: 0 <= i < j < |ts| ==> ts[i].index < ts[j].index)
  {
    if end > from {
      IndicesIncrease(g, lines, from, end - 1);
      var before, ts := ScanOf(g, lines, from, end - 1).turns, ScanOf(g, lines, from, end).turns;
      assert ts == before || (|ts| == |before| + 1 && ts[..|before|] == before && ts[|before|].index == end - 1);
      assert forall i :: 0 <= i < |before| ==> ts[i] == before[i] && before[i] in before;
    }
  }

  /** A message pending at the end of a window is pending there in every wider window. */
  lemma {:induction false} PendingInWider(g: Gateway, lines: seq<Line>, from: nat, late: nat, end: nat)
    requires from <= late && end <= |lines| && ScanOf(g, lines, late, end).pending.Some?
    ensures ScanOf(g, lines, from, end).pending == ScanOf(g, lines, late, end).pending
    decreases end
  {
    var l := lines[end - 1];
    if UserText(g, l).None? {
      PendingInWider(g, lines, from, late, end - 1);
    }
  }

  /** Whatever a window records, a scan of a wider window records at the same line with the same texts. */
  lemma {:induction false} WindowIsPartOfWider(g: Gateway, lines: seq<Line>, from: nat, late: nat, end: nat)
    requires from <= late && end <= |lines|
    ensures forall e <- Exchanges(ScanOf(g, lines, late, end).turns) ::
              e in Exchanges(ScanOf(g, lines, from, end).turns)
  {
    if end > late {
      WindowIsPartOfWider(g, lines, from, late, end - 1);
      var narrow, wide := ScanOf(g, lines, late, end - 1), ScanOf(g, lines, from, end - 1);
      if narrow.pending.Some? {
        PendingInWider(g, lines, from, late, end - 1);
      }
      NextExchanges(g, narrow, lines[end - 1], end - 1);
      NextExchanges(g, wide, lines[end - 1], end - 1);
    }
  }

  function Completed(g: Gateway, pending: Option<string>, l: Line, index: nat): seq<Exchange> {
    if pending.Some? && IsReply(l) then [Exchange(index, EntryId(g, l), pending.value, TextOf(l.content))] else []
  }

  lemma NextExchanges(g: Gateway, s: Scan, l: Line, index: nat)
    ensures Exchanges(Next(g, s, l, index).turns) == Exchanges(s.turns) + Completed(g, s.pending, l, index)
  {
    hide Strip, TextOf;
  }

  /** Whether a line brings a user text or a reply. */
  predicate Speaks(g: Gateway, l: Line) {
    UserText(g, l).Some? || IsReply(l)
  }

  /** The first line from `mid` on that speaks; `end` when none does. */
  function FirstSpoken(g: Gateway, lines: seq<Line>, mid: nat, end: nat): (k: nat)
    requires mid <= end <= |lines|
    ensures mid <= k <= end && (k < end ==> Speaks(g, lines[k]))
    ensures forall i :: mid <= i < k ==> !Speaks(g, lines[i])
    decreases end - mid
  {
    if mid == end || Speaks(g, lines[mid]) then mid else FirstSpoken(g, lines, mid + 1, end)
  }

  /** The exchange lost when a window ends at `mid` with a message pending and the next to speak is the assistant. */
  function Lost(g: Gateway, lines: seq<Line>, from: nat, mid: nat, end: nat): seq<Exchange>
    requires from <= mid <= end <= |lines|
  {
    var k := FirstSpoken(g, lines, mid, end);
    if k == end then [] else Completed(g, ScanOf(g, lines, from, mid).pending, lines[k], k)
  }

  lemma {:induction false} PendingAfterSplit(g: Gateway, lines: seq<Line>, from: nat, mid: nat, end: nat)
    requires from <= mid <= end <= |lines|
    ensures var whole, second := ScanOf(g, lines, from, end), ScanOf(g, lines, mid, end);
            if FirstSpoken(g, lines, mid, end) == end
            then whole.pending == ScanOf(g, lines, from, mid).pending && second.pending.None? && second.turns == []
            else whole.pending == second.pending
    decreases end
  {
    if end > mid {
      PendingAfterSplit(g, lines, from, mid, end - 1);
      FirstSpokenGrows(g, lines, mid, end);
      hide FirstSpoken, IsReply, TurnAt;
    }
  }

  /**
   Splitting a window in two loses at most one exchange: exactly the reply that the second part opens
   with when the first part ends in a pending message.
   */
  lemma {:induction false} SplitLosesOne(g: Gateway, lines: seq<Line>, from: nat, mid: nat, end: nat)
    requires from <= mid <= end <= |lines|
    ensures Exchanges(ScanOf(g, lines, from, end).turns)
         == Exchanges(ScanOf(g, lines, from, mid).turns) + Lost(g, lines, from, mid, end)
             + Exchanges(ScanOf(g, lines, mid, end).turns)
    decreases end
  {
    hide *;
    var first := Exchanges(ScanOf(g, lines, from, mid).turns);
    if end > mid {
      SplitLosesOne(g, lines, from, mid, end - 1);
      var whole, second := ScanOf(g, lines, from, end - 1), ScanOf(g, lines, mid, end - 1);
      LineAdds(g, lines, from, end);
      LineAdds(g, lines, mid, end);
      LostGrows(g, lines, from, mid, end);
      Regroup(first, Lost(g, lines, from, mid, end - 1), Lost(g, lines, from, mid, end), Exchanges(second.turns),
          Completed(g, whole.pending, lines[end - 1], end - 1), Completed(g, second.pending, lines[end - 1], end - 1));
    } else {
      NothingLost(g, lines, from, mid);
      assert first + [] + [] == first;
    }
  }

  lemma LineAdds(g: Gateway, lines: seq<Line>, from: nat, end: nat)
    requires from < end <= |lines|
    ensures var before := ScanOf(g, lines, from, end - 1);
            Exchanges(ScanOf(g, lines, from, end).turns)
            == Exchanges(before.turns) + Completed(g, before.pending, lines[end - 1], end - 1)
  {
    NextExchanges(g, ScanOf(g, lines, from, end - 1), lines[end - 1], end - 1);
  }

  lemma NothingLost(g: Gateway, lines: seq<Line>, from: nat, mid: nat)
    requires from <= mid <= |lines|
    ensures Lost(g, lines, from, mid, mid) == [] && Exchanges(ScanOf(g, lines, mid, mid).turns) == []
  {
  }

  /** One more line completes the same in the whole and in the second part, unless it opens that part and is lost. */
  lemma LostGrows(g: Gateway, lines: seq<Line>, from: nat, mid: nat, end: nat)
    requires from <= mid < end <= |lines|
    ensures var whole, second := ScanOf(g, lines, from, end - 1), ScanOf(g, lines, mid, end - 1);
            var c, d := Completed(g, whole.pending, lines[end - 1], end - 1),
                        Completed(g, second.pending, lines[end - 1], end - 1);
            var before, after := Lost(g, lines, from, mid, end - 1), Lost(g, lines, from, mid, end);
            if FirstSpoken(g, lines, mid, end - 1) == end - 1
            then before == [] && Exchanges(second.turns) == [] && d == [] && after == c
            else after == before && c == d
  {
    PendingAfterSplit(g, lines, from, mid, end - 1);
    FirstSpokenGrows(g, lines, mid, end);
    hide FirstSpoken, IsReply, ScanOf, TextOf, EntryId, UserText;
  }

  lemma Regroup(a: seq<Exchange>, b: seq<Exchange>, b': seq<Exchange>, c: seq<Exchange>, d: seq<Exchange>,
      e: seq<Exchange>)
    ensures (b == c == e == [] && b' == d) || (b == b' && d == e) ==> a + b + c + d == a + b' + (c + e)
  {}

  lemma FirstSpokenGrows(g: Gateway, lines: seq<Line>, mid: nat, end: nat)
    requires mid < end <= |lines|
    ensures FirstSpoken(g, lines, mid, end) ==
            if FirstSpoken(g, lines, mid, end - 1) < end - 1 then FirstSpoken(g, lines, mid, end - 1)
            else if Speaks(g, lines[end - 1]) then end - 1 else end
  {
    hide Speaks;
  }

  /**
   Two windows record what one scan would exactly when no user message is pending at the boundary
   or the next line that speaks is not an assistant's.
   */
  lemma {:induction false} SplitIsExactIff(g: Gateway, lines: seq<Line>, from: nat, mid: nat, end: nat)
    requires from <= mid <= end <= |lines|
    ensures var k := FirstSpoken(g, lines, mid, end);
            Exchanges(ScanOf(g, lines, from, end).turns) == Exchanges(ScanOf(g, lines, from, mid).turns)
                + Exchanges(ScanOf(g, lines, mid, end).turns)
            <==> ScanOf(g, lines, from, mid).pending.None? || k == end || !IsReply(lines[k])
  {
    SplitLosesOne(g, lines, from, mid, end);
    hide ScanOf, FirstSpoken, IsReply, Exchanges;
  }

  /** A line that names the provider whatever was known before it: every model change, and a snapshot with that key. */
  predicate NamesProvider(l: Line) {
    l.ModelChange? || (l.Snapshot? && l.provider.Some?)
  }

  predicate NamesModel(l: Line) {
    l.ModelChange? || (l.Snapshot? && l.modelId.Some?)
  }

  /** The provider and the model that a turn right after the window would be recorded with. */
  function ProviderAfter(g: Gateway, lines: seq<Line>, from: nat, end: nat): string
    requires end <= |lines|
  {
    OrElse(ScanOf(g, lines, from, end).provider, UNKNOWN)
  }

  function ModelAfter(g: Gateway, lines: seq<Line>, from: nat, end: nat): string
    requires end <= |lines|
  {
    OrElse(ScanOf(g, lines, from, end).model, UNKNOWN)
  }

  /**
   A window attributes the provider that a wider one attributes exactly when some line of its own names
   it, or the lines before it leave it unknown.
   */
  lemma {:induction false} ProviderAgreesIff(g: Gateway, lines: seq<Line>, from: nat, mid: nat, end: nat)
    requires from <= mid <= end <= |lines|
    ensures ProviderAfter(g, lines, from, end) == ProviderAfter(g, lines, mid, end) <==>
            (exists c :: mid <= c < end && NamesProvider(lines[c])) || ProviderAfter(g, lines, from, mid) == UNKNOWN
    ensures (forall c :: mid <= c < end ==> !NamesProvider(lines[c])) ==>
              && ProviderAfter(g, lines, mid, end) == UNKNOWN
              && ProviderAfter(g, lines, from, end) == ProviderAfter(g, lines, from, mid)
    decreases end
  {
    if end > mid {
      ProviderAgreesIff(g, lines, from, mid, end - 1);
    }
  }

  /** The same for the model. */
  lemma {:induction false} ModelAgreesIff(g: Gateway, lines: seq<Line>, from: nat, mid: nat, end: nat)
    requires from <= mid <= end <= |lines|
    ensures ModelAfter(g, lines, from, end) == ModelAfter(g, lines, mid, end) <==>
            (exists c :: mid <= c < end && NamesModel(lines[c])) || ModelAfter(g, lines, from, mid) == UNKNOWN
    ensures (forall c :: mid <= c < end ==> !NamesModel(lines[c])) ==>
              && ModelAfter(g, lines, mid, end) == UNKNOWN
              && ModelAfter(g, lines, from, end) == ModelAfter(g, lines, from, mid)
    decreases end
  {
    if end > mid {
      ModelAgreesIff(g, lines, from, mid, end - 1);
    }
  }

  /** A turn carries the provider and the model known just before its line. */
  lemma {:induction false} TurnsCarryModel(g: Gateway, lines: seq<Line>, from: nat, end: nat)
    requires end <= |lines|
    ensures forall t <- ScanOf(g, lines, from, end).turns ::
              from <= t.index < end && t.provider == ProviderAfter(g, lines, from, t.index)
                  && t.model == ModelAfter(g, lines, from, t.index)
  {
    if end > from {
      TurnsCarryModel(g, lines, from, end - 1);
    }
  }

  /** Whether a line before `k` in the window names a value, or the lines before the window leave it unknown. */
  ghost predicate SettlesModel(g: Gateway, lines: seq<Line>, from: nat, mid: nat, k: nat)
    requires from <= mid <= k <= |lines|
  {
    && ((exists c :: mid <= c < k && NamesProvider(lines[c])) || ProviderAfter(g, lines, from, mid) == UNKNOWN)
    && ((exists c :: mid <= c < k && NamesModel(lines[c])) || ModelAfter(g, lines, from, mid) == UNKNOWN)
  }

  /**
   A window records a turn exactly as a wider one does, attribution and all, if and only if its
   model is settled by then.
   */
  lemma TurnIsSameIff(g: Gateway, lines: seq<Line>, from: nat, mid: nat, end: nat, t: Turn, wider: Turn)
    requires from <= mid <= end <= |lines|
    requires t in ScanOf(g, lines, mid, end).turns && wider in ScanOf(g, lines, from, end).turns
             && t.index == wider.index
    ensures mid <= t.index < end
    ensures t == wider <==> SettlesModel(g, lines, from, mid, t.index)
  {
    TurnsCarryModel(g, lines, mid, end);
    TurnsCarryModel(g, lines, from, end);
    ProviderAgreesIff(g, lines, from, mid, t.index);
    ModelAgreesIff(g, lines, from, mid, t.index);
    SameExchange(g, lines, from, mid, end, t, wider);
  }

  lemma SameExchange(g: Gateway, lines: seq<Line>, from: nat, mid: nat, end: nat, t: Turn, wider: Turn)
    requires from <= mid <= end <= |lines|
    requires t in ScanOf(g, lines, mid, end).turns && wider in ScanOf(g, lines, from, end).turns
             && t.index == wider.index
    ensures ExchangeOf(t) == ExchangeOf(wider)
  {
    var few, all := ScanOf(g, lines, mid, end).turns, ScanOf(g, lines, from, end).turns;
    WindowIsPartOfWider(g, lines, from, mid, end);
    IndicesIncrease(g, lines, from, end);
    hide ScanOf;
    var i :| 0 <= i < |few| && few[i] == t;
    var j :| 0 <= j < |all| && all[j] == wider;
    assert Exchanges(few)[i] in Exchanges(all);
    var k :| 0 <= k < |all| && Exchanges(all)[k] == ExchangeOf(t);
    assert all[k].index == all[j].index;
  }

  /** A failing input: the second window of this file no longer knows the provider and model set in the first. */
  lemma ModelForgotten(g: Gateway)
    requires g.extract("hi") == Some("hi")
    ensures var lines := [ModelChange(Some("acme"), Some("m1")), UserMessage(Plain("hi")),
              AssistantMessage(Some("e1"), Plain("ok"))];
            && ScanOf(g, lines, 0, 3).turns == [Turn(2, "e1", "hi", "ok", "acme", "m1")]
            && ScanOf(g, lines, 1, 3).turns == [Turn(2, "e1", "hi", "ok", UNKNOWN, UNKNOWN)]
  {
    var lines := [ModelChange(Some("acme"), Some("m1")), UserMessage(Plain("hi")),
        AssistantMessage(Some("e1"), Plain("ok"))];
    assert StripLeft("ok") == "ok" && StripRight("ok") == "ok";
    assert UserText(g, lines[1]) == Some("hi") && IsReply(lines[2]);
    assert ScanOf(g, lines, 0, 0) == ScanOf(g, lines, 1, 1) == Scan(None, None, None, []);
    assert ScanOf(g, lines, 0, 1) == Scan(None, Some("acme"), Some("m1"), []);
    assert ScanOf(g, lines, 0, 2) == Scan(Some("hi"), Some("acme"), Some("m1"), []);
    assert ScanOf(g, lines, 1, 2) == Scan(Some("hi"), None, None, []);
  }
}
