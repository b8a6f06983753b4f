/** Which turns a scan records, told from the lines alone. */
module SessionTurns {
  import opened Prelude
  import opened SessionScan

  /** What a turn depends on: lines that bring a user text or a reply, and lines that name provider or model. */
  datatype Kind = Speaking(g: Gateway) | NamingProvider | NamingModel

  predicate Is(kind: Kind, l: Line) {
    match kind
    case Speaking(g) => Speaks(g, l)
    case NamingProvider => NamesProvider(l)
    case NamingModel => NamesModel(l)
  }

  /** The last line of the kind in the window, if any. */
  function LastOf(kind: Kind, lines: seq<Line>, from: nat, end: nat): (last: Option<nat>)
    requires end <= |lines|
    ensures last.Some? ==> from <= last.value < end && Is(kind, lines[last.value])
    ensures last.Some? ==> forall i :: last.value < i < end ==> !Is(kind, lines[i])
    ensures last.None? ==> forall i :: from <= i < end ==> !Is(kind, lines[i])
  {
    if end <= from then None
    else if Is(kind, lines[end - 1]) then Some(end - 1)
    else LastOf(kind, lines, from, end - 1)
  }

  /** What waits for a reply is the text of the last line that spoke, if that was the user's. */
  lemma {:induction false} PendingMeaning(g: Gateway, lines: seq<Line>, from: nat, end: nat)
    requires end <= |lines|
    ensures var u := LastOf(Speaking(g), lines, from, end);
            ScanOf(g, lines, from, end).pending == if u.Some? then UserText(g, lines[u.value]) else None
  {
    if from < end {
      PendingMeaning(g, lines, from, end - 1);
    }
  }

  /** A line that names the provider counts until another does; nothing named means unknown. */
  lemma {:induction false} ProviderMeaning(g: Gateway, lines: seq<Line>, from: nat, end: nat)
    requires end <= |lines|
    ensures var u := LastOf(NamingProvider, lines, from, end);
            ProviderAfter(g, lines, from, end) == if u.Some? then OrElse(lines[u.value].provider, UNKNOWN) else UNKNOWN
  {
    hide UserText, IsReply, TurnAt;
    if from < end {
      ProviderMeaning(g, lines, from, end - 1);
    }
  }

  lemma {:induction false} ModelMeaning(g: Gateway, lines: seq<Line>, from: nat, end: nat)
    requires end <= |lines|
    ensures var u := LastOf(NamingModel, lines, from, end);
            ModelAfter(g, lines, from, end) == if u.Some? then OrElse(lines[u.value].modelId, UNKNOWN) else UNKNOWN
  {
    hide UserText, IsReply, TurnAt;
    if from < end {
      ModelMeaning(g, lines, from, end - 1);
    }
  }

  /** The turn belongs to a reply of the window, and the last line to speak before that was the user's. */
  ghost predicate IsAnswer(g: Gateway, lines: seq<Line>, from: nat, end: nat, t: Turn)
    requires end <= |lines|
  {
    && from <= t.index < end && IsReply(lines[t.index])
    && var u, reply := LastOf(Speaking(g), lines, from, t.index), lines[t.index];
    && u.Some? && UserText(g, lines[u.value]) == Some(t.user)
    && t.response == TextOf(reply.content) && t.id == OrElse(reply.id, g.hashId(t.response))
    && t.provider == ProviderAfter(g, lines, from, t.index) && t.model == ModelAfter(g, lines, from, t.index)
  }

  /** A scan records exactly the replies that answer a user's text, each with that text and its own. */
  lemma {:induction false} TurnsMeaning(g: Gateway, lines: seq<Line>, from: nat, end: nat, t: Turn)
    requires end <= |lines|
    ensures t in ScanOf(g, lines, from, end).turns <==> IsAnswer(g, lines, from, end, t)
  {
    if from < end {
      TurnsMeaning(g, lines, from, end - 1, t);
      PendingMeaning(g, lines, from, end - 1);
      hide LastOf, TextOf, UserText;
    }
  }
}
