/** The list views over `/api/chat/historicos` summaries: the two history
    panel renderers of the chat page (`renderHistoryList`, reached from the
    history button, and `renderizarListaHistorico`, reached from the refresh
    button and after a title or delete action, both in public/app.js) and
    the all-history page (`renderAllHistoricos` in public/all-history.js).
    Each summary becomes a card with a title, a preview, the message count
    and the formatted duration; an empty list becomes a placeholder. The
    clock time of `startTime`, formatted by the browser's locale, is not
    part of a card here. As written the pages send their requests without
    an Authorization header and the admin gate refuses them (see
    `AdminAuth.PageRequestDenied`), so these views describe what the pages
    would show for a listing that got through. */
module AllHistory {
  import opened Common
  import HistoryStore
  import DurationFormat

  const EmptyList: string := "Nenhuma conversa encontrada"
  const NoPreview: string := "Sem prévia disponível"
  const NoHistory: string := "Nenhum histórico encontrado"
  const TitlePrefix: string := "Conversa "

  /** The title shown for a session without one: its id's first eight
      characters. */
  function FallbackTitle(sessionId: string): (r: string)
    ensures var n := if |sessionId| < 8 then |sessionId| else 8;
      && |r| == |TitlePrefix| + n + 3
      && r[..|TitlePrefix|] == TitlePrefix
      && r[|TitlePrefix|..|TitlePrefix| + n] == sessionId[..n]
      && r[|r| - 3..] == "..."
  {
    var r := TitlePrefix + Prefix(sessionId, 8) + "...";
    assert r[..|TitlePrefix|] == TitlePrefix;
    assert r[|TitlePrefix|..|r| - 3] == Prefix(sessionId, 8);
    r
  }

  /** `session.titulo || \`Conversa ${...}...\``: a missing or empty title
      falls back to the id. */
  function DisplayTitle(s: HistoryStore.Summary): (r: string)
    ensures s.titulo.Some? && s.titulo.value != [] ==> r == s.titulo.value
    ensures s.titulo.None? || s.titulo.value == [] ==> r == FallbackTitle(s.sessionId)
  {
    if s.titulo.Some? && s.titulo.value != [] then s.titulo.value else FallbackTitle(s.sessionId)
  }

  /** `session.preview || 'Sem prévia disponível'`. */
  function DisplayPreview(s: HistoryStore.Summary): (r: string)
    ensures s.preview != [] ==> r == s.preview
    ensures s.preview == [] ==> r == NoPreview
    ensures r != []
  {
    if s.preview != [] then s.preview else NoPreview
  }

  datatype Card = Card(sessionId: string, selected: bool, title: string, preview: string,
                       messageCount: nat, duration: string)

  datatype View = Placeholder(text: string) | Cards(cards: seq<Card>)

  /** One card: the summary's id and count, a title and a preview that are
      never blank, and the duration text. */
  function CardOf(s: HistoryStore.Summary, selected: bool): (r: Card)
    ensures r.sessionId == s.sessionId && r.selected == selected && r.messageCount == s.messageCount
    ensures r.title != [] && r.preview != []
    ensures r.duration != [] && r.duration[|r.duration| - 1] == 's'
  {
    Card(s.sessionId, selected, DisplayTitle(s), DisplayPreview(s), s.messageCount,
         DurationFormat.FormatDuration(Some(s.duration)))
  }

  /** `renderAllHistoricos(sessions)` (public/all-history.js:8-34). */
  function RenderAll(sessions: seq<HistoryStore.Summary>): (r: View)
    ensures sessions == [] <==> r == Placeholder(EmptyList)
    ensures r.Cards? ==> |r.cards| == |sessions|
    ensures r.Cards? ==>
      forall i :: 0 <= i < |sessions| ==>
        && r.cards[i].sessionId == sessions[i].sessionId
        && !r.cards[i].selected
        && r.cards[i].title == DisplayTitle(sessions[i])
        && r.cards[i].preview == DisplayPreview(sessions[i])
        && r.cards[i].messageCount == sessions[i].messageCount
        && r.cards[i].duration == DurationFormat.FormatDuration(Some(sessions[i].duration))
  {
    if sessions == [] then Placeholder(EmptyList)
    else Cards(seq(|sessions|, i requires 0 <= i < |sessions| => CardOf(sessions[i], false)))
  }

  /** `renderizarListaHistorico()` (public/app.js:50-79), which
      `carregarHistorico` calls after the refresh button and after a title
      or delete action: the same cards, the one of the session currently
      open marked as selected. */
  function RenderPanel(sessions: seq<HistoryStore.Summary>, current: Option<string>): (r: View)
    ensures sessions == [] <==> r == Placeholder(EmptyList)
    ensures r.Cards? ==> |r.cards| == |sessions|
    ensures r.Cards? ==>
      forall i :: 0 <= i < |sessions| ==>
        && r.cards[i] == CardOf(sessions[i], r.cards[i].selected)
        && (r.cards[i].selected <==> current == Some(sessions[i].sessionId))
  {
    if sessions == [] then Placeholder(EmptyList)
    else Cards(seq(|sessions|, i requires 0 <= i < |sessions| =>
                     CardOf(sessions[i], current == Some(sessions[i].sessionId))))
  }

  /** `renderHistoryList(sessions)` (public/app.js:625-666), which the history
      button reaches through `toggleHistoryPanel` and `loadHistoryList`: its
      own placeholder, and the preview shown as it came, with no fallback. */
  function RenderHistoryList(sessions: seq<HistoryStore.Summary>, current: Option<string>): (r: View)
    ensures sessions == [] <==> r == Placeholder(NoHistory)
    ensures r.Cards? ==> |r.cards| == |sessions|
    ensures r.Cards? ==>
      forall i :: 0 <= i < |sessions| ==>
        && r.cards[i].sessionId == sessions[i].sessionId
        && (r.cards[i].selected <==> current == Some(sessions[i].sessionId))
        && r.cards[i].title == DisplayTitle(sessions[i])
        && r.cards[i].preview == sessions[i].preview
        && r.cards[i].messageCount == sessions[i].messageCount
        && r.cards[i].duration == DurationFormat.FormatDuration(Some(sessions[i].duration))
  {
    if sessions == [] then Placeholder(NoHistory)
    else Cards(seq(|sessions|, i requires 0 <= i < |sessions| =>
                     var s := sessions[i];
                     Card(s.sessionId, current == Some(s.sessionId), DisplayTitle(s), s.preview,
                          s.messageCount, DurationFormat.FormatDuration(Some(s.duration)))))
  }

  /** The two panel renderers agree on a card exactly when its preview is
      not empty; an empty list gets a different placeholder from each. */
  lemma HistoryListMatchesPanel(sessions: seq<HistoryStore.Summary>, current: Option<string>)
    ensures sessions == [] ==> RenderHistoryList(sessions, current) != RenderPanel(sessions, current)
    ensures sessions != [] ==>
      var h := RenderHistoryList(sessions, current);
      var p := RenderPanel(sessions, current);
      && h.Cards? && p.Cards? && |h.cards| == |p.cards|
      && forall i :: 0 <= i < |h.cards| ==> (h.cards[i] == p.cards[i] <==> sessions[i].preview != [])
  {
    if sessions == [] {
      assert NoHistory[8] != EmptyList[8];
    }
  }

  /** Both views show the same cards but for the selection mark. */
  lemma PanelMatchesAllHistory(sessions: seq<HistoryStore.Summary>, current: Option<string>)
    requires sessions != []
    ensures var p := RenderPanel(sessions, current);
      var a := RenderAll(sessions);
      && p.Cards? && a.Cards? && |p.cards| == |a.cards|
      && forall i :: 0 <= i < |p.cards| ==> p.cards[i].(selected := false) == a.cards[i]
  {
  }

  /** A listing built from the session file never carries a title, so both
      views show every listed session under its fallback title, even one
      whose stored record has a title set by the title update. */
  lemma ListedTitleIsFallback(s: HistoryStore.Session)
    requires HistoryStore.Summarize(s).Some?
    ensures DisplayTitle(HistoryStore.Summarize(s).value) == FallbackTitle(s.sessionId)
  {
  }

  /** The listing's preview is never empty (it is either "Sem mensagens" or
      ends in "..."), so the "Sem prévia disponível" fallback never shows
      for a listed session, and the card shows the server's preview. */
  lemma ListedPreviewShownAsIs(s: HistoryStore.Session)
    requires HistoryStore.Summarize(s).Some?
    ensures DisplayPreview(HistoryStore.Summarize(s).value) == HistoryStore.Summarize(s).value.preview
    ensures DisplayPreview(HistoryStore.Summarize(s).value) != NoPreview
  {
    var p := HistoryStore.Summarize(s).value.preview;
    assert p == HistoryStore.NoMessages || p[|p| - 3..] == HistoryStore.Ellipsis;
  }
}
