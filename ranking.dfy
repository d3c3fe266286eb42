/** The in-memory bot ranking (`dadosRankingVitrine`) behind
    POST /api/ranking/registrar-acesso-bot and GET /api/ranking/visualizar.
    server_novo.js and server.js carry the same code. */
module Ranking {
  import opened Common
  import Sorting

  datatype Entry = Entry(botId: string, nomeBot: string, contagem: int, ultimoAcesso: int)

  /** The sort key of `(a, b) => b.contagem - a.contagem`. */
  function Count(e: Entry): int {
    e.contagem
  }

  predicate DistinctIds(s: seq<Entry>) {
    forall i, j :: 0 <= i < j < |s| ==> s[i].botId != s[j].botId
  }

  predicate PositiveCounts(s: seq<Entry>) {
    forall i :: 0 <= i < |s| ==> s[i].contagem >= 1
  }

  /** What the handlers keep true of the table between requests. */
  predicate WellOrdered(s: seq<Entry>) {
    Sorting.NonIncreasing(s, Count) && DistinctIds(s) && PositiveCounts(s)
  }

  /** `find(bot => bot.botId === botId)`, as an index. */
  function IndexOfBot(s: seq<Entry>, botId: string): (r: int)
    ensures -1 <= r < |s|
    ensures r == -1 <==> forall i :: 0 <= i < |s| ==> s[i].botId != botId
    ensures r >= 0 ==> s[r].botId == botId && forall j :: 0 <= j < r ==> s[j].botId != botId
  {
    if s == [] then -1
    else if s[0].botId == botId then 0
    else
      var k := IndexOfBot(s[1..], botId);
      if k < 0 then -1 else k + 1
  }

  function FindBot(s: seq<Entry>, botId: string): Option<Entry> {
    var i := IndexOfBot(s, botId);
    if i >= 0 then Some(s[i]) else None
  }

  function Sum(s: seq<Entry>): int {
    if s == [] then 0 else s[0].contagem + Sum(s[1..])
  }

  /** `timestampAcesso ? new Date(timestampAcesso) : new Date()`. */
  function AccessTime(timestampAcesso: Option<int>, now: int): int {
    timestampAcesso.GetOr(now)
  }

  /** The table after the find, the increment or push, and before the sort. */
  function Bumped(s: seq<Entry>, botId: string, nomeBot: string, at: int): (r: seq<Entry>)
    ensures |r| == if IndexOfBot(s, botId) >= 0 then |s| else |s| + 1
    ensures forall j :: 0 <= j < |r| ==> r[j].botId == botId || (j < |s| && r[j] == s[j])
    ensures IndexOfBot(s, botId) < 0 ==> r[|s|] == Entry(botId, nomeBot, 1, at)
    ensures IndexOfBot(s, botId) >= 0 ==>
      var i := IndexOfBot(s, botId);
      r[i] == Entry(botId, s[i].nomeBot, s[i].contagem + 1, at)
  {
    var i := IndexOfBot(s, botId);
    if i >= 0 then s[i := s[i].(contagem := s[i].contagem + 1, ultimoAcesso := at)]
    else s + [Entry(botId, nomeBot, 1, at)]
  }

  /** The table after a successful registration. */
  function Registered(s: seq<Entry>, botId: string, nomeBot: string, at: int): (r: seq<Entry>)
    ensures multiset(r) == multiset(Bumped(s, botId, nomeBot, at))
    ensures Sorting.NonIncreasing(r, Count)
  {
    Sorting.SortDesc(Bumped(s, botId, nomeBot, at), Count)
  }

  // ---------------------------------------------------------------------
  // Sums

  lemma {:induction false} SumAppend(s: seq<Entry>, e: Entry)
    ensures Sum(s + [e]) == Sum(s) + e.contagem
  {
    if s != [] {
      assert (s + [e])[1..] == s[1..] + [e];
      SumAppend(s[1..], e);
    }
  }

  lemma {:induction false} SumUpdate(s: seq<Entry>, i: nat, e: Entry)
    requires i < |s|
    ensures Sum(s[i := e]) == Sum(s) - s[i].contagem + e.contagem
  {
    if i > 0 {
      assert s[i := e][1..] == s[1..][i - 1 := e];
      SumUpdate(s[1..], i - 1, e);
    }
  }

  lemma {:induction false} SumInsert(x: Entry, s: seq<Entry>)
    requires Sorting.NonIncreasing(s, Count)
    ensures Sum(Sorting.InsertDesc(x, s, Count)) == x.contagem + Sum(s)
  {
    if s != [] && s[0].contagem > x.contagem {
      SumInsert(x, s[1..]);
    }
  }

  /** Sorting moves entries around without changing the total. */
  lemma {:induction false} SumSort(s: seq<Entry>)
    ensures Sum(Sorting.SortDesc(s, Count)) == Sum(s)
  {
    if s != [] {
      SumSort(s[1..]);
      SumInsert(s[0], Sorting.SortDesc(s[1..], Count));
    }
  }

  // ---------------------------------------------------------------------
  // Distinct ids

  lemma {:induction false} InsertKeepsDistinct(x: Entry, s: seq<Entry>)
    requires Sorting.NonIncreasing(s, Count)
    requires DistinctIds(s)
    requires forall i :: 0 <= i < |s| ==> s[i].botId != x.botId
    ensures DistinctIds(Sorting.InsertDesc(x, s, Count))
  {
    if s != [] && s[0].contagem > x.contagem {
      InsertKeepsDistinct(x, s[1..]);
      var t := Sorting.InsertDesc(x, s[1..], Count);
      forall j | 0 <= j < |t| ensures t[j].botId != s[0].botId {
        assert t[j] in multiset(t);
        assert t[j] == x || t[j] in s[1..];
      }
      ConsDistinct(s[0], t);
      assert Sorting.InsertDesc(x, s, Count) == [s[0]] + t;
    } else {
      ConsDistinct(x, s);
    }
  }

  lemma ConsDistinct(e: Entry, t: seq<Entry>)
    requires DistinctIds(t)
    requires forall j :: 0 <= j < |t| ==> t[j].botId != e.botId
    ensures DistinctIds([e] + t)
  {
    var r := [e] + t;
    forall i, j | 0 <= i < j < |r| ensures r[i].botId != r[j].botId {
      assert r[j] == t[j - 1];
      if i > 0 {
        assert r[i] == t[i - 1];
      }
    }
  }

  lemma {:induction false} SortKeepsDistinct(s: seq<Entry>)
    requires DistinctIds(s)
    ensures DistinctIds(Sorting.SortDesc(s, Count))
  {
    if s != [] {
      SortKeepsDistinct(s[1..]);
      var t := Sorting.SortDesc(s[1..], Count);
      forall j | 0 <= j < |t| ensures t[j].botId != s[0].botId {
        assert t[j] in multiset(s[1..]);
      }
      InsertKeepsDistinct(s[0], t);
    }
  }

  /** In a table with distinct ids, an entry is what `find` returns for its id. */
  lemma FindDistinct(s: seq<Entry>, x: Entry)
    requires DistinctIds(s) && x in s
    ensures FindBot(s, x.botId) == Some(x)
  {
  }

  // ---------------------------------------------------------------------
  // Registration

  lemma BumpedProperties(s: seq<Entry>, botId: string, nomeBot: string, at: int)
    requires DistinctIds(s) && PositiveCounts(s)
    ensures var b := Bumped(s, botId, nomeBot, at);
      && DistinctIds(b) && PositiveCounts(b) && Sum(b) == Sum(s) + 1
  {
    var i := IndexOfBot(s, botId);
    var b := Bumped(s, botId, nomeBot, at);
    if i >= 0 {
      assert b == s[i := s[i].(contagem := s[i].contagem + 1, ultimoAcesso := at)];
      BumpAt(s, i, at);
    } else {
      assert b == s + [Entry(botId, nomeBot, 1, at)];
      AddEntry(s, Entry(botId, nomeBot, 1, at));
    }
  }

  /** Bumping the entry at `i` keeps ids distinct and counts positive. */
  lemma BumpAt(s: seq<Entry>, i: nat, at: int)
    requires DistinctIds(s) && PositiveCounts(s) && i < |s|
    ensures var b := s[i := s[i].(contagem := s[i].contagem + 1, ultimoAcesso := at)];
      && DistinctIds(b) && PositiveCounts(b) && Sum(b) == Sum(s) + 1
  {
    SumUpdate(s, i, s[i].(contagem := s[i].contagem + 1, ultimoAcesso := at));
  }

  /** Adding an entry with a fresh id and a count of one. */
  lemma AddEntry(s: seq<Entry>, e: Entry)
    requires DistinctIds(s) && PositiveCounts(s) && e.contagem == 1
    requires forall j :: 0 <= j < |s| ==> s[j].botId != e.botId
    ensures DistinctIds(s + [e]) && PositiveCounts(s + [e]) && Sum(s + [e]) == Sum(s) + 1
  {
    SumAppend(s, e);
  }

  /** After any registration the table is sorted by `contagem`, non-increasing,
      every id appears once, every count is positive, and the total count
      has grown by exactly one. */
  lemma RegisteredWellOrdered(s: seq<Entry>, botId: string, nomeBot: string, at: int)
    requires WellOrdered(s)
    ensures WellOrdered(Registered(s, botId, nomeBot, at))
    ensures Sum(Registered(s, botId, nomeBot, at)) == Sum(s) + 1
  {
    var b := Bumped(s, botId, nomeBot, at);
    BumpedProperties(s, botId, nomeBot, at);
    SortKeepsDistinct(b);
    SumSort(b);
    var r := Registered(s, botId, nomeBot, at);
    forall i | 0 <= i < |r| ensures r[i].contagem >= 1 {
      assert r[i] in multiset(b);
    }
  }

  /** A known bot: its count rises by exactly one and its last access is
      updated; its name is kept and no entry is added. */
  lemma RegisterExistingBot(s: seq<Entry>, botId: string, nomeBot: string, at: int)
    requires WellOrdered(s)
    requires FindBot(s, botId).Some?
    ensures var old_ := FindBot(s, botId).value;
      && |Registered(s, botId, nomeBot, at)| == |s|
      && FindBot(Registered(s, botId, nomeBot, at), botId) ==
           Some(Entry(botId, old_.nomeBot, old_.contagem + 1, at))
  {
    BumpedProperties(s, botId, nomeBot, at);
    ExistingBotFound(s, botId, nomeBot, at);
  }

  lemma ExistingBotFound(s: seq<Entry>, botId: string, nomeBot: string, at: int)
    requires FindBot(s, botId).Some?
    requires DistinctIds(Bumped(s, botId, nomeBot, at))
    ensures var old_ := FindBot(s, botId).value;
      && |Registered(s, botId, nomeBot, at)| == |s|
      && FindBot(Registered(s, botId, nomeBot, at), botId) ==
           Some(Entry(botId, old_.nomeBot, old_.contagem + 1, at))
  {
    var i := IndexOfBot(s, botId);
    var b := Bumped(s, botId, nomeBot, at);
    BumpedAt(s, botId, nomeBot, at);
    SortKeepsDistinct(b);
    FoundAfterSort(b, i);
  }

  /** A known bot's entry, bumped where it stands. */
  lemma BumpedAt(s: seq<Entry>, botId: string, nomeBot: string, at: int)
    requires IndexOfBot(s, botId) >= 0
    ensures var i := IndexOfBot(s, botId);
      var b := Bumped(s, botId, nomeBot, at);
      && |b| == |s| && b[i] == Entry(botId, s[i].nomeBot, s[i].contagem + 1, at)
  {
  }

  /** Once sorted, a table with distinct ids still has each of its entries
      under its id. */
  lemma FoundAfterSort(b: seq<Entry>, k: nat)
    requires k < |b|
    requires DistinctIds(Sorting.SortDesc(b, Count))
    ensures FindBot(Sorting.SortDesc(b, Count), b[k].botId) == Some(b[k])
  {
    assert b[k] in multiset(b);
    FindDistinct(Sorting.SortDesc(b, Count), b[k]);
  }

  /** A new bot: one entry with count 1 is added. */
  lemma RegisterNewBot(s: seq<Entry>, botId: string, nomeBot: string, at: int)
    requires WellOrdered(s)
    requires FindBot(s, botId).None?
    ensures |Registered(s, botId, nomeBot, at)| == |s| + 1
    ensures FindBot(Registered(s, botId, nomeBot, at), botId) == Some(Entry(botId, nomeBot, 1, at))
  {
    var b := Bumped(s, botId, nomeBot, at);
    var r := Registered(s, botId, nomeBot, at);
    RegisteredWellOrdered(s, botId, nomeBot, at);
    assert b[|s|] in multiset(r);
    FindDistinct(r, b[|s|]);
  }

  /** Registering one bot leaves every other bot's entry as it was. */
  lemma RegisterKeepsOtherBots(s: seq<Entry>, botId: string, nomeBot: string, at: int, other: string)
    requires WellOrdered(s)
    requires other != botId
    ensures FindBot(Registered(s, botId, nomeBot, at), other) == FindBot(s, other)
  {
    var b := Bumped(s, botId, nomeBot, at);
    BumpedProperties(s, botId, nomeBot, at);
    SortKeepsDistinct(b);
    var k := IndexOfBot(s, other);
    if k >= 0 {
      assert b[k] == s[k];
      FoundAfterSort(b, k);
    } else {
      AbsentAfterSort(b, other);
    }
  }

  /** Sorting adds no id that was not there. */
  lemma AbsentAfterSort(b: seq<Entry>, other: string)
    requires forall j :: 0 <= j < |b| ==> b[j].botId != other
    ensures FindBot(Sorting.SortDesc(b, Count), other) == None
  {
    var r := Sorting.SortDesc(b, Count);
    forall m | 0 <= m < |r| ensures r[m].botId != other {
      assert r[m] in multiset(b);
      var j :| 0 <= j < |b| && b[j] == r[m];
    }
  }

  // ---------------------------------------------------------------------

  class RankingTable {
    var entries: seq<Entry>

    ghost predicate Valid()
      reads this
    {
      WellOrdered(entries)
    }

    /** `let dadosRankingVitrine = []` at start-up. */
    constructor ()
      ensures Valid() && entries == []
    {
      entries := [];
    }

    /** POST /api/ranking/registrar-acesso-bot (server_novo.js:228-266). */
    method Register(botId: string, nomeBot: string, timestampAcesso: Option<int>, now: int)
      returns (r: Result<seq<Entry>>)
      requires Valid()
      modifies this
      ensures Valid()
      ensures botId == [] || nomeBot == [] ==> r == Err(BadRequest) && entries == old(entries)
      ensures botId != [] && nomeBot != [] ==>
        && entries == Registered(old(entries), botId, nomeBot, AccessTime(timestampAcesso, now))
        && Sum(entries) == Sum(old(entries)) + 1
        && r == Ok(entries)
    {
      if botId == [] || nomeBot == [] {
        return Err(BadRequest);
      }
      var at := AccessTime(timestampAcesso, now);
      var table := entries;
      var i := IndexOfBot(table, botId);
      var bumped: seq<Entry>;
      if i >= 0 {
        bumped := table[i := table[i].(contagem := table[i].contagem + 1, ultimoAcesso := at)];
      } else {
        bumped := table + [Entry(botId, nomeBot, 1, at)];
      }
      assert bumped == Bumped(table, botId, nomeBot, at);
      RegisteredWellOrdered(table, botId, nomeBot, at);
      entries := Sorting.SortDesc(bumped, Count);
      r := Ok(entries);
    }

    /** GET /api/ranking/visualizar (server_novo.js:269-278): a sorted copy;
        the stored table is already in that order, so the copy equals it. */
    method View() returns (r: seq<Entry>)
      requires Valid()
      ensures r == entries
      ensures Sorting.NonIncreasing(r, Count)
    {
      r := Sorting.SortDesc(entries, Count);
      Sorting.SortSortedIsIdentity(entries, Count);
    }
  }
}
