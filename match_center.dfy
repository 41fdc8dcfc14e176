/**
 * The match centre: the points-table column toggle, the tab picked after
 * the fixtures load, the standings cache, and what the fixture list and
 * each match card show. The component's state is a class whose fields are
 * its `useState` variables; each handler is a method, split into the step
 * before the remote call and the step after it.
 */
module MatchCenter {
  import opened Wrappers
  import opened JsText
  import opened Types
  import opened StandingsSort
  import opened GeminiService

  datatype Tab = Live | Upcoming | Recent | Standings

  // ---------------------------------------------------------------------
  // handleSort
  // ---------------------------------------------------------------------

  /**
   * The configuration after a click on column `key`: descending exactly
   * when that column was already sorted ascending, ascending otherwise.
   */
  function NextSortConfig(prev: Option<SortConfig>, key: SortKey): (next: SortConfig)
    ensures next.key == key
    ensures next.direction == Desc <==> prev == Some(SortConfig(key, Asc))
  {
    if prev.Some? && prev.value.key == key && prev.value.direction == Asc then SortConfig(key, Desc)
    else SortConfig(key, Asc)
  }

  /** Two clicks on the column sorted ascending bring it back to ascending. */
  lemma ToggleTwice(key: SortKey)
    ensures var once := NextSortConfig(Some(SortConfig(key, Asc)), key);
            once.direction == Desc && NextSortConfig(Some(once), key) == SortConfig(key, Asc)
  {
  }

  /** A click on a column other than the sorted one sorts it ascending. */
  lemma OtherColumnAscending(prev: Option<SortConfig>, key: SortKey)
    requires prev.Some? ==> prev.value.key != key
    ensures NextSortConfig(prev, key) == SortConfig(key, Asc)
  {
  }

  /** After any click the configuration toggles with period two on that column. */
  lemma ToggleAlternates(prev: Option<SortConfig>, key: SortKey)
    ensures var once := NextSortConfig(prev, key);
            var twice := NextSortConfig(Some(once), key);
            twice.key == key && twice.direction != once.direction
  {
  }

  // ---------------------------------------------------------------------
  // The tab chosen after a load
  // ---------------------------------------------------------------------

  /**
   * The tab after fixtures arrive: the standings tab stays; any other tab
   * becomes the first of live, upcoming, recent with matches, recent when
   * none has any.
   */
  function AutoTab(current: Tab, d: MatchData): (t: Tab)
    ensures current == Standings ==> t == Standings
    ensures current != Standings ==> (t == Live <==> d.live != [])
    ensures current != Standings ==> (t == Upcoming <==> d.live == [] && d.upcoming != [])
    ensures current != Standings ==> (t == Recent <==> d.live == [] && d.upcoming == [])
  {
    if current == Standings then current
    else if |d.live| > 0 then Live
    else if |d.upcoming| > 0 then Upcoming
    else Recent
  }

  /** The fixtures of one match tab, or none before the first load. */
  function MatchesFor(data: Option<MatchData>, t: Tab): (r: seq<MatchInfo>)
    requires t != Standings
    ensures data.None? ==> r == []
  {
    match data
    case None => []
    case Some(d) =>
      match t
      case Live => d.live
      case Upcoming => d.upcoming
      case Recent => d.recent
  }

  /** When live or upcoming fixtures exist, the tab picked after a load shows some of them. */
  lemma AutoTabShowsMatches(current: Tab, d: MatchData)
    requires current != Standings && (d.live != [] || d.upcoming != [])
    ensures AutoTab(current, d) != Standings
    ensures MatchesFor(Some(d), AutoTab(current, d)) != []
  {
  }

  /** The tab picked after a load is empty only when every bucket is. */
  lemma AutoTabEmptyOnlyIfNoLiveOrUpcoming(current: Tab, d: MatchData)
    requires current != Standings && MatchesFor(Some(d), AutoTab(current, d)) == []
    ensures d.live == [] && d.upcoming == [] && d.recent == []
  {
  }

  /** A load that degraded to empty buckets lands a match tab on recent. */
  lemma FailedLoadShowsRecent(current: Tab)
    requires current != Standings
    ensures AutoTab(current, EmptyMatchData) == Recent
  {
  }

  /** Picking the tab a second time for the same data changes nothing. */
  lemma AutoTabIdempotent(current: Tab, d: MatchData)
    ensures AutoTab(AutoTab(current, d), d) == AutoTab(current, d)
  {
  }

  // ---------------------------------------------------------------------
  // renderMatchList
  // ---------------------------------------------------------------------

  const NoMatchesNotice: string := "No matches found in this category."
  const ScheduledText: string := "Match scheduled"

  /** The status badge pulses when the lower-cased status mentions "live". */
  predicate IsLive(status: string) {
    Includes(ToLower(status), "live")
  }

  /** `match.score || match.result || "Match scheduled"`. */
  function CardText(m: MatchInfo): (r: string)
    ensures r != []
    ensures Truthy(m.score) ==> r == m.score.value
    ensures !Truthy(m.score) && Truthy(m.result) ==> r == m.result.value
    ensures !Truthy(m.score) && !Truthy(m.result) ==> r == ScheduledText
  {
    Or(m.score, Or(m.result, ScheduledText))
  }

  /** What one match card shows. */
  datatype Card = Card(
    status: string,
    live: bool,
    date: Option<string>,
    team1: string,
    team2: string,
    text: string,
    venue: string)

  function RenderCard(m: MatchInfo): (card: Card)
    ensures card.live <==> IsLive(m.status)
    ensures card.text == CardText(m)
    ensures card.status == m.status && card.team1 == m.team1 && card.team2 == m.team2
  {
    Card(m.status, IsLive(m.status), m.date, m.team1, m.team2, CardText(m), m.venue)
  }

  datatype MatchListView = Notice(message: string) | Cards(cards: seq<Card>)

  /** The notice for an empty list, otherwise one card per fixture in order. */
  function RenderMatchList(matches: seq<MatchInfo>): (v: MatchListView)
    ensures v.Notice? <==> matches == []
    ensures v.Notice? ==> v.message == NoMatchesNotice
    ensures v.Cards? ==> |v.cards| == |matches|
    ensures v.Cards? ==> forall i :: 0 <= i < |matches| ==> v.cards[i] == RenderCard(matches[i])
  {
    if |matches| == 0 then Notice(NoMatchesNotice)
    else Cards(seq(|matches|, i requires 0 <= i < |matches| => RenderCard(matches[i])))
  }

  /** Lower-casing twice is lower-casing once. */
  lemma LowerCharIdempotent(c: char)
    ensures LowerChar(LowerChar(c)) == LowerChar(c)
  {
  }

  /** The badge ignores the case of the status. */
  lemma LiveIgnoresCase(status: string)
    ensures IsLive(ToLower(status)) == IsLive(status)
  {
    forall i | 0 <= i < |status|
      ensures ToLower(ToLower(status))[i] == ToLower(status)[i]
    {
      LowerCharIdempotent(status[i]);
    }
    assert ToLower(ToLower(status)) == ToLower(status);
  }

  /** A status with the word "live" in it, in any case, gets the live badge. */
  lemma LiveWhenMentioned(a: string, w: string, b: string)
    requires ToLower(w) == "live"
    ensures IsLive(a + w + b)
  {
    var s := a + w + b;
    var low := ToLower(s);
    assert |w| == 4;
    forall k | 0 <= k < 4
      ensures low[|a| + k] == "live"[k]
    {
      assert s[|a| + k] == w[k];
      assert ToLower(w)[k] == LowerChar(w[k]);
    }
    assert low[|a|..|a| + 4] == "live";
  }

  /** A status with no letter l in either case never gets the live badge. */
  lemma NotLiveWithoutL(status: string)
    requires forall i :: 0 <= i < |status| ==> status[i] != 'l' && status[i] != 'L'
    ensures !IsLive(status)
  {
    var low := ToLower(status);
    forall i, j | 0 <= i <= j <= |low| && j - i == 4
      ensures low[i..j] != "live"
    {
      assert low[i..j][0] == LowerChar(status[i]);
    }
  }

  // ---------------------------------------------------------------------
  // The component
  // ---------------------------------------------------------------------

  const NoStandingsNotice: string := "No standings data found."

  /** What the content area shows. */
  datatype Content =
    | Spinner
    | StandingsTable(rows: seq<TeamStanding>, notice: Option<string>)
    | MatchList(view: MatchListView)

  class MatchCenterState {
    var data: Option<MatchData>
    var standings: seq<TeamStanding>
    var loading: bool
    var loadingStandings: bool
    var activeTab: Tab
    var sortConfig: Option<SortConfig>

    /** The initial state: loading, on the live tab, sorted by rank ascending, nothing fetched. */
    constructor()
      ensures data == None && standings == []
      ensures loading && !loadingStandings
      ensures activeTab == Live
      ensures sortConfig == Some(SortConfig(Rank, Asc))
    {
      data := None;
      standings := [];
      loading := true;
      loadingStandings := false;
      activeTab := Live;
      sortConfig := Some(SortConfig(Rank, Asc));
    }

    /** `handleSort`: a click on a column header. */
    method HandleSort(key: SortKey)
      modifies this`sortConfig
      ensures sortConfig == Some(NextSortConfig(old(sortConfig), key))
    {
      var direction := Asc;
      if sortConfig.Some? && sortConfig.value.key == key && sortConfig.value.direction == Asc {
        direction := Desc;
      }
      sortConfig := Some(SortConfig(key, direction));
    }

    /** A click on a tab. */
    method SelectTab(t: Tab)
      modifies this`activeTab
      ensures activeTab == t
    {
      activeTab := t;
    }

    /**
     * `loadMatches` up to the remote call. The closure reads `activeTab`
     * as it was when the load began; `captured` is that tab.
     */
    method BeginLoadMatches() returns (captured: Tab)
      modifies this`loading
      ensures loading
      ensures captured == activeTab
    {
      loading := true;
      captured := activeTab;
    }

    /**
     * `loadMatches` once `fetchMatchData` has settled, with `captured` the
     * tab the load began on. That function never rejects, so the data is
     * always stored; the tab rule tests the captured tab, so a load begun
     * on a match tab moves the view to a match tab even when the standings
     * tab was clicked meanwhile.
     */
    method CompleteLoadMatches(captured: Tab, c: Completion, parse: string -> Option<MatchData>)
      modifies this`data, this`activeTab, this`loading
      ensures data == Some(FetchMatchData(c, parse))
      ensures captured == Standings ==> activeTab == old(activeTab)
      ensures captured != Standings ==> activeTab == AutoTab(captured, FetchMatchData(c, parse))
      ensures !loading
    {
      var matchData := FetchMatchData(c, parse);
      data := Some(matchData);
      if captured != Standings {
        if |matchData.live| > 0 {
          activeTab := Live;
        } else if |matchData.upcoming| > 0 {
          activeTab := Upcoming;
        } else {
          activeTab := Recent;
        }
      }
      loading := false;
    }

    /** `loadMatches` from start to end, with no tab click while it waits. */
    method LoadMatches(c: Completion, parse: string -> Option<MatchData>)
      modifies this`data, this`activeTab, this`loading
      ensures data == Some(FetchMatchData(c, parse))
      ensures activeTab == AutoTab(old(activeTab), FetchMatchData(c, parse))
      ensures !loading
    {
      var captured := BeginLoadMatches();
      CompleteLoadMatches(captured, c, parse);
    }

    /**
     * `loadStandings` up to the remote call: it returns early, touching
     * nothing, when rows are already held; `fetching` says it went on.
     */
    method BeginLoadStandings() returns (fetching: bool)
      modifies this`loadingStandings
      ensures fetching <==> standings == []
      ensures loadingStandings == (fetching || old(loadingStandings))
    {
      if |standings| > 0 {
        return false;
      }
      loadingStandings := true;
      return true;
    }

    /** `loadStandings` once `fetchStandings`, which never rejects, has settled. */
    method CompleteLoadStandings(c: Completion, parse: string -> Option<seq<TeamStanding>>)
      modifies this`standings, this`loadingStandings
      ensures standings == FetchStandings(c, parse)
      ensures !loadingStandings
    {
      standings := FetchStandings(c, parse);
      loadingStandings := false;
    }

    /** `loadStandings` from start to end: the cache guard, then the fetch. */
    method LoadStandings(c: Completion, parse: string -> Option<seq<TeamStanding>>)
      modifies this`standings, this`loadingStandings
      ensures old(standings) != [] ==> standings == old(standings) && loadingStandings == old(loadingStandings)
      ensures old(standings) == [] ==> standings == FetchStandings(c, parse) && !loadingStandings
    {
      var fetching := BeginLoadStandings();
      if fetching {
        CompleteLoadStandings(c, parse);
      }
    }

    /** `getSortedStandings`: a sorted copy; the stored rows are only read. */
    function SortedRows(): (r: seq<TeamStanding>)
      reads this
      ensures multiset(r) == multiset(standings)
      ensures sortConfig.None? ==> r == standings
      ensures sortConfig.Some? ==> Sorted(sortConfig.value, r)
    {
      SortedStandings(sortConfig, standings)
    }

    /** The content area for the current state. */
    function View(): (v: Content)
      reads this
      ensures v.Spinner? <==> (if activeTab == Standings then loadingStandings else loading)
      ensures v.StandingsTable? ==> activeTab == Standings && v.rows == SortedRows()
      ensures v.StandingsTable? ==> (v.notice.Some? <==> standings == [])
      ensures v.StandingsTable? && v.notice.Some? ==> v.notice.value == NoStandingsNotice
      ensures v.MatchList? ==> activeTab != Standings && v.view == RenderMatchList(MatchesFor(data, activeTab))
    {
      if activeTab == Standings then
        if loadingStandings then Spinner
        else StandingsTable(SortedRows(), if |standings| == 0 then Some(NoStandingsNotice) else None)
      else if loading then Spinner
      else MatchList(RenderMatchList(MatchesFor(data, activeTab)))
    }
  }
}
