/**
 * The player encyclopedia: a search box whose submission fetches one
 * profile, an error banner, and the profile card with its fallbacks for
 * missing styles and figures.
 */
module PlayerProfile {
  import opened Wrappers
  import opened JsText
  import opened Types
  import opened GeminiService

  const NotFoundMessage: string := "Player not found. Please try a specific name (e.g., 'Sachin Tendulkar')."
  const NoStyle: string := "N/A"
  const NoFigure: string := "-"

  // ---------------------------------------------------------------------
  // Display fallbacks
  // ---------------------------------------------------------------------

  /** `profile.battingStyle || 'N/A'` and the same for the bowling style. */
  function StyleText(style: Option<string>): (t: string)
    ensures t != []
    ensures Truthy(style) ==> t == style.value
    ensures !Truthy(style) ==> t == NoStyle
  {
    Or(style, NoStyle)
  }

  /** The figures a stats block can show. */
  datatype StatField = Matches | Runs | Average | StrikeRate | Wickets | Economy

  function Figure(stats: PlayerStatsDetail, f: StatField): Option<string> {
    match f
    case Matches => stats.matches
    case Runs => stats.runs
    case Average => stats.average
    case StrikeRate => stats.strikeRate
    case Wickets => stats.wickets
    case Economy => stats.economy
  }

  /** One figure of a stats block: `stats?.field || '-'`. */
  function FigureText(stats: Option<PlayerStatsDetail>, f: StatField): (t: string)
    ensures t != []
    ensures stats.None? ==> t == NoFigure
    ensures stats.Some? && Truthy(Figure(stats.value, f)) ==> t == Figure(stats.value, f).value
    ensures stats.Some? && !Truthy(Figure(stats.value, f)) ==> t == NoFigure
  {
    if stats.None? then NoFigure else Or(Figure(stats.value, f), NoFigure)
  }

  const BattingColumns: seq<StatField> := [Matches, Runs, Average, StrikeRate]
  const BowlingColumns: seq<StatField> := [Matches, Wickets, Average, Economy]

  /** The cells of a stats block, one per column in order. */
  function Figures(stats: Option<PlayerStatsDetail>, columns: seq<StatField>): (cells: seq<string>)
    ensures |cells| == |columns|
    ensures forall k :: 0 <= k < |columns| ==> cells[k] == FigureText(stats, columns[k]) && cells[k] != []
    ensures stats.None? ==> forall k :: 0 <= k < |columns| ==> cells[k] == NoFigure
  {
    seq(|columns|, k requires 0 <= k < |columns| => FigureText(stats, columns[k]))
  }

  function BattingFigures(stats: Option<PlayerStatsDetail>): seq<string> {
    Figures(stats, BattingColumns)
  }

  function BowlingFigures(stats: Option<PlayerStatsDetail>): seq<string> {
    Figures(stats, BowlingColumns)
  }

  /** A figure the model returned as text is shown as it is; only an empty or missing one becomes '-'. */
  lemma FigureShownVerbatim(stats: PlayerStatsDetail)
    requires Truthy(stats.runs)
    ensures BattingFigures(Some(stats))[1] == stats.runs.value
  {
    assert BattingColumns[1] == Runs;
  }

  /** What the profile card shows, in the parts that have fallbacks. */
  datatype ProfileCard = ProfileCard(
    name: string,
    country: string,
    role: string,
    battingStyle: string,
    bowlingStyle: string,
    teams: seq<string>,
    batting: seq<string>,
    bowling: seq<string>)

  /** The card for a profile; `majorTeams?.map` renders nothing when the list is missing. */
  function RenderProfile(p: PlayerProfileData): (card: ProfileCard)
    ensures card.name == p.name && card.country == p.country && card.role == p.role
    ensures card.battingStyle == StyleText(p.battingStyle) && card.bowlingStyle == StyleText(p.bowlingStyle)
    ensures card.teams == if p.majorTeams.Some? then p.majorTeams.value else []
    ensures card.batting == BattingFigures(p.battingStats) && card.bowling == BowlingFigures(p.bowlingStats)
  {
    ProfileCard(p.name, p.country, p.role, StyleText(p.battingStyle), StyleText(p.bowlingStyle),
                if p.majorTeams.Some? then p.majorTeams.value else [],
                BattingFigures(p.battingStats), BowlingFigures(p.bowlingStats))
  }

  /** No shown style or figure is ever blank text. */
  lemma CardHasNoEmptyCell(p: PlayerProfileData)
    ensures var card := RenderProfile(p);
            card.battingStyle != [] && card.bowlingStyle != []
            && (forall k :: 0 <= k < 4 ==> card.batting[k] != [] && card.bowling[k] != [])
  {
  }

  // ---------------------------------------------------------------------
  // The component
  // ---------------------------------------------------------------------

  /**
   * The `profile` and `error` a settled fetch leaves, after both were
   * cleared: the profile on success, the fixed not-found message on any
   * failure, whatever the fetcher's own message was.
   */
  function Settled(r: Result<PlayerProfileData, string>): (s: (Option<PlayerProfileData>, Option<string>))
    ensures s.0.Some? != s.1.Some?
    ensures r.Success? ==> s.0 == Some(r.value)
    ensures r.Failure? ==> s.1 == Some(NotFoundMessage)
  {
    match r
    case Success(data) => (Some(data), None)
    case Failure(_) => (None, Some(NotFoundMessage))
  }

  /** Below the search box: the error banner when `error` is truthy, the card when there is a profile. */
  datatype ProfileView = ProfileView(banner: Option<string>, card: Option<ProfileCard>)

  class PlayerProfileState {
    var query: string
    var profile: Option<PlayerProfileData>
    var loading: bool
    var error: Option<string>
    /** The names handed to `fetchPlayerProfile`, in order. */
    var requested: seq<string>

    /** The initial state: an empty box, no profile, no error, idle. */
    constructor()
      ensures query == [] && profile == None && !loading && error == None && requested == []
    {
      query := [];
      profile := None;
      loading := false;
      error := None;
      requested := [];
    }

    function View(): (v: ProfileView)
      reads this
      ensures v.banner.Some? <==> Truthy(error)
      ensures v.banner.Some? ==> v.banner.value == error.value
      ensures v.card.Some? <==> profile.Some?
      ensures v.card.Some? ==> v.card.value == RenderProfile(profile.value)
    {
      ProfileView(if Truthy(error) then error else None,
                  if profile.Some? then Some(RenderProfile(profile.value)) else None)
    }

    /** Typing into the box. */
    method SetQuery(text: string)
      modifies this`query
      ensures query == text
    {
      query := text;
    }

    /** The search button is disabled while loading or while the trimmed query is empty. */
    predicate SubmitDisabled()
      reads this
    {
      loading || Trim(query) == []
    }

    /**
     * `handleSearch` up to the remote call: nothing happens for a blank
     * query (one whose trim is empty, by the contract of `Trim`);
     * otherwise loading starts, error and profile are cleared, and the
     * query is handed over as typed, untrimmed.
     */
    method BeginSearch() returns (started: bool)
      modifies this`loading, this`error, this`profile, this`requested
      ensures started <==> !Blank(query)
      ensures !started ==> loading == old(loading) && error == old(error) && profile == old(profile) && requested == old(requested)
      ensures started ==> loading && error == None && profile == None
      ensures started ==> requested == old(requested) + [query]
    {
      if Blank(query) {
        return false;
      }
      loading := true;
      error := None;
      profile := None;
      requested := requested + [query];
      return true;
    }

    /** `handleSearch` once `fetchPlayerProfile` has settled. */
    method CompleteSearch(c: Completion, parse: string -> Option<ProfilePayload>)
      requires profile == None && error == None
      modifies this`profile, this`error, this`loading
      ensures (profile, error) == Settled(FetchPlayerProfile(c, parse))
      ensures !loading
    {
      var r := FetchPlayerProfile(c, parse);
      if r.Success? {
        profile := Some(r.value);
      } else {
        error := Some(NotFoundMessage);
      }
      loading := false;
    }

    /**
     * `handleSearch` from start to end. `c` is what the call for
     * `PlayerPrompt(query)` produced.
     */
    method HandleSearch(c: Completion, parse: string -> Option<ProfilePayload>)
      modifies this`loading, this`error, this`profile, this`requested
      ensures Blank(query) ==> loading == old(loading) && error == old(error) && profile == old(profile) && requested == old(requested)
      ensures !Blank(query) ==> requested == old(requested) + [query]
      ensures !Blank(query) ==> (profile, error) == Settled(FetchPlayerProfile(c, parse)) && !loading
    {
      var started := BeginSearch();
      if started {
        CompleteSearch(c, parse);
      }
    }
  }
}
