/**
 * The application's data shapes. Properties that the code reads through
 * `||` or `?.` (and so treats as possibly absent in the untyped JSON it
 * casts) are `Option`s; properties it uses directly are plain values.
 */
module Types {
  import opened Wrappers

  /** The `web` part of a grounding chunk returned with a search-grounded answer. */
  datatype WebSource = WebSource(uri: Option<string>, title: Option<string>)

  datatype GroundingChunk = GroundingChunk(web: Option<WebSource>)

  datatype NewsResponse = NewsResponse(text: string, groundingChunks: seq<GroundingChunk>)

  /** One block of career figures; every figure is text and may be missing. */
  datatype PlayerStatsDetail = PlayerStatsDetail(
    matches: Option<string>,
    runs: Option<string>,
    average: Option<string>,
    strikeRate: Option<string>,
    wickets: Option<string>,
    economy: Option<string>,
    bestFigures: Option<string>)

  datatype PlayerProfileData = PlayerProfileData(
    name: string,
    role: string,
    country: string,
    battingStyle: Option<string>,
    bowlingStyle: Option<string>,
    bio: string,
    careerHighlights: seq<string>,
    recentForm: string,
    majorTeams: Option<seq<string>>,
    battingStats: Option<PlayerStatsDetail>,
    bowlingStats: Option<PlayerStatsDetail>)

  datatype MatchInfo = MatchInfo(
    team1: string,
    team2: string,
    score: Option<string>,
    status: string,
    date: Option<string>,
    venue: string,
    result: Option<string>)

  datatype MatchData = MatchData(live: seq<MatchInfo>, recent: seq<MatchInfo>, upcoming: seq<MatchInfo>)

  /** A row of a points table. JSON numbers are modelled as integers. */
  datatype TeamStanding = TeamStanding(
    rank: int,
    team: string,
    played: int,
    won: int,
    lost: int,
    points: int,
    nrr: string)

  datatype Role = User | Model

  /** A chat turn; an absent `isError` is `false`. */
  datatype ChatMessage = ChatMessage(role: Role, text: string, isError: bool)
}
