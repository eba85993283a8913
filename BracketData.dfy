/**
  The tournament bracket records shared by the two bracket views
  (src/components/D3Bracket.tsx and src/components/TournamentBracket.tsx
  declare the same interfaces).
 */
module BracketData {
  import opened Wrappers

  /** The `type` tag of a slot: a concrete competitor or "the winner of another match". */
  datatype SlotType = PlayerSlot | ProgressionSlot

  /** One side of a match. The optional fields are present or absent independently of the tag. */
  datatype MatchSlot = MatchSlot(
    slotType: SlotType,
    playerId: Option<string>,
    seed: Option<int>,
    sourceMatchId: Option<string>)

  /** A match; `nextMatchId` is the match its winner feeds into (None for the final). */
  datatype Match = Match(
    id: string,
    slots: seq<MatchSlot>,
    winnerId: Option<string>,
    score: Option<string>,
    nextMatchId: Option<string>)

  datatype Round = Round(roundNumber: int, name: string, matches: seq<Match>)

  /** JavaScript truthiness of a `string | null | undefined`: present and not the empty string. */
  predicate Truthy(s: Option<string>)
  {
    s.Some? && s.value != ""
  }

  /** A callback that turns a player id (or `undefined`) into a display name. */
  type PlayerNames = Option<string> -> string
}
