/**
  The list-style bracket view (src/components/TournamentBracket.tsx): one
  column per round, one card per match, with the winning side, the winner
  banner and the score badge decided from the match record. The view is a
  value here; React, CSS classes and keys are reduced to the facts they show.
 */
module TournamentBracket {
  import opened Wrappers
  import opened BracketData

  /**
    The page's renderSlot callback. It receives `match.slots[k]`, which is
    `undefined` (None) when the match has fewer than k + 1 slots.
   */
  type SlotRenderer = Option<MatchSlot> -> string

  /** What one match card shows. */
  datatype MatchCard = MatchCard(
    matchId: string,
    scoreBadge: Option<string>,
    side1: string,
    side2: string,
    side1Winner: bool,
    side2Winner: bool,
    winnerBorder: bool,
    winnerBackground: bool,
    winnerBanner: Option<string>)

  /** One round column: its heading and its cards. */
  datatype RoundColumn = RoundColumn(key: int, heading: string, cards: seq<MatchCard>)

  datatype BracketView =
    | NoBracketInformation            // "No bracket information available yet."
    | Columns(columns: seq<RoundColumn>)

  const WinnerBannerPrefix: string := "Winner: "

  /** `match.slots[k]`, undefined past the end. */
  function SlotAt(m: Match, k: nat): Option<MatchSlot>
  {
    if k < |m.slots| then Some(m.slots[k]) else None
  }

  /** isPlayer1Winner (k = 0) and isPlayer2Winner (k = 1): the side's text equals the winner's name. */
  predicate IsSideWinner(m: Match, k: nat, getPlayerName: PlayerNames, renderSlot: SlotRenderer)
  {
    renderSlot(SlotAt(m, k)) == getPlayerName(m.winnerId) && Truthy(m.winnerId)
  }

  /** The card of one match. */
  function RenderMatchCard(m: Match, getPlayerName: PlayerNames, renderSlot: SlotRenderer): (card: MatchCard)
    ensures card.matchId == m.id
    ensures card.side1 == renderSlot(SlotAt(m, 0)) && card.side2 == renderSlot(SlotAt(m, 1))
    ensures Truthy(m.winnerId) ==> card.winnerBanner == Some(WinnerBannerPrefix + getPlayerName(m.winnerId))
    ensures card.side1Winner ==> card.winnerBanner == Some(WinnerBannerPrefix + card.side1)
    ensures card.side2Winner ==> card.winnerBanner == Some(WinnerBannerPrefix + card.side2)
    ensures card.winnerBanner.Some? <==> card.winnerBorder
    ensures card.winnerBorder <==> card.winnerBackground
    ensures !Truthy(m.winnerId) ==>
      !card.side1Winner && !card.side2Winner && card.winnerBanner.None? && !card.winnerBackground
    ensures card.scoreBadge.Some? <==> Truthy(m.score)
    ensures card.scoreBadge.Some? ==> Some(card.scoreBadge.value) == m.score
  {
    var decided := Truthy(m.winnerId);
    MatchCard(
      m.id,
      if Truthy(m.score) then m.score else None,
      renderSlot(SlotAt(m, 0)),
      renderSlot(SlotAt(m, 1)),
      IsSideWinner(m, 0, getPlayerName, renderSlot),
      IsSideWinner(m, 1, getPlayerName, renderSlot),
      decided,
      decided,
      if decided then Some(WinnerBannerPrefix + getPlayerName(m.winnerId)) else None)
  }

  /** A side is marked exactly when the match has a winner whose name is that side's text. */
  lemma SideWinnerIff(m: Match, getPlayerName: PlayerNames, renderSlot: SlotRenderer)
    ensures RenderMatchCard(m, getPlayerName, renderSlot).side1Winner <==>
      Truthy(m.winnerId) && RenderMatchCard(m, getPlayerName, renderSlot).side1 == getPlayerName(m.winnerId)
    ensures RenderMatchCard(m, getPlayerName, renderSlot).side2Winner <==>
      Truthy(m.winnerId) && RenderMatchCard(m, getPlayerName, renderSlot).side2 == getPlayerName(m.winnerId)
  {
  }

  /**
    Sides are compared by their text, not by player id: two sides whose text
    is the winner's name are both marked.
   */
  lemma SameTextMarksBothSides(m: Match, getPlayerName: PlayerNames, renderSlot: SlotRenderer)
    requires Truthy(m.winnerId)
    requires renderSlot(SlotAt(m, 0)) == renderSlot(SlotAt(m, 1)) == getPlayerName(m.winnerId)
    ensures RenderMatchCard(m, getPlayerName, renderSlot).side1Winner
    ensures RenderMatchCard(m, getPlayerName, renderSlot).side2Winner
  {
  }

  /** The column of one round. */
  function RenderRound(round: Round, getPlayerName: PlayerNames, renderSlot: SlotRenderer): (column: RoundColumn)
    ensures column.key == round.roundNumber && column.heading == round.name
    ensures |column.cards| == |round.matches|
    ensures forall j :: 0 <= j < |column.cards| ==>
      column.cards[j] == RenderMatchCard(round.matches[j], getPlayerName, renderSlot)
  {
    RoundColumn(
      round.roundNumber,
      round.name,
      seq(|round.matches|, j requires 0 <= j < |round.matches| =>
        RenderMatchCard(round.matches[j], getPlayerName, renderSlot)))
  }

  /** The whole view; `rounds` may be missing (None) or empty. */
  function RenderBracket(rounds: Option<seq<Round>>, getPlayerName: PlayerNames, renderSlot: SlotRenderer): (view: BracketView)
    ensures view == NoBracketInformation <==> rounds.None? || rounds.value == []
    ensures view.Columns? ==> |view.columns| == |rounds.value|
    ensures view.Columns? ==> forall i :: 0 <= i < |view.columns| ==>
      view.columns[i] == RenderRound(rounds.value[i], getPlayerName, renderSlot)
  {
    if rounds.None? || rounds.value == [] then NoBracketInformation
    else
      var rs := rounds.value;
      Columns(seq(|rs|, i requires 0 <= i < |rs| => RenderRound(rs[i], getPlayerName, renderSlot)))
  }

  /** Round i becomes column i, and match j of that round becomes its card j, with the match's id. */
  lemma BracketFollowsInputOrder(rounds: seq<Round>, getPlayerName: PlayerNames, renderSlot: SlotRenderer, i: nat, j: nat)
    requires i < |rounds| && j < |rounds[i].matches|
    ensures RenderBracket(Some(rounds), getPlayerName, renderSlot).Columns?
    ensures RenderBracket(Some(rounds), getPlayerName, renderSlot).columns[i].heading == rounds[i].name
    ensures j < |RenderBracket(Some(rounds), getPlayerName, renderSlot).columns[i].cards|
    ensures RenderBracket(Some(rounds), getPlayerName, renderSlot).columns[i].cards[j].matchId == rounds[i].matches[j].id
  {
    var column := RenderRound(rounds[i], getPlayerName, renderSlot);
    assert RenderBracket(Some(rounds), getPlayerName, renderSlot).columns[i] == column;
    assert column.cards[j] == RenderMatchCard(rounds[i].matches[j], getPlayerName, renderSlot);
  }
}
