# Ping-pong league site: verified model of the bracket normaliser and its neighbours

This project models, in Dafny, the parts of the league website that compute
something rather than just lay out a page:

- **D3 bracket normaliser** (`D3Bracket`). The tournament's rounds are
  flattened into one node per match. Each node records the match, a display
  name, and a parent: the match its winner feeds into (`nextMatchId`). Before
  the nodes go to `d3.stratify`, a root-resolution step runs:
  - an empty node list stops with "No match data to display.";
  - a list that already has a node with a null parent goes on untouched;
  - otherwise the candidates are the nodes whose id is nobody's parent.
    One candidate has its parent cleared in place. Zero candidates stop with
    "Error: Could not determine bracket root.". Several candidates only
    produce a warning, and the nodes go on unchanged.
  
  The canvas height comes from the largest round.
- **List bracket view** (`TournamentBracket`). It shows one column per round
  and one card per match. It decides which side is marked as the winner, and
  when the winner banner, winner styling and score badge appear.
- **Gallery listing** (`Gallery`). Directory entries are kept when they end
  in an image extension, compared without case. Each kept name becomes a
  `/gallery-images/` URL path.
- **Challenge lists** (`Challenges`). These are the featured prefix and the
  rest from index 2 onward, both taken from the challenge data file.

Shared records (`MatchSlot`, `Match`, `Round`) live in `BracketData`,
`Option` lives in `Wrappers`, and `Min`/`Max` live in `IntMath`.

Modelling conventions:
- The callbacks `getPlayerName` and `renderSlot` are function-typed
  parameters.
- Reading the gallery directory and the challenge file is an input value:
  the listing or an error, the parsed list or a failure.
- JavaScript truthiness is modelled exactly, as `Truthy`: a string field
  counts as set only when it is present and non-empty. This applies to
  `slot.playerId`, `slot.sourceMatchId`, `match.winnerId` and `match.score`.

Behaviour of the code worth knowing, which the model keeps:
- With several root candidates, the code only logs a warning that stratify
  may pick one or fail (src/components/D3Bracket.tsx:142), and hands the
  nodes to `d3.stratify` unchanged (`ResolveAmbiguousProceedsUnchanged`).
- The winner marking and the banner test whether `winnerId` is truthy, not
  whether it is non-null. An empty-string `winnerId` marks nothing.
- A side is marked as the winner by comparing display texts, not player ids.
  So two sides whose text equals the winner's name are both marked
  (`SameTextMarksBothSides`).

## Model

| member | source | states |
|---|---|---|
| `D3Bracket.SlotToDisplayName` | src/components/D3Bracket.tsx:74-81 | a player slot with a non-empty player id shows getPlayerName(playerId); a progression slot with a non-empty source shows "Winner of " followed by exactly that source id; every other slot (including a player slot whose only id is a source id, and the reverse) shows "TBD" |
| `D3Bracket.SlotNameIgnoresPlayerNames` | src/components/D3Bracket.tsx:74-81 | only a player slot with a non-empty player id consults the player-name lookup; every other slot's text is the same whatever the lookup |
| `D3Bracket.AllMatches` | src/components/D3Bracket.tsx:64-65 | the flattened match list has as many entries as all rounds have matches together |
| `D3Bracket.MatchPosition` | src/components/D3Bracket.tsx:64-95 | match j of round i sits at position (matches of rounds before i) + j: round order first, then match order |
| `D3Bracket.TransformDataForD3` | src/components/D3Bracket.tsx:58-97 | the nested push loops emit one node per match, in round-then-match order; node k has the id, the nextMatchId as parent and the match record of match k; its display name is `MatchDisplayName`: "<side 1> vs <side 2>" for a two-slot match and "Match <id>" otherwise |
| `D3Bracket.NotTargeted` | src/components/D3Bracket.tsx:129-130 | the candidate filter keeps exactly the nodes whose id is not a parent id, and never more nodes than it was given; count and order follow from `NotTargetedOfConcat` |
| `D3Bracket.NotTargetedOfConcat` | src/components/D3Bracket.tsx:129-130 | the candidate filter works piece by piece over a concatenation, so it keeps every qualifying node, duplicates included, in list order |
| `D3Bracket.AllTargetedKeepsNothing` | src/components/D3Bracket.tsx:129-130 | when every id is a parent id the filter keeps no node |
| `D3Bracket.OneUntargetedIsSingleCandidate` | src/components/D3Bracket.tsx:129-132 | when exactly one index holds an id that is not a parent id, the filter keeps exactly that node, once (the converse of `SingleCandidate`) |
| `D3Bracket.SingleCandidate` | src/components/D3Bracket.tsx:130-136 | when exactly one candidate exists, it sits at one index and every other node's id is some node's parent |
| `D3Bracket.FindIndex` | src/components/D3Bracket.tsx:135 | findIndex gives the first index holding the id, or -1 exactly when no node has it |
| `D3Bracket.Resolve` | src/components/D3Bracket.tsx:122-144 | root resolution ends in "no match data" exactly when the node list is empty |
| `D3Bracket.ResolveKeepsExplicitRoot` | src/components/D3Bracket.tsx:127-128 | if some node already has a null parent, the nodes reach stratify unchanged |
| `D3Bracket.ResolveInfersUniqueRoot` | src/components/D3Bracket.tsx:129-136 | with no explicit root and one candidate, only that candidate's parent becomes null (the findIndex guard always passes), and afterwards it is the one node with a null parent |
| `D3Bracket.ResolveInfersRootAtIndex` | src/components/D3Bracket.tsx:129-136 | with no explicit root and node i the only node whose id nobody names as parent, there is one candidate and exactly node i loses its parent |
| `D3Bracket.ResolveNoRootIff` | src/components/D3Bracket.tsx:137-140 | the "Could not determine bracket root" stop happens if and only if the list is non-empty, has no explicit root, and every id is some node's parent |
| `D3Bracket.ResolveAmbiguousProceedsUnchanged` | src/components/D3Bracket.tsx:141-143 | with no explicit root and several candidates, the nodes proceed unchanged |
| `D3Bracket.ResolveChangesAtMostOneParent` | src/components/D3Bracket.tsx:122-144 | when resolution proceeds, the list keeps its length; each node is unchanged or has only its parent cleared; at most one node changes |
| `D3Bracket.ResolveIdempotent` | src/components/D3Bracket.tsx:122-144 | resolving an already-resolved node list leaves it as it is |
| `D3Bracket.ResolveRootInPlace` | src/components/D3Bracket.tsx:122-144 | the in-place fix-up on the node array stops with the no-data or root-error message exactly when `Resolve` does, otherwise leaves the array equal to `Resolve`'s result; on a stop the array is untouched |
| `D3Bracket.MaxMatchesPerRound` | src/components/D3Bracket.tsx:110 | the reduce gives the largest number of matches in any round (0 for no rounds): no round has more, and some round has exactly that many |
| `D3Bracket.CanvasHeight` | src/components/D3Bracket.tsx:107-110 | the height inside the margins is at least 560, fits 100 units per match of every round, and is 560 or exactly 100 × (some round's matches) − 40 |
| `D3Bracket.PrepareBracket` | src/components/D3Bracket.tsx:102-144 | the effect up to stratify yields the canvas height and the result of root resolution applied to the transformed nodes |
| `D3Bracket.NoMatchesMeansNoData` | src/components/D3Bracket.tsx:119-125 | the "No match data to display." stop happens exactly when the tournament has no match at all |
| `D3Bracket.SemiFinalsAndFinalExample` | src/components/D3Bracket.tsx:64-128 | two semi-finals feeding a final: three nodes, the final is the null-parent root, its name is "Winner of M1 vs Winner of M2", and the nodes proceed unchanged |
| `TournamentBracket.RenderMatchCard` | src/components/TournamentBracket.tsx:52-101 | the card carries the match id and the two rendered slots (an absent slot rendered as undefined); with a truthy winnerId the banner is "Winner: " + getPlayerName(winnerId); a marked side's text is the name in the winner banner; the banner, winner border and winner background appear together; with no truthy winnerId no side is marked and no banner shows; the score badge shows the score exactly when it is non-empty |
| `TournamentBracket.SideWinnerIff` | src/components/TournamentBracket.tsx:53-54 | the `IsSideWinner` test: side k is marked if and only if winnerId is truthy and the side's rendered text equals getPlayerName(winnerId) |
| `TournamentBracket.SameTextMarksBothSides` | src/components/TournamentBracket.tsx:53-54 | sides are compared by text, so two sides both rendering the winner's name are both marked |
| `TournamentBracket.RenderRound` | src/components/TournamentBracket.tsx:45-52 | a round column has the round's name and number and one card per match, card j being match j's |
| `TournamentBracket.RenderBracket` | src/components/TournamentBracket.tsx:38-45 | only "No bracket information available yet." shows exactly when rounds is missing or empty; otherwise there is one column per round, column i being round i's column |
| `TournamentBracket.BracketFollowsInputOrder` | src/components/TournamentBracket.tsx:45-52 | column i is headed by round i's name and its card j carries match j's id |
| `Gallery.LowerAsciiStringMatchesIgnoringCase` | src/lib/gallery.ts:13 | the case-insensitive comparison of the `i` flag: a name part lower-cases to a lower-case extension exactly when each character is that letter or its ASCII capital |
| `Gallery.ImageFileIffLastExtension` | src/lib/gallery.ts:12-14 | the extension regex (`IsImageFile`) accepts a name if and only if the text after its last dot, lower-cased, is jpg, jpeg, png, gif, webp or svg (one direction per helper: `LastDotBeforeImageExtension`, `ImageExtensionIndex`) |
| `Gallery.ImageFiles` | src/lib/gallery.ts:12-14 | a name is kept if and only if it is in the listing and passes the extension test; never more names than listed |
| `Gallery.ImageFilesOfConcat` | src/lib/gallery.ts:12-14 | the filter works piece by piece over a concatenation, so the kept names stay in listing order |
| `Gallery.GalleryImagePaths` | src/lib/gallery.ts:7-23 | a failed directory read gives no paths; a listing gives at most as many paths as names, each starting with "/gallery-images/" and longer than it |
| `Gallery.StripPrefixRecoversImageFiles` | src/lib/gallery.ts:17 | removing the "/gallery-images/" prefix from path k gives the k-th kept file name |
| `Gallery.GalleryPathMembership` | src/lib/gallery.ts:12-17 | "/gallery-images/" + f is listed if and only if f is a listed image file |
| `Gallery.FilterExamples` | src/lib/gallery.ts:12-14 | "photo.JPG" and ".png" are kept; ".DS_Store" and "photo.png.bak" are not |
| `Challenges.GetAllChallenges` | src/lib/challenges.ts:16-25 | a read or parse failure gives the empty list; a parsed array is returned as it is; a parsed non-array is returned unchecked as a non-array |
| `Challenges.GetFeaturedChallenges` | src/lib/challenges.ts:28-35 | the featured list is a prefix of the file's challenges: min(limit, n) of them for limit ≥ 0, max(n + limit, 0) for a negative limit, and empty when the file cannot be read or is not an array |
| `Challenges.GetAllChallengesButFeatured` | src/lib/challenges.ts:39-42 | the rest is the suffix of length max(n − 2, 0); an unreadable file gives an empty list; a non-array parse rejects |
| `Challenges.FeaturedThenRestIsAll` | src/lib/challenges.ts:28-42 | read from the same file, featured (default limit 2) followed by the rest is exactly the full list |
| `Challenges.UnreadableFileGivesNothing` | src/lib/challenges.ts:16-25 | a read or parse failure makes all challenges, the featured list and the rest all empty |

## Left out

- The d3 layout and all SVG drawing (src/components/D3Bracket.tsx:146-249). These are `d3.stratify`, `d3.tree`, float coordinates and node labels. The model stops at the `Proceed` outcome. It does not model stratify's own errors (several null parents, dangling parent ids, cycles) or the catch that reports them.
- The canvas width and the left/right margins. They depend on the container's `clientWidth` from the DOM.
- The guard on missing tournament data, callback or container, and the "Loading tournament data..." placeholder. These are React and DOM plumbing.
- `console.log`, `console.warn` and `console.error` calls. They are side effects with no effect on the outcome.
- A `nextMatchId` absent from the JSON, which is `undefined` rather than `null`. The records declare it `string | null`, and the model has only those two cases.
- CSS class names, React keys and element structure in the list view. The model keeps only the facts they display.
- The player-name lookup and the slot renderer of the tournament page. They are passed in as callbacks, so the model assumes nothing about them.
- The directory read and the challenge file read. They are inputs: a listing or an error, and a parsed array, a parsed non-array or a failure. A JSON string in the challenge file is not modelled; a string has its own `slice`.
- Challenges.GetFeaturedChallenges: takes an integer limit. The fractional, NaN and infinite limits a JavaScript number allows are not modelled.
- The 3D trophy viewer, the modal clients, the difficulty colour tables, the static pages and the grain image generator. These are graphics, UI state and presentation.
