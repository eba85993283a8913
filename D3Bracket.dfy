/**
  The tournament-bracket normaliser of the D3 bracket view
  (src/components/D3Bracket.tsx): the rounds of a tournament are flattened
  into one node per match whose parent is the match its winner feeds into;
  when no node is an explicit root, a root is inferred from the nodes that
  no other node points at; and the canvas height is derived from the
  largest round. The d3 layout and the drawing are not part of this model.
 */
module D3Bracket {
  import opened Wrappers
  import opened BracketData
  import opened IntMath

  /** The record handed to d3.stratify: parent = the match this one feeds into. */
  datatype StratifyNode = StratifyNode(
    id: string,
    parentId: Option<string>,
    matchData: Match,
    displayName: string)

  const WinnerOfPrefix: string := "Winner of "
  const Undecided: string := "TBD"

  // ---------------------------------------------------------------------
  // Display names
  // ---------------------------------------------------------------------

  /** The text shown for one side of a match. */
  function SlotToDisplayName(slot: MatchSlot, getPlayerName: PlayerNames): (name: string)
    ensures slot.slotType == ProgressionSlot && Truthy(slot.sourceMatchId) ==>
      && |name| > |WinnerOfPrefix|
      && name[..|WinnerOfPrefix|] == WinnerOfPrefix
      && name[|WinnerOfPrefix|..] == slot.sourceMatchId.value
    ensures slot.slotType == PlayerSlot && Truthy(slot.playerId) ==> name == getPlayerName(slot.playerId)
    ensures (!(slot.slotType == PlayerSlot && Truthy(slot.playerId)) &&
             !(slot.slotType == ProgressionSlot && Truthy(slot.sourceMatchId))) ==> name == Undecided
  {
    if slot.slotType == PlayerSlot && Truthy(slot.playerId) then
      getPlayerName(slot.playerId)
    else if slot.slotType == ProgressionSlot && Truthy(slot.sourceMatchId) then
      WinnerOfPrefix + slot.sourceMatchId.value
    else
      Undecided
  }

  /** Only a player slot with a non-empty id consults the player names. */
  lemma SlotNameIgnoresPlayerNames(slot: MatchSlot, g1: PlayerNames, g2: PlayerNames)
    requires !(slot.slotType == PlayerSlot && Truthy(slot.playerId))
    ensures SlotToDisplayName(slot, g1) == SlotToDisplayName(slot, g2)
  {
  }

  /** The name of a node: "<side 1> vs <side 2>" for a two-slot match, else "Match <id>". */
  function MatchDisplayName(m: Match, getPlayerName: PlayerNames): string
  {
    if |m.slots| == 2 then
      SlotToDisplayName(m.slots[0], getPlayerName) + " vs " + SlotToDisplayName(m.slots[1], getPlayerName)
    else
      "Match " + m.id
  }

  // ---------------------------------------------------------------------
  // Flattening rounds into nodes
  // ---------------------------------------------------------------------

  /** The number of matches over all rounds. */
  function TotalMatches(rounds: seq<Round>): nat
  {
    if rounds == [] then 0
    else TotalMatches(rounds[..|rounds| - 1]) + |rounds[|rounds| - 1].matches|
  }

  /** All matches, round by round, each round's matches in order. */
  function AllMatches(rounds: seq<Round>): (ms: seq<Match>)
    ensures |ms| == TotalMatches(rounds)
  {
    if rounds == [] then []
    else AllMatches(rounds[..|rounds| - 1]) + rounds[|rounds| - 1].matches
  }

  /** Match j of round i sits right after the matches of the earlier rounds. */
  lemma {:induction false} MatchPosition(rounds: seq<Round>, i: nat, j: nat)
    requires i < |rounds| && j < |rounds[i].matches|
    ensures TotalMatches(rounds[..i]) + j < TotalMatches(rounds)
    ensures AllMatches(rounds)[TotalMatches(rounds[..i]) + j] == rounds[i].matches[j]
  {
    var n := |rounds|;
    if i == n - 1 {
      assert rounds[..n - 1] == rounds[..i];
    } else {
      MatchPosition(rounds[..n - 1], i, j);
      assert rounds[..n - 1][..i] == rounds[..i];
    }
  }

  function NodeFor(m: Match, getPlayerName: PlayerNames): StratifyNode
  {
    StratifyNode(m.id, m.nextMatchId, m, MatchDisplayName(m, getPlayerName))
  }

  /** The node list transformDataForD3 builds, as a value. */
  function NodesFor(rounds: seq<Round>, getPlayerName: PlayerNames): seq<StratifyNode>
  {
    var ms := AllMatches(rounds);
    seq(|ms|, k requires 0 <= k < |ms| => NodeFor(ms[k], getPlayerName))
  }

  /** Walks the rounds and their matches, pushing one node per match. */
  method TransformDataForD3(rounds: seq<Round>, getPlayerName: PlayerNames) returns (d3Nodes: seq<StratifyNode>)
    ensures |d3Nodes| == TotalMatches(rounds)
    ensures forall k :: 0 <= k < |d3Nodes| ==>
      && d3Nodes[k].id == AllMatches(rounds)[k].id
      && d3Nodes[k].parentId == AllMatches(rounds)[k].nextMatchId
      && d3Nodes[k].matchData == AllMatches(rounds)[k]
      && d3Nodes[k].displayName == MatchDisplayName(AllMatches(rounds)[k], getPlayerName)
    ensures d3Nodes == NodesFor(rounds, getPlayerName)
  {
    d3Nodes := [];
    for i := 0 to |rounds|
      invariant d3Nodes == NodesFor(rounds[..i], getPlayerName)
    {
      var round := rounds[i];
      ghost var before := d3Nodes;
      for j := 0 to |round.matches|
        invariant |d3Nodes| == |before| + j
        invariant d3Nodes[..|before|] == before
        invariant forall k :: 0 <= k < j ==> d3Nodes[|before| + k] == NodeFor(round.matches[k], getPlayerName)
      {
        var match_ := round.matches[j];
        var nodeDisplayName := "Match " + match_.id;
        if |match_.slots| == 2 {
          var p1Name := SlotToDisplayName(match_.slots[0], getPlayerName);
          var p2Name := SlotToDisplayName(match_.slots[1], getPlayerName);
          nodeDisplayName := p1Name + " vs " + p2Name;
        }
        d3Nodes := d3Nodes + [StratifyNode(match_.id, match_.nextMatchId, match_, nodeDisplayName)];
      }
      assert rounds[..i + 1][..i] == rounds[..i];
      assert AllMatches(rounds[..i + 1]) == AllMatches(rounds[..i]) + round.matches;
      assert d3Nodes == NodesFor(rounds[..i + 1], getPlayerName);
    }
    assert rounds[..|rounds|] == rounds;
  }

  // ---------------------------------------------------------------------
  // Root resolution
  // ---------------------------------------------------------------------

  /** Some node is an explicit root (its parentId is null). */
  predicate HasRoot(nodes: seq<StratifyNode>)
  {
    exists k :: 0 <= k < |nodes| && nodes[k].parentId.None?
  }

  /** The ids that some node names as its parent. */
  function ParentIds(nodes: seq<StratifyNode>): set<string>
  {
    set k | 0 <= k < |nodes| && nodes[k].parentId.Some? :: nodes[k].parentId.value
  }

  /** The nodes whose id is not in `targets`, in their original order. */
  function NotTargeted(nodes: seq<StratifyNode>, targets: set<string>): (kept: seq<StratifyNode>)
    ensures |kept| <= |nodes|
    ensures forall n :: n in kept <==> n in nodes && n.id !in targets
  {
    if nodes == [] then []
    else (if nodes[0].id in targets then [] else [nodes[0]]) + NotTargeted(nodes[1..], targets)
  }

  /** The filter works piece by piece over a concatenation, so it keeps every qualifying node in order. */
  lemma {:induction false} NotTargetedOfConcat(a: seq<StratifyNode>, b: seq<StratifyNode>, targets: set<string>)
    ensures NotTargeted(a + b, targets) == NotTargeted(a, targets) + NotTargeted(b, targets)
  {
    if a == [] {
      assert a + b == b;
    } else {
      assert (a + b)[0] == a[0];
      assert (a + b)[1..] == a[1..] + b;
      NotTargetedOfConcat(a[1..], b, targets);
    }
  }

  /** With every id in `targets`, the filter keeps nothing. */
  lemma {:induction false} AllTargetedKeepsNothing(nodes: seq<StratifyNode>, targets: set<string>)
    requires forall k :: 0 <= k < |nodes| ==> nodes[k].id in targets
    ensures NotTargeted(nodes, targets) == []
  {
    if nodes != [] {
      AllTargetedKeepsNothing(nodes[1..], targets);
    }
  }

  /** With exactly one index outside `targets`, the filter keeps exactly that node, once. */
  lemma OneUntargetedIsSingleCandidate(nodes: seq<StratifyNode>, targets: set<string>, i: nat)
    requires i < |nodes| && nodes[i].id !in targets
    requires forall k :: 0 <= k < |nodes| && k != i ==> nodes[k].id in targets
    ensures NotTargeted(nodes, targets) == [nodes[i]]
  {
    var before, after := nodes[..i], nodes[i + 1..];
    assert nodes == before + ([nodes[i]] + after);
    forall k | 0 <= k < |after|
      ensures after[k].id in targets
    {
      assert after[k] == nodes[i + 1 + k];
    }
    AllTargetedKeepsNothing(before, targets);
    AllTargetedKeepsNothing(after, targets);
    NotTargetedOfConcat([nodes[i]], after, targets);
    NotTargetedOfConcat(before, [nodes[i]] + after, targets);
  }

  /** The root candidates: nodes that no node names as its parent. */
  function PotentialRoots(nodes: seq<StratifyNode>): seq<StratifyNode>
  {
    NotTargeted(nodes, ParentIds(nodes))
  }

  /** With exactly one node outside `targets`, that node is the only one, at a known index. */
  lemma {:induction false} SingleCandidate(nodes: seq<StratifyNode>, targets: set<string>) returns (i: nat)
    requires |NotTargeted(nodes, targets)| == 1
    ensures i < |nodes| && nodes[i] == NotTargeted(nodes, targets)[0] && nodes[i].id !in targets
    ensures forall k :: 0 <= k < |nodes| && k != i ==> nodes[k].id in targets
  {
    var rest := NotTargeted(nodes[1..], targets);
    if nodes[0].id in targets {
      assert NotTargeted(nodes, targets) == rest;
      var i' := SingleCandidate(nodes[1..], targets);
      i := i' + 1;
      forall k | 0 <= k < |nodes| && k != i
        ensures nodes[k].id in targets
      {
        if k > 0 {
          assert nodes[k] == nodes[1..][k - 1];
        }
      }
    } else {
      assert NotTargeted(nodes, targets) == [nodes[0]] + rest;
      i := 0;
      forall k | 0 < k < |nodes|
        ensures nodes[k].id in targets
      {
        assert nodes[k] in nodes[1..];
      }
    }
  }

  /** Array.prototype.findIndex on ids: the first index holding `id`, or -1. */
  function FindIndex(nodes: seq<StratifyNode>, id: string): (r: int)
    ensures -1 <= r < |nodes|
    ensures r == -1 <==> forall k :: 0 <= k < |nodes| ==> nodes[k].id != id
    ensures r >= 0 ==> nodes[r].id == id && forall k :: 0 <= k < r ==> nodes[k].id != id
  {
    if nodes == [] then -1
    else if nodes[0].id == id then 0
    else
      var r := FindIndex(nodes[1..], id);
      if r == -1 then -1 else r + 1
  }

  /** What happens to the node list before d3.stratify. */
  datatype Resolution =
    | NoData                             // "No match data to display."
    | NoRoot                             // "Error: Could not determine bracket root."
    | Proceed(nodes: seq<StratifyNode>)  // handed to d3.stratify

  /** The root-resolution rules, as a function of the transformed nodes. */
  function Resolve(nodes: seq<StratifyNode>): (r: Resolution)
    ensures r.NoData? <==> |nodes| == 0
  {
    if |nodes| == 0 then NoData
    else if HasRoot(nodes) then Proceed(nodes)
    else
      var roots := PotentialRoots(nodes);
      if |roots| == 1 then
        var rootIndex := FindIndex(nodes, roots[0].id);
        if rootIndex != -1 then Proceed(nodes[rootIndex := nodes[rootIndex].(parentId := None)])
        else Proceed(nodes)
      else if |roots| == 0 then NoRoot
      else Proceed(nodes)
  }

  /** An explicit root means the nodes reach d3.stratify untouched. */
  lemma ResolveKeepsExplicitRoot(nodes: seq<StratifyNode>)
    requires HasRoot(nodes)
    ensures Resolve(nodes) == Proceed(nodes)
  {
  }

  /**
    Without an explicit root and with exactly one candidate, only that
    candidate's parentId is cleared, and it is then the only root.
   */
  lemma ResolveInfersUniqueRoot(nodes: seq<StratifyNode>) returns (i: nat)
    requires |nodes| > 0 && !HasRoot(nodes) && |PotentialRoots(nodes)| == 1
    ensures i < |nodes| && nodes[i].id !in ParentIds(nodes)
    ensures forall k :: 0 <= k < |nodes| && k != i ==> nodes[k].id in ParentIds(nodes)
    ensures Resolve(nodes) == Proceed(nodes[i := nodes[i].(parentId := None)])
    ensures forall k :: 0 <= k < |nodes| ==> (Resolve(nodes).nodes[k].parentId.None? <==> k == i)
  {
    i := SingleCandidate(nodes, ParentIds(nodes));
    var rootIndex := FindIndex(nodes, PotentialRoots(nodes)[0].id);
    assert rootIndex == i;
  }

  /**
    The same fix-up stated from the nodes themselves: when node i is the one
    node whose id nobody names as a parent and no node is an explicit root,
    node i, and only node i, loses its parent.
   */
  lemma ResolveInfersRootAtIndex(nodes: seq<StratifyNode>, i: nat)
    requires i < |nodes| && !HasRoot(nodes) && nodes[i].id !in ParentIds(nodes)
    requires forall k :: 0 <= k < |nodes| && k != i ==> nodes[k].id in ParentIds(nodes)
    ensures |PotentialRoots(nodes)| == 1
    ensures Resolve(nodes) == Proceed(nodes[i := nodes[i].(parentId := None)])
    ensures forall k :: 0 <= k < |nodes| ==> (Resolve(nodes).nodes[k].parentId.None? <==> k == i)
  {
    OneUntargetedIsSingleCandidate(nodes, ParentIds(nodes), i);
    var j := ResolveInfersUniqueRoot(nodes);
    assert j == i;
  }

  /** The bracket-root error happens exactly when every id is some node's parent. */
  lemma ResolveNoRootIff(nodes: seq<StratifyNode>)
    ensures Resolve(nodes) == NoRoot <==>
      |nodes| > 0 && !HasRoot(nodes) && forall k :: 0 <= k < |nodes| ==> nodes[k].id in ParentIds(nodes)
  {
    if |nodes| > 0 && !HasRoot(nodes) {
      var roots := PotentialRoots(nodes);
      if |roots| == 0 {
        forall k | 0 <= k < |nodes|
          ensures nodes[k].id in ParentIds(nodes)
        {
          assert nodes[k] in nodes;
        }
      } else {
        assert roots[0] in nodes;
      }
    }
  }

  /** Several candidates: a warning only; the nodes go on unchanged. */
  lemma ResolveAmbiguousProceedsUnchanged(nodes: seq<StratifyNode>)
    requires !HasRoot(nodes) && |PotentialRoots(nodes)| > 1
    ensures Resolve(nodes) == Proceed(nodes)
  {
  }

  /**
    Resolution changes at most one node, and only its parentId, which it clears;
    ids, match data and display names are kept, position by position.
   */
  lemma ResolveChangesAtMostOneParent(nodes: seq<StratifyNode>)
    requires Resolve(nodes).Proceed?
    ensures |Resolve(nodes).nodes| == |nodes|
    ensures forall k :: 0 <= k < |nodes| ==>
      Resolve(nodes).nodes[k] == nodes[k] || Resolve(nodes).nodes[k] == nodes[k].(parentId := None)
    ensures forall k1, k2 ::
      (0 <= k1 < |nodes| && 0 <= k2 < |nodes| &&
       Resolve(nodes).nodes[k1] != nodes[k1] && Resolve(nodes).nodes[k2] != nodes[k2]) ==> k1 == k2
  {
  }

  /** Resolving a list that already proceeded changes nothing more. */
  lemma ResolveIdempotent(nodes: seq<StratifyNode>)
    requires Resolve(nodes).Proceed?
    ensures Resolve(Resolve(nodes).nodes) == Resolve(nodes)
  {
    if !HasRoot(nodes) && |PotentialRoots(nodes)| == 1 {
      var i := ResolveInfersUniqueRoot(nodes);
      assert Resolve(nodes).nodes[i].parentId.None?;
    }
  }

  /** The fix-up step that follows transformDataForD3, run on the node array in place. */
  datatype Stage = NoMatchDataMessage | RootErrorMessage | Layout

  method ResolveRootInPlace(transformedNodes: array<StratifyNode>) returns (stage: Stage)
    modifies transformedNodes
    ensures stage == NoMatchDataMessage <==> Resolve(old(transformedNodes[..])) == NoData
    ensures stage == RootErrorMessage <==> Resolve(old(transformedNodes[..])) == NoRoot
    ensures stage == Layout ==> Resolve(old(transformedNodes[..])) == Proceed(transformedNodes[..])
    ensures stage != Layout ==> transformedNodes[..] == old(transformedNodes[..])
  {
    if transformedNodes.Length == 0 {
      return NoMatchDataMessage;
    }
    var current := transformedNodes[..];
    if !HasRoot(current) {
      var potentialRoots := PotentialRoots(current);
      if |potentialRoots| == 1 {
        var rootIndex := FindIndex(current, potentialRoots[0].id);
        if rootIndex != -1 {
          transformedNodes[rootIndex] := transformedNodes[rootIndex].(parentId := None);
        }
      } else if |potentialRoots| == 0 {
        return RootErrorMessage;
      }
    }
    return Layout;
  }

  // ---------------------------------------------------------------------
  // Canvas height
  // ---------------------------------------------------------------------

  const MarginTop: int := 20
  const MarginBottom: int := 20
  const MinCanvasHeight: int := 600
  const HeightPerMatch: int := 100

  /** The largest number of matches in one round (0 for no rounds), folded left to right. */
  function MaxMatchesPerRound(rounds: seq<Round>): (m: nat)
    ensures forall i :: 0 <= i < |rounds| ==> |rounds[i].matches| <= m
    ensures rounds == [] ==> m == 0
    ensures rounds != [] ==> exists i :: 0 <= i < |rounds| && |rounds[i].matches| == m
  {
    if rounds == [] then 0
    else Max(MaxMatchesPerRound(rounds[..|rounds| - 1]), |rounds[|rounds| - 1].matches|)
  }

  /** The drawing height inside the margins. */
  function CanvasHeight(rounds: seq<Round>): (h: int)
    ensures h >= MinCanvasHeight - MarginTop - MarginBottom
    ensures forall i :: 0 <= i < |rounds| ==> |rounds[i].matches| * HeightPerMatch - MarginTop - MarginBottom <= h
    ensures h == MinCanvasHeight - MarginTop - MarginBottom ||
      exists i :: 0 <= i < |rounds| && h == |rounds[i].matches| * HeightPerMatch - MarginTop - MarginBottom
  {
    Max(MinCanvasHeight, MaxMatchesPerRound(rounds) * HeightPerMatch) - MarginTop - MarginBottom
  }

  // ---------------------------------------------------------------------
  // The effect, up to the point where d3 takes over
  // ---------------------------------------------------------------------

  /**
    The bracket effect before d3.stratify: the height, the node list,
    and what the root fix-up decides about it.
   */
  method PrepareBracket(rounds: seq<Round>, getPlayerName: PlayerNames) returns (height: int, result: Resolution)
    ensures height == CanvasHeight(rounds)
    ensures result == Resolve(NodesFor(rounds, getPlayerName))
  {
    height := Max(MinCanvasHeight, MaxMatchesPerRound(rounds) * HeightPerMatch) - MarginTop - MarginBottom;
    var transformed := TransformDataForD3(rounds, getPlayerName);
    var transformedNodes := new StratifyNode[|transformed|](k requires 0 <= k < |transformed| => transformed[k]);
    assert transformedNodes[..] == transformed;
    var stage := ResolveRootInPlace(transformedNodes);
    match stage {
      case NoMatchDataMessage => result := NoData;
      case RootErrorMessage => result := NoRoot;
      case Layout => result := Proceed(transformedNodes[..]);
    }
  }

  /** A tournament without any match stops at "No match data to display.". */
  lemma NoMatchesMeansNoData(rounds: seq<Round>, getPlayerName: PlayerNames)
    ensures Resolve(NodesFor(rounds, getPlayerName)) == NoData <==> TotalMatches(rounds) == 0
  {
  }

  /** Two semi-finals, M1 (A v B) and M2 (C v D), feeding the final M3. */
  function ExampleRounds(): seq<Round>
  {
    var m1 := Match("M1", [MatchSlot(PlayerSlot, Some("A"), None, None), MatchSlot(PlayerSlot, Some("B"), None, None)],
                    None, None, Some("M3"));
    var m2 := Match("M2", [MatchSlot(PlayerSlot, Some("C"), None, None), MatchSlot(PlayerSlot, Some("D"), None, None)],
                    None, None, Some("M3"));
    var m3 := Match("M3", [MatchSlot(ProgressionSlot, None, None, Some("M1")), MatchSlot(ProgressionSlot, None, None, Some("M2"))],
                    None, None, None);
    [Round(1, "Semi-finals", [m1, m2]), Round(2, "Final", [m3])]
  }

  /**
    The final is the explicit root, the nodes go to layout unchanged, and
    the final's name names the matches that feed it.
   */
  lemma SemiFinalsAndFinalExample(getPlayerName: PlayerNames)
    ensures |NodesFor(ExampleRounds(), getPlayerName)| == 3
    ensures NodesFor(ExampleRounds(), getPlayerName)[0].parentId == Some("M3")
    ensures NodesFor(ExampleRounds(), getPlayerName)[1].parentId == Some("M3")
    ensures NodesFor(ExampleRounds(), getPlayerName)[2].id == "M3"
    ensures NodesFor(ExampleRounds(), getPlayerName)[2].parentId == None
    ensures NodesFor(ExampleRounds(), getPlayerName)[2].displayName == "Winner of M1" + " vs " + "Winner of M2"
    ensures Resolve(NodesFor(ExampleRounds(), getPlayerName)) == Proceed(NodesFor(ExampleRounds(), getPlayerName))
  {
    var rounds := ExampleRounds();
    var m1, m2, m3 := rounds[0].matches[0], rounds[0].matches[1], rounds[1].matches[0];
    assert rounds[..1] == [rounds[0]];
    assert rounds[..1][..0] == [];
    assert AllMatches(rounds[..1]) == [m1, m2];
    assert AllMatches(rounds) == [m1, m2, m3];
    var nodes := NodesFor(rounds, getPlayerName);
    assert nodes[2] == NodeFor(m3, getPlayerName);
    assert SlotToDisplayName(m3.slots[0], getPlayerName) == "Winner of M1";
    assert SlotToDisplayName(m3.slots[1], getPlayerName) == "Winner of M2";
    assert HasRoot(nodes);
  }
}
