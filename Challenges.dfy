/**
  The challenge lists (src/lib/challenges.ts): all challenges from the data
  file, the featured ones (a prefix), and all but the featured ones (the
  suffix from index 2). Reading and parsing the file is an input.
 */
module Challenges {
  import opened IntMath

  datatype Difficulty = Easy | Medium | Hard

  datatype Challenge = Challenge(id: string, title: string, description: string, difficulty: Difficulty)

  /** What reading and parsing data/challenges.json gave. */
  datatype ChallengesFile =
    | Unreadable                               // readFile or JSON.parse threw
    | ParsedArray(challenges: seq<Challenge>)  // the file holds an array
    | ParsedNonArray                           // valid JSON without a slice method: an object, a number, true/false or null

  /** What getAllChallenges resolves to: the parsed value is returned without a check. */
  datatype Loaded = LoadedArray(items: seq<Challenge>) | LoadedNonArray

  /** The outcome of a promise. */
  datatype Settled<T> = Fulfilled(value: T) | Rejected

  const DefaultFeaturedLimit: int := 2
  /** The number of leading challenges getAllChallengesButFeatured skips. */
  const FeaturedSkip: nat := 2

  /** getAllChallenges: a read or parse failure is caught and becomes the empty list. */
  function GetAllChallenges(file: ChallengesFile): (loaded: Loaded)
    ensures file.Unreadable? ==> loaded == LoadedArray([])
    ensures file.ParsedArray? ==> loaded == LoadedArray(file.challenges)
    ensures file.ParsedNonArray? <==> loaded == LoadedNonArray
  {
    match file
    case Unreadable => LoadedArray([])
    case ParsedArray(cs) => LoadedArray(cs)
    case ParsedNonArray => LoadedNonArray
  }

  /** The end index Array.prototype.slice uses for an integer `end` on a list of length `len`. */
  function SliceIndex(len: nat, end: int): (e: nat)
    ensures e <= len
  {
    if end < 0 then Max(len + end, 0) else Min(end, len)
  }

  /**
    getFeaturedChallenges: `slice(0, limit)` of all challenges; the TypeError
    a non-array raises is caught and gives the empty list.
   */
  function GetFeaturedChallenges(file: ChallengesFile, limit: int := DefaultFeaturedLimit): (featured: seq<Challenge>)
    ensures !file.ParsedArray? ==> featured == []
    ensures file.ParsedArray? ==> featured <= file.challenges
    ensures file.ParsedArray? && limit >= 0 ==> |featured| == Min(limit, |file.challenges|)
    ensures file.ParsedArray? && limit < 0 ==> |featured| == Max(|file.challenges| + limit, 0)
  {
    match GetAllChallenges(file)
    case LoadedArray(cs) => cs[..SliceIndex(|cs|, limit)]
    case LoadedNonArray => []
  }

  /**
    getAllChallengesButFeatured: `slice(2)` of all challenges; nothing
    catches the TypeError a non-array raises, so the promise rejects.
   */
  function GetAllChallengesButFeatured(file: ChallengesFile): (rest: Settled<seq<Challenge>>)
    ensures file.ParsedNonArray? <==> rest.Rejected?
    ensures file.Unreadable? ==> rest == Fulfilled([])
    ensures file.ParsedArray? ==>
      && |rest.value| == Max(|file.challenges| - FeaturedSkip, 0)
      && file.challenges == file.challenges[..|file.challenges| - |rest.value|] + rest.value
  {
    match GetAllChallenges(file)
    case LoadedArray(cs) => Fulfilled(cs[SliceIndex(|cs|, FeaturedSkip)..])
    case LoadedNonArray => Rejected
  }

  /**
    When both functions read the same file, the featured challenges with the
    default limit followed by the rest are exactly all challenges, in order.
   */
  lemma FeaturedThenRestIsAll(file: ChallengesFile)
    requires !file.ParsedNonArray?
    ensures GetAllChallengesButFeatured(file).Fulfilled?
    ensures GetFeaturedChallenges(file) + GetAllChallengesButFeatured(file).value ==
      GetAllChallenges(file).items
  {
    match file
    case Unreadable =>
    case ParsedArray(cs) =>
      var k := SliceIndex(|cs|, FeaturedSkip);
      assert k == SliceIndex(|cs|, DefaultFeaturedLimit);
      assert cs[..k] + cs[k..] == cs;
  }

  /** A failed read leaves both derived lists empty. */
  lemma UnreadableFileGivesNothing(file: ChallengesFile, limit: int)
    requires file.Unreadable?
    ensures GetAllChallenges(file) == LoadedArray([])
    ensures GetFeaturedChallenges(file, limit) == []
    ensures GetAllChallengesButFeatured(file) == Fulfilled([])
  {
  }
}
