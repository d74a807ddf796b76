/**
  The worker scan of `find_vanity_address`. Key-pair generation is replaced by
  the sequence `draws` of the addresses the generator hands out, in order, and
  the shared stop flag by `stopSeen`, the value the worker reads from it just
  before drawing each address.
 */
module Search {
  import opened Matching

  /** The part of the worker's result the core computes. */
  datatype VanityResult = VanityResult(address: string, attempts: nat)

  /** How one worker ends: with a result, on seeing the stop flag after
      `examined` draws, or when the supplied draws run out. */
  datatype WorkerOutcome =
    | Found(result: VanityResult)
    | Stopped(examined: nat)
    | Exhausted(examined: nat)

  /** The worker goes on past draw `j`: the flag was clear and the address did not match. */
  predicate PassedOver(searchType: string, vanityString: string, caseSensitive: bool,
                       draws: seq<string>, stopSeen: seq<bool>, j: nat)
    requires j < |draws| == |stopSeen|
  {
    !stopSeen[j] && !Matches(searchType, vanityString, draws[j], caseSensitive)
  }

  /** What the worker promises for given draws and flag readings. */
  predicate IsScanOutcome(searchType: string, vanityString: string, caseSensitive: bool,
                          draws: seq<string>, stopSeen: seq<bool>, outcome: WorkerOutcome)
    requires |draws| == |stopSeen|
    ensures IsScanOutcome(searchType, vanityString, caseSensitive, draws, stopSeen, outcome) ==>
            0 <= StepsTaken(outcome) <= |draws|
    ensures IsScanOutcome(searchType, vanityString, caseSensitive, draws, stopSeen, outcome) && !outcome.Exhausted? ==>
            StepsTaken(outcome) < |draws|
  {
    match outcome
    case Found(r) =>
      1 <= r.attempts <= |draws| && r.address == draws[r.attempts - 1] &&
      !stopSeen[r.attempts - 1] && Matches(searchType, vanityString, r.address, caseSensitive) &&
      forall j :: 0 <= j < r.attempts - 1 ==>
        PassedOver(searchType, vanityString, caseSensitive, draws, stopSeen, j)
    case Stopped(n) =>
      n < |draws| && stopSeen[n] &&
      forall j :: 0 <= j < n ==> PassedOver(searchType, vanityString, caseSensitive, draws, stopSeen, j)
    case Exhausted(n) =>
      n == |draws| &&
      forall j :: 0 <= j < n ==> PassedOver(searchType, vanityString, caseSensitive, draws, stopSeen, j)
  }

  /** The scan loop: check the stop flag, draw an address, count it, test it. */
  method FindVanityAddress(searchType: string, vanityString: string, caseSensitive: bool,
                           draws: seq<string>, stopSeen: seq<bool>) returns (outcome: WorkerOutcome)
    requires |draws| == |stopSeen|
    ensures IsScanOutcome(searchType, vanityString, caseSensitive, draws, stopSeen, outcome)
  {
    var counter := 0;
    var stringToCheck := Normalize(vanityString, caseSensitive);
    while counter < |draws|
      invariant counter <= |draws|
      invariant forall j :: 0 <= j < counter ==>
        PassedOver(searchType, vanityString, caseSensitive, draws, stopSeen, j)
    {
      if stopSeen[counter] {
        return Stopped(counter);
      }
      var address := draws[counter];
      counter := counter + 1;
      var addressCheck := Normalize(address, caseSensitive);
      if Hit(searchType, addressCheck, stringToCheck) {
        return Found(VanityResult(address, counter));
      }
    }
    return Exhausted(counter);
  }

  /** The index of the draw at which the worker ended (or the number of draws, if none). */
  function StepsTaken(o: WorkerOutcome): int {
    match o
    case Found(r) => r.attempts - 1
    case Stopped(n) => n
    case Exhausted(n) => n
  }

  /** The promise determines the outcome: there is never a choice between two. */
  lemma ScanOutcomeUnique(searchType: string, vanityString: string, caseSensitive: bool,
                          draws: seq<string>, stopSeen: seq<bool>, o1: WorkerOutcome, o2: WorkerOutcome)
    requires |draws| == |stopSeen|
    requires IsScanOutcome(searchType, vanityString, caseSensitive, draws, stopSeen, o1)
    requires IsScanOutcome(searchType, vanityString, caseSensitive, draws, stopSeen, o2)
    ensures o1 == o2
  {
    var n1 := StepsTaken(o1);
    var n2 := StepsTaken(o2);
    assert n1 < n2 ==> PassedOver(searchType, vanityString, caseSensitive, draws, stopSeen, n1);
    assert n2 < n1 ==> PassedOver(searchType, vanityString, caseSensitive, draws, stopSeen, n2);
  }

  /** A result is the first matching draw, and `attempts` is its 1-based position. */
  lemma FoundIsFirstMatch(searchType: string, vanityString: string, caseSensitive: bool,
                          draws: seq<string>, stopSeen: seq<bool>, r: VanityResult, j: nat)
    requires |draws| == |stopSeen|
    requires IsScanOutcome(searchType, vanityString, caseSensitive, draws, stopSeen, Found(r))
    requires j < |draws| && Matches(searchType, vanityString, draws[j], caseSensitive)
    ensures r.attempts >= 1 && r.attempts - 1 <= j
  {
    assert j < r.attempts - 1 ==> PassedOver(searchType, vanityString, caseSensitive, draws, stopSeen, j);
  }

  /** With an unknown search type the worker can never produce a result. */
  lemma UnknownSearchTypeNeverFound(searchType: string, vanityString: string, caseSensitive: bool,
                                    draws: seq<string>, stopSeen: seq<bool>, outcome: WorkerOutcome)
    requires |draws| == |stopSeen|
    requires searchType != "prefix" && searchType != "suffix"
    requires IsScanOutcome(searchType, vanityString, caseSensitive, draws, stopSeen, outcome)
    ensures !outcome.Found?
  {
  }

  /** A flag that is set when the worker reaches draw `k` stops it there, unless an
      earlier draw already matched; either way draw `k` and later draws are never taken. */
  lemma StopFlagEndsScan(searchType: string, vanityString: string, caseSensitive: bool,
                         draws: seq<string>, stopSeen: seq<bool>, outcome: WorkerOutcome, k: nat)
    requires |draws| == |stopSeen|
    requires k < |stopSeen| && stopSeen[k]
    requires IsScanOutcome(searchType, vanityString, caseSensitive, draws, stopSeen, outcome)
    ensures outcome.Found? ==> outcome.result.attempts <= k
    ensures !outcome.Found? ==> outcome.Stopped? && outcome.examined <= k
  {
    assert k < StepsTaken(outcome) ==> PassedOver(searchType, vanityString, caseSensitive, draws, stopSeen, k);
  }
}
