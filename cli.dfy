/**
  The entry point `main`: decoding the command line and turning what the
  workers delivered into the printed JSON object and the exit code. Starting
  and stopping the worker processes and waiting on the result queue are
  represented by `generate`, which gives the first result that arrived on the
  queue, or `None` when none arrived within the wait.
 */
module Cli {
  import opened Wrappers
  import opened Search

  /** The three values `main` reads from its argument vector. */
  datatype Args = Args(searchType: string, vanityString: string, caseSensitive: bool)

  /** The JSON object `main` prints. */
  datatype Report = ResultObject(result: VanityResult) | ErrorObject(message: string)

  /** What the process does last: print `report`, exit with `code`. */
  datatype Exit = Exit(code: int, report: Report)

  const MinArgc := 8
  const MissingArguments := "Missing arguments"
  const GenerationFailed := "Generation failed"

  /** Reads the search type, the pattern and the case flag from positions 2, 4 and 6;
      fewer than eight entries is the "Missing arguments" error. */
  function DecodeArgs(argv: seq<string>): (r: Result<Args, string>)
    ensures r.Err? <==> |argv| < MinArgc
    ensures r.Err? ==> r.error == MissingArguments
    ensures r.Ok? ==> r.value.searchType == argv[2] && r.value.vanityString == argv[4]
    ensures r.Ok? ==> (r.value.caseSensitive <==> argv[6] == "true")
  {
    if |argv| < MinArgc then Err(MissingArguments)
    else Ok(Args(argv[2], argv[4], argv[6] == "true"))
  }

  /** The argument vector written for `a`: any vector of eight or more entries
      with the three values placed at positions 2, 4 and 6. */
  function WithArgs(argv: seq<string>, a: Args): (v: seq<string>)
    requires |argv| >= MinArgc
    ensures |v| == |argv|
    ensures v[2] == a.searchType && v[4] == a.vanityString && v[6] == (if a.caseSensitive then "true" else "false")
    ensures forall i :: 0 <= i < |v| && i != 2 && i != 4 && i != 6 ==> v[i] == argv[i]
  {
    argv[2 := a.searchType][4 := a.vanityString][6 := if a.caseSensitive then "true" else "false"]
  }

  /** Decoding recovers exactly what was written. */
  lemma DecodeWithArgs(argv: seq<string>, a: Args)
    requires |argv| >= MinArgc
    ensures DecodeArgs(WithArgs(argv, a)) == Ok(a)
  {
  }

  /** Decoding reads positions 2, 4 and 6 and nothing else. */
  lemma DecodeReadsOnlyItsPositions(argv: seq<string>, argv': seq<string>)
    requires |argv| >= MinArgc && |argv'| >= MinArgc
    requires argv[2] == argv'[2] && argv[4] == argv'[4] && argv[6] == argv'[6]
    ensures DecodeArgs(argv) == DecodeArgs(argv')
  {
  }

  /** Only the exact lower-case "true" turns case sensitivity on. */
  lemma CaseFlagIsExact(argv: seq<string>)
    requires |argv| >= MinArgc
    ensures argv[6] in {"True", "TRUE", "1", ""} ==> !DecodeArgs(argv).value.caseSensitive
    ensures argv[6] == "true" ==> DecodeArgs(argv).value.caseSensitive
  {
  }

  /** The end of `main`: a received result is printed with exit code 0, anything else
      is the "Generation failed" error with exit code 1. */
  function SelectOutcome(received: Option<VanityResult>): (e: Exit)
    ensures e.code == 0 <==> received.Some?
    ensures received.Some? ==> e.report == ResultObject(received.value)
    ensures received.None? ==> e == Exit(1, ErrorObject(GenerationFailed))
  {
    match received
    case Some(result) => Exit(0, ResultObject(result))
    case None => Exit(1, ErrorObject(GenerationFailed))
  }

  /** The whole of `main`. */
  function Main(argv: seq<string>, generate: Args -> Option<VanityResult>): (e: Exit)
    ensures |argv| < MinArgc ==> e == Exit(1, ErrorObject(MissingArguments))
  {
    match DecodeArgs(argv)
    case Err(message) => Exit(1, ErrorObject(message))
    case Ok(a) => SelectOutcome(generate(a))
  }

  /** `main` exits with 0 exactly when the arguments were complete and a result arrived,
      and then prints that result; every other run prints an error object and exits with 1. */
  lemma MainExitCode(argv: seq<string>, generate: Args -> Option<VanityResult>)
    ensures Main(argv, generate).code == 0 <==>
            |argv| >= MinArgc && generate(DecodeArgs(argv).value).Some?
    ensures Main(argv, generate).code == 0 ==>
            Main(argv, generate).report == ResultObject(generate(DecodeArgs(argv).value).value)
    ensures Main(argv, generate).code != 0 ==>
            Main(argv, generate).code == 1 && Main(argv, generate).report.ErrorObject?
  {
  }

  /** When the delivered result is a worker's outcome for the decoded arguments, a
      successful run prints an address that matches the requested pattern, found
      on the attempt it reports. */
  lemma MainSuccessMatches(argv: seq<string>, generate: Args -> Option<VanityResult>,
                           draws: seq<string>, stopSeen: seq<bool>)
    requires |draws| == |stopSeen|
    requires |argv| >= MinArgc
    requires generate(DecodeArgs(argv).value).Some?
    requires IsScanOutcome(argv[2], argv[4], argv[6] == "true", draws, stopSeen,
                           Found(generate(DecodeArgs(argv).value).value))
    ensures Main(argv, generate).code == 0
    ensures Main(argv, generate).report.result.attempts >= 1
    ensures Matching.Matches(argv[2], argv[4], Main(argv, generate).report.result.address, argv[6] == "true")
    ensures draws[Main(argv, generate).report.result.attempts - 1] == Main(argv, generate).report.result.address
  {
    var a := DecodeArgs(argv).value;
    assert a == Args(argv[2], argv[4], argv[6] == "true");
    assert Main(argv, generate) == Exit(0, ResultObject(generate(a).value));
  }

  /** With an unknown search type, a run whose result can only come from the
      workers always ends with the "Generation failed" error. */
  lemma UnknownSearchTypeFails(argv: seq<string>, generate: Args -> Option<VanityResult>,
                               draws: seq<string>, stopSeen: seq<bool>)
    requires |draws| == |stopSeen|
    requires |argv| >= MinArgc && argv[2] != "prefix" && argv[2] != "suffix"
    requires generate(DecodeArgs(argv).value).Some? ==>
             IsScanOutcome(argv[2], argv[4], argv[6] == "true", draws, stopSeen,
                           Found(generate(DecodeArgs(argv).value).value))
    ensures Main(argv, generate) == Exit(1, ErrorObject(GenerationFailed))
  {
  }
}
