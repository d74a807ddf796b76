# Vanity address search: match rule, worker scan and entry point

A model of the sequential core of `vanity_generator.py`, the back end that
searches for a Solana address starting or ending with a short pattern. It
covers three parts:

- **The match rule** (module `Matching`). A candidate address matches when the
  search type is `"prefix"` and the address starts with the pattern, or the
  search type is `"suffix"` and the address ends with it. When the search is
  case-insensitive, both strings are lower-cased first (module `Ascii`, ASCII
  lower-casing). Any other search type matches nothing.
- **The worker scan** (module `Search`). `find_vanity_address` is a loop. It
  reads the shared stop flag, draws a fresh address, increments `counter`,
  and tests the address. It ends on the first match with
  `attempts == counter`, or returns nothing when the flag is set. The method
  `FindVanityAddress` keeps this loop. Key-pair generation becomes the
  sequence `draws` of the addresses generated, in order. The stop flag
  becomes `stopSeen`, the value read from it before each draw.
- **The entry point** (module `Cli`). `main` needs at least eight command-line
  entries and reads the search type, pattern and case flag from positions 2, 4 and 6.
  The case flag is on only for the exact string `"true"`. At the end, `main`
  prints the received result and exits with 0, or prints
  `{"error": "Generation failed"}` and exits with 1. Too few arguments print
  `{"error": "Missing arguments"}` and exit with 1. The worker processes and the
  result queue are represented by a function argument `generate`. Its value is
  the first result that arrived on the queue, or `None` when none arrived.

Python's `if result:` is modelled as "a result was received". A received
result is always a non-empty dictionary, so it is always truthy.

## Model

| member | source | states |
|---|---|---|
| `Ascii.LowerChar` | vanity_generator.py:35 | one character lower-cased: an upper-case letter becomes the lower-case letter 32 code points above it, every other character is kept, and the result is never an upper-case letter |
| `Ascii.Lower` | vanity_generator.py:23 | lower-casing keeps the length of the string |
| `Ascii.LowerAt` | vanity_generator.py:35 | lower-casing works character by character: position `i` of the result is the lower-case form of position `i` of the input |
| `Ascii.LowerConcat` | vanity_generator.py:35 | lower-casing distributes over concatenation |
| `Ascii.LowerSlice` | vanity_generator.py:35 | lower-casing commutes with taking a slice, so the lower-cased prefix of an address is the prefix of the lower-cased address |
| `Ascii.LowerIdempotent` | vanity_generator.py:23 | lower-casing twice is lower-casing once |
| `Ascii.LowerOfUpper` | vanity_generator.py:35 | lower-casing an upper-cased string gives the same as lower-casing the original, so the original letter case is lost |
| `Matching.Normalize` | vanity_generator.py:23 | the compared string is the input itself when the search is case-sensitive, and otherwise a string that lower-casing leaves unchanged |
| `Matching.StartsWith` | vanity_generator.py:37 | `startswith(p)` implies the pattern is no longer than the string and agrees with it character by character from the start |
| `Matching.EndsWith` | vanity_generator.py:38 | `endswith(p)` implies the pattern is no longer than the string and agrees with the same number of characters at the end of the string |
| `Matching.Hit` | vanity_generator.py:37-38 | a hit on the normalised strings needs the search type `"prefix"` or `"suffix"` and a pattern no longer than the address |
| `Matching.Matches` | vanity_generator.py:35-38 | a match needs the search type `"prefix"` or `"suffix"` and a pattern no longer than the address, in both case modes |
| `Matching.StartsWithIffConcat` | vanity_generator.py:37 | `startswith(p)` holds exactly when the string is `p` followed by some rest |
| `Matching.EndsWithIffConcat` | vanity_generator.py:38 | `endswith(p)` holds exactly when the string is some front followed by `p` |
| `Matching.CaseSensitiveMatch` | vanity_generator.py:35-38 | case-sensitive: a prefix search matches exactly the addresses that are the pattern followed by something, and a suffix search exactly those that are something followed by the pattern; nothing else matches |
| `Matching.CaseInsensitiveMatch` | vanity_generator.py:23-38 | case-insensitive: the same statement about the lower-cased address and the lower-cased pattern |
| `Matching.CaseInsensitiveIgnoresCase` | vanity_generator.py:23-38 | case-insensitive outcomes depend only on the lower-case forms, so two patterns or two addresses that differ only in letter case give the same outcome |
| `Matching.CaseInsensitiveIgnoresUpper` | vanity_generator.py:23-38 | upper-casing the pattern or the address never changes a case-insensitive outcome |
| `Matching.SensitiveImpliesInsensitive` | vanity_generator.py:23-38 | a case-sensitive match is also a case-insensitive match, for the same search type, pattern and address |
| `Matching.InsensitiveDoesNotImplySensitive` | vanity_generator.py:23-38 | the converse fails: `"SOLx"` matches the prefix `"sol"` only when case is ignored |
| `Matching.UnknownSearchTypeNeverMatches` | vanity_generator.py:37-38 | a search type other than `"prefix"` or `"suffix"` matches no address |
| `Matching.EmptyPatternMatchesAll` | vanity_generator.py:37-38 | the empty pattern matches every address, for both search types and both case modes |
| `Matching.PrefixPatternShortening` | vanity_generator.py:37 | if an address matches the prefix `p + q`, it matches the prefix `p` |
| `Matching.SuffixPatternShortening` | vanity_generator.py:38 | if an address matches the suffix `q + p`, it matches the suffix `p` |
| `Search.IsScanOutcome` | vanity_generator.py:25-54 | the worker's promise: a result ends at a real draw, a stop happens at a real draw, and running out happens after all draws |
| `Search.FindVanityAddress` | vanity_generator.py:19-54 | the scan returns the first matching draw as the result, with `attempts` equal to its 1-based position, and every earlier draw saw a clear flag and did not match; or it returns without a result at the first draw whose flag reading is set; or it ends without a result when the draws run out |
| `Search.ScanOutcomeUnique` | vanity_generator.py:25-54 | that promise determines the outcome uniquely from the draws and the flag readings |
| `Search.FoundIsFirstMatch` | vanity_generator.py:32-38 | a result has `attempts >= 1`, and its position is no later than that of any matching draw |
| `Search.UnknownSearchTypeNeverFound` | vanity_generator.py:37-38 | with an unknown search type the worker never produces a result |
| `Search.StopFlagEndsScan` | vanity_generator.py:27-28 | if the flag is set when draw `k` is reached, the worker either found a result before draw `k` or returns without one at or before draw `k` |
| `Cli.DecodeArgs` | vanity_generator.py:60-66 | decoding fails with "Missing arguments" exactly when there are fewer than eight entries; otherwise the search type is entry 2, the pattern is entry 4, and the case flag is on exactly when entry 6 is `"true"` |
| `Cli.WithArgs` | vanity_generator.py:64-66 | writing arguments into a vector puts the search type at entry 2, the pattern at entry 4 and `"true"` or `"false"` at entry 6, and keeps the length and every other entry |
| `Cli.DecodeWithArgs` | vanity_generator.py:60-66 | decoding a vector written for some arguments gives those arguments back |
| `Cli.DecodeReadsOnlyItsPositions` | vanity_generator.py:64-66 | two complete vectors that agree on entries 2, 4 and 6 decode to the same arguments |
| `Cli.CaseFlagIsExact` | vanity_generator.py:66 | for a complete vector, `"True"`, `"TRUE"`, `"1"` and `""` at entry 6 all leave case sensitivity off, and `"true"` turns it on |
| `Cli.SelectOutcome` | vanity_generator.py:99-104 | the exit code is 0 exactly when a result was received, and the result is then printed; otherwise the output is the "Generation failed" error with code 1 |
| `Cli.Main` | vanity_generator.py:59-104 | with fewer than eight arguments `main` prints the "Missing arguments" error and exits with 1 |
| `Cli.MainExitCode` | vanity_generator.py:59-104 | `main` exits with 0 exactly when the arguments are complete and a result arrived, and then prints that result; otherwise it exits with 1 and prints an error object |
| `Cli.MainSuccessMatches` | vanity_generator.py:64-101 | when the delivered result is a worker's result for the decoded arguments, a successful run prints an address that matches the requested pattern, found at the 1-based draw position it reports |
| `Cli.UnknownSearchTypeFails` | vanity_generator.py:37-38 | with an unknown search type, a run whose result can only come from a worker ends with the "Generation failed" error |

## Left out

- Key-pair generation (`Keypair()`, `str(keypair.pubkey())`) is a foreign library call with randomness. It is replaced by the input sequence `draws`.
- Search.FindVanityAddress: the source loop never ends on its own. Because `draws` is finite, the model adds an `Exhausted` outcome when the draws run out. The worker then returns nothing, as when it is stopped.
- The exception handler (lines 56-57) is left out. It can only be reached through the foreign library calls, and it prints to standard error and returns nothing.
- The stop flag is shared between processes. The model reads it as one given value per draw, and does not model setting it after a match (line 41).
- Key serialisation (`bytes(keypair)`, base58 encoding, hex encoding) is left out, because these are library encoders. A result carries only `address` and `attempts`.
- The elapsed time and its rounding (lines 20 and 50) are left out, because they depend on the clock and use floating point.
- Multiprocessing is left out: the manager, the shared value, the result queue, starting, terminating, killing and joining processes, `NUM_PROCESSES`, and the 3600-second queue timeout. This is concurrency and OS process control. Their combined effect is the `generate` argument of `Cli.Main`.
- JSON printing, standard-error logging and the process exit itself are I/O. They are modelled as the `Exit` value (code and printed object).
- Python's Unicode `str.lower()` is modelled as ASCII lower-casing. This is exact for addresses, which are base58 and so pure ASCII. The pattern is not restricted, and for a non-ASCII pattern the model can differ from Python. For example, Python lower-cases the Kelvin sign U+212A to ASCII `k`, so a case-insensitive prefix search for it matches addresses starting with `k` or `K`. `Ascii.Lower` keeps U+212A unchanged, so the model matches no address.
