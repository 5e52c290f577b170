# rust-pdfguard: the format sniffer and the PDF risk scorer

rust-pdfguard takes a byte buffer and decides two things: what the buffer
really is (PDF, JPEG, PNG, DOCX or unknown) judged by its content, and, for a
PDF, whether it looks malicious. The sniffer tests fixed magic prefixes. For
a ZIP container it also looks for the OPC `[Content_Types].xml` part among
the first ten archive entries. The scorer projects the bytes into a
lower-cased ASCII text view and runs a fixed sequence of checks over it:

- five regular expressions;
- substring tests;
- an object count;
- an EICAR window search over the raw bytes;
- an entropy reading.

Every check that fires pushes a finding and adds its weight to a score. A
score of at least 10 makes the PDF Suspicious; the findings are returned in
the order the checks ran, followed by a risk-score line. Every type other
than PDF is Clean.

The project has five modules, one per file:

- `Ascii` (`ascii.dfy`): bytes and the few Rust slice and string operations
  the code relies on. These are `starts_with`, `contains`,
  `matches().count()`, `to_ascii_lowercase` and `eq_ignore_ascii_case`.
- `FileTypes` (`filetype.dfy`): `detect_file_type`, as a function of the
  buffer and of what the ZIP reader reports for it.
- `Patterns` (`patterns.dfy`): the five regular expressions of the scorer.
  Each is written out as a matcher for its one pattern, with `captures_iter`
  as a leftmost, non-overlapping scan.
- `Entropy` (`entropy.dfy`): the integer part of `calculate_entropy`. This is
  the 256-bin histogram loop, a method over an array.
- `PdfAnalysis` (`pdf_analysis.dfy`):
  - the text view;
  - one method per check step, threading `findings` and `score` as the source
    does;
  - `AnalyzePdf` and `AnalyzeData`.

  Each step is proved against a specification function. The list of hits
  (finding and weight) that the check contributes is `JsHits`, `LaunchHits`,
  and so on. `CheckHits` is all of them in order. `PdfScore` and `PdfVerdict`
  are the score and the verdict they determine. The lemmas at the end of the
  file state what the checks can contribute.

## What the code does, as opposed to what its findings announce

The model follows the code. Where the code falls short of what its own
finding texts and weights announce, the gap is proved as a property of the
model:

- The JavaScript, Launch, OpenAction and URI patterns contain capital letters
  and have no case-insensitive flag. They are matched against the lower-cased
  text view, so they never match anything, and those four checks never add a
  finding or a point. This is `Patterns.JsNeverMatches`,
  `Patterns.LaunchNeverMatches`, `Patterns.OpenActionNeverMatches`,
  `Patterns.UriNeverMatches` and `PdfAnalysis.DeadPatterns`. The same
  patterns do fire on text in its original case
  (`Patterns.JsMatchesCapitalised`, `Patterns.LaunchTargetsCapitalised`,
  `Patterns.OpenActionMatchesCapitalised`, `Patterns.UriTargetsCapitalised`).
  So a PDF holding `/JavaScript /JS` and `/Launch /F (payload.exe)` scores 0,
  although the code gives weight 8 to "Embedded JavaScript action detected"
  (src/pdf_analysis.rs:158-161) and weight 10 to a launch of an `.exe`
  (src/pdf_analysis.rs:167-171), 18 in all.
- The EICAR constant is spelled in lower case. It is compared with the raw,
  not lower-cased, bytes, so the standard upper-case EICAR test string is not
  detected (`PdfAnalysis.StandardEicarMissed`). Only its lower-case spelling
  is.
- Only the UNC-path pattern is case-insensitive, and it does match
  (`Patterns.UncMatchesLowerCase`).
- As a consequence the score is at most 34, so the `u32` score never wraps
  (`PdfAnalysis.ScoreBound`).

## Model

| member | source | states |
|---|---|---|
| `FileTypes.DetectFileType` | src/filetype.rs:13-41 | The result is Pdf, Jpg or Png exactly when the buffer starts with that signature. It is Docx exactly when the buffer starts with the ZIP signature and one of the first 10 entries is the content-types part. The empty buffer is Unknown. |
| `FileTypes.FindContentTypes` | src/filetype.rs:30-36 | The bounded entry loop finds a match exactly when some index in the range holds a readable entry named `[Content_Types].xml`, ignoring ASCII case. |
| `FileTypes.MagicPrefixesExclusive` | src/filetype.rs:14-27 | The four signatures start with four different bytes, so at most one prefix test succeeds. |
| `FileTypes.PdfHeaderWins` | src/filetype.rs:14-16 | Any buffer starting with `%PDF` is a PDF, whatever follows and whatever the ZIP reader says. |
| `FileTypes.LaterEntriesIgnored` | src/filetype.rs:30 | Entries from the eleventh on never change the classification. |
| `FileTypes.ContentTypesTooLateIsUnknown` | src/filetype.rs:30-40 | A ZIP buffer without the content-types part among its first 10 entries is Unknown. |
| `FileTypes.UnopenableArchiveIsUnknown` | src/filetype.rs:29-40 | A ZIP buffer the reader cannot open is Unknown, not an error. |
| `FileTypes.UnreadableEntrySkipped` | src/filetype.rs:31-34 | An unreadable entry is skipped. A later matching entry within the first 10 still makes the buffer a DOCX. |
| `FileTypes.UpperCasePartNameIsDocx` | src/filetype.rs:32 | The part name is compared ignoring ASCII case. |
| `Ascii.CountMatches` | src/pdf_analysis.rs:188 | `matches().count()` counts non-overlapping occurrences, so n matches of a pattern take at least n times its length. |
| `Ascii.CountMatchesZero` | src/pdf_analysis.rs:188 | The count is zero exactly when the pattern occurs nowhere in the text. |
| `Ascii.AsciiLower` | src/pdf_analysis.rs:153 | Lower-casing a character changes it exactly when it is a capital letter, and never yields a capital. |
| `Ascii.ToLowercase` | src/pdf_analysis.rs:153 | Lower-casing keeps the length, leaves no capital letter, keeps every other character, and moves each capital 32 code points down. |
| `Ascii.EqIgnoreAsciiCaseIsLowercaseEquality` | src/filetype.rs:32 | `eq_ignore_ascii_case` holds exactly when the two lower-cased names are equal. |
| `Ascii.NatToStringRoundTrip` | src/pdf_analysis.rs:190 | The decimal rendering of `{}` reads back as the number rendered. |
| `Ascii.NatToStringInjective` | src/pdf_analysis.rs:258-259 | Different numbers have different renderings. |
| `Patterns.SkipSpaces` | src/pdf_analysis.rs:16-20 | Greedy `\s*` stops at the first non-space character, and all it skips are spaces. |
| `Patterns.MatchTokens` | src/pdf_analysis.rs:16-20 | A match of `lit \s* lit …` ends inside the text and starts with the first literal. |
| `Patterns.MatchTokensMeaning` | src/pdf_analysis.rs:16-20 | The greedy matcher ends at `e` exactly when the literals occur in order from the start position, separated only by spaces, the last one ending at `e`. |
| `Patterns.CaptureAt` | src/pdf_analysis.rs:17-20 | The group `\(([^)]+)\)` is non-empty, holds no `)`, and the match ends after it. |
| `Patterns.CaptureAtMeaning` | src/pdf_analysis.rs:17-20 | A capture is the text from the end of the literals up to the first `)`, which ends the match. There is one exactly when the literals match, the next character is not `)`, and a `)` follows. |
| `Patterns.Captures` | src/pdf_analysis.rs:164 | Every group `captures_iter` yields is non-empty and holds no `)`. |
| `Patterns.CapturesEmpty` | src/pdf_analysis.rs:229 | `captures_iter` yields nothing exactly when the pattern matches at no position. |
| `Patterns.CapturesLeftmost` | src/pdf_analysis.rs:164 | The first group comes from the leftmost match, and the scan resumes where that match ended. |
| `Patterns.JsMatchMeaning` | src/pdf_analysis.rs:16 | `JS_REGEX.is_match` holds exactly when `/JavaScript`, spaces, `/JS` occur at some position. |
| `Patterns.JsMatchesCapitalised` | src/pdf_analysis.rs:16 | The JavaScript pattern matches `/JavaScript /JS`. |
| `Patterns.LaunchTargetsCapitalised` | src/pdf_analysis.rs:17 | The Launch pattern captures `cmd.exe` from `/Launch /F (cmd.exe)`, and nothing else. |
| `Patterns.OpenActionMatchesCapitalised` | src/pdf_analysis.rs:18 | The OpenAction pattern matches `/OpenAction <</JS>>`. |
| `Patterns.UriTargetsCapitalised` | src/pdf_analysis.rs:20 | The URI pattern captures `http://x` from `/URI (http://x)`, and nothing else. |
| `Patterns.UncClassesIgnoreCase` | src/pdf_analysis.rs:19 | Lower-casing a character keeps it in or out of each character class of the UNC pattern. |
| `Patterns.UncMatchIgnoresCase` | src/pdf_analysis.rs:19 | Under `(?i)` the UNC pattern matches a text exactly when it matches the lower-cased text. |
| `Patterns.UpperLiteralAbsent` | src/pdf_analysis.rs:153 | A literal with a capital letter never occurs in lower-cased text. |
| `Patterns.TokensNeverMatch` | src/pdf_analysis.rs:16-20 | A pattern whose first literal has a capital letter matches lower-cased text nowhere. |
| `Patterns.CapturesNeverMatch` | src/pdf_analysis.rs:17-20 | Such a pattern captures nothing from lower-cased text. |
| `Patterns.JsNeverMatches` | src/pdf_analysis.rs:16 | `/JavaScript\s*/JS` never matches lower-cased text. |
| `Patterns.LaunchNeverMatches` | src/pdf_analysis.rs:17 | The Launch pattern yields no target from lower-cased text. |
| `Patterns.OpenActionNeverMatches` | src/pdf_analysis.rs:18 | The OpenAction pattern never matches lower-cased text. |
| `Patterns.UriNeverMatches` | src/pdf_analysis.rs:20 | The URI pattern yields no URI from lower-cased text. |
| `Patterns.UncMatchesLowerCase` | src/pdf_analysis.rs:19 | The case-insensitive UNC pattern does match lower-case text such as `\\srv\pub`. |
| `Entropy.Occurrences` | src/pdf_analysis.rs:269-272 | A byte value occurs no more often than the buffer is long. |
| `Entropy.HistogramStep` | src/pdf_analysis.rs:271 | Adding one to the bin of a byte keeps the bins a histogram of the longer prefix and adds one to their total. |
| `Entropy.Histogram` | src/pdf_analysis.rs:269-272 | Bin v holds the number of bytes equal to v, and the bins add up to the buffer length. |
| `Entropy.SingleValueHistogram` | src/pdf_analysis.rs:269-272 | A buffer of one repeated value fills a single bin with its whole length. |
| `PdfAnalysis.Normalize` | src/pdf_analysis.rs:143-153 | The text view has the buffer's length. Byte b becomes lower-case b when 0x20 ≤ b ≤ 0x7E and a space otherwise. No character is a capital letter or outside 0x20..0x7E. |
| `PdfAnalysis.OnlySpaceIsWhitespace` | src/pdf_analysis.rs:143-153 | In the text view `\s` can only match a space. |
| `PdfAnalysis.AnyWindowEquals` | src/pdf_analysis.rs:210-211 | `windows(n).any(==)` is true exactly when the signature occurs at some position of the buffer. |
| `PdfAnalysis.EicarFound` | src/pdf_analysis.rs:209-212 | The EICAR check fires exactly when the 68-byte constant occurs in the raw bytes, and never for a buffer shorter than 68 bytes. |
| `PdfAnalysis.FindingsInOrder` | src/pdf_analysis.rs:155-254 | The findings are those of each check, in the order the checks run. |
| `PdfAnalysis.ScoreInOrder` | src/pdf_analysis.rs:156-254 | The score is the sum of the weights each check adds. |
| `PdfAnalysis.CheckJavaScript` | src/pdf_analysis.rs:158-161 | The step appends the JavaScript finding and adds 8 exactly when the JS pattern matches. |
| `PdfAnalysis.LaunchStep` | src/pdf_analysis.rs:164-172 | Each further launch target appends its finding and adds its own weight. |
| `PdfAnalysis.CheckLaunch` | src/pdf_analysis.rs:163-173 | The loop appends one finding per captured target, in order, and adds their weights. |
| `PdfAnalysis.CheckOpenAction` | src/pdf_analysis.rs:175-180 | The step appends the OpenAction finding and adds 7 exactly when the OpenAction pattern matches. |
| `PdfAnalysis.CheckEmbeddedFileAndObjectCount` | src/pdf_analysis.rs:182-193 | The step appends the embedded-file finding (5) and then the object-count finding (3), each exactly when its test holds. |
| `PdfAnalysis.CheckXfa` | src/pdf_analysis.rs:195-207 | The step appends the XFA findings and adds their weights. |
| `PdfAnalysis.CheckEicar` | src/pdf_analysis.rs:209-215 | The step appends the EICAR finding and adds 10 exactly when the signature occurs in the raw bytes. |
| `PdfAnalysis.CheckEntropy` | src/pdf_analysis.rs:217-221 | The step appends the entropy finding and adds 4 exactly when the entropy reaches the threshold. |
| `PdfAnalysis.CheckUnc` | src/pdf_analysis.rs:223-226 | The step appends the UNC finding and adds 4 exactly when the UNC pattern matches. |
| `PdfAnalysis.UriStepHit` | src/pdf_analysis.rs:245-252 | A suspicious URI appends its finding and adds 6. |
| `PdfAnalysis.UriStepMiss` | src/pdf_analysis.rs:245-249 | Any other URI adds nothing. |
| `PdfAnalysis.CheckSuspiciousUris` | src/pdf_analysis.rs:228-254 | The loop appends one finding per suspicious captured URI, in order, and adds 6 for each. |
| `PdfAnalysis.RunChecks` | src/pdf_analysis.rs:143-254 | After all the steps, the findings are those of every check in order, and the score is the sum of their weights. |
| `PdfAnalysis.AnalyzePdf` | src/pdf_analysis.rs:141-265 | The verdict is Suspicious exactly when the score reaches 10. A Suspicious verdict lists the check findings in order, then the risk-score line. A Clean verdict carries nothing. |
| `PdfAnalysis.AnalyzeData` | src/pdf_analysis.rs:109-122 | The type is the sniffer's. Every non-PDF type is Clean. A buffer is Suspicious exactly when it starts with `%PDF` and scores at least 10, with the findings of `AnalyzePdf`. |
| `PdfAnalysis.DeadPatterns` | src/pdf_analysis.rs:158-180 | Over the text view the JS, Launch, OpenAction and URI checks never fire, for every buffer. |
| `PdfAnalysis.XfaWeight` | src/pdf_analysis.rs:195-207 | The XFA step adds 0 without `/xfa`, 2 with it, and 8 with it and an external reference. Each case holds exactly under its condition. |
| `PdfAnalysis.LaunchWeightIsExe` | src/pdf_analysis.rs:167-171 | A launch target weighs 10 exactly when it contains `.exe`, and 5 otherwise. The `cmd.exe` test adds nothing. |
| `PdfAnalysis.SingleHitWeights` | src/pdf_analysis.rs:182-226 | Each single-finding check adds its fixed weight exactly when its test holds. The weights are embedded file 5, object count 3, EICAR 10, entropy 4 and UNC 4. |
| `PdfAnalysis.ScoreOfLiveChecks` | src/pdf_analysis.rs:155-254 | The score equals the sum of the weights of the live checks that fire. |
| `PdfAnalysis.ScoreBound` | src/pdf_analysis.rs:156-256 | The score never exceeds 34, so the `u32` score cannot wrap. |
| `PdfAnalysis.EicarAloneIsSuspicious` | src/pdf_analysis.rs:209-215 | The lower-case EICAR string alone brings the score to the threshold. |
| `PdfAnalysis.StandardEicarMissed` | src/pdf_analysis.rs:21 | The standard upper-case EICAR string is not found by the EICAR check. |
| `PdfAnalysis.ObjectCount` | src/pdf_analysis.rs:188 | The number of ` obj` is at most a quarter of the text length, and is zero exactly when ` obj` does not occur. |
| `PdfAnalysis.KeywordsMatchInsideWords` | src/pdf_analysis.rs:231-248 | Keywords are matched as substrings, so `rat` makes `https://example.com/generate` suspicious. |
| `PdfAnalysis.RiskLineDeterminesScore` | src/pdf_analysis.rs:256-260 | The risk-score line names the score: two scores give the same line only when they are equal. |
| `PdfAnalysis.ObjectCountNeedsLargeFile` | src/pdf_analysis.rs:188-189 | The object-count finding needs a buffer of at least 12004 bytes. |

## Left out

- The ZIP reader is a foreign library, and it is not part of this model. `DetectFileType` receives what the reader reports for the buffer (`ArchiveView`) as a parameter: whether the archive opened, and the name of each entry or that it could not be read.
- The floating-point part of `calculate_entropy` is not modelled (src/pdf_analysis.rs:274-281). That part is the division, `log2`, the sum and the `{:.2}` rendering. The scorer receives its outcome as an `EntropyReading`: whether the entropy reaches 7.9, and the rendered value. Only the integer histogram loop is modelled.
- The step timing is not modelled (`run_step`, `STEP_TIMINGS`, `get_step_timings`, `reset_step_timings`). It reads a clock and changes nothing the verdict depends on, so each step is its closure's body.
- `analyze_file` and `display_analysis_result` are not modelled: they read files, print and exit the process.
- src/main.rs (the command line and directory walk), src/lib.rs (the WebAssembly bridge) and the demo web application are not part of this model.
- Regular expressions are not modelled in general. Only the five patterns of the scorer are written out.
  - `\s` is the Unicode White_Space set.
  - `(?i)` on the UNC pattern folds ASCII letters, and also `ſ` and the Kelvin sign.
  - Only the first two characters of the UNC share name are checked, because `is_match` does not depend on the rest.
- The UNC pattern is decided as `is_match`; where in the text the match lies is not modelled.
- `str::to_lowercase` is modelled only on ASCII letters. Every string it is applied to here is already ASCII, so nothing is lost.
- `score` is an unbounded natural number rather than a `u32`. `PdfAnalysis.ScoreBound` shows that it never exceeds 34.
