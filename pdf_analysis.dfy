/** The PDF heuristic scorer and the entry point that dispatches on the file
    type (src/pdf_analysis.rs). */
module PdfAnalysis {
  import opened Ascii
  import opened FileTypes
  import opened Patterns

  datatype PdfThreatLevel = Clean | Suspicious(findings: seq<string>)

  datatype AnalysisResult = Clean | Suspicious(findings: seq<string>)

  /** What the floating-point part of `calculate_entropy` yields for a buffer:
      whether the entropy reaches ENTROPY_SUSPICIOUS_THRESHOLD (7.9), and the
      value rendered with two decimals. */
  datatype EntropyReading = EntropyReading(high: bool, shown: string)

  const RISK_THRESHOLD: nat := 10

  /** The object count above which a file is flagged. */
  const OBJECT_COUNT_LIMIT: nat := 3000

  /** The EICAR constant exactly as the source spells it: in lower case. */
  const EICAR_TEXT: string := "x5o!p%@ap[4\\pzx54(p^)7cc)7}$eicar-standard-antivirus-test-file!$h+h*"
  const EICAR_SIGNATURE: seq<Byte> := AsciiBytes(EICAR_TEXT)

  /** The standard EICAR anti-virus test string, upper case. */
  const STANDARD_EICAR_TEXT: string := "X5O!P%@AP[4\\PZX54(P^)7CC)7}$EICAR-STANDARD-ANTIVIRUS-TEST-FILE!$H+H*"
  const STANDARD_EICAR: seq<Byte> := AsciiBytes(STANDARD_EICAR_TEXT)

  const SUSPICIOUS_KEYWORDS: seq<string> := [
    "mimikatz", "cobaltstrike", "powershell", "dropper", "cmd.exe", "payload",
    "rat", ".ps1", ".vbs", ".bat", ".scr", ".exe"
  ]

  const JS_FINDING := "Embedded JavaScript action detected"
  const OPENACTION_FINDING := "Executable OpenAction (JS or Launch) detected"
  const EMBEDDED_FILE_FINDING := "Embedded file object found"
  const XFA_FINDING := "XFA form structure detected"
  const XFA_EXTERNAL_FINDING := "External reference in XFA (possible XSLT injection)"
  const EICAR_FINDING := "EICAR test signature detected"
  const UNC_FINDING := "UNC path reference detected (network callback possible)"

  // ---------------------------------------------------------------------------
  // The text view

  /** Rust `u8::is_ascii`. */
  predicate IsAscii(b: Byte) {
    b <= 0x7F
  }

  /** Rust `u8::is_ascii_control`. */
  predicate IsAsciiControl(b: Byte) {
    b < 0x20 || b == 0x7F
  }

  function CharOf(b: Byte): char {
    (b as int) as char
  }

  /** The text view of `analyze_pdf` (lines 143-153): printable bytes become
      their character and every other byte a space, then the whole string is
      lower-cased. */
  function Normalize(data: seq<Byte>): (text: string)
    ensures |text| == |data|
    ensures forall i :: 0 <= i < |text| ==> ' ' <= text[i] <= '~' && !IsAsciiUpper(text[i])
    ensures forall i :: 0 <= i < |data| ==>
      text[i] == if 0x20 <= data[i] <= 0x7E then AsciiLower(CharOf(data[i])) else ' '
  {
    ToLowercase(seq(|data|, i requires 0 <= i < |data| =>
      if IsAscii(data[i]) && !IsAsciiControl(data[i]) then CharOf(data[i]) else ' '))
  }

  /** In the text view `\s` can only match a space. */
  lemma OnlySpaceIsWhitespace(data: seq<Byte>, i: nat)
    requires i < |data|
    ensures IsRegexSpace(Normalize(data)[i]) <==> Normalize(data)[i] == ' '
  {
  }

  // ---------------------------------------------------------------------------
  // The findings that carry a value (the `format!` calls)

  function LaunchFinding(target: string): string {
    "Launch action to '" + target + "'"
  }

  function ObjectCountFinding(count: nat): string {
    "High object count: " + NatToString(count)
  }

  function EntropyFinding(shown: string): string {
    "High entropy detected: " + shown
  }

  function UriFinding(uri: string): string {
    "Suspicious URI action: " + uri
  }

  /** The summary finding of lines 257-260. */
  function RiskLine(score: nat): string {
    "\U{26A0}\U{FE0F} Risk score = " + NatToString(score) + " (threshold = " + NatToString(RISK_THRESHOLD) + ")"
  }

  // ---------------------------------------------------------------------------
  // The checks, as the findings and weights each one contributes

  /** One finding and the weight it adds to the score. */
  datatype Hit = Hit(finding: string, weight: nat)

  function Findings(hits: seq<Hit>): seq<string> {
    if hits == [] then [] else Findings(hits[..|hits| - 1]) + [hits[|hits| - 1].finding]
  }

  function TotalWeight(hits: seq<Hit>): nat {
    if hits == [] then 0 else TotalWeight(hits[..|hits| - 1]) + hits[|hits| - 1].weight
  }

  /** The findings and the weight of two runs of checks, one after the other. */
  lemma {:induction false} Concat(a: seq<Hit>, b: seq<Hit>)
    ensures Findings(a + b) == Findings(a) + Findings(b)
    ensures TotalWeight(a + b) == TotalWeight(a) + TotalWeight(b)
    decreases |b|
  {
    if b == [] {
      assert a + b == a;
    } else {
      var b' := b[..|b| - 1];
      assert (a + b)[..|a + b| - 1] == a + b';
      assert (a + b)[|a + b| - 1] == b[|b| - 1];
      Concat(a, b');
    }
  }

  /** Pushing one more finding appends it to the list and adds its weight. */
  lemma Push(hits: seq<Hit>, h: Hit)
    ensures Findings(hits + [h]) == Findings(hits) + [h.finding]
    ensures TotalWeight(hits + [h]) == TotalWeight(hits) + h.weight
  {
    assert (hits + [h])[..|hits|] == hits;
  }

  function JsHits(content: string): seq<Hit> {
    if JsMatch(content) then [Hit(JS_FINDING, 8)] else []
  }

  /** Lines 167-171: the weight of one launch target. */
  function LaunchWeight(target: string): nat {
    if Contains(target, ".exe") || Contains(target, "cmd.exe") then 10 else 5
  }

  function LaunchHit(target: string): Hit {
    Hit(LaunchFinding(target), LaunchWeight(target))
  }

  function LaunchHits(targets: seq<string>): seq<Hit> {
    if targets == [] then []
    else
      var target := targets[|targets| - 1];
      LaunchHits(targets[..|targets| - 1]) + [LaunchHit(target)]
  }

  function OpenActionHits(content: string): seq<Hit> {
    if OpenActionMatch(content) then [Hit(OPENACTION_FINDING, 7)] else []
  }

  function EmbeddedFileHits(content: string): seq<Hit> {
    if Contains(content, "/embeddedfile") || Contains(content, "/filespec")
    then [Hit(EMBEDDED_FILE_FINDING, 5)] else []
  }

  /** `content.matches(" obj").count()`. */
  function ObjectCount(content: string): (count: nat)
    ensures count * 4 <= |content|
    ensures count == 0 <==> !Contains(content, " obj")
  {
    CountMatchesZero(content, " obj", 0);
    CountMatches(content, " obj", 0)
  }

  function ObjectCountHits(content: string): seq<Hit> {
    var count := ObjectCount(content);
    if count > OBJECT_COUNT_LIMIT then [Hit(ObjectCountFinding(count), 3)] else []
  }

  /** Lines 199-201: `http://`, `file://` or two backslashes. */
  predicate ExternalReference(content: string) {
    Contains(content, "http://") || Contains(content, "file://") || Contains(content, "\\\\")
  }

  function XfaHits(content: string): seq<Hit> {
    if Contains(content, "/xfa") then
      [Hit(XFA_FINDING, 2)] + if ExternalReference(content) then [Hit(XFA_EXTERNAL_FINDING, 6)] else []
    else []
  }

  /** `data.windows(|sig|).any(|w| w == sig)` over the windows starting at `i`
      or later. */
  function AnyWindowEquals(data: seq<Byte>, sig: seq<Byte>, i: nat): (found: bool)
    requires i <= |data|
    ensures found <==> exists j :: i <= j <= |data| && OccursAt(data, j, sig)
    decreases |data| - i
  {
    if i + |sig| > |data| then false
    else if data[i..i + |sig|] == sig then assert OccursAt(data, i, sig); true
    else AnyWindowEquals(data, sig, i + 1)
  }

  /** Lines 209-212: the EICAR constant occurs in the raw bytes. */
  function EicarFound(data: seq<Byte>): (found: bool)
    ensures found <==> Contains(data, EICAR_SIGNATURE)
    ensures |data| < 68 ==> !found
  {
    AnyWindowEquals(data, EICAR_SIGNATURE, 0)
  }

  function EicarHits(data: seq<Byte>): seq<Hit> {
    if EicarFound(data) then [Hit(EICAR_FINDING, 10)] else []
  }

  function EntropyHits(entropy: EntropyReading): seq<Hit> {
    if entropy.high then [Hit(EntropyFinding(entropy.shown), 4)] else []
  }

  function UncHits(content: string): seq<Hit> {
    if UncMatch(content) then [Hit(UNC_FINDING, 4)] else []
  }

  /** Lines 245-248: the URI (already lower-cased) points at the local machine
      or a file, or names one of the keywords. */
  predicate SuspiciousUri(uri: string) {
    StartsWith(uri, "file://") || StartsWith(uri, "http://localhost") || StartsWith(uri, "http://127.") ||
    exists k :: 0 <= k < |SUSPICIOUS_KEYWORDS| && Contains(uri, SUSPICIOUS_KEYWORDS[k])
  }

  function UriHit(uri: string): Hit {
    Hit(UriFinding(uri), 6)
  }

  function UriHits(uris: seq<string>): seq<Hit> {
    if uris == [] then []
    else
      var uri := ToLowercase(uris[|uris| - 1]);
      UriHits(uris[..|uris| - 1]) + if SuspiciousUri(uri) then [UriHit(uri)] else []
  }

  /** All the checks of `analyze_pdf`, in the order they run. */
  function CheckHits(data: seq<Byte>, entropy: EntropyReading): seq<Hit> {
    var content := Normalize(data);
    JsHits(content) + LaunchHits(LaunchTargets(content)) + OpenActionHits(content) +
    EmbeddedFileHits(content) + ObjectCountHits(content) + XfaHits(content) +
    EicarHits(data) + EntropyHits(entropy) + UncHits(content) + UriHits(UriTargets(content))
  }

  /** Ten runs of checks one after the other: the findings of each, in order,
      and the sum of their weights. */
  lemma Concat10(h0: seq<Hit>, h1: seq<Hit>, h2: seq<Hit>, h3: seq<Hit>, h4: seq<Hit>,
                 h5: seq<Hit>, h6: seq<Hit>, h7: seq<Hit>, h8: seq<Hit>, h9: seq<Hit>)
    ensures Findings(h0 + h1 + h2 + h3 + h4 + h5 + h6 + h7 + h8 + h9) ==
      Findings(h0) + Findings(h1) + Findings(h2) + Findings(h3) + Findings(h4) +
      Findings(h5) + Findings(h6) + Findings(h7) + Findings(h8) + Findings(h9)
    ensures TotalWeight(h0 + h1 + h2 + h3 + h4 + h5 + h6 + h7 + h8 + h9) ==
      TotalWeight(h0) + TotalWeight(h1) + TotalWeight(h2) + TotalWeight(h3) + TotalWeight(h4) +
      TotalWeight(h5) + TotalWeight(h6) + TotalWeight(h7) + TotalWeight(h8) + TotalWeight(h9)
  {
    Concat(h0, h1);
    Concat(h0 + h1, h2);
    Concat(h0 + h1 + h2, h3);
    Concat(h0 + h1 + h2 + h3, h4);
    Concat(h0 + h1 + h2 + h3 + h4, h5);
    Concat(h0 + h1 + h2 + h3 + h4 + h5, h6);
    Concat(h0 + h1 + h2 + h3 + h4 + h5 + h6, h7);
    Concat(h0 + h1 + h2 + h3 + h4 + h5 + h6 + h7, h8);
    Concat(h0 + h1 + h2 + h3 + h4 + h5 + h6 + h7 + h8, h9);
  }

  /** The findings of all the checks are those of each check, in the order
      they run. */
  lemma FindingsInOrder(data: seq<Byte>, entropy: EntropyReading)
    ensures var c := Normalize(data);
      Findings(CheckHits(data, entropy)) ==
        Findings(JsHits(c)) + Findings(LaunchHits(LaunchTargets(c))) + Findings(OpenActionHits(c)) +
        Findings(EmbeddedFileHits(c)) + Findings(ObjectCountHits(c)) + Findings(XfaHits(c)) +
        Findings(EicarHits(data)) + Findings(EntropyHits(entropy)) + Findings(UncHits(c)) +
        Findings(UriHits(UriTargets(c)))
  {
    var c := Normalize(data);
    Concat10(JsHits(c), LaunchHits(LaunchTargets(c)), OpenActionHits(c), EmbeddedFileHits(c),
      ObjectCountHits(c), XfaHits(c), EicarHits(data), EntropyHits(entropy), UncHits(c),
      UriHits(UriTargets(c)));
  }

  /** The score is the sum of what each check adds. */
  lemma ScoreInOrder(data: seq<Byte>, entropy: EntropyReading)
    ensures var c := Normalize(data);
      PdfScore(data, entropy) ==
        0 + TotalWeight(JsHits(c)) + TotalWeight(LaunchHits(LaunchTargets(c))) + TotalWeight(OpenActionHits(c)) +
        TotalWeight(EmbeddedFileHits(c)) + TotalWeight(ObjectCountHits(c)) + TotalWeight(XfaHits(c)) +
        TotalWeight(EicarHits(data)) + TotalWeight(EntropyHits(entropy)) + TotalWeight(UncHits(c)) +
        TotalWeight(UriHits(UriTargets(c)))
  {
    var c := Normalize(data);
    Concat10(JsHits(c), LaunchHits(LaunchTargets(c)), OpenActionHits(c), EmbeddedFileHits(c),
      ObjectCountHits(c), XfaHits(c), EicarHits(data), EntropyHits(entropy), UncHits(c),
      UriHits(UriTargets(c)));
  }

  /** The score `analyze_pdf` reaches: the sum of the weights of all hits. */
  function PdfScore(data: seq<Byte>, entropy: EntropyReading): nat {
    TotalWeight(CheckHits(data, entropy))
  }

  /** The verdict `analyze_pdf` returns: Suspicious, with the findings in the
      order the checks ran followed by the risk line, exactly when the score
      reaches RISK_THRESHOLD. */
  function PdfVerdict(data: seq<Byte>, entropy: EntropyReading): PdfThreatLevel {
    var hits := CheckHits(data, entropy);
    if TotalWeight(hits) >= RISK_THRESHOLD
    then PdfThreatLevel.Suspicious(Findings(hits) + [RiskLine(TotalWeight(hits))])
    else PdfThreatLevel.Clean
  }

  // ---------------------------------------------------------------------------
  // analyze_pdf and its steps

  /** The findings list starts empty. */
  lemma EmptyPrefix(findings: seq<string>)
    ensures [] + findings == findings
  {
  }

  /** The findings and weight of a single hit. */
  lemma Single(h: Hit)
    ensures Findings([h]) == [h.finding]
    ensures TotalWeight([h]) == h.weight
  {
    assert [h][..0] == [];
  }

  /** The "Check JS regex" step (lines 158-161). */
  method CheckJavaScript(content: string, findings: seq<string>, score: nat)
    returns (findings': seq<string>, score': nat)
    ensures findings' == findings + Findings(JsHits(content))
    ensures score' == score + TotalWeight(JsHits(content))
  {
    findings', score' := findings, score;
    if JsMatch(content) {
      findings' := findings' + [JS_FINDING];
      score' := score' + 8;
      Single(Hit(JS_FINDING, 8));
    }
  }

  /** One more launch target adds its finding and its weight. */
  lemma LaunchStep(targets: seq<string>, k: nat, findings: seq<string>, acc: seq<string>)
    requires k < |targets|
    requires acc == findings + Findings(LaunchHits(targets[..k]))
    ensures acc + [LaunchFinding(targets[k])] == findings + Findings(LaunchHits(targets[..k + 1]))
    ensures TotalWeight(LaunchHits(targets[..k + 1])) == TotalWeight(LaunchHits(targets[..k])) + LaunchWeight(targets[k])
  {
    var done := LaunchHits(targets[..k]);
    assert targets[..k + 1][..k] == targets[..k];
    assert LaunchHits(targets[..k + 1]) == done + [LaunchHit(targets[k])];
    Push(done, LaunchHit(targets[k]));
  }

  /** The "Check Launch regex" step (lines 163-173): one finding per group
      the Launch regex captures (`targets`), in the order they appear. */
  method CheckLaunch(targets: seq<string>, findings: seq<string>, score: nat)
    returns (findings': seq<string>, score': nat)
    ensures findings' == findings + Findings(LaunchHits(targets))
    ensures score' == score + TotalWeight(LaunchHits(targets))
  {
    findings', score' := findings, score;
    for k := 0 to |targets|
      invariant findings' == findings + Findings(LaunchHits(targets[..k]))
      invariant score' == score + TotalWeight(LaunchHits(targets[..k]))
    {
      var target := targets[k];
      LaunchStep(targets, k, findings, findings');
      findings' := findings' + [LaunchFinding(target)];
      score' := score' + if Contains(target, ".exe") || Contains(target, "cmd.exe") then 10 else 5;
    }
    assert targets[..|targets|] == targets;
  }

  /** The "Check OpenAction regex" step (lines 175-180). */
  method CheckOpenAction(content: string, findings: seq<string>, score: nat)
    returns (findings': seq<string>, score': nat)
    ensures findings' == findings + Findings(OpenActionHits(content))
    ensures score' == score + TotalWeight(OpenActionHits(content))
  {
    findings', score' := findings, score;
    if OpenActionMatch(content) {
      findings' := findings' + [OPENACTION_FINDING];
      score' := score' + 7;
      Single(Hit(OPENACTION_FINDING, 7));
    }
  }

  /** The "Check embedded file and object count" step (lines 182-193). */
  method CheckEmbeddedFileAndObjectCount(content: string, findings: seq<string>, score: nat)
    returns (findings': seq<string>, score': nat)
    ensures findings' == findings + Findings(EmbeddedFileHits(content)) + Findings(ObjectCountHits(content))
    ensures score' == score + TotalWeight(EmbeddedFileHits(content)) + TotalWeight(ObjectCountHits(content))
  {
    findings', score' := findings, score;
    if Contains(content, "/embeddedfile") || Contains(content, "/filespec") {
      findings' := findings' + [EMBEDDED_FILE_FINDING];
      score' := score' + 5;
    }
    var objCount := ObjectCount(content);
    if objCount > OBJECT_COUNT_LIMIT {
      findings' := findings' + [ObjectCountFinding(objCount)];
      score' := score' + 3;
    }
  }

  /** The "Check XFA & XSLT injection" step (lines 195-207). */
  method CheckXfa(content: string, findings: seq<string>, score: nat)
    returns (findings': seq<string>, score': nat)
    ensures findings' == findings + Findings(XfaHits(content))
    ensures score' == score + TotalWeight(XfaHits(content))
  {
    findings', score' := findings, score;
    if Contains(content, "/xfa") {
      findings' := findings' + [XFA_FINDING];
      score' := score' + 2;
      if Contains(content, "http://") || Contains(content, "file://") || Contains(content, "\\\\") {
        findings' := findings' + [XFA_EXTERNAL_FINDING];
        score' := score' + 6;
        Concat([Hit(XFA_FINDING, 2)], [Hit(XFA_EXTERNAL_FINDING, 6)]);
      }
    }
  }

  /** The "Check EICAR signature" step (lines 209-215), on the raw bytes. */
  method CheckEicar(data: seq<Byte>, findings: seq<string>, score: nat)
    returns (findings': seq<string>, score': nat)
    ensures findings' == findings + Findings(EicarHits(data))
    ensures score' == score + TotalWeight(EicarHits(data))
  {
    findings', score' := findings, score;
    if AnyWindowEquals(data, EICAR_SIGNATURE, 0) {
      findings' := findings' + [EICAR_FINDING];
      score' := score' + 10;
      Single(Hit(EICAR_FINDING, 10));
    }
  }

  /** Lines 217-221: the entropy reading against ENTROPY_SUSPICIOUS_THRESHOLD. */
  method CheckEntropy(entropy: EntropyReading, findings: seq<string>, score: nat)
    returns (findings': seq<string>, score': nat)
    ensures findings' == findings + Findings(EntropyHits(entropy))
    ensures score' == score + TotalWeight(EntropyHits(entropy))
  {
    findings', score' := findings, score;
    if entropy.high {
      findings' := findings' + [EntropyFinding(entropy.shown)];
      score' := score' + 4;
      Single(Hit(EntropyFinding(entropy.shown), 4));
    }
  }

  /** The "Check UNC path" step (lines 223-226). */
  method CheckUnc(content: string, findings: seq<string>, score: nat)
    returns (findings': seq<string>, score': nat)
    ensures findings' == findings + Findings(UncHits(content))
    ensures score' == score + TotalWeight(UncHits(content))
  {
    findings', score' := findings, score;
    if UncMatch(content) {
      findings' := findings' + [UNC_FINDING];
      score' := score' + 4;
      Single(Hit(UNC_FINDING, 4));
    }
  }

  /** The "Check suspicious URI content" step (lines 228-254): one finding per
      group the URI regex captures (`uris`) that is suspicious once
      lower-cased, in the order they appear. */
  method CheckSuspiciousUris(uris: seq<string>, findings: seq<string>, score: nat)
    returns (findings': seq<string>, score': nat)
    ensures findings' == findings + Findings(UriHits(uris))
    ensures score' == score + TotalWeight(UriHits(uris))
  {
    findings', score' := findings, score;
    for k := 0 to |uris|
      invariant findings' == findings + Findings(UriHits(uris[..k]))
      invariant score' == score + TotalWeight(UriHits(uris[..k]))
    {
      var uri := ToLowercase(uris[k]);
      if SuspiciousUri(uri) {
        UriStepHit(uris, k, findings, findings');
        findings' := findings' + [UriFinding(uri)];
        score' := score' + 6;
      } else {
        UriStepMiss(uris, k);
      }
    }
    assert uris[..|uris|] == uris;
  }

  /** A suspicious URI adds its finding and 6 to the score. */
  lemma UriStepHit(uris: seq<string>, k: nat, findings: seq<string>, acc: seq<string>)
    requires k < |uris| && SuspiciousUri(ToLowercase(uris[k]))
    requires acc == findings + Findings(UriHits(uris[..k]))
    ensures acc + [UriFinding(ToLowercase(uris[k]))] == findings + Findings(UriHits(uris[..k + 1]))
    ensures TotalWeight(UriHits(uris[..k + 1])) == TotalWeight(UriHits(uris[..k])) + 6
  {
    var done := UriHits(uris[..k]);
    var uri := ToLowercase(uris[k]);
    assert uris[..k + 1][..k] == uris[..k];
    assert UriHits(uris[..k + 1]) == done + [UriHit(uri)];
    Push(done, UriHit(uri));
  }

  /** Any other URI adds nothing. */
  lemma UriStepMiss(uris: seq<string>, k: nat)
    requires k < |uris| && !SuspiciousUri(ToLowercase(uris[k]))
    ensures UriHits(uris[..k + 1]) == UriHits(uris[..k])
  {
    assert uris[..k + 1][..k] == uris[..k];
  }

  /** Lines 143-254 of `analyze_pdf`: the text view, then every check in
      order, each pushing its findings and adding their weights to the score. */
  method RunChecks(data: seq<Byte>, entropy: EntropyReading) returns (findings: seq<string>, score: nat)
    ensures findings == Findings(CheckHits(data, entropy))
    ensures score == PdfScore(data, entropy)
  {
    var content := Normalize(data);
    findings, score := [], 0;
    findings, score := CheckJavaScript(content, findings, score);
    findings, score := CheckLaunch(LaunchTargets(content), findings, score);
    findings, score := CheckOpenAction(content, findings, score);
    findings, score := CheckEmbeddedFileAndObjectCount(content, findings, score);
    findings, score := CheckXfa(content, findings, score);
    findings, score := CheckEicar(data, findings, score);
    findings, score := CheckEntropy(entropy, findings, score);
    findings, score := CheckUnc(content, findings, score);
    findings, score := CheckSuspiciousUris(UriTargets(content), findings, score);
    EmptyPrefix(Findings(JsHits(content)));
    FindingsInOrder(data, entropy);
    ScoreInOrder(data, entropy);
  }

  /** `analyze_pdf`: runs the checks, then compares the score with the
      threshold; a suspicious verdict lists the findings followed by the risk
      line. `entropy` is what `calculate_entropy` yields for `data`. */
  method AnalyzePdf(data: seq<Byte>, entropy: EntropyReading) returns (level: PdfThreatLevel)
    ensures level == PdfVerdict(data, entropy)
    ensures level.Suspicious? <==> PdfScore(data, entropy) >= RISK_THRESHOLD
    ensures level.Suspicious? ==>
      level.findings == Findings(CheckHits(data, entropy)) + [RiskLine(PdfScore(data, entropy))]
  {
    var findings, score := RunChecks(data, entropy);
    if score >= RISK_THRESHOLD {
      findings := findings + [RiskLine(score)];
      level := PdfThreatLevel.Suspicious(findings);
    } else {
      level := PdfThreatLevel.Clean;
    }
  }

  /** `analyze_data`: sniff the type; only a PDF is scored, every other type is
      Clean. `archive` is what the ZIP reader reports for `data` and `entropy`
      what `calculate_entropy` yields for it. */
  method AnalyzeData(data: seq<Byte>, archive: ArchiveView, entropy: EntropyReading)
    returns (fileType: FileType, result: AnalysisResult)
    ensures fileType == DetectFileType(data, archive)
    ensures fileType != Pdf ==> result == AnalysisResult.Clean
    ensures result.Suspicious? <==> StartsWith(data, PDF_MAGIC) && PdfScore(data, entropy) >= RISK_THRESHOLD
    ensures result.Suspicious? ==>
      result.findings == Findings(CheckHits(data, entropy)) + [RiskLine(PdfScore(data, entropy))]
  {
    fileType := DetectFileType(data, archive);
    match fileType
    case Pdf =>
      var level := AnalyzePdf(data, entropy);
      match level {
        case Clean =>
          result := AnalysisResult.Clean;
        case Suspicious(findings) =>
          result := AnalysisResult.Suspicious(findings);
      }
    case _ =>
      result := AnalysisResult.Clean;
  }

  // ---------------------------------------------------------------------------
  // What the checks can contribute

  /** The text view is lower-cased, so the four patterns spelled with capitals
      (`/JavaScript`, `/Launch`, `/OpenAction`, `/URI`) never match it: those
      checks add nothing to any buffer. */
  lemma DeadPatterns(data: seq<Byte>)
    ensures var c := Normalize(data);
      JsHits(c) == [] && LaunchTargets(c) == [] && OpenActionHits(c) == [] && UriTargets(c) == []
  {
    var c := Normalize(data);
    JsNeverMatches(c);
    LaunchNeverMatches(c);
    OpenActionNeverMatches(c);
    UriNeverMatches(c);
  }

  /** The XFA step adds 2 for an XFA form, 6 more when it also holds an
      external reference, and nothing without one. */
  lemma XfaWeight(content: string)
    ensures TotalWeight(XfaHits(content)) == 0 <==> !Contains(content, "/xfa")
    ensures TotalWeight(XfaHits(content)) == 2 <==> Contains(content, "/xfa") && !ExternalReference(content)
    ensures TotalWeight(XfaHits(content)) == 8 <==> Contains(content, "/xfa") && ExternalReference(content)
  {
    var plain := Hit(XFA_FINDING, 2);
    var external := Hit(XFA_EXTERNAL_FINDING, 6);
    Single(plain);
    Concat([plain], [external]);
    Single(external);
    assert TotalWeight([]) == 0;
  }

  /** Lines 167-171: a launch target weighs 10 exactly when it names an
      `.exe` (the `cmd.exe` test adds nothing, since `cmd.exe` contains
      `.exe`). */
  lemma LaunchWeightIsExe(target: string)
    ensures LaunchWeight(target) == 10 <==> Contains(target, ".exe")
    ensures LaunchWeight(target) == 5 <==> !Contains(target, ".exe")
  {
    if Contains(target, "cmd.exe") {
      assert OccursAt("cmd.exe", 3, ".exe");
      ContainsTransitive(target, "cmd.exe", ".exe", 3);
    }
  }

  /** The weights of the single-hit checks. */
  lemma SingleHitWeights(data: seq<Byte>, entropy: EntropyReading)
    ensures var c := Normalize(data);
      TotalWeight(EmbeddedFileHits(c)) ==
        (if Contains(c, "/embeddedfile") || Contains(c, "/filespec") then 5 else 0) &&
      TotalWeight(ObjectCountHits(c)) == (if ObjectCount(c) > OBJECT_COUNT_LIMIT then 3 else 0) &&
      TotalWeight(EicarHits(data)) == (if EicarFound(data) then 10 else 0) &&
      TotalWeight(EntropyHits(entropy)) == (if entropy.high then 4 else 0) &&
      TotalWeight(UncHits(c)) == (if UncMatch(c) then 4 else 0)
  {
    var c := Normalize(data);
    Single(Hit(EMBEDDED_FILE_FINDING, 5));
    Single(Hit(ObjectCountFinding(ObjectCount(c)), 3));
    Single(Hit(EICAR_FINDING, 10));
    Single(Hit(EntropyFinding(entropy.shown), 4));
    Single(Hit(UNC_FINDING, 4));
    assert TotalWeight([]) == 0;
  }

  /** The score is the sum of the weights of the checks that fire: embedded
      file 5, object count 3, XFA 2 plus 6 for an external reference, EICAR
      10, high entropy 4 and UNC path 4 (the other checks never fire). */
  lemma ScoreOfLiveChecks(data: seq<Byte>, entropy: EntropyReading)
    ensures var c := Normalize(data);
      PdfScore(data, entropy) ==
        (if Contains(c, "/embeddedfile") || Contains(c, "/filespec") then 5 else 0) +
        (if ObjectCount(c) > OBJECT_COUNT_LIMIT then 3 else 0) +
        (if Contains(c, "/xfa") then 2 + (if ExternalReference(c) then 6 else 0) else 0) +
        (if EicarFound(data) then 10 else 0) +
        (if entropy.high then 4 else 0) +
        (if UncMatch(c) then 4 else 0)
  {
    var c := Normalize(data);
    ScoreInOrder(data, entropy);
    DeadPatterns(data);
    XfaWeight(c);
    SingleHitWeights(data, entropy);
    assert TotalWeight(JsHits(c)) == 0 && TotalWeight(OpenActionHits(c)) == 0;
    assert LaunchHits(LaunchTargets(c)) == [] && UriHits(UriTargets(c)) == [];
  }

  /** With the capitalised patterns dead, the score is at most
      5 + 3 + 8 + 10 + 4 + 4 = 34, so the `u32` score of the source never
      wraps around. */
  lemma ScoreBound(data: seq<Byte>, entropy: EntropyReading)
    ensures PdfScore(data, entropy) <= 34
  {
    ScoreOfLiveChecks(data, entropy);
  }

  /** The EICAR check alone reaches the threshold: a PDF holding the
      (lower-case) signature is always Suspicious. */
  lemma EicarAloneIsSuspicious(data: seq<Byte>, entropy: EntropyReading)
    requires Contains(data, EICAR_SIGNATURE)
    ensures PdfScore(data, entropy) >= RISK_THRESHOLD
  {
    ScoreOfLiveChecks(data, entropy);
  }

  /** The constant is the lower-cased signature, and the raw bytes are not
      lower-cased: the standard EICAR string (upper case) is not found. */
  lemma StandardEicarMissed()
    ensures !EicarFound(STANDARD_EICAR)
  {
    assert STANDARD_EICAR_TEXT[66] == 'H' && EICAR_TEXT[66] == 'h';
    assert STANDARD_EICAR[66] == 0x48 && EICAR_SIGNATURE[66] == 0x68;
    assert |STANDARD_EICAR| == |EICAR_SIGNATURE|;
  }

  /** More than 3000 non-overlapping ` obj` needs at least 3001 * 4 bytes. */
  lemma ObjectCountNeedsLargeFile(data: seq<Byte>)
    requires ObjectCountHits(Normalize(data)) != []
    ensures |data| >= 12004
  {
    var c := Normalize(data);
    assert ObjectCount(c) * 4 <= |c|;
  }

  /** Keywords are matched as substrings: `rat` makes any URI containing
      `generate` or `separate` suspicious. */
  lemma KeywordsMatchInsideWords()
    ensures SuspiciousUri("https://example.com/generate")
  {
    var uri := "https://example.com/generate";
    assert SUSPICIOUS_KEYWORDS[6] == "rat";
    assert OccursAt(uri, 24, "rat");
  }

  /** The risk line names the score: two scores give the same line only when
      they are equal. */
  lemma RiskLineDeterminesScore(a: nat, b: nat)
    requires RiskLine(a) == RiskLine(b)
    ensures a == b
  {
    var head := "\U{26A0}\U{FE0F} Risk score = ";
    var tail := " (threshold = " + NatToString(RISK_THRESHOLD) + ")";
    assert RiskLine(a) == head + NatToString(a) + tail;
    assert RiskLine(b) == head + NatToString(b) + tail;
    assert |NatToString(a)| == |NatToString(b)|;
    assert NatToString(a) == RiskLine(a)[|head|..|head| + |NatToString(a)|];
    assert NatToString(b) == RiskLine(b)[|head|..|head| + |NatToString(b)|];
    NatToStringInjective(a, b);
  }
}
