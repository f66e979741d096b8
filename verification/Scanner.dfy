/** The scan pipeline of the data plane: which payloads it blocks. */
module Scanner {
  import opened Wrappers
  import opened Hex

  datatype ScanResult = Clean | Suspicious | Malicious | Error

  datatype ScanVerdict = ScanVerdict(scanner: string, result: ScanResult)

  datatype PipelineVerdict = PipelineVerdict(overall: ScanResult, verdicts: seq<ScanVerdict>)

  datatype ScanInput = ScanInput(bytes: seq<Byte>, filename: Option<string>, declaredMime: Option<string>)

  predicate Reports(verdicts: seq<ScanVerdict>, result: ScanResult) {
    exists i | 0 <= i < |verdicts| :: verdicts[i].result == result
  }

  /** The worst result reported: malicious, then error, then suspicious. */
  function Worst(verdicts: seq<ScanVerdict>): ScanResult {
    if Reports(verdicts, Malicious) then Malicious
    else if Reports(verdicts, Error) then Error
    else if Reports(verdicts, Suspicious) then Suspicious
    else Clean
  }

  function Dominant(overall: ScanResult, result: ScanResult): ScanResult {
    match (overall, result)
    case (_, Malicious) => Malicious
    case (Malicious, _) => Malicious
    case (_, Error) => Error
    case (Error, _) => Error
    case (_, Suspicious) => Suspicious
    case (Suspicious, _) => Suspicious
    case (Clean, Clean) => Clean
  }

  method Aggregate(verdicts: seq<ScanVerdict>) returns (r: PipelineVerdict)
    ensures r == PipelineVerdict(Worst(verdicts), verdicts)
  {
    var overall := Clean;
    for n := 0 to |verdicts|
      invariant overall == Worst(verdicts[..n])
    {
      overall := Dominant(overall, verdicts[n].result);
      WorstSnoc(verdicts, n);
    }
    assert verdicts[..|verdicts|] == verdicts;
    r := PipelineVerdict(overall, verdicts);
  }

  lemma WorstSnoc(verdicts: seq<ScanVerdict>, n: nat)
    requires n < |verdicts|
    ensures Worst(verdicts[..n + 1]) == Dominant(Worst(verdicts[..n]), verdicts[n].result)
  {
    forall result
      ensures Reports(verdicts[..n + 1], result) <==> Reports(verdicts[..n], result) || verdicts[n].result == result
    {
      if Reports(verdicts[..n], result) {
        var i :| 0 <= i < n && verdicts[..n][i].result == result;
        assert verdicts[..n + 1][i].result == result;
      }
      if verdicts[n].result == result { assert verdicts[..n + 1][n].result == result; }
    }
  }

  predicate Blocking(v: PipelineVerdict) { v.overall.Malicious? }

  // ---------- the shipped scanners ----------

  /** Foreign code: magic-byte detection, its MIME tables, and the pattern set. */
  datatype Detectors = Detectors(
    detectMime: seq<Byte> -> Option<string>, compatible: (string, string) -> bool,
    knownSignature: string -> bool, patternHits: seq<Byte> -> nat)

  datatype Pipeline = Pipeline(maxBytes: nat, detectors: Detectors)

  function Hit(hit: bool, result: ScanResult): ScanResult { if hit then result else Clean }

  function SizeScan(p: Pipeline, input: ScanInput): ScanVerdict {
    ScanVerdict("size-limit", Hit(|input.bytes| > p.maxBytes, Malicious))
  }

  function MagicScan(p: Pipeline, input: ScanInput): ScanVerdict {
    var suspicious :=
      match input.declaredMime
      case None => false
      case Some(declared) =>
        match p.detectors.detectMime(input.bytes)
        case Some(found) => !p.detectors.compatible(declared, found)
        case None => p.detectors.knownSignature(declared);
    ScanVerdict("magic-bytes", Hit(suspicious, Suspicious))
  }

  function ByteOf(c: char): Byte { c as int % 256 }

  function Ascii(s: string): (bytes: seq<Byte>)
    ensures |bytes| == |s| && forall i | 0 <= i < |s| && s[i] as int < 128 :: bytes[i] == s[i] as int
  {
    seq(|s|, i requires 0 <= i < |s| => ByteOf(s[i]))
  }

  const EICAR_SIGNATURE: seq<Byte> :=
    Ascii("X5O!P%@AP[4\\PZX54(P^)7CC)7}$EICAR-STANDARD-ANTIVIRUS-TEST-FILE!$H+H*")

  predicate WindowAt(haystack: seq<Byte>, needle: seq<Byte>, i: nat) {
    i + |needle| <= |haystack| && haystack[i..i + |needle|] == needle
  }

  /** Some window of the haystack is the needle; an empty needle never matches. */
  predicate ContainsSlice(haystack: seq<Byte>, needle: seq<Byte>) {
    if needle == [] || |haystack| < |needle| then false
    else exists i: nat | i <= |haystack| - |needle| :: WindowAt(haystack, needle, i)
  }

  function EicarScan(input: ScanInput): ScanVerdict {
    ScanVerdict("eicar", Hit(ContainsSlice(input.bytes, EICAR_SIGNATURE), Malicious))
  }

  function RegexScan(p: Pipeline, input: ScanInput): ScanVerdict {
    ScanVerdict("regex-prompt-injection", Hit(p.detectors.patternHits(input.bytes) > 0, Suspicious))
  }

  function Scan(p: Pipeline, input: ScanInput): PipelineVerdict {
    var verdicts := [SizeScan(p, input), MagicScan(p, input), EicarScan(input), RegexScan(p, input)];
    PipelineVerdict(Worst(verdicts), verdicts)
  }

  method RunPipeline(p: Pipeline, input: ScanInput) returns (r: PipelineVerdict)
    ensures r == Scan(p, input)
  {
    r := Aggregate([SizeScan(p, input), MagicScan(p, input), EicarScan(input), RegexScan(p, input)]);
  }

  lemma ContainsSliceExactly(haystack: seq<Byte>, needle: seq<Byte>)
    ensures ContainsSlice(haystack, needle) <==> needle != [] && exists a, b :: haystack == a + needle + b
  {
    if ContainsSlice(haystack, needle) {
      var i: nat :| i <= |haystack| - |needle| && WindowAt(haystack, needle, i);
      assert haystack == haystack[..i] + needle + haystack[i + |needle|..];
    }
    if a, b :| needle != [] && haystack == a + needle + b {
      assert WindowAt(haystack, needle, |a|);
    }
  }

  /** The signature is the 68 characters of the EICAR test file, as bytes. */
  lemma EicarSignature()
    ensures EICAR_SIGNATURE == Ascii("X5O!P%@AP[4\\PZX54(P^)7CC)7}$EICAR-STANDARD-ANTIVIRUS-TEST-FILE!$H+H*")
    ensures |EICAR_SIGNATURE| == 68
  {
  }

  /** The overall result: blocked, else suspicious on a MIME mismatch or a pattern, else clean; never an error. */
  lemma OverallExactly(p: Pipeline, input: ScanInput)
    ensures var d := p.detectors;
            var mismatch := input.declaredMime.Some? &&
              (if d.detectMime(input.bytes).Some? then !d.compatible(input.declaredMime.value, d.detectMime(input.bytes).value)
               else d.knownSignature(input.declaredMime.value));
            Scan(p, input).overall ==
              if |input.bytes| > p.maxBytes || ContainsSlice(input.bytes, EICAR_SIGNATURE) then Malicious
              else if mismatch || d.patternHits(input.bytes) > 0 then Suspicious
              else Clean
  {
    hide ContainsSlice;
    var vs := Scan(p, input).verdicts;
    assert vs[0] == SizeScan(p, input) && vs[1] == MagicScan(p, input) && vs[2] == EicarScan(input) && vs[3] == RegexScan(p, input);
  }

  /** Whatever the other two scanners find, exactly oversized payloads and those with the EICAR bytes are blocked. */
  lemma PipelineBlocksExactly(p: Pipeline, input: ScanInput)
    ensures Blocking(Scan(p, input)) <==>
            || |input.bytes| > p.maxBytes
            || exists a, b :: input.bytes == a + EICAR_SIGNATURE + b
  {
    ContainsSliceExactly(input.bytes, EICAR_SIGNATURE);
    var verdicts := Scan(p, input).verdicts;
    assert verdicts[0] == SizeScan(p, input) && verdicts[2] == EicarScan(input);
    hide ContainsSlice;
  }
}
