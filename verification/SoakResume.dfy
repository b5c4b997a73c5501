/**
 Restarting an interrupted soak from its newline-framed observation log
 (tools/haos-soak-resume-core.ts and the writer in tools/haos-soak-core.ts).

 A log is text with one character per byte of its UTF-8 form.  JSON with its sanitizing
 parser is a codec that gives every storable observation back.
 */
module SoakResume {
  import opened Wrappers
  import opened SoakEvaluation
  import opened SoakGate

  const MAX_LOG_BYTES := 16_777_216
  const MAX_LINE_BYTES := 32_768

  datatype Codec = Codec(encode: Observation -> string, decode: string -> Option<Observation>)

  /** What the sanitizing parser lets through, and hence what is ever written. */
  predicate IsStorable(o: Observation) { IsSafe(At(o)) }

  predicate AllStorable(obs: seq<Observation>) { forall k :: 0 <= k < |obs| ==> IsStorable(obs[k]) }

  ghost predicate IsFaithful(c: Codec) {
    && (forall o :: IsStorable(o) ==> c.encode(o) != "" && '\n' !in c.encode(o) && c.decode(c.encode(o)) == Some(o))
    && (forall line :: c.decode(line).Some? ==> IsStorable(c.decode(line).value))
  }

  // ---------------------------------------------------------------------------
  // Writing and reading
  // ---------------------------------------------------------------------------

  /** `writeSanitizedObservation` appends one line, or throws. */
  function AppendLine(c: Codec, text: string, o: Observation): Option<string> {
    if IsStorable(o) then Some(text + c.encode(o) + "\n") else None
  }

  /** What successive appends leave in a fresh file. */
  function LogText(c: Codec, obs: seq<Observation>): string {
    if obs == [] then "" else LogText(c, obs[..|obs| - 1]) + c.encode(obs[|obs| - 1]) + "\n"
  }

  lemma AppendExtendsLog(c: Codec, obs: seq<Observation>, o: Observation)
    ensures AppendLine(c, LogText(c, obs), o) == if IsStorable(o) then Some(LogText(c, obs + [o])) else None
  {
    assert (obs + [o])[..|obs|] == obs;
  }

  /** `String.prototype.split` at newlines. */
  function Lines(text: string): (lines: seq<string>)
    ensures lines != []
  {
    if text == "" then [""]
    else
      var rest := Lines(text[1..]);
      if text[0] == '\n' then [""] + rest else [[text[0]] + rest[0]] + rest[1..]
  }

  function DecodeLine(c: Codec, line: string): Option<Observation> {
    if line == "" || |line| > MAX_LINE_BYTES then None else c.decode(line)
  }

  function DecodeLines(c: Codec, lines: seq<string>): Option<seq<Observation>> {
    if lines == [] then Some([])
    else
      var n := |lines| - 1;
      var before, last := DecodeLines(c, lines[..n]), DecodeLine(c, lines[n]);
      if before.Some? && last.Some? then Some(before.value + [last.value]) else None
  }

  function ParseLog(c: Codec, text: string): Option<seq<Observation>> {
    if |text| > MAX_LOG_BYTES then None
    else if text == "" then Some([])
    else if text[|text| - 1] != '\n' then None
    else DecodeLines(c, Lines(text[..|text| - 1]))
  }

  method ParseSoakObservationLog(c: Codec, text: string) returns (r: Option<seq<Observation>>)
    ensures r == ParseLog(c, text)
  {
    if |text| > MAX_LOG_BYTES {
      return None;
    }
    if text == "" {
      return Some([]);
    }
    if text[|text| - 1] != '\n' {
      return None;
    }
    var lines := Lines(text[..|text| - 1]);
    var observations := [];
    for i := 0 to |lines|
      invariant DecodeLines(c, lines[..i]) == Some(observations)
    {
      assert lines[..i + 1][..i] == lines[..i];
      var decoded := DecodeLine(c, lines[i]);
      if decoded == None {
        OneBadLine(c, lines, i);
        return None;
      }
      observations := observations + [decoded.value];
    }
    assert lines[..|lines|] == lines;
    return Some(observations);
  }

  lemma {:induction false} OneBadLine(c: Codec, lines: seq<string>, i: nat)
    requires i < |lines| && DecodeLine(c, lines[i]) == None
    ensures DecodeLines(c, lines) == None
  {
    var n := |lines| - 1;
    if i < n { OneBadLine(c, lines[..n], i); }
  }

  // ---------------------------------------------------------------------------
  // Round trip
  // ---------------------------------------------------------------------------

  /** Within the reader's limits: 16 MiB in all, 32 KiB a line. */
  predicate Fits(c: Codec, obs: seq<Observation>) {
    |LogText(c, obs)| <= 16_777_216 && forall k :: 0 <= k < |obs| ==> |c.encode(obs[k])| <= 32_768
  }

  lemma {:induction false} LineAlone(a: string)
    requires '\n' !in a
    ensures Lines(a) == [a]
  {
    if a != "" {
      LineAlone(a[1..]);
      assert [a[0]] + a[1..] == a;
    }
  }

  lemma {:induction false} LineAppended(text: string, a: string)
    requires '\n' !in a
    ensures Lines(text + "\n" + a) == Lines(text) + [a]
  {
    var all := text + "\n" + a;
    if text == "" {
      assert all[1..] == a;
      LineAlone(a);
    } else {
      assert all[1..] == text[1..] + "\n" + a;
      LineAppended(text[1..], a);
    }
  }

  function Encoded(c: Codec, obs: seq<Observation>): (lines: seq<string>)
    ensures |lines| == |obs|
  {
    seq(|obs|, i requires 0 <= i < |obs| => c.encode(obs[i]))
  }

  lemma {:induction false} LinesOfLog(c: Codec, obs: seq<Observation>)
    requires IsFaithful(c) && AllStorable(obs) && obs != []
    ensures var text := LogText(c, obs);
            text != "" && text[|text| - 1] == '\n' && Lines(text[..|text| - 1]) == Encoded(c, obs)
  {
    var n := |obs| - 1;
    var pre, last := obs[..n], c.encode(obs[n]);
    var text, before := LogText(c, obs), LogText(c, pre);
    assert IsStorable(obs[n]);
    assert text[..|text| - 1] == before + last;
    assert Encoded(c, obs) == Encoded(c, pre) + [last];
    if n == 0 {
      assert before + last == last;
      LineAlone(last);
    } else {
      LinesOfLog(c, pre);
      assert before == before[..|before| - 1] + "\n";
      assert before + last == before[..|before| - 1] + "\n" + last;
      LineAppended(before[..|before| - 1], last);
    }
  }

  lemma {:induction false} DecodeEncoded(c: Codec, obs: seq<Observation>)
    requires IsFaithful(c) && AllStorable(obs)
    ensures DecodeLines(c, Encoded(c, obs)) ==
            if forall k :: 0 <= k < |obs| ==> |c.encode(obs[k])| <= 32_768 then Some(obs) else None
  {
    if obs != [] {
      var n := |obs| - 1;
      DecodeEncoded(c, obs[..n]);
      assert Encoded(c, obs)[..n] == Encoded(c, obs[..n]);
      assert IsStorable(obs[n]);
      assert obs[..n] + [obs[n]] == obs;
      assert forall k :: 0 <= k < n ==> obs[k] == obs[..n][k];
    }
  }

  /** The log read back is the run that wrote it, exactly as long as it stays within the
      reader's limits; the writer has none. */
  lemma WrittenLogReadsBack(c: Codec, obs: seq<Observation>)
    requires IsFaithful(c) && AllStorable(obs)
    ensures ParseLog(c, LogText(c, obs)) == if Fits(c, obs) then Some(obs) else None
  {
    if obs != [] {
      LinesOfLog(c, obs);
      DecodeEncoded(c, obs);
    }
  }

  /** A cut that ends in a newline ends with a whole line. */
  lemma {:induction false} CutAtNewline(c: Codec, obs: seq<Observation>, n: nat) returns (k: nat)
    requires IsFaithful(c) && AllStorable(obs) && n <= |LogText(c, obs)|
    requires n == 0 || LogText(c, obs)[n - 1] == '\n'
    ensures k <= |obs| && LogText(c, obs)[..n] == LogText(c, obs[..k])
  {
    if n == 0 {
      k := 0;
    } else if n == |LogText(c, obs)| {
      k := |obs|;
      assert obs[..k] == obs;
    } else {
      var m := |obs| - 1;
      var pre, last := obs[..m], c.encode(obs[m]);
      assert IsStorable(obs[m]);
      var text, before := LogText(c, obs), LogText(c, pre);
      assert forall j :: |before| <= j < |text| - 1 ==> text[j] == last[j - |before|];
      assert n <= |before|;
      assert text[..n] == before[..n];
      k := CutAtNewline(c, pre, n);
      assert pre[..k] == obs[..k];
    }
  }

  /** After a crash in the middle of an append, the log is accepted exactly when it was cut
      between two lines, and then yields the observations written before the cut. */
  lemma TornLogIsRejected(c: Codec, obs: seq<Observation>, n: nat)
    requires IsFaithful(c) && AllStorable(obs) && n <= |LogText(c, obs)|
    ensures var cut := LogText(c, obs)[..n];
            ParseLog(c, cut).Some? <==> exists k :: 0 <= k <= |obs| && Fits(c, obs[..k]) && cut == LogText(c, obs[..k])
    ensures forall k :: 0 <= k <= |obs| && Fits(c, obs[..k]) && LogText(c, obs)[..n] == LogText(c, obs[..k]) ==>
              ParseLog(c, LogText(c, obs)[..n]) == Some(obs[..k])
  {
    var cut := LogText(c, obs)[..n];
    if ParseLog(c, cut).Some? {
      assert n > 0 ==> cut[n - 1] == LogText(c, obs)[n - 1];
      var k := CutAtNewline(c, obs, n);
      WrittenLogReadsBack(c, obs[..k]);
    }
    forall k: int | 0 <= k <= |obs| && Fits(c, obs[..k]) && cut == LogText(c, obs[..k])
      ensures ParseLog(c, cut) == Some(obs[..k])
    {
      WrittenLogReadsBack(c, obs[..k]);
    }
  }

  // ---------------------------------------------------------------------------
  // Resuming
  // ---------------------------------------------------------------------------

  datatype ResumeState = ResumeState(
    metadata: RunMetadata,
    observations: seq<Observation>,
    startedAtMs: int,
    expectedEndAtMs: int,
    nextSampleAtMs: int)

  datatype ResumeError = MetadataMismatch | SamplesInvalid
  datatype ResumeResult = Resumed(state: ResumeState) | Refused(error: ResumeError)

  function CreateResumeState(c: Codec, m: RunMetadata, text: string, durationMs: int, intervalMs: int): ResumeResult {
    if m.status == RunCompleted || m.durationMs != durationMs || m.intervalMs != intervalMs then
      Refused(MetadataMismatch)
    else if m.expectedEndAtMs != m.startedAtMs + m.durationMs then Refused(MetadataMismatch)
    else
      match ParseLog(c, text)
      case None => Refused(SamplesInvalid)
      case Some(obs) =>
        if obs == [] then Resumed(ResumeState(m, obs, m.startedAtMs, m.expectedEndAtMs, m.startedAtMs))
        else
          var last := At(obs[|obs| - 1]).ms;
          if last == None || last.value < m.startedAtMs then Refused(SamplesInvalid)
          else Resumed(ResumeState(m, obs, m.startedAtMs, m.expectedEndAtMs, last.value + m.intervalMs))
  }

  /** The evaluation options of a run come from its metadata and the operator's memory limit. */
  function OptionsOf(m: RunMetadata, maxGrowthBytes: int): Options {
    Options(m.startedAtMs, m.durationMs, m.intervalMs, Some(maxGrowthBytes))
  }

  predicate StartsBy(obs: seq<Observation>, startedAtMs: int) {
    obs != [] ==> At(obs[|obs| - 1]).ms.Some? && At(obs[|obs| - 1]).ms.value >= startedAtMs
  }

  predicate MetadataFits(m: RunMetadata, durationMs: int, intervalMs: int) {
    && m.status != RunCompleted && m.durationMs == durationMs && m.intervalMs == intervalMs
    && m.expectedEndAtMs == m.startedAtMs + m.durationMs
  }

  /** A run can be resumed exactly when its metadata fits the request and the cut fell between two
      lines of a log within the limits whose last observation is not dated before the start. */
  lemma ResumesExactly(c: Codec, obs: seq<Observation>, n: nat, m: RunMetadata, durationMs: int, intervalMs: int)
    requires IsFaithful(c) && AllStorable(obs) && n <= |LogText(c, obs)|
    ensures CreateResumeState(c, m, LogText(c, obs)[..n], durationMs, intervalMs).Resumed? <==>
            MetadataFits(m, durationMs, intervalMs)
            && exists k :: 0 <= k <= |obs| && Fits(c, obs[..k]) && LogText(c, obs)[..n] == LogText(c, obs[..k])
                           && StartsBy(obs[..k], m.startedAtMs)
    ensures CreateResumeState(c, m, LogText(c, obs)[..n], durationMs, intervalMs) == Refused(MetadataMismatch) <==>
            !MetadataFits(m, durationMs, intervalMs)
  {
    TornLogIsRejected(c, obs, n);
  }

  /** A resumed run goes on from just what the interrupted one had written: whatever is observed
      afterwards, it evaluates as if there had been no interruption. */
  lemma ResumedRunEvaluatesAlike(
    c: Codec, obs: seq<Observation>, k: nat, m: RunMetadata, later: seq<Observation>, maxGrowthBytes: int)
    requires IsFaithful(c) && AllStorable(obs) && k <= |obs|
    requires CreateResumeState(c, m, LogText(c, obs[..k]), m.durationMs, m.intervalMs).Resumed?
    ensures var s := CreateResumeState(c, m, LogText(c, obs[..k]), m.durationMs, m.intervalMs).state;
            && Evaluate(s.observations + later, OptionsOf(s.metadata, maxGrowthBytes))
               == Evaluate(obs[..k] + later, OptionsOf(m, maxGrowthBytes))
            && s.metadata == m && s.observations == obs[..k]
            && s.startedAtMs == m.startedAtMs && s.expectedEndAtMs == m.startedAtMs + m.durationMs
            && s.nextSampleAtMs == (if k == 0 then m.startedAtMs else At(obs[k - 1]).ms.GetOr(0) + m.intervalMs)
            && s.nextSampleAtMs >= m.startedAtMs + (if k == 0 then 0 else m.intervalMs)
  {
    WrittenLogReadsBack(c, obs[..k]);
  }
}
