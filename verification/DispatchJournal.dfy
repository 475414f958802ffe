/** The dispatcher journal: reading one record, and the backward scan for the newest dispatch. */
module DispatchJournal {
  import opened Text

  datatype RawOutcome = RawOutcome(stage: Option<string>, status: Option<string>, detail: Option<string>)

  /** A journal record as its JSON has it. */
  datatype RawEntry = RawEntry(
    workItemId: Option<string>, dispatchId: Option<string>, stage: Option<string>,
    outcomeStatus: Option<string>, outcome: Option<RawOutcome>)

  datatype Kind = Progress | BacklogBounce | DispatcherStalenessRefused | InvalidSourceState | HostOnlyRefused

  datatype Entry = Entry(
    workItemId: string, dispatchId: string, kind: Kind, diagnostic: Option<string>, terminalStatus: Option<string>)

  /** What one line of the journal comes to. */
  datatype Reading = BlankLine | NoDispatch | Dispatch(entry: Entry) | Malformed(reason: string)

  function NonBlank(text: Option<string>): (kept: Option<string>)
    ensures kept.Some? ==> kept == text && !IsBlank(kept.value)
  {
    if text.Some? && !IsBlank(text.value) then text else None
  }

  function Default(text: Option<string>): string {
    if text.Some? then text.value else ""
  }

  predicate Contains(text: string, part: string) {
    exists i :: 0 <= i <= |text| - |part| && text[i..][..|part|] == part
  }

  lemma ContainsIff(text: string, part: string)
    ensures Contains(text, part) <==> exists before, after :: text == before + part + after
  {
    if Contains(text, part) {
      var i :| 0 <= i <= |text| - |part| && text[i..][..|part|] == part;
      assert text == text[..i] + part + text[i + |part|..];
    }
    if before, after :| text == before + part + after {
      assert text[|before|..][..|part|] == part;
    }
  }

  predicate NotConverged(raw: RawEntry, outcome: RawOutcome) {
    && raw.stage == Some("outcome")
    && (Default(outcome.status) == "stalled-no-progress"
        || (Default(outcome.status) == "failed"
            && outcome.detail.Some? && Contains(outcome.detail.value, "LIVESPEC_NON_CONVERGED")))
  }

  function RefusalKind(stage: string): Kind {
    if stage == "dispatcher-staleness-refused" then DispatcherStalenessRefused
    else if stage == "invalid-source-state" || stage == "admission-held" then InvalidSourceState
    else if stage == "host-only-refused" then HostOnlyRefused
    else Progress
  }

  function Diagnostic(detail: Option<string>): (diagnostic: Option<string>)
    ensures diagnostic.Some? <==> detail.Some? && !IsBlank(detail.value)
  {
    if detail.Some? && Trim(detail.value) != "" then Some(Trim(detail.value)) else None
  }

  function ReadRecord(raw: RawEntry): Reading {
    if NonBlank(raw.dispatchId).None? then NoDispatch
    else if NonBlank(raw.workItemId).None? then Malformed("no work-item in journal entry")
    else
      var progress := Entry(raw.workItemId.value, raw.dispatchId.value, Progress, None, None);
      if raw.stage == Some("non-convergence-bounce") then
        var status := NonBlank(raw.outcomeStatus);
        Dispatch(progress.(kind := BacklogBounce, terminalStatus := if status.Some? then status else Some("bounced")))
      else if raw.outcome.None? then Dispatch(progress)
      else
        var outcome := raw.outcome.value;
        if NotConverged(raw, outcome) then
          Dispatch(progress.(kind := BacklogBounce, terminalStatus := Some(Default(outcome.status))))
        else if raw.stage != Some("outcome") || Default(outcome.status) != "failed" then Dispatch(progress)
        else
          Dispatch(progress.(kind := RefusalKind(Default(outcome.stage)), diagnostic := Diagnostic(outcome.detail)))
  }

  /** `parse` stands for the JSON reader. */
  function Read(line: string, parse: string -> Option<RawEntry>): Reading {
    if IsBlank(line) then BlankLine
    else if parse(line).None? then Malformed("invalid dispatcher journal JSON")
    else ReadRecord(parse(line).value)
  }

  // ----- The scan ----------------------------------------------------------

  predicate NewestAt(lines: seq<string>, parse: string -> Option<RawEntry>, i: int) {
    && 0 <= i < |lines| && Read(lines[i], parse).Dispatch?
    && forall j :: i < j < |lines| ==> !Read(lines[j], parse).Dispatch?
  }

  predicate NewestFaultAt(lines: seq<string>, parse: string -> Option<RawEntry>, i: int) {
    && 0 <= i < |lines| && Read(lines[i], parse).Malformed?
    && forall j :: i < j < |lines| ==> !Read(lines[j], parse).Malformed?
  }

  predicate HasDispatch(lines: seq<string>, parse: string -> Option<RawEntry>) {
    exists i :: 0 <= i < |lines| && Read(lines[i], parse).Dispatch?
  }

  predicate IsEmpty(lines: seq<string>) {
    forall i :: 0 <= i < |lines| ==> IsBlank(lines[i])
  }

  /** The answer a journal calls for: its newest dispatch; without one, its newest fault; idle
      if it has records and all of them are well formed; an error of its own if it has none. */
  ghost predicate IsAnswer(
    lines: seq<string>, parse: string -> Option<RawEntry>, answer: Result<Option<Entry>, string>)
  {
    match answer
    case Ok(Some(entry)) => exists i :: NewestAt(lines, parse, i) && Read(lines[i], parse) == Dispatch(entry)
    case Ok(None) =>
      && !IsEmpty(lines)
      && forall i :: 0 <= i < |lines| ==> Read(lines[i], parse) in {BlankLine, NoDispatch}
    case Err(reason) =>
      && !HasDispatch(lines, parse)
      && (|| (IsEmpty(lines) && reason == "empty dispatcher journal")
          || exists i :: NewestFaultAt(lines, parse, i) && Read(lines[i], parse) == Malformed(reason))
  }

  method MostRecentDispatchJournalEntry(lines: seq<string>, parse: string -> Option<RawEntry>)
    returns (answer: Result<Option<Entry>, string>)
    ensures IsAnswer(lines, parse, answer)
  {
    hide ReadRecord, IsBlank;
    var sawEntry, malformed: Option<string> := false, None;
    ghost var fault := 0;
    var i := |lines|;
    while i > 0
      invariant 0 <= i <= |lines|
      invariant forall j :: i <= j < |lines| ==> !Read(lines[j], parse).Dispatch?
      invariant sawEntry <==> exists j :: i <= j < |lines| && !IsBlank(lines[j])
      invariant malformed.None? ==> forall j :: i <= j < |lines| ==> !Read(lines[j], parse).Malformed?
      invariant malformed.Some? ==>
        i <= fault && NewestFaultAt(lines, parse, fault) && Read(lines[fault], parse) == Malformed(malformed.value)
    {
      i := i - 1;
      if IsBlank(lines[i]) {
        continue;
      }
      sawEntry := true;
      match Read(lines[i], parse)
      case Dispatch(entry) =>
        assert NewestAt(lines, parse, i);
        return Ok(Some(entry));
      case Malformed(reason) =>
        if malformed.None? {
          malformed, fault := Some(reason), i;
        }
      case _ =>
    }
    if !sawEntry {
      return Err("empty dispatcher journal");
    }
    answer := if malformed.Some? then Err(malformed.value) else Ok(None);
  }

  /** Every journal calls for exactly one answer. */
  lemma AnswerIsUnique(
      lines: seq<string>, parse: string -> Option<RawEntry>,
      a: Result<Option<Entry>, string>, b: Result<Option<Entry>, string>)
    requires IsAnswer(lines, parse, a) && IsAnswer(lines, parse, b)
    ensures a == b
  {
    hide ReadRecord, IsBlank;
  }

  /** Background records, malformed lines and blank ones never hide the dispatch beneath them,
      in whatever number and mix they are appended. */
  lemma NoiseHidesNothing(
      lines: seq<string>, noise: seq<string>, parse: string -> Option<RawEntry>, entry: Entry)
    requires IsAnswer(lines, parse, Ok(Some(entry))) && !HasDispatch(noise, parse)
    ensures IsAnswer(lines + noise, parse, Ok(Some(entry)))
  {
    hide Read;
    var i :| NewestAt(lines, parse, i) && Read(lines[i], parse) == Dispatch(entry);
    var all := lines + noise;
    forall j | i < j < |all| ensures !Read(all[j], parse).Dispatch? {
      if j < |lines| {
        assert all[j] == lines[j];
      } else {
        assert all[j] == noise[j - |lines|];
      }
    }
    assert NewestAt(all, parse, i);
  }

  /** A newer dispatch supersedes whatever the journal held. */
  lemma NewestDispatchWins(lines: seq<string>, line: string, parse: string -> Option<RawEntry>)
    requires Read(line, parse).Dispatch?
    ensures IsAnswer(lines + [line], parse, Ok(Some(Read(line, parse).entry)))
  {
    hide Read;
    assert NewestAt(lines + [line], parse, |lines|);
  }

  /** A malformed line matters only where there is no dispatch: an idle journal then reports
      it, and appending background records does not clear it. */
  lemma FaultsShowWithoutADispatch(
      lines: seq<string>, line: string, noise: seq<string>, parse: string -> Option<RawEntry>)
    requires !HasDispatch(lines, parse) && Read(line, parse).Malformed?
    requires forall i :: 0 <= i < |noise| ==> Read(noise[i], parse) in {BlankLine, NoDispatch}
    ensures IsAnswer(lines + [line] + noise, parse, Err(Read(line, parse).reason))
  {
    hide Read;
    var all := lines + [line] + noise;
    forall j | 0 <= j < |all| ensures !Read(all[j], parse).Dispatch?
                              ensures j > |lines| ==> !Read(all[j], parse).Malformed? {
      if j < |lines| {
        assert all[j] == lines[j];
      } else if j > |lines| {
        assert all[j] == noise[j - |lines| - 1];
      }
    }
    assert NewestFaultAt(all, parse, |lines|);
  }

  // ----- One record --------------------------------------------------------

  predicate Given(text: Option<string>) {
    text.Some? && !IsBlank(text.value)
  }

  /** A record is a dispatch exactly when it names both a dispatch and a work-item, and
      malformed exactly when it names a dispatch only; the names are kept as they are. */
  lemma RecordIsDispatchIff(raw: RawEntry)
    ensures ReadRecord(raw).Dispatch? <==> Given(raw.dispatchId) && Given(raw.workItemId)
    ensures ReadRecord(raw).Malformed? <==> Given(raw.dispatchId) && !Given(raw.workItemId)
    ensures ReadRecord(raw).Malformed? ==> ReadRecord(raw).reason == "no work-item in journal entry"
    ensures !Given(raw.dispatchId) ==> ReadRecord(raw) == NoDispatch
    ensures ReadRecord(raw).Dispatch? ==>
              && Some(ReadRecord(raw).entry.dispatchId) == raw.dispatchId
              && Some(ReadRecord(raw).entry.workItemId) == raw.workItemId
  {
    hide Contains, IsBlank, Trim;
  }

  /** What a line comes to: nothing if it is blank, a fault if it is no JSON, and otherwise
      what its record comes to. */
  lemma LineIs(line: string, parse: string -> Option<RawEntry>)
    ensures Read(line, parse).BlankLine? <==> IsBlank(line)
    ensures Read(line, parse).Malformed? <==>
            !IsBlank(line) && match parse(line)
                              case None => true
                              case Some(raw) => Given(raw.dispatchId) && !Given(raw.workItemId)
    ensures !IsBlank(line) && parse(line).None? ==> Read(line, parse) == Malformed("invalid dispatcher journal JSON")
    ensures Read(line, parse).Dispatch? <==>
            !IsBlank(line) && parse(line).Some? && Given(parse(line).value.dispatchId) && Given(parse(line).value.workItemId)
  {
    hide ReadRecord, IsBlank;
    if parse(line).Some? {
      RecordIsDispatchIff(parse(line).value);
    }
  }

  /** An outcome record of a dispatch that made no progress, or failed without converging. */
  predicate Stalled(raw: RawEntry) {
    && raw.stage == Some("outcome") && raw.outcome.Some?
    && var status, detail := raw.outcome.value.status, raw.outcome.value.detail;
       || status == Some("stalled-no-progress")
       || (status == Some("failed") && detail.Some? && Contains(detail.value, "LIVESPEC_NON_CONVERGED"))
  }

  /** Which dispatches are bounces, and that only a bounce has a terminal status and only a
      failed outcome a diagnostic. */
  lemma BounceIff(raw: RawEntry)
    requires ReadRecord(raw).Dispatch?
    ensures var entry := ReadRecord(raw).entry;
            && (entry.kind == BacklogBounce <==> raw.stage == Some("non-convergence-bounce") || Stalled(raw))
            && (entry.terminalStatus.Some? <==> entry.kind == BacklogBounce)
            && (entry.diagnostic.Some? ==>
                  && entry.kind != BacklogBounce && raw.stage == Some("outcome")
                  && raw.outcome.Some? && raw.outcome.value.status == Some("failed"))
  {
    hide Contains, IsBlank, Trim;
  }

  /** An outcome record whose dispatch failed, and failed otherwise than by not converging. */
  predicate FailedOutcome(raw: RawEntry) {
    raw.stage == Some("outcome") && raw.outcome.Some? && raw.outcome.value.status == Some("failed") && !Stalled(raw)
  }

  /** A failed outcome is a refusal exactly for the four refusing stages, and carries its detail
      trimmed, unless that is blank; what is neither that nor a bounce is progress. */
  lemma RefusalIff(raw: RawEntry)
    requires ReadRecord(raw).Dispatch?
    ensures var entry := ReadRecord(raw).entry;
            if FailedOutcome(raw) then
              var stage, detail := raw.outcome.value.stage, raw.outcome.value.detail;
              && (entry.kind == DispatcherStalenessRefused <==> stage == Some("dispatcher-staleness-refused"))
              && (entry.kind == InvalidSourceState <==>
                    stage == Some("invalid-source-state") || stage == Some("admission-held"))
              && (entry.kind == HostOnlyRefused <==> stage == Some("host-only-refused"))
              && entry.diagnostic == (if detail.Some? && !IsBlank(detail.value) then Some(Trim(detail.value)) else None)
            else
              entry.kind in {Progress, BacklogBounce} && entry.diagnostic.None?
  {
    hide Contains, Trim;
  }

  /** How a bounce ended: the status its own record gives, "bounced" if that gives none, and
      otherwise the status of the outcome that did not converge. */
  lemma BounceStatus(raw: RawEntry)
    requires ReadRecord(raw).Dispatch? && ReadRecord(raw).entry.kind == BacklogBounce
    ensures var status := ReadRecord(raw).entry.terminalStatus;
            if raw.stage == Some("non-convergence-bounce") then
              status == if raw.outcomeStatus.Some? && !IsBlank(raw.outcomeStatus.value) then raw.outcomeStatus
                        else Some("bounced")
            else
              Stalled(raw) && status == raw.outcome.value.status
  {
    hide Contains, IsBlank, Trim;
  }
}
