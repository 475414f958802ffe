/** The text a poll leaves behind for the next one. A source's own checkpoint is nested in
    an availability envelope; each level recognises only its own shape. */
module Checkpoints {
  import opened Text
  import opened EventLog

  const ENVELOPE_SCHEMA: nat := 1
  const LEDGER_SCHEMA: nat := 1
  const FIRST_EPOCH: nat := 1

  /** One work-item's last observed version and the epoch it was observed at. */
  datatype Seen = Seen(version: nat, epoch: nat)

  type Ledger = map<string, Seen>

  /** Checkpoint text by the JSON shape it has. `Plain` is text of neither shape: a legacy
      checkpoint, or one of the two cold-start words. */
  datatype Checkpoint =
    | Envelope(schema: nat, sourceCheckpoint: Option<Checkpoint>, availability: Availability,
               transitionEpoch: nat)
    | LedgerText(schema: nat, items: Ledger)
    | Plain(text: string)

  const NOT_OBSERVED_CHECKPOINT := Plain("not_observed")
  const OBSERVED_IDLE_CHECKPOINT := Plain("observed_idle")

  // ----- The availability envelope -----------------------------------------

  datatype AvailabilityMemory = AvailabilityMemory(availability: Availability, transitionEpoch: nat)

  predicate IsEnvelope(checkpoint: Checkpoint) {
    checkpoint.Envelope? && checkpoint.schema == ENVELOPE_SCHEMA
  }

  /** The source position the previous checkpoint carries: a legacy or foreign checkpoint is
      that position itself. */
  function SourceCheckpoint(previous: Option<Checkpoint>): Option<Checkpoint> {
    if previous.None? then None
    else if IsEnvelope(previous.value) then previous.value.sourceCheckpoint
    else previous
  }

  /** The availability epoch the previous checkpoint can vouch for, if any. */
  function Memory(previous: Option<Checkpoint>): Option<AvailabilityMemory> {
    if previous.Some? && IsEnvelope(previous.value) then
      Some(AvailabilityMemory(previous.value.availability, previous.value.transitionEpoch))
    else None
  }

  /** `checkpoint_reflects_a_successful_poll`. */
  predicate ReflectsASuccessfulPoll(checkpoint: Checkpoint) {
    Memory(Some(checkpoint)).Some? && Memory(Some(checkpoint)).value.availability == Observed
  }

  function TransitionEpoch(previous: Option<Checkpoint>, next: Availability): nat {
    match Memory(previous)
    case None => FIRST_EPOCH
    case Some(memory) =>
      if memory.availability == next then memory.transitionEpoch
      else SaturatingNext(memory.transitionEpoch)
  }

  function Transition(previous: Option<Checkpoint>, next: Availability, sourceCheckpoint: Checkpoint)
    : Checkpoint
  {
    Envelope(ENVELOPE_SCHEMA, Some(sourceCheckpoint), next, TransitionEpoch(previous, next))
  }

  function SourceCheckpointOr(previous: Option<Checkpoint>, fallback: Checkpoint): Checkpoint {
    if SourceCheckpoint(previous).Some? then SourceCheckpoint(previous).value else fallback
  }

  // ----- The per-item observation ledger -----------------------------------

  function LedgerFrom(sourceCheckpoint: Option<Checkpoint>): Ledger {
    if sourceCheckpoint.Some? && sourceCheckpoint.value.LedgerText?
       && sourceCheckpoint.value.schema == LEDGER_SCHEMA
    then sourceCheckpoint.value.items
    else map[]
  }

  function LedgerCheckpoint(ledger: Ledger): Checkpoint {
    LedgerText(LEDGER_SCHEMA, ledger)
  }

  /** The ledger two levels down in a stored checkpoint. */
  function RecoveredLedger(stored: Option<Checkpoint>): Ledger {
    LedgerFrom(SourceCheckpoint(stored))
  }

  function ObservedEpoch(ledger: Ledger, itemId: string, version: nat): nat {
    if itemId !in ledger then FIRST_EPOCH
    else if ledger[itemId].version == version then ledger[itemId].epoch
    else SaturatingNext(ledger[itemId].epoch)
  }

  class WorkItemObservationLedger {
    var items: Ledger

    /** Entries come from a ledger of the known schema and from nothing else. */
    constructor FromPrevious(sourceCheckpoint: Option<Checkpoint>)
      ensures forall ledger: Ledger :: sourceCheckpoint == Some(LedgerText(LEDGER_SCHEMA, ledger)) ==> items == ledger
      ensures items != map[] ==> sourceCheckpoint == Some(LedgerText(LEDGER_SCHEMA, items))
      ensures items == LedgerFrom(sourceCheckpoint)
    {
      items := LedgerFrom(sourceCheckpoint);
    }

    function Observe(itemId: string, version: nat): nat
      reads this
    {
      ObservedEpoch(items, itemId, version)
    }

    method Record(itemId: string, version: nat, epoch: nat)
      modifies this
      ensures items == old(items)[itemId := Seen(version, epoch)]
    {
      items := items[itemId := Seen(version, epoch)];
    }

    /** What the next poll reads back, alone and inside any envelope, is this ledger. */
    method ToCheckpoint() returns (checkpoint: Checkpoint)
      ensures LedgerFrom(Some(checkpoint)) == items
      ensures forall previous, next :: RecoveredLedger(Some(Transition(previous, next, checkpoint))) == items
      ensures checkpoint == LedgerCheckpoint(items)
    {
      checkpoint := LedgerCheckpoint(items);
    }
  }

  // ----- Round trips at both levels ----------------------------------------

  /** What one poll encodes, the next one decodes: the envelope's own state, the nested
      source position, and a ledger inside that position. */
  lemma DecodeUndoesEncode(previous: Option<Checkpoint>, next: Availability, position: Checkpoint)
    ensures var stored := Some(Transition(previous, next, position));
            && SourceCheckpoint(stored) == Some(position)
            && Memory(stored) == Some(AvailabilityMemory(next, TransitionEpoch(previous, next)))
            && ReflectsASuccessfulPoll(stored.value) == (next == Observed)
            && (forall ledger: Ledger :: position == LedgerCheckpoint(ledger) ==> RecoveredLedger(stored) == ledger)
  {
  }

  /** Text that is no envelope of the known schema is a position of its own: it vouches for no
      epoch, and a ledger stored without an envelope is still read. */
  lemma ForeignTextIsThePosition(stored: Checkpoint)
    requires !(stored.Envelope? && stored.schema == 1)
    ensures SourceCheckpoint(Some(stored)) == Some(stored) && Memory(Some(stored)).None?
    ensures !ReflectsASuccessfulPoll(stored)
    ensures RecoveredLedger(Some(stored)) == if stored.LedgerText? && stored.schema == 1 then stored.items else map[]
  {
  }

  /** A poll that brings no data carries the ledger through the envelope unchanged: from a
      cold start, from a legacy checkpoint and from another envelope alike. */
  lemma CarryingKeepsTheLedger(previous: Option<Checkpoint>, next: Availability, fallback: Checkpoint)
    requires fallback.Plain?
    ensures RecoveredLedger(Some(Transition(previous, next, SourceCheckpointOr(previous, fallback))))
            == RecoveredLedger(previous)
  {
  }
}
