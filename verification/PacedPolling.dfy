/** The paced poll loop: at most one poll per cadence, measured from the end of the previous
    one, whatever the clock reads and whatever wakes the poller. */
module PacedPolling {

  datatype Wake = Requested | Elapsed | Stopped

  /** `Duration::saturating_sub`, which `Instant::saturating_duration_since` uses too. */
  function SaturatingSub(a: nat, b: nat): nat {
    if a > b then a - b else 0
  }

  function WaitBeforeNextPoll(cadence: nat, lastFinished: nat, now: nat): nat {
    SaturatingSub(cadence, SaturatingSub(now, lastFinished))
  }

  /** On any clock: no wait once the window has closed, the rest of the window while it is
      open, and a whole cadence for a reading before the last finish. */
  lemma WaitEndsTheWindow(cadence: nat, lastFinished: nat, now: nat)
    ensures var timeout := WaitBeforeNextPoll(cadence, lastFinished, now);
            && (lastFinished + cadence <= now ==> timeout == 0)
            && (lastFinished <= now < lastFinished + cadence ==> now + timeout == lastFinished + cadence)
            && (now < lastFinished ==> timeout == cadence)
            && (timeout == 0 <==> cadence == 0 || lastFinished + cadence <= now)
  {
  }

  /** A reading before the last finish does wait, and the wait ends before the window does. */
  lemma SteppedBackClockWaits(cadence: nat, lastFinished: nat, now: nat)
    requires cadence > 0 && now < lastFinished
    ensures WaitBeforeNextPoll(cadence, lastFinished, now) != 0
    ensures now + WaitBeforeNextPoll(cadence, lastFinished, now) < lastFinished + cadence
  {
  }

  // ----- The host ----------------------------------------------------------

  datatype Call = Now(time: nat) | Wait(timeout: nat, wake: Wake) | Poll

  /** A host over an arbitrary clock and an arbitrary script of wakes, which records what it
      was asked. Once the script is over it reports a stop. */
  class SourcePollHost {
    const clock: nat -> nat
    const wakes: seq<Wake>
    var readings: nat
    var waits: nat
    var calls: seq<Call>

    constructor (clock: nat -> nat, wakes: seq<Wake>)
      ensures this.clock == clock && this.wakes == wakes
      ensures readings == 0 && waits == 0 && calls == []
    {
      this.clock, this.wakes := clock, wakes;
      readings, waits, calls := 0, 0, [];
    }

    method ReadClock() returns (time: nat)
      modifies this
      ensures time == clock(old(readings)) && readings == old(readings) + 1
      ensures waits == old(waits) && calls == old(calls) + [Now(time)]
    {
      time := clock(readings);
      readings := readings + 1;
      calls := calls + [Now(time)];
    }

    method WaitFor(timeout: nat) returns (wake: Wake)
      modifies this
      ensures wake == WakeAt(wakes, old(waits)) && waits == old(waits) + 1
      ensures readings == old(readings) && calls == old(calls) + [Wait(timeout, wake)]
    {
      wake := WakeAt(wakes, waits);
      waits := waits + 1;
      calls := calls + [Wait(timeout, wake)];
    }

    method PollSources()
      modifies this
      ensures readings == old(readings) && waits == old(waits) && calls == old(calls) + [Poll]
    {
      calls := calls + [Poll];
    }
  }

  function WakeAt(wakes: seq<Wake>, i: nat): Wake {
    if i < |wakes| then wakes[i] else Stopped
  }

  // ----- The turns of a run ------------------------------------------------

  /** One turn: the reading that sized its wait, the wait, its wake, and, if it polled, the
      reading taken when the poll had finished. */
  datatype Turn = Turn(now: nat, timeout: nat, wake: Wake, polled: bool, finished: nat)

  function TurnAt(clock: nat -> nat, wakes: seq<Wake>, cadence: nat, last: nat, read: nat, i: nat): Turn {
    var remaining := WaitBeforeNextPoll(cadence, last, clock(read));
    var wake := WakeAt(wakes, i);
    var polled := wake != Stopped && remaining == 0;
    Turn(clock(read), remaining, wake, polled, if polled then clock(read + 1) else last)
  }

  /** The turns from the `i`-th wake on, after a poll that finished at `last`. */
  function Turns(clock: nat -> nat, wakes: seq<Wake>, cadence: nat, last: nat, read: nat, i: nat): seq<Turn>
    decreases |wakes| - i
  {
    var turn := TurnAt(clock, wakes, cadence, last, read, i);
    if turn.wake == Stopped then [turn]
    else
      [turn] + Turns(clock, wakes, cadence, turn.finished, read + if turn.polled then 2 else 1, i + 1)
  }

  function Calls(turns: seq<Turn>): seq<Call> {
    if turns == [] then []
    else
      var turn := turns[0];
      [Now(turn.now), Wait(turn.timeout, turn.wake)]
      + (if turn.polled then [Poll, Now(turn.finished)] else [])
      + Calls(turns[1..])
  }

  /** The whole run. The clock starts as though a poll had just finished. */
  function Run(clock: nat -> nat, wakes: seq<Wake>, cadence: nat): seq<Turn> {
    Turns(clock, wakes, cadence, clock(0), 1, 0)
  }

  method RunPacedSourcePollLoop(host: SourcePollHost, cadence: nat)
    requires host.readings == 0 && host.waits == 0 && host.calls == []
    modifies host
    ensures host.calls == [Now(host.clock(0))] + Calls(Run(host.clock, host.wakes, cadence))
  {
    hide Calls, Turns;
    var lastFinished := host.ReadClock();
    ghost var all := [Now(host.clock(0))] + Calls(Run(host.clock, host.wakes, cadence));
    while true
      invariant host.waits <= |host.wakes|
      invariant host.calls + Calls(Turns(host.clock, host.wakes, cadence, lastFinished, host.readings, host.waits)) == all
      decreases |host.wakes| - host.waits
    {
      ghost var turn := TurnAt(host.clock, host.wakes, cadence, lastFinished, host.readings, host.waits);
      ghost var rest := AfterTurn(host.clock, host.wakes, cadence, host.readings, host.waits, turn);
      OneTurn(host.clock, host.wakes, cadence, lastFinished, host.readings, host.waits);
      Regroup(host.calls, Now(turn.now), Wait(turn.timeout, turn.wake), rest);
      var now := host.ReadClock();
      var remaining := WaitBeforeNextPoll(cadence, lastFinished, now);
      var wake := host.WaitFor(remaining);
      assert host.calls + rest == all;
      if wake == Stopped {
        return;
      }
      if remaining != 0 {
        continue;
      }
      Regroup(host.calls, Poll, Now(turn.finished), 
              Calls(Turns(host.clock, host.wakes, cadence, turn.finished, host.readings + 1, host.waits)));
      host.PollSources();
      lastFinished := host.ReadClock();
    }
  }

  lemma Regroup(calls: seq<Call>, a: Call, b: Call, rest: seq<Call>)
    ensures calls + ([a, b] + rest) == calls + [a] + [b] + rest
  {
  }

  /** What the host is asked once the turn's wait is over. */
  function AfterTurn(clock: nat -> nat, wakes: seq<Wake>, cadence: nat, read: nat, i: nat, turn: Turn): seq<Call> {
    if turn.wake == Stopped then []
    else if turn.polled then
      [Poll, Now(turn.finished)] + Calls(Turns(clock, wakes, cadence, turn.finished, read + 2, i + 1))
    else Calls(Turns(clock, wakes, cadence, turn.finished, read + 1, i + 1))
  }

  lemma OneTurn(clock: nat -> nat, wakes: seq<Wake>, cadence: nat, last: nat, read: nat, i: nat)
    ensures var turn := TurnAt(clock, wakes, cadence, last, read, i);
            Calls(Turns(clock, wakes, cadence, last, read, i))
            == [Now(turn.now), Wait(turn.timeout, turn.wake)]
               + AfterTurn(clock, wakes, cadence, read, i, turn)
  {
    var turn := TurnAt(clock, wakes, cadence, last, read, i);
    if turn.wake == Stopped {
      assert [turn][1..] == [];
    } else {
      var rest := Turns(clock, wakes, cadence, turn.finished, read + if turn.polled then 2 else 1, i + 1);
      assert ([turn] + rest)[1..] == rest;
    }
  }

  // ----- The pacing --------------------------------------------------------

  ghost predicate Monotone(clock: nat -> nat) {
    forall i, j :: 0 <= i <= j ==> clock(i) <= clock(j)
  }

  function Polls(turns: seq<Turn>): nat {
    if turns == [] then 0 else (if turns[0].polled then 1 else 0) + Polls(turns[1..])
  }

  /** Time spent between the reading that found the window closed and the poll's end. */
  function Busy(turns: seq<Turn>): int {
    if turns == [] then 0
    else (if turns[0].polled then turns[0].finished - turns[0].now else 0) + Busy(turns[1..])
  }

  /** When the last poll finished. */
  function LastFinish(turns: seq<Turn>, last: nat): nat {
    if turns == [] then last else LastFinish(turns[1..], turns[0].finished)
  }

  /** Every poll begins at least one cadence after the previous one finished, and finishes no
      earlier than it began; a turn that does not poll leaves the last finish alone. */
  ghost predicate Paced(turns: seq<Turn>, cadence: nat, last: nat) {
    turns != [] ==>
      && (turns[0].polled ==> last + cadence <= turns[0].now <= turns[0].finished)
      && (!turns[0].polled ==> turns[0].finished == last)
      && Paced(turns[1..], cadence, turns[0].finished)
  }

  lemma {:induction false} TurnsArePaced(
      clock: nat -> nat, wakes: seq<Wake>, cadence: nat, last: nat, read: nat, i: nat)
    requires Monotone(clock) && read > 0 && last <= clock(read - 1)
    ensures Paced(Turns(clock, wakes, cadence, last, read, i), cadence, last)
    decreases |wakes| - i
  {
    var turn := TurnAt(clock, wakes, cadence, last, read, i);
    assert clock(read - 1) <= clock(read) <= clock(read + 1);
    if turn.wake == Stopped {
      assert [turn][1..] == [];
    } else {
      var next := read + if turn.polled then 2 else 1;
      var rest := Turns(clock, wakes, cadence, turn.finished, next, i + 1);
      TurnsArePaced(clock, wakes, cadence, turn.finished, next, i + 1);
      assert ([turn] + rest)[1..] == rest;
    }
  }

  /** On a monotone clock every run is paced. */
  lemma RunIsPaced(clock: nat -> nat, wakes: seq<Wake>, cadence: nat)
    requires Monotone(clock)
    ensures Paced(Run(clock, wakes, cadence), cadence, clock(0))
  {
    TurnsArePaced(clock, wakes, cadence, clock(0), 1, 0);
  }

  lemma {:induction false} PacedTimeAddsUp(turns: seq<Turn>, cadence: nat, last: nat)
    requires Paced(turns, cadence, last)
    ensures Busy(turns) >= 0
    ensures Busy(turns) + Polls(turns) * cadence <= LastFinish(turns, last) - last
  {
    if turns != [] {
      PacedTimeAddsUp(turns[1..], cadence, turns[0].finished);
      assert (Polls(turns[1..]) + 1) * cadence == Polls(turns[1..]) * cadence + cadence;
    }
  }

  /** The rate bound: the time inside poll turns plus one cadence for each poll fits between
      the first reading and the end of the last poll. */
  lemma PollsCostTheirCadence(clock: nat -> nat, wakes: seq<Wake>, cadence: nat)
    requires Monotone(clock)
    ensures var turns := Run(clock, wakes, cadence);
            0 <= Busy(turns) <= Busy(turns) + Polls(turns) * cadence <= LastFinish(turns, clock(0)) - clock(0)
  {
    RunIsPaced(clock, wakes, cadence);
    PacedTimeAddsUp(Run(clock, wakes, cadence), cadence, clock(0));
  }

  lemma {:induction false} LaterThanTheLast(turns: seq<Turn>, cadence: nat, last: nat, j: nat)
    requires Paced(turns, cadence, last) && j < |turns| && turns[j].polled
    ensures last + cadence <= turns[j].now <= turns[j].finished
  {
    if j > 0 {
      LaterThanTheLast(turns[1..], cadence, turns[0].finished, j - 1);
    }
  }

  /** However many wakes fall in between, two polls of a run are a cadence apart, so any
      number of requests inside one window costs at most one poll. */
  lemma {:induction false} PollsAreACadenceApart(turns: seq<Turn>, cadence: nat, last: nat, i: nat, j: nat)
    requires Paced(turns, cadence, last)
    requires i < j < |turns| && turns[i].polled && turns[j].polled
    ensures turns[i].now <= turns[i].finished && turns[i].finished + cadence <= turns[j].now
  {
    if i == 0 {
      LaterThanTheLast(turns[1..], cadence, turns[0].finished, j - 1);
    } else {
      PollsAreACadenceApart(turns[1..], cadence, turns[0].finished, i - 1, j - 1);
    }
  }

  /** The loop never waits longer than a cadence, on any clock at all. */
  lemma {:induction false} WaitsAreBounded(
      clock: nat -> nat, wakes: seq<Wake>, cadence: nat, last: nat, read: nat, i: nat)
    ensures forall k :: 0 <= k < |Turns(clock, wakes, cadence, last, read, i)| ==>
      Turns(clock, wakes, cadence, last, read, i)[k].timeout <= cadence
    decreases |wakes| - i
  {
    var turn := TurnAt(clock, wakes, cadence, last, read, i);
    if turn.wake != Stopped {
      WaitsAreBounded(clock, wakes, cadence, turn.finished, read + if turn.polled then 2 else 1, i + 1);
    }
  }

  /** A stop ends the run, before any poll that was due, and a turn polls exactly when its
      window had closed and it was not stopped. */
  lemma {:induction false} NoPollFollowsAStop(
      clock: nat -> nat, wakes: seq<Wake>, cadence: nat, last: nat, read: nat, i: nat)
    ensures var turns := Turns(clock, wakes, cadence, last, read, i);
            && turns != [] && turns[|turns| - 1].wake == Stopped
            && (forall k :: 0 <= k < |turns| - 1 ==> turns[k].wake != Stopped)
            && (forall k :: 0 <= k < |turns| ==>
                  (turns[k].polled <==> turns[k].timeout == 0 && turns[k].wake != Stopped))
    decreases |wakes| - i
  {
    var turn := TurnAt(clock, wakes, cadence, last, read, i);
    if turn.wake != Stopped {
      NoPollFollowsAStop(clock, wakes, cadence, turn.finished, read + if turn.polled then 2 else 1, i + 1);
    }
  }

  // ----- A poll that is due happens ----------------------------------------

  /** Whether a reading closes the window that opened at `last`. */
  predicate Due(turn: Turn, cadence: nat, last: nat) {
    cadence == 0 || last + cadence <= turn.now
  }

  /** On any clock, a turn polls exactly when its reading is a cadence or more past the last
      finish and it is not stopped, and its wait is the rest of that window. */
  lemma {:induction false} PollsWhenDue(
      clock: nat -> nat, wakes: seq<Wake>, cadence: nat, last: nat, read: nat, i: nat, k: nat)
    requires k < |Turns(clock, wakes, cadence, last, read, i)|
    ensures var turns := Turns(clock, wakes, cadence, last, read, i);
            var finish := LastFinish(turns[..k], last);
            && (turns[k].polled <==> turns[k].wake != Stopped && Due(turns[k], cadence, finish))
            && (finish <= turns[k].now && !Due(turns[k], cadence, finish) ==>
                  turns[k].now + turns[k].timeout == finish + cadence)
            && (turns[k].now < finish ==> turns[k].timeout == cadence)
            && (Due(turns[k], cadence, finish) <==> turns[k].timeout == 0)
    decreases k
  {
    var turn := TurnAt(clock, wakes, cadence, last, read, i);
    WaitEndsTheWindow(cadence, last, turn.now);
    var turns := Turns(clock, wakes, cadence, last, read, i);
    if k > 0 {
      var next := read + if turn.polled then 2 else 1;
      PollsWhenDue(clock, wakes, cadence, turn.finished, next, i + 1, k - 1);
      assert turns[..k][1..] == turns[1..][..k - 1];
    }
  }

  lemma {:induction false} UnpolledKeepsTheFinish(
      clock: nat -> nat, wakes: seq<Wake>, cadence: nat, last: nat, read: nat, i: nat, k: nat)
    requires k <= |Turns(clock, wakes, cadence, last, read, i)|
    requires Polls(Turns(clock, wakes, cadence, last, read, i)[..k]) == 0
    ensures LastFinish(Turns(clock, wakes, cadence, last, read, i)[..k], last) == last
    decreases k
  {
    var turn := TurnAt(clock, wakes, cadence, last, read, i);
    var turns := Turns(clock, wakes, cadence, last, read, i);
    if k > 0 {
      assert turns[..k][1..] == turns[1..][..k - 1];
      if k > 1 {
        UnpolledKeepsTheFinish(clock, wakes, cadence, turn.finished, read + 1, i + 1, k - 1);
      }
    }
  }

  lemma {:induction false} PollsSplit(a: seq<Turn>, b: seq<Turn>)
    ensures Polls(a + b) == Polls(a) + Polls(b)
    ensures Busy(a + b) == Busy(a) + Busy(b)
  {
    if a == [] {
      assert a + b == b;
    } else {
      PollsSplit(a[1..], b);
      assert (a + b)[1..] == a[1..] + b;
    }
  }

  lemma {:induction false} FirstPoll(turns: seq<Turn>) returns (k: nat)
    requires Polls(turns) > 0
    ensures k < |turns| && turns[k].polled && Polls(turns[..k]) == 0
  {
    if turns[0].polled {
      k := 0;
    } else {
      k := FirstPoll(turns[1..]);
      k := k + 1;
      assert turns[..k][1..] == turns[1..][..k - 1];
    }
  }

  /** On any clock and any script: after a poll that finished at `last`, or from the start, the
      loop polls again if and only if some later reading that no stop answered is a cadence
      past that finish. */
  lemma PollsAgainIff(clock: nat -> nat, wakes: seq<Wake>, cadence: nat, last: nat, read: nat, i: nat)
    ensures var turns := Turns(clock, wakes, cadence, last, read, i);
            Polls(turns) > 0 <==>
            exists k :: 0 <= k < |turns| && turns[k].wake != Stopped && Due(turns[k], cadence, last)
  {
    hide Polls, LastFinish, Turns;
    var turns := Turns(clock, wakes, cadence, last, read, i);
    if Polls(turns) > 0 {
      var k := FirstPoll(turns);
      UnpolledKeepsTheFinish(clock, wakes, cadence, last, read, i, k);
      PollsWhenDue(clock, wakes, cadence, last, read, i, k);
    }
    if k :| 0 <= k < |turns| && turns[k].wake != Stopped && Due(turns[k], cadence, last) {
      assert turns == turns[..k] + turns[k..];
      PollsSplit(turns[..k], turns[k..]);
      if Polls(turns[..k]) == 0 {
        UnpolledKeepsTheFinish(clock, wakes, cadence, last, read, i, k);
        PollsWhenDue(clock, wakes, cadence, last, read, i, k);
        PolledCounts(turns[k..]);
      }
    }
  }

  lemma PolledCounts(turns: seq<Turn>)
    requires turns != [] && turns[0].polled
    ensures Polls(turns) > 0
  {
  }

  // ----- Requests do not matter --------------------------------------------

  /** A request and an elapsed wait are the same wake. */
  function Unasked(wake: Wake): Wake {
    if wake == Requested then Elapsed else wake
  }

  function UnaskedAll(wakes: seq<Wake>): (unasked: seq<Wake>)
    ensures |unasked| == |wakes|
    ensures forall i :: 0 <= i < |wakes| ==> unasked[i] == Unasked(wakes[i])
  {
    seq(|wakes|, i requires 0 <= i < |wakes| => Unasked(wakes[i]))
  }

  /** Take every request out of a script: the readings, the waits and the polls stay the same.
      A request never bypasses the cadence and never delays a poll. */
  lemma {:induction false} RequestsChangeNoPoll(
      clock: nat -> nat, wakes: seq<Wake>, cadence: nat, last: nat, read: nat, i: nat)
    ensures var turns, unasked := Turns(clock, wakes, cadence, last, read, i),
                                  Turns(clock, UnaskedAll(wakes), cadence, last, read, i);
            && |turns| == |unasked|
            && forall k :: 0 <= k < |turns| ==> unasked[k] == turns[k].(wake := Unasked(turns[k].wake))
    decreases |wakes| - i
  {
    var turn := TurnAt(clock, wakes, cadence, last, read, i);
    assert WakeAt(UnaskedAll(wakes), i) == Unasked(WakeAt(wakes, i));
    if turn.wake != Stopped {
      RequestsChangeNoPoll(clock, wakes, cadence, turn.finished, read + if turn.polled then 2 else 1, i + 1);
    }
  }
}
