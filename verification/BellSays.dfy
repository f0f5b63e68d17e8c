/**
 What a bell says and what it writes down of the answers: how many messages each
 try announces, which answer each line of the log records, and when the next
 try is due.
 */
module BellSays {
  import opened Basics
  import opened Events
  import opened BellSpec
  import B = Breaker
  import S = BellStreak

  // ---------------------------------------------------------------- how much is announced

  /** What a step announces, if it rings. */
  function Said(w: World, st: Step): Option<Announce> {
    match st
    case WindowEnds(_, _) => FireSays(w.bell)
    case AskBacklog(heard, counter, _, _) => BacklogSays(w.bell, Asked(w, heard, counter))
    case NextTry(heard, counter, _, _) => AgainSays(w.bell, Asked(w, heard, counter))
    case _ => None
  }

  /** A backlog's figure is set, not added: the queue's count, or the tally where that is larger. */
  lemma BacklogSetsTheFigure(w: World, heard: bool, counter: bool, answer: Answer, now: nat)
    ensures var said := Said(w, AskBacklog(heard, counter, answer, now));
            && (said.Some? <==> heard && counter && !w.bell.stopped && w.queue != [])
            && (said.Some? && w.bell.window.pending <= |w.queue| ==> said.value.n == |w.queue|)
            && (said.Some? && w.bell.window.pending > |w.queue| ==> said.value.n == w.bell.window.pending)
  {
  }

  ghost predicate NoReads(steps: seq<Step>) {
    forall i :: 0 <= i < |steps| ==> !steps[i].Take?
  }

  /** The tally is never more than the queue holds. */
  ghost predicate Covered(w: World) {
    w.bell.window.pending <= |w.queue|
  }

  lemma TryKeepsWindow(b: Bell, c: Config, answer: Answer, now: nat)
    ensures Try(b, c, answer, now).window == b.window
  {
    RingFrame(b, c, answer, now);
  }

  lemma StepKeepsCovered(w: World, c: Config, st: Step)
    requires Enabled(w, st) && Covered(w) && !st.Take?
    ensures Covered(Next(w, c, st))
  {
    match st
    case AskBacklog(heard, counter, answer, now) =>
      var b := w.bell;
      if heard && counter && !b.stopped && w.queue != [] {
        var b1 := b.(back := b.back || b.cut, cut := false, window := Backlogged(b.window, b.cut, |w.queue|));
        TryKeepsWindow(Opened(b1), c, answer, now);
      }
    case WindowEnds(answer, now) =>
      TryKeepsWindow(Opened(w.bell), c, answer, now);
    case NextTry(_, _, answer, now) =>
      TryKeepsWindow(w.bell.(streak := w.bell.streak.(next := None)), c, answer, now);
    case _ =>
  }

  lemma {:induction false} RunKeepsCovered(w: World, c: Config, steps: seq<Step>, w': World)
    requires Covered(w) && Run(w, c, steps, w') && NoReads(steps)
    ensures Covered(w')
    decreases |steps|
  {
    if steps != [] {
      assert !steps[0].Take?;
      StepKeepsCovered(w, c, steps[0]);
      assert forall i :: 0 <= i < |steps[1..]| ==> steps[1..][i] == steps[i + 1];
      RunKeepsCovered(Next(w, c, steps[0]), c, steps[1..], w');
    }
  }

  /** In every run without a read, of arrivals seen or unseen, cuts, backlogs and tries, nothing is announced that does not exist. */
  lemma NeverSaysMoreThanWaits(c: Config, w0: World, steps: seq<Step>, w: World, st: Step)
    requires Starts(w0) && Run(w0, c, steps, w) && NoReads(steps) && Enabled(w, st)
    ensures Said(w, st).Some? ==> 0 < Said(w, st).value.n <= |w.queue|
  {
    RunKeepsCovered(w0, c, steps, w);
  }

  /** The tally of unannounced arrivals grows by what is seen and is taken only by a ring that announces it. */
  lemma ArrivalsWaitForARing(w: World, c: Config, st: Step)
    requires Enabled(w, st) && !w.bell.stopped
    ensures var was, now := w.bell.window.pending, Next(w, c, st).bell.window.pending;
            match st
            case Arrive(_) => now == was + 1
            case WindowEnds(_, _) => now == 0 && (was > 0 ==> Said(w, st).Some? && Said(w, st).value.n == was)
            case AskBacklog(_, _, _, _) =>
              if Said(w, st).Some? then now == 0 && was <= Said(w, st).value.n else now == was
            case _ => now == was
  {
    match st
    case AskBacklog(heard, counter, answer, now) =>
      var b := w.bell;
      if heard && counter && w.queue != [] {
        var b1 := b.(back := b.back || b.cut, cut := false, window := Backlogged(b.window, b.cut, |w.queue|));
        TryKeepsWindow(Opened(b1), c, answer, now);
      }
    case WindowEnds(answer, now) =>
      TryKeepsWindow(Opened(w.bell), c, answer, now);
    case NextTry(_, _, answer, now) =>
      TryKeepsWindow(w.bell.(streak := w.bell.streak.(next := None)), c, answer, now);
    case _ =>
  }

  lemma TryKeepsCut(b: Bell, c: Config, answer: Answer, now: nat)
    ensures Try(b, c, answer, now).cut == b.cut && Try(b, c, answer, now).back == b.back
  {
    RingFrame(b, c, answer, now);
  }

  /**
   When a cut begins and ends: every loss of the watch begins one; a count read
   by a backlog ends it; an empty queue found by a later try ends it exactly once
   a backlog was asked for since the loss; nothing else does.
   */
  lemma WhenACutEnds(w: World, c: Config, st: Step)
    requires Enabled(w, st) && !w.bell.stopped
    ensures var was, b := w.bell, Next(w, c, st).bell;
            match st
            case Lose => b.cut && !b.back
            case AskBacklog(heard, counter, _, _) =>
              && b.back == (was.back || (counter && was.cut))
              && b.cut == (was.cut && !(heard && counter))
            case NextTry(heard, counter, _, _) =>
              b.back == was.back && b.cut == (was.cut && !(heard && counter && w.queue == [] && was.back))
            case _ => b.cut == was.cut && b.back == was.back
  {
    match st
    case AskBacklog(heard, counter, answer, now) =>
      var b := w.bell;
      if heard && counter && w.queue != [] {
        TryKeepsCut(Opened(b.(back := b.back || b.cut, cut := false, window := Backlogged(b.window, b.cut, |w.queue|))),
                    c, answer, now);
      }
    case WindowEnds(answer, now) =>
      TryKeepsCut(Opened(w.bell), c, answer, now);
    case NextTry(_, _, answer, now) =>
      TryKeepsCut(w.bell.(streak := w.bell.streak.(next := None)), c, answer, now);
    case _ =>
  }

  // ---------------------------------------------------------------- what each line records

  /** Why a line was written: a count nobody could read, a ring the breaker refused, an answer, or the end of a streak. */
  datatype Cause = Unread | Refusal | Heard(answer: Answer) | End

  /** A line says what its cause says, in its own words. */
  predicate Tells(e: Event, cause: Cause) {
    match cause
    case Unread => e.status == BellTry && e.result == Failed && e.reason == "the unread count could not be read"
    case Refusal => e.status == BellTry && e.result == Suppressed && e.reason == "suppressed by the breaker"
    case Heard(Took) => e.status == BellTry && e.result == Rang && e.reason == ""
    case Heard(Busy(text)) => e.status == BellTry && e.result == Refused && e.reason == text
    case Heard(Holds(text)) => e.status == BellTry && e.result == Held && e.reason == text
    case Heard(Broke(text)) => e.status == BellTry && e.result == Failed && e.reason == text
    case End => e.status == BellGaveUp
  }

  /** The steps that make a try: a window or a backlog that fires, and a later try of mail that waits or cannot be counted. */
  predicate Tries(w: World, st: Step) {
    S.Fires(w, st) || (st.NextTry? && !w.bell.stopped && st.counter && (!st.heard || w.queue != []))
  }

  predicate Admitted(b: Bell, c: Config, now: nat) {
    !B.Full(B.Roll(b.breaker, now), c.caps)
  }

  /** Why the try of a step says what it says. */
  function CauseOf(w: World, c: Config, st: Step): Cause
    requires Tries(w, st)
  {
    if st.NextTry? && !st.heard then Unread
    else if Admitted(w.bell, c, st.now) then Heard(st.answer)
    else Refusal
  }

  lemma CountedTells(b: Bell, c: Config, o: Outcome, now: nat, cause: Cause)
    requires !b.stopped && !cause.End?
    requires forall e: Event :: e.status == BellTry && e.result == o.result && e.reason == o.reason ==> Tells(e, cause)
    ensures var lines := CountedLines(b.streak, c, o, now);
            && Counted(b, c, o, now).log == b.log + lines
            && Tells(lines[0], cause) && 1 <= |lines| <= 2 && (|lines| == 2 ==> Tells(lines[1], End))
  {
  }

  /** The lines a step adds to the log, one for its try and one for a streak it ends. */
  ghost predicate Adds(log: seq<Event>, log': seq<Event>, cause: Cause) {
    && |log| < |log'| <= |log| + 2 && log'[..|log|] == log
    && Tells(log'[|log|], cause) && (|log'| == |log| + 2 ==> Tells(log'[|log| + 1], End))
  }

  lemma TryTells(b: Bell, c: Config, answer: Answer, now: nat)
    requires !b.stopped
    ensures Adds(b.log, Try(b, c, answer, now).log, if Admitted(b, c, now) then Heard(answer) else Refusal)
  {
    RingFrame(b, c, answer, now);
    var (b1, o) := Ring(b, c, answer, now);
    CountedTells(b1, c, o, now, if Admitted(b, c, now) then Heard(answer) else Refusal);
  }

  lemma StepTells(w: World, c: Config, st: Step)
    requires Enabled(w, st)
    ensures !Tries(w, st) ==> Next(w, c, st).bell.log == w.bell.log
    ensures Tries(w, st) ==> Adds(w.bell.log, Next(w, c, st).bell.log, CauseOf(w, c, st))
  {
    var b := w.bell;
    if Tries(w, st) {
      match st
      case WindowEnds(answer, now) => TryTells(Opened(b), c, answer, now);
      case AskBacklog(_, _, answer, now) =>
        var b1 := b.(back := b.back || b.cut, cut := false, window := Backlogged(b.window, b.cut, |w.queue|));
        TryTells(Opened(b1), c, answer, now);
      case NextTry(heard, _, answer, now) =>
        var b1 := b.(streak := b.streak.(next := None));
        if heard {
          TryTells(b1, c, answer, now);
        } else {
          CountedTells(b1, c, Outcome(Failed, REASON_NO_COUNT), now, Unread);
        }
    }
  }

  /** The causes of the log's lines after one more step. */
  function CausesNext(w: World, c: Config, causes: seq<Cause>, st: Step): seq<Cause>
    requires Enabled(w, st)
  {
    if !Tries(w, st) then causes
    else if |Next(w, c, st).bell.log| == |w.bell.log| + 2 then causes + [CauseOf(w, c, st), End]
    else causes + [CauseOf(w, c, st)]
  }

  /** The causes of a whole run's lines. */
  function Causes(w: World, c: Config, causes: seq<Cause>, steps: seq<Step>): seq<Cause>
    decreases |steps|
  {
    if steps == [] || !Enabled(w, steps[0]) then causes
    else Causes(Next(w, c, steps[0]), c, CausesNext(w, c, causes, steps[0]), steps[1..])
  }

  ghost predicate AllTell(log: seq<Event>, causes: seq<Cause>) {
    |log| == |causes| && forall i :: 0 <= i < |log| ==> Tells(log[i], causes[i])
  }

  lemma AddsTell(log: seq<Event>, log': seq<Event>, causes: seq<Cause>, cause: Cause)
    requires AllTell(log, causes) && Adds(log, log', cause)
    ensures AllTell(log', causes + if |log'| == |log| + 2 then [cause, End] else [cause])
  {
    assert forall i :: 0 <= i < |log| ==> log'[i] == log'[..|log|][i];
  }

  lemma {:induction false} RunTells(w: World, c: Config, causes: seq<Cause>, steps: seq<Step>, w': World)
    requires Run(w, c, steps, w') && AllTell(w.bell.log, causes)
    ensures AllTell(w'.bell.log, Causes(w, c, causes, steps))
    decreases |steps|
  {
    if steps != [] {
      var w1 := Next(w, c, steps[0]);
      StepTells(w, c, steps[0]);
      if Tries(w, steps[0]) {
        AddsTell(w.bell.log, w1.bell.log, causes, CauseOf(w, c, steps[0]));
      }
      RunTells(w1, c, CausesNext(w, c, causes, steps[0]), steps[1..], w');
    }
  }

  /**
   In every run each line is of the step that tried: a ring that was taken is
   written as rang with no reason, a busy, held or broken one under its own word
   with the notifier's text, a ring the breaker refused as suppressed.
   */
  lemma EachLineTellsItsAnswer(c: Config, w0: World, steps: seq<Step>, w: World)
    requires Starts(w0) && Run(w0, c, steps, w)
    ensures AllTell(w.bell.log, Causes(w0, c, [], steps))
  {
    RunTells(w0, c, [], steps, w);
  }

  predicate Taken(cause: Cause) {
    cause == Heard(Took)
  }

  lemma {:induction false} RungAreTaken(lines: seq<Event>, causes: seq<Cause>)
    requires AllTell(lines, causes)
    ensures S.Rung(lines) == Count(causes, Taken)
  {
    if lines != [] {
      RungAreTaken(lines[..|lines| - 1], causes[..|causes| - 1]);
      assert Tells(lines[|lines| - 1], causes[|causes| - 1]);
    }
  }

  /** In every run a give-up's ring count is the number of admitted rings the pane took since its streak's fire. */
  lemma GiveUpCountsTakenRings(c: Config, w0: World, steps: seq<Step>, w: World, i: nat)
    requires c.Valid() && Starts(w0) && Run(w0, c, steps, w)
    requires i < |w.bell.log| && w.bell.log[i].status == BellGaveUp
    ensures var starts := S.HistoryAfter(w0, c, S.NO_HISTORY, steps).starts;
            var causes := Causes(w0, c, [], steps);
            && |starts| == |causes| == |w.bell.log| && starts[i] <= i
            && w.bell.log[i].rang == Count(causes[starts[i]..i], Taken)
  {
    S.LogWellFormed(c, w0, steps, w);
    EachLineTellsItsAnswer(c, w0, steps, w);
    var starts := S.HistoryAfter(w0, c, S.NO_HISTORY, steps).starts;
    assert S.LineOk(c, w.bell.log, starts, i);
    RungAreTaken(w.bell.log[starts[i]..i], Causes(w0, c, [], steps)[starts[i]..i]);
  }

  // ---------------------------------------------------------------- when the next try is due

  /** The delay of a next try is the held gap behind a held line and the fixed gap behind any other. */
  ghost predicate Due(b: Bell, c: Config) {
    b.streak.next.Some? ==>
      b.log != [] && b.streak.next.value == if b.log[|b.log| - 1].result == Held then c.heldGap else c.gap
  }

  lemma CountedDue(b: Bell, c: Config, o: Outcome, now: nat)
    requires !b.stopped
    ensures Due(Counted(b, c, o, now), c)
  {
  }

  lemma StepDue(w: World, c: Config, st: Step)
    requires Enabled(w, st) && Due(w.bell, c)
    ensures Due(Next(w, c, st).bell, c)
  {
    var b := w.bell;
    match st
    case WindowEnds(answer, now) =>
      if !b.stopped {
        RingFrame(Opened(b), c, answer, now);
        var (b1, o) := Ring(Opened(b), c, answer, now);
        CountedDue(b1, c, o, now);
      }
    case AskBacklog(heard, counter, answer, now) =>
      if heard && counter && !b.stopped && w.queue != [] {
        var b0 := Opened(b.(back := b.back || b.cut, cut := false, window := Backlogged(b.window, b.cut, |w.queue|)));
        RingFrame(b0, c, answer, now);
        var (b1, o) := Ring(b0, c, answer, now);
        CountedDue(b1, c, o, now);
      }
    case NextTry(heard, counter, answer, now) =>
      if Tries(w, st) {
        var b0 := b.(streak := b.streak.(next := None));
        RingFrame(b0, c, answer, now);
        var (b1, o) := Ring(b0, c, answer, now);
        CountedDue(b1, c, o, now);
        CountedDue(b0, c, Outcome(Failed, REASON_NO_COUNT), now);
      }
    case _ =>
  }

  lemma {:induction false} RunDue(w: World, c: Config, steps: seq<Step>, w': World)
    requires Run(w, c, steps, w') && Due(w.bell, c)
    ensures Due(w'.bell, c)
    decreases |steps|
  {
    if steps != [] {
      StepDue(w, c, steps[0]);
      RunDue(Next(w, c, steps[0]), c, steps[1..], w');
    }
  }

  /** In every run an open streak's next try waits the held gap exactly when its last answer was held. */
  lemma NextTryIsDue(c: Config, w0: World, steps: seq<Step>, w: World)
    requires Starts(w0) && Run(w0, c, steps, w) && w.bell.streak.next.Some?
    ensures w.bell.log != []
    ensures w.bell.log[|w.bell.log| - 1].result == Held ==> w.bell.streak.next == Some(c.heldGap)
    ensures w.bell.log[|w.bell.log| - 1].result != Held ==> w.bell.streak.next == Some(c.gap)
  {
    RunDue(w0, c, steps, w);
  }

  // ---------------------------------------------------------------- after the stop

  lemma StepAfterStop(w: World, c: Config, st: Step)
    requires Enabled(w, st) && w.bell.stopped
    ensures var b := Next(w, c, st).bell;
            b.stopped && b.log == w.bell.log && b.trips == w.bell.trips && Said(w, st).None?
  {
  }

  lemma {:induction false} StoppedIsSilent(w: World, c: Config, steps: seq<Step>, w': World, st: Step)
    requires w.bell.stopped && Run(w, c, steps, w') && Enabled(w', st)
    ensures w'.bell.stopped && w'.bell.log == w.bell.log && w'.bell.trips == w.bell.trips && Said(w', st).None?
    decreases |steps|
  {
    if steps == [] {
      StepAfterStop(w, c, st);
    } else {
      StepAfterStop(w, c, steps[0]);
      StoppedIsSilent(Next(w, c, steps[0]), c, steps[1..], w', st);
    }
  }

  /** A seat that left writes nothing and rings nothing more, whatever still happens. */
  lemma SilentAfterLeaving(w: World, c: Config, steps: seq<Step>, w': World, st: Step)
    requires Run(Next(w, c, Leave), c, steps, w') && Enabled(w', st)
    ensures w'.bell.log == w.bell.log && w'.bell.trips == w.bell.trips && Said(w', st).None?
  {
    StoppedIsSilent(Next(w, c, Leave), c, steps, w', st);
  }
}
