/**
 The shape of a seat's log and the schedule of its streaks: every line is
 numbered within its streak, a give-up follows exactly the last try, no unread
 arrival is left without a timer, and no streak outlives its tries.
 */
module BellStreak {
  import opened Basics
  import opened Events
  import opened BellSpec

  /** Beside the log: the position at which the streak of each line opened, and of the open streak. */
  datatype History = History(starts: seq<nat>, open: nat)

  predicate IsTry(e: Event) {
    e.status == BellTry
  }

  /** A try that spends one of the streak's tries. */
  predicate Spends(e: Event) {
    e.status == BellTry && e.result != Held
  }

  predicate Rings(e: Event) {
    e.status == BellTry && e.result == Rang
  }

  function Spent(lines: seq<Event>): nat {
    Count(lines, Spends)
  }

  function Rung(lines: seq<Event>): nat {
    Count(lines, Rings)
  }

  function GiveUps(lines: seq<Event>): nat {
    Count(lines, (e: Event) => e.status == BellGaveUp)
  }

  /** The steps that open a fresh streak with a ring. */
  predicate Fires(w: World, st: Step) {
    !w.bell.stopped &&
    match st
    case WindowEnds(_, _) => w.bell.window.pending > 0
    case AskBacklog(heard, counter, _, _) => heard && counter && w.queue != []
    case _ => false
  }

  /** The history once a step has left the log at n lines. */
  function Extended(h: History, n: nat): History {
    if n <= |h.starts| then h else History(h.starts + seq(n - |h.starts|, _ => h.open), h.open)
  }

  function HistoryNext(w: World, c: Config, h: History, st: Step): History
    requires Enabled(w, st)
  {
    Extended(if Fires(w, st) then h.(open := |w.bell.log|) else h, |Next(w, c, st).bell.log|)
  }

  /** Line i of the log is numbered and placed as its streak demands. */
  ghost predicate LineOk(c: Config, log: seq<Event>, starts: seq<nat>, i: nat)
    requires i < |log| && |starts| == |log|
  {
    var e := log[i];
    && e.seat == c.seat && e.ts.Some? && starts[i] <= i
    && match e.status
       case BellTry =>
         && e.tryNo == 1 + Spent(log[starts[i]..i]) && e.tryNo <= e.of == c.maxTries
         && !e.result.Word?
         && (e.result != Held && e.tryNo == e.of ==>
             i + 1 < |log| && log[i + 1].status == BellGaveUp && starts[i + 1] == starts[i])
       case BellGaveUp =>
         && i > 0 && starts[i - 1] == starts[i] && Spends(log[i - 1]) && log[i - 1].tryNo == c.maxTries
         && e.after == c.maxTries && e.last == log[i - 1].result
         && e.rang == Rung(log[starts[i]..i])
       case _ => false
  }

  /** The log is a well-formed sequence of streaks. */
  ghost predicate WellFormed(c: Config, log: seq<Event>, starts: seq<nat>) {
    |starts| == |log| && forall i :: 0 <= i < |log| ==> LineOk(c, log, starts, i)
  }

  /** The open streak's counters are the counts of its lines. */
  ghost predicate StreakMatches(c: Config, b: Bell, h: History) {
    && h.open <= |b.log|
    && (b.streak.next.None? ==> b.streak == NO_STREAK)
    && (b.streak.next.Some? ==>
        && !b.stopped && b.streak.tries < c.maxTries
        && b.streak.tries == Spent(b.log[h.open..]) && b.streak.rangs == Rung(b.log[h.open..])
        && |h.starts| == |b.log| > h.open && h.starts[|b.log| - 1] == h.open && IsTry(b.log[|b.log| - 1]))
  }

  ghost predicate Inv(c: Config, w: World, h: History) {
    var b := w.bell;
    && WellFormed(c, b.log, h.starts)
    && StreakMatches(c, b, h)
    && (!b.stopped ==> (b.window.open <==> b.window.pending > 0))
    && (b.stopped ==> !b.window.open)
  }

  /** Appending a line leaves the earlier lines as they were, once the last one needs nothing after it. */
  lemma AppendLine(c: Config, log: seq<Event>, starts: seq<nat>, e: Event, start: nat)
    requires |starts| == |log|
    requires forall i :: 0 <= i < |log| - 1 ==> LineOk(c, log, starts, i)
    requires |log| > 0 ==> LineOk(c, log + [e], starts + [start], |log| - 1)
    requires LineOk(c, log + [e], starts + [start], |log|)
    ensures WellFormed(c, log + [e], starts + [start])
  {
    forall i | 0 <= i <= |log|
      ensures LineOk(c, log + [e], starts + [start], i)
    {
      if i < |log| - 1 {
        LineStays(c, log, starts, e, start, i);
      }
    }
  }

  /** A line of the log stays in order when a line follows it that it does not forbid. */
  lemma LineStays(c: Config, log: seq<Event>, starts: seq<nat>, e: Event, start: nat, i: nat)
    requires |starts| == |log| && i < |log| && LineOk(c, log, starts, i)
    ensures LineOk(c, log + [e], starts + [start], i)
  {
    assert (log + [e])[starts[i]..i] == log[starts[i]..i];
  }

  lemma LinesStay(c: Config, log: seq<Event>, starts: seq<nat>, e: Event, start: nat)
    requires WellFormed(c, log, starts)
    ensures forall i :: 0 <= i < |log| ==> LineOk(c, log + [e], starts + [start], i)
  {
    forall i | 0 <= i < |log|
      ensures LineOk(c, log + [e], starts + [start], i)
    {
      LineStays(c, log, starts, e, start, i);
    }
  }

  lemma AppendToWellFormed(c: Config, log: seq<Event>, starts: seq<nat>, e: Event, start: nat)
    requires WellFormed(c, log, starts)
    requires LineOk(c, log + [e], starts + [start], |log|)
    ensures WellFormed(c, log + [e], starts + [start])
  {
    if |log| > 0 {
      LineStays(c, log, starts, e, start, |log| - 1);
    }
    AppendLine(c, log, starts, e, start);
  }

  /** The last try is in order with the give-up right behind it. */
  lemma FinalTryOk(c: Config, log: seq<Event>, starts: seq<nat>, e: Event, g: Event, start: nat)
    requires |starts| == |log| && start <= |log|
    requires Spends(e) && !e.result.Word? && e.seat == c.seat && e.ts.Some?
    requires e.tryNo == 1 + Spent(log[start..]) == e.of == c.maxTries && g.status == BellGaveUp
    ensures LineOk(c, log + [e] + [g], starts + [start] + [start], |log|)
  {
    assert (log + [e] + [g])[start..|log|] == log[start..];
  }

  lemma GiveUpOk(c: Config, log: seq<Event>, starts: seq<nat>, e: Event, g: Event, start: nat)
    requires |starts| == |log| && start <= |log| && Spends(e) && e.tryNo == c.maxTries
    requires g.status == BellGaveUp && g.seat == c.seat && g.ts.Some? && g.after == c.maxTries
    requires g.last == e.result && g.rang == Rung(log[start..] + [e])
    ensures LineOk(c, log + [e] + [g], starts + [start] + [start], |log| + 1)
  {
    assert (log + [e] + [g])[start..|log| + 1] == log[start..] + [e];
  }

  /** The last try and the give-up after it are written together. */
  lemma AppendFinal(c: Config, log: seq<Event>, starts: seq<nat>, e: Event, g: Event, start: nat)
    requires WellFormed(c, log, starts) && start <= |log|
    requires Spends(e) && !e.result.Word? && e.seat == c.seat && e.ts.Some?
    requires e.tryNo == 1 + Spent(log[start..]) == e.of == c.maxTries
    requires g.status == BellGaveUp && g.seat == c.seat && g.ts.Some? && g.after == c.maxTries
    requires g.last == e.result && g.rang == Rung(log[start..] + [e])
    ensures WellFormed(c, log + [e, g], starts + [start, start])
  {
    assert log + [e, g] == log + [e] + [g] && starts + [start, start] == starts + [start] + [start];
    LinesStay(c, log, starts, e, start);
    FinalTryOk(c, log, starts, e, g, start);
    GiveUpOk(c, log, starts, e, g, start);
    AppendLine(c, log + [e], starts + [start], g, start);
  }

  /** Lines e and, after the last try, g extend a well-formed log. */
  lemma LinesKeep(c: Config, s: Streak, log: seq<Event>, h: History, o: Outcome, now: nat)
    requires WellFormed(c, log, h.starts) && h.open <= |log| && s.tries < c.maxTries && !o.result.Word?
    requires s.tries == Spent(log[h.open..]) && s.rangs == Rung(log[h.open..])
    ensures var log' := log + CountedLines(s, c, o, now);
            WellFormed(c, log', Extended(h, |log'|).starts)
  {
    var lines := CountedLines(s, c, o, now);
    var e := lines[0];
    if |lines| == 1 {
      assert lines == [e];
      assert (log + [e])[h.open..|log|] == log[h.open..];
      AppendToWellFormed(c, log, h.starts, e, h.open);
      assert Extended(h, |log| + 1).starts == h.starts + [h.open];
    } else {
      CountSnoc(log[h.open..], e, Rings);
      assert lines == [e, lines[1]];
      AppendFinal(c, log, h.starts, e, lines[1], h.open);
      assert Extended(h, |log| + 2).starts == h.starts + [h.open, h.open];
    }
  }

  lemma CountersKeep(c: Config, s: Streak, log: seq<Event>, open: nat, o: Outcome, now: nat)
    requires open <= |log| && s.tries == Spent(log[open..]) && s.rangs == Rung(log[open..])
    requires !Final(s, c, o)
    ensures var s', log' := CountedStreak(s, c, o), log + CountedLines(s, c, o, now);
            s'.tries == Spent(log'[open..]) && s'.rangs == Rung(log'[open..])
  {
    var e := CountedLines(s, c, o, now)[0];
    assert CountedLines(s, c, o, now) == [e];
    CountSnoc(log[open..], e, Spends);
    CountSnoc(log[open..], e, Rings);
    assert (log + [e])[open..] == log[open..] + [e];
  }

  /** The lines one counted try adds, and what it leaves of the streak. */
  lemma CountedKeeps(c: Config, b: Bell, h: History, o: Outcome, now: nat)
    requires !b.stopped && WellFormed(c, b.log, h.starts)
    requires h.open <= |b.log| && b.streak.tries < c.maxTries && !o.result.Word?
    requires b.streak.tries == Spent(b.log[h.open..]) && b.streak.rangs == Rung(b.log[h.open..])
    ensures var b' := Counted(b, c, o, now);
            && WellFormed(c, b'.log, Extended(h, |b'.log|).starts)
            && StreakMatches(c, b', Extended(h, |b'.log|))
  {
    LinesKeep(c, b.streak, b.log, h, o, now);
    if !Final(b.streak, c, o) {
      CountersKeep(c, b.streak, b.log, h.open, o, now);
    }
  }

  lemma TryKeeps(c: Config, b: Bell, h: History, answer: Answer, now: nat)
    requires !b.stopped && WellFormed(c, b.log, h.starts)
    requires h.open <= |b.log| && b.streak.tries < c.maxTries
    requires b.streak.tries == Spent(b.log[h.open..]) && b.streak.rangs == Rung(b.log[h.open..])
    ensures var b' := Try(b, c, answer, now);
            && |b'.log| > |b.log| && b'.window == b.window && b'.stopped == b.stopped
            && WellFormed(c, b'.log, Extended(h, |b'.log|).starts)
            && StreakMatches(c, b', Extended(h, |b'.log|))
  {
    RingFrame(b, c, answer, now);
    var (b1, o) := Ring(b, c, answer, now);
    CountedKeeps(c, b1, h, o, now);
  }

  /** A fresh streak starts at the end of the log, with nothing counted. */
  lemma FireKeeps(c: Config, b: Bell, h: History, answer: Answer, now: nat)
    requires c.Valid() && !b.stopped && b.window.pending > 0 && WellFormed(c, b.log, h.starts)
    ensures var b' := Fire(b, c, answer, now);
            && |b'.log| > |b.log| && b'.window == SHUT && !b'.stopped
            && WellFormed(c, b'.log, Extended(h.(open := |b.log|), |b'.log|).starts)
            && StreakMatches(c, b', Extended(h.(open := |b.log|), |b'.log|))
  {
    var o := Opened(b);
    assert o.log[|b.log|..] == [];
    TryKeeps(c, o, History(h.starts, |b.log|), answer, now);
  }

  lemma BacklogKeeps(c: Config, w: World, h: History, st: Step)
    requires c.Valid() && Inv(c, w, h) && Enabled(w, st) && st.AskBacklog?
    ensures Inv(c, Next(w, c, st), HistoryNext(w, c, h, st))
  {
    var b := w.bell;
    assert Extended(h, |b.log|) == h;
    if Fires(w, st) {
      var b1 := b.(back := b.back || b.cut, cut := false,
                   window := Backlogged(b.window, b.cut, |w.queue|));
      FireKeeps(c, b1, h, st.answer, st.now);
    }
  }

  lemma AgainKeeps(c: Config, w: World, h: History, st: Step)
    requires c.Valid() && Inv(c, w, h) && Enabled(w, st) && st.NextTry?
    ensures Inv(c, Next(w, c, st), HistoryNext(w, c, h, st))
  {
    var b := w.bell;
    assert Extended(h, |b.log|) == h;
    var b1 := b.(streak := b.streak.(next := None));
    match Asked(w, st.heard, st.counter) {
      case NoCounter =>
      case Unreadable => CountedKeeps(c, b1, h, Outcome(Failed, REASON_NO_COUNT), st.now);
      case Waiting(n) =>
        if n > 0 {
          TryKeeps(c, b1, h, st.answer, st.now);
        }
    }
  }

  lemma StepKeeps(c: Config, w: World, h: History, st: Step)
    requires c.Valid() && Inv(c, w, h) && Enabled(w, st)
    ensures Inv(c, Next(w, c, st), HistoryNext(w, c, h, st))
  {
    assert Extended(h, |w.bell.log|) == h;
    match st
    case AskBacklog(_, _, _, _) => BacklogKeeps(c, w, h, st);
    case NextTry(_, _, _, _) => AgainKeeps(c, w, h, st);
    case WindowEnds(answer, now) =>
      if Fires(w, st) {
        FireKeeps(c, w.bell, h, answer, now);
      }
    case _ =>
  }

  /** The history of a whole run: where each line's streak opened. */
  function HistoryAfter(w: World, c: Config, h: History, steps: seq<Step>): History
    decreases |steps|
  {
    if steps == [] || !Enabled(w, steps[0]) then h
    else HistoryAfter(Next(w, c, steps[0]), c, HistoryNext(w, c, h, steps[0]), steps[1..])
  }

  lemma {:induction false} RunKeeps(c: Config, w: World, h: History, steps: seq<Step>, w': World)
    requires c.Valid() && Inv(c, w, h) && Run(w, c, steps, w')
    ensures Inv(c, w', HistoryAfter(w, c, h, steps))
    decreases |steps|
  {
    if steps != [] {
      StepKeeps(c, w, h, steps[0]);
      RunKeeps(c, Next(w, c, steps[0]), HistoryNext(w, c, h, steps[0]), steps[1..], w');
    }
  }

  const NO_HISTORY := History([], 0)

  /**
   In every run the seat's log is a well-formed sequence of streaks, each opened
   by a fire, and the open streak's counters are the counts of its lines.
   */
  lemma LogWellFormed(c: Config, w0: World, steps: seq<Step>, w: World)
    requires c.Valid() && Starts(w0) && Run(w0, c, steps, w)
    ensures WellFormed(c, w.bell.log, HistoryAfter(w0, c, NO_HISTORY, steps).starts)
    ensures StreakMatches(c, w.bell, HistoryAfter(w0, c, NO_HISTORY, steps))
  {
    RunKeeps(c, w0, NO_HISTORY, steps, w);
  }

  /** A streak is never silent: unannounced arrivals have a window timer, and tries made have a next try. */
  lemma NeverSilent(c: Config, w0: World, steps: seq<Step>, w: World)
    requires c.Valid() && Starts(w0) && Run(w0, c, steps, w)
    ensures !w.bell.stopped ==> (w.bell.window.pending > 0 <==> w.bell.window.open)
    ensures w.bell.streak.tries > 0 ==> w.bell.streak.next.Some? && !w.bell.stopped
    ensures w.bell.stopped ==> !w.bell.window.open && w.bell.streak.next.None?
  {
    RunKeeps(c, w0, NO_HISTORY, steps, w);
  }

  // ---------------------------------------------------------------- never endless

  ghost predicate NoFires(w: World, c: Config, steps: seq<Step>)
    decreases |steps|
  {
    steps == [] ||
    (Enabled(w, steps[0]) && !Fires(w, steps[0]) && NoFires(Next(w, c, steps[0]), c, steps[1..]))
  }

  /** The tries an open streak still has. */
  function Left(c: Config, b: Bell): int {
    if b.streak.next.None? then 0 else c.maxTries - b.streak.tries
  }

  /** What the lines of one or more steps without a fire may hold. */
  ghost predicate Bounded(c: Config, b: Bell, b': Bell) {
    && |b.log| <= |b'.log| && b'.log[..|b.log|] == b.log
    && Added(b.streak.next.Some?, Left(c, b), b'.log[|b.log|..], b'.streak.next.Some?, Left(c, b'))
  }

  /** The lines added between two bells, against the tries left before and after. */
  ghost predicate Added(armed: bool, left: int, added: seq<Event>, armed': bool, left': int) {
    && (!armed ==> added == [] && !armed')
    && Spent(added) + left' <= left
    && (armed' ==> Spent(added) + left' == left)
    && GiveUps(added) <= 1
    && (armed ==> (GiveUps(added) == 1 <==> Spent(added) == left))
    && (GiveUps(added) == 1 ==> !armed')
  }

  lemma LinesAdded(s: Streak, c: Config, o: Outcome, now: nat)
    ensures var added := CountedLines(s, c, o, now);
            && Spent(added) == (if o.result == Held then 0 else 1)
            && GiveUps(added) == (if Final(s, c, o) then 1 else 0)
  {
    var p := (e: Event) => e.status == BellGaveUp;
    var added := CountedLines(s, c, o, now);
    var e := added[0];
    CountSnoc([], e, Spends);
    CountSnoc([], e, p);
    assert [] + [e] == [e];
    if |added| == 1 {
      assert added == [e];
    } else {
      assert added == [e] + [added[1]];
      CountSnoc([e], added[1], Spends);
      CountSnoc([e], added[1], p);
    }
  }

  /** One counted try of an armed bell b, made with its timer already spent. */
  lemma CountedBounded(c: Config, b: Bell, b1: Bell, o: Outcome, now: nat)
    requires !b.stopped && b.streak.next.Some? && b.streak.tries < c.maxTries
    requires b1.streak.tries == b.streak.tries && b1.log == b.log && !b1.stopped
    ensures Bounded(c, b, Counted(b1, c, o, now))
  {
    LinesAdded(b1.streak, c, o, now);
    var b' := Counted(b1, c, o, now);
    assert b'.log[|b.log|..] == CountedLines(b1.streak, c, o, now);
    assert b'.log[..|b.log|] == b.log;
  }

  lemma StepBounded(c: Config, w: World, h: History, st: Step)
    requires c.Valid() && Inv(c, w, h) && Enabled(w, st) && !Fires(w, st)
    ensures Bounded(c, w.bell, Next(w, c, st).bell)
  {
    var b := w.bell;
    assert b.log[|b.log|..] == [] && b.log[..|b.log|] == b.log;
    if st.NextTry? && !b.stopped {
      AgainBounded(c, w, h, st);
    }
  }

  lemma AgainBounded(c: Config, w: World, h: History, st: Step)
    requires c.Valid() && Inv(c, w, h) && Enabled(w, st) && st.NextTry? && !w.bell.stopped
    ensures Bounded(c, w.bell, Next(w, c, st).bell)
  {
    var b := w.bell;
    assert b.log[|b.log|..] == [] && b.log[..|b.log|] == b.log;
    var b1 := b.(streak := b.streak.(next := None));
    match Asked(w, st.heard, st.counter) {
      case NoCounter =>
      case Unreadable => CountedBounded(c, b, b1, Outcome(Failed, REASON_NO_COUNT), st.now);
      case Waiting(n) =>
        if n > 0 {
          RingFrame(b1, c, st.answer, st.now);
          var (b2, o) := Ring(b1, c, st.answer, st.now);
          CountedBounded(c, b, b2, o, st.now);
        }
    }
  }

  lemma BoundedChains(c: Config, a: Bell, b: Bell, d: Bell)
    requires Bounded(c, a, b) && Bounded(c, b, d) && Left(c, b) >= 0 && Left(c, d) >= 0
    requires b.streak.next.Some? ==> Left(c, b) > 0
    ensures Bounded(c, a, d)
  {
    var p := (e: Event) => e.status == BellGaveUp;
    assert d.log[|a.log|..] == b.log[|a.log|..] + d.log[|b.log|..];
    CountConcat(b.log[|a.log|..], d.log[|b.log|..], Spends);
    CountConcat(b.log[|a.log|..], d.log[|b.log|..], p);
    assert d.log[..|a.log|] == b.log[..|a.log|];
  }

  /** A run without a new fire spends at most the tries left, gives up exactly when it spends them all, and is then done. */
  lemma {:induction false} NoFireBounded(c: Config, w: World, h: History, steps: seq<Step>, w': World)
    requires c.Valid() && Inv(c, w, h) && Run(w, c, steps, w') && NoFires(w, c, steps)
    ensures Bounded(c, w.bell, w'.bell) && Left(c, w'.bell) >= 0
    decreases |steps|
  {
    if steps == [] {
      assert w.bell.log[|w.bell.log|..] == [] && w.bell.log[..|w.bell.log|] == w.bell.log;
    } else {
      var w1 := Next(w, c, steps[0]);
      StepBounded(c, w, h, steps[0]);
      StepKeeps(c, w, h, steps[0]);
      NoFireBounded(c, w1, HistoryNext(w, c, h, steps[0]), steps[1..], w');
      BoundedChains(c, w.bell, w1.bell, w'.bell);
    }
  }

  lemma NeverEndless(c: Config, w0: World, before: seq<Step>, w: World, steps: seq<Step>, w': World)
    requires c.Valid() && Starts(w0) && Run(w0, c, before, w)
    requires Run(w, c, steps, w') && NoFires(w, c, steps)
    ensures |w.bell.log| <= |w'.bell.log| && w'.bell.log[..|w.bell.log|] == w.bell.log
    ensures var added := w'.bell.log[|w.bell.log|..];
            && (w.bell.streak.next.None? ==> added == [])
            && (w.bell.streak.next.Some? ==>
                && Spent(added) <= c.maxTries - w.bell.streak.tries
                && (GiveUps(added) > 0 <==> Spent(added) == c.maxTries - w.bell.streak.tries))
            && (GiveUps(added) > 0 ==> w'.bell.streak.next.None?)
  {
    RunKeeps(c, w0, NO_HISTORY, before, w);
    NoFireBounded(c, w, HistoryAfter(w0, c, NO_HISTORY, before), steps, w');
  }
}
