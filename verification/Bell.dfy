/**
 The bell of one seat, as the object whose callbacks update its fields. Every
 method is proved to take the step BellSpec gives it. What the notifier answers,
 what the unread count is and what the clock says are parameters.

 The fields that are set and cleared together are one record each: the window,
 the streak and the breaker's counters.
 */
module BellObject {
  import opened Basics
  import opened Events
  import B = Breaker
  import Spec = BellSpec

  class Bell {
    const c: Spec.Config

    var window: Spec.Window
    var streak: Spec.Streak
    var stopped: bool
    var cut: bool
    var back: bool
    var breaker: B.Breaker
    var log: seq<Event>
    var trips: seq<nat>

    /** The abstract bell these fields stand for. */
    ghost function State(): Spec.Bell
      reads this
    {
      Spec.Bell(window, streak, stopped, cut, back, breaker, log, trips)
    }

    constructor (c: Spec.Config)
      ensures this.c == c && State() == Spec.NEW_BELL
    {
      this.c := c;
      window, streak, breaker := Spec.SHUT, Spec.NO_STREAK, B.FRESH;
      stopped, cut, back := false, false, false;
      log, trips := [], [];
    }

    method Stop()
      modifies this
      ensures State() == Spec.Stop(old(State()))
    {
      stopped := true;
      window := window.(open := false);
      ClearStreak();
    }

    method Arrived(sender: string)
      modifies this
      ensures State() == Spec.Arrived(old(State()), sender)
    {
      if stopped { return; }
      window := window.(pending := window.pending + 1);
      if sender == "" { window := window.(blind := true); }
      Note(sender);
      if !window.open { window := window.(open := true); }
    }

    method Disconnected()
      modifies this
      ensures State() == Spec.Disconnected(old(State()))
    {
      cut := true;
      back := false;
    }

    /** Records one sender, once, and never an empty one. */
    method Note(sender: string)
      modifies this`window
      ensures window == old(window).(senders := Spec.Note(old(window).senders, sender))
    {
      if sender == "" { return; }
      for i := 0 to |window.senders|
        invariant window == old(window) && sender !in window.senders[..i]
      {
        if window.senders[i] == sender { return; }
      }
      assert window.senders[..|window.senders|] == window.senders;
      window := window.(senders := window.senders + [sender]);
    }

    method ClearStreak()
      modifies this`streak
      ensures streak == Spec.NO_STREAK
    {
      streak := streak.(next := None);
      streak := streak.(tries := 0, rangs := 0);
      streak := streak.(senders := [], n := 0);
    }

    /** Asks how much mail waits and rings for it at once: the count replaces the tally. */
    method Backlog(count: Spec.Unread, answer: Spec.Answer, now: nat) returns (said: Option<Spec.Announce>)
      modifies this
      ensures State() == Spec.Backlog(old(State()), c, count, answer, now)
      ensures said.Some? <==> count.Waiting? && count.n > 0 && !old(stopped)
      ensures said.Some? ==>
                && said.value.n == (if old(window).pending <= count.n then count.n else old(window).pending)
                && said.value.names == if old(cut) then [] else old(window).senders
      ensures said == Spec.BacklogSays(old(State()), count)
    {
      if count.NoCounter? { return None; }
      if cut { back := true; }
      if count.Unreadable? || stopped { return None; }
      var n := count.n;
      var wasCut := cut;
      cut := false;
      if wasCut { window := window.(senders := []); }
      if n == 0 { return None; }
      if n > window.pending || wasCut {
        window := window.(pending := if window.pending < n then n else window.pending, blind := true);
      }
      window := window.(open := false);
      said := Fire(answer, now);
    }

    /** Rings once for everything that accumulated, as try 1 of a fresh streak. */
    method Fire(answer: Spec.Answer, now: nat) returns (said: Option<Spec.Announce>)
      modifies this
      ensures State() == Spec.Fire(old(State()), c, answer, now)
      ensures said == if old(stopped) || old(window).pending == 0 then None
                      else Some(Spec.Announce(old(window).pending, if old(cut) then [] else old(window).senders))
      ensures said == Spec.FireSays(old(State()))
    {
      var n, senders, blind := window.pending, window.senders, window.blind;
      window := window.(pending := 0, senders := [], blind := false);
      if cut { blind, senders := true, []; }
      window := window.(open := false);
      ClearStreak();
      if !stopped && n > 0 && !blind && |senders| > 0 {
        streak := streak.(senders := senders, n := n);
      }
      if stopped || n == 0 { return None; }
      assert State() == Spec.Opened(old(State()));
      Try(answer, now);
      return Some(Spec.Announce(n, senders));
    }

    method Roll(now: nat)
      modifies this`breaker
      ensures breaker == B.Roll(old(breaker), now)
    {
      var minute := now / 60;
      if minute != breaker.minuteBucket { breaker := breaker.(minuteBucket := minute, minuteN := 0); }
      var hour := now / 3600;
      if hour != breaker.hourBucket { breaker := breaker.(hourBucket := hour, hourN := 0, tripped := false); }
    }

    method GiveBack(minute: nat, hour: nat)
      modifies this`breaker
      ensures breaker == B.GiveBack(old(breaker), minute, hour)
    {
      if breaker.minuteBucket == minute && breaker.minuteN > 0 {
        breaker := breaker.(minuteN := breaker.minuteN - 1);
      }
      if breaker.hourBucket == hour && breaker.hourN > 0 {
        breaker := breaker.(hourN := breaker.hourN - 1);
      }
    }

    /** Charges the breaker, asks the notifier, and refunds a ring that typed nothing. */
    method Ring(answer: Spec.Answer, now: nat) returns (o: Spec.Outcome)
      modifies this`breaker, this`trips
      ensures (State(), o) == Spec.Ring(old(State()), c, answer, now)
    {
      if stopped { return Spec.Outcome(Suppressed, Spec.REASON_SUPPRESSED); }
      Roll(now);
      if breaker.minuteN >= c.caps.perMin || breaker.hourN >= c.caps.perHour {
        var first := !breaker.tripped;
        breaker := breaker.(tripped := true);
        if first { trips := trips + [now]; }
        return Spec.Outcome(Suppressed, Spec.REASON_SUPPRESSED);
      }
      breaker := breaker.(minuteN := breaker.minuteN + 1, hourN := breaker.hourN + 1);
      var minute, hour := breaker.minuteBucket, breaker.hourBucket;
      if answer.Busy? || answer.Holds? { GiveBack(minute, hour); }
      return Spec.OutcomeOf(answer);
    }

    method Try(answer: Spec.Answer, now: nat)
      modifies this
      ensures State() == Spec.Try(old(State()), c, answer, now)
    {
      var o := Ring(answer, now);
      Counted(o, now);
    }

    /** Advances the streak by one try, writes it down, and decides what follows. */
    method Counted(o: Spec.Outcome, now: nat)
      modifies this`streak, this`log
      ensures State() == Spec.Counted(old(State()), c, o, now)
    {
      if stopped { return; }
      var held := o.result == Held;
      if !held { streak := streak.(tries := streak.tries + 1); }
      if o.result == Rang { streak := streak.(rangs := streak.rangs + 1); }
      var tryNo, of, rangs := streak.tries, c.maxTries, streak.rangs;
      if held { tryNo := streak.tries + 1; }
      var final := !held && tryNo >= of;
      if !final { streak := streak.(next := Some(if held then c.heldGap else c.gap)); }
      log := log + [BellTryLine(c.seat, tryNo, of, o.result, o.reason, now)];
      if final {
        log := log + [BellGaveUpLine(c.seat, of, rangs, o.result, now)];
        ClearStreak();
      }
      assert log == old(log) + Spec.CountedLines(old(streak), c, o, now);
    }

    /** The next try of an open streak: it asks the queue, not its own memory. */
    method Again(count: Spec.Unread, answer: Spec.Answer, now: nat) returns (said: Option<Spec.Announce>)
      modifies this
      ensures State() == Spec.Again(old(State()), c, count, answer, now)
      ensures said == if old(stopped) || !count.Waiting? || count.n == 0 then None
                      else Some(Spec.Announce(count.n, Spec.LaterNames(old(State()), count.n)))
      ensures said == Spec.AgainSays(old(State()), count)
    {
      streak := streak.(next := None);
      if stopped { return None; }
      match count {
        case NoCounter =>
          ClearStreak();
          return None;
        case Unreadable =>
          Counted(Spec.Outcome(Failed, Spec.REASON_NO_COUNT), now);
          return None;
        case Waiting(n) =>
          if n == 0 {
            if back { cut := false; }
            ClearStreak();
            return None;
          }
          var names := LaterNames(n);
          Try(answer, now);
          return Some(Spec.Announce(n, names));
      }
    }

    /** Who a later try may name, or nobody. */
    method LaterNames(n: nat) returns (names: seq<string>)
      ensures names == Spec.LaterNames(State(), n)
    {
      if |streak.senders| == 0 || window.blind || cut { return []; }
      names := streak.senders;
      for i := 0 to |window.senders|
        invariant names == Spec.Union(streak.senders, window.senders[..i])
      {
        var seen := window.senders[i] in names;
        assert window.senders[..i + 1][..i] == window.senders[..i];
        if !seen { names := names + [window.senders[i]]; }
      }
      assert window.senders[..|window.senders|] == window.senders;
      var known := streak.n + window.pending;
      if n > known { return []; }
      if |names| > 1 && n != known { return []; }
    }
  }
}
