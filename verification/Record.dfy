/**
 The bell's lines read back for the status report: for each registered seat, the
 streak that still stands.

 The reader folds the whole record, in append order, with every other writer's
 lines mixed in. What it recovers is stated first for any lines of one seat, and
 then for the lines a bell really writes.
 */
module Record {
  import opened Basics
  import opened Events
  import Spec = BellSpec
  import S = BellStreak

  /** What the record says about one seat's bell. heldSince is None unless the last try was held. */
  datatype Shown = Shown(
    tryNo: nat, of: nat, result: Result, reason: string, ts: nat,
    stopped: bool, rang: nat, last: Result, heldSince: Option<nat>)

  const ZERO := Shown(0, 0, NO_RESULT, "", 0, false, 0, NO_RESULT, None)

  /** registered is in milliseconds, or None when the row's stamp does not parse. */
  datatype Row = Row(endpoint: string, registered: Option<nat>)

  function AfterTry(prev: Shown, e: Event): Shown
    requires e.ts.Some?
  {
    ZERO.(tryNo := e.tryNo, of := e.of, result := e.result, reason := e.reason, ts := e.ts.value,
          heldSince := if e.result != Held then None
                       else if !prev.stopped && prev.result == Held && prev.heldSince.Some?
                       then prev.heldSince else e.ts)
  }

  function AfterGiveUp(prev: Shown, e: Event): Shown
    requires e.ts.Some?
  {
    prev.(stopped := true, of := e.after, ts := e.ts.value, rang := e.rang, last := e.last)
  }

  predicate IsBellLine(e: Event, seat: string) {
    e.ts.Some? && seat != "" && e.seat == seat && (e.status == BellTry || e.status == BellGaveUp)
  }

  function AfterLine(before: Option<Shown>, e: Event, seat: string): Option<Shown> {
    if !IsBellLine(e, seat) then before
    else
      var prev := if before.Some? then before.value else ZERO;
      Some(if e.status == BellTry then AfterTry(prev, e) else AfterGiveUp(prev, e))
  }

  /** The streak of one seat after the whole record. */
  function SeatShown(events: seq<Event>, seat: string): Option<Shown> {
    if events == [] then None
    else AfterLine(SeatShown(events[..|events| - 1], seat), events[|events| - 1], seat)
  }

  predicate IsReadBy(e: Event, reader: string) {
    e.ts.Some? && e.uid != "" && e.status == ReadBy && reader != "" && e.reader == reader
  }

  /** The latest read of one reader. */
  function LastRead(events: seq<Event>, reader: string): Option<nat> {
    if events == [] then None
    else
      var before := LastRead(events[..|events| - 1], reader);
      var e := events[|events| - 1];
      if IsReadBy(e, reader) && (before.None? || before.value < e.ts.value) then e.ts else before
  }

  /** The latest read is the latest: none when there is none, else a read by this reader and no read by it is later. */
  lemma {:induction false} LastReadIsLatest(events: seq<Event>, reader: string)
    ensures LastRead(events, reader).None? ==> forall e :: e in events ==> !IsReadBy(e, reader)
    ensures LastRead(events, reader).Some? ==>
              var t := LastRead(events, reader).value;
              && (exists e :: e in events && IsReadBy(e, reader) && e.ts == Some(t))
              && forall e :: e in events && IsReadBy(e, reader) ==> e.ts.value <= t
  {
    if events != [] {
      var init, e := events[..|events| - 1], events[|events| - 1];
      assert events == init + [e];
      LastReadIsLatest(init, reader);
      if LastRead(init, reader).Some? {
        var d :| d in init && IsReadBy(d, reader) && d.ts == LastRead(init, reader);
        assert d in events;
      }
      assert e in events;
    }
  }

  /** The streak is shown: not older than the registration's own second, and nothing read after it. */
  predicate Stands(r: Row, events: seq<Event>) {
    var s := SeatShown(events, r.endpoint);
    var read := LastRead(events, r.endpoint);
    && s.Some? && r.registered.Some?
    && s.value.ts >= r.registered.value / 1000
    && (read.Some? ==> read.value <= s.value.ts)
  }

  /** Over the lines themselves: a streak, not before the registration's second, and no read by the seat after its last line. */
  ghost predicate Unread(r: Row, events: seq<Event>) {
    var s := SeatShown(events, r.endpoint);
    && s.Some? && r.registered.Some?
    && s.value.ts >= r.registered.value / 1000
    && forall e :: e in events && e.status == ReadBy && e.uid != "" && e.reader == r.endpoint && e.ts.Some? ==>
         e.ts.value <= s.value.ts
  }

  lemma StandsWhileUnread(r: Row, events: seq<Event>)
    ensures Stands(r, events) <==> Unread(r, events)
  {
    LastReadIsLatest(events, r.endpoint);
    EmptySeat(events);
  }

  /** Nobody is the seat with no name. */
  lemma {:induction false} EmptySeat(events: seq<Event>)
    ensures SeatShown(events, "").None?
  {
    if events != [] {
      EmptySeat(events[..|events| - 1]);
    }
  }

  /** A read line of the seat's own reader, stamped after the streak's last line, takes the streak off the report. */
  lemma AReadDropsTheStreak(r: Row, events: seq<Event>, uid: string, at: nat)
    requires uid != "" && r.endpoint != ""
    requires SeatShown(events, r.endpoint).Some? ==> SeatShown(events, r.endpoint).value.ts < at
    ensures !Stands(r, events + [ReadLine(uid, r.endpoint, at)])
  {
    var read := ReadLine(uid, r.endpoint, at);
    ShownSnoc(events, read, r.endpoint);
    assert read in events + [read];
    StandsWhileUnread(r, events + [read]);
  }

  ghost predicate Holds(m: map<string, Shown>, events: seq<Event>) {
    forall seat :: SeatShown(events, seat) == if seat in m then Some(m[seat]) else None
  }

  ghost predicate HoldsReads(m: map<string, nat>, events: seq<Event>) {
    forall reader :: LastRead(events, reader) == if reader in m then Some(m[reader]) else None
  }

  /** The fold over the record: one streak and one latest read for each name. */
  method FoldRecord(events: seq<Event>) returns (streak: map<string, Shown>, lastRead: map<string, nat>)
    ensures Holds(streak, events) && HoldsReads(lastRead, events)
  {
    streak, lastRead := map[], map[];
    for i := 0 to |events|
      invariant Holds(streak, events[..i]) && HoldsReads(lastRead, events[..i])
    {
      var ev := events[i];
      assert events[..i + 1][..i] == events[..i];
      if ev.ts.Some? {
        if ev.seat != "" && ev.status == BellTry {
          var prev := if ev.seat in streak then streak[ev.seat] else ZERO;
          var next := ZERO.(tryNo := ev.tryNo, of := ev.of, result := ev.result,
                            reason := ev.reason, ts := ev.ts.value);
          if ev.result == Held {
            next := next.(heldSince := ev.ts);
            if !prev.stopped && prev.result == Held && prev.heldSince.Some? {
              next := next.(heldSince := prev.heldSince);
            }
          }
          streak := streak[ev.seat := next];
        } else if ev.seat != "" && ev.status == BellGaveUp {
          var s := if ev.seat in streak then streak[ev.seat] else ZERO;
          s := s.(stopped := true, of := ev.after, ts := ev.ts.value);
          s := s.(rang := ev.rang, last := ev.last);
          streak := streak[ev.seat := s];
        } else if ev.uid != "" && ev.status == ReadBy && ev.reader != "" {
          if ev.reader !in lastRead || lastRead[ev.reader] < ev.ts.value {
            lastRead := lastRead[ev.reader := ev.ts.value];
          }
        }
      }
    }
    assert events[..|events|] == events;
  }

  /** The streaks to report: exactly the registered seats whose streak still stands. */
  method BellStreaks(rows: seq<Row>, events: seq<Event>) returns (out: map<string, Shown>)
    ensures forall seat :: seat in out <==> exists r :: r in rows && r.endpoint == seat && Stands(r, events)
    ensures forall seat :: seat in out <==> exists r :: r in rows && r.endpoint == seat && Unread(r, events)
    ensures forall seat :: seat in out ==> Some(out[seat]) == SeatShown(events, seat)
  {
    out := map[];
    var streak, lastRead := FoldRecord(events);
    for i := 0 to |rows|
      invariant forall seat :: seat in out <==>
                  exists r :: r in rows[..i] && r.endpoint == seat && Stands(r, events)
      invariant forall seat :: seat in out ==> Some(out[seat]) == SeatShown(events, seat)
    {
      var r := rows[i];
      if r.endpoint in streak && r.registered.Some? {
        var s := streak[r.endpoint];
        var early := s.ts < r.registered.value / 1000;
        var read := r.endpoint in lastRead && s.ts < lastRead[r.endpoint];
        if !early && !read {
          out := out[r.endpoint := s];
        }
      }
      assert rows[..i + 1] == rows[..i] + [r];
      assert Stands(r, events) ==> r.endpoint in out;
    }
    assert rows[..|rows|] == rows;
    forall r
      ensures Stands(r, events) <==> Unread(r, events)
    {
      StandsWhileUnread(r, events);
    }
  }

  // ---------------------------------------------------------------- what the reader recovers

  function OfSeat(seat: string): Event -> bool {
    (e: Event) => IsBellLine(e, seat)
  }

  predicate IsHeldTry(e: Event) {
    e.status == BellTry && e.result == Held
  }

  /** Where the trailing run of held tries starts. */
  function HeldRun(lines: seq<Event>): (k: nat)
    ensures k <= |lines|
    ensures forall i :: k <= i < |lines| ==> IsHeldTry(lines[i])
    ensures k > 0 ==> !IsHeldTry(lines[k - 1])
  {
    if lines == [] || !IsHeldTry(lines[|lines| - 1]) then |lines| else HeldRun(lines[..|lines| - 1])
  }

  function HeldSince(lines: seq<Event>): Option<nat> {
    var k := HeldRun(lines);
    if k < |lines| then lines[k].ts else None
  }

  lemma ShownSnoc(events: seq<Event>, e: Event, seat: string)
    ensures SeatShown(events + [e], seat) == AfterLine(SeatShown(events, seat), e, seat)
  {
    assert (events + [e])[..|events|] == events;
  }

  /** Every other line of the record, whoever wrote it, is passed over. */
  lemma {:induction false} OnlyTheSeatsLinesCount(events: seq<Event>, seat: string)
    ensures SeatShown(events, seat) == SeatShown(Filter(events, OfSeat(seat)), seat)
  {
    if events != [] {
      var init, e := events[..|events| - 1], events[|events| - 1];
      OnlyTheSeatsLinesCount(init, seat);
      var kept := Filter(init, OfSeat(seat));
      ShownSnoc(kept, e, seat);
      assert kept + [] == kept;
    }
  }

  /** Of one seat's own lines the reader keeps the last try, the stop after it, and the first of the held run. */
  ghost predicate Describes(v: Shown, lines: seq<Event>)
    requires lines != []
  {
    var e := lines[|lines| - 1];
    && e.ts == Some(v.ts)
    && (v.stopped <==> e.status == BellGaveUp)
    && (e.status == BellTry ==>
        && v.last == NO_RESULT
        && (v.tryNo, v.of, v.result, v.reason) == (e.tryNo, e.of, e.result, e.reason)
        && v.heldSince == HeldSince(lines))
    && (e.status == BellGaveUp ==>
        && (v.of, v.rang, v.last) == (e.after, e.rang, e.last)
        && (|lines| > 1 && lines[|lines| - 2].status == BellTry ==>
            var t := lines[|lines| - 2];
            && (v.tryNo, v.result, v.reason) == (t.tryNo, t.result, t.reason)
            && v.heldSince == HeldSince(lines[..|lines| - 1])))
  }

  lemma {:induction false} ReaderDescribes(lines: seq<Event>, seat: string)
    requires forall e :: e in lines ==> IsBellLine(e, seat)
    ensures SeatShown(lines, seat).None? <==> lines == []
    ensures lines != [] ==> Describes(SeatShown(lines, seat).value, lines)
  {
    if lines != [] {
      var init, e := lines[..|lines| - 1], lines[|lines| - 1];
      assert lines == init + [e];
      ReaderDescribes(init, seat);
      assert IsBellLine(e, seat);
      if IsHeldTry(e) && init != [] {
        assert IsBellLine(init[|init| - 1], seat);
        assert lines[|lines| - 2] == init[|init| - 1];
      }
    }
  }

  /**
   What the report recovers of a bell's own log behind the lines earlier bells of
   the seat left: v against the streak its last try belongs to. Only the start of
   a hold looks behind the log.
   */
  ghost predicate Recovers(c: Spec.Config, v: Shown, earlier: seq<Event>, log: seq<Event>, starts: seq<nat>)
    requires log != [] && |starts| == |log|
  {
    var t := LastTry(v, log);
    && 0 <= t && log[t].status == BellTry && starts[t] <= t
    && (v.stopped <==> log[|log| - 1].status == BellGaveUp)
    && (v.stopped <==> v.result != Held && v.tryNo == c.maxTries)
    && v.tryNo == 1 + S.Spent(log[starts[t]..t]) && v.of == c.maxTries
    && (v.result, v.reason) == (log[t].result, log[t].reason)
    && (v.stopped ==> v.last == v.result && v.rang == S.Rung(log[starts[t]..t + 1]))
    && (!v.stopped ==> v.last == NO_RESULT)
    && v.heldSince == HeldSince(earlier + log[..t + 1])
    && log[|log| - 1].ts == Some(v.ts)
  }

  /** The position of the last try in a log that ends in it or in the give-up behind it. */
  function LastTry(v: Shown, log: seq<Event>): int {
    if v.stopped then |log| - 2 else |log| - 1
  }

  lemma WellFormedIsRecovered(c: Spec.Config, v: Shown, earlier: seq<Event>, log: seq<Event>, starts: seq<nat>)
    requires S.WellFormed(c, log, starts) && log != [] && Describes(v, earlier + log)
    ensures Recovers(c, v, earlier, log, starts)
  {
    var lines := earlier + log;
    assert lines[|lines| - 1] == log[|log| - 1];
    assert S.LineOk(c, log, starts, |log| - 1);
    if log[|log| - 1].status == BellGaveUp {
      assert S.LineOk(c, log, starts, |log| - 2);
      assert lines[|lines| - 2] == log[|log| - 2];
      assert lines[..|lines| - 1] == earlier + log[..|log| - 1];
    } else {
      assert log[..|log|] == log;
    }
  }

  /** The record holds this bell's lines in order behind those of any earlier bell of the seat, among any others. */
  ghost predicate Behind(events: seq<Event>, seat: string, earlier: seq<Event>, log: seq<Event>) {
    Filter(events, OfSeat(seat)) == earlier + log
  }

  /**
   Reading back what was written. For any run of a seat's bell, and any record
   that holds its lines behind any the seat's earlier bells left, and among any
   others, the report recovers the seat's last counted try with its result, says
   stopped exactly when that try was the last and was followed by the give-up,
   and carries the streak's true count of rings. A bell that wrote nothing leaves
   what the earlier ones left.
   */
  lemma ReadBack(c: Spec.Config, w0: Spec.World, steps: seq<Spec.Step>, w: Spec.World,
                 events: seq<Event>, earlier: seq<Event>)
    requires c.Valid() && c.seat != "" && Spec.Starts(w0) && Spec.Run(w0, c, steps, w)
    requires Behind(events, c.seat, earlier, w.bell.log)
    ensures |S.HistoryAfter(w0, c, S.NO_HISTORY, steps).starts| == |w.bell.log|
    ensures w.bell.log == [] ==> SeatShown(events, c.seat) == SeatShown(earlier, c.seat)
    ensures w.bell.log != [] ==>
              SeatShown(events, c.seat).Some? &&
              Recovers(c, SeatShown(events, c.seat).value, earlier, w.bell.log,
                       S.HistoryAfter(w0, c, S.NO_HISTORY, steps).starts)
  {
    S.LogWellFormed(c, w0, steps, w);
    var h := S.HistoryAfter(w0, c, S.NO_HISTORY, steps);
    OnlyTheSeatsLinesCount(events, c.seat);
    FilterMembers(events, OfSeat(c.seat));
    ReaderDescribes(earlier + w.bell.log, c.seat);
    if w.bell.log == [] {
      assert earlier + w.bell.log == earlier;
    } else {
      WellFormedIsRecovered(c, SeatShown(events, c.seat).value, earlier, w.bell.log, h.starts);
    }
  }

  lemma OpenStreakCount(c: Spec.Config, b: Spec.Bell, h: S.History, v: Shown, earlier: seq<Event>)
    requires S.StreakMatches(c, b, h) && b.streak.next.Some?
    requires Recovers(c, v, earlier, b.log, h.starts)
    ensures !v.stopped
    ensures v.tryNo == b.streak.tries + (if v.result == Held then 1 else 0)
  {
    var last := b.log[|b.log| - 1];
    assert b.log[h.open..] == b.log[h.open..|b.log| - 1] + [last];
    CountSnoc(b.log[h.open..|b.log| - 1], last, S.Spends);
  }

  /** While a streak is open the report's try is the bell's own count: the tries made, or the slot a held try fills. */
  lemma OpenStreakReadBack(c: Spec.Config, w0: Spec.World, steps: seq<Spec.Step>, w: Spec.World,
                           events: seq<Event>, earlier: seq<Event>)
    requires c.Valid() && c.seat != "" && Spec.Starts(w0) && Spec.Run(w0, c, steps, w)
    requires Behind(events, c.seat, earlier, w.bell.log) && w.bell.streak.next.Some?
    ensures SeatShown(events, c.seat).Some?
    ensures var v := SeatShown(events, c.seat).value;
            !v.stopped && v.tryNo == w.bell.streak.tries + (if v.result == Held then 1 else 0)
  {
    S.LogWellFormed(c, w0, steps, w);
    ReadBack(c, w0, steps, w, events, earlier);
    OpenStreakCount(c, w.bell, S.HistoryAfter(w0, c, S.NO_HISTORY, steps), SeatShown(events, c.seat).value, earlier);
  }

  /** The word and the reason the row prints for the last try. */
  function LastWords(v: Shown): (Result, string) {
    if v.last == NO_RESULT then (v.result, v.reason)
    else (v.last, if v.last != v.result then "" else v.reason)
  }

  /** What the row prints of the last try is that try's own word and reason: a give-up never costs it the reason. */
  lemma LastWordsAreTheLastTrys(c: Spec.Config, w0: Spec.World, steps: seq<Spec.Step>, w: Spec.World,
                                events: seq<Event>, earlier: seq<Event>)
    requires c.Valid() && c.seat != "" && Spec.Starts(w0) && Spec.Run(w0, c, steps, w)
    requires Behind(events, c.seat, earlier, w.bell.log) && w.bell.log != []
    ensures SeatShown(events, c.seat).Some?
    ensures var v := SeatShown(events, c.seat).value;
            var t := LastTry(v, w.bell.log);
            0 <= t && LastWords(v) == (w.bell.log[t].result, w.bell.log[t].reason)
  {
    ReadBack(c, w0, steps, w, events, earlier);
  }

  // ---------------------------------------------------------------- since when a bell is held

  lemma {:induction false} HeldRunConcat(earlier: seq<Event>, lines: seq<Event>)
    ensures HeldRun(earlier + lines) == if HeldRun(lines) > 0 then |earlier| + HeldRun(lines) else HeldRun(earlier)
  {
    if lines == [] {
      assert earlier + lines == earlier;
    } else {
      assert (earlier + lines)[..|earlier + lines| - 1] == earlier + lines[..|lines| - 1];
      HeldRunConcat(earlier, lines[..|lines| - 1]);
    }
  }

  /** A hold is the lines' own: they do not open with it, or nothing held stands right before them, or the stamps agree. */
  predicate OwnHold(earlier: seq<Event>, lines: seq<Event>)
    requires lines != []
  {
    || HeldRun(lines) > 0
    || earlier == [] || !IsHeldTry(earlier[|earlier| - 1])
    || HeldSince(earlier) == lines[0].ts
  }

  /** What is read of a hold is the lines' own hold exactly when nothing held runs into it from before. */
  lemma HoldIsItsOwnIff(earlier: seq<Event>, lines: seq<Event>)
    requires lines != []
    ensures HeldSince(earlier + lines) == HeldSince(lines) <==> OwnHold(earlier, lines)
  {
    HeldRunConcat(earlier, lines);
    var j, k := HeldRun(earlier), HeldRun(lines);
    if k == 0 {
      assert HeldSince(lines) == lines[0].ts;
      assert (earlier + lines)[j] == if j < |earlier| then earlier[j] else lines[0];
    } else if k < |lines| {
      assert (earlier + lines)[|earlier| + k] == lines[k];
    }
  }

  /**
   The report dates a held bell from this bell's own first held try of the
   trailing run exactly when the run does not reach the start of its log, or the
   seat's line before it is not a held try, or was first held at the same stamp.
   */
  lemma HeldSinceIsThisBellsIff(c: Spec.Config, w0: Spec.World, steps: seq<Spec.Step>, w: Spec.World,
                                events: seq<Event>, earlier: seq<Event>)
    requires c.Valid() && c.seat != "" && Spec.Starts(w0) && Spec.Run(w0, c, steps, w)
    requires Behind(events, c.seat, earlier, w.bell.log) && w.bell.log != []
    ensures SeatShown(events, c.seat).Some?
    ensures var v := SeatShown(events, c.seat).value;
            var t := LastTry(v, w.bell.log);
            0 <= t && (v.heldSince == HeldSince(w.bell.log[..t + 1]) <==> OwnHold(earlier, w.bell.log[..t + 1]))
  {
    ReadBack(c, w0, steps, w, events, earlier);
    var t := LastTry(SeatShown(events, c.seat).value, w.bell.log);
    HoldIsItsOwnIff(earlier, w.bell.log[..t + 1]);
  }

  /**
   The bound by the registration passes over it: a seat registered at 90 seconds,
   whose bell was first held at 100, is shown as held since 10, by the bell of
   the seat's occupant before.
   */
  lemma HoldCanPrecedeTheRegistration()
    ensures var was := BellTryLine("a.b", 1, 3, Held, "", 10);
            var now := BellTryLine("a.b", 1, 3, Held, "", 100);
            && Stands(Row("a.b", Some(90000)), [was, now])
            && SeatShown([was, now], "a.b").value.heldSince == Some(10)
            && !OwnHold([was], [now])
  {
    var was := BellTryLine("a.b", 1, 3, Held, "", 10);
    var now := BellTryLine("a.b", 1, 3, Held, "", 100);
    assert [was, now] == [] + [was] + [now];
    ShownSnoc([], was, "a.b");
    ShownSnoc([] + [was], now, "a.b");
    assert [was, now][..1] == [was] && [was][..0] == [] && [now][..0] == [];
    assert LastRead([], "a.b").None? && LastRead([was], "a.b").None? && LastRead([was, now], "a.b").None?;
    assert HeldRun([]) == 0 && HeldRun([now]) == 0 && HeldRun([was]) == 0;
  }
}
