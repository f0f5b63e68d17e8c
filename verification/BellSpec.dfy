/**
 The bell of one seat as a state machine: each callback is one function from
 state to state. Class Bell carries the same fields and is proved to take
 exactly these steps.

 A callback runs to completion, a stopped timer never fires, and the count a
 callback reads is the queue's own at that moment.
 */
module BellSpec {
  import opened Basics
  import opened Events
  import B = Breaker

  /** gap and heldGap are the two waits before a next try; maxTries is at least 1. */
  datatype Config = Config(seat: string, caps: B.Caps, gap: nat, heldGap: nat, maxTries: nat) {
    predicate Valid() {
      maxTries >= 1
    }
  }

  /** The open coalescing window: open says its timer is armed. */
  datatype Window = Window(pending: nat, open: bool, senders: seq<string>, blind: bool)

  /** The streak: next is the delay its next try was scheduled for, senders and n what its first ring named. */
  datatype Streak = Streak(next: Option<nat>, tries: nat, rangs: nat, senders: seq<string>, n: nat)

  const SHUT := Window(0, false, [], false)
  const NO_STREAK := Streak(None, 0, 0, [], 0)

  /** log holds the lines this bell wrote, trips the times of the breaker's own lines. */
  datatype Bell = Bell(
    window: Window, streak: Streak, stopped: bool, cut: bool, back: bool,
    breaker: B.Breaker, log: seq<Event>, trips: seq<nat>)

  const NEW_BELL := Bell(SHUT, NO_STREAK, false, false, false, B.FRESH, [], [])

  /** What the notifier says to one ring. */
  datatype Answer = Took | Busy(text: string) | Holds(text: string) | Broke(text: string)

  /** What asking for the unread count yields; NoCounter is a medium that cannot be asked. */
  datatype Unread = NoCounter | Unreadable | Waiting(n: nat)

  const REASON_SUPPRESSED := "suppressed by the breaker"
  const REASON_NO_COUNT := "the unread count could not be read"

  datatype Outcome = Outcome(result: Result, reason: string)

  function OutcomeOf(answer: Answer): Outcome {
    match answer
    case Took => Outcome(Rang, "")
    case Busy(text) => Outcome(Refused, text)
    case Holds(text) => Outcome(Held, text)
    case Broke(text) => Outcome(Failed, text)
  }

  function Note(senders: seq<string>, sender: string): seq<string> {
    if sender == "" || sender in senders then senders else senders + [sender]
  }

  function Arrived(b: Bell, sender: string): Bell {
    if b.stopped then b
    else
      var w := b.window;
      b.(window := Window(w.pending + 1, true, Note(w.senders, sender), w.blind || sender == ""))
  }

  function Disconnected(b: Bell): Bell {
    b.(cut := true, back := false)
  }

  function ClearStreak(b: Bell): Bell {
    b.(streak := NO_STREAK)
  }

  function Stop(b: Bell): Bell {
    b.(stopped := true, window := b.window.(open := false), streak := NO_STREAK)
  }

  /** One ring: the breaker first, then the notifier, then the refund of a ring that typed nothing. */
  function Ring(b: Bell, c: Config, answer: Answer, now: nat): (Bell, Outcome) {
    if b.stopped then (b, Outcome(Suppressed, REASON_SUPPRESSED))
    else
      var k := B.Roll(b.breaker, now);
      if B.Full(k, c.caps) then
        (b.(breaker := k.(tripped := true), trips := if k.tripped then b.trips else b.trips + [now]),
         Outcome(Suppressed, REASON_SUPPRESSED))
      else
        var charged := B.Charge(k);
        var kept := if answer.Busy? || answer.Holds?
                    then B.GiveBack(charged, k.minuteBucket, k.hourBucket) else charged;
        (b.(breaker := kept), OutcomeOf(answer))
  }

  /** Whether this outcome is the streak's last try. */
  predicate Final(s: Streak, c: Config, o: Outcome) {
    o.result != Held && s.tries + 1 >= c.maxTries
  }

  /** The streak after one try: a held try spends nothing and waits heldGap; the last try ends it. */
  function CountedStreak(s: Streak, c: Config, o: Outcome): Streak {
    if o.result == Held then s.(next := Some(c.heldGap))
    else if Final(s, c, o) then NO_STREAK
    else s.(next := Some(c.gap), tries := s.tries + 1, rangs := s.rangs + if o.result == Rang then 1 else 0)
  }

  /** The lines one try writes: its own, numbered by the slot it fills, and the give-up after the last. */
  function CountedLines(s: Streak, c: Config, o: Outcome, now: nat): seq<Event> {
    [BellTryLine(c.seat, s.tries + 1, c.maxTries, o.result, o.reason, now)]
    + if Final(s, c, o)
      then [BellGaveUpLine(c.seat, c.maxTries, s.rangs + if o.result == Rang then 1 else 0, o.result, now)]
      else []
  }

  function Counted(b: Bell, c: Config, o: Outcome, now: nat): Bell {
    if b.stopped then b
    else b.(streak := CountedStreak(b.streak, c, o), log := b.log + CountedLines(b.streak, c, o, now))
  }

  function Try(b: Bell, c: Config, answer: Answer, now: nat): Bell {
    var (b1, o) := Ring(b, c, answer, now);
    Counted(b1, c, o, now)
  }

  /** Who the first ring of a streak names. */
  function FirstNames(b: Bell): seq<string> {
    if b.cut then [] else b.window.senders
  }

  /** The state fire leaves before it rings: the window is taken and a fresh streak opened. */
  function Opened(b: Bell): Bell {
    var w := b.window;
    var names := FirstNames(b);
    var whole := !b.stopped && w.pending > 0 && !w.blind && names != [];
    b.(window := SHUT, streak := if whole then NO_STREAK.(senders := names, n := w.pending) else NO_STREAK)
  }

  function Fire(b: Bell, c: Config, answer: Answer, now: nat): Bell {
    if b.stopped || b.window.pending == 0 then Opened(b) else Try(Opened(b), c, answer, now)
  }

  /** The window a backlog of n messages leaves to be rung: the larger count, blind if any sender is unknown. */
  function Backlogged(w: Window, cut: bool, n: nat): Window {
    var senders := if cut then [] else w.senders;
    if n > w.pending || cut
    then Window(if w.pending < n then n else w.pending, false, senders, true)
    else Window(w.pending, false, senders, w.blind)
  }

  /** What a try announces: how many messages, and whom it names. */
  datatype Announce = Announce(n: nat, names: seq<string>)

  function FireSays(b: Bell): Option<Announce> {
    if b.stopped || b.window.pending == 0 then None else Some(Announce(b.window.pending, FirstNames(b)))
  }

  function BacklogSays(b: Bell, count: Unread): Option<Announce> {
    if !count.Waiting? || b.stopped || count.n == 0 then None
    else FireSays(b.(cut := false, window := Backlogged(b.window, b.cut, count.n)))
  }

  function Backlog(b: Bell, c: Config, count: Unread, answer: Answer, now: nat): Bell {
    if count.NoCounter? then b
    else
      var b1 := b.(back := b.back || b.cut);
      if count.Unreadable? || b1.stopped then b1
      else if count.n == 0 then
        b1.(cut := false, window := if b.cut then b.window.(senders := []) else b.window)
      else
        Fire(b1.(cut := false, window := Backlogged(b.window, b.cut, count.n)), c, answer, now)
  }

  function Union(names: seq<string>, more: seq<string>): seq<string> {
    if more == [] then names
    else
      var u := Union(names, more[..|more| - 1]);
      if more[|more| - 1] in u then u else u + [more[|more| - 1]]
  }

  /** Who a later try may name when the queue holds n messages. */
  function LaterNames(b: Bell, n: nat): seq<string> {
    if b.streak.senders == [] || b.window.blind || b.cut then []
    else
      var names := Union(b.streak.senders, b.window.senders);
      var known := b.streak.n + b.window.pending;
      if n > known || (|names| > 1 && n != known) then [] else names
  }

  function Again(b: Bell, c: Config, count: Unread, answer: Answer, now: nat): Bell {
    var b1 := b.(streak := b.streak.(next := None));
    if b1.stopped then b1
    else match count
      case NoCounter => ClearStreak(b1)
      case Unreadable => Counted(b1, c, Outcome(Failed, REASON_NO_COUNT), now)
      case Waiting(n) =>
        if n == 0 then ClearStreak(b1.(cut := b1.cut && !b1.back))
        else Try(b1, c, answer, now)
  }

  function AgainSays(b: Bell, count: Unread): Option<Announce> {
    if b.stopped || !count.Waiting? || count.n == 0 then None
    else Some(Announce(count.n, LaterNames(b, count.n)))
  }

  /** A ring moves only the breaker, and comes to one of the five results. */
  lemma RingFrame(b: Bell, c: Config, answer: Answer, now: nat)
    ensures var (b', o) := Ring(b, c, answer, now);
            && b' == b.(breaker := b'.breaker, trips := b'.trips)
            && !o.result.Word?
  {
  }

  /** One ring of the bell is a charge of the breaker's machine and, when it was admitted, its finish. */
  lemma RingIsBeginAndFinish(b: Bell, c: Config, answer: Answer, now: nat, m: B.Machine)
    requires !b.stopped && m.b == b.breaker && m.trips == b.trips && m.clock <= now
    ensures var m1 := B.Next(m, c.caps, B.Begin(now));
            var m2 := if B.Admits(m, c.caps, now)
                      then B.Next(m1, c.caps, B.Finish(|m.rings|, answer.Busy? || answer.Holds?)) else m1;
            var (b', o) := Ring(b, c, answer, now);
            && b'.breaker == m2.b && b'.trips == m2.trips
            && (o.result == Suppressed <==> !B.Admits(m, c.caps, now))
  {
  }

  // ---------------------------------------------------------------- the seat and its queue

  /** queue holds the sender of each waiting message, "" for one that does not parse. */
  datatype World = World(bell: Bell, queue: seq<string>, connected: bool)

  datatype Step =
    | Arrive(sender: string)                                  // stored, and seen by the watch
    | Unseen(sender: string)                                  // stored while the watch is down
    | Take(n: nat)                                            // a read takes n messages off the front
    | Lose                                                    // the watch loses its connection
    | Rejoin                                                  // the watch is connected again
    | AskBacklog(heard: bool, counter: bool, answer: Answer, now: nat)
    | WindowEnds(answer: Answer, now: nat)                    // the window timer fires
    | NextTry(heard: bool, counter: bool, answer: Answer, now: nat)
    | Leave                                                   // the bell is stopped

  /** The count a callback reads: the queue's own length, or an error, or no counter at all. */
  function Asked(w: World, heard: bool, counter: bool): Unread {
    if !counter then NoCounter else if !heard then Unreadable else Waiting(|w.queue|)
  }

  predicate Enabled(w: World, st: Step) {
    match st
    case Arrive(_) => w.connected
    case Unseen(_) => !w.connected
    case Take(n) => n <= |w.queue|
    case Lose => w.connected
    case Rejoin => !w.connected
    case AskBacklog(_, _, _, _) => w.connected
    case WindowEnds(_, _) => w.bell.window.open
    case NextTry(_, _, _, _) => w.bell.streak.next.Some?
    case Leave => true
  }

  function Next(w: World, c: Config, st: Step): World
    requires Enabled(w, st)
  {
    match st
    case Arrive(s) => w.(bell := Arrived(w.bell, s), queue := w.queue + [s])
    case Unseen(s) => w.(queue := w.queue + [s])
    case Take(n) => w.(queue := w.queue[n..])
    case Lose => w.(bell := Disconnected(w.bell), connected := false)
    case Rejoin => w.(connected := true)
    case AskBacklog(heard, counter, answer, now) =>
      w.(bell := Backlog(w.bell, c, Asked(w, heard, counter), answer, now))
    case WindowEnds(answer, now) => w.(bell := Fire(w.bell, c, answer, now))
    case NextTry(heard, counter, answer, now) =>
      w.(bell := Again(w.bell, c, Asked(w, heard, counter), answer, now))
    case Leave => w.(bell := Stop(w.bell))
  }

  ghost predicate Run(w: World, c: Config, steps: seq<Step>, w': World)
    decreases |steps|
  {
    if steps == [] then w' == w
    else Enabled(w, steps[0]) && Run(Next(w, c, steps[0]), c, steps[1..], w')
  }

  /** A seat starts with the watch up and whatever mail was already waiting. */
  predicate Starts(w: World) {
    w.bell == NEW_BELL && w.connected
  }
}
