/**
 The adapter's bells and drains, and the sorting of what a drain read. A drain
 takes all the waiting mail, so bells heard during one ask for one more, not one
 each. Steps between two awaits are atomic; a bell may land between any two.
 */
module Hermes {
  import opened Basics
  import opened Text

  // ---------------------------------------------------------------- bells and drains

  datatype Mark = Bell | Start | End | Failed

  /** Idle: no loop. Spawned: a loop is scheduled and has not run yet. Running: a drain is under way. */
  datatype Phase = Idle | Spawned | Running

  /** draining and again are the adapter's two flags. */
  datatype Machine = Machine(draining: bool, again: bool, phase: Phase, log: seq<Mark>)

  datatype Step = Ring | Begin | Return | Fail

  const START := Machine(false, false, Idle, [])

  ghost predicate Enabled(m: Machine, s: Step) {
    match s
    case Ring => true
    case Begin => m.phase.Spawned?
    case Return => m.phase.Running?
    case Fail => m.phase.Running?
  }

  ghost function Next(m: Machine, s: Step): Machine {
    match s
    case Ring => Requested(m)
    case Begin => Drained(m)
    case Return => Returned(m)
    case Fail => m.(draining := false, phase := Idle, log := m.log + [Failed])
  }

  ghost function Requested(m: Machine): Machine {
    var heard := m.(log := m.log + [Bell]);
    if m.draining then heard.(again := true) else heard.(draining := true, phase := Spawned)
  }

  /** The loop's own top: the flag is dropped, and only then does a drain start. */
  ghost function Drained(m: Machine): Machine {
    m.(again := false, phase := Running, log := m.log + [Start])
  }

  ghost function Returned(m: Machine): Machine {
    var done := m.(log := m.log + [End]);
    if m.again then Drained(done) else done.(draining := false, phase := Idle)
  }

  ghost predicate Run(m: Machine, steps: seq<Step>)
    decreases |steps|
  {
    steps != [] ==> Enabled(m, steps[0]) && Run(Next(m, steps[0]), steps[1..])
  }

  ghost function After(m: Machine, steps: seq<Step>): Machine
    decreases |steps|
  {
    if steps == [] then m else After(Next(m, steps[0]), steps[1..])
  }

  /** The adapter's part of it, as methods on its two flags. */
  class Adapter {
    var draining: bool
    var again: bool
    ghost var phase: Phase
    ghost var log: seq<Mark>

    ghost function State(): Machine
      reads this
    {
      Machine(draining, again, phase, log)
    }

    constructor ()
      ensures State() == START
    {
      draining, again, phase, log := false, false, Idle, [];
    }

    method RequestDrain()
      modifies this
      ensures State() == Requested(old(State()))
    {
      log := log + [Bell];
      if draining {
        again := true;
        return;
      }
      draining := true;
      phase := Spawned;
    }

    /** From one drain's start to the next await. */
    method Top()
      modifies this
      ensures State() == Drained(old(State()))
    {
      again := false;
      phase, log := Running, log + [Start];
    }

    /** A drain came back: once more round the loop, or out of it. */
    method Bottom()
      modifies this
      ensures State() == Returned(old(State()))
    {
      log := log + [End];
      if !again {
        phase := Idle;
        draining := false;
        return;
      }
      Top();
    }
  }

  /** Bells heard since the last drain started. */
  function Unanswered(log: seq<Mark>): nat {
    if log == [] then 0
    else
      match log[|log| - 1]
      case Start => 0
      case Bell => Unanswered(log[..|log| - 1]) + 1
      case _ => Unanswered(log[..|log| - 1])
  }

  /** Whether a drain is under way. */
  function Open(log: seq<Mark>): bool {
    if log == [] then false
    else
      match log[|log| - 1]
      case Start => true
      case Bell => Open(log[..|log| - 1])
      case _ => false
  }

  /** Whether the log ends in a failed drain. */
  predicate EndsFailed(log: seq<Mark>) {
    log != [] && log[|log| - 1] == Failed
  }

  /** A drain starts only when none is under way, and ends only when one is. */
  ghost predicate Alternates(log: seq<Mark>) {
    log == [] ||
    var init := log[..|log| - 1];
    Alternates(init) &&
    match log[|log| - 1]
    case Bell => true
    case Start => !Open(init)
    case _ => Open(init)
  }

  function Bells(log: seq<Mark>): nat {
    Count(log, (k: Mark) => k == Bell)
  }

  function Drains(log: seq<Mark>): nat {
    Count(log, (k: Mark) => k == Start)
  }

  ghost predicate Inv(m: Machine) {
    && Alternates(m.log)
    && (m.draining <==> !m.phase.Idle?)
    && (m.phase.Running? <==> Open(m.log))
    && (m.phase.Idle? ==> (Unanswered(m.log) > 0 <==> m.again) && (m.again ==> EndsFailed(m.log)))
    && (m.phase.Spawned? ==> Unanswered(m.log) > 0)
    && (m.phase.Running? ==> (Unanswered(m.log) > 0 <==> m.again))
    && Drains(m.log) + Unanswered(m.log) <= Bells(m.log)
  }

  lemma Appended(log: seq<Mark>, k: Mark)
    ensures (log + [k])[..|log|] == log
    ensures Bells(log + [k]) == Bells(log) + if k.Bell? then 1 else 0
    ensures Drains(log + [k]) == Drains(log) + if k.Start? then 1 else 0
  {
    CountSnoc(log, k, (x: Mark) => x == Bell);
    CountSnoc(log, k, (x: Mark) => x == Start);
  }

  lemma StartKeeps(m: Machine)
    requires Inv(m) && !Open(m.log) && m.draining && Drains(m.log) < Bells(m.log)
    ensures Inv(Drained(m))
  {
    Appended(m.log, Start);
  }

  lemma EndKeeps(m: Machine)
    requires Inv(m) && m.phase.Running?
    ensures Inv(Returned(m))
  {
    Appended(m.log, End);
    Appended(m.log + [End], Start);
  }

  lemma FailKeeps(m: Machine)
    requires Inv(m) && m.phase.Running?
    ensures Inv(m.(draining := false, phase := Idle, log := m.log + [Failed]))
  {
    Appended(m.log, Failed);
  }

  lemma RequestKeeps(m: Machine)
    requires Inv(m)
    ensures Inv(Requested(m))
  {
    Appended(m.log, Bell);
  }

  lemma StepKeeps(m: Machine, s: Step)
    requires Inv(m) && Enabled(m, s)
    ensures Inv(Next(m, s))
  {
    match s
    case Ring => RequestKeeps(m);
    case Begin => StartKeeps(m);
    case Return => EndKeeps(m);
    case Fail => FailKeeps(m);
  }

  lemma {:induction false} RunKeeps(m: Machine, steps: seq<Step>)
    requires Inv(m) && Run(m, steps)
    ensures Inv(After(m, steps))
    decreases |steps|
  {
    if steps != [] {
      StepKeeps(m, steps[0]);
      RunKeeps(Next(m, steps[0]), steps[1..]);
    }
  }

  ghost predicate Answered(log: seq<Mark>, i: nat) {
    exists j :: i < j < |log| && log[j] == Start
  }

  ghost predicate AllAnswered(log: seq<Mark>) {
    forall i :: 0 <= i < |log| && log[i] == Bell ==> Answered(log, i)
  }

  lemma {:induction false} AnsweredByPosition(log: seq<Mark>, i: nat)
    requires Unanswered(log) == 0 && i < |log| && log[i] == Bell
    ensures Answered(log, i)
  {
    var init := log[..|log| - 1];
    if log[|log| - 1] != Start {
      AnsweredByPosition(init, i);
      var j :| i < j < |init| && init[j] == Start;
      assert log[j] == Start;
    }
  }

  lemma {:induction false} UnansweredByPosition(log: seq<Mark>) returns (i: nat)
    requires Unanswered(log) > 0
    ensures i < |log| && log[i] == Bell && !Answered(log, i)
  {
    if log[|log| - 1] == Bell {
      i := |log| - 1;
    } else {
      var init := log[..|log| - 1];
      i := UnansweredByPosition(init);
      assert forall j :: i < j < |init| ==> init[j] != Start;
      assert forall j :: i < j < |log| ==> log[j] == if j < |init| then init[j] else log[|log| - 1];
    }
  }

  lemma AnsweredIff(log: seq<Mark>)
    ensures AllAnswered(log) <==> Unanswered(log) == 0
  {
    if Unanswered(log) == 0 {
      forall i | 0 <= i < |log| && log[i] == Bell
        ensures Answered(log, i)
      {
        AnsweredByPosition(log, i);
      }
    } else {
      var i := UnansweredByPosition(log);
    }
  }

  /**
   At rest every bell has a drain that started after it, unless the adapter's own
   flag is still raised; and it can be only where a drain failed under it.
   */
  lemma NoBellIsLost(steps: seq<Step>)
    requires Run(START, steps)
    ensures var m := After(START, steps);
            m.phase.Idle? ==> (AllAnswered(m.log) <==> !m.again) && (m.again ==> EndsFailed(m.log))
  {
    StartHolds();
    RunKeeps(START, steps);
    AnsweredIff(After(START, steps).log);
  }

  /** A drain that comes back never leaves a bell: where it rests all are answered, and where not another has started. */
  lemma ReturnLosesNoBell(steps: seq<Step>)
    requires Run(START, steps) && After(START, steps).phase.Running?
    ensures AllAnswered(Next(After(START, steps), Return).log)
  {
    var m := After(START, steps);
    StartHolds();
    RunKeeps(START, steps);
    EndKeeps(m);
    AnsweredIff(Returned(m).log);
    assert m.again ==> Returned(m).log[|Returned(m).log| - 1] == Start;
  }

  /** A drain that fails leaves no bell behind exactly when the flag was not raised under it. */
  lemma FailureLosesNoBellIff(steps: seq<Step>)
    requires Run(START, steps) && After(START, steps).phase.Running?
    ensures AllAnswered(Next(After(START, steps), Fail).log) <==> !After(START, steps).again
  {
    var m := After(START, steps);
    StartHolds();
    RunKeeps(START, steps);
    FailKeeps(m);
    AnsweredIff(Next(m, Fail).log);
  }

  /** While a bell waits for its drain, one is already scheduled, or the one under way will be followed by another. */
  lemma WaitingBellIsPromised(steps: seq<Step>)
    requires Run(START, steps)
    ensures var m := After(START, steps);
            Unanswered(m.log) > 0 ==>
              m.phase.Spawned? || (m.phase.Running? && m.again) || (m.phase.Idle? && EndsFailed(m.log))
  {
    StartHolds();
    RunKeeps(START, steps);
  }

  /** Drains never overlap, and never outnumber the bells. */
  lemma DrainsAreFew(steps: seq<Step>)
    requires Run(START, steps)
    ensures var m := After(START, steps);
            Alternates(m.log) && Drains(m.log) + Unanswered(m.log) <= Bells(m.log)
  {
    StartHolds();
    RunKeeps(START, steps);
  }

  lemma StartHolds()
    ensures Inv(START)
  {
  }

  /** A bell heard during a drain that then fails is left without one. */
  lemma FailureDropsABell()
    ensures var steps := [Ring, Begin, Ring, Fail];
            var m := After(START, steps);
            Run(START, steps) && m.phase.Idle? && m.log == [Bell, Start, Bell, Failed] && Unanswered(m.log) == 1
  {
    var a := Next(START, Ring);
    var b := Next(a, Begin);
    var c := Next(b, Ring);
    var d := Next(c, Fail);
    assert [Ring, Begin, Ring, Fail][1..] == [Begin, Ring, Fail];
    assert [Begin, Ring, Fail][1..] == [Ring, Fail];
    assert [Ring, Fail][1..] == [Fail];
    assert [Fail][1..] == [];
    assert After(d, []) == d && Run(d, []);
    assert After(c, [Fail]) == d && Run(c, [Fail]);
    assert After(b, [Ring, Fail]) == d && Run(b, [Ring, Fail]);
    assert After(a, [Begin, Ring, Fail]) == d && Run(a, [Begin, Ring, Fail]);
    assert d.log == [Bell, Start, Bell, Failed];
    assert d.log[..3] == [Bell, Start, Bell] && [Bell, Start, Bell][..2] == [Bell, Start];
    assert Unanswered([Bell, Start]) == 0 && Unanswered([Bell, Start, Bell]) == 1;
  }

  // ---------------------------------------------------------------- sorting what was read

  /** A JSON value: a string, or anything else (absent too). */
  datatype Field = Words(s: string) | NotWords

  /** What the line parses to. id is empty when the envelope names none. */
  datatype Parsed = NotJson | NotObject | Object(id: string, to: Field, from: Field, body: Field)

  datatype Line = Line(text: string, parsed: Parsed)

  datatype Declined = Declined(what: string, reason: string)

  predicate Blank(l: Line) {
    Trim(l.text) == ""
  }

  /** What may be passed on: mail for this seat, from a named other, that says something. */
  predicate Passes(l: Line, me: string) {
    && l.parsed.Object?
    && l.parsed.to == Words(me)
    && l.parsed.from.Words? && Trim(l.parsed.from.s) != "" && l.parsed.from.s != me
    && l.parsed.body.Words? && Trim(l.parsed.body.s) != ""
  }

  function Clipped(s: string): string {
    if |s| > 80 then s[..80] else s
  }

  /** How a line is named where it is declined: by its id, or by its start. */
  function What(l: Line): string {
    if l.parsed.Object? && l.parsed.id != "" then l.parsed.id else Clipped(Trim(l.text))
  }

  /** The lines with anything on them that pass, or that do not, in order. */
  function Chosen(lines: seq<Line>, me: string, passing: bool): seq<Line> {
    if lines == [] then []
    else
      var init, l := Chosen(lines[..|lines| - 1], me, passing), lines[|lines| - 1];
      if !Blank(l) && Passes(l, me) == passing then init + [l] else init
  }

  function Nonblank(lines: seq<Line>): nat {
    Count(lines, (l: Line) => !Blank(l))
  }

  lemma {:induction false} ChosenMembers(lines: seq<Line>, me: string, passing: bool)
    ensures forall l :: l in Chosen(lines, me, passing) <==> l in lines && !Blank(l) && Passes(l, me) == passing
  {
    if lines != [] {
      ChosenMembers(lines[..|lines| - 1], me, passing);
      assert lines == lines[..|lines| - 1] + [lines[|lines| - 1]];
    }
  }

  lemma {:induction false} ChosenCount(lines: seq<Line>, me: string)
    ensures |Chosen(lines, me, true)| + |Chosen(lines, me, false)| == Nonblank(lines)
  {
    if lines != [] {
      ChosenCount(lines[..|lines| - 1], me);
    }
  }

  /** Passed on is exactly the mail to this seat, from a sender with a name that is not the seat's own, with something in it. */
  lemma PassedOnExactly(lines: seq<Line>, me: string, l: Line)
    ensures l in Chosen(lines, me, true) <==>
            && l in lines && Trim(l.text) != "" && l.parsed.Object? && l.parsed.to == Words(me)
            && (exists s :: l.parsed.from == Words(s) && s != me && Trim(s) != "")
            && (exists s :: l.parsed.body == Words(s) && Trim(s) != "")
  {
    ChosenMembers(lines, me, true);
    if l.parsed.Object? && l.parsed.from.Words? && l.parsed.body.Words? {
      assert l.parsed.from == Words(l.parsed.from.s) && l.parsed.body == Words(l.parsed.body.s);
    }
  }

  /** Nothing is put before what was read before it. */
  lemma {:induction false} ChosenInOrder(a: seq<Line>, b: seq<Line>, me: string, passing: bool)
    ensures Chosen(a + b, me, passing) == Chosen(a, me, passing) + Chosen(b, me, passing)
  {
    if b == [] {
      assert a + b == a;
    } else {
      assert (a + b)[..|a + b| - 1] == a + b[..|b| - 1];
      ChosenInOrder(a, b[..|b| - 1], me, passing);
    }
  }

  /** No line with anything on it is dropped, and none is both passed on and declined. */
  lemma NoLineIsDropped(lines: seq<Line>, me: string)
    ensures |Chosen(lines, me, true)| + |Chosen(lines, me, false)| == Nonblank(lines)
    ensures forall l :: l in lines && !Blank(l) ==> (l in Chosen(lines, me, true) <==> l !in Chosen(lines, me, false))
  {
    ChosenCount(lines, me);
    ChosenMembers(lines, me, true);
    ChosenMembers(lines, me, false);
  }

  function Decline(l: Line, me: string): Declined {
    Declined(What(l), Objection(l, me))
  }

  /** Each declined line is named, with the objection to it. */
  function Declines(left: seq<Line>, me: string): seq<Declined> {
    seq(|left|, i requires 0 <= i < |left| => Decline(left[i], me))
  }

  lemma DeclinesSnoc(left: seq<Line>, l: Line, me: string)
    ensures Declines(left + [l], me) == Declines(left, me) + [Decline(l, me)]
  {
  }

  datatype Sorting = Sorting(messages: seq<Line>, declined: seq<Declined>)

  /** One line: passed over, with the messages, or with the declined. */
  function Put(s: Sorting, l: Line, me: string): Sorting {
    if Blank(l) then s
    else if Passes(l, me) then s.(messages := s.messages + [l])
    else s.(declined := s.declined + [Decline(l, me)])
  }

  method PutLine(s: Sorting, l: Line, me: string) returns (r: Sorting)
    ensures r == Put(s, l, me)
  {
    r := s;
    if Blank(l) {
      return;
    }
    var reason := Objection(l, me);
    if reason == "" {
      r := r.(messages := r.messages + [l]);
    } else {
      r := r.(declined := r.declined + [Declined(What(l), reason)]);
    }
  }

  function PutAll(lines: seq<Line>, me: string): Sorting {
    if lines == [] then Sorting([], [])
    else Put(PutAll(lines[..|lines| - 1], me), lines[|lines| - 1], me)
  }

  lemma PutAllSnoc(lines: seq<Line>, i: nat, me: string)
    requires i < |lines|
    ensures PutAll(lines[..i + 1], me) == Put(PutAll(lines[..i], me), lines[i], me)
  {
    assert lines[..i + 1][..i] == lines[..i];
  }

  lemma {:induction false} PutAllSplits(lines: seq<Line>, me: string)
    ensures PutAll(lines, me) == Sorting(Chosen(lines, me, true), Declines(Chosen(lines, me, false), me))
  {
    if lines != [] {
      var init, last := lines[..|lines| - 1], lines[|lines| - 1];
      assert lines == init + [last];
      PutAllSplits(init, me);
      DeclinesSnoc(Chosen(init, me, false), last, me);
    }
  }

  method SortReadOutput(lines: seq<Line>, me: string) returns (messages: seq<Line>, declined: seq<Declined>)
    ensures messages == Chosen(lines, me, true) && declined == Declines(Chosen(lines, me, false), me)
  {
    var s := PutLines(lines, me);
    PutAllSplits(lines, me);
    return s.messages, s.declined;
  }

  method PutLines(lines: seq<Line>, me: string) returns (s: Sorting)
    ensures s == PutAll(lines, me)
  {
    s := Sorting([], []);
    for i := 0 to |lines|
      invariant s == PutAll(lines[..i], me)
    {
      PutAllSnoc(lines, i, me);
      s := PutLine(s, lines[i], me);
    }
    assert lines[..|lines|] == lines;
  }

  /** The first objection to a line, in the order the checks are made; none exactly when it passes. */
  function Objection(l: Line, me: string): (reason: string)
    ensures reason == "" <==> Passes(l, me)
  {
    match l.parsed
    case NotJson => "not JSON"
    case NotObject => "not a JSON object"
    case Object(_, to, from, body) =>
      if to != Words(me) then "not addressed to this seat (a topic message)"
      else if from.NotWords? || Trim(from.s) == "" then "no sender"
      else if from.s == me then "sent under this seat's own name"
      else if body.NotWords? || Trim(body.s) == "" then "empty body, from " + from.s
      else ""
  }

  /** A declined line is told with the first objection to it, under its id or its first eighty characters. */
  lemma DeclineTells(l: Line, me: string)
    ensures l.parsed.NotJson? ==> Decline(l, me).reason == "not JSON"
    ensures l.parsed.NotObject? ==> Decline(l, me).reason == "not a JSON object"
    ensures l.parsed.Object? && l.parsed.to != Words(me) ==>
              Decline(l, me).reason == "not addressed to this seat (a topic message)"
    ensures l.parsed.Object? && l.parsed.to == Words(me) && l.parsed.from == Words(me) && Trim(me) != "" ==>
              Decline(l, me).reason == "sent under this seat's own name"
    ensures l.parsed.Object? && l.parsed.id != "" ==> Decline(l, me).what == l.parsed.id
    ensures !l.parsed.Object? || l.parsed.id == "" ==>
              Decline(l, me).what == if |Trim(l.text)| <= 80 then Trim(l.text) else Trim(l.text)[..80]
  {
  }

  // ---------------------------------------------------------------- replies

  const MAX_BODY_CHARS := 4000
  const CUT_MARK := "\n[cut: this reply was longer than the 4000-character limit of the bus]"

  /** Never longer than the bus takes, whole when it fits, and visibly cut when it does not. */
  function ClipBody(content: string): (r: (string, bool))
    ensures |r.0| <= MAX_BODY_CHARS
    ensures r.1 <==> |content| > MAX_BODY_CHARS
    ensures !r.1 ==> r.0 == content
    ensures r.1 ==> IsSuffix(CUT_MARK, r.0) && r.0[..|r.0| - |CUT_MARK|] <= content
  {
    if |content| <= MAX_BODY_CHARS then (content, false)
    else
      (content[..MAX_BODY_CHARS - |CUT_MARK|] + CUT_MARK, true)
  }
}
