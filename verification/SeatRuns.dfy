/**
 Runs of a whole house: sends, reads, subscribes, unsubscribes, beats, servers
 that take seats and leave them, and processes that start and die, interleaved
 write by write. A load-then-save and a check-then-remove are each one step.
 */
module SeatRuns {
  import opened Basics
  import opened Findings
  import opened Seat
  import opened SeatServer

  /** One message to one endpoint. */
  datatype Letter = Letter(to: string, mail: Mail)

  datatype Served = Served(endpoint: string, runtime: Process, own: Option<Tenure>)

  /**
   stamp is the next registration stamp, never used before. leaving holds the
   endpoints of the unsubscribes between their two writes. accepted, taken and
   destroyed count every letter that was accepted by a send, acknowledged by a
   read, or in a queue that was deleted.
   */
  datatype Sys = Sys(
    w: World, stamp: nat, servers: map<nat, Served>, leaving: multiset<string>,
    accepted: multiset<Letter>, taken: multiset<Letter>, destroyed: multiset<Letter>)

  datatype Step =
    | Send(to: string, mail: Mail)
    | Ack(at: string, i: nat)                       // a reader's acknowledged message
    | SubscribeRow(endpoint: string, process: Process)
    | SubscribeQueue(endpoint: string)
    | UnsubscribeRow(endpoint: string, force: bool)
    | UnsubscribeQueue(endpoint: string)
    | UnsubscribeAbandoned(endpoint: string)
    | Sweep
    | Starts(process: Process)
    | Dies(process: Process)
    | Garbled(endpoint: string)                     // a ledger file nothing can read any more
    | Serve(id: nat, endpoint: string, runtime: Process)
    | Displace(id: nat)
    | Enroll(id: nat)
    | Depart(id: nat)

  predicate Enabled(s: Sys, st: Step) {
    match st
    case Ack(at, i) => i < |Mailbox(s.w, at)|
    case UnsubscribeQueue(e) => e in s.leaving
    case UnsubscribeAbandoned(e) => e in s.leaving
    case Garbled(e) => e in s.w.ledger
    case Serve(id, _, _) => id !in s.servers
    case Displace(id) => id in s.servers
    case Enroll(id) => id in s.servers
    case Depart(id) => id in s.servers
    case _ => true
  }

  function Without(q: seq<Mail>, i: nat): seq<Mail>
    requires i < |q|
  {
    q[..i] + q[i + 1..]
  }

  function Letters(e: string, q: seq<Mail>): multiset<Letter> {
    if q == [] then multiset{} else Letters(e, q[..|q| - 1]) + multiset{Letter(e, q[|q| - 1])}
  }

  /** An unsubscribe goes ahead over an absent or dead row, or a live one when forced. */
  predicate Unsubscribes(w: World, e: string, force: bool) {
    if e in w.ledger then w.ledger[e].Readable? && (force || !LiveRow(w, e)) else e in w.queues
  }

  predicate Clears(w: World, v: Served) {
    !Broken(w, v.endpoint) && !HeldElsewhere(w, v.endpoint, v.runtime.pid)
  }

  function Next(s: Sys, st: Step): Sys
    requires Enabled(s, st)
  {
    match st
    case Send(to, mail) =>
      if to in s.w.queues && to in s.w.ledger then
        s.(w := s.w.(queues := s.w.queues[to := s.w.queues[to] + [mail]]),
           accepted := s.accepted + multiset{Letter(to, mail)})
      else s
    case Ack(at, i) =>
      s.(w := s.w.(queues := s.w.queues[at := Without(s.w.queues[at], i)]),
         taken := s.taken + multiset{Letter(at, s.w.queues[at][i])})
    case SubscribeRow(e, p) =>
      if e in s.w.ledger then s else s.(w := Save(s.w, Row(e, p, s.stamp)), stamp := s.stamp + 1)
    case SubscribeQueue(e) => s.(w := CreateQueue(s.w, e))
    case UnsubscribeRow(e, force) =>
      if Unsubscribes(s.w, e, force) then s.(w := Remove(s.w, e), leaving := s.leaving + multiset{e}) else s
    case UnsubscribeQueue(e) =>
      s.(w := DeleteQueue(s.w, e), leaving := s.leaving - multiset{e},
         destroyed := s.destroyed + Letters(e, Mailbox(s.w, e)))
    case UnsubscribeAbandoned(e) => s.(leaving := s.leaving - multiset{e})
    case Sweep => s.(w := Beat(s.w))
    case Starts(p) => s.(w := s.w.(running := s.w.running + {p}))
    case Dies(p) => s.(w := s.w.(running := s.w.running - {p}))
    case Garbled(e) => s.(w := s.w.(ledger := s.w.ledger[e := Unreadable]))
    case Serve(id, e, runtime) => s.(servers := s.servers[id := Served(e, runtime, None)])
    case Displace(id) =>
      var v := s.servers[id];
      if Clears(s.w, v) then s.(w := Remove(s.w, v.endpoint)) else s
    case Enroll(id) =>
      var v := s.servers[id];
      if v.endpoint in s.w.ledger then s
      else
        var row := Row(v.endpoint, v.runtime, s.stamp);
        s.(w := Save(s.w, row), stamp := s.stamp + 1, servers := s.servers[id := v.(own := Some(TenureOf(row)))])
    case Depart(id) =>
      var v := s.servers[id];
      var gone := s.(servers := s.servers - {id});
      if Holds(s.w, v.endpoint, v.own)
      then gone.(w := Remove(s.w, v.endpoint), leaving := s.leaving + multiset{v.endpoint})
      else gone
  }

  ghost predicate Run(s: Sys, steps: seq<Step>, s': Sys)
    decreases |steps|
  {
    if steps == [] then s' == s
    else Enabled(s, steps[0]) && Run(Next(s, steps[0]), steps[1..], s')
  }

  /** An empty house. */
  const START := Sys(World(map[], map[], {}, map[]), 0, map[], multiset{}, multiset{}, multiset{}, multiset{})

  // ---------------------------------------------------------------- mail is conserved

  ghost predicate Conserved(s: Sys) {
    forall e, m :: s.accepted[Letter(e, m)]
                == s.taken[Letter(e, m)] + s.destroyed[Letter(e, m)] + multiset(Mailbox(s.w, e))[m]
  }

  lemma {:induction false} LettersCount(e: string, q: seq<Mail>, e': string, m: Mail)
    ensures Letters(e, q)[Letter(e', m)] == if e' == e then multiset(q)[m] else 0
  {
    if q != [] {
      LettersCount(e, q[..|q| - 1], e', m);
      assert q == q[..|q| - 1] + [q[|q| - 1]];
    }
  }

  lemma WithoutCount(q: seq<Mail>, i: nat, m: Mail)
    requires i < |q|
    ensures multiset(q)[m] == multiset(Without(q, i))[m] + if q[i] == m then 1 else 0
  {
    assert q == q[..i] + [q[i]] + q[i + 1..];
  }

  /** A subscribe, a beat, a displacement, a registration and a departure's own write leave every mailbox as it was. */
  lemma SeatStepsKeepMail(s: Sys, st: Step, e: string)
    requires Enabled(s, st)
    requires st.SubscribeRow? || st.SubscribeQueue? || st.Sweep? || st.Displace? || st.Enroll? || st.Depart?
    ensures Mailbox(Next(s, st).w, e) == Mailbox(s.w, e)
  {
    match st
    case Sweep => BeatMail(s.w, e);
    case _ =>
  }

  lemma BeatMail(w: World, e: string)
    ensures Mailbox(Beat(w), e) == Mailbox(w, e)
  {
  }

  /** Only an acknowledged read and the delete of an unsubscribe take anything from a queue; every other step keeps it, in order. */
  lemma OnlyTwoStepsTakeMail(s: Sys, st: Step, e: string)
    requires Enabled(s, st) && !(st.Ack? && st.at == e) && !(st.UnsubscribeQueue? && st.endpoint == e)
    ensures Mailbox(s.w, e) <= Mailbox(Next(s, st).w, e)
  {
    if st.SubscribeRow? || st.SubscribeQueue? || st.Sweep? || st.Displace? || st.Enroll? || st.Depart? {
      SeatStepsKeepMail(s, st, e);
    }
  }

  lemma QuietStep(s: Sys, st: Step)
    requires Enabled(s, st) && !st.Ack? && !st.UnsubscribeQueue? && !st.Send?
    ensures Next(s, st).accepted == s.accepted && Next(s, st).taken == s.taken && Next(s, st).destroyed == s.destroyed
    ensures forall e :: Mailbox(Next(s, st).w, e) == Mailbox(s.w, e)
  {
  }

  lemma SendConserves(s: Sys, to: string, mail: Mail)
    requires Conserved(s)
    ensures Conserved(Next(s, Send(to, mail)))
  {
    var s' := Next(s, Send(to, mail));
    if s' != s {
      forall e, m
        ensures s'.accepted[Letter(e, m)] - multiset(Mailbox(s'.w, e))[m]
             == s.accepted[Letter(e, m)] - multiset(Mailbox(s.w, e))[m]
      {
        if e == to {
          assert Mailbox(s'.w, e) == Mailbox(s.w, e) + [mail];
        }
      }
    }
  }

  lemma AckConserves(s: Sys, at: string, i: nat)
    requires Enabled(s, Ack(at, i)) && Conserved(s)
    ensures Conserved(Next(s, Ack(at, i)))
  {
    var s' := Next(s, Ack(at, i));
    forall e, m
      ensures s'.taken[Letter(e, m)] + multiset(Mailbox(s'.w, e))[m]
           == s.taken[Letter(e, m)] + multiset(Mailbox(s.w, e))[m]
    {
      if e == at {
        WithoutCount(Mailbox(s.w, at), i, m);
      }
    }
  }

  lemma DeleteConserves(s: Sys, d: string)
    requires Enabled(s, UnsubscribeQueue(d)) && Conserved(s)
    ensures Conserved(Next(s, UnsubscribeQueue(d)))
  {
    var s' := Next(s, UnsubscribeQueue(d));
    forall e, m
      ensures s'.destroyed[Letter(e, m)] + multiset(Mailbox(s'.w, e))[m]
           == s.destroyed[Letter(e, m)] + multiset(Mailbox(s.w, e))[m]
    {
      LettersCount(d, Mailbox(s.w, d), e, m);
    }
  }

  lemma StepConserves(s: Sys, st: Step)
    requires Enabled(s, st) && Conserved(s)
    ensures Conserved(Next(s, st))
  {
    match st
    case Send(to, mail) => SendConserves(s, to, mail);
    case Ack(at, i) => AckConserves(s, at, i);
    case UnsubscribeQueue(d) => DeleteConserves(s, d);
    case _ => QuietStep(s, st);
  }

  lemma {:induction false} RunConserves(s: Sys, steps: seq<Step>, s': Sys)
    requires Run(s, steps, s') && Conserved(s)
    ensures Conserved(s')
    decreases |steps|
  {
    if steps != [] {
      StepConserves(s, steps[0]);
      RunConserves(Next(s, steps[0]), steps[1..], s');
    }
  }

  /**
   In every run each letter that was ever accepted is in its queue still, or was
   acknowledged by a read, or was in a queue an unsubscribe deleted: once, and
   with nothing made up.
   */
  lemma MailIsConserved(steps: seq<Step>, s: Sys, e: string, m: Mail)
    requires Run(START, steps, s)
    ensures s.accepted[Letter(e, m)]
         == s.taken[Letter(e, m)] + s.destroyed[Letter(e, m)] + multiset(Mailbox(s.w, e))[m]
  {
    RunConserves(START, steps, s);
  }

  // ---------------------------------------------------------------- nothing is accepted without a row

  /** The steps that can give an endpoint a row. */
  predicate Saves(s: Sys, st: Step, e: string) {
    match st
    case SubscribeRow(d, _) => d == e
    case Enroll(id) => id in s.servers && s.servers[id].endpoint == e
    case _ => false
  }

  ghost predicate NeverSaves(s: Sys, steps: seq<Step>, e: string)
    decreases |steps|
  {
    steps == [] ||
    (Enabled(s, steps[0]) && !Saves(s, steps[0], e) && NeverSaves(Next(s, steps[0]), steps[1..], e))
  }

  /** After a reap, or any other loss of the row, nothing more is accepted until a row is written again. */
  lemma {:induction false} NothingAcceptedWithoutARow(s: Sys, steps: seq<Step>, s': Sys, e: string, m: Mail)
    requires Run(s, steps, s') && NeverSaves(s, steps, e) && e !in s.w.ledger
    ensures e !in s'.w.ledger && s'.accepted[Letter(e, m)] == s.accepted[Letter(e, m)]
    decreases |steps|
  {
    if steps != [] {
      NothingAcceptedWithoutARow(Next(s, steps[0]), steps[1..], s', e, m);
    }
  }

  /** The one branch of send that accepts mail for e: a queue and a row both stand. */
  predicate Accepts(s: Sys, st: Step, e: string) {
    st.Send? && st.to == e && e in s.w.queues && e in s.w.ledger
  }

  ghost predicate NeverAccepts(s: Sys, steps: seq<Step>, e: string)
    decreases |steps|
  {
    steps == [] ||
    (Enabled(s, steps[0]) && !Accepts(s, steps[0], e) && NeverAccepts(Next(s, steps[0]), steps[1..], e))
  }

  lemma StepAccepts(s: Sys, st: Step, e: string)
    requires Enabled(s, st)
    ensures forall m :: s.accepted[Letter(e, m)] <= Next(s, st).accepted[Letter(e, m)]
    ensures Accepts(s, st, e) ==> s.accepted[Letter(e, st.mail)] < Next(s, st).accepted[Letter(e, st.mail)]
    ensures !Accepts(s, st, e) ==> forall m :: s.accepted[Letter(e, m)] == Next(s, st).accepted[Letter(e, m)]
  {
  }

  /** What was accepted only grows, and stays as it is exactly in the runs that never accept. */
  lemma {:induction false} RunAccepts(s: Sys, steps: seq<Step>, s': Sys, e: string)
    requires Run(s, steps, s')
    ensures forall m :: s.accepted[Letter(e, m)] <= s'.accepted[Letter(e, m)]
    ensures (forall m :: s'.accepted[Letter(e, m)] == s.accepted[Letter(e, m)]) <==> NeverAccepts(s, steps, e)
    decreases |steps|
  {
    if steps != [] {
      var s1 := Next(s, steps[0]);
      StepAccepts(s, steps[0], e);
      RunAccepts(s1, steps[1..], s', e);
      if Accepts(s, steps[0], e) {
        var m := steps[0].mail;
        assert s.accepted[Letter(e, m)] < s1.accepted[Letter(e, m)] <= s'.accepted[Letter(e, m)];
      }
    }
  }

  /** With no row at the start and none written, nothing is accepted. */
  lemma {:induction false} NoRowAcceptsNothing(s: Sys, steps: seq<Step>, e: string)
    requires NeverSaves(s, steps, e) && e !in s.w.ledger
    ensures NeverAccepts(s, steps, e)
    decreases |steps|
  {
    if steps != [] {
      NoRowAcceptsNothing(Next(s, steps[0]), steps[1..], e);
    }
  }

  /**
   The mail of an endpoint that is gone once its unsubscribe is done, read or
   destroyed, is exactly the mail accepted before the unsubscribe's first write,
   if and only if no send in the gap found both a row and a queue.
   */
  lemma DestroyedMailIsOlderIff(s: Sys, force: bool, steps: seq<Step>, s1: Sys, e: string)
    requires Unsubscribes(s.w, e, force) && Conserved(s)
    requires Run(Next(s, UnsubscribeRow(e, force)), steps, s1) && Enabled(s1, UnsubscribeQueue(e))
    ensures var s0, s2 := Next(s, UnsubscribeRow(e, force)), Next(s1, UnsubscribeQueue(e));
            && Mailbox(s2.w, e) == []
            && ((forall m :: s2.taken[Letter(e, m)] + s2.destroyed[Letter(e, m)] == s.accepted[Letter(e, m)])
                <==> NeverAccepts(s0, steps, e))
  {
    var s0, s2 := Next(s, UnsubscribeRow(e, force)), Next(s1, UnsubscribeQueue(e));
    StepConserves(s, UnsubscribeRow(e, force));
    RunConserves(s0, steps, s1);
    StepConserves(s1, UnsubscribeQueue(e));
    RunAccepts(s0, steps, s1, e);
    assert forall m :: s2.taken[Letter(e, m)] + s2.destroyed[Letter(e, m)] == s1.accepted[Letter(e, m)];
  }

  /** A gap in which nobody takes the seat is such a gap. */
  lemma UntakenGapDestroysOnlyOlder(s: Sys, force: bool, steps: seq<Step>, s1: Sys, e: string, m: Mail)
    requires Unsubscribes(s.w, e, force) && Conserved(s)
    requires var s0 := Next(s, UnsubscribeRow(e, force)); Run(s0, steps, s1) && NeverSaves(s0, steps, e)
    requires Enabled(s1, UnsubscribeQueue(e))
    ensures var s2 := Next(s1, UnsubscribeQueue(e));
            s2.taken[Letter(e, m)] + s2.destroyed[Letter(e, m)] == s.accepted[Letter(e, m)]
  {
    NoRowAcceptsNothing(Next(s, UnsubscribeRow(e, force)), steps, e);
    DestroyedMailIsOlderIff(s, force, steps, s1, e);
  }

  /**
   With a row written in the gap it is not so: from every state in a gap, a seat
   taken, written to and then hit by the late delete keeps its row and loses its mail.
   */
  lemma AGapCanCostANewSeatItsMail(s: Sys, e: string, p: Process, m: Mail)
    requires e in s.leaving && e !in s.w.ledger && e in s.w.queues
    ensures var s1 := Next(s, SubscribeRow(e, p));
            var s2 := Next(s1, Send(e, m));
            Enabled(s2, UnsubscribeQueue(e)) &&
            var s3 := Next(s2, UnsubscribeQueue(e));
            && s2.accepted == s.accepted + multiset{Letter(e, m)}
            && s3.destroyed[Letter(e, m)] == s.destroyed[Letter(e, m)] + multiset(Mailbox(s.w, e))[m] + 1
            && e in s3.w.ledger && s3.w.ledger[e] == Readable(Row(e, p, s.stamp)) && e !in s3.w.queues
  {
    LettersCount(e, s.w.queues[e] + [m], e, m);
  }

  // ---------------------------------------------------------------- tenure

  ghost predicate TenureInv(s: Sys) {
    && (forall e :: e in s.w.ledger && s.w.ledger[e].Readable? ==> s.w.ledger[e].row.registered < s.stamp)
    && (forall i :: i in s.servers && s.servers[i].own.Some? ==> s.servers[i].own.value.registered < s.stamp)
    && (forall i, j :: i in s.servers && j in s.servers && i != j && s.servers[i].own.Some? && s.servers[j].own.Some? ==>
          s.servers[i].own.value.registered != s.servers[j].own.value.registered)
  }

  lemma EnrollKeepsTenure(s: Sys, id: nat)
    requires id in s.servers && TenureInv(s)
    ensures TenureInv(Next(s, Enroll(id)))
  {
  }

  lemma TenureKept(s: Sys, st: Step)
    requires Enabled(s, st) && TenureInv(s)
    ensures TenureInv(Next(s, st))
  {
    if st.Enroll? {
      EnrollKeepsTenure(s, st.id);
    }
  }

  lemma {:induction false} RunKeepsTenure(s: Sys, steps: seq<Step>, s': Sys)
    requires Run(s, steps, s') && TenureInv(s)
    ensures TenureInv(s')
    decreases |steps|
  {
    if steps != [] {
      TenureKept(s, steps[0]);
      RunKeepsTenure(Next(s, steps[0]), steps[1..], s');
    }
  }

  /** In every run, at most one server's remembered row is the row that stands. */
  lemma AtMostOneHolder(steps: seq<Step>, s: Sys, i: nat, j: nat)
    requires Run(START, steps, s) && i in s.servers && j in s.servers
    requires s.servers[i].endpoint == s.servers[j].endpoint
    requires Holds(s.w, s.servers[i].endpoint, s.servers[i].own) && Holds(s.w, s.servers[j].endpoint, s.servers[j].own)
    ensures i == j
  {
    RunKeepsTenure(START, steps, s);
  }

  /** A step in which server id itself takes the seat or leaves it. */
  predicate Own(st: Step, id: nat) {
    (st.Enroll? || st.Depart?) && st.id == id
  }

  ghost predicate NoneOwn(steps: seq<Step>, id: nat) {
    forall i :: 0 <= i < |steps| ==> !Own(steps[i], id)
  }

  /** Server id remembers a row, and the row that stands, if any, is not it. */
  ghost predicate Stranger(s: Sys, id: nat) {
    id in s.servers && s.servers[id].own.Some? && !Holds(s.w, s.servers[id].endpoint, s.servers[id].own)
  }

  /** A row written now carries a stamp no server remembers, so no step but the server's own makes it the holder again. */
  lemma StepKeepsStranger(s: Sys, st: Step, id: nat)
    requires Enabled(s, st) && TenureInv(s) && Stranger(s, id) && !Own(st, id)
    ensures Stranger(Next(s, st), id) && Next(s, st).servers[id] == s.servers[id]
  {
  }

  lemma {:induction false} RunKeepsStranger(s: Sys, steps: seq<Step>, s': Sys, id: nat)
    requires Run(s, steps, s') && TenureInv(s) && Stranger(s, id) && NoneOwn(steps, id)
    ensures Stranger(s', id) && s'.servers[id] == s.servers[id] && TenureInv(s')
    decreases |steps|
  {
    if steps != [] {
      assert !Own(steps[0], id);
      TenureKept(s, steps[0]);
      StepKeepsStranger(s, steps[0], id);
      assert forall i :: 0 <= i < |steps[1..]| ==> steps[1..][i] == steps[i + 1];
      RunKeepsStranger(Next(s, steps[0]), steps[1..], s', id);
    }
  }

  /** Whatever step removes, damages or replaces the row a server wrote makes the server a stranger to the seat. */
  lemma RowLost(s: Sys, st: Step, id: nat)
    requires Enabled(s, st) && TenureInv(s) && !Own(st, id)
    requires id in s.servers && Holds(s.w, s.servers[id].endpoint, s.servers[id].own)
    requires var e := s.servers[id].endpoint; var w := Next(s, st).w;
             e !in w.ledger || w.ledger[e] != s.w.ledger[e]
    ensures Stranger(Next(s, st), id)
  {
  }

  /**
   Over every run: once the row a server wrote has been removed, damaged or
   replaced, by any step at all, then however long the run goes on, and whoever
   takes the seat, that server's departure changes no row, no queue and no mail,
   and starts no unsubscribe.
   */
  lemma DepartingStrangerIsHarmless(before: seq<Step>, s: Sys, st: Step, after: seq<Step>, s': Sys, id: nat)
    requires Run(START, before, s) && id in s.servers && Holds(s.w, s.servers[id].endpoint, s.servers[id].own)
    requires Enabled(s, st) && !Own(st, id)
    requires var e := s.servers[id].endpoint; var w := Next(s, st).w;
             e !in w.ledger || w.ledger[e] != s.w.ledger[e]
    requires Run(Next(s, st), after, s') && NoneOwn(after, id)
    ensures Enabled(s', Depart(id)) && s'.servers[id] == s.servers[id]
    ensures var left := Next(s', Depart(id));
            && left.w == s'.w && left.leaving == s'.leaving
            && left.accepted == s'.accepted && left.taken == s'.taken && left.destroyed == s'.destroyed
  {
    RunKeepsTenure(START, before, s);
    TenureKept(s, st);
    RowLost(s, st, id);
    RunKeepsStranger(Next(s, st), after, s', id);
  }

  /** The ways a live process's row can stop standing. */
  predicate MayEnd(s: Sys, st: Step, e: string, row: Row) {
    match st
    case UnsubscribeRow(d, force) => d == e && force
    case Displace(id) => id in s.servers && s.servers[id].endpoint == e && s.servers[id].runtime.pid == row.process.pid
    case Depart(id) => id in s.servers && s.servers[id].endpoint == e && s.servers[id].own == Some(TenureOf(row))
    case Garbled(d) => d == e
    case _ => false
  }

  lemma StepKeepsLiveRow(s: Sys, st: Step, e: string)
    requires Enabled(s, st) && LiveRow(s.w, e) && !MayEnd(s, st, e, s.w.ledger[e].row)
    ensures e in Next(s, st).w.ledger && Next(s, st).w.ledger[e] == s.w.ledger[e]
  {
  }

  /** A run in which no step may end the row and its process does not die. */
  ghost predicate Undisturbed(s: Sys, steps: seq<Step>, e: string, row: Row)
    decreases |steps|
  {
    steps == [] ||
    (&& Enabled(s, steps[0]) && !MayEnd(s, steps[0], e, row) && steps[0] != Dies(row.process)
     && Undisturbed(Next(s, steps[0]), steps[1..], e, row))
  }

  /**
   A live process keeps its seat: over any run its row stands until its death, a
   forced unsubscribe, a later server of the same runtime, the departure of the
   server that wrote it, or damage to the file.
   */
  lemma {:induction false} LiveRowStands(s: Sys, steps: seq<Step>, s': Sys, e: string)
    requires LiveRow(s.w, e) && Run(s, steps, s') && Undisturbed(s, steps, e, s.w.ledger[e].row)
    ensures LiveRow(s'.w, e) && s'.w.ledger[e] == s.w.ledger[e]
    decreases |steps|
  {
    if steps != [] {
      StepKeepsLiveRow(s, steps[0], e);
      LiveRowStands(Next(s, steps[0]), steps[1..], s', e);
    }
  }
}
