/**
 The verbs of House and SeatServer as runs of a whole house: what each leaves
 when it goes ahead is what its own writes leave, with the beats that land between them.
 */
module VerbRuns {
  import opened Basics
  import opened Findings
  import opened Seat
  import opened SeatServer
  import opened SeatRuns
  import C = Codec
  import H = House

  function Sweeps(k: nat): seq<Step> {
    if k == 0 then [] else Sweeps(k - 1) + [Sweep]
  }

  /** The house after k beats. */
  function Landed(s: Sys, k: nat): Sys {
    s.(w := Beats(s.w, k))
  }

  lemma {:induction false} RunSnoc(s: Sys, steps: seq<Step>, s1: Sys, st: Step)
    requires Run(s, steps, s1) && Enabled(s1, st)
    ensures Run(s, steps + [st], Next(s1, st))
    decreases |steps|
  {
    if steps == [] {
      assert [st][1..] == [];
      assert steps + [st] == [st];
    } else {
      assert (steps + [st])[1..] == steps[1..] + [st];
      RunSnoc(Next(s, steps[0]), steps[1..], s1, st);
    }
  }

  /** Beats that land behind a run. */
  lemma {:induction false} RunSweeps(s: Sys, steps: seq<Step>, s1: Sys, k: nat)
    requires Run(s, steps, s1)
    ensures Run(s, steps + Sweeps(k), Landed(s1, k))
  {
    if k == 0 {
      assert steps + [] == steps;
      assert Landed(s1, 0) == s1;
    } else {
      RunSweeps(s, steps, s1, k - 1);
      RunSnoc(s, steps + Sweeps(k - 1), Landed(s1, k - 1), Sweep);
      assert steps + Sweeps(k - 1) + [Sweep] == steps + Sweeps(k);
    }
  }

  /** One write behind a run, and the beats that land after it. */
  lemma RunWrite(s: Sys, steps: seq<Step>, s1: Sys, st: Step, k: nat)
    requires Run(s, steps, s1) && Enabled(s1, st)
    ensures Run(s, steps + [st] + Sweeps(k), Landed(Next(s1, st), k))
  {
    RunSnoc(s, steps, s1, st);
    RunSweeps(s, steps + [st], Next(s1, st), k);
  }

  /** A verb's first write, any number of beats, and its second write. */
  lemma TwoWritesRun(s: Sys, first: Step, k: nat, second: Step)
    requires Enabled(s, first) && Enabled(Landed(Next(s, first), k), second)
    ensures Run(s, [first] + Sweeps(k), Landed(Next(s, first), k))
    ensures Run(s, [first] + Sweeps(k) + [second], Next(Landed(Next(s, first), k), second))
  {
    RunWrite(s, [], s, first, k);
    assert [] + [first] == [first];
    RunSnoc(s, [first] + Sweeps(k), Landed(Next(s, first), k), second);
  }

  /** What House.Subscribe leaves of a seat with no row: finished, or with the medium lost in its gap. */
  lemma SubscribeIsARun(s: Sys, e: string, p: Process, k: nat)
    requires e !in s.w.ledger
    ensures var gap := Beats(Save(s.w, Row(e, p, s.stamp)), k);
            && Run(s, [SubscribeRow(e, p)] + Sweeps(k), s.(w := gap, stamp := s.stamp + 1))
            && Run(s, [SubscribeRow(e, p)] + Sweeps(k) + [SubscribeQueue(e)],
                   s.(w := CreateQueue(gap, e), stamp := s.stamp + 1))
  {
    var first, second := SubscribeRow(e, p), SubscribeQueue(e);
    TwoWritesRun(s, first, k, second);
    SubscribeLeaves(s, e, p, k);
  }

  lemma SubscribeLeaves(s: Sys, e: string, p: Process, k: nat)
    requires e !in s.w.ledger
    ensures var gap := Beats(Save(s.w, Row(e, p, s.stamp)), k);
            var s1 := Landed(Next(s, SubscribeRow(e, p)), k);
            && s1 == s.(w := gap, stamp := s.stamp + 1)
            && Next(s1, SubscribeQueue(e)) == s.(w := CreateQueue(gap, e), stamp := s.stamp + 1)
  {
  }

  /** The house once e's row went in a first write, its queue in a second, and k beats landed between. */
  function Unsubscribed(s: Sys, e: string, k: nat): Sys {
    s.(w := DeleteQueue(Beats(Remove(s.w, e), k), e), destroyed := s.destroyed + Letters(e, Mailbox(s.w, e)))
  }

  /** What House.Unsubscribe leaves of the seats it goes ahead on. */
  lemma UnsubscribeIsARun(s: Sys, e: string, force: bool, k: nat)
    requires Unsubscribes(s.w, e, force)
    ensures Run(s, [UnsubscribeRow(e, force)] + Sweeps(k) + [UnsubscribeQueue(e)], Unsubscribed(s, e, k))
  {
    TwoWritesRun(s, UnsubscribeRow(e, force), k, UnsubscribeQueue(e));
    DeleteLeaves(s, s, e, k);
  }

  /** The delete, made of a house whose row for e went k beats ago. */
  lemma DeleteLeaves(s: Sys, v: Sys, e: string, k: nat)
    requires v == s.(servers := v.servers)
    ensures var s1 := Landed(v.(w := Remove(v.w, e), leaving := v.leaving + multiset{e}), k);
            Next(s1, UnsubscribeQueue(e)) == Unsubscribed(s, e, k).(servers := v.servers)
  {
    BeatsKeepAbsence(Remove(s.w, e), k, e);
    assert v.leaving + multiset{e} - multiset{e} == v.leaving;
  }

  /** What SeatServer.Server.Depart leaves when it departs from its own row. */
  lemma DepartIsARun(s: Sys, id: nat, k: nat)
    requires id in s.servers && Holds(s.w, s.servers[id].endpoint, s.servers[id].own)
    ensures var e := s.servers[id].endpoint;
            Run(s, [Depart(id)] + Sweeps(k) + [UnsubscribeQueue(e)],
                Unsubscribed(s, e, k).(servers := s.servers - {id}))
  {
    var e := s.servers[id].endpoint;
    TwoWritesRun(s, Depart(id), k, UnsubscribeQueue(e));
    DeleteLeaves(s, s.(servers := s.servers - {id}), e, k);
  }

  /** The house once server id took a clear seat, with beats before the row and behind it. */
  function Registered(s: Sys, id: nat, before: nat, k: nat): Sys
    requires id in s.servers
  {
    var v := s.servers[id];
    var row := Row(v.endpoint, v.runtime, s.stamp);
    var free := Beats(Remove(s.w, v.endpoint), before);
    s.(w := CreateQueue(Beats(Save(free, row), k), v.endpoint), stamp := s.stamp + 1,
       servers := s.servers[id := v.(own := Some(TenureOf(row)))])
  }

  lemma RegisterLeaves(s: Sys, id: nat, before: nat, k: nat)
    requires id in s.servers && Clears(s.w, s.servers[id])
    ensures var s1 := Landed(Next(s, Displace(id)), before);
            Enabled(s1, Enroll(id)) &&
            Next(Landed(Next(s1, Enroll(id)), k), SubscribeQueue(s.servers[id].endpoint)) == Registered(s, id, before, k)
  {
    BeatsKeepAbsence(Remove(s.w, s.servers[id].endpoint), before, s.servers[id].endpoint);
  }

  /** What SeatServer.Server.Register leaves of a seat that is clear, when it finishes. */
  lemma RegisterIsARun(s: Sys, id: nat, before: nat, k: nat)
    requires id in s.servers && Clears(s.w, s.servers[id])
    ensures var last := SubscribeQueue(s.servers[id].endpoint);
            Run(s, [Displace(id)] + Sweeps(before) + [Enroll(id)] + Sweeps(k) + [last], Registered(s, id, before, k))
  {
    var last := SubscribeQueue(s.servers[id].endpoint);
    var s1 := Landed(Next(s, Displace(id)), before);
    RegisterLeaves(s, id, before, k);
    RunWrite(s, [], s, Displace(id), before);
    assert [] + [Displace(id)] == [Displace(id)];
    var first := [Displace(id)] + Sweeps(before);
    RunWrite(s, first, s1, Enroll(id), k);
    RunSnoc(s, first + [Enroll(id)] + Sweeps(k), Landed(Next(s1, Enroll(id)), k), last);
  }

  // ---------------------------------------------------------------- the verbs themselves

  /** A send that the medium answers and stores is the send of the runs: what it accepts, and where it goes. */
  method SendIsAStep(h: H.House, s: Sys, d: H.Draft, at: nat) returns (accepted: bool)
    requires h.State() == s.w && d.from.Some? && |d.body| <= 4000 && C.ValidEndpoint(d.to)
    modifies h`queues, h`record
    ensures h.State() == Next(s, Send(d.to, d.mail)).w
    ensures Next(s, Send(d.to, d.mail)).accepted ==
            if accepted then s.accepted + multiset{Letter(d.to, d.mail)} else s.accepted
  {
    ghost var reason;
    accepted, reason := h.Send(d, true, true, H.Stored, at);
  }

  /** A subscribe the medium answers, on a seat with no row, is its run. */
  method SubscribeRuns(h: H.House, s: Sys, e: string, p: Process, k: nat) returns (ghost s': Sys)
    requires h.Valid() && h.State() == s.w && e !in s.w.ledger
    modifies h`ledger, h`queues, h`pidFiles
    ensures Run(s, [SubscribeRow(e, p)] + Sweeps(k) + [SubscribeQueue(e)], s') && h.State() == s'.w
  {
    SubscribeIsARun(s, e, p, k);
    s' := s.(w := CreateQueue(Beats(Save(s.w, Row(e, p, s.stamp)), k), e), stamp := s.stamp + 1);
    var r := h.Subscribe(e, p, s.stamp, k, true);
  }

  /** An unsubscribe the medium answers, of a seat it goes ahead on, is its run. */
  method UnsubscribeRuns(h: H.House, s: Sys, e: string, expiry: bool, force: bool, at: nat, k: nat) returns (ghost s': Sys)
    requires h.Valid() && h.State() == s.w && Unsubscribes(s.w, e, force)
    modifies h`ledger, h`queues, h`pidFiles, h`record
    ensures Run(s, [UnsubscribeRow(e, force)] + Sweeps(k) + [UnsubscribeQueue(e)], s') && h.State() == s'.w
  {
    UnsubscribeIsARun(s, e, force, k);
    s' := Unsubscribed(s, e, k);
    var r := h.Unsubscribe(e, expiry, force, at, k, true);
  }
}
