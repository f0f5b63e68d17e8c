/**
 The destructive read. A message is fetched, shown, and only then acknowledged,
 which deletes it; whatever was handed over and not taken goes back when the
 provider closes. Writes, acknowledgements and fetches may fail, and a stop
 signal may land, at any point: each is a parameter of the turn it befalls.
 */
module Reading {
  import opened Basics
  import opened Events

  /** uid is None for a payload that is not an envelope. */
  datatype Msg = Msg(id: nat, uid: Option<string>)

  datatype Fetched = Got(m: Msg) | Dry | Denied

  /**
   What befalls one turn: its fetch is refused, or late, or loses what was
   delivered; a signal is up before the message is shown; its write and its
   acknowledgement succeed or fail, the failed one deleting or not; at is the
   clock of its read line.
   */
  datatype Luck = Luck(refused: bool, late: bool, lost: bool, signalled: bool,
                       written: bool, acked: bool, deleted: bool, at: nat)

  /** The fetch of turn n hands over a message. */
  predicate Arrives(l: Luck, n: nat, len: nat) {
    n < len && !l.refused && !l.late && !l.lost
  }

  /** Nothing goes wrong in the turn. */
  predicate Smooth(l: Luck) {
    !l.refused && !l.late && !l.lost && !l.signalled && l.written && l.acked
  }

  datatype Ending = Done | Signalled | WriteFailed | AckFailed | FetchFailed

  /** What is kept of s, in order, without one message. */
  function Minus(s: seq<Msg>, m: Msg): seq<Msg> {
    Filter(s, (x: Msg) => x != m)
  }

  lemma MinusMembers(s: seq<Msg>, m: Msg)
    ensures forall x :: x in Minus(s, m) <==> x in s && x != m
  {
    FilterMembers(s, (x: Msg) => x != m);
  }

  lemma {:induction false} MinusAbsent(s: seq<Msg>, m: Msg)
    requires m !in s
    ensures Minus(s, m) == s
  {
    if s != [] {
      MinusAbsent(s[..|s| - 1], m);
      assert s == s[..|s| - 1] + [s[|s| - 1]];
    }
  }

  /** The provider's fields as one value. */
  datatype Desk = Desk(mail: seq<Msg>, handed: nat, store: seq<Msg>, inFlight: set<Msg>, unacked: seq<Msg>)

  ghost predicate DeskOk(d: Desk) {
    var ahead := |d.mail| - d.handed;
    && Distinct(d.mail) && d.handed <= |d.mail|
    && ahead <= |d.store| && d.store[|d.store| - ahead..] == d.mail[d.handed..]
    && (forall m :: m in d.store[..|d.store| - ahead] ==> m in d.mail[..d.handed] && m in d.inFlight)
    && (forall m :: m in d.inFlight ==> m in d.mail[..d.handed])
    && Distinct(d.unacked) && (forall m :: m in d.unacked ==> m in d.mail[..d.handed])
  }

  /** In the store what was delivered comes first, and what is next to deliver right behind it. */
  lemma InFlightFirst(d: Desk)
    requires DeskOk(d)
    ensures var base := |d.store| - (|d.mail| - d.handed);
            && (forall j :: 0 <= j < base ==> d.store[j] in d.inFlight)
            && (base < |d.store| ==>
                  d.handed < |d.mail| && d.store[base] == d.mail[d.handed]
                  && d.mail[d.handed] !in d.mail[..d.handed] && d.mail[d.handed] !in d.inFlight)
  {
    var base := |d.store| - (|d.mail| - d.handed);
    forall j | 0 <= j < base
      ensures d.store[j] in d.inFlight
    {
      assert d.store[j] in d.store[..base];
    }
    if base < |d.store| {
      assert d.store[base] == d.store[base..][0] == d.mail[d.handed..][0];
    }
  }

  lemma DeliverKeeps(d: Desk)
    requires DeskOk(d) && d.handed < |d.mail|
    ensures DeskOk(d.(handed := d.handed + 1, inFlight := d.inFlight + {d.mail[d.handed]}))
  {
    InFlightFirst(d);
    var base := |d.store| - (|d.mail| - d.handed);
    assert d.mail[..d.handed + 1] == d.mail[..d.handed] + [d.mail[d.handed]];
    assert d.store[..base + 1] == d.store[..base] + [d.store[base]];
    assert d.store[base + 1..] == d.store[base..][1..] && d.mail[d.handed + 1..] == d.mail[d.handed..][1..];
  }

  /** Taking a delivered message out of the store leaves what is still to be delivered. */
  lemma MinusDelivered(d: Desk, m: Msg)
    requires DeskOk(d) && m in d.mail[..d.handed]
    ensures var base := |d.store| - (|d.mail| - d.handed);
            Minus(d.store, m) == Minus(d.store[..base], m) + d.mail[d.handed..]
  {
    var base := |d.store| - (|d.mail| - d.handed);
    var head, tail := d.store[..base], d.mail[d.handed..];
    assert d.store == head + tail;
    assert m !in tail;
    FilterConcat(head, tail, (x: Msg) => x != m);
    MinusAbsent(tail, m);
  }

  lemma DeleteKeeps(d: Desk, m: Msg)
    requires DeskOk(d) && m in d.mail[..d.handed]
    ensures DeskOk(d.(store := Minus(d.store, m), inFlight := d.inFlight - {m}))
  {
    var head, tail := d.store[..|d.store| - (|d.mail| - d.handed)], d.mail[d.handed..];
    var kept := Minus(head, m);
    MinusDelivered(d, m);
    MinusMembers(head, m);
    assert (kept + tail)[|kept|..] == tail && (kept + tail)[..|kept|] == kept;
  }

  /** The provider's half: the broker's store and in-flight set, and the client's own unacked list. */
  class Provider {
    ghost const mail: seq<Msg>    // the queue's mail in order, what arrives during the read included
    ghost var handed: nat         // how much of it has been delivered

    var store: seq<Msg>           // what the broker still holds
    var inFlight: set<Msg>        // delivered, and not to be delivered again
    var unacked: seq<Msg>         // handed to the reader and not taken

    ghost function State(): Desk
      reads this
    {
      Desk(mail, handed, store, inFlight, unacked)
    }

    ghost predicate Valid()
      reads this
    {
      DeskOk(State())
    }

    constructor (mail: seq<Msg>)
      requires Distinct(mail)
      ensures Valid() && this.mail == mail && handed == 0
      ensures store == mail && inFlight == {} && unacked == []
    {
      this.mail, this.handed := mail, 0;
      store, inFlight, unacked := mail, {}, [];
    }

    /** The broker delivers its first message that is not in flight, unless it is late. */
    method Deliver(late: bool) returns (r: Option<Msg>)
      requires Valid()
      modifies this`inFlight, this`handed
      ensures Valid()
      ensures r.Some? ==>
                && old(handed) < |mail| && handed == old(handed) + 1 && r.value == mail[old(handed)]
                && inFlight == old(inFlight) + {r.value} && r.value !in mail[..old(handed)]
      ensures r.None? ==> handed == old(handed) && inFlight == old(inFlight)
      ensures r.Some? <==> !late && old(handed) < |mail|
    {
      var i := 0;
      ghost var base := |store| - (|mail| - handed);
      InFlightFirst(State());
      while i < |store| && store[i] in inFlight
        invariant 0 <= i <= base
      {
        i := i + 1;
      }
      if i == |store| || late {
        return None;
      }
      DeliverKeeps(State());
      inFlight := inFlight + {store[i]};
      handed := handed + 1;
      return Some(store[i]);
    }

    /** Takes at most one message off the cursor. A timeout may strand a delivered message; a miss of any kind is dry. */
    method FetchOne(l: Luck) returns (r: Fetched)
      requires Valid()
      modifies this`inFlight, this`unacked, this`handed
      ensures Valid()
      ensures r.Got? ==>
                && old(handed) < |mail| && handed == old(handed) + 1 && r.m == mail[old(handed)]
                && unacked == old(unacked) + [r.m] && inFlight == old(inFlight) + {r.m}
      ensures !r.Got? ==>
                && unacked == old(unacked)
                && ((handed == old(handed) && inFlight == old(inFlight))
                    || (handed == old(handed) + 1 && handed <= |mail|
                        && inFlight == old(inFlight) + {mail[old(handed)]}))
      ensures r.Denied? <==> l.refused
      ensures r.Got? <==> Arrives(l, old(handed), |mail|)
    {
      if l.refused {
        return Denied;
      }
      var d := Deliver(l.late);
      if d.None? || l.lost {
        return Dry;
      }
      unacked := unacked + [d.value];
      return Got(d.value);
    }

    /** Drops a message from the outstanding list, because it has been taken. */
    method Taken(m: Msg)
      requires Distinct(unacked)
      modifies this`unacked
      ensures Distinct(unacked) && forall x :: x in unacked <==> x in old(unacked) && x != m
    {
      for i := 0 to |unacked|
        invariant unacked == old(unacked)
        invariant m !in unacked[..i]
      {
        if unacked[i] == m {
          unacked := unacked[..i] + unacked[i + 1..];
          return;
        }
      }
      assert unacked[..|unacked|] == unacked;
    }

    /** The acknowledgement deletes. When it fails the broker may have deleted or not, and the message stays outstanding. */
    method Ack(m: Msg, l: Luck) returns (ok: bool)
      requires Valid() && m in mail[..handed] && m in unacked && m in store
      modifies this`store, this`inFlight, this`unacked
      ensures Valid() && handed == old(handed)
      ensures store == old(store) || store == Minus(old(store), m)
      ensures ok ==> store == Minus(old(store), m)
      ensures inFlight == if store == old(store) && m in old(store) then old(inFlight) else old(inFlight) - {m}
      ensures forall x :: x in unacked <==> x in old(unacked) && (!ok || x != m)
      ensures !ok ==> unacked == old(unacked)
      ensures ok == l.acked
    {
      ok := l.acked;
      if ok || l.deleted {
        Delete(m);
      }
      if ok {
        Taken(m);
      }
    }

    /** The broker forgets one delivered message. */
    method Delete(m: Msg)
      requires Valid() && m in mail[..handed]
      modifies this`store, this`inFlight
      ensures Valid() && store == Minus(old(store), m) && inFlight == old(inFlight) - {m}
    {
      DeleteKeeps(State(), m);
      store := Minus(store, m);
      inFlight := inFlight - {m};
    }

    /** Close puts back everything the reader was handed and never took. */
    method ReturnUnacked()
      modifies this`inFlight, this`unacked
      ensures unacked == []
      ensures inFlight == old(inFlight) - Elems(old(unacked))
    {
      for i := 0 to |unacked|
        invariant unacked == old(unacked)
        invariant inFlight == old(inFlight) - Elems(unacked[..i])
      {
        assert unacked[..i + 1] == unacked[..i] + [unacked[i]];
        inFlight := inFlight - {unacked[i]};
      }
      assert unacked[..|unacked|] == unacked;
      unacked := [];
    }
  }

  // ---------------------------------------------------------------- the read

  /** The record of the messages taken is one read line for each that is an envelope, in order, and no other. */
  ghost predicate Recorded(record: seq<Event>, taken: seq<Msg>, me: string) {
    if taken == [] then record == []
    else
      var last, front := taken[|taken| - 1], taken[..|taken| - 1];
      if last.uid.None? then Recorded(record, front, me)
      else
        && record != [] && Recorded(record[..|record| - 1], front, me)
        && record[|record| - 1].ts.Some?
        && record[|record| - 1] == ReadLine(last.uid.value, me, record[|record| - 1].ts.value)
  }

  /** Between two messages: the store is everything after the first n. */
  ghost predicate Level(d: Desk, n: nat) {
    n <= |d.mail| && d.store == d.mail[n..]
  }

  lemma MinusHead(mail: seq<Msg>, n: nat)
    requires Distinct(mail) && n < |mail|
    ensures Minus(mail[n..], mail[n]) == mail[n + 1..]
  {
    assert mail[n..] == [mail[n]] + mail[n + 1..];
    FilterConcat([mail[n]], mail[n + 1..], (x: Msg) => x != mail[n]);
    assert [mail[n]][..0] == [];
    MinusAbsent(mail[n + 1..], mail[n]);
  }

  datatype Turn = Stopped | NotShown | NotAcked | Took

  /** How far a turn gets with the message it was handed. */
  function TurnOf(l: Luck): Turn {
    if l.signalled then Stopped else if !l.written then NotShown else if !l.acked then NotAcked else Took
  }

  /** Between two messages, with nothing handed over. */
  ghost predicate Clear(d: Desk, n: nat) {
    Level(d, n) && d.handed == n && d.unacked == [] && d.inFlight == {}
  }

  /** At the top of the loop: n messages shown and taken, and cur is the next of them or a miss. */
  ghost predicate Between(d: Desk, cur: Fetched, n: nat) {
    && Level(d, n)
    && (if cur.Got? then Outstanding(d, n) && cur.m == d.mail[n]
        else n <= d.handed <= |d.mail| && d.handed <= n + 1 && d.unacked == []
             && d.inFlight == Elems(d.mail[n..d.handed]))
  }

  /** The message after the first n has been handed over and is the only one outstanding. */
  ghost predicate Outstanding(d: Desk, n: nat) {
    d.handed == n + 1 <= |d.mail| && d.unacked == [d.mail[n]] && d.inFlight == {d.mail[n]}
  }

  /**
   What any ending of a read leaves. Shown is a prefix of the queue, taken is all
   of it or all but the last, what was not taken is still in the store (save one
   whose failed acknowledgement reached the broker after it was shown), and only
   the last message delivered can be in flight or outstanding.
   */
  ghost predicate Loss(d: Desk, end: Ending, shown: nat, taken: nat) {
    && taken <= shown <= taken + 1 && shown <= |d.mail|
    && (end == Done ==> taken == shown)
    && (d.store == d.mail[taken..] || d.store == d.mail[shown..])
    && taken <= d.handed <= |d.mail| && d.handed <= taken + 1 && d.inFlight <= Elems(d.mail[taken..d.handed])
    && (d.unacked == [] || (d.handed == taken + 1 && d.unacked == [d.mail[taken]]))
    && (shown > taken ==> d.unacked != [])
  }

  /** With the next message handed over, or nothing, the provider's own invariant holds. */
  lemma OutstandingHolds(d: Desk, n: nat)
    requires Distinct(d.mail) && Level(d, n) && Outstanding(d, n)
    ensures DeskOk(d)
  {
    assert d.store[1..] == d.mail[n + 1..];
    assert d.store[..1] == [d.mail[n]];
    assert d.mail[..n + 1] == d.mail[..n] + [d.mail[n]];
  }

  lemma ClearHolds(d: Desk, n: nat)
    requires Distinct(d.mail) && Clear(d, n)
    ensures DeskOk(d)
  {
    assert d.store[0..] == d.mail[n..];
    assert d.store[..0] == [];
  }

  lemma NoneIn(s: seq<Msg>)
    ensures (forall m :: m !in s) ==> s == []
  {
    if s != [] {
      assert s[0] in s;
    }
  }

  /** One message: the signal is heeded above the write, the write is above the ack. */
  method ShowThenAck(p: Provider, ghost n: nat, m: Msg, l: Luck) returns (turn: Turn)
    requires Distinct(p.mail) && Level(p.State(), n) && Outstanding(p.State(), n) && m == p.mail[n]
    modifies p`store, p`inFlight, p`unacked
    ensures turn.Stopped? || turn.NotShown? ==> Loss(p.State(), Signalled, n, n) && Loss(p.State(), WriteFailed, n, n)
    ensures turn.NotAcked? ==> Loss(p.State(), AckFailed, n + 1, n)
    ensures turn.Took? ==> Clear(p.State(), n + 1)
    ensures turn == TurnOf(l)
  {
    assert p.mail[n..][0] == m && p.mail[..n + 1] == p.mail[..n] + [m] && p.mail[n..n + 1] == [m];
    if l.signalled {
      return Stopped;
    }
    if !l.written {
      return NotShown;
    }
    OutstandingHolds(p.State(), n);
    MinusHead(p.mail, n);
    var ok := p.Ack(m, l);
    if !ok {
      return NotAcked;
    }
    NoneIn(p.unacked);
    return Took;
  }

  /** The read line of a message that was taken; a payload that is no envelope leaves none. */
  method Note(record: seq<Event>, ghost taken: seq<Msg>, m: Msg, me: string, at: nat) returns (r: seq<Event>)
    requires Recorded(record, taken, me)
    ensures Recorded(r, taken + [m], me)
  {
    assert (taken + [m])[..|taken|] == taken;
    if m.uid.None? {
      return record;
    }
    r := record + [ReadLine(m.uid.value, me, at)];
    assert r[..|r| - 1] == record;
  }

  lemma MissLoss(d: Desk, cur: Fetched, n: nat, end: Ending)
    requires Between(d, cur, n)
    ensures Loss(d, end, n, n)
  {
    if cur.Got? {
      assert d.mail[n..d.handed] == [d.mail[n]];
    }
  }

  /** The next message, or a miss: the loop is at its top again. */
  method NextMessage(p: Provider, ghost n: nat, l: Luck) returns (cur: Fetched)
    requires Distinct(p.mail) && Clear(p.State(), n)
    modifies p`inFlight, p`unacked, p`handed
    ensures Between(p.State(), cur, n)
    ensures (cur.Denied? <==> l.refused) && (cur.Got? <==> Arrives(l, n, |p.mail|))
  {
    assert p.mail[n..n] == [];
    ClearHolds(p.State(), n);
    cur := p.FetchOne(l);
    if p.handed == n + 1 {
      assert p.mail[n..p.handed] == [p.mail[n]];
    }
  }

  function EndOf(turn: Turn): Ending {
    match turn
    case Stopped => Signalled
    case NotShown => WriteFailed
    case NotAcked => AckFailed
    case Took => Done
  }

  /** Turn n is where the read ended, and why: no other ending fits what befell it. */
  ghost predicate Caused(end: Ending, f: nat -> Luck, n: nat, len: nat) {
    match end
    case Done => !f(n).refused && !Arrives(f(n), n, len)
    case FetchFailed => f(n).refused
    case Signalled => Arrives(f(n), n, len) && f(n).signalled
    case WriteFailed => Arrives(f(n), n, len) && !f(n).signalled && !f(n).written
    case AckFailed => Arrives(f(n), n, len) && !f(n).signalled && f(n).written && !f(n).acked
  }

  ghost predicate SmoothUpTo(f: nat -> Luck, n: nat) {
    forall k: nat :: k < n ==> Smooth(f(k))
  }

  /** The top of the loop, with shown and taken and their read lines behind it. */
  ghost predicate Top(d: Desk, cur: Fetched, shown: seq<Msg>, record: seq<Event>, me: string, f: nat -> Luck) {
    var n := |shown|;
    && n <= |d.mail| && shown == d.mail[..n]
    && Between(d, cur, n) && Recorded(record, shown, me)
    && (cur.Denied? <==> f(n).refused) && (cur.Got? <==> Arrives(f(n), n, |d.mail|))
    && SmoothUpTo(f, n)
  }

  /** The end of the loop. */
  ghost predicate Over(d: Desk, end: Ending, shown: seq<Msg>, taken: seq<Msg>, record: seq<Event>, me: string,
                       f: nat -> Luck)
  {
    && Loss(d, end, |shown|, |taken|) && Recorded(record, taken, me)
    && shown == d.mail[..|shown|] && taken == d.mail[..|taken|]
    && SmoothUpTo(f, |taken|) && Caused(end, f, |taken|, |d.mail|)
  }

  /** A miss ends the loop: refused, or dry. */
  lemma MissIsOver(d: Desk, cur: Fetched, shown: seq<Msg>, record: seq<Event>, me: string, f: nat -> Luck)
    requires Top(d, cur, shown, record, me, f) && !cur.Got?
    ensures Over(d, if cur.Denied? then FetchFailed else Done, shown, shown, record, me, f)
  {
    MissLoss(d, cur, |shown|, if cur.Denied? then FetchFailed else Done);
  }

  /** A turn that stops short of its acknowledgement ends the loop. */
  lemma ShortTurnIsOver(d: Desk, n: nat, turn: Turn, record: seq<Event>, me: string, f: nat -> Luck)
    requires n < |d.mail| && Recorded(record, d.mail[..n], me) && SmoothUpTo(f, n)
    requires Arrives(f(n), n, |d.mail|) && turn == TurnOf(f(n)) && !turn.Took?
    requires Loss(d, EndOf(turn), n + if turn.NotAcked? then 1 else 0, n)
    ensures Over(d, EndOf(turn), d.mail[..n + if turn.NotAcked? then 1 else 0], d.mail[..n], record, me, f)
  {
  }

  /** A turn that took its message, and the fetch behind it, is at the top again. */
  lemma TookIsTop(d: Desk, n: nat, next: Fetched, record: seq<Event>, me: string, f: nat -> Luck)
    requires n < |d.mail| && Recorded(record, d.mail[..n] + [d.mail[n]], me) && SmoothUpTo(f, n)
    requires Arrives(f(n), n, |d.mail|) && TurnOf(f(n)) == Took && Between(d, next, n + 1)
    requires (next.Denied? <==> f(n + 1).refused) && (next.Got? <==> Arrives(f(n + 1), n + 1, |d.mail|))
    ensures Top(d, next, d.mail[..n + 1], record, me, f)
  {
    assert d.mail[..n + 1] == d.mail[..n] + [d.mail[n]];
    assert Smooth(f(n));
  }

  /** One turn of the loop: show, ack, record, and fetch the next. */
  method TakeOne(p: Provider, cur: Fetched, was: seq<Msg>, before: seq<Event>, me: string, f: nat -> Luck)
    returns (end: Option<Ending>, next: Fetched, shown: seq<Msg>, record: seq<Event>)
    requires Distinct(p.mail) && Top(p.State(), cur, was, before, me, f) && cur.Got?
    modifies p`store, p`inFlight, p`unacked, p`handed
    ensures end.None? ==> Top(p.State(), next, shown, record, me, f) && |shown| == |was| + 1
    ensures end.Some? ==> Over(p.State(), end.value, shown, was, record, me, f)
  {
    ghost var n := |was|;
    var m, l := cur.m, f(|was|);
    end, next, shown, record := None, Dry, was, before;
    assert p.mail[..n + 1] == p.mail[..n] + [p.mail[n]];
    var turn := ShowThenAck(p, n, m, l);
    if turn.Stopped? || turn.NotShown? {
      ShortTurnIsOver(p.State(), n, turn, record, me, f);
      return Some(EndOf(turn)), Dry, was, before;
    }
    shown := shown + [m];
    if turn.NotAcked? {
      ShortTurnIsOver(p.State(), n, turn, record, me, f);
      return Some(EndOf(turn)), Dry, shown, before;
    }
    record := Note(record, was, m, me, l.at);
    next := NextMessage(p, n + 1, f(|was| + 1));
    TookIsTop(p.State(), n, next, record, me, f);
  }

  /** Shows and then forgets, in that order, until there is nothing left or something fails. */
  method Drain(p: Provider, first: Fetched, me: string, f: nat -> Luck)
    returns (end: Ending, shown: seq<Msg>, taken: seq<Msg>, record: seq<Event>)
    requires Distinct(p.mail) && Top(p.State(), first, [], [], me, f)
    modifies p`store, p`inFlight, p`unacked, p`handed
    ensures Over(p.State(), end, shown, taken, record, me, f)
  {
    shown, record := [], [];
    var cur := first;
    while cur.Got?
      invariant Top(p.State(), cur, shown, record, me, f)
      decreases |p.mail| - |shown|, cur.Got?
    {
      taken := shown;
      var failed;
      failed, cur, shown, record := TakeOne(p, cur, shown, record, me, f);
      if failed.Some? {
        return failed.value, shown, taken, record;
      }
    }
    MissIsOver(p.State(), cur, shown, record, me, f);
    return if cur.Denied? then FetchFailed else Done, shown, shown, record;
  }

  /** Nothing is lost, nothing shown out of order, and at most one message is left to be shown again. */
  ghost predicate Safe(d: Desk, end: Ending, shown: seq<Msg>, taken: seq<Msg>) {
    && taken <= shown <= d.mail && |shown| <= |taken| + 1 && IsSuffix(d.store, d.mail)
    && (forall m :: m in d.mail ==> m in d.store || m in shown)
    && (forall m :: m in taken ==> m !in d.store)
    && (end == Done ==> taken == shown && d.store == d.mail[|taken|..])
    && (forall m :: m in d.inFlight ==> m !in shown)
    && |d.inFlight| <= 1
  }

  lemma OneAtMost(s: set<Msg>, m: Msg)
    requires s <= {m}
    ensures |s| <= 1
  {
    if s != {} {
      assert s == {m};
    }
  }

  /** What was not taken is owed or was shown, and what was taken is gone. */
  lemma LossCovers(d: Desk, end: Ending, shown: nat, taken: nat)
    requires Distinct(d.mail) && Loss(d, end, shown, taken)
    ensures forall m :: m in d.mail ==> m in d.store || m in d.mail[..shown]
    ensures forall m :: m in d.mail[..taken] ==> m !in d.store
  {
    assert d.mail == d.mail[..shown] + d.mail[shown..];
    assert d.mail[taken..] == d.mail[taken..shown] + d.mail[shown..];
    assert forall m :: m in d.mail[..taken] ==> m in d.mail[..shown];
  }

  /** After the provider's close only a message never shown can still be in flight, and only one. */
  lemma LossReleases(d: Desk, end: Ending, shown: nat, taken: nat, left: set<Msg>)
    requires Distinct(d.mail) && Loss(d, end, shown, taken) && left == d.inFlight - Elems(d.unacked)
    ensures |left| <= 1 && forall m :: m in left ==> m !in d.mail[..shown]
  {
    if d.handed == taken + 1 {
      var last := d.mail[taken];
      assert d.mail[taken..d.handed] == [last];
      OneAtMost(left, last);
      assert shown > taken ==> last in d.unacked;
      assert last !in d.mail[..taken];
      assert shown == taken ==> d.mail[..shown] == d.mail[..taken];
    } else {
      assert d.mail[taken..d.handed] == [];
      assert left == {};
    }
  }

  lemma LossIsSafe(d: Desk, e: Desk, end: Ending, shown: seq<Msg>, taken: seq<Msg>)
    requires Distinct(d.mail) && Loss(d, end, |shown|, |taken|) && e.mail == d.mail && e.store == d.store
    requires e.inFlight == d.inFlight - Elems(d.unacked)
    requires shown == d.mail[..|shown|] && taken == d.mail[..|taken|]
    ensures Safe(e, end, shown, taken)
  {
    LossCovers(d, end, |shown|, |taken|);
    LossReleases(d, end, |shown|, |taken|, e.inFlight);
  }

  /** What befalls a whole read: a signal under the first fetch, the heading's own write, and every turn. */
  datatype Weather = Weather(early: bool, headed: bool, turns: nat -> Luck)

  /** Nothing goes wrong at all. */
  ghost predicate Calm(w: Weather) {
    !w.early && w.headed && forall k: nat :: Smooth(w.turns(k))
  }

  /** Why a read ended where it did, with n messages taken of len. */
  ghost predicate Explained(end: Ending, w: Weather, n: nat, len: nat) {
    if w.turns(0).refused then end == FetchFailed && n == 0
    else if w.early then end == Signalled && n == 0
    else if !w.headed then end == WriteFailed && n == 0
    else SmoothUpTo(w.turns, n) && Caused(end, w.turns, n, len)
  }

  /** The first fetch, the signal check under it, and the heading, which is a write too. */
  method Begin(p: Provider, w: Weather) returns (end: Option<Ending>, first: Fetched)
    requires Distinct(p.mail) && Clear(p.State(), 0)
    modifies p`inFlight, p`unacked, p`handed
    ensures end.None? ==> Top(p.State(), first, [], [], "", w.turns)
    ensures end.Some? ==> Loss(p.State(), end.value, 0, 0) && Explained(end.value, w, 0, |p.mail|)
    ensures end.None? <==> !w.turns(0).refused && !w.early && w.headed
    ensures !first.Denied? || w.turns(0).refused
    ensures first.Got? <==> Arrives(w.turns(0), 0, |p.mail|)
  {
    end := None;
    first := NextMessage(p, 0, w.turns(0));
    if first.Denied? {
      end := Some(FetchFailed);
    } else if w.early {
      end := Some(Signalled);
    } else if !w.headed {
      end := Some(WriteFailed);
    }
    if end.Some? {
      MissLoss(p.State(), first, 0, end.value);
    }
  }

  /** In calm weather a read can only end with everything taken. */
  lemma CalmReadsAll(end: Ending, w: Weather, n: nat, len: nat)
    requires Calm(w) && n <= len && Explained(end, w, n, len)
    ensures end == Done && n == len
  {
    assert Smooth(w.turns(0)) && Smooth(w.turns(n));
  }

  /** One read of the queue, from the first fetch to the provider's close. */
  method ReadQueue(p: Provider, me: string, w: Weather)
    returns (end: Ending, shown: seq<Msg>, taken: seq<Msg>, record: seq<Event>)
    requires Distinct(p.mail) && Clear(p.State(), 0)
    modifies p`store, p`inFlight, p`unacked, p`handed
    ensures Safe(p.State(), end, shown, taken) && p.unacked == []
    ensures Recorded(record, taken, me)
    ensures Explained(end, w, |taken|, |p.mail|)
    ensures Calm(w) ==> end == Done && shown == p.mail && taken == p.mail && p.store == []
  {
    shown, taken, record := [], [], [];
    var early, first := Begin(p, w);
    if early.Some? {
      end := early.value;
    } else {
      end, shown, taken, record := Drain(p, first, me, w.turns);
    }
    ghost var d := p.State();
    p.ReturnUnacked();
    LossIsSafe(d, p.State(), end, shown, taken);
    if Calm(w) {
      CalmReadsAll(end, w, |taken|, |p.mail|);
    }
  }

  /** A peek shows at most the first message, acknowledges nothing, and gives back what it was handed. */
  method Peek(p: Provider, w: Weather, trailed: bool) returns (end: Ending, shown: seq<Msg>)
    requires Distinct(p.mail) && Clear(p.State(), 0)
    modifies p`inFlight, p`unacked, p`handed
    ensures p.store == p.mail && p.unacked == []
    ensures shown <= p.mail && |shown| <= 1 && (shown != [] ==> p.inFlight == {})
    ensures shown != [] <==> Arrives(w.turns(0), 0, |p.mail|) && !w.early && w.headed && w.turns(0).written
    ensures Calm(w) && trailed ==> end == Done && (p.mail != [] ==> shown == [p.mail[0]])
  {
    assert p.mail[0..] == p.mail;
    assert Calm(w) ==> Smooth(w.turns(0));
    shown := [];
    var early, first := Begin(p, w);
    if early.Some? {
      end := early.value;
    } else {
      end := if trailed then Done else WriteFailed;
      if first.Got? && !w.turns(0).written {
        end := WriteFailed;
      } else if first.Got? {
        shown := [first.m];
      }
    }
    p.ReturnUnacked();
  }

  // ---------------------------------------------------------------- many reads

  function Flat(batches: seq<seq<Msg>>): seq<Msg> {
    if batches == [] then [] else Flat(batches[..|batches| - 1]) + batches[|batches| - 1]
  }

  lemma DistinctConcat(a: seq<Msg>, b: seq<Msg>)
    requires Distinct(a) && Distinct(b) && forall m :: m in a ==> m !in b
    ensures Distinct(a + b)
  {
    forall i, j | 0 <= i < j < |a + b|
      ensures (a + b)[i] != (a + b)[j]
    {
      if i < |a| <= j {
        assert a[i] in a && b[j - |a|] in b;
      }
    }
  }

  lemma {:induction false} RecordedConcat(r: seq<Event>, s: seq<Msg>, r': seq<Event>, s': seq<Msg>, me: string)
    requires Recorded(r, s, me) && Recorded(r', s', me)
    ensures Recorded(r + r', s + s', me)
  {
    if s' == [] {
      assert r + r' == r && s + s' == s;
    } else {
      var front, last := s'[..|s'| - 1], s'[|s'| - 1];
      assert (s + s')[..|s + s'| - 1] == s + front;
      if last.uid.None? {
        RecordedConcat(r, s, r', front, me);
      } else {
        RecordedConcat(r, s, r'[..|r'| - 1], front, me);
        assert (r + r')[..|r + r'| - 1] == r + r'[..|r'| - 1];
      }
    }
  }

  /** What any number of reads keeps: nothing sent is lost, and nothing taken is left or was taken twice. */
  ghost predicate Kept(sent: seq<Msg>, left: seq<Msg>, shown: seq<Msg>, taken: seq<Msg>) {
    && Distinct(left) && Distinct(taken)
    && (forall m :: m in left ==> m in sent && m !in taken)
    && (forall m :: m in taken ==> m in sent && m in shown)
    && (forall m :: m in sent ==> m in left || m in shown)
  }

  /** More mail arrives, none of it seen before. */
  lemma ArrivalsKept(sent: seq<Msg>, left: seq<Msg>, shown: seq<Msg>, taken: seq<Msg>, more: seq<Msg>)
    requires Kept(sent, left, shown, taken) && Distinct(sent + more)
    ensures Kept(sent + more, left + more, shown, taken)
  {
    forall m | m in more
      ensures m !in sent
    {
      var j :| 0 <= j < |more| && more[j] == m;
      assert (sent + more)[|sent| + j] == m;
      assert forall i :: 0 <= i < |sent| ==> (sent + more)[i] == sent[i];
    }
    forall i, j | 0 <= i < j < |more|
      ensures more[i] != more[j]
    {
      assert (sent + more)[|sent| + i] == more[i] && (sent + more)[|sent| + j] == more[j];
    }
    DistinctConcat(left, more);
  }

  /** One read of what is left. */
  lemma ReadKept(sent: seq<Msg>, d: Desk, end: Ending, shown: seq<Msg>, taken: seq<Msg>, s: seq<Msg>, t: seq<Msg>)
    requires Kept(sent, d.mail, shown, taken) && Safe(d, end, s, t)
    ensures Kept(sent, d.store, shown + s, taken + t)
  {
    assert forall m :: m in d.store ==> m in d.mail;
    assert forall m :: m in t ==> m in s && m in d.mail;
    DistinctConcat(taken, t);
  }

  /**
   Read after read, with new mail in between and any failures: each message that
   arrived is still in the store or was shown, and is recorded as read at most
   once; and one calm read at the end leaves nothing waiting. What a read left in
   flight has come back before the next.
   */
  method ReadMany(batches: seq<seq<Msg>>, me: string, ws: nat -> Weather)
    returns (left: seq<Msg>, shown: seq<Msg>, taken: seq<Msg>, record: seq<Event>)
    requires forall k :: 0 <= k <= |batches| ==> Distinct(Flat(batches[..k]))
    ensures Kept(Flat(batches), left, shown, taken) && Recorded(record, taken, me)
    ensures batches != [] && Calm(ws(|batches| - 1)) ==> left == []
  {
    left, shown, taken, record := [], [], [], [];
    for k := 0 to |batches|
      invariant Kept(Flat(batches[..k]), left, shown, taken) && Recorded(record, taken, me)
      invariant k > 0 && Calm(ws(k - 1)) ==> left == []
    {
      assert batches[..k + 1][..k] == batches[..k];
      ArrivalsKept(Flat(batches[..k]), left, shown, taken, batches[k]);
      left, shown, taken, record := ReadOnce(Flat(batches[..k + 1]), left + batches[k], shown, taken, record, me, ws(k));
    }
    assert batches[..|batches|] == batches;
  }

  method ReadOnce(ghost sent: seq<Msg>, mail: seq<Msg>, was: seq<Msg>, had: seq<Msg>, before: seq<Event>, me: string,
                  w: Weather)
    returns (left: seq<Msg>, shown: seq<Msg>, taken: seq<Msg>, record: seq<Event>)
    requires Kept(sent, mail, was, had) && Recorded(before, had, me)
    ensures Kept(sent, left, shown, taken) && Recorded(record, taken, me)
    ensures Calm(w) ==> left == []
  {
    var p := new Provider(mail);
    assert mail[0..] == mail;
    var end, s, t, r := ReadQueue(p, me, w);
    ReadKept(sent, p.State(), end, was, had, s, t);
    RecordedConcat(before, had, r, t, me);
    return p.store, was + s, had + t, before + r;
  }
}
