/**
 The transcript: the record joined by message, and the fate of each message. An
 event's position in the record stands for its sequence number.
 */
module Transcript {
  import opened Basics
  import opened Events

  /**
   first is the line the message takes its sender, recipient, body and stamp
   from; events holds the positions of every line that carries its uid.
   */
  datatype Message = Message(uid: string, first: Event, events: seq<nat>)

  /** Stamps order as text does: a line with no stamp is before every other. */
  function Stamp(ts: Option<nat>): int {
    match ts
    case None => -1
    case Some(t) => t
  }

  /** The positions of the events that satisfy p, in log order. */
  function Positions(events: seq<Event>, p: Event -> bool): (r: seq<nat>)
    ensures forall i: nat :: i in r <==> i < |events| && p(events[i])
    ensures forall j, k :: 0 <= j < k < |r| ==> r[j] < r[k]
  {
    if events == [] then []
    else
      var n := |events| - 1;
      var before := Positions(events[..n], p);
      assert forall i: nat :: i in before <==> i < n && p(events[i]);
      assert forall j :: 0 <= j < |before| ==> before[j] in before;
      if p(events[n]) then before + [n] else before
  }

  function WithUid(uid: string): Event -> bool {
    (e: Event) => e.uid == uid
  }

  function OfSeats(): Event -> bool {
    (e: Event) => e.uid == "" && e.seat != ""
  }

  /** A message is its first line and all of its lines. */
  ghost predicate IsMessage(events: seq<Event>, m: Message) {
    && m.uid != ""
    && m.events == Positions(events, WithUid(m.uid))
    && m.events != []
    && m.events[0] in m.events
    && m.first == events[m.events[0]]
  }

  /** Every uid of the record has its one place among the messages. */
  ghost predicate Indexed(events: seq<Event>, msgs: seq<Message>, byUid: map<string, nat>) {
    && (forall i :: 0 <= i < |events| && events[i].uid != "" ==> events[i].uid in byUid)
    && (forall u :: u in byUid ==> byUid[u] < |msgs| && msgs[byUid[u]].uid == u)
    && (forall k :: 0 <= k < |msgs| ==> msgs[k].uid in byUid && byUid[msgs[k].uid] == k)
  }

  /** The messages stand in the order of their first lines. */
  ghost predicate Ordered(msgs: seq<Message>) {
    && (forall k :: 0 <= k < |msgs| ==> msgs[k].events != [])
    && (forall j, k :: 0 <= j < k < |msgs| ==> msgs[j].events[0] < msgs[k].events[0])
  }

  ghost predicate Joined(events: seq<Event>, msgs: seq<Message>, byUid: map<string, nat>, seats: seq<nat>) {
    && (forall k :: 0 <= k < |msgs| ==> IsMessage(events, msgs[k]))
    && Indexed(events, msgs, byUid)
    && Ordered(msgs)
    && seats == Positions(events, OfSeats())
  }

  lemma PositionsSnoc(events: seq<Event>, e: Event, p: Event -> bool)
    ensures Positions(events + [e], p) == Positions(events, p) + if p(e) then [|events|] else []
  {
    assert (events + [e])[..|events|] == events;
  }

  lemma PositionsExtend(events: seq<Event>, more: seq<Event>, p: Event -> bool)
    requires forall e :: e in more ==> !p(e)
    ensures Positions(events + more, p) == Positions(events, p)
    decreases |more|
  {
    if more == [] {
      assert events + more == events;
    } else {
      var init, e := more[..|more| - 1], more[|more| - 1];
      assert events + more == (events + init) + [e];
      PositionsExtend(events, init, p);
      PositionsSnoc(events + init, e, p);
    }
  }

  /** A message with one more line of its own. */
  lemma MessageGrows(events: seq<Event>, e: Event, m: Message)
    requires IsMessage(events, m)
    ensures IsMessage(events + [e], if e.uid == m.uid then m.(events := m.events + [|events|]) else m)
  {
    PositionsSnoc(events, e, WithUid(m.uid));
  }

  lemma MessageOpens(events: seq<Event>, e: Event)
    requires e.uid != "" && forall i :: 0 <= i < |events| ==> events[i].uid != e.uid
    ensures IsMessage(events + [e], Message(e.uid, e, [|events|]))
  {
    PositionsSnoc(events, e, WithUid(e.uid));
    PositionsExtend([], events, WithUid(e.uid));
    assert [] + events == events;
  }

  lemma AllGrow(events: seq<Event>, e: Event, msgs: seq<Message>)
    requires forall k :: 0 <= k < |msgs| ==> IsMessage(events, msgs[k])
    ensures forall k :: 0 <= k < |msgs| && msgs[k].uid != e.uid ==> IsMessage(events + [e], msgs[k])
  {
    forall k | 0 <= k < |msgs| && msgs[k].uid != e.uid
      ensures IsMessage(events + [e], msgs[k])
    {
      MessageGrows(events, e, msgs[k]);
    }
  }

  lemma IndexedGrows(events: seq<Event>, e: Event, msgs: seq<Message>, byUid: map<string, nat>, k: nat, m: Message)
    requires Indexed(events, msgs, byUid) && k < |msgs| && m.uid == msgs[k].uid == e.uid
    ensures Indexed(events + [e], msgs[k := m], byUid)
  {
  }

  lemma IndexedOpens(events: seq<Event>, e: Event, msgs: seq<Message>, byUid: map<string, nat>, m: Message)
    requires Indexed(events, msgs, byUid) && m.uid == e.uid && e.uid !in byUid
    ensures Indexed(events + [e], msgs + [m], byUid[e.uid := |msgs|])
  {
  }

  lemma MessagesGrow(events: seq<Event>, e: Event, msgs: seq<Message>, k: nat)
    requires k < |msgs| && msgs[k].uid == e.uid && Ordered(msgs)
    requires forall j :: 0 <= j < |msgs| ==> IsMessage(events, msgs[j])
    requires forall j :: 0 <= j < |msgs| && j != k ==> msgs[j].uid != e.uid
    ensures var msgs' := msgs[k := msgs[k].(events := msgs[k].events + [|events|])];
            Ordered(msgs') && forall j :: 0 <= j < |msgs'| ==> IsMessage(events + [e], msgs'[j])
  {
    MessageGrows(events, e, msgs[k]);
    AllGrow(events, e, msgs);
  }

  /** A message that opens at the end of the log stands behind every other. */
  lemma OpensLast(events: seq<Event>, msgs: seq<Message>, m: Message)
    requires Ordered(msgs) && m.events == [|events|]
    requires forall j :: 0 <= j < |msgs| ==> IsMessage(events, msgs[j])
    ensures Ordered(msgs + [m])
  {
    forall j | 0 <= j < |msgs|
      ensures msgs[j].events[0] < |events|
    {
      assert msgs[j].events[0] in msgs[j].events;
    }
  }

  lemma MessagesOpen(events: seq<Event>, e: Event, msgs: seq<Message>)
    requires Ordered(msgs) && e.uid != ""
    requires forall i :: 0 <= i < |events| ==> events[i].uid != e.uid
    requires forall j :: 0 <= j < |msgs| ==> IsMessage(events, msgs[j]) && msgs[j].uid != e.uid
    ensures var msgs' := msgs + [Message(e.uid, e, [|events|])];
            Ordered(msgs') && forall j :: 0 <= j < |msgs'| ==> IsMessage(events + [e], msgs'[j])
  {
    MessageOpens(events, e);
    AllGrow(events, e, msgs);
    OpensLast(events, msgs, Message(e.uid, e, [|events|]));
  }

  /** A line of a message already met joins that message. */
  lemma JoinedGrows(events: seq<Event>, e: Event, msgs: seq<Message>, byUid: map<string, nat>, seats: seq<nat>, k: nat)
    requires Joined(events, msgs, byUid, seats) && e.uid in byUid && k == byUid[e.uid] && e.uid != ""
    ensures Joined(events + [e], msgs[k := msgs[k].(events := msgs[k].events + [|events|])], byUid, seats)
  {
    PositionsSnoc(events, e, OfSeats());
    MessagesGrow(events, e, msgs, k);
    IndexedGrows(events, e, msgs, byUid, k, msgs[k].(events := msgs[k].events + [|events|]));
  }

  /** The first line of a message opens it, after every message already met. */
  lemma JoinedOpens(events: seq<Event>, e: Event, msgs: seq<Message>, byUid: map<string, nat>, seats: seq<nat>)
    requires Joined(events, msgs, byUid, seats) && e.uid != "" && e.uid !in byUid
    ensures Joined(events + [e], msgs + [Message(e.uid, e, [|events|])], byUid[e.uid := |msgs|], seats)
  {
    PositionsSnoc(events, e, OfSeats());
    MessagesOpen(events, e, msgs);
    IndexedOpens(events, e, msgs, byUid, Message(e.uid, e, [|events|]));
  }

  /** A line with no uid leaves the messages as they are. */
  lemma JoinedBeside(events: seq<Event>, e: Event, msgs: seq<Message>, byUid: map<string, nat>, seats: seq<nat>)
    requires Joined(events, msgs, byUid, seats) && e.uid == ""
    ensures Joined(events + [e], msgs, byUid, if e.seat != "" then seats + [|events|] else seats)
  {
    AllGrow(events, e, msgs);
    PositionsSnoc(events, e, OfSeats());
    forall k | 0 <= k < |msgs|
      ensures IsMessage(events + [e], msgs[k])
    {
      assert IsMessage(events, msgs[k]);
    }
  }

  /** One line: to its message, opening it if need be, or to the seats' own events. */
  method JoinOne(ghost events: seq<Event>, i: nat, e: Event, msgs: seq<Message>, byUid: map<string, nat>, seats: seq<nat>)
    returns (msgs': seq<Message>, byUid': map<string, nat>, seats': seq<nat>)
    requires Joined(events, msgs, byUid, seats) && i == |events|
    ensures Joined(events + [e], msgs', byUid', seats')
  {
    msgs', byUid', seats' := msgs, byUid, seats;
    if e.uid != "" {
      if e.uid in byUid {
        var k := byUid[e.uid];
        JoinedGrows(events, e, msgs, byUid, seats, k);
        msgs' := msgs[k := msgs[k].(events := msgs[k].events + [i])];
      } else {
        JoinedOpens(events, e, msgs, byUid, seats);
        byUid' := byUid[e.uid := |msgs|];
        msgs' := msgs + [Message(e.uid, e, [i])];
      }
    } else {
      JoinedBeside(events, e, msgs, byUid, seats);
      if e.seat != "" {
        seats' := seats + [i];
      }
    }
  }

  /** Puts each message's events together, and keeps the seat events apart. */
  method Join(events: seq<Event>) returns (msgs: seq<Message>, seats: seq<nat>, ghost index: map<string, nat>)
    ensures Joined(events, msgs, index, seats)
  {
    msgs, seats := [], [];
    var byUid: map<string, nat> := map[];
    for i := 0 to |events|
      invariant Joined(events[..i], msgs, byUid, seats)
    {
      assert events[..i + 1] == events[..i] + [events[i]];
      msgs, byUid, seats := JoinOne(events[..i], i, events[i], msgs, byUid, seats);
    }
    assert events[..|events|] == events;
    index := byUid;
  }

  /** Every line with a uid is a line of exactly one message, once, and each message keeps log order. */
  lemma EachLineInOneMessage(events: seq<Event>, msgs: seq<Message>, byUid: map<string, nat>, seats: seq<nat>, i: nat)
    requires Joined(events, msgs, byUid, seats) && i < |events| && events[i].uid != ""
    ensures exists k :: 0 <= k < |msgs| && i in msgs[k].events
    ensures forall j, k :: 0 <= j < |msgs| && 0 <= k < |msgs| && i in msgs[j].events && i in msgs[k].events ==> j == k
    ensures forall m :: m in msgs ==> forall j, k :: 0 <= j < k < |m.events| ==> m.events[j] < m.events[k]
    ensures i !in seats
  {
    var k := byUid[events[i].uid];
    assert IsMessage(events, msgs[k]) && i in msgs[k].events;
    forall j | 0 <= j < |msgs| && i in msgs[j].events
      ensures j == k
    {
      assert IsMessage(events, msgs[j]);
    }
    forall m | m in msgs
      ensures forall j, k :: 0 <= j < k < |m.events| ==> m.events[j] < m.events[k]
    {
      var j :| 0 <= j < |msgs| && msgs[j] == m;
      assert IsMessage(events, msgs[j]);
    }
  }

  // ---------------------------------------------------------------- a message's fate

  /** A seat event attaches to a message only when it is stamped after the send. */
  predicate Attaches(m: Message, e: Event) {
    e.seat == m.first.to && Stamp(e.ts) > Stamp(m.first.ts)
  }

  predicate IsDeletion(m: Message, e: Event) {
    Attaches(m, e) && e.status == QueueDeleted
  }

  predicate IsBell(m: Message, e: Event) {
    Attaches(m, e) && (e.status == BellTry || e.status == BellGaveUp || e.status == BellFailed)
  }

  /** Position i comes before j by stamp, and by sequence where the stamps are equal. */
  predicate Earlier(events: seq<Event>, i: nat, j: nat)
    requires i < |events| && j < |events|
  {
    Stamp(events[i].ts) < Stamp(events[j].ts) || (events[i].ts == events[j].ts && i < j)
  }

  ghost predicate Least(events: seq<Event>, among: set<nat>, i: nat)
    requires forall j :: j in among ==> j < |events|
  {
    i in among && forall j :: j in among && j != i ==> Earlier(events, i, j)
  }

  ghost predicate Greatest(events: seq<Event>, among: set<nat>, i: nat)
    requires forall j :: j in among ==> j < |events|
  {
    i in among && forall j :: j in among && j != i ==> Earlier(events, j, i)
  }

  ghost function Deletions(events: seq<Event>, seats: seq<nat>, m: Message): set<nat> {
    set i | i in seats && i < |events| && IsDeletion(m, events[i])
  }

  ghost function Bells(events: seq<Event>, seats: seq<nat>, m: Message): set<nat> {
    set i | i in seats && i < |events| && IsBell(m, events[i])
  }

  /** The event that decides a pending message: its earliest deletion, else its latest bell event, else none. */
  ghost predicate Decides(events: seq<Event>, seats: seq<nat>, m: Message, r: Option<nat>) {
    var deletions, bells := Deletions(events, seats, m), Bells(events, seats, m);
    if deletions != {} then r.Some? && Least(events, deletions, r.value)
    else if bells != {} then r.Some? && Greatest(events, bells, r.value)
    else r.None?
  }

  lemma SetsSnoc(events: seq<Event>, seats: seq<nat>, i: nat, m: Message)
    requires i < |events|
    ensures Deletions(events, seats + [i], m)
         == Deletions(events, seats, m) + if IsDeletion(m, events[i]) then {i} else {}
    ensures Bells(events, seats + [i], m)
         == Bells(events, seats, m) + if IsBell(m, events[i]) then {i} else {}
  {
  }

  ghost predicate FirstDeletion(events: seq<Event>, seats: seq<nat>, m: Message, r: Option<nat>) {
    if r.None? then Deletions(events, seats, m) == {} else Least(events, Deletions(events, seats, m), r.value)
  }

  ghost predicate LastBell(events: seq<Event>, seats: seq<nat>, m: Message, r: Option<nat>) {
    if r.None? then Bells(events, seats, m) == {} else Greatest(events, Bells(events, seats, m), r.value)
  }

  /** The deletion kept so far against one more seat event. */
  function Sooner(events: seq<Event>, m: Message, kept: Option<nat>, i: nat): Option<nat>
    requires i < |events| && (kept.Some? ==> kept.value < |events|)
  {
    if IsDeletion(m, events[i]) && (kept.None? || Earlier(events, i, kept.value)) then Some(i) else kept
  }

  /** The bell event kept so far against one more seat event. */
  function Later(events: seq<Event>, m: Message, kept: Option<nat>, i: nat): Option<nat>
    requires i < |events| && (kept.Some? ==> kept.value < |events|)
  {
    if IsBell(m, events[i]) && (kept.None? || Earlier(events, kept.value, i)) then Some(i) else kept
  }

  lemma FirstDeletionSnoc(events: seq<Event>, seats: seq<nat>, m: Message, r: Option<nat>, i: nat)
    requires FirstDeletion(events, seats, m, r) && i < |events| && forall j :: j in seats ==> j < i
    ensures FirstDeletion(events, seats + [i], m, Sooner(events, m, r, i))
  {
    SetsSnoc(events, seats, i, m);
  }

  lemma LastBellSnoc(events: seq<Event>, seats: seq<nat>, m: Message, r: Option<nat>, i: nat)
    requires LastBell(events, seats, m, r) && i < |events| && forall j :: j in seats ==> j < i
    ensures LastBell(events, seats + [i], m, Later(events, m, r, i))
  {
    SetsSnoc(events, seats, i, m);
  }

  /** One more seat event, weighed against the two kept so far. */
  method Weigh(events: seq<Event>, m: Message, i: nat, deleted: Option<nat>, bell: Option<nat>)
    returns (deleted': Option<nat>, bell': Option<nat>)
    requires i < |events| && (deleted.Some? ==> deleted.value < |events|) && (bell.Some? ==> bell.value < |events|)
    ensures deleted' == Sooner(events, m, deleted, i) && bell' == Later(events, m, bell, i)
  {
    deleted', bell' := deleted, bell;
    var e := events[i];
    if e.seat != m.first.to || Stamp(e.ts) <= Stamp(m.first.ts) {
      return;
    }
    if e.status == QueueDeleted {
      if deleted.None? || Earlier(events, i, deleted.value) {
        deleted' := Some(i);
      }
    } else if e.status == BellTry || e.status == BellGaveUp || e.status == BellFailed {
      if bell.None? || Earlier(events, bell.value, i) {
        bell' := Some(i);
      }
    }
  }

  method LastSeatEvent(events: seq<Event>, seats: seq<nat>, m: Message) returns (r: Option<nat>)
    requires forall i :: i in seats ==> i < |events|
    requires forall j, k :: 0 <= j < k < |seats| ==> seats[j] < seats[k]
    ensures Decides(events, seats, m, r)
  {
    var deleted: Option<nat>, bell: Option<nat> := None, None;
    for k := 0 to |seats|
      invariant FirstDeletion(events, seats[..k], m, deleted)
      invariant LastBell(events, seats[..k], m, bell)
    {
      var i := seats[k];
      assert i in seats;
      ghost var done := seats[..k];
      assert seats[..k + 1] == done + [i];
      FirstDeletionSnoc(events, done, m, deleted, i);
      LastBellSnoc(events, done, m, bell, i);
      deleted, bell := Weigh(events, m, i, deleted, bell);
    }
    assert seats[..|seats|] == seats;
    return if deleted.Some? then deleted else bell;
  }

  /** What became of a message. The position names the event that says so. */
  datatype Fate =
    | WasRead(at: nat) | NotSent(at: nat)
    | Pending | PendingBell(at: nat) | Lost(at: nat)
    | Other(at: nat)

  /** The last line decides; a message last sent is decided by its seat's events. */
  ghost predicate HasFate(events: seq<Event>, seats: seq<nat>, m: Message, f: Fate) {
    IsMessage(events, m) &&
    var at := m.events[|m.events| - 1];
    at in m.events &&
    match events[at].status
    case ReadBy => f == WasRead(at)
    case SendFailed => f == NotSent(at)
    case Sent =>
      (match f
       case Pending => Decides(events, seats, m, None)
       case Lost(i) => Decides(events, seats, m, Some(i)) && i < |events| && events[i].status == QueueDeleted
       case PendingBell(i) => Decides(events, seats, m, Some(i)) && i < |events| && events[i].status != QueueDeleted
       case _ => false)
    case _ => f == Other(at)
  }

  /** The seat events the fates were read from. */
  function Claimed(fates: seq<Fate>): set<nat> {
    if fates == [] then {}
    else
      var f := fates[|fates| - 1];
      Claimed(fates[..|fates| - 1]) + if f.Lost? || f.PendingBell? then {f.at} else {}
  }

  method OutcomeOf(events: seq<Event>, m: Message, seats: seq<nat>) returns (f: Fate)
    requires IsMessage(events, m) && seats == Positions(events, OfSeats())
    ensures HasFate(events, seats, m, f)
  {
    var at := m.events[|m.events| - 1];
    assert at in m.events;
    match events[at].status {
      case ReadBy => f := WasRead(at);
      case SendFailed => f := NotSent(at);
      case Sent =>
        var r := LastSeatEvent(events, seats, m);
        if r.None? {
          f := Pending;
        } else {
          assert r.value in seats;
          f := if events[r.value].status == QueueDeleted then Lost(r.value) else PendingBell(r.value);
        }
      case _ => f := Other(at);
    }
  }

  /** A seat's event is a message's own only where the seat is the message's recipient and the event is later. */
  lemma SeatEventsAreTheRecipients(uid: string, from: string, to: string, body: string, sent: nat,
                                   seat: string, at: nat, why: string, e: Event)
    requires e == QueueDeletedLine(seat, why, at) || (exists n, of, r :: e == BellTryLine(seat, n, of, r, why, at))
    ensures Attaches(Message(uid, SentLine(uid, from, to, body, sent), [0]), e) <==> seat == to && at > sent
  {
  }

  /** The event that decides, over the lines themselves. */
  lemma DecidesExactly(events: seq<Event>, seats: seq<nat>, m: Message, i: nat)
    requires (forall k :: k in seats ==> k < |events|) && Decides(events, seats, m, Some(i))
    ensures i in seats && events[i].seat == m.first.to && Stamp(events[i].ts) > Stamp(m.first.ts)
    ensures events[i].status == QueueDeleted || events[i].status == BellTry
            || events[i].status == BellGaveUp || events[i].status == BellFailed
    ensures events[i].status == QueueDeleted ==>
              forall j :: j in seats && j != i && events[j].status == QueueDeleted && events[j].seat == m.first.to
                          && Stamp(events[j].ts) > Stamp(m.first.ts) ==>
                Stamp(events[i].ts) < Stamp(events[j].ts) || (events[i].ts == events[j].ts && i < j)
    ensures events[i].status != QueueDeleted ==>
              forall j :: j in seats && j != i && events[j].seat == m.first.to && Stamp(events[j].ts) > Stamp(m.first.ts) ==>
                && events[j].status != QueueDeleted
                && (events[j].status == BellTry || events[j].status == BellGaveUp || events[j].status == BellFailed ==>
                      Stamp(events[j].ts) < Stamp(events[i].ts) || (events[i].ts == events[j].ts && j < i))
  {
    var deletions, bells := Deletions(events, seats, m), Bells(events, seats, m);
    forall j | j in seats && events[j].seat == m.first.to && Stamp(events[j].ts) > Stamp(m.first.ts)
      ensures events[j].status == QueueDeleted ==> j in deletions
      ensures events[j].status == BellTry || events[j].status == BellGaveUp || events[j].status == BellFailed ==> j in bells
    {
      assert Attaches(m, events[j]);
    }
  }

  /** An event of the message's recipient, later than the message. */
  predicate OfRecipient(m: Message, e: Event) {
    e.uid == "" && e.seat != "" && e.seat == m.first.to && Stamp(e.ts) > Stamp(m.first.ts)
  }

  lemma DeletionsExist(events: seq<Event>, m: Message)
    ensures Deletions(events, Positions(events, OfSeats()), m) != {} <==>
            exists j :: 0 <= j < |events| && OfRecipient(m, events[j]) && events[j].status == QueueDeleted
  {
    var deletions := Deletions(events, Positions(events, OfSeats()), m);
    if deletions != {} {
      var j :| j in deletions;
      assert OfRecipient(m, events[j]);
    }
    if j :| 0 <= j < |events| && OfRecipient(m, events[j]) && events[j].status == QueueDeleted {
      assert j in deletions;
    }
  }

  lemma BellsExist(events: seq<Event>, m: Message)
    ensures Bells(events, Positions(events, OfSeats()), m) != {} <==>
            exists j :: 0 <= j < |events| && OfRecipient(m, events[j])
                        && (events[j].status == BellTry || events[j].status == BellGaveUp || events[j].status == BellFailed)
  {
    var bells := Bells(events, Positions(events, OfSeats()), m);
    if bells != {} {
      var j :| j in bells;
      assert OfRecipient(m, events[j]);
    }
    if j :| 0 <= j < |events| && OfRecipient(m, events[j])
            && (events[j].status == BellTry || events[j].status == BellGaveUp || events[j].status == BellFailed) {
      assert j in bells;
    }
  }

  /**
   A message last sent is lost if and only if its recipient's queue was deleted
   after it was sent; it pends on a bell if and only if it is not lost and its
   recipient's bell was tried since; whatever any other seat did.
   */
  lemma FateOfSent(events: seq<Event>, m: Message, f: Fate)
    requires HasFate(events, Positions(events, OfSeats()), m, f)
    requires events[m.events[|m.events| - 1]].status == Sent
    ensures f.Lost? <==>
            exists j :: 0 <= j < |events| && OfRecipient(m, events[j]) && events[j].status == QueueDeleted
    ensures (f.Lost? || f.PendingBell?) <==>
            exists j :: 0 <= j < |events| && OfRecipient(m, events[j])
                        && (events[j].status == QueueDeleted || events[j].status == BellTry
                            || events[j].status == BellGaveUp || events[j].status == BellFailed)
    ensures f.Lost? || f.PendingBell? || f == Pending
  {
    DeletionsExist(events, m);
    BellsExist(events, m);
    SentFate(events, m, f);
  }

  lemma SentFate(events: seq<Event>, m: Message, f: Fate)
    requires HasFate(events, Positions(events, OfSeats()), m, f)
    requires events[m.events[|m.events| - 1]].status == Sent
    ensures var seats := Positions(events, OfSeats());
            && (f.Lost? <==> Deletions(events, seats, m) != {})
            && (f.PendingBell? <==> Deletions(events, seats, m) == {} && Bells(events, seats, m) != {})
            && (f.Lost? || f.PendingBell? || f == Pending)
  {
    assert m.events[|m.events| - 1] in m.events;
  }

  /** Any other last line is the fate itself. */
  lemma FateOfOther(events: seq<Event>, seats: seq<nat>, m: Message, f: Fate)
    requires HasFate(events, seats, m, f)
    ensures var last := events[m.events[|m.events| - 1]].status;
            && (f.WasRead? <==> last == ReadBy) && (f.NotSent? <==> last == SendFailed)
            && (f.Other? <==> last != ReadBy && last != SendFailed && last != Sent)
            && (f.WasRead? || f.NotSent? || f.Other? ==> f.at == m.events[|m.events| - 1])
  {
  }

  /** The events claimed are exactly those some fate was read from. */
  lemma {:induction false} ClaimedMembers(fates: seq<Fate>)
    ensures forall i :: i in Claimed(fates) <==>
              exists k :: 0 <= k < |fates| && (fates[k] == Lost(i) || fates[k] == PendingBell(i))
  {
    if fates != [] {
      var init, n := fates[..|fates| - 1], |fates| - 1;
      ClaimedMembers(init);
      forall i
        ensures i in Claimed(fates) <==> exists k :: 0 <= k < |fates| && (fates[k] == Lost(i) || fates[k] == PendingBell(i))
      {
        if i in Claimed(init) {
          var k :| 0 <= k < |init| && (init[k] == Lost(i) || init[k] == PendingBell(i));
          assert fates[k] == init[k];
        }
        if k :| 0 <= k < |fates| && (fates[k] == Lost(i) || fates[k] == PendingBell(i)) {
          assert k < n ==> init[k] == fates[k];
        }
      }
    }
  }

  method Outcomes(events: seq<Event>, msgs: seq<Message>, seats: seq<nat>)
    returns (fates: seq<Fate>, claimed: set<nat>)
    requires seats == Positions(events, OfSeats())
    requires forall k :: 0 <= k < |msgs| ==> IsMessage(events, msgs[k])
    ensures |fates| == |msgs| && AllHaveFates(events, seats, msgs, fates)
    ensures claimed == Claimed(fates)
  {
    fates, claimed := [], {};
    for k := 0 to |msgs|
      invariant |fates| == k && AllHaveFates(events, seats, msgs, fates)
      invariant claimed == Claimed(fates)
    {
      var f := OutcomeOf(events, msgs[k], seats);
      FatesSnoc(events, seats, msgs, fates, f);
      ClaimedSnoc(fates, f);
      if f.Lost? || f.PendingBell? {
        claimed := claimed + {f.at};
      }
      fates := fates + [f];
    }
  }

  ghost predicate AllHaveFates(events: seq<Event>, seats: seq<nat>, msgs: seq<Message>, fates: seq<Fate>) {
    |fates| <= |msgs| && forall k :: 0 <= k < |fates| ==> HasFate(events, seats, msgs[k], fates[k])
  }

  lemma FatesSnoc(events: seq<Event>, seats: seq<nat>, msgs: seq<Message>, fates: seq<Fate>, f: Fate)
    requires AllHaveFates(events, seats, msgs, fates) && |fates| < |msgs|
    requires HasFate(events, seats, msgs[|fates|], f)
    ensures AllHaveFates(events, seats, msgs, fates + [f])
  {
    forall k | 0 <= k < |fates + [f]|
      ensures HasFate(events, seats, msgs[k], (fates + [f])[k])
    {
      if k < |fates| {
        assert HasFate(events, seats, msgs[k], fates[k]);
      }
    }
  }

  lemma ClaimedSnoc(fates: seq<Fate>, f: Fate)
    ensures Claimed(fates + [f]) == if f.Lost? || f.PendingBell? then Claimed(fates) + {f.at} else Claimed(fates)
  {
    assert (fates + [f])[..|fates|] == fates;
  }

  // ---------------------------------------------------------------- a lost message stays lost

  /**
   A queue deletion is terminal: whatever seat events are appended, at whatever
   stamps, a message that was lost is still lost.
   */
  lemma LostIsForEver(events: seq<Event>, more: seq<Event>, m: Message, f: Fate, f': Fate)
    requires HasFate(events, Positions(events, OfSeats()), m, f) && f.Lost?
    requires forall e :: e in more ==> e.uid != m.uid
    requires HasFate(events + more, Positions(events + more, OfSeats()), m, f')
    ensures f'.Lost?
  {
    var seats, seats' := Positions(events, OfSeats()), Positions(events + more, OfSeats());
    var at := m.events[|m.events| - 1];
    assert at in m.events;
    assert (events + more)[at] == events[at];
    assert (events + more)[f.at] == events[f.at];
    assert f.at in Deletions(events + more, seats', m);
  }

  /** The message itself is the same message after any such lines. */
  lemma MessageStays(events: seq<Event>, more: seq<Event>, m: Message)
    requires IsMessage(events, m) && forall e :: e in more ==> e.uid != m.uid
    ensures IsMessage(events + more, m)
  {
    PositionsExtend(events, more, WithUid(m.uid));
  }
}
