/**
 The verbs over one house: sweep, the status lines, subscribe, unsubscribe and
 the attendance gate of send. beats is how many sweeps land between the two
 writes of a verb; reached says whether the second write reached the medium.
 */
module House {
  import opened Basics
  import opened Events
  import opened Findings
  import opened Seat
  import C = Codec
  import R = Record

  datatype SeatState = RowOk | NextBeatReaps | NextBeatRepairs | RowUnreadable

  /** bell is the streak that stands for the seat, where one does. */
  datatype SeatLine = SeatLine(endpoint: string, state: SeatState, bell: Option<R.Shown>)

  /** The status report, in the order it prints: the seats, the queues with no row, the unqualified queues. */
  datatype StatusReport = StatusReport(seats: seq<SeatLine>, noRow: seq<string>, unqualified: seq<string>)

  predicate PromisesRepair(l: SeatLine) {
    l.state == NextBeatReaps || l.state == NextBeatRepairs
  }

  /** The line of a seat says exactly what is wrong with it. */
  ghost predicate LineTrue(w: World, l: SeatLine) {
    match l.state
    case NextBeatReaps => Finds(w, Finding(DeadPid, l.endpoint))
    case NextBeatRepairs => Finds(w, Finding(MissingQueue, l.endpoint))
    case RowUnreadable => Finds(w, Finding(UnreadableRow, l.endpoint))
    case RowOk => LiveRow(w, l.endpoint) && l.endpoint in w.queues
  }

  function NamesOf(seats: seq<SeatLine>): (r: seq<string>)
    ensures |r| == |seats| && forall i :: 0 <= i < |r| ==> r[i] == seats[i].endpoint
  {
    seq(|seats|, i requires 0 <= i < |seats| => seats[i].endpoint)
  }

  ghost predicate AllTrue(w: World, seats: seq<SeatLine>) {
    forall j :: 0 <= j < |seats| ==> LineTrue(w, seats[j])
  }

  /** One true line for each seat of the ledger, in the order of their names. */
  ghost predicate SeatsTold(w: World, seats: seq<SeatLine>) {
    && SortedStrictly(NamesOf(seats))
    && (forall e :: e in NamesOf(seats) <==> e in w.ledger)
    && AllTrue(w, seats)
  }

  datatype Refusal = HeldBy(row: Row) | RowNotReadable | MediumLost

  datatype Result<T> = Ok(value: T) | Err(why: Refusal)

  /** The trouble of each seat is the last finding of its own, and a seat has no more than one. */
  ghost predicate TroubleOf(fs: seq<Finding>, trouble: map<string, SeatState>) {
    && (forall e :: e in trouble ==>
          match trouble[e]
          case NextBeatReaps => Finding(DeadPid, e) in fs
          case NextBeatRepairs => Finding(MissingQueue, e) in fs
          case RowUnreadable => Finding(UnreadableRow, e) in fs
          case RowOk => false)
    && (forall f :: f in fs && f.kind != QueueNoRow ==> f.endpoint in trouble)
  }

  lemma TroubleTells(w: World, fs: seq<Finding>, trouble: map<string, SeatState>, e: string, bell: Option<R.Shown>)
    requires TroubleOf(fs, trouble) && e in w.ledger && forall f :: f in fs <==> Finds(w, f)
    ensures LineTrue(w, SeatLine(e, if e in trouble then trouble[e] else RowOk, bell))
  {
    if e !in trouble {
      assert Finding(DeadPid, e) !in fs && Finding(MissingQueue, e) !in fs && Finding(UnreadableRow, e) !in fs;
    }
  }

  /** The queues with no row, in the order found. */
  function NoRowIn(fs: seq<Finding>): seq<string> {
    if fs == [] then []
    else
      var f := fs[|fs| - 1];
      if f.kind == QueueNoRow then NoRowIn(fs[..|fs| - 1]) + [f.endpoint] else NoRowIn(fs[..|fs| - 1])
  }

  lemma {:induction false} NoRowInMembers(fs: seq<Finding>)
    ensures forall q :: q in NoRowIn(fs) <==> Finding(QueueNoRow, q) in fs
  {
    if fs != [] {
      var init, f := fs[..|fs| - 1], fs[|fs| - 1];
      assert fs == init + [f];
      NoRowInMembers(init);
    }
  }

  /** Listed once each, by name. */
  lemma {:induction false} NoRowInOrder(fs: seq<Finding>)
    requires InRepairOrder(fs)
    ensures SortedStrictly(NoRowIn(fs))
  {
    if fs != [] {
      var init, f := fs[..|fs| - 1], fs[|fs| - 1];
      assert forall i :: 0 <= i < |init| ==> init[i] == fs[i];
      NoRowInOrder(init);
      if f.kind == QueueNoRow {
        NoRowInMembers(init);
        forall k | 0 <= k < |NoRowIn(init)|
          ensures Before(NoRowIn(init)[k], f.endpoint)
        {
          var g := Finding(QueueNoRow, NoRowIn(init)[k]);
          assert NoRowIn(init)[k] in NoRowIn(init);
          var i :| 0 <= i < |init| && init[i] == g;
          assert fs[i] == g;
        }
      }
    }
  }

  /** One more finding, under its seat. */
  function Filed(trouble: map<string, SeatState>, f: Finding): map<string, SeatState> {
    match f.kind
    case DeadPid => trouble[f.endpoint := NextBeatReaps]
    case MissingQueue => trouble[f.endpoint := NextBeatRepairs]
    case UnreadableRow => trouble[f.endpoint := RowUnreadable]
    case QueueNoRow => trouble
  }

  lemma TroubleSnoc(fs: seq<Finding>, trouble: map<string, SeatState>, f: Finding)
    requires TroubleOf(fs, trouble)
    ensures TroubleOf(fs + [f], Filed(trouble, f))
  {
    assert forall g :: g in fs + [f] <==> g in fs || g == f;
  }

  /** Files each finding under its seat, and the queues with no row apart. */
  method SortTrouble(findings: seq<Finding>) returns (trouble: map<string, SeatState>, noRow: seq<string>)
    ensures TroubleOf(findings, trouble) && noRow == NoRowIn(findings)
  {
    trouble, noRow := map[], [];
    for i := 0 to |findings|
      invariant TroubleOf(findings[..i], trouble) && noRow == NoRowIn(findings[..i])
    {
      var f := findings[i];
      TroubleSnoc(findings[..i], trouble, f);
      assert findings[..i + 1] == findings[..i] + [f] && findings[..i + 1][..i] == findings[..i];
      match f.kind {
        case DeadPid => trouble := trouble[f.endpoint := NextBeatReaps];
        case MissingQueue => trouble := trouble[f.endpoint := NextBeatRepairs];
        case UnreadableRow => trouble := trouble[f.endpoint := RowUnreadable];
        case QueueNoRow => noRow := noRow + [f.endpoint];
      }
    }
    assert findings[..|findings|] == findings;
  }

  /** The names of a set, listed in order. */
  method ListNames(names: set<string>) returns (s: seq<string>)
    ensures SortedStrictly(s) && Distinct(s) && forall x :: x in s <==> x in names
  {
    var left := names;
    s := [];
    while left != {}
      invariant Distinct(s) && left <= names
      invariant forall x :: x in s <==> x in names && x !in left
    {
      var x :| x in left;
      s := s + [x];
      left := left - {x};
    }
    SortedOfDistinct(s);
    s := Sorted(s);
  }

  ghost function Reaped(fs: seq<Finding>): set<string> {
    set f | f in fs && f.kind == DeadPid :: f.endpoint
  }

  ghost function Rebuilt(fs: seq<Finding>): set<string> {
    set f | f in fs && f.kind == MissingQueue :: f.endpoint
  }

  /** The house after the first findings have been acted on. */
  ghost predicate PartBeaten(w: World, fs: seq<Finding>, v: World) {
    && v.running == w.running
    && v.ledger == w.ledger - Reaped(fs)
    && v.pidFiles == w.pidFiles - Reaped(fs)
    && v.queues == w.queues + map e | e in Rebuilt(fs) && e !in w.queues :: []
  }

  /** What the sweep does about one finding. */
  function ActOn(w: World, f: Finding): World {
    match f.kind
    case DeadPid => w.(ledger := w.ledger - {f.endpoint}, pidFiles := w.pidFiles - {f.endpoint})
    case MissingQueue => CreateQueue(w, f.endpoint)
    case _ => w
  }

  function ActAll(w: World, fs: seq<Finding>): World {
    if fs == [] then w else ActOn(ActAll(w, fs[..|fs| - 1]), fs[|fs| - 1])
  }

  lemma ActedSnoc(fs: seq<Finding>, f: Finding)
    ensures Reaped(fs + [f]) == if f.kind == DeadPid then Reaped(fs) + {f.endpoint} else Reaped(fs)
    ensures Rebuilt(fs + [f]) == if f.kind == MissingQueue then Rebuilt(fs) + {f.endpoint} else Rebuilt(fs)
  {
    assert forall g :: g in fs + [f] <==> g in fs || g == f;
  }

  lemma ReapStep(w: World, fs: seq<Finding>, f: Finding, v: World)
    requires PartBeaten(w, fs, v) && f.kind == DeadPid
    ensures PartBeaten(w, fs + [f], ActOn(v, f))
  {
    ActedSnoc(fs, f);
  }

  /** One more queue rebuilt: a create, wherever the queue was missing to begin with. */
  lemma RebuiltQueues(queues: map<string, seq<Mail>>, rebuilt: set<string>, e: string)
    ensures var v := queues + map q | q in rebuilt && q !in queues :: [];
            (if e in v then v else v[e := []]) == queues + map q | q in rebuilt + {e} && q !in queues :: []
  {
  }

  lemma RebuildStep(w: World, fs: seq<Finding>, f: Finding, v: World)
    requires PartBeaten(w, fs, v) && f.kind == MissingQueue
    ensures PartBeaten(w, fs + [f], ActOn(v, f))
  {
    ActedSnoc(fs, f);
    RebuiltQueues(w.queues, Rebuilt(fs), f.endpoint);
  }

  lemma ReportStep(w: World, fs: seq<Finding>, f: Finding, v: World)
    requires PartBeaten(w, fs, v) && f.kind != DeadPid && f.kind != MissingQueue
    ensures PartBeaten(w, fs + [f], ActOn(v, f))
  {
    ActedSnoc(fs, f);
  }

  lemma {:induction false} ActAllPartBeaten(w: World, fs: seq<Finding>)
    ensures PartBeaten(w, fs, ActAll(w, fs))
  {
    if fs == [] {
      assert w.ledger - Reaped([]) == w.ledger && w.pidFiles - Reaped([]) == w.pidFiles;
      assert w.queues == w.queues + map e | e in Rebuilt([]) && e !in w.queues :: [];
    } else {
      var init, f := fs[..|fs| - 1], fs[|fs| - 1];
      ActAllPartBeaten(w, init);
      assert fs == init + [f];
      if f.kind == DeadPid {
        ReapStep(w, init, f, ActAll(w, init));
      } else if f.kind == MissingQueue {
        RebuildStep(w, init, f, ActAll(w, init));
      } else {
        ReportStep(w, init, f, ActAll(w, init));
      }
    }
  }

  lemma FoundDead(w: World, fs: seq<Finding>)
    requires forall f :: f in fs <==> Finds(w, f)
    ensures Reaped(fs) == set e | e in w.ledger && DeadRow(w, e)
  {
    forall e | e in w.ledger && DeadRow(w, e)
      ensures e in Reaped(fs)
    {
      assert Finds(w, Finding(DeadPid, e)) && Finding(DeadPid, e) in fs;
    }
  }

  lemma FoundMissing(w: World, fs: seq<Finding>)
    requires forall f :: f in fs <==> Finds(w, f)
    ensures Rebuilt(fs) == set e | e in w.ledger && LiveRow(w, e) && e !in w.queues
  {
    forall e | e in w.ledger && LiveRow(w, e) && e !in w.queues
      ensures e in Rebuilt(fs)
    {
      assert Finds(w, Finding(MissingQueue, e)) && Finding(MissingQueue, e) in fs;
    }
  }

  /** Acting on every finding is one beat. */
  lemma ActAllIsBeat(w: World, fs: seq<Finding>)
    requires Keyed(w.ledger) && forall f :: f in fs <==> Finds(w, f)
    ensures ActAll(w, fs) == Beat(w)
  {
    ActAllPartBeaten(w, fs);
    FoundDead(w, fs);
    FoundMissing(w, fs);
  }

  lemma OneMoreLine(w: World, seats: seq<SeatLine>, line: SeatLine)
    requires AllTrue(w, seats) && LineTrue(w, line)
    ensures AllTrue(w, seats + [line]) && NamesOf(seats + [line]) == NamesOf(seats) + [line.endpoint]
  {
  }

  function Found<T>(m: map<string, T>, key: string): Option<T> {
    if key in m then Some(m[key]) else None
  }

  /** The bell of a registered seat, where its streak stands against the registration and the reads. */
  function BellOf(ledger: map<string, Entry>, record: seq<Event>, e: string): Option<R.Shown> {
    if e in ledger && ledger[e].Readable? && R.Stands(R.Row(e, Some(ledger[e].row.registered)), record)
    then R.SeatShown(record, e) else None
  }

  /** The ledger's rows as the reader of the record takes them. */
  function BellRows(rows: seq<Row>): (r: seq<R.Row>)
    ensures |r| == |rows| && forall i :: 0 <= i < |r| ==> r[i] == R.Row(rows[i].endpoint, Some(rows[i].registered))
  {
    seq(|rows|, i requires 0 <= i < |rows| => R.Row(rows[i].endpoint, Some(rows[i].registered)))
  }

  /** The streaks read for a listing of the ledger are each seat's own. */
  lemma BellsAreTheSeats(ledger: map<string, Entry>, rows: seq<Row>, bad: seq<string>, record: seq<Event>,
                         bells: map<string, R.Shown>, e: string)
    requires Keyed(ledger) && Lists(ledger, rows, bad)
    requires e in bells <==> exists r :: r in BellRows(rows) && r.endpoint == e && R.Stands(r, record)
    requires e in bells ==> Some(bells[e]) == R.SeatShown(record, e)
    ensures Found(bells, e) == BellOf(ledger, record, e)
  {
    if e in bells {
      var r :| r in BellRows(rows) && r.endpoint == e && R.Stands(r, record);
      var i :| 0 <= i < |rows| && BellRows(rows)[i] == r;
      assert rows[i] in rows;
    }
    if e in ledger && ledger[e].Readable? {
      assert ledger[e].row in rows;
      var i :| 0 <= i < |rows| && rows[i] == ledger[e].row;
      assert BellRows(rows)[i] in BellRows(rows);
    }
  }

  /** One line for each seat, read off the trouble found. */
  method TellSeats(ghost w: World, ghost fs: seq<Finding>, trouble: map<string, SeatState>,
                   bells: map<string, R.Shown>, names: seq<string>)
    returns (seats: seq<SeatLine>)
    requires TroubleOf(fs, trouble) && forall f :: f in fs <==> Finds(w, f)
    requires forall e :: e in names ==> e in w.ledger
    ensures NamesOf(seats) == names && AllTrue(w, seats)
    ensures forall i :: 0 <= i < |seats| ==> seats[i].bell == Found(bells, seats[i].endpoint)
  {
    seats := [];
    for i := 0 to |names|
      invariant NamesOf(seats) == names[..i] && AllTrue(w, seats)
      invariant forall j :: 0 <= j < i ==> seats[j].bell == Found(bells, seats[j].endpoint)
    {
      var e := names[i];
      var bell := Found(bells, e);
      TroubleTells(w, fs, trouble, e, bell);
      var line := SeatLine(e, if e in trouble then trouble[e] else RowOk, bell);
      OneMoreLine(w, seats, line);
      seats := seats + [line];
      assert names[..i + 1] == names[..i] + [e];
    }
    assert names[..|names|] == names;
  }

  const MAX_BODY_CHARS := 4000

  /** A message on its way: from is None without an identity. */
  datatype Draft = Draft(uid: string, from: Option<string>, to: string, body: string, mail: Mail)

  /** What becomes of a publish; Unheard is stored with its answer lost. */
  datatype Publish = Stored | Unheard | Dropped

  class House {
    var ledger: map<string, Entry>
    var queues: map<string, seq<Mail>>
    var running: set<Process>
    var pidFiles: map<string, Process>
    var record: seq<Event>

    ghost function State(): World
      reads this
    {
      World(ledger, queues, running, pidFiles)
    }

    ghost predicate Valid()
      reads this
    {
      Keyed(ledger)
    }

    method ListAll() returns (rows: seq<Row>, bad: seq<string>)
      requires Valid()
      ensures Lists(ledger, rows, bad) && SortedStrictly(Endpoints(rows)) && SortedStrictly(bad)
    {
      var names := ListNames(ledger.Keys);
      rows, bad := [], [];
      for i := 0 to |names|
        invariant SortedStrictly(Endpoints(rows)) && SortedStrictly(bad)
        invariant forall r :: r in rows <==> r.endpoint in names[..i] && ledger[r.endpoint] == Readable(r)
        invariant forall e :: e in bad <==> e in names[..i] && ledger[e].Unreadable?
      {
        var e := names[i];
        assert names[..i + 1] == names[..i] + [e];
        assert forall x :: x in names[..i] ==> Before(x, e);
        if ledger[e].Unreadable? {
          bad := bad + [e];
        } else {
          EndpointMembers(rows);
          assert Endpoints(rows + [ledger[e].row]) == Endpoints(rows) + [e];
          rows := rows + [ledger[e].row];
        }
      }
      assert names[..|names|] == names;
      StrictlyDistinct(Endpoints(rows));
      StrictlyDistinct(bad);
    }

    /** Acts on one finding, and says whether that changed anything. */
    method Act(f: Finding) returns (changed: bool)
      modifies this`ledger, this`queues, this`pidFiles
      ensures State() == ActOn(old(State()), f) && changed == IsRepair(f)
    {
      match f.kind {
        case DeadPid =>
          ledger := ledger - {f.endpoint};
          pidFiles := pidFiles - {f.endpoint};
          return true;
        case QueueNoRow =>
          return false;
        case MissingQueue =>
          MakeQueue(f.endpoint);
          return true;
        case UnreadableRow =>
          return false;
      }
    }

    /** The medium's own create: a queue of the same shape is adopted as it is. */
    method MakeQueue(endpoint: string)
      modifies this`queues
      ensures State() == CreateQueue(old(State()), endpoint)
    {
      if endpoint !in queues {
        queues := queues[endpoint := []];
      }
    }

    /** The findings over the listings of this moment. */
    method Look() returns (findings: seq<Finding>)
      requires Valid()
      ensures forall f :: f in findings <==> Finds(State(), f)
      ensures InRepairOrder(findings)
    {
      var rows, bad := ListAll();
      var names := ListNames(queues.Keys);
      findings := Find(rows, bad, names, running);
      FindingsExact(rows, bad, names, running);
      forall f
        ensures f in findings <==> Finds(State(), f)
      {
        ReportFinds(State(), rows, bad, names, f);
      }
    }

    /** Reconciles the three records, and says how many changes it made and what it reported. */
    method Sweep() returns (changes: nat, told: seq<Finding>)
      requires Valid()
      modifies this`ledger, this`queues, this`pidFiles
      ensures State() == Beat(old(State())) && Valid()
      ensures forall f :: f in told <==> Finds(old(State()), f)
      ensures InRepairOrder(told) && changes == Count(told, IsRepair)
    {
      ghost var was := State();
      told := Look();
      changes := 0;
      for i := 0 to |told|
        invariant State() == ActAll(was, told[..i]) && changes == Count(told[..i], IsRepair)
      {
        assert told[..i + 1][..i] == told[..i];
        var changed := Act(told[i]);
        if changed {
          changes := changes + 1;
        }
      }
      assert told[..|told|] == told;
      ActAllIsBeat(was, told);
    }

    /** The streak that stands for each registered seat. */
    method Bells() returns (bells: map<string, R.Shown>)
      requires Valid()
      ensures forall e :: Found(bells, e) == BellOf(ledger, record, e)
    {
      var rows, bad := ListAll();
      bells := R.BellStreaks(BellRows(rows), record);
      forall e
        ensures Found(bells, e) == BellOf(ledger, record, e)
      {
        BellsAreTheSeats(ledger, rows, bad, record, bells, e);
      }
    }

    /** What the next beat would do about each seat, and the queues nothing will touch. */
    method SeatLines(unqualified: seq<string>) returns (report: StatusReport)
      requires Valid()
      ensures SeatsTold(State(), report.seats)
      ensures SortedStrictly(report.noRow)
      ensures forall q :: q in report.noRow <==> Finds(State(), Finding(QueueNoRow, q))
      ensures report.unqualified == unqualified
      ensures forall i :: 0 <= i < |report.seats| ==>
                report.seats[i].bell == BellOf(ledger, record, report.seats[i].endpoint)
    {
      var findings := Look();
      var trouble, noRow := SortTrouble(findings);
      NoRowInOrder(findings);
      NoRowInMembers(findings);
      var names := ListNames(ledger.Keys);
      var bells := Bells();
      var seats := TellSeats(State(), findings, trouble, bells, names);
      return StatusReport(seats, noRow, unqualified);
    }

    /** What subscribe does: refused while a row stands, else the row first and the queue second. */
    method Subscribe(endpoint: string, process: Process, now: nat, beats: nat, reached: bool)
      returns (r: Result<Row>)
      requires Valid()
      modifies this`ledger, this`queues, this`pidFiles
      ensures Valid()
      ensures endpoint in old(ledger) ==>
                State() == old(State()) &&
                r == Err(match old(ledger)[endpoint] case Readable(row) => HeldBy(row) case Unreadable => RowNotReadable)
      ensures endpoint !in old(ledger) ==>
                var row := Row(endpoint, process, now);
                var gap := Beats(Save(old(State()), row), beats);
                if reached then r == Ok(row) && State() == CreateQueue(gap, endpoint)
                else r == Err(MediumLost) && State() == gap
    {
      if endpoint in ledger {
        match ledger[endpoint] {
          case Readable(row) => return Err(HeldBy(row));
          case Unreadable => return Err(RowNotReadable);
        }
      }
      var row := Row(endpoint, process, now);
      ledger := ledger[endpoint := Readable(row)];
      LandBeats(beats);
      if !reached {
        return Err(MediumLost);
      }
      MakeQueue(endpoint);
      return Ok(row);
    }

    /** Sweeps that land in the gap between two writes. */
    method LandBeats(beats: nat)
      requires Valid()
      modifies this`ledger, this`queues, this`pidFiles
      ensures Valid() && State() == Beats(old(State()), beats)
    {
      for i := 0 to beats
        invariant Valid() && State() == Beats(old(State()), i)
      {
        var _, _ := Sweep();
      }
    }

    /** What unsubscribe does: an absent seat is a no-op, a live one is refused unless forced, else the row goes and then the queue. */
    method Unsubscribe(endpoint: string, expiry: bool, force: bool, now: nat, beats: nat, reached: bool)
      returns (r: Result<bool>)
      requires Valid()
      modifies this`ledger, this`queues, this`pidFiles, this`record
      ensures Valid()
      ensures endpoint in old(ledger) && old(ledger)[endpoint].Unreadable? ==>
                r == Err(RowNotReadable) && State() == old(State()) && record == old(record)
      ensures LiveRow(old(State()), endpoint) && !force ==>
                r.Err? && State() == old(State()) && record == old(record)
      ensures endpoint !in old(ledger) && endpoint !in old(queues) ==>
                r == Ok(false) && State() == old(State()) && record == old(record)
      ensures (DeadRow(old(State()), endpoint) || (LiveRow(old(State()), endpoint) && force)
               || (endpoint !in old(ledger) && endpoint in old(queues))) ==>
                var gap := Beats(Remove(old(State()), endpoint), beats);
                var why := if expiry then "expired"
                           else if force && LiveRow(old(State()), endpoint) then "displaced" else "left";
                if reached
                then r == Ok(true) && State() == DeleteQueue(gap, endpoint)
                     && record == old(record) + [QueueDeletedLine(endpoint, why, now)]
                else r == Err(MediumLost) && State() == gap && record == old(record)
    {
      var held: Option<Row> := None;
      if endpoint in ledger {
        match ledger[endpoint] {
          case Readable(row) => held := Some(row);
          case Unreadable => return Err(RowNotReadable);
        }
      }
      var alive := held.Some? && Alive(held.value.process, running);
      if alive && !force {
        return Err(HeldBy(held.value));
      }
      if held.None? && endpoint !in queues {
        return Ok(false);
      }
      ledger := ledger - {endpoint};
      LandBeats(beats);
      if !reached {
        return Err(MediumLost);
      }
      queues := queues - {endpoint};
      var why := "left";
      if expiry {
        why := "expired";
      } else if force && held.Some? && alive {
        why := "displaced";
      }
      record := record + [QueueDeletedLine(endpoint, why, now)];
      return Ok(true);
    }

    /**
     Checks, then publishes, and writes one line either way: sent only for mail
     that is in the queue. asked and listed say whether the medium and the ledger
     answered. The reason of a refusal is the sender's own fault first, and a name
     that is no endpoint before the medium.
     */
    method Send(d: Draft, asked: bool, listed: bool, medium: Publish, at: nat) returns (accepted: bool, ghost reason: string)
      modifies this`queues, this`record
      ensures accepted <==>
                && d.from.Some? && |d.body| <= 4000 && C.ValidEndpoint(d.to)
                && asked && d.to in old(queues) && listed && d.to in ledger && medium == Stored
      ensures d.to !in ledger || d.to !in old(queues) ==> !accepted && queues == old(queues)
      ensures accepted ==> queues == old(queues)[d.to := old(queues)[d.to] + [d.mail]]
      ensures !accepted && queues != old(queues) ==>
                && medium == Unheard && d.to in old(queues) && d.to in ledger
                && queues == old(queues)[d.to := old(queues)[d.to] + [d.mail]]
      ensures accepted ==> record == old(record) + [SentLine(d.uid, d.from.value, d.to, d.body, at)]
      ensures !accepted ==>
                record == old(record) + [FailedLine(d.uid, if d.from.Some? then d.from.value else "", d.to, reason, at)]
      ensures d.from.None? ==> reason == "no identity"
      ensures d.from.Some? && |d.body| > 4000 ==> reason == "too long"
      ensures d.from.Some? && |d.body| <= 4000 && !accepted ==>
                if !C.ValidEndpoint(d.to) then reason == "target not registered"
                else if !asked then reason == "bus unreachable"
                else if d.to !in old(queues) || !listed || d.to !in ledger then reason == "target not registered"
                else reason == "bus unreachable"
    {
      reason := "";
      if d.from.None? {
        record := record + [FailedLine(d.uid, "", d.to, "no identity", at)];
        return false, "no identity";
      }
      var from := d.from.value;
      if |d.body| > MAX_BODY_CHARS {
        record := record + [FailedLine(d.uid, from, d.to, "too long", at)];
        return false, "too long";
      }
      if !C.ValidEndpoint(d.to) {
        record := record + [FailedLine(d.uid, from, d.to, "target not registered", at)];
        return false, "target not registered";
      }
      if !asked {
        record := record + [FailedLine(d.uid, from, d.to, "bus unreachable", at)];
        return false, "bus unreachable";
      }
      if d.to !in queues || !listed || d.to !in ledger {
        record := record + [FailedLine(d.uid, from, d.to, "target not registered", at)];
        return false, "target not registered";
      }
      if medium != Dropped {
        queues := queues[d.to := queues[d.to] + [d.mail]];
      }
      if medium != Stored {
        record := record + [FailedLine(d.uid, from, d.to, "bus unreachable", at)];
        return false, "bus unreachable";
      }
      record := record + [SentLine(d.uid, from, d.to, d.body, at)];
      return true, "";
    }
  }

  // ---------------------------------------------------------------- the report is the next beat's dry run

  ghost function Repaired(w: World): set<string> {
    set e | e in w.ledger && (DeadRow(w, e) || (LiveRow(w, e) && e !in w.queues))
  }

  /** The repairs a beat reports are the seats that need one. */
  lemma RepairsCounted(w: World, told: seq<Finding>)
    requires InRepairOrder(told) && forall f :: f in told <==> Finds(w, f)
    ensures Count(told, IsRepair) == |Repaired(w)|
  {
    var name := (f: Finding) => f.endpoint;
    forall i, j | 0 <= i < j < |told| && IsRepair(told[i]) && IsRepair(told[j])
      ensures name(told[i]) != name(told[j])
    {
      assert Finds(w, told[i]) && Finds(w, told[j]);
      BeforeTotal(told[i].endpoint, told[i].endpoint);
    }
    forall e | e in Repaired(w)
      ensures exists i :: 0 <= i < |told| && IsRepair(told[i]) && name(told[i]) == e
    {
      var f := Finding(if DeadRow(w, e) then DeadPid else MissingQueue, e);
      assert Finds(w, f) && f in told;
    }
    forall i | 0 <= i < |told| && IsRepair(told[i])
      ensures name(told[i]) in Repaired(w)
    {
      assert Finds(w, told[i]);
    }
    CountByName(told, IsRepair, name, Repaired(w));
  }

  /** The seats whose line promises a repair are the seats that need one. */
  lemma PromisesCounted(w: World, seats: seq<SeatLine>)
    requires SeatsTold(w, seats)
    ensures Count(seats, PromisesRepair) == |Repaired(w)|
  {
    var name := (l: SeatLine) => l.endpoint;
    StrictlyDistinct(NamesOf(seats));
    assert forall i :: 0 <= i < |seats| ==> NamesOf(seats)[i] == name(seats[i]);
    forall e | e in Repaired(w)
      ensures exists i :: 0 <= i < |seats| && PromisesRepair(seats[i]) && name(seats[i]) == e
    {
      assert e in NamesOf(seats);
      var i :| 0 <= i < |seats| && NamesOf(seats)[i] == e;
      assert LineTrue(w, seats[i]);
    }
    forall i | 0 <= i < |seats| && PromisesRepair(seats[i])
      ensures name(seats[i]) in Repaired(w)
    {
      assert LineTrue(w, seats[i]);
    }
    CountByName(seats, PromisesRepair, name, Repaired(w));
  }

  /** A beat changes exactly as many things as the status report before it promised. */
  lemma StatusIsADryRun(w: World, told: seq<Finding>, seats: seq<SeatLine>)
    requires InRepairOrder(told) && forall f :: f in told <==> Finds(w, f)
    requires SeatsTold(w, seats)
    ensures Count(told, IsRepair) == Count(seats, PromisesRepair)
  {
    RepairsCounted(w, told);
    PromisesCounted(w, seats);
  }

  /** The beat after a beat has nothing to change. */
  lemma SecondBeatChangesNothing(w: World, told: seq<Finding>)
    requires Keyed(w.ledger) && InRepairOrder(told) && forall f :: f in told <==> Finds(Beat(w), f)
    ensures Count(told, IsRepair) == 0
  {
    BeatConverges(w);
    RepairsCounted(Beat(w), told);
    assert Repaired(Beat(w)) == {};
  }
}
