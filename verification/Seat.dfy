/**
 A house of seats: its ledger rows, its queues with the mail in them, the
 processes that run, and the files that name each seat's server.

 The functions are the single writes the verbs are made of and one beat of the
 sweep; class House carries the state and runs the verbs. A beat may land
 between the two writes of a subscribe or an unsubscribe, any number of times.
 */
module Seat {
  import opened Basics
  import opened Events
  import opened Findings

  type Mail = nat

  /** What a ledger file holds: a row, or bytes no row can be read from. */
  datatype Entry = Readable(row: Row) | Unreadable

  datatype World = World(
    ledger: map<string, Entry>, queues: map<string, seq<Mail>>,
    running: set<Process>, pidFiles: map<string, Process>)

  /** A row's own endpoint is its ledger key. */
  ghost predicate Keyed(ledger: map<string, Entry>) {
    forall e :: e in ledger && ledger[e].Readable? ==> ledger[e].row.endpoint == e
  }

  // ---------------------------------------------------------------- the writes

  function Save(w: World, row: Row): World {
    w.(ledger := w.ledger[row.endpoint := Readable(row)])
  }

  function Remove(w: World, endpoint: string): World {
    w.(ledger := w.ledger - {endpoint})
  }

  /** A create adopts a queue that is there, with the mail in it. */
  function CreateQueue(w: World, endpoint: string): World {
    if endpoint in w.queues then w else w.(queues := w.queues[endpoint := []])
  }

  function DeleteQueue(w: World, endpoint: string): World {
    w.(queues := w.queues - {endpoint})
  }

  function Mailbox(w: World, endpoint: string): seq<Mail> {
    if endpoint in w.queues then w.queues[endpoint] else []
  }

  // ---------------------------------------------------------------- one beat

  predicate DeadRow(w: World, e: string) {
    e in w.ledger && w.ledger[e].Readable? && !Alive(w.ledger[e].row.process, w.running)
  }

  predicate LiveRow(w: World, e: string) {
    e in w.ledger && w.ledger[e].Readable? && Alive(w.ledger[e].row.process, w.running)
  }

  /** A beat reaps every dead row with its pid file, recreates the queue of every live row that lost it, and deletes no queue. */
  function Beat(w: World): World {
    var dead := set e | e in w.ledger && DeadRow(w, e);
    w.(ledger := w.ledger - dead,
       pidFiles := w.pidFiles - dead,
       queues := w.queues + map e | e in w.ledger && LiveRow(w, e) && e !in w.queues :: [])
  }

  /** The rows that stand after a beat are those no dead process holds. */
  lemma BeatKeepsRows(w: World, e: string)
    ensures e in Beat(w).ledger <==>
            e in w.ledger && (w.ledger[e].Readable? ==> Alive(w.ledger[e].row.process, w.running))
    ensures e in Beat(w).ledger ==> Beat(w).ledger[e] == w.ledger[e]
  {
  }

  /** A pid file goes with a dead row and with nothing else. */
  lemma BeatKeepsPidFiles(w: World, e: string)
    ensures e in Beat(w).pidFiles <==>
            e in w.pidFiles && !(e in w.ledger && w.ledger[e].Readable? && !Alive(w.ledger[e].row.process, w.running))
    ensures e in Beat(w).pidFiles ==> Beat(w).pidFiles[e] == w.pidFiles[e]
  {
  }

  /** The queues after a beat are those before it, and an empty one for each live row that had none. */
  lemma BeatMakesQueues(w: World, e: string)
    ensures e in Beat(w).queues <==>
            e in w.queues || (e in w.ledger && w.ledger[e].Readable? && Alive(w.ledger[e].row.process, w.running))
    ensures e in Beat(w).queues ==> Beat(w).queues[e] == if e in w.queues then w.queues[e] else []
  {
  }

  function Beats(w: World, k: nat): World {
    if k == 0 then w else Beat(Beats(w, k - 1))
  }

  /** What a finding says, against the maps. */
  ghost predicate Finds(w: World, f: Finding) {
    match f.kind
    case DeadPid => DeadRow(w, f.endpoint)
    case QueueNoRow => f.endpoint in w.queues && !(f.endpoint in w.ledger && w.ledger[f.endpoint].Readable?)
    case MissingQueue => LiveRow(w, f.endpoint) && f.endpoint !in w.queues
    case UnreadableRow => f.endpoint in w.ledger && w.ledger[f.endpoint].Unreadable?
  }

  /** rows and bad are the ledger, listed. */
  ghost predicate Lists(ledger: map<string, Entry>, rows: seq<Row>, bad: seq<string>) {
    && Distinct(Endpoints(rows)) && Distinct(bad)
    && (forall r :: r in rows <==> r.endpoint in ledger && ledger[r.endpoint] == Readable(r))
    && (forall e :: e in bad <==> e in ledger && ledger[e].Unreadable?)
  }

  ghost predicate ListsQueues(queues: map<string, seq<Mail>>, names: seq<string>) {
    Distinct(names) && forall q :: q in names <==> q in queues
  }

  predicate IsRepair(f: Finding) {
    f.kind == DeadPid || f.kind == MissingQueue
  }

  /** The report over any listing of the house says what the house holds. */
  lemma ReportFinds(w: World, rows: seq<Row>, bad: seq<string>, queues: seq<string>, f: Finding)
    requires Keyed(w.ledger) && Lists(w.ledger, rows, bad) && ListsQueues(w.queues, queues)
    ensures f in Report(rows, bad, queues, w.running) <==> Finds(w, f)
  {
    FindingsExact(rows, bad, queues, w.running);
    if f.endpoint in w.ledger && w.ledger[f.endpoint].Readable? {
      assert w.ledger[f.endpoint].row in rows;
    }
  }

  // ---------------------------------------------------------------- convergence

  /** A beat leaves no dead row, and no live row without its queue. */
  lemma BeatRepairs(w: World)
    ensures forall e :: !DeadRow(Beat(w), e)
    ensures forall e :: LiveRow(Beat(w), e) ==> e in Beat(w).queues
  {
  }

  /** A second beat with the processes unchanged changes nothing. */
  lemma BeatConverges(w: World)
    requires Keyed(w.ledger)
    ensures Beat(Beat(w)) == Beat(w)
    ensures forall f :: Finds(Beat(w), f) ==> f.kind == QueueNoRow || f.kind == UnreadableRow
  {
    var w1 := Beat(w);
    BeatRepairs(w);
    NothingToRepair(w1);
  }

  lemma NothingToRepair(w: World)
    requires forall e :: !DeadRow(w, e)
    requires forall e :: LiveRow(w, e) ==> e in w.queues
    ensures Beat(w) == w
  {
    assert (set e | e in w.ledger && DeadRow(w, e)) == {};
    assert Beat(w).queues == w.queues;
  }

  /** Any number of beats comes to one. */
  lemma {:induction false} BeatsConverge(w: World, k: nat)
    requires Keyed(w.ledger)
    ensures Keyed(Beats(w, k).ledger)
    ensures k > 0 ==> Beats(w, k) == Beat(w)
  {
    if k > 1 {
      BeatsConverge(w, k - 1);
      BeatConverges(w);
    }
  }

  /** No beat takes mail from a queue or a queue from the house. */
  lemma BeatKeepsQueues(w: World, e: string)
    requires e in w.queues
    ensures e in Beat(w).queues && Beat(w).queues[e] == w.queues[e]
  {
  }

  lemma {:induction false} BeatsKeepQueues(w: World, k: nat, e: string)
    requires e in w.queues
    ensures e in Beats(w, k).queues && Beats(w, k).queues[e] == w.queues[e]
  {
    if k > 0 {
      BeatsKeepQueues(w, k - 1, e);
      BeatKeepsQueues(Beats(w, k - 1), e);
    }
  }

  // ---------------------------------------------------------------- the gap between two writes

  /** Beats see the row of a live process and leave it, whatever else they find. */
  lemma {:induction false} BeatsKeepLiveRow(w: World, k: nat, e: string)
    requires LiveRow(w, e)
    ensures LiveRow(Beats(w, k), e) && Beats(w, k).ledger[e] == w.ledger[e]
    ensures Mailbox(Beats(w, k), e) == Mailbox(w, e)
    ensures k > 0 ==> e in Beats(w, k).queues
  {
    if k > 0 {
      BeatsKeepLiveRow(w, k - 1, e);
    }
  }

  /** Beats never make a row, and leave the queue of an endpoint without one as it is. */
  lemma {:induction false} BeatsKeepAbsence(w: World, k: nat, e: string)
    requires e !in w.ledger
    ensures e !in Beats(w, k).ledger
    ensures e in Beats(w, k).queues <==> e in w.queues
    ensures e in w.queues ==> Beats(w, k).queues[e] == w.queues[e]
  {
    if k > 0 {
      BeatsKeepAbsence(w, k - 1, e);
    }
  }

  /**
   Any number of beats in the gap of a live process's subscribe leave the seat
   with its row and its queue, and a kept queue is adopted with its mail. A
   subscribe abandoned in the gap is made whole by the next beat.
   */
  lemma SubscribeGap(w: World, row: Row, k: nat)
    requires row.endpoint !in w.ledger && Alive(row.process, w.running)
    ensures var w' := CreateQueue(Beats(Save(w, row), k), row.endpoint);
            && row.endpoint in w'.ledger && w'.ledger[row.endpoint] == Readable(row)
            && row.endpoint in w'.queues && w'.queues[row.endpoint] == Mailbox(w, row.endpoint)
    ensures k > 0 ==>
              var w' := Beats(Save(w, row), k);
              && row.endpoint in w'.ledger && w'.ledger[row.endpoint] == Readable(row)
              && row.endpoint in w'.queues && w'.queues[row.endpoint] == Mailbox(w, row.endpoint)
  {
    BeatsKeepLiveRow(Save(w, row), k, row.endpoint);
  }

  /**
   Any number of beats in the gap of an unsubscribe leave neither row nor queue.
   One abandoned in the gap keeps the queue and its mail, through every beat,
   and a later subscribe adopts both.
   */
  lemma UnsubscribeGap(w: World, e: string, k: nat, row: Row, j: nat)
    requires row.endpoint == e && Alive(row.process, w.running)
    ensures var w' := DeleteQueue(Beats(Remove(w, e), k), e);
            e !in w'.ledger && e !in w'.queues
    ensures var w' := Beats(Remove(w, e), k);
            && e !in w'.ledger && (e in w'.queues <==> e in w.queues)
            && Mailbox(w', e) == Mailbox(w, e)
            && Mailbox(CreateQueue(Beats(Save(w', row), j), e), e) == Mailbox(w, e)
  {
    BeatsKeepAbsence(Remove(w, e), k, e);
    var w' := Beats(Remove(w, e), k);
    BeatsRunning(Remove(w, e), k);
    SubscribeGap(w', row, j);
  }

  lemma {:induction false} BeatsRunning(w: World, k: nat)
    ensures Beats(w, k).running == w.running
  {
    if k > 0 {
      BeatsRunning(w, k - 1);
    }
  }
}
