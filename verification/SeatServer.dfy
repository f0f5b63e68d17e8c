/**
 The server of one seat: it takes the seat, remembers which row it wrote, and on
 the way out frees that row and no other.
 */
module SeatServer {
  import opened Basics
  import opened Events
  import opened Findings
  import opened Seat
  import H = House

  /** What tells one registration of a seat from another. */
  datatype Tenure = Tenure(pid: int, started: Option<nat>, registered: nat)

  function TenureOf(r: Row): Tenure {
    Tenure(r.process.pid, r.process.started, r.registered)
  }

  /** Two registrations are one tenure exactly when process, start and stamp all agree. */
  lemma TenuresDiffer(r: Row, s: Row)
    ensures TenureOf(r) == TenureOf(s) <==> r.process == s.process && r.registered == s.registered
  {
  }

  /** A live process other than the caller's own runtime holds the seat. */
  predicate HeldElsewhere(w: World, endpoint: string, pid: int) {
    LiveRow(w, endpoint) && w.ledger[endpoint].row.process.pid != pid
  }

  predicate Broken(w: World, endpoint: string) {
    endpoint in w.ledger && w.ledger[endpoint].Unreadable?
  }

  /** The row in the ledger is the one this tenure names. */
  predicate Holds(w: World, endpoint: string, own: Option<Tenure>) {
    && own.Some? && endpoint in w.ledger && w.ledger[endpoint].Readable?
    && TenureOf(w.ledger[endpoint].row) == own.value
  }

  /** A pid file a departure leaves alone: the seat's own naming a successor, or another seat's that no beat reaps. */
  predicate OthersFile(w: World, endpoint: string, self: Process, e: string)
    requires e in w.pidFiles
  {
    if e == endpoint then w.pidFiles[e] != self else !DeadRow(w, e)
  }

  class Server {
    const house: H.House
    const endpoint: string
    const runtime: Process   // the process that launched this server
    const self: Process
    var own: Option<Tenure>

    constructor (house: H.House, endpoint: string, runtime: Process, self: Process)
      ensures this.house == house && this.endpoint == endpoint && this.runtime == runtime && this.self == self
      ensures own == None
    {
      this.house, this.endpoint, this.runtime, this.self := house, endpoint, runtime, self;
      own := None;
    }

    /** Clears whoever holds the seat, row only, or refuses to take it from a live stranger. */
    method DisplaceOrRefuse() returns (r: H.Result<bool>)
      requires house.Valid()
      modifies house`ledger
      ensures house.Valid()
      ensures r.Ok? <==> !Broken(old(house.State()), endpoint)
                         && !HeldElsewhere(old(house.State()), endpoint, runtime.pid)
      ensures endpoint !in old(house.ledger) ==> r.Ok?
      ensures endpoint in old(house.ledger) && old(house.ledger)[endpoint].Unreadable? ==> r.Err?
      ensures endpoint in old(house.ledger) && old(house.ledger)[endpoint].Readable? ==>
                var held := old(house.ledger)[endpoint].row.process;
                r.Err? == (Alive(held, house.running) && held.pid != runtime.pid)
      ensures house.State() == if r.Ok? then Remove(old(house.State()), endpoint) else old(house.State())
    {
      if endpoint !in house.ledger {
        assert house.ledger - {endpoint} == house.ledger;
        return H.Ok(false);
      }
      match house.ledger[endpoint] {
        case Unreadable => return H.Err(H.RowNotReadable);
        case Readable(held) =>
          var alive := Alive(held.process, house.running);
          if alive && held.process.pid != runtime.pid {
            return H.Err(H.HeldBy(held));
          }
          house.ledger := house.ledger - {endpoint};
          return H.Ok(true);
      }
    }

    /** Takes the seat, and remembers the row the verb says it wrote. before and gap are the sweeps that land around the writes. */
    method Register(now: nat, before: nat, gap: nat, reached: bool) returns (ok: bool)
      requires house.Valid()
      modifies house`ledger, house`queues, house`pidFiles, this`own
      ensures house.Valid()
      ensures Broken(old(house.State()), endpoint) || HeldElsewhere(old(house.State()), endpoint, runtime.pid) ==>
                !ok && house.State() == old(house.State()) && own == old(own)
      ensures !Broken(old(house.State()), endpoint) && !HeldElsewhere(old(house.State()), endpoint, runtime.pid) ==>
                var row := Row(endpoint, runtime, now);
                var free := Beats(Remove(old(house.State()), endpoint), before);
                var w := Beats(Save(free, row), gap);
                && ok == reached
                && house.State() == (if reached then CreateQueue(w, endpoint) else w)
                && own == if reached then Some(TenureOf(row)) else old(own)
    {
      var r := DisplaceOrRefuse();
      if r.Err? {
        return false;
      }
      BeatsKeepAbsence(house.State(), before, endpoint);
      house.LandBeats(before);
      var reg := house.Subscribe(endpoint, runtime, now, gap, reached);
      if reg.Err? {
        return false;
      }
      own := Some(TenureOf(reg.value));
      return true;
    }

    method ClaimPidFile()
      modifies house`pidFiles
      ensures house.State() == old(house.State()).(pidFiles := old(house.pidFiles)[endpoint := self])
    {
      house.pidFiles := house.pidFiles[endpoint := self];
    }

    /** Removes the pid file only while it names this process. */
    method ReleasePidFile()
      modifies house`pidFiles
      ensures house.State() == old(house.State()).(pidFiles :=
                if endpoint in old(house.pidFiles) && old(house.pidFiles)[endpoint] == self
                then old(house.pidFiles) - {endpoint} else old(house.pidFiles))
    {
      if endpoint in house.pidFiles && house.pidFiles[endpoint] == self {
        house.pidFiles := house.pidFiles - {endpoint};
      }
    }

    /** Frees the seat if the row is still the one this server wrote, and touches nothing of anybody else's. */
    method Depart(now: nat, gap: nat, reached: bool)
      requires house.Valid()
      modifies house`ledger, house`queues, house`pidFiles, house`record
      ensures house.Valid()
      ensures !Holds(old(house.State()), endpoint, own) ==>
                house.ledger == old(house.ledger) && house.queues == old(house.queues)
                && house.record == old(house.record)
      ensures Holds(old(house.State()), endpoint, own) ==>
                var w := Beats(Remove(old(house.State()), endpoint), gap);
                && house.ledger == w.ledger
                && house.queues == (if reached then DeleteQueue(w, endpoint) else w).queues
                && house.record == old(house.record) + (if !reached then [] else
                     [QueueDeletedLine(endpoint, if LiveRow(old(house.State()), endpoint) then "displaced" else "left", now)])
      ensures endpoint in house.pidFiles ==> house.pidFiles[endpoint] != self
      ensures forall e :: e in old(house.pidFiles) && OthersFile(old(house.State()), endpoint, self, e) ==>
                e in house.pidFiles && house.pidFiles[e] == old(house.pidFiles)[e]
    {
      ghost var was := house.State();
      if own.Some? && endpoint in house.ledger && house.ledger[endpoint].Readable?
         && TenureOf(house.ledger[endpoint].row) == own.value
      {
        var _ := house.Unsubscribe(endpoint, false, true, now, gap, reached);
        forall e | e in was.pidFiles && OthersFile(was, endpoint, self, e)
          ensures e in house.pidFiles && house.pidFiles[e] == was.pidFiles[e]
        {
          BeatsKeepPidFile(Remove(was, endpoint), gap, e);
        }
      }
      ReleasePidFile();
    }
  }

  lemma {:induction false} BeatsKeepPidFile(w: World, k: nat, e: string)
    requires e in w.pidFiles && !DeadRow(w, e)
    ensures !DeadRow(Beats(w, k), e)
    ensures e in Beats(w, k).pidFiles && Beats(w, k).pidFiles[e] == w.pidFiles[e]
  {
    if k > 0 {
      BeatsKeepPidFile(w, k - 1, e);
    }
  }
}
