/**
 Where a seat's three records disagree: the ledger rows, the queues and the
 processes. One list of findings, which the sweep acts on and status prints.
 */
module Findings {
  import opened Basics

  /** A process is its pid and its start time; started is None when it was never readable. */
  datatype Process = Process(pid: int, started: Option<nat>)

  datatype Row = Row(endpoint: string, process: Process, registered: nat)

  predicate Alive(p: Process, running: set<Process>) {
    p.pid > 0 && p.started.Some? && p in running
  }

  /** A process with no readable start is dead whatever runs, and any other is alive exactly while it runs. */
  lemma NeverReadableIsDead(p: Process, running: set<Process>)
    ensures p.pid <= 0 || p.started.None? ==> !Alive(p, running)
    ensures p.pid > 0 && p.started.Some? ==> (Alive(p, running) <==> p in running)
  {
  }

  datatype Kind = DeadPid | QueueNoRow | MissingQueue | UnreadableRow

  datatype Finding = Finding(kind: Kind, endpoint: string)

  // ---------------------------------------------------------------- sorting by endpoint

  predicate Before(a: string, b: string) {
    if b == [] then false
    else if a == [] then true
    else a[0] < b[0] || (a[0] == b[0] && Before(a[1..], b[1..]))
  }

  lemma {:induction false} BeforeTotal(a: string, b: string)
    ensures Before(a, b) || a == b || Before(b, a)
    ensures !(Before(a, b) && Before(b, a)) && !Before(a, a)
  {
    if a != [] && b != [] {
      BeforeTotal(a[1..], b[1..]);
      assert a == [a[0]] + a[1..] && b == [b[0]] + b[1..];
    }
    if a != [] {
      BeforeTotal(a[1..], a[1..]);
    }
  }

  lemma {:induction false} BeforeTransitive(a: string, b: string, c: string)
    requires Before(a, b) && Before(b, c)
    ensures Before(a, c)
  {
    if a != [] && a[0] == b[0] && b[0] == c[0] {
      BeforeTransitive(a[1..], b[1..], c[1..]);
    }
  }

  /** The order is that of the characters at the first difference, a shorter text before its extensions. */
  lemma {:induction false} BeforeIsLexical(a: string, b: string)
    ensures Before(a, b) <==>
            exists k :: 0 <= k <= |a| && k < |b| && a[..k] == b[..k] && (k == |a| || a[k] < b[k])
  {
    if a != [] && b != [] && a[0] == b[0] {
      BeforeIsLexical(a[1..], b[1..]);
      if Before(a[1..], b[1..]) {
        var k :| 0 <= k <= |a| - 1 && k < |b| - 1 && a[1..][..k] == b[1..][..k] && (k == |a| - 1 || a[1..][k] < b[1..][k]);
        assert a[..k + 1] == [a[0]] + a[1..][..k] && b[..k + 1] == [b[0]] + b[1..][..k];
      }
      if k :| 0 <= k <= |a| && k < |b| && a[..k] == b[..k] && (k == |a| || a[k] < b[k]) {
        assert k > 0;
        assert a[..k][1..] == a[1..][..k - 1] && b[..k][1..] == b[1..][..k - 1];
        assert k - 1 <= |a[1..]|;
      }
    } else if Before(a, b) {
      assert a[..0] == b[..0];
    }
  }

  ghost predicate SortedStrictly(s: seq<string>) {
    forall i, j :: 0 <= i < j < |s| ==> Before(s[i], s[j])
  }

  ghost predicate SortedWeakly(s: seq<string>) {
    forall i, j :: 0 <= i < j < |s| ==> !Before(s[j], s[i])
  }

  function Insert(s: seq<string>, x: string): seq<string> {
    if s == [] then [x]
    else if Before(x, s[|s| - 1]) then Insert(s[..|s| - 1], x) + [s[|s| - 1]]
    else s + [x]
  }

  /** What sorting by endpoint yields. */
  function Sorted(s: seq<string>): seq<string> {
    if s == [] then [] else Insert(Sorted(s[..|s| - 1]), s[|s| - 1])
  }

  lemma {:induction false} InsertSorts(s: seq<string>, x: string)
    requires SortedWeakly(s)
    ensures SortedWeakly(Insert(s, x)) && multiset(Insert(s, x)) == multiset(s) + multiset{x}
  {
    if s != [] {
      var init, last := s[..|s| - 1], s[|s| - 1];
      assert s == init + [last];
      if Before(x, last) {
        InsertSorts(init, x);
        var r := Insert(init, x);
        forall i | 0 <= i < |r|
          ensures !Before(last, r[i])
        {
          assert r[i] in multiset(r);
          if r[i] == x {
            BeforeTotal(x, last);
          } else {
            assert r[i] in multiset(init);
            assert r[i] in init;
          }
        }
      } else {
        forall i | 0 <= i < |s|
          ensures !Before(x, s[i])
        {
          if Before(x, s[i]) {
            BeforeTotal(s[i], last);
            if s[i] != last {
              assert Before(s[i], last);
              BeforeTransitive(x, s[i], last);
            }
          }
        }
      }
    }
  }

  lemma {:induction false} SortedSorts(s: seq<string>)
    ensures SortedWeakly(Sorted(s)) && multiset(Sorted(s)) == multiset(s)
  {
    if s != [] {
      var init, last := s[..|s| - 1], s[|s| - 1];
      SortedSorts(init);
      InsertSorts(Sorted(init), last);
      assert multiset(s) == multiset(init) + multiset{last} by {
        assert s == init + [last];
      }
    }
  }

  lemma DistinctMultiset(s: seq<string>, t: seq<string>)
    requires Distinct(s) && multiset(s) == multiset(t)
    ensures Distinct(t)
  {
    forall i, j | 0 <= i < j < |t|
      ensures t[i] != t[j]
    {
      if t[i] == t[j] {
        assert t == t[..i] + [t[i]] + t[i + 1..j] + [t[j]] + t[j + 1..];
        assert multiset(s)[t[i]] >= 2;
        OnceInDistinct(s, t[i]);
      }
    }
  }

  lemma {:induction false} OnceInDistinct(s: seq<string>, x: string)
    requires Distinct(s)
    ensures multiset(s)[x] <= 1
  {
    if s != [] {
      OnceInDistinct(s[..|s| - 1], x);
      assert s == s[..|s| - 1] + [s[|s| - 1]];
      if s[|s| - 1] == x {
        assert x !in s[..|s| - 1];
        assert x !in multiset(s[..|s| - 1]);
      }
    }
  }

  /** Distinct endpoints come out strictly ascending, the same ones. */
  lemma SortedOfDistinct(s: seq<string>)
    requires Distinct(s)
    ensures SortedStrictly(Sorted(s)) && Distinct(Sorted(s))
    ensures forall x :: x in Sorted(s) <==> x in s
  {
    SortedSorts(s);
    var t := Sorted(s);
    DistinctMultiset(s, t);
    forall i, j | 0 <= i < j < |t|
      ensures Before(t[i], t[j])
    {
      BeforeTotal(t[i], t[j]);
    }
    forall x
      ensures x in t <==> x in s
    {
      assert x in t <==> x in multiset(t);
      assert x in s <==> x in multiset(s);
    }
  }

  lemma StrictlyDistinct(s: seq<string>)
    requires SortedStrictly(s)
    ensures Distinct(s)
  {
    forall i, j | 0 <= i < j < |s|
      ensures s[i] != s[j]
    {
      BeforeTotal(s[i], s[i]);
    }
  }

  // ---------------------------------------------------------------- the findings

  function DeadOf(rows: seq<Row>, running: set<Process>): seq<string> {
    if rows == [] then []
    else
      var r := rows[|rows| - 1];
      DeadOf(rows[..|rows| - 1], running) + if !Alive(r.process, running) then [r.endpoint] else []
  }

  function MissingOf(rows: seq<Row>, queues: set<string>, running: set<Process>): seq<string> {
    if rows == [] then []
    else
      var r := rows[|rows| - 1];
      MissingOf(rows[..|rows| - 1], queues, running)
      + if Alive(r.process, running) && r.endpoint !in queues then [r.endpoint] else []
  }

  function NoRowOf(queues: seq<string>, rowed: set<string>): seq<string> {
    if queues == [] then []
    else
      var q := queues[|queues| - 1];
      NoRowOf(queues[..|queues| - 1], rowed) + if q !in rowed then [q] else []
  }

  function Tag(kind: Kind, endpoints: seq<string>): (r: seq<Finding>)
    ensures |r| == |endpoints| && forall i :: 0 <= i < |r| ==> r[i] == Finding(kind, endpoints[i])
  {
    seq(|endpoints|, i requires 0 <= i < |endpoints| => Finding(kind, endpoints[i]))
  }

  function Endpoints(rows: seq<Row>): (r: seq<string>)
    ensures |r| == |rows| && forall i :: 0 <= i < |r| ==> r[i] == rows[i].endpoint
  {
    seq(|rows|, i requires 0 <= i < |rows| => rows[i].endpoint)
  }

  /** The four groups of findings, in the order their repairs are made. */
  function Grouped(dead: seq<string>, noRow: seq<string>, missing: seq<string>, bad: seq<string>): seq<Finding> {
    Tag(DeadPid, dead) + Tag(QueueNoRow, noRow) + Tag(MissingQueue, missing) + Tag(UnreadableRow, bad)
  }

  /** The findings: four groups in repair order, each sorted by endpoint. */
  function Report(rows: seq<Row>, unreadable: seq<string>, queues: seq<string>, running: set<Process>): seq<Finding> {
    Grouped(Sorted(DeadOf(rows, running)), Sorted(NoRowOf(queues, Elems(Endpoints(rows)))),
            Sorted(MissingOf(rows, Elems(queues), running)), Sorted(unreadable))
  }

  method Find(rows: seq<Row>, unreadable: seq<string>, queues: seq<string>, running: set<Process>)
    returns (out: seq<Finding>)
    ensures out == Report(rows, unreadable, queues, running)
  {
    var hasQueue: set<string> := {};
    for i := 0 to |queues|
      invariant hasQueue == Elems(queues[..i])
    {
      assert queues[..i + 1] == queues[..i] + [queues[i]];
      hasQueue := hasQueue + {queues[i]};
    }
    assert queues[..|queues|] == queues;
    var hasRow: set<string> := {};
    for i := 0 to |rows|
      invariant hasRow == Elems(Endpoints(rows)[..i])
    {
      assert Endpoints(rows)[..i + 1] == Endpoints(rows)[..i] + [rows[i].endpoint];
      hasRow := hasRow + {rows[i].endpoint};
    }
    assert Endpoints(rows)[..|rows|] == Endpoints(rows);
    var dead, noRow, missing: seq<string> := [], [], [];
    for i := 0 to |rows|
      invariant dead == DeadOf(rows[..i], running)
      invariant missing == MissingOf(rows[..i], hasQueue, running)
    {
      var r := rows[i];
      assert rows[..i + 1][..i] == rows[..i];
      if !Alive(r.process, running) {
        dead := dead + [r.endpoint];
        continue;
      }
      if r.endpoint !in hasQueue {
        missing := missing + [r.endpoint];
      }
    }
    assert rows[..|rows|] == rows;
    for i := 0 to |queues|
      invariant noRow == NoRowOf(queues[..i], hasRow)
    {
      assert queues[..i + 1][..i] == queues[..i];
      if queues[i] !in hasRow {
        noRow := noRow + [queues[i]];
      }
    }
    out := Grouped(Sorted(dead), Sorted(noRow), Sorted(missing), Sorted(unreadable));
  }

  // ---------------------------------------------------------------- the findings are exact

  /** One disagreement between the records, said of one endpoint. */
  ghost predicate Disagrees(f: Finding, rows: seq<Row>, unreadable: seq<string>, queues: seq<string>, running: set<Process>) {
    match f.kind
    case DeadPid => exists r :: r in rows && r.endpoint == f.endpoint && !Alive(r.process, running)
    case QueueNoRow => f.endpoint in queues && forall r :: r in rows ==> r.endpoint != f.endpoint
    case MissingQueue =>
      f.endpoint !in queues && exists r :: r in rows && r.endpoint == f.endpoint && Alive(r.process, running)
    case UnreadableRow => f.endpoint in unreadable
  }

  function Rank(k: Kind): nat {
    match k
    case DeadPid => 0
    case QueueNoRow => 1
    case MissingQueue => 2
    case UnreadableRow => 3
  }

  lemma {:induction false} DeadMembers(rows: seq<Row>, running: set<Process>)
    requires Distinct(Endpoints(rows))
    ensures Distinct(DeadOf(rows, running))
    ensures forall e :: e in DeadOf(rows, running) <==>
              exists r :: r in rows && r.endpoint == e && !Alive(r.process, running)
  {
    if rows != [] {
      var init, last := rows[..|rows| - 1], rows[|rows| - 1];
      assert rows == init + [last];
      assert Endpoints(init) == Endpoints(rows)[..|init|];
      DeadMembers(init, running);
      EndpointMembers(init);
      assert last.endpoint !in Endpoints(init);
      assert last.endpoint !in DeadOf(init, running);
    }
  }

  lemma {:induction false} MissingMembers(rows: seq<Row>, queues: set<string>, running: set<Process>)
    requires Distinct(Endpoints(rows))
    ensures Distinct(MissingOf(rows, queues, running))
    ensures forall e :: e in MissingOf(rows, queues, running) <==>
              e !in queues && exists r :: r in rows && r.endpoint == e && Alive(r.process, running)
  {
    if rows != [] {
      var init, last := rows[..|rows| - 1], rows[|rows| - 1];
      assert rows == init + [last];
      assert Endpoints(init) == Endpoints(rows)[..|init|];
      MissingMembers(init, queues, running);
      EndpointMembers(init);
      assert last.endpoint !in Endpoints(init);
      assert last.endpoint !in MissingOf(init, queues, running);
    }
  }

  lemma {:induction false} NoRowMembers(queues: seq<string>, rowed: set<string>)
    requires Distinct(queues)
    ensures Distinct(NoRowOf(queues, rowed))
    ensures forall e :: e in NoRowOf(queues, rowed) <==> e in queues && e !in rowed
  {
    if queues != [] {
      var init, last := queues[..|queues| - 1], queues[|queues| - 1];
      assert queues == init + [last];
      NoRowMembers(init, rowed);
    }
  }

  lemma EndpointMembers(rows: seq<Row>)
    ensures forall e :: e in Elems(Endpoints(rows)) <==> exists r :: r in rows && r.endpoint == e
  {
    forall r | r in rows
      ensures r.endpoint in Endpoints(rows)
    {
      var i :| 0 <= i < |rows| && rows[i] == r;
      assert Endpoints(rows)[i] == r.endpoint;
    }
  }

  ghost predicate GroupExact(kind: Kind, group: seq<string>,
                             rows: seq<Row>, unreadable: seq<string>, queues: seq<string>, running: set<Process>)
  {
    && SortedStrictly(group)
    && forall e :: e in group <==> Disagrees(Finding(kind, e), rows, unreadable, queues, running)
  }

  lemma DeadGroup(rows: seq<Row>, unreadable: seq<string>, queues: seq<string>, running: set<Process>)
    requires Distinct(Endpoints(rows))
    ensures GroupExact(DeadPid, Sorted(DeadOf(rows, running)), rows, unreadable, queues, running)
  {
    DeadMembers(rows, running);
    SortedOfDistinct(DeadOf(rows, running));
  }

  lemma MissingGroup(rows: seq<Row>, unreadable: seq<string>, queues: seq<string>, running: set<Process>)
    requires Distinct(Endpoints(rows))
    ensures GroupExact(MissingQueue, Sorted(MissingOf(rows, Elems(queues), running)), rows, unreadable, queues, running)
  {
    var missing := MissingOf(rows, Elems(queues), running);
    MissingMembers(rows, Elems(queues), running);
    SortedOfDistinct(missing);
    assert forall e :: e in Elems(queues) <==> e in queues;
    assert forall e :: e in Sorted(missing) <==> e in missing;
  }

  lemma NoRowGroup(rows: seq<Row>, unreadable: seq<string>, queues: seq<string>, running: set<Process>)
    requires Distinct(queues)
    ensures GroupExact(QueueNoRow, Sorted(NoRowOf(queues, Elems(Endpoints(rows)))), rows, unreadable, queues, running)
  {
    NoRowMembers(queues, Elems(Endpoints(rows)));
    EndpointMembers(rows);
    SortedOfDistinct(NoRowOf(queues, Elems(Endpoints(rows))));
  }

  lemma UnreadableGroup(rows: seq<Row>, unreadable: seq<string>, queues: seq<string>, running: set<Process>)
    requires Distinct(unreadable)
    ensures GroupExact(UnreadableRow, Sorted(unreadable), rows, unreadable, queues, running)
  {
    SortedOfDistinct(unreadable);
  }

  /** Group after group, each strictly sorted: what makes every finding stand once. */
  ghost predicate InRepairOrder(s: seq<Finding>) {
    forall i, j :: 0 <= i < j < |s| ==>
      Rank(s[i].kind) < Rank(s[j].kind) || (s[i].kind == s[j].kind && Before(s[i].endpoint, s[j].endpoint))
  }

  /** The order the repairs are made in: dead rows go before any queue is rebuilt, and what is only reported is not between a repair and its kind. */
  lemma RepairsComeInOrder(s: seq<Finding>, i: nat, j: nat)
    requires InRepairOrder(s) && i < j < |s|
    ensures s[j].kind == DeadPid ==> s[i].kind == DeadPid
    ensures s[j].kind == QueueNoRow ==> s[i].kind == DeadPid || s[i].kind == QueueNoRow
    ensures s[j].kind == MissingQueue ==> s[i].kind != UnreadableRow
    ensures s[i].kind == s[j].kind ==> Before(s[i].endpoint, s[j].endpoint)
  {
  }

  lemma TagMembers(kind: Kind, endpoints: seq<string>)
    ensures forall f :: f in Tag(kind, endpoints) <==> f.kind == kind && f.endpoint in endpoints
  {
    forall e | e in endpoints
      ensures Finding(kind, e) in Tag(kind, endpoints)
    {
      var i :| 0 <= i < |endpoints| && endpoints[i] == e;
      assert Tag(kind, endpoints)[i] == Finding(kind, e);
    }
  }

  lemma GroupedInOrder(dead: seq<string>, noRow: seq<string>, missing: seq<string>, bad: seq<string>)
    requires SortedStrictly(dead) && SortedStrictly(noRow) && SortedStrictly(missing) && SortedStrictly(bad)
    ensures InRepairOrder(Grouped(dead, noRow, missing, bad))
  {
  }

  lemma GroupedMembers(dead: seq<string>, noRow: seq<string>, missing: seq<string>, bad: seq<string>, f: Finding)
    ensures f in Grouped(dead, noRow, missing, bad) <==>
            match f.kind
            case DeadPid => f.endpoint in dead
            case QueueNoRow => f.endpoint in noRow
            case MissingQueue => f.endpoint in missing
            case UnreadableRow => f.endpoint in bad
  {
    TagMembers(DeadPid, dead);
    TagMembers(QueueNoRow, noRow);
    TagMembers(MissingQueue, missing);
    TagMembers(UnreadableRow, bad);
  }

  /**
   Findings is exact: it lists each disagreement between distinct rows, queues
   and processes, and nothing else; each stands once, in repair order and by
   endpoint within its kind; and no dead row is also a missing queue.
   */
  lemma FindingsExact(rows: seq<Row>, unreadable: seq<string>, queues: seq<string>, running: set<Process>)
    requires Distinct(Endpoints(rows)) && Distinct(unreadable) && Distinct(queues)
    ensures forall f :: f in Report(rows, unreadable, queues, running)
                   <==> Disagrees(f, rows, unreadable, queues, running)
    ensures InRepairOrder(Report(rows, unreadable, queues, running))
    ensures forall e :: !(Finding(DeadPid, e) in Report(rows, unreadable, queues, running)
                          && Finding(MissingQueue, e) in Report(rows, unreadable, queues, running))
  {
    DeadGroup(rows, unreadable, queues, running);
    NoRowGroup(rows, unreadable, queues, running);
    MissingGroup(rows, unreadable, queues, running);
    UnreadableGroup(rows, unreadable, queues, running);
    var dead, noRow := Sorted(DeadOf(rows, running)), Sorted(NoRowOf(queues, Elems(Endpoints(rows))));
    var missing, bad := Sorted(MissingOf(rows, Elems(queues), running)), Sorted(unreadable);
    GroupedInOrder(dead, noRow, missing, bad);
    forall f
      ensures f in Report(rows, unreadable, queues, running) <==> Disagrees(f, rows, unreadable, queues, running)
    {
      GroupedMembers(dead, noRow, missing, bad, f);
      assert f == Finding(f.kind, f.endpoint);
    }
    NeverDeadAndMissing(rows, unreadable, queues, running);
  }

  lemma NeverDeadAndMissing(rows: seq<Row>, unreadable: seq<string>, queues: seq<string>, running: set<Process>)
    requires Distinct(Endpoints(rows))
    ensures forall e :: !(Disagrees(Finding(DeadPid, e), rows, unreadable, queues, running)
                          && Disagrees(Finding(MissingQueue, e), rows, unreadable, queues, running))
  {
    forall r, s | r in rows && s in rows && r.endpoint == s.endpoint
      ensures r == s
    {
      var i :| 0 <= i < |rows| && rows[i] == r;
      var j :| 0 <= j < |rows| && rows[j] == s;
      assert Endpoints(rows)[i] == Endpoints(rows)[j];
    }
  }
}
