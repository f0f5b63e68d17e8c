/**
 A later try names a seat only when the count entails it.

 The proof follows two sequences beside the machine: the arrivals seen for the
 open streak and for the open window. While the watch has not been cut, the
 queue and the two together agree from the back: one is a suffix of the other.
 */
module BellNames {
  import opened Basics
  import opened BellSpec

  /** The arrivals counted for the open streak and for the open window. */
  datatype Track = Track(streak: seq<string>, window: seq<string>)

  function Seen(t: Track): seq<string> {
    t.streak + t.window
  }

  /** The window's arrivals become the streak's when a ring opens it, unless the ring keeps no names. */
  function TrackFire(b: Bell, t: Track): Track {
    if Opened(b).streak.senders == [] then Track([], []) else Track(t.window, [])
  }

  /** A streak that closes takes its arrivals with it. */
  function TrackClose(b: Bell, t: Track): Track {
    if b.streak.n == 0 then t.(streak := []) else t
  }

  function TrackNext(w: World, c: Config, t: Track, st: Step): Track
    requires Enabled(w, st)
  {
    match st
    case Arrive(s) => t.(window := t.window + [s])
    case Unseen(_) => t
    case Take(_) => t
    case Lose => t
    case Rejoin => t
    case AskBacklog(heard, counter, _, _) =>
      if !heard || !counter then t
      else if w.queue == [] then (if w.bell.cut then Track([], []) else t)
      else
        var fired := if |w.queue| > w.bell.window.pending || w.bell.cut then Track([], []) else TrackFire(w.bell, t);
        TrackClose(Next(w, c, st).bell, fired)
    case WindowEnds(_, _) => TrackClose(Next(w, c, st).bell, TrackFire(w.bell, t))
    case NextTry(heard, counter, _, _) =>
      if heard && counter && w.queue == [] then Track([], if w.bell.cut then [] else t.window)
      else TrackClose(Next(w, c, st).bell, t)
    case Leave => Track([], [])
  }

  /** One of the two is a suffix of the other, and the counted side is whole when it is the shorter. */
  ghost predicate Agree(queue: seq<string>, counted: seq<string>, known: nat) {
    IsSuffix(queue, counted) || (|counted| == known && IsSuffix(counted, queue))
  }

  /** names covers the counted arrivals, exactly when every one of them was counted by name. */
  ghost predicate Covers(names: seq<string>, counted: seq<string>, known: nat) {
    && |counted| <= known
    && "" !in counted
    && Elems(counted) <= Elems(names)
    && (|counted| == known ==> Elems(counted) == Elems(names))
  }

  ghost predicate Shape(w: World) {
    var b := w.bell;
    && (b.window.pending == 0 ==> b.window.senders == [] && !b.window.blind)
    && (b.streak.n == 0 <==> b.streak.senders == [])
    && Distinct(b.window.senders) && Distinct(b.streak.senders)
    && "" !in b.window.senders
    && (!w.connected ==> b.cut)
    && (b.cut && b.back ==> w.connected)
  }

  ghost predicate WindowInv(queue: seq<string>, v: Window, window: seq<string>) {
    && |window| <= v.pending
    && Agree(queue, window, v.pending)
    && (!v.blind ==> Covers(v.senders, window, v.pending))
  }

  ghost predicate StreakInv(queue: seq<string>, b: Bell, t: Track) {
    && (b.streak.n == 0 ==> t.streak == [])
    && (b.streak.n > 0 ==> Covers(b.streak.senders, t.streak, b.streak.n))
    && Agree(queue, Seen(t), b.streak.n + b.window.pending)
  }

  ghost predicate Inv(w: World, t: Track) {
    && Shape(w)
    && (!w.bell.stopped && !w.bell.cut ==>
        WindowInv(w.queue, w.bell.window, t.window) && StreakInv(w.queue, w.bell, t))
  }

  lemma TakeAgrees(queue: seq<string>, counted: seq<string>, known: nat, n: nat)
    requires Agree(queue, counted, known) && n <= |queue|
    ensures Agree(queue[n..], counted, known)
  {
    if IsSuffix(queue, counted) {
      assert counted[|counted| - |queue[n..]|..] == queue[n..];
    } else if n <= |queue| - |counted| {
      assert queue[n..][|queue[n..]| - |counted|..] == counted;
    } else {
      assert counted[|counted| - |queue[n..]|..] == queue[n..];
    }
  }

  lemma ArriveAgrees(queue: seq<string>, counted: seq<string>, known: nat, s: string)
    requires Agree(queue, counted, known)
    ensures Agree(queue + [s], counted + [s], known + 1)
  {
    var q, k := queue + [s], counted + [s];
    if IsSuffix(queue, counted) {
      assert k[|k| - |q|..] == q;
    } else {
      assert q[|q| - |k|..] == k;
    }
  }

  lemma ElemsSnoc(s: seq<string>, x: string)
    ensures Elems(s + [x]) == Elems(s) + {x}
  {
  }

  lemma ElemsConcat(s: seq<string>, t: seq<string>)
    ensures Elems(s + t) == Elems(s) + Elems(t)
  {
  }

  lemma {:induction false} UnionElems(names: seq<string>, more: seq<string>)
    requires Distinct(names)
    ensures Elems(Union(names, more)) == Elems(names) + Elems(more)
    ensures Distinct(Union(names, more))
  {
    if more != [] {
      var init, last := more[..|more| - 1], more[|more| - 1];
      UnionElems(names, init);
      assert more == init + [last];
      ElemsSnoc(init, last);
      ElemsSnoc(Union(names, init), last);
    }
  }

  lemma NoteCovers(names: seq<string>, counted: seq<string>, known: nat, s: string)
    requires Covers(names, counted, known) && s != ""
    ensures Covers(Note(names, s), counted + [s], known + 1)
  {
    ElemsSnoc(counted, s);
    ElemsSnoc(names, s);
    if s in names {
      assert Elems(names) == Elems(names) + {s};
    }
  }

  /** A try touches neither the window nor the connection, and keeps the streak's names or drops them. */
  lemma TryFrame(b: Bell, c: Config, answer: Answer, now: nat)
    ensures var b' := Try(b, c, answer, now);
            && b'.window == b.window && b'.cut == b.cut && b'.back == b.back && b'.stopped == b.stopped
            && ((b'.streak.n == b.streak.n && b'.streak.senders == b.streak.senders)
                || b'.streak == NO_STREAK)
  {
  }

  lemma EmptyAgrees(queue: seq<string>)
    ensures Agree(queue, [], 0)
  {
    assert queue[|queue|..] == [];
  }

  /** Closing the streak forgets its arrivals and keeps the window's agreement. */
  lemma TryKeeps(w: World, c: Config, t: Track, answer: Answer, now: nat)
    requires Inv(w, t)
    ensures Inv(w.(bell := Try(w.bell, c, answer, now)), TrackClose(Try(w.bell, c, answer, now), t))
  {
    TryFrame(w.bell, c, answer, now);
    assert Seen(t.(streak := [])) == t.window;
  }

  lemma OpenedKeeps(w: World, t: Track)
    requires Inv(w, t)
    ensures Inv(w.(bell := Opened(w.bell)), TrackFire(w.bell, t))
  {
    EmptyAgrees(w.queue);
    assert Seen(Track(t.window, [])) == t.window;
    assert Seen(Track([], [])) == [];
  }

  lemma FireKeeps(w: World, c: Config, t: Track, answer: Answer, now: nat)
    requires Inv(w, t)
    ensures Inv(w.(bell := Fire(w.bell, c, answer, now)),
                TrackClose(Fire(w.bell, c, answer, now), TrackFire(w.bell, t)))
  {
    OpenedKeeps(w, t);
    var t1 := TrackFire(w.bell, t);
    if w.bell.stopped || w.bell.window.pending == 0 {
      assert TrackClose(Opened(w.bell), t1) == t1;
    } else {
      TryKeeps(w.(bell := Opened(w.bell)), c, t1, answer, now);
    }
  }

  lemma ArriveKeeps(w: World, t: Track, s: string)
    requires Inv(w, t) && w.connected
    ensures Inv(w.(bell := Arrived(w.bell, s), queue := w.queue + [s]), t.(window := t.window + [s]))
  {
    var b := w.bell;
    if !b.stopped && !b.cut {
      ArriveAgrees(w.queue, t.window, b.window.pending, s);
      ArriveAgrees(w.queue, Seen(t), b.streak.n + b.window.pending, s);
      assert t.streak + (t.window + [s]) == Seen(t) + [s];
      if !b.window.blind && s != "" {
        NoteCovers(b.window.senders, t.window, b.window.pending, s);
      }
    }
  }

  lemma TakeKeeps(w: World, t: Track, n: nat)
    requires Inv(w, t) && n <= |w.queue|
    ensures Inv(w.(queue := w.queue[n..]), t)
  {
    var b := w.bell;
    if !b.stopped && !b.cut {
      TakeAgrees(w.queue, t.window, b.window.pending, n);
      TakeAgrees(w.queue, Seen(t), b.streak.n + b.window.pending, n);
    }
  }

  /** An empty queue restores the agreement from nothing. */
  lemma EmptyQueueRestores(w: World)
    requires Shape(w) && w.queue == []
    ensures Inv(w, Track([], []))
  {
    assert Seen(Track([], [])) == [];
    assert IsSuffix<string>([], []);
  }

  lemma EmptyBacklogKeeps(w: World, c: Config, t: Track, st: Step)
    requires st.AskBacklog? && Inv(w, t) && Enabled(w, st)
    requires st.heard && st.counter && !w.bell.stopped && w.queue == []
    ensures Inv(Next(w, c, st), TrackNext(w, c, t, st))
  {
    var b := w.bell;
    if b.cut {
      var b1 := b.(back := b.back || b.cut, cut := false);
      EmptyQueueRestores(w.(bell := b1.(window := b.window.(senders := []))));
    }
  }

  /** A window opened blind keeps no names, so nothing before it is remembered. */
  lemma BlindBacklogKeeps(w: World, c: Config, t: Track, st: Step)
    requires st.AskBacklog? && Inv(w, t) && Enabled(w, st)
    requires st.heard && st.counter && !w.bell.stopped && w.queue != []
    requires w.bell.cut || |w.queue| > w.bell.window.pending
    ensures Inv(Next(w, c, st), TrackNext(w, c, t, st))
  {
    var b := w.bell;
    var o := Opened(b.(back := b.back || b.cut, cut := false, window := Backlogged(b.window, b.cut, |w.queue|)));
    EmptyAgrees(w.queue);
    assert Seen(Track([], [])) == [];
    assert o.streak == NO_STREAK;
    assert Inv(w.(bell := o), Track([], []));
    TryKeeps(w.(bell := o), c, Track([], []), st.answer, st.now);
  }

  /** A backlog whose count the tally covers fires with the names it has. */
  lemma SeenBacklogKeeps(w: World, c: Config, t: Track, st: Step)
    requires st.AskBacklog? && Inv(w, t) && Enabled(w, st)
    requires st.heard && st.counter && !w.bell.stopped && w.queue != []
    requires !w.bell.cut && |w.queue| <= w.bell.window.pending
    ensures Inv(Next(w, c, st), TrackNext(w, c, t, st))
  {
    var b := w.bell;
    var w1 := w.(bell := b.(window := Backlogged(b.window, b.cut, |w.queue|)));
    assert w1.bell == b.(back := b.back || b.cut, cut := false, window := w1.bell.window);
    assert Inv(w1, t);
    FireKeeps(w1, c, t, st.answer, st.now);
  }

  lemma BacklogKeeps(w: World, c: Config, t: Track, st: Step)
    requires st.AskBacklog? && Inv(w, t) && Enabled(w, st)
    ensures Inv(Next(w, c, st), TrackNext(w, c, t, st))
  {
    var b := w.bell;
    if st.heard && st.counter && !b.stopped {
      if w.queue == [] {
        EmptyBacklogKeeps(w, c, t, st);
      } else if b.cut || |w.queue| > b.window.pending {
        BlindBacklogKeeps(w, c, t, st);
      } else {
        SeenBacklogKeeps(w, c, t, st);
      }
    }
  }

  /** A counted, empty queue clears the streak, and a queue that was cut off is known again. */
  lemma EmptyAgainKeeps(w: World, c: Config, t: Track, st: Step)
    requires st.NextTry? && Inv(w, t) && Enabled(w, st)
    requires !w.bell.stopped && st.counter && st.heard && w.queue == []
    ensures Inv(Next(w, c, st), TrackNext(w, c, t, st))
  {
    assert Seen(t.(streak := [])) == t.window;
    if w.bell.cut {
      var w2 := Next(w, c, st);
      if !w2.bell.cut {
        EmptyQueueRestores(w2);
      }
    }
  }

  lemma RingAgainKeeps(w: World, c: Config, t: Track, st: Step)
    requires st.NextTry? && Inv(w, t) && Enabled(w, st)
    requires !w.bell.stopped && st.counter && st.heard && w.queue != []
    ensures Inv(Next(w, c, st), TrackNext(w, c, t, st))
  {
    var b := w.bell;
    var w1 := w.(bell := b.(streak := b.streak.(next := None)));
    assert Inv(w1, t);
    TryKeeps(w1, c, t, st.answer, st.now);
  }

  lemma AgainKeeps(w: World, c: Config, t: Track, st: Step)
    requires st.NextTry? && Inv(w, t) && Enabled(w, st)
    ensures Inv(Next(w, c, st), TrackNext(w, c, t, st))
  {
    assert Seen(t.(streak := [])) == t.window;
    if !w.bell.stopped && st.counter && st.heard {
      if w.queue == [] {
        EmptyAgainKeeps(w, c, t, st);
      } else {
        RingAgainKeeps(w, c, t, st);
      }
    }
  }

  lemma StepKeeps(w: World, c: Config, t: Track, st: Step)
    requires Inv(w, t) && Enabled(w, st)
    ensures Inv(Next(w, c, st), TrackNext(w, c, t, st))
  {
    match st
    case Arrive(s) => ArriveKeeps(w, t, s);
    case Take(n) => TakeKeeps(w, t, n);
    case AskBacklog(_, _, _, _) => BacklogKeeps(w, c, t, st);
    case WindowEnds(answer, now) => FireKeeps(w, c, t, answer, now);
    case NextTry(_, _, _, _) => AgainKeeps(w, c, t, st);
    case _ =>
  }

  lemma {:induction false} RunKeeps(w: World, c: Config, t: Track, steps: seq<Step>, w': World) returns (t': Track)
    requires Inv(w, t) && Run(w, c, steps, w')
    ensures Inv(w', t')
    decreases |steps|
  {
    t' := t;
    if steps != [] {
      StepKeeps(w, c, t, steps[0]);
      t' := RunKeeps(Next(w, c, steps[0]), c, TrackNext(w, c, t, steps[0]), steps[1..], w');
    }
  }

  /** At the two comparisons laterNames makes, the queue is the counted arrivals' own tail. */
  lemma NamesAreTheQueue(w: World, t: Track)
    requires Inv(w, t) && !w.bell.stopped && w.queue != []
    requires LaterNames(w.bell, |w.queue|) != []
    ensures Elems(LaterNames(w.bell, |w.queue|)) == Elems(w.queue)
    ensures Distinct(LaterNames(w.bell, |w.queue|)) && "" !in w.queue
  {
    var b := w.bell;
    var names := LaterNames(b, |w.queue|);
    var all := Seen(t);
    var known := b.streak.n + b.window.pending;
    UnionElems(b.streak.senders, b.window.senders);
    ElemsConcat(t.streak, t.window);
    assert IsSuffix(w.queue, all);
    assert forall x :: x in w.queue ==> x in all;
    assert Elems(all) <= Elems(names);
    if |names| == 1 {
      assert names == [names[0]];
      assert w.queue[0] in Elems(names);
    } else {
      assert |all| == known && w.queue == all;
    }
  }

  /**
   In every run, whenever a later try names anyone, the names are exactly the
   senders of the mail then in the queue, each once.
   */
  lemma LaterNamesExact(w0: World, c: Config, steps: seq<Step>, w: World)
    requires Starts(w0) && Run(w0, c, steps, w) && !w.bell.stopped && w.queue != []
    requires LaterNames(w.bell, |w.queue|) != []
    ensures Elems(LaterNames(w.bell, |w.queue|)) == Elems(w.queue)
    ensures Distinct(LaterNames(w.bell, |w.queue|)) && "" !in w.queue
  {
    assert IsSuffix([], w0.queue) by {
      assert w0.queue[|w0.queue|..] == [];
    }
    assert Seen(Track([], [])) == [];
    assert Inv(w0, Track([], []));
    var t := RunKeeps(w0, c, Track([], []), steps, w);
    NamesAreTheQueue(w, t);
  }

  // ---------------------------------------------------------------- naming does happen

  /** The seat after the mail arrives, one message after another, with the watch up. */
  function Delivered(mail: seq<string>): World {
    if mail == [] then World(NEW_BELL, [], true)
    else
      var w := Delivered(mail[..|mail| - 1]);
      World(Arrived(w.bell, mail[|mail| - 1]), w.queue + [mail[|mail| - 1]], true)
  }

  lemma {:induction false} DeliveredWindow(mail: seq<string>)
    requires "" !in mail
    ensures var w := Delivered(mail);
            && w.queue == mail && w.bell.window.pending == |mail| && !w.bell.window.blind
            && Elems(w.bell.window.senders) == Elems(mail) && Distinct(w.bell.window.senders)
            && !w.bell.cut && !w.bell.stopped && w.bell.streak == NO_STREAK
  {
    if mail != [] {
      var init, last := mail[..|mail| - 1], mail[|mail| - 1];
      DeliveredWindow(init);
      assert mail == init + [last];
      ElemsSnoc(init, last);
      ElemsSnoc(Delivered(init).bell.window.senders, last);
    }
  }

  /** A first try with tries left keeps the streak open under its names. */
  lemma FirstTryKeepsNames(o: Bell, c: Config, answer: Answer, now: nat)
    requires c.maxTries > 1 && !o.stopped && o.streak.tries == 0
    ensures var s := Try(o, c, answer, now).streak;
            s.next.Some? && s.senders == o.streak.senders && s.n == o.streak.n
  {
    RingFrame(o, c, answer, now);
  }

  /** With nothing arrived since, the names of an open streak are the first ring's own. */
  lemma OpenStreakNames(b: Bell)
    requires !b.window.blind && !b.cut && b.window.senders == [] && b.window.pending == 0
    ensures LaterNames(b, b.streak.n) == b.streak.senders
  {
  }

  /** Of any mail that is all seen and all parses, the second try names every sender. */
  lemma SecondTryNamesAll(c: Config, mail: seq<string>, answer: Answer, now: nat)
    requires c.maxTries > 1 && mail != [] && "" !in mail
    ensures var b := Fire(Delivered(mail).bell, c, answer, now);
            b.streak.next.Some? && Elems(LaterNames(b, |mail|)) == Elems(mail)
  {
    DeliveredWindow(mail);
    var w := Delivered(mail);
    assert mail[0] in Elems(mail);
    assert w.bell.window.senders != [];
    var o := Opened(w.bell);
    FirstTryKeepsNames(o, c, answer, now);
    TryFrame(o, c, answer, now);
    OpenStreakNames(Try(o, c, answer, now));
  }
}
