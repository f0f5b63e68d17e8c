/**
 What a courier did, read from its own events. A bell rang only where the stream
 holds a send, the send's own successful result, and an addressee that passes.
 Whether an addressee passes is the caller's rule, a function of the session
 listings the courier saw.
 */
module Courier {
  import opened Basics
  import opened Text

  /** One tool result: said is its message, or else its text, with the runtime's error tags removed. */
  datatype Reply = Reply(isError: bool, success: Option<bool>, said: string, text: string)

  datatype Block =
    | Send(id: string, to: string)
    | ListCall(id: string)
    | Answer(of: string, reply: Reply)
    | Other

  /** One line of the stream. A content that is plain text is an empty list of blocks. */
  datatype Line = Noise | Finish(isError: bool) | Content(blocks: seq<Block>)

  type Rule = (seq<string>, string, string) -> bool

  const NO_RESULT_REASON := "courier gave no result (output unreadable, or the runtime's format changed)"
  const NO_SESSION_REASON := "courier found no matching session"
  const REASON_MAX := 100

  // ---------------------------------------------------------------- results

  /** The first line of a trimmed text, cut. */
  function Cut(t: string): (r: string)
    requires t != "" ==> !IsSpace(t[0])
    ensures t != "" ==> r != ""
    ensures |r| <= REASON_MAX + 1 && '\n' !in r
  {
    var first := Split(t, '\n')[0];
    FirstPiece(t, '\n');
    if |first| <= REASON_MAX then first
    else
      var head := first[..REASON_MAX];
      assert forall c :: c in head ==> c in first;
      assert forall c :: c in head + "…" ==> c in head || c == '…';
      head + "…"
  }

  /** The first line, cut. */
  function Short(s: string): (r: string)
    ensures Trim(s) != "" ==> r != ""
    ensures |r| <= REASON_MAX + 1 && '\n' !in r
  {
    Cut(Trim(s))
  }

  lemma FirstPiece(s: string, sep: char)
    ensures Split(s, sep)[0] <= s
    ensures s != "" && s[0] != sep ==> Split(s, sep)[0] != ""
  {
    if s != "" {
      FirstPiece(s[1..], sep);
    }
  }

  /** The first line whole where it fits, and otherwise its first hundred characters under an ellipsis. */
  lemma ShortKeepsTheFirstLine(s: string)
    ensures var first := Split(Trim(s), '\n')[0];
            if |first| <= 100 then Short(s) == first else Short(s) == first[..100] + "…"
  {
  }

  function Sent(r: Reply): bool {
    !r.isError && r.success == Some(true)
  }

  /** Why a result is not a send. Nothing that is not a send goes without a reason. */
  function Why(r: Reply): (why: string)
    ensures why == "" <==> Sent(r)
  {
    if Sent(r) then ""
    else if Trim(r.said) == "" then "no reason given"
    else
      TrimTwice(r.said);
      Short(Trim(r.said))
  }

  /** The reason is the reply's own words. */
  lemma WhyIsTheReplysOwn(r: Reply)
    requires r.isError || r.success != Some(true)
    ensures Trim(r.said) != "" ==> Why(r) == Short(r.said)
    ensures Trim(r.said) == "" ==> Why(r) == "no reason given"
  {
    TrimTwice(r.said);
  }

  lemma TrimTwice(s: string)
    ensures Trim(Trim(s)) == Trim(s)
  {
    var t := Trim(s);
    if t != "" {
      assert TrimLeft(t) == t;
      assert TrimRight(t) == t;
    }
  }

  // ---------------------------------------------------------------- what the blocks say

  /** The addressee of the last send under this id. */
  function AddresseeOf(bs: seq<Block>, id: string): Option<string> {
    if bs == [] then None
    else
      var b := bs[|bs| - 1];
      if b.Send? && b.id == id then Some(b.to) else AddresseeOf(bs[..|bs| - 1], id)
  }

  /** The last result of a send already made under this id, and not of a listing already asked for under it. */
  function AnswerTo(bs: seq<Block>, id: string): Option<Reply> {
    if bs == [] then None
    else
      var b, init := bs[|bs| - 1], bs[..|bs| - 1];
      if b.Answer? && b.of == id && ListCall(id) !in init && AddresseeOf(init, id).Some? then Some(b.reply)
      else AnswerTo(init, id)
  }

  /** The texts of the listings' own results. */
  function Listings(bs: seq<Block>): seq<string> {
    if bs == [] then []
    else
      var b, init := bs[|bs| - 1], bs[..|bs| - 1];
      Listings(init) + if b.Answer? && ListCall(b.of) in init then [b.reply.text] else []
  }

  /** The sends, in the order called. */
  function Order(bs: seq<Block>): seq<string> {
    if bs == [] then []
    else
      var b := bs[|bs| - 1];
      Order(bs[..|bs| - 1]) + if b.Send? then [b.id] else []
  }

  datatype Verdict = Unanswered | Rang | Undelivered(why: string) | Astray(to: string, delivered: bool, why: string)

  function Judge(bs: seq<Block>, rule: Rule, address: string, id: string): Verdict {
    var to, r := AddresseeOf(bs, id), AnswerTo(bs, id);
    if to.None? || r.None? then Unanswered
    else if !rule(Listings(bs), address, to.value) then Astray(to.value, Sent(r.value), Why(r.value))
    else if Sent(r.value) then Rang
    else Undelivered(Why(r.value))
  }

  lemma {:induction false} OrderNamesSends(bs: seq<Block>, id: string)
    ensures id in Order(bs) <==> AddresseeOf(bs, id).Some?
  {
    if bs != [] {
      OrderNamesSends(bs[..|bs| - 1], id);
    }
  }

  // ---------------------------------------------------------------- the same, by position

  ghost predicate LastSend(bs: seq<Block>, id: string, i: nat) {
    && i < |bs| && bs[i].Send? && bs[i].id == id
    && forall k :: i < k < |bs| && bs[k].Send? ==> bs[k].id != id
  }

  /** A result that counts for id: a send is before it, and no listing under the same id is. */
  ghost predicate Answers(bs: seq<Block>, id: string, j: nat) {
    && j < |bs| && bs[j].Answer? && bs[j].of == id && ListCall(id) !in bs[..j]
    && exists i :: 0 <= i < j && bs[i].Send? && bs[i].id == id
  }

  ghost predicate LastAnswer(bs: seq<Block>, id: string, j: nat) {
    Answers(bs, id, j) && forall k :: j < k < |bs| ==> !Answers(bs, id, k)
  }

  lemma {:induction false} AddresseeByPosition(bs: seq<Block>, id: string)
    ensures AddresseeOf(bs, id).None? ==> forall i :: 0 <= i < |bs| && bs[i].Send? ==> bs[i].id != id
    ensures AddresseeOf(bs, id).Some? ==> exists i: nat :: LastSend(bs, id, i) && bs[i].to == AddresseeOf(bs, id).value
  {
    if bs != [] {
      var init, last := bs[..|bs| - 1], bs[|bs| - 1];
      AddresseeByPosition(init, id);
      if last.Send? && last.id == id {
        assert LastSend(bs, id, |bs| - 1);
      } else if AddresseeOf(init, id).Some? {
        var i: nat :| LastSend(init, id, i) && init[i].to == AddresseeOf(init, id).value;
        assert LastSend(bs, id, i);
      }
    }
  }

  lemma AnswersInit(bs: seq<Block>, id: string, j: nat)
    requires j + 1 < |bs|
    ensures Answers(bs, id, j) <==> Answers(bs[..|bs| - 1], id, j)
  {
    assert bs[..|bs| - 1][..j] == bs[..j];
    if Answers(bs, id, j) {
      var i :| 0 <= i < j && bs[i].Send? && bs[i].id == id;
      assert bs[..|bs| - 1][i].Send?;
    }
  }

  lemma AnswersLast(bs: seq<Block>, id: string)
    requires bs != []
    ensures var init, b := bs[..|bs| - 1], bs[|bs| - 1];
            Answers(bs, id, |bs| - 1) <==> b.Answer? && b.of == id && ListCall(id) !in init && AddresseeOf(init, id).Some?
  {
    var init := bs[..|bs| - 1];
    AddresseeByPosition(init, id);
    assert forall i :: 0 <= i < |init| ==> init[i] == bs[i];
    if AddresseeOf(init, id).Some? {
      var i: nat :| LastSend(init, id, i) && init[i].to == AddresseeOf(init, id).value;
      assert bs[i].Send? && bs[i].id == id;
    }
  }

  lemma AnswersSnoc(bs: seq<Block>, id: string)
    requires bs != []
    ensures var init := bs[..|bs| - 1];
            forall j :: 0 <= j < |init| ==> (Answers(bs, id, j) <==> Answers(init, id, j))
  {
    forall j | 0 <= j < |bs| - 1
      ensures Answers(bs, id, j) <==> Answers(bs[..|bs| - 1], id, j)
    {
      AnswersInit(bs, id, j);
    }
  }

  lemma AnswerStaysLast(bs: seq<Block>, id: string, j: nat)
    requires bs != [] && LastAnswer(bs[..|bs| - 1], id, j) && !Answers(bs, id, |bs| - 1)
    ensures LastAnswer(bs, id, j)
  {
    AnswersSnoc(bs, id);
  }

  lemma {:induction false} AnswerByPosition(bs: seq<Block>, id: string)
    ensures AnswerTo(bs, id).None? ==> forall j :: 0 <= j < |bs| ==> !Answers(bs, id, j)
    ensures AnswerTo(bs, id).Some? ==> exists j: nat :: LastAnswer(bs, id, j) && bs[j].reply == AnswerTo(bs, id).value
  {
    if bs != [] {
      var init := bs[..|bs| - 1];
      AnswerByPosition(init, id);
      AnswersLast(bs, id);
      AnswersSnoc(bs, id);
      if Answers(bs, id, |bs| - 1) {
        assert LastAnswer(bs, id, |bs| - 1);
      } else if AnswerTo(init, id).Some? {
        var j: nat :| LastAnswer(init, id, j) && init[j].reply == AnswerTo(init, id).value;
        AnswerStaysLast(bs, id, j);
      }
    }
  }

  /** What proves a ring: the last send under an id, the last result that counts for it, and an addressee that passes. */
  ghost predicate Proof(bs: seq<Block>, rule: Rule, address: string, id: string, i: nat, j: nat) {
    && LastSend(bs, id, i) && LastAnswer(bs, id, j)
    && !bs[j].reply.isError && bs[j].reply.success == Some(true) && rule(Listings(bs), address, bs[i].to)
  }

  /** What counts as a listing is a result of a listing asked for before it, and nothing else. */
  lemma {:induction false} ListingsByPosition(bs: seq<Block>, text: string)
    ensures text in Listings(bs) <==>
            exists j :: 0 <= j < |bs| && bs[j].Answer? && ListCall(bs[j].of) in bs[..j] && bs[j].reply.text == text
  {
    if bs != [] {
      var init, n := bs[..|bs| - 1], |bs| - 1;
      ListingsByPosition(init, text);
      forall j | 0 <= j < n
        ensures bs[..j] == init[..j] && bs[j] == init[j]
      {
      }
      if text in Listings(init) {
        var j :| 0 <= j < n && init[j].Answer? && ListCall(init[j].of) in init[..j] && init[j].reply.text == text;
        assert bs[j].Answer? && ListCall(bs[j].of) in bs[..j];
      }
      assert bs[..n] == init;
    }
  }

  /** The verdict on an id, by its last send and the last result that counts for it. */
  lemma JudgedByPosition(bs: seq<Block>, rule: Rule, address: string, id: string, i: nat, j: nat)
    requires LastSend(bs, id, i) && LastAnswer(bs, id, j)
    ensures var r, v := bs[j].reply, Judge(bs, rule, address, id);
            var delivered := !r.isError && r.success == Some(true);
            if rule(Listings(bs), address, bs[i].to)
            then (if delivered then v == Rang else v == Undelivered(Why(r)))
            else v == Astray(bs[i].to, delivered, Why(r))
  {
    AddresseeByPosition(bs, id);
    AnswerByPosition(bs, id);
    assert exists k: nat :: LastSend(bs, id, k) && bs[k].to == AddresseeOf(bs, id).value;
    var i': nat :| LastSend(bs, id, i') && bs[i'].to == AddresseeOf(bs, id).value;
    var j': nat :| LastAnswer(bs, id, j') && bs[j'].reply == AnswerTo(bs, id).value;
    assert i == i' && j == j';
  }

  /** An id never answered is not judged. */
  lemma UnansweredByPosition(bs: seq<Block>, rule: Rule, address: string, id: string)
    ensures Judge(bs, rule, address, id).Unanswered? <==>
            !exists i: nat, j: nat :: LastSend(bs, id, i) && LastAnswer(bs, id, j)
  {
    AddresseeByPosition(bs, id);
    AnswerByPosition(bs, id);
    if !Judge(bs, rule, address, id).Unanswered? {
      var i: nat :| LastSend(bs, id, i) && bs[i].to == AddresseeOf(bs, id).value;
      var j: nat :| LastAnswer(bs, id, j) && bs[j].reply == AnswerTo(bs, id).value;
    }
  }

  lemma RangIsProof(bs: seq<Block>, rule: Rule, address: string, id: string)
    ensures Judge(bs, rule, address, id).Rang? <==> exists i: nat, j: nat :: Proof(bs, rule, address, id, i, j)
  {
    AddresseeByPosition(bs, id);
    AnswerByPosition(bs, id);
    if Judge(bs, rule, address, id).Rang? {
      var i: nat :| LastSend(bs, id, i) && bs[i].to == AddresseeOf(bs, id).value;
      var j: nat :| LastAnswer(bs, id, j) && bs[j].reply == AnswerTo(bs, id).value;
      assert Proof(bs, rule, address, id, i, j);
    }
    if i: nat, j: nat :| Proof(bs, rule, address, id, i, j) {
      var i': nat :| LastSend(bs, id, i') && bs[i'].to == AddresseeOf(bs, id).value;
      var j': nat :| LastAnswer(bs, id, j') && bs[j'].reply == AnswerTo(bs, id).value;
      assert i == i' && j == j';
    }
  }

  // ---------------------------------------------------------------- the fold

  function Said(stream: seq<Line>): seq<Block> {
    if stream == [] then []
    else
      var l := stream[|stream| - 1];
      Said(stream[..|stream| - 1]) + if l.Content? then l.blocks else []
  }

  /** Whether the last result event of the stream is not an error. */
  function Finished(stream: seq<Line>): bool {
    if stream == [] then false
    else
      var l := stream[|stream| - 1];
      if l.Finish? then !l.isError else Finished(stream[..|stream| - 1])
  }

  /** A stream has finished when a result event stands in it, is not an error, and none stands behind it. */
  lemma {:induction false} FinishedIsTheLast(stream: seq<Line>)
    ensures Finished(stream) <==>
            exists k :: 0 <= k < |stream| && stream[k] == Finish(false) && forall j :: k < j < |stream| ==> !stream[j].Finish?
  {
    if stream != [] {
      var init, n := stream[..|stream| - 1], |stream| - 1;
      FinishedIsTheLast(init);
      if !stream[n].Finish? {
        if k :| 0 <= k < |init| && init[k] == Finish(false) && forall j :: k < j < |init| ==> !init[j].Finish? {
          assert stream[k] == Finish(false) && forall j :: k < j < |stream| ==> !stream[j].Finish?;
        }
        if k :| 0 <= k < |stream| && stream[k] == Finish(false) && forall j :: k < j < |stream| ==> !stream[j].Finish? {
          assert init[k] == Finish(false) && forall j :: k < j < |init| ==> !init[j].Finish?;
        }
      }
    }
  }

  predicate AllNoise(stream: seq<Line>) {
    forall k :: 0 <= k < |stream| ==> stream[k].Noise?
  }

  lemma {:induction false} NothingSaid(stream: seq<Line>)
    requires AllNoise(stream)
    ensures Said(stream) == [] && !Finished(stream)
  {
    if stream != [] {
      NothingSaid(stream[..|stream| - 1]);
    }
  }

  datatype Evidence = Evidence(
    uses: map<string, string>,
    order: seq<string>,
    results: map<string, Reply>,
    listings: seq<string>,
    listing: set<string>)

  ghost predicate Tracks(e: Evidence, bs: seq<Block>) {
    && (forall id :: AddresseeOf(bs, id) == if id in e.uses then Some(e.uses[id]) else None)
    && (forall id :: AnswerTo(bs, id) == if id in e.results then Some(e.results[id]) else None)
    && (forall id :: id in e.listing <==> ListCall(id) in bs)
    && e.order == Order(bs) && e.listings == Listings(bs)
  }

  method Note(e: Evidence, b: Block, ghost bs: seq<Block>) returns (r: Evidence)
    requires Tracks(e, bs)
    ensures Tracks(r, bs + [b])
  {
    assert (bs + [b])[..|bs|] == bs;
    match b {
      case Send(id, to) =>
        r := e.(uses := e.uses[id := to], order := e.order + [id]);
      case ListCall(id) =>
        r := e.(listing := e.listing + {id});
      case Answer(of, reply) =>
        if of in e.listing {
          r := e.(listings := e.listings + [reply.text]);
        } else if of in e.uses {
          r := e.(results := e.results[of := reply]);
        } else {
          r := e;
        }
      case Other =>
        r := e;
    }
  }

  method Collect(stream: seq<Line>) returns (e: Evidence, events: nat, finished: bool)
    ensures Tracks(e, Said(stream))
    ensures events == 0 ==> AllNoise(stream)
    ensures finished == Finished(stream)
  {
    e, events, finished := Evidence(map[], [], map[], [], {}), 0, false;
    for i := 0 to |stream|
      invariant Tracks(e, Said(stream[..i]))
      invariant events == 0 ==> AllNoise(stream[..i])
      invariant finished == Finished(stream[..i])
    {
      var l := stream[i];
      assert stream[..i + 1][..i] == stream[..i] && stream[..i + 1] == stream[..i] + [l];
      ghost var before := Said(stream[..i]);
      assert Said(stream[..i + 1]) == before + if l.Content? then l.blocks else [];
      assert before + [] == before;
      match l {
        case Noise =>
        case Finish(isError) =>
          events := events + 1;
          finished := !isError;
        case Content(blocks) =>
          events := events + 1;
          e := NoteAll(e, blocks, before);
      }
    }
    assert stream[..|stream|] == stream;
  }

  method NoteAll(e: Evidence, blocks: seq<Block>, ghost before: seq<Block>) returns (r: Evidence)
    requires Tracks(e, before)
    ensures Tracks(r, before + blocks)
  {
    r := e;
    assert before + blocks[..0] == before;
    for k := 0 to |blocks|
      invariant Tracks(r, before + blocks[..k])
    {
      assert before + blocks[..k + 1] == before + blocks[..k] + [blocks[k]];
      r := Note(r, blocks[k], before + blocks[..k]);
    }
    assert blocks[..|blocks|] == blocks;
  }

  // ---------------------------------------------------------------- the outcome

  datatype Stray = Stray(to: string, delivered: bool, why: string)

  /** The answered sends to somebody else, in the order called. */
  function Strays(judged: seq<Verdict>): seq<Stray> {
    if judged == [] then []
    else
      var v := judged[|judged| - 1];
      Strays(judged[..|judged| - 1]) + if v.Astray? then [Stray(v.to, v.delivered, v.why)] else []
  }

  /** The strays stand in the order judged, one for each send that went astray. */
  lemma {:induction false} StraysInOrder(a: seq<Verdict>, b: seq<Verdict>)
    ensures Strays(a + b) == Strays(a) + Strays(b)
  {
    if b == [] {
      assert a + b == a;
    } else {
      assert (a + b)[..|a + b| - 1] == a + b[..|b| - 1];
      StraysInOrder(a, b[..|b| - 1]);
    }
  }

  /** A send that went astray is a stray under its own name, and no other is. */
  lemma StrayOfOne(v: Verdict)
    ensures Strays([v]) == match v case Astray(to, delivered, why) => [Stray(to, delivered, why)] case _ => []
  {
    assert [v][..0] == [];
  }

  /** The order is that of the calls. */
  lemma {:induction false} OrderInOrder(a: seq<Block>, b: seq<Block>)
    ensures Order(a + b) == Order(a) + Order(b)
  {
    if b == [] {
      assert a + b == a;
    } else {
      assert (a + b)[..|a + b| - 1] == a + b[..|b| - 1];
      OrderInOrder(a, b[..|b| - 1]);
    }
  }

  function JudgeAll(bs: seq<Block>, rule: Rule, address: string, order: seq<string>): (r: seq<Verdict>)
    ensures |r| == |order|
    ensures forall k :: 0 <= k < |r| ==> r[k] == Judge(bs, rule, address, order[k])
  {
    seq(|order|, k requires 0 <= k < |order| => Judge(bs, rule, address, order[k]))
  }

  predicate PaneId(address: string) {
    |address| >= 2 && address[0] == '%' && forall c :: c in address[1..] ==> '0' <= c <= '9'
  }

  /** Between the session that was woken and the address that was meant. */
  function NotAt(address: string): string {
    "', " + if PaneId(address) then "not the session on pane " else "not the session named "
  }

  function WrongReason(to: string, address: string): string {
    "courier sent to '" + Short(to) + NotAt(address) + address
  }

  /** The reason names the session that was woken and the address that was meant. */
  lemma WrongReasonNamesBoth(to: string, address: string)
    ensures exists middle :: WrongReason(to, address) == "courier sent to '" + Short(to) + middle + address
  {
    assert WrongReason(to, address) == "courier sent to '" + Short(to) + NotAt(address) + address;
  }

  /** A send that woke the wrong session. */
  predicate Woke(v: Verdict) {
    v.Astray? && v.delivered
  }

  predicate NotSent(v: Verdict) {
    v.Undelivered? || (v.Astray? && !v.delivered)
  }

  /** wrong is the addressee of the last send that woke another session. */
  datatype Tally = Tally(rang: bool, wrong: Option<string>, failed: string, strays: seq<Stray>)

  /** The last of the judged sends that p holds of. */
  ghost predicate LastOf(judged: seq<Verdict>, p: Verdict -> bool, k: int) {
    0 <= k < |judged| && p(judged[k]) && forall j :: k < j < |judged| ==> !p(judged[j])
  }

  ghost predicate SumsWrong(wrong: Option<string>, judged: seq<Verdict>) {
    if wrong.None? then forall k :: 0 <= k < |judged| ==> !Woke(judged[k])
    else exists k :: LastOf(judged, Woke, k) && wrong.value == judged[k].to
  }

  ghost predicate SumsFailed(failed: string, judged: seq<Verdict>) {
    if failed == "" then forall k :: 0 <= k < |judged| ==> !NotSent(judged[k])
    else exists k :: LastOf(judged, NotSent, k) && failed == judged[k].why
  }

  /** What the sends judged so far add up to. */
  ghost predicate Sums(t: Tally, judged: seq<Verdict>) {
    && t.strays == Strays(judged)
    && (t.rang <==> Rang in judged)
    && SumsWrong(t.wrong, judged)
    && SumsFailed(t.failed, judged)
  }

  /** What one more judged send adds. */
  function Add(t: Tally, v: Verdict): Tally {
    match v
    case Unanswered => t
    case Rang => t.(rang := true)
    case Undelivered(why) => t.(failed := why)
    case Astray(to, delivered, why) =>
      var strays := t.strays + [Stray(to, delivered, why)];
      if delivered then t.(strays := strays, wrong := Some(to))
      else t.(strays := strays, failed := why)
  }

  function AddAll(judged: seq<Verdict>): Tally {
    if judged == [] then Tally(false, None, "", [])
    else Add(AddAll(judged[..|judged| - 1]), judged[|judged| - 1])
  }

  /** One send, judged from the maps. */
  method JudgeSend(e: Evidence, rule: Rule, address: string, id: string, ghost bs: seq<Block>) returns (v: Verdict)
    requires Tracks(e, bs)
    ensures v == Judge(bs, rule, address, id)
  {
    if id !in e.results || id !in e.uses {
      return Unanswered;
    }
    var r, to := e.results[id], e.uses[id];
    if !rule(e.listings, address, to) {
      return Astray(to, Sent(r), Why(r));
    }
    if !Sent(r) {
      return Undelivered(Why(r));
    }
    return Rang;
  }

  method Weigh(e: Evidence, rule: Rule, address: string, ghost bs: seq<Block>) returns (t: Tally)
    requires Tracks(e, bs)
    ensures t == AddAll(JudgeAll(bs, rule, address, e.order))
  {
    t := Tally(false, None, "", []);
    ghost var all := JudgeAll(bs, rule, address, e.order);
    for i := 0 to |e.order|
      invariant t == AddAll(all[..i])
    {
      var v := JudgeSend(e, rule, address, e.order[i], bs);
      assert all[..i + 1][..i] == all[..i] && all[i] == v;
      t := Add(t, v);
    }
    assert all[..|all|] == all;
  }

  ghost predicate Reasoned(judged: seq<Verdict>) {
    forall v :: v in judged && NotSent(v) ==> v.why != ""
  }

  lemma {:induction false} AddAllSums(judged: seq<Verdict>)
    requires Reasoned(judged)
    ensures Sums(AddAll(judged), judged)
  {
    if judged != [] {
      var done, v := judged[..|judged| - 1], judged[|judged| - 1];
      assert judged == done + [v];
      AddAllSums(done);
      AddSums(AddAll(done), done, v);
    }
  }

  lemma AddSums(t: Tally, done: seq<Verdict>, v: Verdict)
    requires Sums(t, done) && (NotSent(v) ==> v.why != "")
    ensures Sums(Add(t, v), done + [v])
  {
    StraysSnoc(done, v);
    WrongSnoc(t.wrong, done, v);
    FailedSnoc(t.failed, done, v);
  }

  lemma StraysSnoc(done: seq<Verdict>, v: Verdict)
    ensures Strays(done + [v]) == Strays(done) + if v.Astray? then [Stray(v.to, v.delivered, v.why)] else []
  {
    assert (done + [v])[..|done|] == done;
  }

  lemma WrongSnoc(wrong: Option<string>, done: seq<Verdict>, v: Verdict)
    requires SumsWrong(wrong, done)
    ensures SumsWrong(if Woke(v) then Some(v.to) else wrong, done + [v])
  {
    if !Woke(v) && wrong.Some? {
      var k :| LastOf(done, Woke, k) && wrong.value == done[k].to;
      assert LastOf(done + [v], Woke, k);
    } else if Woke(v) {
      assert LastOf(done + [v], Woke, |done|);
    }
  }

  lemma FailedSnoc(failed: string, done: seq<Verdict>, v: Verdict)
    requires SumsFailed(failed, done) && (NotSent(v) ==> v.why != "")
    ensures SumsFailed(if NotSent(v) then v.why else failed, done + [v])
  {
    if !NotSent(v) && failed != "" {
      var k :| LastOf(done, NotSent, k) && failed == done[k].why;
      assert LastOf(done + [v], NotSent, k);
    } else if NotSent(v) {
      assert LastOf(done + [v], NotSent, |done|);
    }
  }

  ghost predicate Proved(bs: seq<Block>, rule: Rule, address: string) {
    exists id, i: nat, j: nat :: Proof(bs, rule, address, id, i, j)
  }

  lemma ProvedIsJudged(bs: seq<Block>, rule: Rule, address: string)
    ensures Proved(bs, rule, address) <==> Rang in JudgeAll(bs, rule, address, Order(bs))
  {
    var order := Order(bs);
    var judged := JudgeAll(bs, rule, address, order);
    if id, i: nat, j: nat :| Proof(bs, rule, address, id, i, j) {
      RangIsProof(bs, rule, address, id);
      OrderNamesSends(bs, id);
      var k :| 0 <= k < |order| && order[k] == id;
      assert judged[k] == Rang;
    }
    if Rang in judged {
      var k :| 0 <= k < |judged| && judged[k] == Rang;
      RangIsProof(bs, rule, address, order[k]);
      var i: nat, j: nat :| Proof(bs, rule, address, order[k], i, j);
    }
  }

  /**
   Why a bell failed: it woke somebody else, and the last such send is named; or
   else a send failed, and the reason is the last such send's own; or else the courier came to its end without any send; or
   else nothing was proved.
   */
  ghost predicate ReasonOk(reason: string, address: string, judged: seq<Verdict>, finished: bool) {
    if exists k :: LastOf(judged, Woke, k) then
      exists k :: LastOf(judged, Woke, k) && reason == WrongReason(judged[k].to, address)
    else if exists k :: LastOf(judged, NotSent, k) then
      exists k :: LastOf(judged, NotSent, k) && reason == "courier send failed: " + judged[k].why
    else reason == if judged == [] && finished then NO_SESSION_REASON else NO_RESULT_REASON
  }

  ghost predicate OutcomeOk(reason: string, strays: seq<Stray>, address: string, judged: seq<Verdict>, finished: bool) {
    && (reason == "" <==> Rang in judged)
    && (if reason == "" then strays == Strays(judged) else strays == [] && ReasonOk(reason, address, judged, finished))
  }

  method Summed(t: Tally, address: string, ghost judged: seq<Verdict>, ghost finished: bool)
    returns (reason: string, strays: seq<Stray>)
    requires t == AddAll(judged) && Reasoned(judged) && judged != []
    ensures OutcomeOk(reason, strays, address, judged, finished)
  {
    AddAllSums(judged);
    if t.rang {
      return "", t.strays;
    } else if t.wrong.Some? {
      return WrongReason(t.wrong.value, address), [];
    } else if t.failed != "" {
      return "courier send failed: " + t.failed, [];
    } else {
      return NO_RESULT_REASON, [];
    }
  }

  /** The outcome of a courier's run: an empty reason exactly on proof, or why the bell failed. */
  method Outcome(stream: seq<Line>, rule: Rule, address: string) returns (reason: string, strays: seq<Stray>)
    ensures reason == "" <==> Proved(Said(stream), rule, address)
    ensures var judged := JudgeAll(Said(stream), rule, address, Order(Said(stream)));
            OutcomeOk(reason, strays, address, judged, Finished(stream))
  {
    var e, events, finished := Collect(stream);
    ghost var bs := Said(stream);
    ghost var judged := JudgeAll(bs, rule, address, e.order);
    ProvedIsJudged(bs, rule, address);
    if events == 0 {
      NothingSaid(stream);
      return NO_RESULT_REASON, [];
    }
    if |e.order| == 0 {
      return if finished then NO_SESSION_REASON else NO_RESULT_REASON, [];
    }
    var t := Weigh(e, rule, address, bs);
    reason, strays := Summed(t, address, judged, finished);
  }
}
