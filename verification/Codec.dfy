/**
 Endpoint names and the backing objects named after them. A queue's object is
 QUEUE_ and the endpoint with its dot written as an underscore; a listing of the
 store reads the names back.
 */
module Codec {
  import opened Basics
  import opened Findings

  predicate NameChar(c: char) {
    'a' <= c <= 'z' || '0' <= c <= '9' || c == '-'
  }

  predicate Segment(s: string) {
    s != "" && forall c :: c in s ==> NameChar(c)
  }

  /** The first index of c, or the length. */
  function IndexOf(s: string, c: char): (i: nat)
    ensures i <= |s| && c !in s[..i] && (i < |s| ==> s[i] == c)
  {
    if s == "" || s[0] == c then 0 else 1 + IndexOf(s[1..], c)
  }

  predicate ValidEndpoint(e: string) {
    var i := IndexOf(e, '.');
    i < |e| && Segment(e[..i]) && Segment(e[i + 1..])
  }

  /** Small letters, digits and hyphens, at least one. */
  lemma SegmentIff(s: string)
    ensures Segment(s) <==> s != "" && forall c :: c in s ==> 'a' <= c <= 'z' || '0' <= c <= '9' || c == '-'
  {
  }

  /** Two segments around a dot are an endpoint. */
  lemma TwoSegmentsAreAnEndpoint(a: string, b: string)
    requires Segment(a) && Segment(b)
    ensures ValidEndpoint(a + "." + b)
  {
    var e := a + "." + b;
    var i := IndexOf(e, '.');
    assert forall k :: 0 <= k < |a| ==> a[k] in a && e[k] == a[k];
    assert e[|a|] == '.';
    assert e[..|a|] == a && e[|a| + 1..] == b;
  }

  /** And nothing else is one. */
  lemma AnEndpointIsTwoSegments(e: string) returns (a: string, b: string)
    requires ValidEndpoint(e)
    ensures e == a + "." + b && Segment(a) && Segment(b)
  {
    var i := IndexOf(e, '.');
    a, b := e[..i], e[i + 1..];
  }

  /** The namespace of an endpoint; empty for anything unqualified. */
  function Instance(e: string): string {
    var i := IndexOf(e, '.');
    if i == |e| then "" else e[..i]
  }

  function Replace(s: string, from: char, to: char): (r: string)
    ensures |r| == |s| && forall i :: 0 <= i < |s| ==> r[i] == if s[i] == from then to else s[i]
  {
    seq(|s|, i requires 0 <= i < |s| => if s[i] == from then to else s[i])
  }

  const PREFIX := "QUEUE_"

  function StreamName(e: string): string {
    PREFIX + Replace(e, '.', '_')
  }

  function EndpointOfStream(name: string): Option<string> {
    if !(PREFIX <= name) then None
    else
      var e := Replace(name[|PREFIX|..], '_', '.');
      if ValidEndpoint(e) then Some(e) else None
  }

  // ---------------------------------------------------------------- the codec

  lemma NoUnderscore(e: string)
    requires ValidEndpoint(e)
    ensures '_' !in e
  {
    var i := IndexOf(e, '.');
    assert e == e[..i] + ['.'] + e[i + 1..];
  }

  /** The name of an endpoint's object reads back as that endpoint. */
  lemma NameReadsBack(e: string)
    requires ValidEndpoint(e)
    ensures EndpointOfStream(StreamName(e)) == Some(e)
  {
    NoUnderscore(e);
    assert StreamName(e)[|PREFIX|..] == Replace(e, '.', '_');
    assert Replace(Replace(e, '.', '_'), '_', '.') == e;
  }

  lemma StreamNameInjective(e: string, f: string)
    requires ValidEndpoint(e) && ValidEndpoint(f) && StreamName(e) == StreamName(f)
    ensures e == f
  {
    NameReadsBack(e);
    NameReadsBack(f);
  }

  /** A name that reads as an endpoint is that endpoint's own object exactly when it holds no dot. */
  lemma NameIsRebuiltIff(name: string)
    requires EndpointOfStream(name).Some?
    ensures StreamName(EndpointOfStream(name).value) == name <==> '.' !in name
  {
    var rest := name[|PREFIX|..];
    var e := EndpointOfStream(name).value;
    assert name == PREFIX + rest;
    NoUnderscore(e);
    assert '.' !in PREFIX;
    if '.' !in name {
      assert forall i :: 0 <= i < |rest| ==> rest[i] in name;
      assert Replace(e, '.', '_') == rest;
    } else {
      var i :| 0 <= i < |rest| && rest[i] == '.';
      assert StreamName(e)[|PREFIX| + i] == '_';
    }
  }

  /** A store that let a dot into a name could hold two objects that read as one endpoint. */
  lemma DottedNameCollides()
    ensures EndpointOfStream("QUEUE_a_b") == Some("a.b") && EndpointOfStream("QUEUE_a.b") == Some("a.b")
  {
    assert Replace("a_b", '_', '.') == "a.b" && Replace("a.b", '_', '.') == "a.b";
    assert "QUEUE_a_b"[|PREFIX|..] == "a_b" && "QUEUE_a.b"[|PREFIX|..] == "a.b";
    var e := "a.b";
    assert IndexOf(e[1..], '.') == 0;
    assert IndexOf(e, '.') == 1 && e[..1] == "a" && e[2..] == "b";
  }

  /** An endpoint is its instance, one dot, and an agent. */
  lemma InstanceSplits(e: string)
    requires ValidEndpoint(e)
    ensures Segment(Instance(e)) && exists agent :: Segment(agent) && e == Instance(e) + "." + agent
  {
    var i := IndexOf(e, '.');
    assert e == e[..i] + "." + e[i + 1..];
  }

  // ---------------------------------------------------------------- the listings

  predicate IsQueue(name: string) {
    PREFIX <= name
  }

  /** The endpoints the store's names read as. */
  function Named(names: seq<string>): seq<string> {
    if names == [] then []
    else
      var rest, e := Named(names[..|names| - 1]), EndpointOfStream(names[|names| - 1]);
      if e.Some? then rest + [e.value] else rest
  }

  /** The queue objects that read as no endpoint. */
  function Unnamed(names: seq<string>): seq<string> {
    if names == [] then []
    else
      var rest, name := Unnamed(names[..|names| - 1]), names[|names| - 1];
      if IsQueue(name) && EndpointOfStream(name).None? then rest + [name] else rest
  }

  method Queues(names: seq<string>) returns (out: seq<string>)
    ensures SortedWeakly(out) && multiset(out) == multiset(Named(names))
  {
    out := [];
    for i := 0 to |names|
      invariant out == Named(names[..i])
    {
      assert names[..i + 1][..i] == names[..i];
      var e := EndpointOfStream(names[i]);
      if e.Some? {
        out := out + [e.value];
      }
    }
    assert names[..|names|] == names;
    SortedSorts(out);
    out := Sorted(out);
  }

  method UnqualifiedQueues(names: seq<string>) returns (out: seq<string>)
    ensures SortedWeakly(out) && multiset(out) == multiset(Unnamed(names))
  {
    out := [];
    for i := 0 to |names|
      invariant out == Unnamed(names[..i])
    {
      assert names[..i + 1][..i] == names[..i];
      if !IsQueue(names[i]) {
        continue;
      }
      if EndpointOfStream(names[i]).Some? {
        continue;
      }
      out := out + [names[i]];
    }
    assert names[..|names|] == names;
    SortedSorts(out);
    out := Sorted(out);
  }

  lemma {:induction false} NamedMembers(names: seq<string>)
    ensures forall e :: e in Named(names) <==> exists name :: name in names && EndpointOfStream(name) == Some(e)
  {
    if names != [] {
      var init, last := names[..|names| - 1], names[|names| - 1];
      NamedMembers(init);
      assert names == init + [last];
      forall e
        ensures e in Named(names) <==> exists name :: name in names && EndpointOfStream(name) == Some(e)
      {
        if e in Named(init) {
          var name :| name in init && EndpointOfStream(name) == Some(e);
          assert name in names;
        }
        if EndpointOfStream(last) == Some(e) {
          assert last in names;
        }
      }
    }
  }

  lemma {:induction false} UnnamedMembers(names: seq<string>)
    ensures forall name :: name in Unnamed(names) <==> name in names && IsQueue(name) && EndpointOfStream(name).None?
  {
    if names != [] {
      UnnamedMembers(names[..|names| - 1]);
      assert names == names[..|names| - 1] + [names[|names| - 1]];
    }
  }

  /** Every queue object of the store is in one listing and not in the other, and nothing else is in either. */
  lemma {:induction false} ListingsCount(names: seq<string>)
    ensures |Named(names)| + |Unnamed(names)| == Count(names, IsQueue)
  {
    if names != [] {
      ListingsCount(names[..|names| - 1]);
    }
  }

  lemma ListingsPartition(names: seq<string>, name: string)
    requires name in names && forall n :: n in names ==> '.' !in n
    ensures IsQueue(name) <==> name in Unnamed(names) || exists e :: e in Named(names) && StreamName(e) == name
    ensures !(name in Unnamed(names) && exists e :: e in Named(names) && StreamName(e) == name)
  {
    NamedMembers(names);
    UnnamedMembers(names);
    if EndpointOfStream(name).Some? {
      NameIsRebuiltIff(name);
    }
    forall e | e in Named(names) && StreamName(e) == name
      ensures EndpointOfStream(name) == Some(e)
    {
      NameReadsBack(e);
    }
  }
}
