/**
 Whether a send is a send to the session at an address: the three address forms
 of a courier, and what each of them proves about a ring.
 */
module Addressee {
  import opened Basics
  import opened Text
  import opened Courier

  predicate Digit(c: char) {
    '0' <= c <= '9'
  }

  predicate Digits(s: string) {
    s != "" && forall c :: c in s ==> Digit(c)
  }

  predicate Blank(c: char) {
    c in " \t\n\r\U{000C}"
  }

  /** A pane of a target: digits, after a percent sign or not. */
  predicate PanePart(s: string) {
    Digits(s) || (s != "" && s[0] == '%' && Digits(s[1..]))
  }

  /** A window, after an at sign or not, and a pane behind a dot or none. */
  predicate WindowPart(s: string) {
    var bare := if s != "" && s[0] == '@' then s[1..] else s;
    var parts := Split(bare, '.');
    Digits(parts[0]) && (|parts| == 1 || (|parts| == 2 && PanePart(parts[1])))
  }

  /** A tmux pane target such as house:3.1: a session with no colon and no blank in it, a colon, a window. */
  predicate PaneTarget(address: string) {
    var parts := Split(address, ':');
    && |parts| == 2
    && parts[0] != "" && (forall c :: c in parts[0] ==> !Blank(c))
    && WindowPart(parts[1])
  }

  /** to is its first k characters and a session id in brackets. */
  predicate NamedAt(to: string, k: nat) {
    && k + 3 < |to| && to[k] == ' ' && to[k + 1] == '[' && to[|to| - 1] == ']'
    && ']' !in to[k + 2..|to| - 1] && '\n' !in to[..k]
  }

  /** The longest name to can be split into, at or before k. */
  function NameUpTo(to: string, k: nat): Option<string> {
    if NamedAt(to, k) then Some(to[..k])
    else if k == 0 then None
    else NameUpTo(to, k - 1)
  }

  /** The name in "name [id]". */
  function NameOf(to: string): Option<string> {
    NameUpTo(to, |to|)
  }

  /** The pane stands in the line at i, whole. */
  predicate CarriesAt(line: string, pane: string, i: nat) {
    var j := i + |pane|;
    && j <= |line| && line[i..j] == pane
    && (i == 0 || Blank(line[i - 1]) || line[i - 1] == '.' || line[i - 1] == ':')
    && (j == |line| || !Digit(line[j]))
  }

  predicate Carries(line: string, pane: string) {
    exists i :: 0 <= i <= |line| && CarriesAt(line, pane, i)
  }

  /** What stands before the first dot of a listing line. */
  function FirstField(line: string): string {
    Trim(Split(line, '·')[0])
  }

  /** A field names a session by its name, its name and id, or its id. */
  predicate Names(field: string, to: string) {
    field == to || to + " [" <= field || EndsIn(field, "[" + to + "]")
  }

  predicate EndsIn(s: string, t: string) {
    |t| <= |s| && s[|s| - |t|..] == t
  }

  /** A listing line that shows the session on the pane. */
  predicate Shows(line: string, pane: string, to: string) {
    Carries(line, pane) && Names(FirstField(line), to)
  }

  predicate OnLine(lines: seq<string>, pane: string, to: string) {
    exists line :: line in lines && Shows(line, pane, to)
  }

  predicate OnPane(listings: seq<string>, pane: string, to: string) {
    to != "" && exists l :: l in listings && OnLine(Split(l, '\n'), pane, to)
  }

  /** The rule the outcome is judged by. */
  predicate IsAddressee(listings: seq<string>, address: string, to: string) {
    if PaneId(address) then OnPane(listings, address, to)
    else PaneTarget(address) || to == address || NameOf(to) == Some(address)
  }

  method FindInLines(lines: seq<string>, pane: string, to: string) returns (found: bool)
    ensures found == OnLine(lines, pane, to)
  {
    for k := 0 to |lines|
      invariant !OnLine(lines[..k], pane, to)
    {
      assert lines[..k + 1] == lines[..k] + [lines[k]];
      if Shows(lines[k], pane, to) {
        assert lines[k] in lines;
        return true;
      }
    }
    assert lines[..|lines|] == lines;
    return false;
  }

  /** The pane search, listing by listing and line by line. */
  method FindOnPane(listings: seq<string>, pane: string, to: string) returns (found: bool)
    ensures found == OnPane(listings, pane, to)
  {
    if to == "" {
      return false;
    }
    for i := 0 to |listings|
      invariant forall l :: l in listings[..i] ==> !OnLine(Split(l, '\n'), pane, to)
    {
      assert listings[..i + 1] == listings[..i] + [listings[i]];
      var here := FindInLines(Split(listings[i], '\n'), pane, to);
      if here {
        assert listings[i] in listings;
        return true;
      }
    }
    assert listings[..|listings|] == listings;
    return false;
  }

  // ---------------------------------------------------------------- what the forms prove

  /** A session, a colon and a window, with or without an at sign, and a pane behind a dot or none. */
  lemma TargetForms(session: string, window: string, pane: string)
    requires session != "" && ':' !in session && forall c :: c in session ==> !Blank(c)
    requires Digits(window) && PanePart(pane) && ':' !in pane && '.' !in pane
    ensures PaneTarget(session + ":" + window) && PaneTarget(session + ":" + ("@" + window))
    ensures PaneTarget(session + ":" + (window + "." + pane)) && PaneTarget(session + ":" + ("@" + (window + "." + pane)))
  {
    assert forall c :: c in window ==> Digit(c);
    TargetOf(session, window);
    TargetOf(session, "@" + window);
    TargetOf(session, window + "." + pane);
    TargetOf(session, "@" + (window + "." + pane));
    SplitLine(window, '.');
    SplitLine(pane, '.');
    SplitConcat(window, '.', pane);
    assert window + ['.'] + pane == window + "." + pane;
    assert ("@" + window)[1..] == window && ("@" + (window + "." + pane))[1..] == window + "." + pane;
    assert window[0] in window;
  }

  lemma TargetOf(session: string, window: string)
    requires session != "" && ':' !in session && (forall c :: c in session ==> !Blank(c)) && ':' !in window
    ensures PaneTarget(session + ":" + window) <==> WindowPart(window)
  {
    SplitConcat(session, ':', window);
    SplitLine(session, ':');
    SplitLine(window, ':');
    assert session + [':'] + window == session + ":" + window;
  }

  /** A name with no colon in it, dotted or not, is a name. */
  lemma ADottedNameIsAName(name: string)
    requires ':' !in name
    ensures !PaneTarget(name)
  {
    SplitLine(name, ':');
  }

  lemma {:induction false} NameUpToFinds(to: string, k: nat)
    ensures NameUpTo(to, k).None? ==> forall j :: 0 <= j <= k ==> !NamedAt(to, j)
    ensures NameUpTo(to, k).Some? ==>
              var name := NameUpTo(to, k).value;
              |name| <= k && NamedAt(to, |name|) && name == to[..|name|]
              && forall j :: |name| < j <= k ==> !NamedAt(to, j)
  {
    if !NamedAt(to, k) && k > 0 {
      NameUpToFinds(to, k - 1);
    }
  }

  /** A session's name, alone or with its id as a listing writes it, passes for that name. */
  lemma NamedSessionPasses(listings: seq<string>, name: string, id: string)
    requires !PaneId(name) && '\n' !in name && id != "" && '[' !in id && ']' !in id
    ensures IsAddressee(listings, name, name) && IsAddressee(listings, name, name + " [" + id + "]")
  {
    var to := name + " [" + id + "]";
    assert to[..|name|] == name && to[|name| + 2..|to| - 1] == id;
    assert NamedAt(to, |name|);
    NameUpToFinds(to, |to|);
    assert forall i :: |name| + 2 <= i < |to| - 1 ==> to[i] == id[i - |name| - 2];
    assert forall j :: |name| < j <= |to| ==> !NamedAt(to, j);
  }

  /** And nothing else passes for a name that is neither a pane nor a target. */
  lemma OnlyTheNamedSessionPasses(listings: seq<string>, name: string, to: string)
    requires !PaneId(name) && !PaneTarget(name) && IsAddressee(listings, name, to)
    ensures to == name || exists id :: id != "" && ']' !in id && to == name + " [" + id + "]"
  {
    if to != name {
      NameUpToFinds(to, |to|);
      var id := to[|name| + 2..|to| - 1];
      assert to == name + " [" + id + "]";
    }
  }

  /** A field names a session in three ways and no other. */
  lemma NamesIff(field: string, to: string)
    ensures Names(field, to) <==>
            field == to || (exists rest :: field == to + " [" + rest) || (exists front :: field == front + ("[" + to + "]"))
  {
    if to + " [" <= field {
      assert field == to + " [" + field[|to| + 2..];
    }
    if EndsIn(field, "[" + to + "]") {
      assert field == field[..|field| - |to| - 2] + ("[" + to + "]");
    }
    if front :| field == front + ("[" + to + "]") {
      assert field[|front|..] == "[" + to + "]";
    }
  }

  /** The first field is trimmed, and what it is trimmed of is what stands before the first dot. */
  lemma FirstFieldIs(name: string, rest: string)
    requires '·' !in name && name != "" && !IsSpace(name[0]) && !IsSpace(name[|name| - 1])
    ensures FirstField(name + ['·'] + rest) == name
  {
    SplitConcat(name, '·', rest);
    SplitLine(name, '·');
    assert TrimLeft(name) == name && TrimRight(name) == name;
  }

  /** A bell to a pane id is proved only by a send to a session that a listing in the stream names on a line carrying that pane. */
  lemma APaneNeedsItsListing(bs: seq<Block>, pane: string, id: string, i: nat, j: nat) returns (l: string, line: string)
    requires PaneId(pane) && Proof(bs, IsAddressee, pane, id, i, j)
    ensures bs[i].to != "" && l in Listings(bs) && line in Split(l, '\n')
    ensures Carries(line, pane) && Names(FirstField(line), bs[i].to)
  {
    l :| l in Listings(bs) && OnLine(Split(l, '\n'), pane, bs[i].to);
    line :| line in Split(l, '\n') && Shows(line, pane, bs[i].to);
  }

  /** And a session so shown passes. */
  lemma AShownSessionPasses(listings: seq<string>, pane: string, to: string, l: string, line: string)
    requires PaneId(pane) && to != "" && l in listings && line in Split(l, '\n')
    requires Carries(line, pane) && Names(FirstField(line), to)
    ensures IsAddressee(listings, pane, to)
  {
    assert Shows(line, pane, to);
    assert OnLine(Split(l, '\n'), pane, to);
  }

  /** A pane is carried where it stands whole, behind a blank, a dot or a colon and before anything but a digit. */
  lemma AWholePaneIsCarried(before: string, pane: string, after: string)
    requires before == "" || before[|before| - 1] in " \t\n\r\U{000C}.:"
    requires after == "" || !('0' <= after[0] <= '9')
    ensures Carries(before + pane + after, pane)
  {
    assert (before + pane + after)[|before|..|before| + |pane|] == pane;
    assert CarriesAt(before + pane + after, pane, |before|);
  }

  /** A line whose only percent sign opens a longer pane's number does not carry the shorter. */
  lemma ALongerPaneIsAnother(before: string, pane: string, c: char, after: string)
    requires PaneId(pane) && '0' <= c <= '9' && '%' !in before && '%' !in after
    ensures !Carries(before + pane + [c] + after, pane)
  {
    var line := before + pane + [c] + after;
    forall k | 0 <= k < |line| && k != |before|
      ensures line[k] != '%'
    {
      if k < |before| {
        assert line[k] == before[k];
      } else if k < |before| + |pane| {
        assert line[k] == pane[1..][k - |before| - 1] && line[k] in pane[1..];
      } else if k > |before| + |pane| {
        assert line[k] == after[k - |before| - |pane| - 1];
      }
    }
    forall i | 0 <= i <= |line|
      ensures !CarriesAt(line, pane, i)
    {
      assert i + |pane| <= |line| && line[i..i + |pane|] == pane ==> line[i] == line[i..i + |pane|][0] == '%';
      assert line[|before| + |pane|] == c;
    }
  }

  /** The known gap: at a pane target any delivered send at all is proof. */
  lemma ATargetProvesAnySend(bs: seq<Block>, target: string, id: string, i: nat, j: nat)
    requires PaneTarget(target) && !PaneId(target)
    requires LastSend(bs, id, i) && LastAnswer(bs, id, j) && Sent(bs[j].reply)
    ensures Proved(bs, IsAddressee, target)
  {
    assert Proof(bs, IsAddressee, target, id, i, j);
  }
}
