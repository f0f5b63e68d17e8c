/** Lines of text: counting newlines, splitting and joining. */
module Text {
  import opened Basics

  predicate IsNewline(c: char) {
    c == '\n'
  }

  function Newlines(s: string): nat {
    Count(s, IsNewline)
  }

  lemma NewlinesConcat(s: string, t: string)
    ensures Newlines(s + t) == Newlines(s) + Newlines(t)
  {
    CountConcat(s, t, IsNewline);
  }

  lemma NewlinesOne(c: char)
    ensures Newlines([c]) == if c == '\n' then 1 else 0
  {
    CountSnoc([], c, IsNewline);
    assert [] + [c] == [c];
  }

  lemma {:induction false} NewlinesNone(s: string)
    ensures Newlines(s) == 0 <==> '\n' !in s
  {
    if s != [] {
      NewlinesNone(s[..|s| - 1]);
      assert s == s[..|s| - 1] + [s[|s| - 1]];
    }
  }

  /** The pieces of s between the separators; always at least one. */
  function Split(s: string, sep: char): (pieces: seq<string>)
    ensures pieces != []
    ensures forall p :: p in pieces ==> sep !in p
  {
    if s == "" then [""] else Extend(s[0], sep, Split(s[1..], sep))
  }

  /** One more character before pieces already split. */
  function Extend(c: char, sep: char, pieces: seq<string>): (r: seq<string>)
    requires pieces != [] && forall p :: p in pieces ==> sep !in p
    ensures r != [] && forall p :: p in r ==> sep !in p
  {
    if c == sep then [""] + pieces else [[c] + pieces[0]] + pieces[1..]
  }

  function Join(pieces: seq<string>, sep: char): string
    requires pieces != []
  {
    if |pieces| == 1 then pieces[0] else pieces[0] + [sep] + Join(pieces[1..], sep)
  }

  lemma {:induction false} JoinSplit(s: string, sep: char)
    ensures Join(Split(s, sep), sep) == s
  {
    if s != "" {
      JoinSplit(s[1..], sep);
      var rest := Split(s[1..], sep);
      if s[0] == sep {
        assert ([""] + rest)[1..] == rest;
      } else {
        var pieces := [[s[0]] + rest[0]] + rest[1..];
        assert pieces[1..] == rest[1..];
        assert Join(pieces, sep) == [s[0]] + Join(rest, sep);
      }
    }
  }

  lemma ExtendConcat(c: char, sep: char, a: seq<string>, b: seq<string>)
    requires a != [] && forall p :: p in a + b ==> sep !in p
    requires forall p :: p in a ==> sep !in p
    ensures Extend(c, sep, a + b) == Extend(c, sep, a) + b
  {
    assert (a + b)[0] == a[0] && (a + b)[1..] == a[1..] + b;
    if c == sep {
      assert [""] + (a + b) == [""] + a + b;
    } else {
      var head := [[c] + a[0]];
      assert head + (a[1..] + b) == head + a[1..] + b;
    }
  }

  /** A separator splits the text around it. */
  lemma {:induction false} SplitConcat(s: string, sep: char, t: string)
    ensures Split(s + [sep] + t, sep) == Split(s, sep) + Split(t, sep)
  {
    if s == "" {
      assert ([sep] + t)[1..] == t;
      assert s + [sep] + t == [sep] + t;
    } else {
      SplitConcat(s[1..], sep, t);
      var rest := s[1..] + [sep] + t;
      assert s + [sep] + t == [s[0]] + rest;
      SplitCons(s[0], sep, rest);
      ExtendConcat(s[0], sep, Split(s[1..], sep), Split(t, sep));
    }
  }

  lemma SplitCons(c: char, sep: char, s: string)
    ensures Split([c] + s, sep) == Extend(c, sep, Split(s, sep))
  {
    assert ([c] + s)[1..] == s;
  }

  lemma {:induction false} SplitLine(p: string, sep: char)
    requires sep !in p
    ensures Split(p, sep) == [p]
  {
    if p != "" {
      SplitLine(p[1..], sep);
      assert [p[0]] + p[1..] == p;
    }
  }

  lemma FinishedSplits(front: string, text: string, marks: seq<string>)
    requires text == front + ['\n'] && Split(text, '\n') == marks + [""]
    ensures Split(front, '\n') == marks
  {
    SplitConcat(front, '\n', "");
    SplitLine("", '\n');
    assert text == front + ['\n'] + "";
    assert (Split(front, '\n') + [""])[..|marks|] == (marks + [""])[..|marks|];
  }

  /** What comes after finished lines is split on its own. */
  lemma SplitAfter(text: string, marks: seq<string>, more: string)
    requires text != "" && text[|text| - 1] == '\n' && Split(text, '\n') == marks + [""]
    ensures Split(text + more, '\n') == marks + Split(more, '\n')
  {
    var front := text[..|text| - 1];
    FinishedSplits(front, text, marks);
    SplitConcat(front, '\n', more);
    assert text + more == front + ['\n'] + more;
  }

  /** A finished line, split. */
  lemma OneLineSplits(mark: string)
    requires '\n' !in mark
    ensures Split(mark + "\n", '\n') == [mark, ""]
  {
    SplitLine("", '\n');
    SplitLine(mark, '\n');
    SplitConcat(mark, '\n', "");
    assert mark + ['\n'] + "" == mark + "\n";
  }

  lemma {:induction false} SplitCounts(s: string)
    ensures |Split(s, '\n')| == Newlines(s) + 1
  {
    if s != "" {
      SplitCounts(s[1..]);
      assert s == [s[0]] + s[1..];
      NewlinesConcat([s[0]], s[1..]);
      NewlinesOne(s[0]);
    }
  }

  predicate IsSpace(c: char) {
    c in " \t\n\r\U{000B}\U{000C}\U{0085}\U{00A0}"
  }

  function TrimLeft(s: string): (r: string)
    ensures r == "" || !IsSpace(r[0])
    ensures |r| <= |s| && r == s[|s| - |r|..]
  {
    if s != "" && IsSpace(s[0]) then TrimLeft(s[1..]) else s
  }

  function TrimRight(s: string): (r: string)
    ensures r == "" || !IsSpace(r[|r| - 1])
    ensures r <= s
  {
    if s != "" && IsSpace(s[|s| - 1]) then TrimRight(s[..|s| - 1]) else s
  }

  function Trim(s: string): (r: string)
    ensures r != "" ==> !IsSpace(r[0]) && !IsSpace(r[|r| - 1])
  {
    TrimRight(TrimLeft(s))
  }

  /** Only space is trimmed. */
  lemma {:induction false} TrimLeftDrops(s: string)
    ensures forall k :: 0 <= k < |s| - |TrimLeft(s)| ==> IsSpace(s[k])
  {
    if s != "" && IsSpace(s[0]) {
      TrimLeftDrops(s[1..]);
      assert forall k :: 1 <= k < |s| ==> s[k] == s[1..][k - 1];
    }
  }

  lemma {:induction false} TrimRightDrops(s: string)
    ensures forall k :: |TrimRight(s)| <= k < |s| ==> IsSpace(s[k])
  {
    if s != "" && IsSpace(s[|s| - 1]) {
      TrimRightDrops(s[..|s| - 1]);
      assert forall k :: 0 <= k < |s| - 1 ==> s[k] == s[..|s| - 1][k];
    }
  }

  /** A text with anything but space in it is not trimmed away, and keeps all of it that is not at its ends. */
  lemma TrimKeepsWhatIsSaid(s: string, k: nat)
    requires k < |s| && !IsSpace(s[k])
    ensures s[k] in Trim(s)
  {
    var t := TrimLeft(s);
    TrimLeftDrops(s);
    TrimRightDrops(t);
    assert t[k - (|s| - |t|)] == s[k];
    assert TrimRight(t)[k - (|s| - |t|)] == s[k];
  }
}
