/**
 The deployment's key=value file: what prints it with its defaults, and what
 reads one key back from it.
 */
module ConfigFile {
  import opened Basics
  import opened Text

  datatype Key = Key(name: string, deflt: string, comment: string)

  // ---------------------------------------------------------------- reading

  predicate Pad(c: char) {
    c in " \t\U{000B}\U{000C}\r\n"
  }

  function Unpad(s: string): (r: string)
    ensures r == "" || !Pad(r[0])
  {
    if s != "" && Pad(s[0]) then Unpad(s[1..]) else s
  }

  function DropCR(line: string): string {
    if line != "" && line[|line| - 1] == '\r' then line[..|line| - 1] else line
  }

  /** The lines a scanner hands over: no empty one after a final newline, and no carriage return at the end of any. */
  function Scanned(text: string): seq<string> {
    var pieces := Split(text, '\n');
    var lines := if pieces[|pieces| - 1] == "" then pieces[..|pieces| - 1] else pieces;
    DropAll(lines)
  }

  /** The value a line gives to key, if it assigns it. */
  function MatchKey(line: string, key: string): Option<string> {
    var start := Unpad(line);
    if !(key <= start) then None
    else
      var rest := Unpad(start[|key|..]);
      if rest == "" || rest[0] != '=' then None else Some(Unpad(rest[1..]))
  }

  /** Padding of any width, none at all included. */
  predicate Padding(s: string) {
    forall k :: 0 <= k < |s| ==> Pad(s[k])
  }

  lemma {:induction false} UnpadPadding(pad: string, s: string)
    requires Padding(pad) && (s == "" || !Pad(s[0]))
    ensures Unpad(pad + s) == s
  {
    if pad == "" {
      assert pad + s == s;
    } else {
      assert (pad + s)[1..] == pad[1..] + s;
      UnpadPadding(pad[1..], s);
    }
  }

  /** Only padding is dropped. */
  lemma {:induction false} UnpadDrops(s: string) returns (pad: string)
    ensures s == pad + Unpad(s) && Padding(pad)
  {
    if s != "" && Pad(s[0]) {
      var rest := UnpadDrops(s[1..]);
      pad := [s[0]] + rest;
      assert s == [s[0]] + s[1..];
    } else {
      pad := "";
    }
  }

  /** The two steps of a match. */
  lemma MatchSteps(line: string, key: string, rest: string, eq: string)
    requires Unpad(line) == key + rest && Unpad(rest) == "=" + eq
    ensures MatchKey(line, key) == Some(Unpad(eq))
  {
    assert (key + rest)[|key|..] == rest;
    assert ("=" + eq)[1..] == eq;
  }

  /** A line assigns a key however it is padded, in front, around the equals sign, or not at all. */
  lemma AnyPaddingMatches(key: string, a: string, b: string, c: string, v: string)
    requires NameOk(key) && Padding(a) && Padding(b) && Padding(c) && (v == "" || !Pad(v[0]))
    ensures MatchKey(a + (key + (b + ("=" + (c + v)))), key) == Some(v)
  {
    var eq := c + v;
    var rest := b + ("=" + eq);
    assert key[0] in key && (key + rest)[0] == key[0];
    UnpadPadding(a, key + rest);
    UnpadPadding(b, "=" + eq);
    UnpadPadding(c, v);
    MatchSteps(a + (key + rest), key, rest, eq);
  }

  /** And no other line does: what matches is padding, the key, padding, an equals sign, padding and the value. */
  lemma OnlyAssignmentsMatch(line: string, key: string) returns (a: string, b: string, c: string)
    requires MatchKey(line, key).Some?
    ensures Padding(a) && Padding(b) && Padding(c)
    ensures line == a + (key + (b + ("=" + (c + MatchKey(line, key).value))))
  {
    var start := Unpad(line);
    var after := start[|key|..];
    var rest := Unpad(after);
    a := UnpadDrops(line);
    b := UnpadDrops(after);
    c := UnpadDrops(rest[1..]);
    assert start == key + after && rest == "=" + rest[1..];
  }

  /** A line that does not assign the key leaves the value as it was. */
  lemma OtherLinesAreSilent(lines: seq<string>, line: string, key: string)
    requires MatchKey(line, key).None?
    ensures LastValue(lines + [line], key) == LastValue(lines, key)
  {
    assert (lines + [line])[..|lines|] == lines;
  }

  /** The last matching line wins; "" when none matches. */
  function LastValue(lines: seq<string>, key: string): string {
    if lines == [] then ""
    else
      var v := MatchKey(lines[|lines| - 1], key);
      if v.Some? then v.value else LastValue(lines[..|lines| - 1], key)
  }

  function OrElse(v: string, def: string): string {
    if v == "" then def else v
  }

  /** file is None when there is none to open. */
  method Get(file: Option<string>, key: string, def: string) returns (val: string)
    ensures val == if file.None? then def else OrElse(LastValue(Scanned(file.value), key), def)
  {
    if file.None? {
      return def;
    }
    val := "";
    var lines := Scanned(file.value);
    for i := 0 to |lines|
      invariant val == LastValue(lines[..i], key)
    {
      assert lines[..i + 1][..i] == lines[..i];
      var v := MatchKey(lines[i], key);
      if v.Some? {
        val := v.value;
      }
    }
    assert lines[..|lines|] == lines;
    return OrElse(val, def);
  }

  // ---------------------------------------------------------------- printing

  function Entry(k: Key): string {
    "\n# " + k.comment + "\n" + k.name + " = " + k.deflt + "\n"
  }

  /** The file's first line: any comment. */
  type Title = s: string | '\n' !in s && s != "" && s[0] == '#' witness "#"

  function Printed(title: Title, table: seq<Key>): string {
    if table == [] then title + "\n" else Printed(title, table[..|table| - 1]) + Entry(table[|table| - 1])
  }

  /** Refuses to overwrite a file that is there. */
  method WriteDefault(file: Option<string>, title: Title, table: seq<Key>) returns (after: Option<string>, ok: bool)
    ensures ok <==> file.None?
    ensures after == if ok then Some(Printed(title, table)) else file
  {
    if file.Some? {
      return file, false;
    }
    var b := title + "\n";
    for i := 0 to |table|
      invariant b == Printed(title, table[..i])
    {
      assert table[..i + 1][..i] == table[..i];
      b := b + Entry(table[i]);
    }
    assert table[..|table|] == table;
    return Some(b), true;
  }

  // ---------------------------------------------------------------- the round trip

  /** A key's name: something, with no padding in it and no sign the format uses. */
  predicate NameOk(name: string) {
    name != "" && forall c :: c in name ==> !Pad(c) && c != '=' && c != '#'
  }

  predicate KeyOk(k: Key) {
    NameOk(k.name) && '\n' !in k.comment && '\n' !in k.deflt
  }

  /** What a printed value reads back as. */
  function Stored(v: string): string {
    Unpad(DropCR(v))
  }

  function KeyLines(k: Key): seq<string> {
    ["", "# " + k.comment, k.name + " = " + k.deflt]
  }

  function TableLines(title: Title, table: seq<Key>): seq<string> {
    if table == [] then [title] else TableLines(title, table[..|table| - 1]) + KeyLines(table[|table| - 1])
  }

  lemma TwoLinesSplit(one: string, two: string)
    requires '\n' !in one && '\n' !in two
    ensures Split(one + "\n" + (two + "\n"), '\n') == [one, two, ""]
  {
    OneLineSplits(one);
    OneLineSplits(two);
    SplitAfter(one + "\n", [one], two + "\n");
  }

  lemma EntrySplits(k: Key)
    requires KeyOk(k)
    ensures Split(Entry(k), '\n') == KeyLines(k) + [""]
  {
    var comment, line := "# " + k.comment, k.name + " = " + k.deflt;
    var both := comment + "\n" + (line + "\n");
    TwoLinesSplit(comment, line);
    OneLineSplits("");
    assert "" + "\n" == "\n";
    SplitAfter("\n", [""], both);
    assert Entry(k) == "\n" + both;
    assert [""] + [comment, line, ""] == KeyLines(k) + [""];
  }

  lemma {:induction false} PrintedSplits(title: Title, table: seq<Key>)
    requires forall k :: k in table ==> KeyOk(k)
    ensures Split(Printed(title, table), '\n') == TableLines(title, table) + [""]
    ensures Printed(title, table) != "" && Printed(title, table)[|Printed(title, table)| - 1] == '\n'
  {
    if table == [] {
      OneLineSplits(title);
    } else {
      var init, k := table[..|table| - 1], table[|table| - 1];
      PrintedSplits(title, init);
      EntrySplits(k);
      SplitAfter(Printed(title, init), TableLines(title, init), Entry(k));
    }
  }

  /** Each entry's comment stands on a line of its own right above its assignment. */
  lemma CommentsStandAbove(title: Title, table: seq<Key>, i: nat) returns (j: nat)
    requires (forall k :: k in table ==> KeyOk(k)) && i < |table|
    ensures var lines := Split(Printed(title, table), '\n');
            j + 1 < |lines| - 1 && lines[j] == "# " + table[i].comment
            && lines[j + 1] == table[i].name + " = " + table[i].deflt
  {
    PrintedSplits(title, table);
    j := EntryStands(title, table, i);
  }

  lemma {:induction false} EntryStands(title: Title, table: seq<Key>, i: nat) returns (j: nat)
    requires i < |table|
    ensures var lines := TableLines(title, table);
            j + 1 < |lines| && lines[j] == "# " + table[i].comment
            && lines[j + 1] == table[i].name + " = " + table[i].deflt
  {
    var init := table[..|table| - 1];
    if i == |table| - 1 {
      j := |TableLines(title, init)| + 1;
    } else {
      j := EntryStands(title, init, i);
      assert j + 1 < |TableLines(title, init)|;
    }
  }

  lemma UnpadKeeps(s: string)
    requires s != "" && !Pad(s[0])
    ensures Unpad(s) == s
  {
  }

  /** A line that a key's name cannot start says nothing about any key. */
  lemma QuietLine(line: string, key: string)
    requires NameOk(key) && (line == "" || line[0] == '#')
    ensures MatchKey(DropCR(line), key).None?
  {
    var l := DropCR(line);
    if l != "" {
      UnpadKeeps(l);
      assert key[0] in key;
    }
  }

  /** A key that starts a printed line starts its name: it holds no padding. */
  lemma KeyWithinName(name: string, v: string, key: string)
    requires NameOk(key) && key <= name + " = " + v
    ensures key <= name
  {
    var line := name + " = " + v;
    assert line[|name|] == ' ' && forall i :: 0 <= i < |key| ==> key[i] in key;
    assert |key| <= |name|;
  }

  /** A key that is only the beginning of the name does not match. */
  lemma ShorterKey(name: string, v: string, key: string)
    requires NameOk(name) && key < name
    ensures MatchKey(name + " = " + v, key).None?
  {
    var line := name + " = " + v;
    var c := name[|key|];
    assert name[0] in name && line[0] == name[0] && c in name;
    UnpadKeeps(line);
    assert line[|key|..][0] == c;
    UnpadKeeps(line[|key|..]);
  }

  lemma SameKey(name: string, v: string)
    requires NameOk(name)
    ensures MatchKey(name + " = " + v, name) == Some(Unpad(v))
  {
    var line, mid := name + " = " + v, " = " + v;
    assert line == name + mid;
    assert name[0] in name && line[0] == name[0];
    UnpadKeeps(line);
    AfterName(v);
    assert name <= line && line[|name|..] == mid;
    assert ("= " + v)[0] == '=';
  }

  /** The printed line of one key, read for another: it matches exactly when they are the same key. */
  lemma LoudLine(name: string, v: string, key: string)
    requires NameOk(key) && NameOk(name)
    ensures MatchKey(name + " = " + v, key) == if key == name then Some(Unpad(v)) else None
  {
    var line := name + " = " + v;
    if key == name {
      SameKey(name, v);
    } else if key <= line {
      KeyWithinName(name, v, key);
      ShorterKey(name, v, key);
    } else {
      assert name[0] in name && line[0] == name[0];
      UnpadKeeps(line);
    }
  }

  lemma AfterName(v: string)
    ensures Unpad(" = " + v) == "= " + v && Unpad(("= " + v)[1..]) == Unpad(v)
  {
    assert (" = " + v)[1..] == "= " + v;
    UnpadKeeps("= " + v);
    assert ("= " + v)[1..] == " " + v && (" " + v)[1..] == v;
  }

  lemma DropCRAfter(front: string, v: string)
    requires front != "" && front[|front| - 1] != '\r'
    ensures DropCR(front + v) == front + DropCR(v)
  {
    if v == "" {
      assert front + v == front;
    } else if v[|v| - 1] == '\r' {
      assert (front + v)[..|front + v| - 1] == front + v[..|v| - 1];
    }
  }

  /** The value of the last entry of that name, as it reads back. */
  function ValueIn(table: seq<Key>, key: string): string {
    if table == [] then ""
    else if table[|table| - 1].name == key then Stored(table[|table| - 1].deflt)
    else ValueIn(table[..|table| - 1], key)
  }

  function DropAll(lines: seq<string>): (r: seq<string>) {
    seq(|lines|, i requires 0 <= i < |lines| => DropCR(lines[i]))
  }

  lemma LastValueSnoc(lines: seq<string>, line: string, key: string)
    ensures var v := MatchKey(DropCR(line), key);
            LastValue(DropAll(lines + [line]), key) == if v.Some? then v.value else LastValue(DropAll(lines), key)
  {
    assert DropAll(lines + [line]) == DropAll(lines) + [DropCR(line)];
    assert DropAll(lines + [line])[..|lines|] == DropAll(lines);
  }

  lemma EntryValue(lines: seq<string>, k: Key, key: string)
    requires NameOk(key) && KeyOk(k)
    ensures LastValue(DropAll(lines + KeyLines(k)), key) ==
            if k.name == key then Stored(k.deflt) else LastValue(DropAll(lines), key)
  {
    var one, two, three := "", "# " + k.comment, k.name + " = " + k.deflt;
    LastValueSnoc(lines, one, key);
    LastValueSnoc(lines + [one], two, key);
    LastValueSnoc(lines + [one] + [two], three, key);
    QuietLine(one, key);
    QuietLine(two, key);
    DropCRAfter(k.name + " = ", k.deflt);
    LoudLine(k.name, DropCR(k.deflt), key);
    assert lines + KeyLines(k) == lines + [one] + [two] + [three];
  }

  lemma {:induction false} TableValue(title: Title, table: seq<Key>, key: string)
    requires NameOk(key) && forall k :: k in table ==> KeyOk(k)
    ensures LastValue(DropAll(TableLines(title, table)), key) == ValueIn(table, key)
  {
    if table == [] {
      LastValueSnoc([], title, key);
      QuietLine(title, key);
      assert [] + [title] == [title];
      assert DropAll([]) == [];
    } else {
      var init, k := table[..|table| - 1], table[|table| - 1];
      TableValue(title, init, key);
      EntryValue(TableLines(title, init), k, key);
    }
  }

  /** What any key reads back as from the printed text: its own entry's value, or nothing. */
  lemma PrintedValue(title: Title, table: seq<Key>, key: string)
    requires NameOk(key) && forall k :: k in table ==> KeyOk(k)
    ensures LastValue(Scanned(Printed(title, table)), key) == ValueIn(table, key)
  {
    PrintedSplits(title, table);
    TableValue(title, table, key);
    assert (TableLines(title, table) + [""])[..|TableLines(title, table)|] == TableLines(title, table);
    assert Scanned(Printed(title, table)) == DropAll(TableLines(title, table));
  }

  ghost predicate DistinctNames(table: seq<Key>) {
    forall i, j :: 0 <= i < j < |table| ==> table[i].name != table[j].name
  }

  lemma {:induction false} ValueOfEntry(table: seq<Key>, i: nat)
    requires i < |table| && DistinctNames(table)
    ensures ValueIn(table, table[i].name) == Stored(table[i].deflt)
  {
    if i < |table| - 1 {
      ValueOfEntry(table[..|table| - 1], i);
    }
  }

  lemma {:induction false} ValueOfNobody(table: seq<Key>, key: string)
    requires forall i :: 0 <= i < |table| ==> table[i].name != key
    ensures ValueIn(table, key) == ""
  {
    if table != [] {
      ValueOfNobody(table[..|table| - 1], key);
    }
  }

  lemma {:induction false} UnpadShorter(s: string)
    ensures |Unpad(s)| <= |s|
  {
    if s != "" && Pad(s[0]) {
      UnpadShorter(s[1..]);
    }
  }

  /** A default the format can carry: nothing, or something that starts without padding and ends without a carriage return. */
  predicate Carried(v: string) {
    v == "" || (!Pad(v[0]) && v[|v| - 1] != '\r')
  }

  lemma StoredIff(v: string)
    ensures Stored(v) == v <==> Carried(v)
  {
    if v != "" && v[|v| - 1] == '\r' {
      UnpadShorter(DropCR(v));
    } else if v != "" && Pad(v[0]) {
      UnpadShorter(v[1..]);
    }
  }

  /**
   Reading any key of a printed table gives that key's own default back exactly
   when the format can carry it; an empty default gives what the caller asked for.
   */
  lemma DefaultsReadBack(title: Title, table: seq<Key>, i: nat, def: string)
    requires (forall k :: k in table ==> KeyOk(k)) && DistinctNames(table) && i < |table|
    ensures var got := LastValue(Scanned(Printed(title, table)), table[i].name);
            && (got == table[i].deflt <==> Carried(table[i].deflt))
            && (Carried(table[i].deflt) ==> OrElse(got, def) == OrElse(table[i].deflt, def))
  {
    assert KeyOk(table[i]);
    PrintedValue(title, table, table[i].name);
    ValueOfEntry(table, i);
    StoredIff(table[i].deflt);
  }

  /** A key the table does not hold is absent from what it prints, whatever its comments say. */
  lemma OtherKeysAbsent(title: Title, table: seq<Key>, key: string, def: string)
    requires (forall k :: k in table ==> KeyOk(k)) && NameOk(key)
    requires forall i :: 0 <= i < |table| ==> table[i].name != key
    ensures OrElse(LastValue(Scanned(Printed(title, table)), key), def) == def
  {
    PrintedValue(title, table, key);
    ValueOfNobody(table, key);
  }

  /** A hand-edited line after the printed ones overrides them. */
  lemma LastLineWins(lines: seq<string>, name: string, v: string)
    requires NameOk(name)
    ensures LastValue(DropAll(lines + [name + " = " + v]), name) == Stored(v)
  {
    LastValueSnoc(lines, name + " = " + v, name);
    DropCRAfter(name + " = ", v);
    LoudLine(name, DropCR(v), name);
  }

  /** The table's value for a name, or "" when it holds none. */
  method Default(table: seq<Key>, name: string) returns (d: string)
    ensures forall i :: 0 <= i < |table| && DistinctNames(table) && table[i].name == name ==> d == table[i].deflt
    ensures (forall i :: 0 <= i < |table| ==> table[i].name != name) ==> d == ""
  {
    for i := 0 to |table|
      invariant forall j :: 0 <= j < i ==> table[j].name != name
    {
      if table[i].name == name {
        return table[i].deflt;
      }
    }
    return "";
  }
}
