// set_property of crates/guardian/src/environment.rs: edit one key of a
// `.properties` text, keeping everything else.
module Properties {
  import opened Options

  /* ----- text and lines ----- */

  // The position of the first c, or the length.
  function IndexOf(c: char, s: string): (i: nat)
    ensures i <= |s| && c !in s[..i] && (i < |s| ==> s[i] == c)
  {
    if s == [] || s[0] == c then
      0
    else
      var rest := IndexOf(c, s[1..]);
      assert s[..rest + 1] == [s[0]] + s[1..][..rest];
      rest + 1
  }

  // A carriage return before a line feed belongs to the line ending.
  function Chomp(line: string): string {
    if line != [] && line[|line| - 1] == '\r' then line[..|line| - 1] else line
  }

  // str::lines
  function Lines(text: string): seq<string>
    decreases |text|
  {
    if text == [] then
      []
    else
      var i := IndexOf('\n', text);
      if i == |text| then [text] else [Chomp(text[..i])] + Lines(text[i + 1..])
  }

  function Unlines(lines: seq<string>): string {
    if lines == [] then "" else lines[0] + "\n" + Unlines(lines[1..])
  }

  function ChompAll(lines: seq<string>): (r: seq<string>)
    ensures |r| == |lines|
  {
    if lines == [] then [] else [Chomp(lines[0])] + ChompAll(lines[1..])
  }

  predicate SingleLines(lines: seq<string>) {
    forall l | l in lines :: '\n' !in l
  }

  lemma {:induction false} IndexOfAfter(c: char, a: string, b: string)
    requires c !in a
    ensures IndexOf(c, a + [c] + b) == |a|
  {
    if a != [] {
      IndexOfAfter(c, a[1..], b);
      assert (a + [c] + b)[1..] == a[1..] + [c] + b;
    }
  }

  lemma {:induction false} IndexOfBeforeLast(c: char, s: string, last: char)
    requires last != c
    ensures IndexOf(c, s + [last]) == if IndexOf(c, s) < |s| then IndexOf(c, s) else |s| + 1
  {
    if s != [] {
      IndexOfBeforeLast(c, s[1..], last);
      assert (s + [last])[1..] == s[1..] + [last];
    }
  }

  lemma {:induction false} LinesAreSingle(text: string)
    ensures SingleLines(Lines(text))
    decreases |text|
  {
    if text != [] {
      var i := IndexOf('\n', text);
      if i < |text| {
        LinesAreSingle(text[i + 1..]);
      }
    }
  }

  lemma SplitUnlines(lines: seq<string>)
    requires lines != [] && SingleLines(lines)
    ensures var text := Unlines(lines); var i := IndexOf('\n', text);
            i == |lines[0]| < |text| && text[..i] == lines[0] && text[i + 1..] == Unlines(lines[1..])
  {
    assert lines[0] in lines;
    IndexOfAfter('\n', lines[0], Unlines(lines[1..]));
  }

  /** Writing lines and reading them back loses trailing carriage returns only. */
  lemma {:induction false} LinesOfUnlines(lines: seq<string>)
    requires SingleLines(lines)
    ensures Lines(Unlines(lines)) == ChompAll(lines)
  {
    if lines != [] {
      SplitUnlines(lines);
      LinesOfUnlines(lines[1..]);
    }
  }

  lemma {:induction false} UnlinesIsInjective(a: seq<string>, b: seq<string>)
    requires SingleLines(a) && SingleLines(b)
    ensures Unlines(a) == Unlines(b) <==> a == b
  {
    if a != [] && b != [] {
      SplitUnlines(a);
      SplitUnlines(b);
      UnlinesIsInjective(a[1..], b[1..]);
      assert a == [a[0]] + a[1..] && b == [b[0]] + b[1..];
    }
  }

  lemma {:induction false} UnlinesAppend(lines: seq<string>, l: string)
    ensures Unlines(lines + [l]) == Unlines(lines) + l + "\n"
  {
    if lines == [] {
      assert Unlines([l]) == l + "\n" + Unlines([]);
    } else {
      UnlinesAppend(lines[1..], l);
      assert (lines + [l])[1..] == lines[1..] + [l];
    }
  }

  /* ----- keys ----- */

  // char::is_whitespace: the Unicode White_Space code points.
  predicate IsSpace(c: char) {
    || '\U{0009}' <= c <= '\U{000D}' || c == ' ' || c == '\U{0085}' || c == '\U{00A0}' || c == '\U{1680}'
    || '\U{2000}' <= c <= '\U{200A}' || c == '\U{2028}' || c == '\U{2029}' || c == '\U{202F}'
    || c == '\U{205F}' || c == '\U{3000}'
  }

  function TrimStart(s: string): (r: string)
    ensures |r| <= |s| && (r != [] ==> !IsSpace(r[0]))
  {
    if s == [] || !IsSpace(s[0]) then s else TrimStart(s[1..])
  }

  function TrimEnd(s: string): (r: string)
    ensures |r| <= |s|
  {
    if s == [] || !IsSpace(s[|s| - 1]) then s else TrimEnd(s[..|s| - 1])
  }

  function Trim(s: string): string {
    TrimEnd(TrimStart(s))
  }

  lemma {:induction false} TrimEndIsPrefix(s: string)
    ensures TrimEnd(s) == s[..|TrimEnd(s)|]
    ensures TrimEnd(s) != [] ==> !IsSpace(TrimEnd(s)[|TrimEnd(s)| - 1])
  {
    if s != [] && IsSpace(s[|s| - 1]) {
      TrimEndIsPrefix(s[..|s| - 1]);
    }
  }

  lemma TrimTwice(s: string)
    ensures Trim(Trim(s)) == Trim(s)
  {
    TrimEndIsPrefix(TrimStart(s));
    var t := Trim(s);
    if t != [] {
      assert t[0] == TrimStart(s)[0];
      assert TrimStart(t) == t;
    }
  }

  predicate StartsWithHash(s: string) {
    s != [] && s[0] == '#'
  }

  // The line sets this key: not a comment, and the key stands before the first `=`.
  predicate Active(line: string, key: string) {
    var i := IndexOf('=', line);
    i < |line| && Trim(line[..i]) == key && !StartsWithHash(TrimStart(line))
  }

  function Assignment(key: string, value: string): string {
    key + "=" + value
  }

  predicate GoodKey(key: string) {
    '=' !in key && '\n' !in key && !StartsWithHash(key) && Trim(key) == key
  }

  predicate GoodValue(value: string) {
    '\n' !in value && '\r' !in value
  }

  lemma AssignmentSetsItsKey(key: string, value: string, other: string)
    requires GoodKey(key)
    ensures Active(Assignment(key, value), other) <==> other == key
    ensures IndexOf('=', Assignment(key, value)) == |key|
  {
    var line := Assignment(key, value);
    IndexOfAfter('=', key, value);
    assert line[..|key|] == key;
    assert |TrimEnd(TrimStart(key))| <= |TrimStart(key)| <= |key|;
    if key != [] {
      assert !IsSpace(key[0]);
      assert line[0] == key[0];
    } else {
      assert line[0] == '=';
    }
  }

  predicate Blank(s: string) {
    forall i | 0 <= i < |s| :: IsSpace(s[i])
  }

  lemma {:induction false} TrimStartSkips(blank: string, s: string)
    requires Blank(blank)
    ensures TrimStart(blank + s) == TrimStart(s)
  {
    if blank != [] {
      TrimStartSkips(blank[1..], s);
      assert (blank + s)[1..] == blank[1..] + s;
    } else {
      assert blank + s == s;
    }
  }

  lemma {:induction false} TrimEndSkips(s: string, blank: string)
    requires Blank(blank)
    ensures TrimEnd(s + blank) == TrimEnd(s)
  {
    if blank != [] {
      var n := |blank| - 1;
      TrimEndSkips(s, blank[..n]);
      assert (s + blank)[..|s + blank| - 1] == s + blank[..n];
    } else {
      assert s + blank == s;
    }
  }

  lemma TrimOfTrimmed(key: string)
    requires Trim(key) == key
    ensures TrimStart(key) == key && TrimEnd(key) == key
  {
    TrimEndIsPrefix(TrimStart(key));
    assert |TrimStart(key)| == |key|;
    TrimStartOfSameLength(key);
  }

  lemma TrimStartOfSameLength(s: string)
    requires |TrimStart(s)| == |s|
    ensures TrimStart(s) == s
  {
  }

  lemma TrimPadded(before: string, key: string, after: string)
    requires Blank(before) && Blank(after) && key != "" && Trim(key) == key
    ensures Trim(before + key + after) == key
  {
    TrimOfTrimmed(key);
    assert before + key + after == before + (key + after);
    TrimStartSkips(before, key + after);
    assert !IsSpace(key[0]) && (key + after)[0] == key[0];
    TrimEndSkips(key, after);
  }

  /** Blanks around the key do not matter, what follows the first `=` does not
      either, and behind a `#` nothing is set. */
  lemma WhichKeyALineSets(before: string, key: string, after: string, value: string, other: string)
    requires Blank(before) && Blank(after) && '=' !in key && Trim(key) == key && key != ""
    ensures Active(before + key + after + "=" + value, other) <==> other == key && key[0] != '#'
    ensures !Active(before + "#" + value, other)
  {
    var left := before + key + after;
    assert '=' !in left;
    IndexOfAfter('=', left, value);
    assert (left + "=" + value)[..|left|] == left;
    TrimPadded(before, key, after);
    TrimOfTrimmed(key);
    assert left + "=" + value == before + (key + after + "=" + value);
    TrimStartSkips(before, key + after + "=" + value);
    assert (key + after + "=" + value)[0] == key[0] && !IsSpace(key[0]);
    assert before + "#" + value == before + ("#" + value);
    TrimStartSkips(before, "#" + value);
  }

  lemma {:induction false} HashAfterChomp(l: string)
    ensures StartsWithHash(TrimStart(l + "\r")) <==> StartsWithHash(TrimStart(l))
  {
    if l == [] {
      assert TrimStart("\r") == TrimStart([]);
    } else if IsSpace(l[0]) {
      HashAfterChomp(l[1..]);
      assert (l + "\r")[1..] == l[1..] + "\r";
    }
  }

  // A trailing carriage return does not decide whether a line is active.
  lemma ChompKeepsActive(line: string, key: string)
    ensures Active(Chomp(line), key) <==> Active(line, key)
  {
    if line != [] && line[|line| - 1] == '\r' {
      var short := Chomp(line);
      assert line == short + "\r";
      HashAfterChomp(short);
      IndexOfBeforeLast('=', short, '\r');
      var i := IndexOf('=', short);
      if i < |short| {
        assert line[..i] == short[..i];
      }
    }
  }

  /* ----- the edit ----- */

  predicate HasKey(lines: seq<string>, key: string) {
    exists i :: 0 <= i < |lines| && Active(lines[i], key)
  }

  // Replace the first active line of the key, or append one.
  function Edit(lines: seq<string>, key: string, value: string): seq<string> {
    if lines == [] then
      [Assignment(key, value)]
    else if Active(lines[0], key) then
      [Assignment(key, value)] + lines[1..]
    else
      [lines[0]] + Edit(lines[1..], key, value)
  }

  function Lookup(lines: seq<string>, key: string): Option<string> {
    if lines == [] then
      None
    else if Active(lines[0], key) then
      Some(lines[0][IndexOf('=', lines[0]) + 1..])
    else
      Lookup(lines[1..], key)
  }

  function SetText(text: string, key: string, value: string): string {
    Unlines(Edit(Lines(text), key, value))
  }

  lemma {:induction false} EditWithKey(lines: seq<string>, l: string, key: string, value: string)
    requires HasKey(lines, key)
    ensures Edit(lines + [l], key, value) == Edit(lines, key, value) + [l]
  {
    HasKeyStep(lines, key);
    assert (lines + [l])[1..] == lines[1..] + [l];
    if !Active(lines[0], key) {
      EditWithKey(lines[1..], l, key, value);
    }
  }

  lemma {:induction false} EditWithoutKey(lines: seq<string>, l: string, key: string, value: string)
    requires !HasKey(lines, key)
    ensures Active(l, key) ==> Edit(lines + [l], key, value) == lines + [Assignment(key, value)]
    ensures Edit(lines, key, value) == lines + [Assignment(key, value)]
  {
    if lines == [] {
      assert lines + [l] == [l];
    } else {
      HasKeyStep(lines, key);
      EditWithoutKey(lines[1..], l, key, value);
      assert (lines + [l])[1..] == lines[1..] + [l];
    }
  }

  lemma HasKeyAppend(lines: seq<string>, l: string, key: string)
    ensures HasKey(lines + [l], key) <==> HasKey(lines, key) || Active(l, key)
  {
    var more := lines + [l];
    assert more[|lines|] == l && forall i | 0 <= i < |lines| :: more[i] == lines[i];
  }

  lemma HasKeyStep(lines: seq<string>, key: string)
    requires lines != []
    ensures HasKey(lines, key) <==> Active(lines[0], key) || HasKey(lines[1..], key)
  {
  }

  // What has been written after the lines read so far.
  ghost predicate Written(out: string, lines: seq<string>, key: string, value: string, replaced: bool) {
    && replaced == HasKey(lines, key)
    && out == Unlines(if replaced then Edit(lines, key, value) else lines)
  }

  lemma WriteOneMore(out: string, lines: seq<string>, l: string, key: string, value: string, replaced: bool)
    requires Written(out, lines, key, value, replaced)
    ensures Active(l, key) && !replaced ==> Written(out + Assignment(key, value) + "\n", lines + [l], key, value, true)
    ensures !(Active(l, key) && !replaced) ==> Written(out + l + "\n", lines + [l], key, value, replaced)
  {
    HasKeyAppend(lines, l, key);
    if replaced {
      EditWithKey(lines, l, key, value);
      UnlinesAppend(Edit(lines, key, value), l);
    } else {
      EditWithoutKey(lines, l, key, value);
      UnlinesAppend(lines, Assignment(key, value));
      UnlinesAppend(lines, l);
    }
  }

  lemma AllWritten(out: string, lines: seq<string>, key: string, value: string, replaced: bool)
    requires Written(out, lines, key, value, replaced)
    ensures Unlines(Edit(lines, key, value)) == if replaced then out else out + Assignment(key, value) + "\n"
  {
    if !replaced {
      EditWithoutKey(lines, "", key, value);
      UnlinesAppend(lines, Assignment(key, value));
    }
  }

  // The body of the loop: the first line that sets the key is replaced.
  method WriteLine(out: string, ghost before: seq<string>, line: string, key: string, value: string, replaced: bool)
    returns (longer: string, done: bool)
    requires Written(out, before, key, value, replaced)
    ensures Written(longer, before + [line], key, value, done)
  {
    WriteOneMore(out, before, line, key, value, replaced);
    if Active(line, key) && !replaced {
      longer, done := out + Assignment(key, value), true;
    } else {
      longer, done := out + line, replaced;
    }
    longer := longer + "\n";
  }

  /** The loop over the lines computes the edit. */
  method SetProperty(text: string, key: string, value: string) returns (out: string)
    ensures out == SetText(text, key, value)
  {
    out := "";
    var replaced := false;
    var lines := Lines(text);
    for i := 0 to |lines|
      invariant Written(out, lines[..i], key, value, replaced)
    {
      assert lines[..i + 1] == lines[..i] + [lines[i]];
      out, replaced := WriteLine(out, lines[..i], lines[i], key, value, replaced);
    }
    assert lines[..|lines|] == lines;
    AllWritten(out, lines, key, value, replaced);
    if !replaced {
      out := out + Assignment(key, value) + "\n";
    }
  }

  /* ----- laws ----- */

  lemma {:induction false} EditIsSingle(lines: seq<string>, key: string, value: string)
    requires SingleLines(lines) && '\n' !in key && '\n' !in value
    ensures SingleLines(Edit(lines, key, value))
  {
    if lines != [] {
      EditIsSingle(lines[1..], key, value);
    }
  }

  /** All other lines keep their content and their order: reading the edited
      text gives the old lines with the one line replaced or appended, and with
      stray carriage returns at line ends dropped. */
  lemma OtherLinesAreKept(text: string, key: string, value: string)
    requires '\n' !in key && '\n' !in value
    ensures Lines(SetText(text, key, value)) == ChompAll(Edit(Lines(text), key, value))
  {
    LinesAreSingle(text);
    EditIsSingle(Lines(text), key, value);
    LinesOfUnlines(Edit(Lines(text), key, value));
  }

  lemma {:induction false} LookupAfterEdit(lines: seq<string>, key: string, value: string)
    requires GoodKey(key)
    ensures Lookup(ChompAll(Edit(lines, key, value)), key) == Some(Chomp(value))
  {
    if lines == [] || Active(lines[0], key) {
      ChompedAssignment(key, value);
      AssignmentSetsItsKey(key, Chomp(value), key);
      assert Assignment(key, Chomp(value))[|key| + 1..] == Chomp(value);
    } else {
      LookupAfterEdit(lines[1..], key, value);
      ChompKeepsActive(lines[0], key);
    }
  }

  lemma ChompedAssignment(key: string, value: string)
    ensures Chomp(Assignment(key, value)) == Assignment(key, Chomp(value))
  {
  }

  /** Reading the key back gives the value. */
  lemma GetAfterSet(text: string, key: string, value: string)
    requires GoodKey(key) && '\n' !in value
    ensures Lookup(Lines(SetText(text, key, value)), key) == Some(Chomp(value))
    ensures GoodValue(value) ==> Lookup(Lines(SetText(text, key, value)), key) == Some(value)
  {
    OtherLinesAreKept(text, key, value);
    LookupAfterEdit(Lines(text), key, value);
  }

  // No line but the one being edited ends in a carriage return of its own.
  predicate OthersAreClean(lines: seq<string>, key: string) {
    lines == []
    || (if Active(lines[0], key) then ChompAll(lines[1..]) == lines[1..]
        else Chomp(lines[0]) == lines[0] && OthersAreClean(lines[1..], key))
  }

  lemma {:induction false} EditTwice(lines: seq<string>, key: string, first: string, second: string)
    requires GoodKey(key)
    ensures Edit(ChompAll(Edit(lines, key, first)), key, second) == Edit(lines, key, second)
            <==> OthersAreClean(lines, key)
  {
    ChompedAssignment(key, first);
    AssignmentSetsItsKey(key, Chomp(first), key);
    var last := Assignment(key, second);
    if lines != [] {
      if Active(lines[0], key) {
        var once := [Assignment(key, first)] + lines[1..];
        assert once[1..] == lines[1..];
        var both := [last] + ChompAll(lines[1..]);
        assert Edit(ChompAll(once), key, second) == both;
        assert both[1..] == ChompAll(lines[1..]) && ([last] + lines[1..])[1..] == lines[1..];
      } else {
        EditTwice(lines[1..], key, first, second);
        ChompKeepsActive(lines[0], key);
        var once := [lines[0]] + Edit(lines[1..], key, first);
        assert once[1..] == Edit(lines[1..], key, first);
        var a := [Chomp(lines[0])] + Edit(ChompAll(Edit(lines[1..], key, first)), key, second);
        var b := [lines[0]] + Edit(lines[1..], key, second);
        assert Edit(ChompAll(once), key, second) == a;
        assert a[0] == Chomp(lines[0]) && b[0] == lines[0];
        assert a[1..] == Edit(ChompAll(Edit(lines[1..], key, first)), key, second);
        assert b[1..] == Edit(lines[1..], key, second);
      }
    }
  }

  /** Setting a key twice equals setting it last, exactly when no other line of
      the text keeps a carriage return at its end. */
  lemma SetTwice(text: string, key: string, first: string, second: string)
    requires GoodKey(key) && '\n' !in first && '\n' !in second
    ensures SetText(SetText(text, key, first), key, second) == SetText(text, key, second)
            <==> OthersAreClean(Lines(text), key)
  {
    OtherLinesAreKept(text, key, first);
    LinesAreSingle(text);
    LinesAreSingle(SetText(text, key, first));
    EditTwice(Lines(text), key, first, second);
    EditIsSingle(Lines(text), key, second);
    EditIsSingle(Lines(SetText(text, key, first)), key, second);
    UnlinesIsInjective(Edit(Lines(SetText(text, key, first)), key, second), Edit(Lines(text), key, second));
  }

  /** A text for which setting twice differs: a line that ends in two carriage
      returns loses one at every edit. */
  lemma SetTwiceCanDiffer()
    ensures SetText(SetText("x\r\r\n", "k", "1"), "k", "2") != SetText("x\r\r\n", "k", "2")
  {
    var text := "x\r\r\n";
    assert IndexOf('\n', text) == 3;
    assert text[..3] == "x\r\r" && text[4..] == [];
    assert Chomp("x\r\r") == "x\r";
    assert Lines(text) == ["x\r"];
    assert IndexOf('=', "x\r") == 2;
    assert Chomp("x\r") == "x";
    assert GoodKey("k");
    SetTwice(text, "k", "1", "2");
  }

  lemma {:induction false} EditOfChomped(lines: seq<string>, key: string, value: string)
    requires GoodKey(key) && GoodValue(value)
    ensures Edit(ChompAll(lines), key, value) == ChompAll(Edit(lines, key, value))
  {
    ChompedAssignment(key, value);
    if lines != [] {
      EditOfChomped(lines[1..], key, value);
      ChompKeepsActive(lines[0], key);
    }
  }

  lemma {:induction false} EditsCommute(lines: seq<string>, k: string, v: string, k': string, v': string)
    requires GoodKey(k) && GoodKey(k') && k != k' && GoodValue(v) && GoodValue(v')
    ensures Edit(ChompAll(Edit(lines, k, v)), k', v') == Edit(ChompAll(Edit(lines, k', v')), k, v)
            <==> HasKey(lines, k) || HasKey(lines, k')
  {
    ChompedAssignment(k, v);
    ChompedAssignment(k', v');
    AssignmentSetsItsKey(k, v, k');
    AssignmentSetsItsKey(k', v', k);
    AssignmentSetsItsKey(k, v, k);
    AssignmentSetsItsKey(k', v', k');
    if lines == [] {
      assert Edit(ChompAll(Edit(lines, k, v)), k', v') == [Assignment(k, v), Assignment(k', v')];
      assert Edit(ChompAll(Edit(lines, k', v')), k, v) == [Assignment(k', v'), Assignment(k, v)];
      assert [Assignment(k, v), Assignment(k', v')][0] == Assignment(k, v);
      assert [Assignment(k', v'), Assignment(k, v)][0] == Assignment(k', v');
    } else {
      var l, rest := lines[0], lines[1..];
      HasKeyStep(lines, k);
      HasKeyStep(lines, k');
      ChompKeepsActive(l, k);
      ChompKeepsActive(l, k');
      if Active(l, k) {
        EditOfChomped(rest, k', v');
        assert ([Assignment(k, v)] + rest)[1..] == rest;
      } else if Active(l, k') {
        EditOfChomped(rest, k, v);
        assert ([Assignment(k', v')] + rest)[1..] == rest;
      } else {
        EditsCommute(rest, k, v, k', v');
        EditPastOne(l, Edit(rest, k, v), k', v');
        EditPastOne(l, Edit(rest, k', v'), k, v);
      }
    }
  }

  lemma EditPastOne(l: string, rest: seq<string>, key: string, value: string)
    requires !Active(l, key)
    ensures var a := Edit(ChompAll([l] + rest), key, value);
            a == [Chomp(l)] + Edit(ChompAll(rest), key, value) && a[1..] == Edit(ChompAll(rest), key, value)
  {
    ChompKeepsActive(l, key);
    assert ([l] + rest)[1..] == rest;
    assert ChompAll([l] + rest)[1..] == ChompAll(rest);
  }

  /** Edits of two different keys commute exactly when at least one of the keys
      is already set; otherwise they are appended in the order of the edits. */
  lemma SetsCommute(text: string, k: string, v: string, k': string, v': string)
    requires GoodKey(k) && GoodKey(k') && k != k' && GoodValue(v) && GoodValue(v')
    ensures SetText(SetText(text, k, v), k', v') == SetText(SetText(text, k', v'), k, v)
            <==> HasKey(Lines(text), k) || HasKey(Lines(text), k')
  {
    OtherLinesAreKept(text, k, v);
    OtherLinesAreKept(text, k', v');
    LinesAreSingle(SetText(text, k, v));
    LinesAreSingle(SetText(text, k', v'));
    EditIsSingle(Lines(SetText(text, k, v)), k', v');
    EditIsSingle(Lines(SetText(text, k', v')), k, v);
    EditsCommute(Lines(text), k, v, k', v');
    UnlinesIsInjective(Edit(Lines(SetText(text, k, v)), k', v'), Edit(Lines(SetText(text, k', v')), k, v));
  }
}
