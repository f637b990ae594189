/** Whole INI files: parsing a file printed from items makes exactly their calls, and every line is an item's. */
module IniFiles {
  import opened CStrings
  import opened IniLines
  import opened IniLayout

  /** The lines of a file; `ended` tells whether the last one has a newline. */
  function PrintAll(items: seq<Item>, ended: bool): string {
    if items == [] then ""
    else if |items| == 1 && !ended then LineOf(items[0])
    else LineOf(items[0]) + "\n" + PrintAll(items[1..], ended)
  }

  /** Without its newline, an empty last line is not there. */
  predicate LastLineShows(items: seq<Item>, ended: bool) {
    ended || items == [] || LineOf(items[|items| - 1]) != ""
  }

  /** What a list of items means, from state `st` on. */
  function Means(h: Handler, st: State, items: seq<Item>): State
    decreases |items|
  {
    if items == [] then st else Means(h, Meaning(h, st, items[0]), items[1..])
  }

  /** Whether a name is there to continue after an item. */
  predicate OpenAfter(item: Item, open: bool) {
    if item.Pair? then item.name != "" else open && !item.Section?
  }

  predicate ProperFile(items: seq<Item>, open: bool, bom: string) {
    items == [] ||
    (Proper(items[0], open) && Readable(LineOf(items[0]), bom) && ProperFile(items[1..], OpenAfter(items[0], open), ""))
  }

  lemma {:induction false} ReadsWhole(line: string, rest: string, max: nat)
    requires '\n' !in line && |line| + 1 <= max
    ensures ReadLength(line + "\n" + rest, max) == |line| + 1
    decreases |line|
  {
    if line != "" {
      assert (line + "\n" + rest)[1..] == line[1..] + "\n" + rest;
      ReadsWhole(line[1..], rest, max - 1);
    }
  }

  lemma ParseOne(h: Handler, st: State, line: string, rest: string)
    requires '\n' !in line && '\0' !in line && |line| + 1 <= 199
    ensures Parse(h, st, line + "\n" + rest) == Parse(h, Line(h, st, line + "\n"), rest)
  {
    var file, n := line + "\n" + rest, |line| + 1;
    ReadsWhole(line, rest, 199);
    assert file[..n] == line + "\n" && file[n..] == rest;
    CStringWhole(line + "\n", 0);
    assert (line + "\n")[0..] == line + "\n";
  }

  lemma MarkHasNoBreak(bom: string, line: string, st: State)
    requires Mark(bom, st) && Readable(line, bom)
    ensures '\n' !in bom + line && '\0' !in bom + line && |bom + line| + 1 <= 199
  {
  }

  /** The first line of a printed file does what its item means. */
  lemma FirstLineMeans(h: Handler, st: State, items: seq<Item>, bom: string)
    requires items != [] && ProperFile(items, st.prev != "", bom) && Mark(bom, st)
    requires bom == "" && st.lineno == 0 ==> !(UTF8_MARK <= LineOf(items[0]))
    ensures Line(h, st, bom + LineOf(items[0]) + "\n") == Meaning(h, st, items[0])
  {
    LineMeans(h, st, items[0], bom);
  }

  lemma Regroup(a: string, b: string, c: string, d: string)
    ensures a + (b + c + d) == a + b + c + d
  {
  }

  /** One read takes it and leaves the rest to parse. */
  lemma FirstLine(h: Handler, st: State, line: string, rest: string, bom: string)
    requires Readable(line, bom) && Mark(bom, st)
    ensures Parse(h, st, bom + (line + "\n" + rest)) == Parse(h, Line(h, st, bom + line + "\n"), rest)
  {
    MarkHasNoBreak(bom, line, st);
    ParseOne(h, st, bom + line, rest);
    Regroup(bom, line, "\n", rest);
  }

  lemma {:induction false} ReadsRest(line: string, max: nat)
    requires '\n' !in line && |line| <= max
    ensures ReadLength(line, max) == |line|
    decreases |line|
  {
    if line != "" { ReadsRest(line[1..], max - 1); }
  }

  /** A newline at its end changes nothing in what a line does. */
  lemma NewlineIsNothing(h: Handler, st: State, text: string)
    ensures Line(h, st, text + "\n") == Line(h, st, text)
  {
    var skip := if st.lineno == 0 && HasBom(text) then 3 else 0;
    assert HasBom(text + "\n") == HasBom(text);
    assert (text + "\n")[skip..] == text[skip..] + "\n";
    RTrimSpaces(text[skip..], "\n");
    hide RTrim, LTrim, Interpret;
  }

  /** The same for a last line without newline. */
  lemma FinalLine(h: Handler, st: State, line: string, bom: string)
    requires Readable(line, bom) && Mark(bom, st) && bom + line != ""
    ensures Parse(h, st, bom + line) == Line(h, st, bom + line + "\n")
  {
    var text := bom + line;
    MarkHasNoBreak(bom, line, st);
    ReadsRest(text, 199);
    CStringWhole(text, 0);
    assert text[..|text|] == text && text[0..] == text;
    NewlineIsNothing(h, st, text);
    hide Line;
  }

  /** A proper item leaves a name to continue exactly when `OpenAfter` says so. */
  lemma RestProper(h: Handler, st: State, items: seq<Item>, bom: string)
    requires items != [] && ProperFile(items, st.prev != "", bom)
    ensures var t := Meaning(h, st, items[0]); ProperFile(items[1..], t.prev != "", "") && t.lineno > 0
  {
  }

  lemma ParseLast(h: Handler, st: State, items: seq<Item>, bom: string)
    requires ProperFile(items, st.prev != "", bom) && Mark(bom, st) && |items| == 1
    requires bom == "" && st.lineno == 0 ==> !(UTF8_MARK <= LineOf(items[0]))
    requires LastLineShows(items, false)
    ensures Parse(h, st, bom + PrintAll(items, false)) == Means(h, st, items)
  {
    FirstLineMeans(h, st, items, bom);
    assert Readable(LineOf(items[0]), bom) && LineOf(items[0]) != "";
    assert Means(h, st, items) == Meaning(h, st, items[0]);
    hide Meaning, Parse, ProperFile, LineOf, Mark;
    FinalLine(h, st, LineOf(items[0]), bom);
  }

  lemma ParseFirst(h: Handler, st: State, items: seq<Item>, ended: bool, bom: string)
    requires ProperFile(items, st.prev != "", bom) && Mark(bom, st) && items != [] && (|items| > 1 || ended)
    requires bom == "" && st.lineno == 0 ==> !(UTF8_MARK <= LineOf(items[0]))
    ensures Parse(h, st, bom + PrintAll(items, ended)) ==
            Parse(h, Meaning(h, st, items[0]), PrintAll(items[1..], ended))
  {
    FirstLineMeans(h, st, items, bom);
    assert Readable(LineOf(items[0]), bom);
    hide Meaning, Parse, ProperFile, LineOf, Mark;
    FirstLine(h, st, LineOf(items[0]), PrintAll(items[1..], ended), bom);
  }

  /** For every handler and every list of proper items whose lines fit the buffer: parsing the printed
      file makes exactly the calls the items ask for, with exactly their sections, names and values,
      and gives the number of the first line at fault. */
  lemma {:induction false} ParsePrinted(h: Handler, st: State, items: seq<Item>, ended: bool, bom: string)
    requires ProperFile(items, st.prev != "", bom) && Mark(bom, st) && (items == [] ==> bom == "")
    requires bom == "" && st.lineno == 0 && items != [] ==> !(UTF8_MARK <= LineOf(items[0]))
    requires LastLineShows(items, ended)
    ensures Parse(h, st, bom + PrintAll(items, ended)) == Means(h, st, items)
    decreases |items|
  {
    if items == [] {
      assert bom + PrintAll(items, ended) == "";
    } else if |items| == 1 && !ended {
      ParseLast(h, st, items, bom);
    } else {
      RestProper(h, st, items, bom);
      ParseFirst(h, st, items, ended, bom);
      var next := Meaning(h, st, items[0]);
      hide Meaning, Parse, ProperFile;
      ParsePrinted(h, next, items[1..], ended, "");
      assert "" + PrintAll(items[1..], ended) == PrintAll(items[1..], ended);
    }
  }

  // ---- The calls and the result

  /** The calls a list of items asks for, whatever the handler says to them. */
  function CallsOf(items: seq<Item>, section: string, prev: string): seq<Call> {
    if items == [] then []
    else
      match items[0]
      case Section(_, name, _) => CallsOf(items[1..], Stored(name), "")
      case Pair(_, name, _, _, _, value, _, _) =>
        [Call(section, name, value)] + CallsOf(items[1..], section, Stored(name))
      case Continuation(_, text, _) => [Call(section, prev, text)] + CallsOf(items[1..], section, prev)
      case _ => CallsOf(items[1..], section, prev)
  }

  /** The number of the first line that is bad or whose call is refused, the first item being line `n` and `seen`
      the calls made before it; 0 for none. */
  function FirstFault(h: Handler, items: seq<Item>, n: nat, section: string, prev: string, seen: seq<Call>): nat {
    if items == [] then 0
    else
      match items[0]
      case Bad(_, _) => n
      case Section(_, name, _) => FirstFault(h, items[1..], n + 1, Stored(name), "", seen)
      case Pair(_, name, _, _, _, value, _, _) =>
        var call := Call(section, name, value);
        if !h(seen, call) then n else FirstFault(h, items[1..], n + 1, section, Stored(name), seen + [call])
      case Continuation(_, text, _) =>
        var call := Call(section, prev, text);
        if !h(seen, call) then n else FirstFault(h, items[1..], n + 1, section, prev, seen + [call])
      case _ => FirstFault(h, items[1..], n + 1, section, prev, seen)
  }

  lemma {:induction false} MeansCalls(h: Handler, st: State, items: seq<Item>)
    ensures var t := Means(h, st, items);
            && t.calls == st.calls + CallsOf(items, st.section, st.prev)
            && t.error == (if st.error != 0 then st.error
                           else FirstFault(h, items, st.lineno + 1, st.section, st.prev, st.calls))
    decreases |items|
  {
    if items != [] {
      MeansCalls(h, Meaning(h, st, items[0]), items[1..]);
    }
  }

  lemma MeansFromStart(h: Handler, items: seq<Item>)
    ensures var t := Means(h, Start, items);
            t.calls == CallsOf(items, "", "") && t.error == FirstFault(h, items, 1, "", "", [])
  {
    MeansCalls(h, Start, items);
    hide Means, CallsOf, FirstFault;
    assert [] + CallsOf(items, "", "") == CallsOf(items, "", "");
  }

  function WithoutBad(items: seq<Item>): seq<Item> {
    if items == [] then []
    else if items[0].Bad? then WithoutBad(items[1..])
    else [items[0]] + WithoutBad(items[1..])
  }

  lemma {:induction false} BadAsksNothing(items: seq<Item>, section: string, prev: string)
    ensures CallsOf(WithoutBad(items), section, prev) == CallsOf(items, section, prev)
    decreases |items|
  {
    if items != [] {
      var rest := items[1..];
      match items[0]
      case Section(_, name, _) => BadAsksNothing(rest, Stored(name), "");
      case Pair(_, name, _, _, _, _, _, _) => BadAsksNothing(rest, section, Stored(name));
      case _ => BadAsksNothing(rest, section, prev);
    }
  }

  /** A file of proper items: the calls are those of the items, the same as if its bad lines were not there and whatever
      the handler says, and the result is the number of the first line that is bad or refused by the handler, or 0. */
  lemma BadLinesChangeOnlyTheResult(h: Handler, items: seq<Item>, ended: bool, bom: string)
    requires ProperFile(items, false, bom) && Mark(bom, Start) && items != [] && LastLineShows(items, ended)
    requires bom == "" ==> !(UTF8_MARK <= LineOf(items[0]))
    ensures var t := Parse(h, Start, bom + PrintAll(items, ended));
            && t.calls == CallsOf(WithoutBad(items), "", "")
            && t.error == FirstFault(h, items, 1, "", "", [])
  {
    hide ProperFile, Parse, Means, CallsOf, FirstFault, LineOf, PrintAll;
    MeansFromStart(h, items);
    BadAsksNothing(items, "", "");
    ParsePrinted(h, Start, items, ended, bom);
  }

  // ---- Lines that do not fit, and lines with a NUL

  lemma {:induction false} ReadsFull(line: string, rest: string)
    requires '\n' !in line
    ensures ReadLength(line + rest, |line|) == |line|
    decreases |line|
  {
    if line != "" {
      assert (line + rest)[1..] == line[1..] + rest;
      ReadsFull(line[1..], rest);
    }
  }

  /** A line of 199 characters or more is cut: its first 199 are a line of their own, and what follows them,
      its newline at the least, is the next. */
  lemma LongLineIsCut(h: Handler, st: State, item: Item, rest: string)
    requires Proper(item, st.prev != "") && |LineOf(item)| == 199 && '\n' !in LineOf(item) && '\0' !in LineOf(item)
    requires st.lineno == 0 ==> !(UTF8_MARK <= LineOf(item))
    ensures Parse(h, st, LineOf(item) + rest) == Parse(h, Meaning(h, st, item), rest)
  {
    var line := LineOf(item);
    ReadsFull(line, rest);
    LineMeans(h, st, item, "");
    assert "" + line + "\n" == line + "\n";
    NewlineIsNothing(h, st, line);
    CStringWhole(line, 0);
    assert (line + rest)[..199] == line && (line + rest)[199..] == rest && line[0..] == line;
    hide LineOf, Line, Meaning, Proper;
  }

  /** What stands in a line behind a NUL is not there. */
  lemma NulHidesTheRest(h: Handler, st: State, line: string, hidden: string, rest: string)
    requires '\n' !in line + hidden && '\0' !in line && |line| + |hidden| + 2 <= 199
    ensures Parse(h, st, line + "\0" + hidden + "\n" + rest) == Parse(h, st, line + "\n" + rest)
  {
    hide Line, Parse;
    ParseOne(h, st, line, rest);
    NewlineIsNothing(h, st, line);
    ParseCut(h, st, line, hidden, rest);
  }

  lemma ParseCut(h: Handler, st: State, line: string, hidden: string, rest: string)
    requires '\n' !in line + hidden && '\0' !in line && |line| + |hidden| + 2 <= 199
    ensures Parse(h, st, line + "\0" + hidden + "\n" + rest) == Parse(h, Line(h, st, line), rest)
  {
    var text := line + "\0" + hidden;
    var file, n := text + "\n" + rest, |text| + 1;
    ReadsWhole(text, rest, 199);
    assert file[..n] == text + "\n" && file[n..] == rest;
    CStringIs(text + "\n", 0, line);
    hide Line;
  }

  // ---- Every line is an item

  lemma {:induction false} SplitFront(s: string) returns (spaces: string, rest: string)
    ensures s == spaces + rest && Spaces(spaces) && (rest != "" ==> !Space(rest[0]))
  {
    if s == "" || !Space(s[0]) {
      spaces, rest := "", s;
    } else {
      spaces, rest := SplitFront(s[1..]);
      spaces := [s[0]] + spaces;
    }
  }

  lemma {:induction false} SplitBack(s: string) returns (rest: string, spaces: string)
    ensures s == rest + spaces && Spaces(spaces) && (rest != "" ==> !Space(rest[|rest| - 1]))
  {
    if s == "" || !Space(s[|s| - 1]) {
      rest, spaces := s, "";
    } else {
      rest, spaces := SplitBack(s[..|s| - 1]);
      spaces := spaces + [s[|s| - 1]];
    }
  }

  /** What comes before the first place where `c` shows. */
  lemma SplitAt(s: string, c: char) returns (left: string, right: string)
    requires Shows(s, c)
    ensures s == left + [c] + right && Clear(left, c)
  {
    FoundShows(s, c);
    FindFromIs(s, c, 0);
    var e := Find(s, c);
    left, right := s[..e], s[e + 1..];
    forall k: nat | k < e ensures !CommentAt(left, k) { assert !CommentAt(s, k); }
  }

  /** A value ends at the first comment. */
  lemma SplitValue(s: string) returns (value: string, gap: string, comment: string)
    requires '\0' !in s && (s != "" ==> !Space(s[0]))
    ensures s == value + gap + comment && Trimmed(value) && Clear(value, '\0') && Trail(value, gap, comment)
  {
    FindFromIs(s, '\0', 0);
    var e := Find(s, '\0');
    comment := s[e..];
    value, gap := SplitBack(s[..e]);
    assert value == s[..|value|];
    forall k: nat | k < |value| ensures !CommentAt(value, k) { assert !CommentAt(s, k); }
    if e > 0 { assert s[0] == (value + gap)[0]; }
    if comment != "" { assert s[e] == ';' && CommentAt(s, e) && s[e - 1] == s[..e][e - 1]; }
  }

  lemma PairOf(indent: string, text: string, sep: char, open: bool) returns (item: Item)
    requires Indent(indent, open) && text != "" && !Space(text[0]) && !Marked(text) && text[0] != '[' && '\0' !in text
    requires Shows(text, sep) && (sep == '=' || (sep == ':' && !Shows(text, '=')))
    ensures Proper(item, open) && LineOf(item) == indent + text
  {
    var left, right := SplitAt(text, sep);
    var name, before := SplitBack(left);
    var after, other := SplitFront(right);
    var value, gap, comment := SplitValue(other);
    item := Pair(indent, name, before, sep, after, value, gap, comment);
    assert name + before == left && after + value + gap + comment == right;
    assert text[0] == (name + before + [sep])[0];
    NameBegins(text, name, before, sep);
    hide Spaces, Space, Uncommented, Shows, Trail, Marked;
  }

  lemma NameBegins(text: string, name: string, before: string, sep: char)
    requires text != "" && !Space(text[0]) && !Marked(text) && text[0] != '[' && text[0] == (name + before + [sep])[0]
    requires Spaces(before) && (name != "" ==> !Space(name[|name| - 1]))
    ensures Trimmed(name) && (if name == "" then before == "" else !Marked(name) && name[0] != '[')
  {
  }

  /** Every line without a NUL is the line of an item: the items cover all that can be written. */
  lemma EveryLineIsAnItem(line: string, open: bool) returns (item: Item)
    requires '\0' !in line
    ensures Proper(item, open) && LineOf(item) == line
  {
    var indent, text := SplitFront(line);
    if text == "" {
      item := Blank(indent);
    } else if Marked(text) {
      item := Comment(indent, text);
    } else if open && indent != "" {
      var rest, gap := SplitBack(text);
      item := Continuation(indent, rest, gap);
    } else if text[0] == '[' {
      if Shows(text[1..], ']') {
        var name, tail := SplitAt(text[1..], ']');
        item := Section(indent, name, tail);
      } else {
        item := Bad(indent, text);
      }
    } else if Shows(text, '=') {
      item := PairOf(indent, text, '=', open);
    } else if Shows(text, ':') {
      item := PairOf(indent, text, ':', open);
    } else {
      item := Bad(indent, text);
    }
  }

  /** No line is longer than what one read takes with its newline. */
  predicate ShortLines(file: string) {
    forall i, j :: 0 <= i <= j <= |file| && '\n' !in file[i..j] ==> j - i <= 198
  }

  lemma {:induction false} FirstBreak(file: string) returns (line: string, rest: string)
    requires '\n' in file
    ensures file == line + "\n" + rest && '\n' !in line
  {
    if file[0] == '\n' {
      line, rest := "", file[1..];
    } else {
      line, rest := FirstBreak(file[1..]);
      line := [file[0]] + line;
    }
  }

  lemma ShortRest(bom: string, line: string, rest: string)
    requires ShortLines(bom + (line + "\n" + rest)) && '\n' !in bom + line
    ensures |bom| + |line| <= 198 && ShortLines(rest)
  {
    var file := bom + (line + "\n" + rest);
    assert file[0..|bom + line|] == bom + line;
    var n := |bom + line| + 1;
    forall i, j | 0 <= i <= j <= |rest| && '\n' !in rest[i..j] ensures j - i <= 198 {
      assert file[n + i..n + j] == rest[i..j];
    }
  }

  /** Every file without a NUL and without a line that is cut is a printed list of proper items. */
  lemma {:induction false} EveryFileIsItems(file: string, open: bool, bom: string)
    returns (items: seq<Item>, ended: bool)
    requires '\0' !in file && '\n' !in bom && ShortLines(bom + file)
    ensures PrintAll(items, ended) == file && ProperFile(items, open, bom) && LastLineShows(items, ended)
    ensures items == [] <==> file == ""
    ensures items == [] ==> ended
    decreases |file|
  {
    if file == "" {
      items, ended := [], true;
    } else if '\n' in file {
      var line, rest := FirstBreak(file);
      ShortRest(bom, line, rest);
      assert "" + rest == rest;
      var item := EveryLineIsAnItem(line, open);
      var others;
      others, ended := EveryFileIsItems(rest, OpenAfter(item, open), "");
      items := [item] + others;
      assert items[0] == item && items[1..] == others;
      hide *;
      WithLine(items, ended, open, bom);
    } else {
      var item := EveryLineIsAnItem(file, open);
      items, ended := [item], false;
      assert (bom + file)[0..|bom + file|] == bom + file;
      hide LineOf, Proper;
    }
  }

  lemma WithLine(items: seq<Item>, ended: bool, open: bool, bom: string)
    requires items != [] && Proper(items[0], open) && Readable(LineOf(items[0]), bom)
    requires ProperFile(items[1..], OpenAfter(items[0], open), "") && LastLineShows(items[1..], ended)
    requires items[1..] == [] ==> ended
    ensures PrintAll(items, ended) == LineOf(items[0]) + "\n" + PrintAll(items[1..], ended)
    ensures ProperFile(items, open, bom) && LastLineShows(items, ended)
  {
    hide LineOf, Proper, Readable, OpenAfter;
  }

  /** So for every such file there are items whose calls and whose result, read off their meaning, are the parser's. */
  lemma EveryFileParses(h: Handler, file: string, bom: string) returns (items: seq<Item>, ended: bool)
    requires '\0' !in file && file != "" && ShortLines(bom + file) && Mark(bom, Start)
    requires bom == "" ==> !(UTF8_MARK <= file)
    ensures PrintAll(items, ended) == file && ProperFile(items, false, bom)
    ensures var t := Parse(h, Start, bom + file);
            && t.calls == CallsOf(WithoutBad(items), "", "")
            && t.error == FirstFault(h, items, 1, "", "", [])
  {
    items, ended := EveryFileIsItems(file, false, bom);
    assert LineOf(items[0]) <= file;
    hide *;
    BadLinesChangeOnlyTheResult(h, items, ended, bom);
  }
}
