/** The lines of an INI file as items with their exact layout, what each item means, and that
    the parser takes each printed line for exactly that. */
module IniLayout {
  import opened CStrings
  import opened IniLines

  datatype Item =
    | Section(indent: string, name: string, tail: string)    // whatever follows the bracket is ignored
    | Pair(indent: string, name: string, before: string, sep: char, after: string, value: string, gap: string,
        comment: string)
    | Continuation(indent: string, text: string, gap: string)
    | Comment(indent: string, text: string)
    | Blank(spaces: string)
    | Bad(indent: string, text: string)                      // neither of these: an error

  function LineOf(item: Item): string {
    match item
    case Section(indent, name, tail) => indent + ("[" + name + "]" + tail)
    case Pair(indent, name, before, sep, after, value, gap, comment) =>
      indent + (name + before + [sep] + (after + value + gap + comment))
    case Continuation(indent, text, gap) => indent + (text + gap)
    case Comment(indent, text) => indent + text
    case Blank(spaces) => spaces
    case Bad(indent, text) => indent + text
  }

  /** The white space of C: blank, tab, line feed, vertical tab, form feed and carriage return. */
  predicate Space(c: char) {
    c in " \t\n\U{0B}\U{0C}\r"
  }

  predicate Spaces(s: string) {
    forall i :: 0 <= i < |s| ==> Space(s[i])
  }

  predicate Trimmed(s: string) {
    s == "" || (!Space(s[0]) && !Space(s[|s| - 1]))
  }

  /** A `;` behind white space begins a comment. */
  predicate CommentAt(s: string, i: nat) {
    0 < i < |s| && s[i] == ';' && Space(s[i - 1])
  }

  predicate Uncommented(s: string) {
    forall i: nat :: i < |s| ==> !CommentAt(s, i)
  }

  predicate Clear(s: string, c: char) {
    c !in s && Uncommented(s)
  }

  /** The character `c` occurs before any comment. */
  predicate Shows(s: string, c: char) {
    exists i :: 0 <= i < |s| && s[i] == c && Uncommented(s[..i])
  }

  predicate Marked(s: string) {
    s != "" && (s[0] == ';' || s[0] == '#')
  }

  /** An indented line is a continuation once there is a name to continue. */
  predicate Indent(indent: string, open: bool) {
    Spaces(indent) && (indent != "" ==> !open)
  }

  /** The place a pair is divided: a `:` counts only if no `=` comes before a comment. */
  predicate Divides(sep: char, left: string, right: string) {
    && (sep == '=' || sep == ':') && Clear(left, sep)
    && (sep == ':' ==> !Shows(left + [sep] + right, '='))
  }

  /** A comment needs white space before it, and a value before that. */
  predicate Trail(value: string, gap: string, comment: string) {
    && Spaces(gap) && (value == "" ==> gap == "")
    && (comment == "" || (gap != "" && comment[0] == ';'))
  }

  /** An item that can be printed as one line of its kind, `open` telling whether a name is there to continue. */
  predicate Proper(item: Item, open: bool) {
    match item
    case Section(indent, name, tail) => Indent(indent, open) && Clear(name, ']')
    case Pair(indent, name, before, sep, after, value, gap, comment) =>
      && Indent(indent, open)
      && Trimmed(name) && (if name == "" then before == "" else !Marked(name) && name[0] != '[')
      && Spaces(before) && Spaces(after) && Divides(sep, name + before, after + value + gap + comment)
      && Trimmed(value) && Clear(value, '\0') && Trail(value, gap, comment)
    case Continuation(indent, text, gap) =>
      open && indent != "" && Spaces(indent) && text != "" && Trimmed(text) && !Marked(text) && Spaces(gap)
    case Comment(indent, text) => Spaces(indent) && Marked(text)
    case Blank(spaces) => Spaces(spaces)
    case Bad(indent, text) =>
      && Indent(indent, open)
      && text != "" && !Space(text[0]) && !Marked(text)
      && if text[0] == '[' then !Shows(text[1..], ']') else !Shows(text, '=') && !Shows(text, ':')
  }

  /** A line, with a byte order mark before it if there is one, that one read takes whole. */
  predicate Readable(line: string, bom: string) {
    '\n' !in line && '\0' !in line && |bom| + |line| + 1 <= 199
  }

  /** What is kept of a section's or a name's text: 49 characters. */
  function Stored(s: string): string {
    if |s| > 49 then s[..49] else s
  }

  /** What an item means, without its layout. */
  function Meaning(h: Handler, st0: State, item: Item): State {
    var st := st0.(lineno := st0.lineno + 1);
    match item
    case Section(_, name, _) => st.(section := Stored(name), prev := "")
    case Pair(_, name, _, _, _, value, _, _) =>
      CallHandler(h, st.(prev := Stored(name)), Call(st.section, name, value))
    case Continuation(_, text, _) => CallHandler(h, st, Call(st.section, st.prev, text))
    case Comment(_, _) => st
    case Blank(_) => st
    case Bad(_, _) => Fault(st)
  }

  // ---- Trimming and searching pieces

  lemma {:induction false} RTrimSpaces(s: string, spaces: string)
    requires Spaces(spaces)
    ensures RTrim(s + spaces) == RTrim(s)
    decreases |spaces|
  {
    if spaces == "" {
      assert s + spaces == s;
    } else {
      var n := |spaces| - 1;
      assert (s + spaces)[..|s + spaces| - 1] == s + spaces[..n];
      RTrimSpaces(s, spaces[..n]);
    }
  }

  lemma {:induction false} LTrimSpaces(spaces: string, s: string)
    requires Spaces(spaces)
    ensures LTrim(spaces + s) == LTrim(s)
    decreases |spaces|
  {
    if spaces == "" {
      assert spaces + s == s;
    } else {
      assert (spaces + s)[1..] == spaces[1..] + s;
      LTrimSpaces(spaces[1..], s);
    }
  }

  /** Trimming the end of a text that begins with something else than a space keeps that beginning. */
  lemma {:induction false} RTrimKeeps(s: string, t: string)
    requires s != "" && !Space(s[|s| - 1])
    ensures RTrim(s + t) == s + RTrim(t)
    decreases |t|
  {
    if t == "" {
      assert s + t == s;
    } else if Space(t[|t| - 1]) {
      assert (s + t)[..|s + t| - 1] == s + t[..|t| - 1];
      RTrimKeeps(s, t[..|t| - 1]);
    }
  }

  lemma RTrimTrimmed(s: string)
    requires Trimmed(s)
    ensures RTrim(s) == s && LTrim(s) == s
  {
  }

  /** The search on a longer text: the same as on the shorter one, if it ends there or something is found. */
  lemma {:induction false} FindMore(s: string, t: string, c: char, i: nat, space: bool)
    requires i <= |s|
    ensures FindFrom(s, c, i, space) < |s| ==> FindFrom(s + t, c, i, space) == FindFrom(s, c, i, space)
    ensures FindFrom(s, c, i, space) == |s| && t != "" && t[0] == c ==> FindFrom(s + t, c, i, space) == |s|
    ensures FindFrom(s, c, i, space) == |s| > i && t != "" && t[0] == ';' && Space(s[|s| - 1]) ==>
              FindFrom(s + t, c, i, space) == |s|
    decreases |s| - i
  {
    if i < |s| && s[i] != c && !(space && s[i] == ';') {
      FindMore(s, t, c, i + 1, IsSpace(s[i]));
    }
  }

  /** The search goes past characters other than `c` that begin no comment, and stops at one that is or does. */
  lemma {:induction false} FindFromIs(s: string, c: char, i: nat)
    requires i <= |s|
    requires forall k: nat :: k < i ==> s[k] != c && !CommentAt(s, k)
    ensures var e := FindFrom(s, c, i, i > 0 && Space(s[i - 1]));
            && (forall k: nat :: k < e ==> s[k] != c && !CommentAt(s, k))
            && (e < |s| ==> s[e] == c || CommentAt(s, e))
    decreases |s| - i
  {
    if i < |s| && s[i] != c && !CommentAt(s, i) {
      FindFromIs(s, c, i + 1);
    }
  }

  lemma FindClear(s: string, c: char)
    ensures Clear(s, c) <==> Find(s, c) == |s|
  {
    FindFromIs(s, c, 0);
  }

  lemma FoundShows(s: string, c: char)
    ensures Shows(s, c) <==> FoundAt(s, Find(s, c), c)
  {
    FindFromIs(s, c, 0);
    var e := Find(s, c);
    if FoundAt(s, e, c) {
      assert Uncommented(s[..e]) by {
        forall k: nat | k < e ensures !CommentAt(s[..e], k) { assert !CommentAt(s, k); }
      }
    } else if Shows(s, c) {
      var i :| 0 <= i < |s| && s[i] == c && Uncommented(s[..i]);
      assert e < i;
      assert CommentAt(s[..i], e);
    }
  }

  // ---- Each kind of line

  /** A line is looked at without its newline and surrounding spaces. */
  function Body(line: string): string {
    LTrim(RTrim(line + "\n"))
  }

  function Indented(line: string): bool {
    |RTrim(line + "\n")| > |Body(line)|
  }

  lemma BodyIs(indent: string, text: string)
    requires Spaces(indent) && text != "" && !Space(text[0])
    ensures Body(indent + text) == RTrim(text) && RTrim(text) != "" && RTrim(text)[0] == text[0]
    ensures Indented(indent + text) == (indent != "")
  {
    RTrimSpaces(indent + text, "\n");
    RTrimBehind(indent, text);
    LTrimSpaces(indent, RTrim(text));
  }

  /** Trimming the end of a text does not reach past a character that is not a space. */
  lemma {:induction false} RTrimBehind(s: string, t: string)
    requires t != "" && !Space(t[0])
    ensures RTrim(s + t) == s + RTrim(t) && RTrim(t) != "" && RTrim(t)[0] == t[0]
    decreases |t|
  {
    if Space(t[|t| - 1]) {
      assert (s + t)[..|s + t| - 1] == s + t[..|t| - 1];
      RTrimBehind(s, t[..|t| - 1]);
    }
  }

  /** A line that begins with `head` is left with it, and with what is not trimmed off the rest. */
  lemma BodyFrom(indent: string, head: string, tail: string)
    requires Spaces(indent) && head != "" && !Space(head[0]) && !Space(head[|head| - 1])
    ensures Body(indent + (head + tail)) == head + RTrim(tail)
    ensures Indented(indent + (head + tail)) == (indent != "")
  {
    BodyIs(indent, head + tail);
    RTrimKeeps(head, tail);
  }

  lemma SectionInside(name: string, rest: string)
    requires Clear(name, ']')
    ensures var body := "[" + name + "]" + rest;
            var e := Find(body[1..], ']');
            e == |name| && FoundAt(body[1..], e, ']') && body[1..][..e] == name
  {
    assert ("[" + name + "]" + rest)[1..] == name + ("]" + rest);
    FindClear(name, ']');
    FindMore(name, "]" + rest, ']', 0, false);
  }

  lemma SectionMeans(h: Handler, st: State, item: Item)
    requires item.Section? && Proper(item, st.prev != "")
    ensures Interpret(h, st, Body(LineOf(item)), Indented(LineOf(item))) ==
            st.(section := Stored(item.name), prev := "")
  {
    var head := "[" + item.name + "]";
    BodyFrom(item.indent, head, item.tail);
    SectionInside(item.name, RTrim(item.tail));
    InterpretSection(h, st, head + RTrim(item.tail), item.indent != "");
  }

  lemma InterpretSection(h: Handler, st: State, body: string, indented: bool)
    requires body != "" && body[0] == '[' && !(st.prev != "" && indented)
    ensures var e := Find(body[1..], ']');
            Interpret(h, st, body, indented) ==
            if FoundAt(body[1..], e, ']') then st.(section := Stored(body[1..][..e]), prev := "")
            else Fault(st)
  {
  }

  lemma ValueMeans(after: string, value: string, gap: string, comment: string)
    requires Spaces(after) && Trimmed(value) && Clear(value, '\0') && Trail(value, gap, comment)
    ensures ValueOf(RTrim(after + value + gap + comment)) == value
  {
    hide IsSpace, Space, Spaces, Trimmed, Clear, Find;
    assert Trail(value, gap, comment) && Spaces(after);
    if value == "" {
      assert after + value + gap + comment == "" + after;
      RTrimSpaces("", after);
    } else {
      ValueBehind(after, value, gap + comment);
      assert after + value + gap + comment == after + (value + (gap + comment));
      CommentCut(value, gap, comment);
    }
  }

  lemma ValueBehind(after: string, value: string, rest: string)
    requires Spaces(after) && value != "" && Trimmed(value)
    ensures LTrim(RTrim(after + (value + rest))) == value + RTrim(rest)
  {
    RTrimBehind(after, value + rest);
    RTrimKeeps(value, rest);
    LTrimSpaces(after, value + RTrim(rest));
  }

  lemma CommentCut(value: string, gap: string, comment: string)
    requires value != "" && Trimmed(value) && Clear(value, '\0') && Trail(value, gap, comment)
    ensures var text := value + RTrim(gap + comment); RTrim(text[..Find(text, '\0')]) == value
  {
    FindClear(value, '\0');
    RTrimTrimmed(value);
    if comment == "" {
      assert gap + comment == "" + gap;
      RTrimSpaces("", gap);
      assert value + "" == value;
    } else {
      RTrimBehind(gap, comment);
      var rest := RTrim(comment);
      var text := value + RTrim(gap + comment);
      assert text == (value + gap) + rest;
      FindSpaces(value, gap);
      FindMore(value + gap, rest, '\0', 0, false);
      assert text[..|value + gap|] == value + gap;
      RTrimSpaces(value, gap);
    }
  }

  lemma {:induction false} FindOneMore(s: string, x: char, c: char, i: nat, space: bool)
    requires i <= |s| && FindFrom(s, c, i, space) == |s| && x != c && x != ';'
    ensures FindFrom(s + [x], c, i, space) == |s| + 1
    decreases |s| - i
  {
    if i < |s| { FindOneMore(s, x, c, i + 1, IsSpace(s[i])); }
  }

  lemma {:induction false} FindSpaces(s: string, spaces: string)
    requires Find(s, '\0') == |s| && Spaces(spaces)
    ensures Find(s + spaces, '\0') == |s + spaces|
    decreases |spaces|
  {
    if spaces == "" {
      assert s + spaces == s;
    } else {
      FindOneMore(s, spaces[0], '\0', 0, false);
      FindSpaces(s + [spaces[0]], spaces[1..]);
      assert s + [spaces[0]] + spaces[1..] == s + spaces;
    }
  }

  /** Trimming the end of a text does not cut off a character that is no white space. */
  lemma ShowsTrimmed(s: string, c: char)
    ensures Shows(RTrim(s), c) ==> Shows(s, c)
  {
    var t := RTrim(s);
    if Shows(t, c) {
      var i :| 0 <= i < |t| && t[i] == c && Uncommented(t[..i]);
      assert s[..i] == t[..i] && s[i] == c;
    }
  }

  lemma PairDivision(sep: char, left: string, right: string)
    requires Divides(sep, left, right)
    ensures var body := left + [sep] + RTrim(right);
            Division(body) == |left| && body[..|left|] == left && body[|left| + 1..] == RTrim(right)
  {
    var cut := RTrim(right);
    var body := left + [sep] + cut;
    assert Clear(left, sep) && (sep == ':' ==> !Shows(left + [sep] + right, '='));
    assert body[..|left|] == left && body[|left| + 1..] == cut;
    hide Clear, Divides, FindFrom, Shows, RTrim, Division, FoundAt;
    assert body == left + ([sep] + cut);
    FindClear(left, sep);
    FindMore(left, [sep] + cut, sep, 0, false);
    if sep == ':' {
      ColonTrimmed(left, right);
      FoundShows(body, '=');
    }
    DivisionAt(body, |left|, sep);
  }

  lemma ColonTrimmed(left: string, right: string)
    ensures Shows(left + ":" + RTrim(right), '=') ==> Shows(left + ":" + right, '=')
  {
    hide Shows;
    RTrimKeeps(left + ":", right);
    ShowsTrimmed(left + ":" + right, '=');
  }

  lemma DivisionAt(body: string, e: nat, sep: char)
    requires e < |body| && body[e] == sep && Find(body, sep) == e
    requires sep == '=' || (sep == ':' && !FoundAt(body, Find(body, '='), '='))
    ensures Division(body) == e
  {
  }

  lemma InterpretPair(h: Handler, st: State, body: string, indented: bool)
    requires body != "" && !Marked(body) && body[0] != '[' && !(st.prev != "" && indented)
    ensures var e := Division(body);
            Interpret(h, st, body, indented) ==
            if e < |body| then CallHandler(h, st.(prev := Stored(RTrim(body[..e]))),
                                           Call(st.section, RTrim(body[..e]), ValueOf(body[e + 1..])))
            else Fault(st)
  {
  }

  lemma PairMeans(h: Handler, st: State, item: Item)
    requires item.Pair? && Proper(item, st.prev != "")
    ensures Interpret(h, st, Body(LineOf(item)), Indented(LineOf(item))) ==
            CallHandler(h, st.(prev := Stored(item.name)), Call(st.section, item.name, item.value))
  {
    var Pair(indent, name, before, sep, after, value, gap, comment) := item;
    var left, right := name + before, after + value + gap + comment;
    assert LineOf(item) == indent + (left + [sep] + right);
    PairBegins(indent, name, before, sep, right, st.prev != "");
    assert Divides(sep, left, right) && Spaces(after) && Trimmed(value) && Clear(value, '\0');
    assert Spaces(before) && Trimmed(name) && Trail(value, gap, comment);
    hide *;
    PairDivision(sep, left, right);
    InterpretPair(h, st, left + [sep] + RTrim(right), indent != "");
    RTrimSpaces(name, before);
    RTrimTrimmed(name);
    ValueMeans(after, value, gap, comment);
  }

  lemma PairBegins(indent: string, name: string, before: string, sep: char, right: string, open: bool)
    requires Indent(indent, open) && Trimmed(name) && (sep == '=' || sep == ':')
    requires if name == "" then before == "" else !Marked(name) && name[0] != '['
    ensures var line, body := indent + (name + before + [sep] + right), name + before + [sep] + RTrim(right);
            && body != "" && !Marked(body) && body[0] != '['
            && Body(line) == body && Indented(line) == (indent != "") && !(open && Indented(line))
  {
    BodyFrom(indent, name + before + [sep], right);
  }

  lemma BadMeans(h: Handler, st: State, item: Item)
    requires item.Bad? && Proper(item, st.prev != "")
    ensures Interpret(h, st, Body(LineOf(item)), Indented(LineOf(item))) == Fault(st)
  {
    BodyIs(item.indent, item.text);
    BadIs(h, st, item.text, item.indent != "");
  }

  lemma BadIs(h: Handler, st: State, text: string, indented: bool)
    requires text != "" && !Space(text[0]) && !Marked(text) && !(st.prev != "" && indented)
    requires if text[0] == '[' then !Shows(text[1..], ']') else !Shows(text, '=') && !Shows(text, ':')
    ensures Interpret(h, st, RTrim(text), indented) == Fault(st)
  {
    var body := RTrim(text);
    assert text == text[..1] + text[1..];
    RTrimKeeps(text[..1], text[1..]);
    if text[0] == '[' {
      assert body[1..] == RTrim(text[1..]);
      InterpretSection(h, st, body, indented);
      hide *;
      ShowsTrimmed(text[1..], ']');
      FoundShows(body[1..], ']');
    } else {
      BadPair(h, st, text, indented);
    }
  }

  lemma BadPair(h: Handler, st: State, text: string, indented: bool)
    requires var body := RTrim(text); body != "" && !Marked(body) && body[0] != '['
    requires !(st.prev != "" && indented) && !Shows(text, '=') && !Shows(text, ':')
    ensures Interpret(h, st, RTrim(text), indented) == Fault(st)
  {
    var body := RTrim(text);
    InterpretPair(h, st, body, indented);
    hide *;
    ShowsTrimmed(text, '=');
    ShowsTrimmed(text, ':');
    FoundShows(body, '=');
    FoundShows(body, ':');
    DivisionIs(body);
  }

  lemma DivisionIs(body: string)
    requires !FoundAt(body, Find(body, '='), '=') && !FoundAt(body, Find(body, ':'), ':')
    ensures Division(body) == |body|
  {
  }

  lemma OtherMeans(h: Handler, st: State, item: Item)
    requires item.Continuation? || item.Comment? || item.Blank?
    requires Proper(item, st.prev != "")
    ensures Interpret(h, st, Body(LineOf(item)), Indented(LineOf(item))) ==
            if item.Continuation? then CallHandler(h, st, Call(st.section, st.prev, item.text)) else st
  {
    match item
    case Continuation(indent, text, gap) =>
      BodyIs(indent, text + gap);
      RTrimSpaces(text, gap);
      RTrimTrimmed(text);
    case Comment(indent, text) => BodyIs(indent, text);
    case Blank(spaces) =>
      assert spaces + "\n" == "" + (spaces + "\n");
      RTrimSpaces("", spaces + "\n");
  }

  /** The bytes EF BB BF. */
  const UTF8_MARK := "\U{EF}\U{BB}\U{BF}"

  /** The byte order mark a file may begin with. */
  predicate Mark(bom: string, st: State) {
    bom == "" || (bom == UTF8_MARK && st.lineno == 0 && st.prev == "")
  }

  lemma MarkSkipped(st: State, line: string, bom: string)
    requires Mark(bom, st)
    requires bom == "" && st.lineno == 0 ==> !(UTF8_MARK <= line)
    ensures var text := bom + line + "\n";
            var skip := if st.lineno == 0 && HasBom(text) then 3 else 0;
            skip == |bom| && text[skip..] == line + "\n"
  {
  }

  lemma LineInterprets(h: Handler, st: State, line: string, bom: string)
    requires Mark(bom, st)
    requires bom == "" && st.lineno == 0 ==> !(UTF8_MARK <= line)
    ensures Line(h, st, bom + line + "\n") ==
            Interpret(h, st.(lineno := st.lineno + 1), Body(line), Indented(line))
  {
    hide RTrim, LTrim, Interpret;
    MarkSkipped(st, line, bom);
    if bom != "" { IndentMatters(h, st.(lineno := st.lineno + 1), Body(line), true, Indented(line)); }
  }

  /** With no name to continue it does not matter where a line begins. */
  lemma IndentMatters(h: Handler, st: State, body: string, a: bool, b: bool)
    requires st.prev == ""
    ensures Interpret(h, st, body, a) == Interpret(h, st, body, b)
  {
  }

  /** One printed line does to the parser what its item means. */
  lemma LineMeans(h: Handler, st: State, item: Item, bom: string)
    requires Proper(item, st.prev != "") && Mark(bom, st)
    requires bom == "" && st.lineno == 0 ==> !(UTF8_MARK <= LineOf(item))
    ensures Line(h, st, bom + LineOf(item) + "\n") == Meaning(h, st, item)
  {
    var next := st.(lineno := st.lineno + 1);
    LineInterprets(h, st, LineOf(item), bom);
    match item
    case Section(_, _, _) => SectionMeans(h, next, item);
    case Pair(_, _, _, _, _, _, _, _) => PairMeans(h, next, item);
    case Bad(_, _) => BadMeans(h, next, item);
    case _ => OtherMeans(h, next, item);
  }
}
