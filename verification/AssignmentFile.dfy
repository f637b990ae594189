/** The file of prefix assignments: the JSON text of a string map with its keys in
    order, reading it back, and what is left in a file that is written but never truncated. */
module AssignmentFile {
  import opened Options

  // ---- Keys in byte order

  predicate Leq(a: string, b: string) {
    a == "" || (b != "" && (a[0] < b[0] || (a[0] == b[0] && Leq(a[1..], b[1..]))))
  }

  lemma {:induction false} LeqTotal(a: string, b: string)
    ensures Leq(a, b) || Leq(b, a)
  {
    if a != "" && b != "" && a[0] == b[0] { LeqTotal(a[1..], b[1..]); }
  }

  lemma {:induction false} LeqAntisymmetric(a: string, b: string)
    requires Leq(a, b) && Leq(b, a)
    ensures a == b
  {
    if a != "" {
      LeqAntisymmetric(a[1..], b[1..]);
      assert a == [a[0]] + a[1..] && b == [b[0]] + b[1..];
    }
  }

  lemma {:induction false} LeqTransitive(a: string, b: string, c: string)
    requires Leq(a, b) && Leq(b, c)
    ensures Leq(a, c)
  {
    if a != "" && a[0] == b[0] == c[0] { LeqTransitive(a[1..], b[1..], c[1..]); }
  }

  predicate IsMin(k: string, keys: set<string>) {
    k in keys && forall x :: x in keys ==> Leq(k, x)
  }

  lemma {:induction false} MinExists(keys: set<string>)
    requires keys != {}
    ensures exists k :: IsMin(k, keys)
    ensures forall a, b :: IsMin(a, keys) && IsMin(b, keys) ==> a == b
    decreases |keys|
  {
    var x :| x in keys;
    LeqTotal(x, x);
    if keys == {x} {
      assert IsMin(x, keys);
    } else {
      MinExists(keys - {x});
      var y :| IsMin(y, keys - {x});
      LeqTotal(x, y);
      var k := if Leq(x, y) then x else y;
      forall z | z in keys ensures Leq(k, z) {
        if z != x && Leq(x, y) { LeqTransitive(x, y, z); }
      }
      assert IsMin(k, keys);
    }
    forall a, b | IsMin(a, keys) && IsMin(b, keys) ensures a == b {
      LeqAntisymmetric(a, b);
    }
  }

  function MinKey(keys: set<string>): (k: string)
    requires keys != {}
    ensures IsMin(k, keys)
  {
    MinExists(keys);
    var k :| k in keys && IsMin(k, keys);
    k
  }

  // ---- Writing

  function Escape(s: string): string {
    if s == "" then ""
    else (if s[0] == '\"' || s[0] == '\\' then ['\\', s[0]] else [s[0]]) + Escape(s[1..])
  }

  function Quote(s: string): string {
    "\"" + Escape(s) + "\""
  }

  function Entry(k: string, v: string): string {
    Quote(k) + ":" + Quote(v)
  }

  function Entries(m: map<string, string>): string
    requires m != map[]
    decreases |m|
  {
    var k := MinKey(m.Keys);
    var rest := m - {k};
    if rest == map[] then Entry(k, m[k])
    else
      Smaller(m, k);
      Entry(k, m[k]) + "," + Entries(rest)
  }

  lemma Smaller(m: map<string, string>, k: string)
    requires k in m
    ensures |m - {k}| < |m|
  {
  }

  /** The JSON text of the assignments. */
  function Marshal(m: map<string, string>): string {
    if m == map[] then "{}" else "{" + Entries(m) + "}"
  }

  // ---- Reading

  /** A string up to its closing quote, and the text after it. */
  function ReadBody(s: string): (r: Option<(string, string)>)
    ensures r.Some? ==> |r.value.1| < |s|
  {
    if s == "" then None
    else if s[0] == '\"' then Some(("", s[1..]))
    else if s[0] == '\\' then
      if |s| < 2 || (s[1] != '\"' && s[1] != '\\') then None
      else Prefixed(s[1], ReadBody(s[2..]))
    else Prefixed(s[0], ReadBody(s[1..]))
  }

  function Prefixed(c: char, r: Option<(string, string)>): Option<(string, string)> {
    if r.None? then None else Some(([c] + r.value.0, r.value.1))
  }

  predicate IsBlank(c: char) {
    c == ' ' || c == '\t' || c == '\r' || c == '\n'
  }

  predicate Blank(s: string) {
    forall i :: 0 <= i < |s| ==> IsBlank(s[i])
  }

  /** A text without the blanks it begins with: they may stand before any token. */
  function Skip(s: string): (r: string)
    ensures |r| <= |s|
    ensures r == "" <==> Blank(s)
    ensures r != "" ==> !IsBlank(r[0])
  {
    if s != "" && IsBlank(s[0]) then Skip(s[1..]) else s
  }

  function ReadQuoted(s0: string): (r: Option<(string, string)>)
    ensures r.Some? ==> |r.value.1| < |s0|
  {
    var s := Skip(s0);
    if s == "" || s[0] != '\"' then None else ReadBody(s[1..])
  }

  /** The text behind the next token, if that is `c`. */
  function After(s0: string, c: char): (r: Option<string>)
    ensures r.Some? ==> |r.value| < |s0|
  {
    var s := Skip(s0);
    if s == "" || s[0] != c then None else Some(s[1..])
  }

  function ReadEntry(s: string): (r: Option<((string, string), string)>)
    ensures r.Some? ==> |r.value.1| < |s|
  {
    match ReadQuoted(s)
    case None => None
    case Some((k, rest)) =>
      match After(rest, ':')
      case None => None
      case Some(text) =>
        match ReadQuoted(text)
        case None => None
        case Some((v, more)) => Some(((k, v), more))
  }

  function ReadEntries(s: string, acc: map<string, string>): Option<(map<string, string>, string)>
    decreases |s|
  {
    match ReadEntry(s)
    case None => None
    case Some(((k, v), rest)) =>
      if After(rest, ',').Some? then ReadEntries(After(rest, ',').value, acc[k := v])
      else if After(rest, '}').Some? then Some((acc[k := v], After(rest, '}').value))
      else None
  }

  /** The map a text stands for, if it is one object and nothing else but blanks. */
  function Unmarshal(s: string): Option<map<string, string>> {
    match After(s, '{')
    case None => None
    case Some(inside) =>
      if After(inside, '}').Some? then
        if Blank(After(inside, '}').value) then Some(map[]) else None
      else
        match ReadEntries(inside, map[])
        case None => None
        case Some((m, rest)) => if Blank(rest) then Some(m) else None
  }

  // ---- Round trip

  lemma {:induction false} ReadsBody(s: string, rest: string)
    ensures ReadBody(Escape(s) + "\"" + rest) == Some((s, rest))
  {
    if s == "" {
      assert (Escape(s) + "\"" + rest)[1..] == rest;
    } else {
      ReadsBody(s[1..], rest);
      var n := if s[0] == '\"' || s[0] == '\\' then 2 else 1;
      assert Escape(s) == Escape(s)[..n] + Escape(s[1..]);
      Behind(Escape(s)[..n], Escape(s[1..]), "\"", rest);
      assert s == [s[0]] + s[1..];
    }
  }

  lemma Behind(a: string, b: string, c: string, d: string)
    ensures (a + b + c + d)[|a|..] == b + c + d
    ensures a != "" ==> (a + b + c + d)[0] == a[0]
    ensures |a| > 1 ==> (a + b + c + d)[1] == a[1]
  {
  }

  lemma ReadsQuoted(s: string, rest: string)
    ensures ReadQuoted(Quote(s) + rest) == Some((s, rest))
  {
    ReadsBody(s, rest);
    assert (Quote(s) + rest)[1..] == Escape(s) + "\"" + rest;
  }

  lemma ReadsEntry(k: string, v: string, rest: string)
    ensures ReadEntry(Entry(k, v) + rest) == Some(((k, v), rest))
  {
    assert Entry(k, v) + rest == Quote(k) + (":" + Quote(v) + rest);
    ReadsQuoted(k, ":" + Quote(v) + rest);
    assert (":" + Quote(v) + rest)[1..] == Quote(v) + rest;
    ReadsQuoted(v, rest);
  }

  lemma ReadsOneMore(k: string, v: string, rest: string, acc: map<string, string>)
    ensures ReadEntries(Entry(k, v) + ("," + rest), acc) == ReadEntries(rest, acc[k := v])
  {
    hide ReadEntry, Entry;
    ReadsEntry(k, v, "," + rest);
    assert ("," + rest)[1..] == rest;
  }

  lemma ReadsLast(k: string, v: string, rest: string, acc: map<string, string>)
    ensures ReadEntries(Entry(k, v) + ("}" + rest), acc) == Some((acc[k := v], rest))
  {
    ReadsEntry(k, v, "}" + rest);
    assert ("}" + rest)[1..] == rest;
  }

  lemma {:induction false} ReadsEntries(m: map<string, string>, acc: map<string, string>, rest: string)
    requires m != map[]
    ensures ReadEntries(Entries(m) + "}" + rest, acc) == Some((acc + m, rest))
    decreases |m|
  {
    var k := MinKey(m.Keys);
    var others := m - {k};
    if others == map[] {
      assert Entries(m) + "}" + rest == Entry(k, m[k]) + ("}" + rest);
      ReadsLast(k, m[k], rest, acc);
      OnlyKey(m, k, acc);
    } else {
      Smaller(m, k);
      EntriesText(m, k, rest);
      ReadsOneMore(k, m[k], Entries(others) + "}" + rest, acc);
      ReadsEntries(others, acc[k := m[k]], rest);
      FirstThenOthers(m, k, acc);
    }
  }

  lemma EntriesText(m: map<string, string>, k: string, rest: string)
    requires m != map[] && k == MinKey(m.Keys) && m - {k} != map[]
    ensures Entries(m) + "}" + rest == Entry(k, m[k]) + ("," + (Entries(m - {k}) + "}" + rest))
  {
  }

  lemma FirstThenOthers(m: map<string, string>, k: string, acc: map<string, string>)
    requires k in m
    ensures acc[k := m[k]] + (m - {k}) == acc + m
  {
  }

  lemma OnlyKey(m: map<string, string>, k: string, acc: map<string, string>)
    requires k in m && m - {k} == map[]
    ensures acc[k := m[k]] == acc + m
  {
    assert m.Keys - {k} == (m - {k}).Keys == {};
    assert m.Keys == (m.Keys - {k}) + {k} == {k};
    assert acc[k := m[k]].Keys == (acc + m).Keys;
  }

  lemma EntriesQuoted(m: map<string, string>)
    requires m != map[]
    ensures Entries(m) != "" && Entries(m)[0] == '\"'
  {
  }

  lemma TextParts(m: map<string, string>, tail: string)
    requires m != map[]
    ensures var s := Marshal(m) + tail;
            |s| >= 2 && s[0] == '{' && s[1] == '\"' && s[1..] == Entries(m) + "}" + tail
  {
    hide Entries;
    EntriesQuoted(m);
    Behind("{", Entries(m), "}", tail);
  }

  /** Every map is read back from its text, whatever blanks follow it. */
  lemma UnmarshalMarshal(m: map<string, string>, blanks: string)
    requires Blank(blanks)
    ensures Unmarshal(Marshal(m) + blanks) == Some(m)
  {
    hide Entries, ReadEntries;
    var s := Marshal(m) + blanks;
    if m == map[] {
      assert s[2..] == blanks;
    } else {
      TextParts(m, blanks);
      ReadsEntries(m, map[], blanks);
      assert map[] + m == m;
    }
  }

  /** Text after the object that is not blank makes the whole file unreadable. */
  lemma TailMakesUnreadable(m: map<string, string>, tail: string)
    requires !Blank(tail)
    ensures Unmarshal(Marshal(m) + tail) == None
  {
    hide Entries, ReadEntries;
    var s := Marshal(m) + tail;
    if m == map[] {
      assert s[2..] == tail;
    } else {
      TextParts(m, tail);
      ReadsEntries(m, map[], tail);
    }
  }

  // ---- A cut text

  lemma {:induction false} ReadBodyMore(s: string, more: string)
    requires ReadBody(s).Some?
    ensures ReadBody(s + more) == Some((ReadBody(s).value.0, ReadBody(s).value.1 + more))
  {
    if s[0] == '\"' {
      assert (s + more)[1..] == s[1..] + more;
    } else {
      var n := if s[0] == '\\' then 2 else 1;
      ReadBodyMore(s[n..], more);
      assert (s + more)[n..] == s[n..] + more;
    }
  }

  lemma {:induction false} SkipMore(s: string, more: string)
    requires !Blank(s)
    ensures Skip(s + more) == Skip(s) + more
  {
    if IsBlank(s[0]) {
      SkipMore(s[1..], more);
      assert (s + more)[1..] == s[1..] + more;
    }
  }

  lemma AfterMore(s: string, more: string, c: char)
    requires !Blank(s)
    ensures After(s + more, c) == if After(s, c).None? then None else Some(After(s, c).value + more)
  {
    SkipMore(s, more);
    assert (Skip(s) + more)[1..] == Skip(s)[1..] + more;
  }

  lemma ReadQuotedMore(s: string, more: string)
    requires ReadQuoted(s).Some?
    ensures ReadQuoted(s + more) == Some((ReadQuoted(s).value.0, ReadQuoted(s).value.1 + more))
  {
    SkipMore(s, more);
    ReadBodyMore(Skip(s)[1..], more);
    assert (Skip(s) + more)[1..] == Skip(s)[1..] + more;
  }

  lemma ReadEntryMore(s: string, more: string)
    requires ReadEntry(s).Some?
    ensures ReadEntry(s + more) == Some((ReadEntry(s).value.0, ReadEntry(s).value.1 + more))
  {
    hide ReadQuoted, After;
    ReadQuotedMore(s, more);
    var rest := ReadQuoted(s).value.1;
    AfterHasToken(rest, ':');
    AfterMore(rest, more, ':');
    ReadQuotedMore(After(rest, ':').value, more);
  }

  lemma AfterHasToken(s: string, c: char)
    requires After(s, c).Some?
    ensures !Blank(s)
  {
  }

  lemma {:induction false} ReadEntriesMore(s: string, acc: map<string, string>, more: string)
    requires ReadEntries(s, acc).Some?
    ensures ReadEntries(s + more, acc) == Some((ReadEntries(s, acc).value.0, ReadEntries(s, acc).value.1 + more))
    decreases |s|
  {
    hide ReadEntry, After;
    ReadEntryMore(s, more);
    var ((k, v), rest) := ReadEntry(s).value;
    AfterHasToken(rest, if After(rest, ',').Some? then ',' else '}');
    AfterMore(rest, more, ',');
    AfterMore(rest, more, '}');
    if After(rest, ',').Some? { ReadEntriesMore(After(rest, ',').value, acc[k := v], more); }
  }

  lemma NothingRead()
    ensures ReadEntries("", map[]) == None
  {
  }

  /** A text that has lost its end is unreadable. */
  lemma CutIsUnreadable(m: map<string, string>, n: nat)
    requires n < |Marshal(m)|
    ensures Unmarshal(Marshal(m)[..n]) == None
  {
    hide Entries, ReadEntries;
    var s, cut := Marshal(m), Marshal(m)[..n];
    var lost := s[n..];
    if m == map[] {
      NothingRead();
      assert n == 1 ==> cut[1..] == "";
    } else if n > 0 {
      assert s + "" == s;
      TextParts(m, "");
      ReadsEntries(m, map[], "");
      assert cut[1..] + lost == s[1..];
      if ReadEntries(cut[1..], map[]).Some? { ReadEntriesMore(cut[1..], map[], lost); }
    }
  }

  // ---- Lengths

  /** The length of all entries, a separator for each included. */
  ghost function Total(m: map<string, string>): nat
    decreases |m|
  {
    if m == map[] then 0
    else
      var k := MinKey(m.Keys);
      Smaller(m, k);
      |Entry(k, m[k])| + 1 + Total(m - {k})
  }

  lemma {:induction false} EntriesLength(m: map<string, string>)
    requires m != map[]
    ensures |Entries(m)| + 1 == Total(m)
    decreases |m|
  {
    var k := MinKey(m.Keys);
    Smaller(m, k);
    if m - {k} != map[] { EntriesLength(m - {k}); }
  }

  /** The total does not depend on which entry is counted first. */
  lemma {:induction false} TotalWithout(m: map<string, string>, k: string)
    requires k in m
    ensures Total(m) == |Entry(k, m[k])| + 1 + Total(m - {k})
    decreases |m|
  {
    var first := MinKey(m.Keys);
    if first != k {
      Smaller(m, first);
      Smaller(m, k);
      TotalWithout(m - {first}, k);
      TotalWithout(m - {k}, first);
      assert m - {first} - {k} == m - {k} - {first};
    }
  }

  /** The text grows with each new key. */
  lemma MarshalGrows(m: map<string, string>, k: string, v: string)
    requires k !in m
    ensures |Marshal(m)| < |Marshal(m[k := v])|
    ensures |Marshal(m[k := v])| >= 7 + |Escape(k)| + |Escape(v)|
  {
    hide Entries, Total, Escape;
    var more := m[k := v];
    MarshalLength(m);
    MarshalLength(more);
    TotalWithout(more, k);
    assert more - {k} == m;
  }

  lemma {:induction false} MarshalLength(m: map<string, string>)
    ensures |Marshal(m)| == if m == map[] then 2 else Total(m) + 1
  {
    if m != map[] { EntriesLength(m); }
  }

  // ---- The file

  /** What is in the file after writing `text` at its beginning. */
  function Overwrite(file: string, text: string): string {
    if |file| <= |text| then text else text + file[|text|..]
  }

  /** Without truncation, the file reads back as what was written exactly when what is left behind
      it is blank. */
  lemma RereadExactly(file: string, m: map<string, string>)
    ensures Unmarshal(Overwrite(file, Marshal(m))) == Some(m)
            <==> |file| <= |Marshal(m)| || Blank(file[|Marshal(m)|..])
  {
    var text := Marshal(m);
    if |file| <= |text| {
      UnmarshalMarshal(m, "");
      assert text + "" == text;
    } else if Blank(file[|text|..]) {
      UnmarshalMarshal(m, file[|text|..]);
    } else {
      TailMakesUnreadable(m, file[|text|..]);
    }
  }
}
