/** Objects of strings as people write them, with blanks wherever JSON allows them: what each is read
    as, and that the text the server writes is the one of them without blanks and with sorted keys. */
module AssignmentLayout {
  import opened AssignmentFile
  import opened Options

  /** One member with the blanks before its key, around its colon and behind its value. */
  datatype Member = Member(lead: string, key: string, before: string, after: string, value: string, gap: string)

  /** The white space of JSON (section 2 of RFC 8259). */
  predicate Blanks(s: string) {
    forall i :: 0 <= i < |s| ==> s[i] in " \t\n\r"
  }

  predicate Proper(m: Member) {
    Blanks(m.lead) && Blanks(m.before) && Blanks(m.after) && Blanks(m.gap)
  }

  function MemberText(m: Member): string {
    m.lead + ("\"" + Escape(m.key) + "\"" + (m.before + (":" + (m.after + ("\"" + Escape(m.value) + "\"" + m.gap)))))
  }

  function MembersText(ms: seq<Member>): string
    requires ms != []
  {
    MemberText(ms[0]) + (if |ms| == 1 then "" else "," + MembersText(ms[1..]))
  }

  /** Of members with the same key the last one counts. */
  function Assigned(ms: seq<Member>, acc: map<string, string>): map<string, string> {
    if ms == [] then acc else Assigned(ms[1..], acc[ms[0].key := ms[0].value])
  }

  /** Quotes and backslashes, and nothing else, are written behind a backslash. */
  lemma EscapeIs(c: char, s: string)
    ensures Escape("") == ""
    ensures Escape([c] + s) == (if c in "\"\\" then "\\" else "") + [c] + Escape(s)
  {
    assert ([c] + s)[1..] == s;
  }

  // ---- Reading a layout

  lemma {:induction false} SkipsBlanks(blanks: string, rest: string)
    requires Blanks(blanks)
    ensures Skip(blanks + rest) == Skip(rest)
    decreases |blanks|
  {
    if blanks == "" {
      assert blanks + rest == rest;
    } else {
      assert (blanks + rest)[1..] == blanks[1..] + rest;
      SkipsBlanks(blanks[1..], rest);
    }
  }

  lemma AfterBlanks(blanks: string, c: char, rest: string, d: char)
    requires Blanks(blanks) && c !in " \t\n\r"
    ensures After(blanks + ([c] + rest), d) == if c == d then Some(rest) else None
  {
    SkipsBlanks(blanks, [c] + rest);
    assert ([c] + rest)[1..] == rest;
  }

  lemma QuotedBehind(blanks: string, s: string, rest: string)
    requires Blanks(blanks)
    ensures ReadQuoted(blanks + ("\"" + Escape(s) + "\"" + rest)) == Some((s, rest))
  {
    hide Escape;
    SkipsBlanks(blanks, "\"" + Escape(s) + "\"" + rest);
    ReadsBody(s, rest);
    assert ("\"" + Escape(s) + "\"" + rest)[1..] == Escape(s) + "\"" + rest;
  }

  lemma MemberBehind(m: Member, rest: string)
    ensures MemberText(m) + rest == m.lead + ("\"" + Escape(m.key) + "\"" +
              (m.before + (":" + (m.after + ("\"" + Escape(m.value) + "\"" + (m.gap + rest))))))
  {
    hide Escape;
  }

  lemma ReadsMember(m: Member, rest: string)
    requires Proper(m)
    ensures ReadEntry(MemberText(m) + rest) == Some(((m.key, m.value), m.gap + rest))
  {
    var text := "\"" + Escape(m.value) + "\"" + (m.gap + rest);
    var colon := m.before + (":" + (m.after + text));
    MemberBehind(m, rest);
    hide MemberText, Blanks, ReadQuoted, After, Escape;
    QuotedBehind(m.lead, m.key, colon);
    AfterBlanks(m.before, ':', m.after + text, ':');
    QuotedBehind(m.after, m.value, m.gap + rest);
  }

  lemma ReadsOneMember(m: Member, c: char, rest: string, acc: map<string, string>)
    requires Proper(m) && (c == ',' || c == '}')
    ensures ReadEntries(MemberText(m) + ([c] + rest), acc) ==
            if c == ',' then ReadEntries(rest, acc[m.key := m.value]) else Some((acc[m.key := m.value], rest))
  {
    hide MemberText, ReadEntry, Blanks, After;
    ReadsMember(m, [c] + rest);
    AfterBlanks(m.gap, c, rest, ',');
    AfterBlanks(m.gap, c, rest, '}');
  }

  lemma {:induction false} ReadsMembers(ms: seq<Member>, rest: string, acc: map<string, string>)
    requires ms != [] && forall i :: 0 <= i < |ms| ==> Proper(ms[i])
    ensures ReadEntries(MembersText(ms) + ("}" + rest), acc) == Some((Assigned(ms, acc), rest))
    decreases |ms|
  {
    hide MemberText, Proper, ReadEntries;
    var m := ms[0];
    if |ms| == 1 {
      assert MembersText(ms) == MemberText(m);
      ReadsOneMember(m, '}', rest, acc);
    } else {
      var others := MembersText(ms[1..]) + ("}" + rest);
      assert MembersText(ms) + ("}" + rest) == MemberText(m) + ("," + others);
      ReadsOneMember(m, ',', others, acc);
      ReadsMembers(ms[1..], rest, acc[m.key := m.value]);
    }
  }

  lemma MembersBegin(ms: seq<Member>, rest: string)
    requires ms != [] && Proper(ms[0])
    ensures After(MembersText(ms) + rest, '}') == None
  {
    var m := ms[0];
    var more := MembersText(ms)[|m.lead| + 1..] + rest;
    assert MembersText(ms) + rest == m.lead + ("\"" + more);
    AfterBlanks(m.lead, '\"', more, '}');
  }

  /** Every object of strings is read as the map it stands for, wherever blanks stand and whatever follows it. */
  lemma ReadsLayout(ms: seq<Member>, lead: string, trail: string)
    requires ms != [] && (forall i :: 0 <= i < |ms| ==> Proper(ms[i])) && Blanks(lead)
    ensures Unmarshal(lead + ("{" + (MembersText(ms) + ("}" + trail)))) ==
            if Blanks(trail) then Some(Assigned(ms, map[])) else None
  {
    var inside := MembersText(ms) + ("}" + trail);
    BlanksAreBlank(trail);
    assert Proper(ms[0]);
    hide *;
    AfterBlanks(lead, '{', inside, '{');
    MembersBegin(ms, "}" + trail);
    ReadsMembers(ms, trail, map[]);
    ObjectRead(lead + (['{'] + inside), inside, Assigned(ms, map[]), trail);
  }

  lemma ObjectRead(text: string, inside: string, m: map<string, string>, trail: string)
    requires After(text, '{') == Some(inside) && After(inside, '}') == None
    requires ReadEntries(inside, map[]) == Some((m, trail))
    ensures Unmarshal(text) == if Blank(trail) then Some(m) else None
  {
  }

  lemma BlanksAreBlank(s: string)
    ensures Blank(s) <==> Blanks(s)
  {
  }

  // ---- The server's own layout

  /** Where two texts first differ, the first of them has ended or has the smaller character. */
  predicate Before(a: string, b: string) {
    exists n :: 0 <= n <= |a| && n < |b| && a[..n] == b[..n] && (n == |a| || a[n] < b[n])
  }

  lemma {:induction false} LeqIsBefore(a: string, b: string)
    requires Leq(a, b) && a != b
    ensures Before(a, b)
  {
    if a == "" {
      assert a[..0] == b[..0];
    } else if a[0] < b[0] {
      assert a[..0] == b[..0];
    } else {
      LeqIsBefore(a[1..], b[1..]);
      var n :| 0 <= n <= |a[1..]| && n < |b[1..]| && a[1..][..n] == b[1..][..n] &&
               (n == |a[1..]| || a[1..][n] < b[1..][n]);
      assert a[..n + 1] == [a[0]] + a[1..][..n] && b[..n + 1] == [b[0]] + b[1..][..n];
    }
  }

  predicate Ascending(keys: seq<string>) {
    forall i, j :: 0 <= i < j < |keys| ==> Before(keys[i], keys[j])
  }

  ghost predicate Lists(keys: seq<string>, m: map<string, string>) {
    forall k :: k in keys <==> k in m
  }

  function Bare(m: map<string, string>, keys: seq<string>): (ms: seq<Member>)
    requires forall i :: 0 <= i < |keys| ==> keys[i] in m
    ensures |ms| == |keys|
  {
    seq(|keys|, i requires 0 <= i < |keys| => Member("", keys[i], "", "", m[keys[i]], ""))
  }

  lemma BareMember(k: string, v: string)
    ensures MemberText(Member("", k, "", "", v, "")) == Entry(k, v)
  {
  }

  lemma BareSplit(m: map<string, string>, keys: seq<string>)
    requires keys != [] && forall i :: 0 <= i < |keys| ==> keys[i] in m
    requires forall i :: 1 <= i < |keys| ==> keys[i] != keys[0]
    ensures Bare(m, keys)[1..] == Bare(m - {keys[0]}, keys[1..])
  {
  }

  lemma {:induction false} EntriesAre(m: map<string, string>) returns (keys: seq<string>)
    requires m != map[]
    ensures keys != [] && Lists(keys, m) && Ascending(keys)
    ensures Entries(m) == MembersText(Bare(m, keys))
    decreases |m|
  {
    var k := MinKey(m.Keys);
    var rest := m - {k};
    if rest == map[] {
      keys := [k];
      OnlyThis(m, k);
      BareMember(k, m[k]);
    } else {
      Smaller(m, k);
      var others := EntriesAre(rest);
      keys := [k] + others;
      SortedFirst(m, k, others);
      hide *;
      EntriesGrow(m, k, others);
    }
  }

  lemma EntriesGrow(m: map<string, string>, k: string, others: seq<string>)
    requires m != map[] && k == MinKey(m.Keys) && m - {k} != map[] && others != []
    requires forall i :: 0 <= i < |others| ==> others[i] in m - {k}
    requires Entries(m - {k}) == MembersText(Bare(m - {k}, others))
    ensures forall i :: 0 <= i < |[k] + others| ==> ([k] + others)[i] in m
    ensures Entries(m) == MembersText(Bare(m, [k] + others))
  {
    var keys := [k] + others;
    assert Entries(m) == Entry(k, m[k]) + "," + Entries(m - {k});
    BareMember(k, m[k]);
    hide Entries, MinKey, Entry, MemberText;
    BareSplit(m, keys);
    assert Bare(m, keys)[0] == Member("", k, "", "", m[k], "");
    assert keys[1..] == others;
  }

  lemma OnlyThis(m: map<string, string>, k: string)
    requires k in m && m - {k} == map[]
    ensures forall x :: x in m <==> x == k
  {
    forall x ensures x in m <==> x == k {
      assert x in m - {k} <==> x in m && x != k;
    }
  }

  lemma SortedFirst(m: map<string, string>, k: string, others: seq<string>)
    requires IsMin(k, m.Keys) && Lists(others, m - {k}) && Ascending(others)
    ensures Ascending([k] + others) && Lists([k] + others, m)
    ensures forall i :: 1 <= i < |[k] + others| ==> ([k] + others)[i] != k
    ensures forall i :: 0 <= i < |[k] + others| ==> ([k] + others)[i] in m
  {
    hide Before, Leq;
    forall i | 0 <= i < |others| ensures others[i] in m && others[i] != k && Before(k, others[i]) {
      assert others[i] in others;
      LeqIsBefore(k, others[i]);
    }
  }

  /** The text of the assignments: no blanks, and every key once and in order. */
  lemma MarshalIsLayout(m: map<string, string>) returns (keys: seq<string>)
    requires m != map[]
    ensures keys != [] && Lists(keys, m) && Ascending(keys)
    ensures Marshal(m) == "{" + MembersText(Bare(m, keys)) + "}"
  {
    keys := EntriesAre(m);
  }
}
