/** The INI parser as it works: one line buffer in which NULs are written and pointers
    move, and two small buffers carried from line to line; proved to do what `IniLines` says. */
module IniParser {
  import opened CStrings
  import opened IniLines

  /** The length of the string at `s`. */
  method Strlen(a: array<char>, s: nat) returns (n: nat)
    requires Terminated(a[..], s)
    ensures n == |CStringAt(a[..], s)|
  {
    n := 0;
    NulAtEnd(a[..], s, 0);
    while a[s + n] != '\0'
      invariant n <= |CStringAt(a[..], s)|
      invariant a[s + n] == '\0' <==> n == |CStringAt(a[..], s)|
      decreases |CStringAt(a[..], s)| - n
    {
      n := n + 1;
      NulAtEnd(a[..], s, n);
    }
  }

  /** Outside the old string at `s` the buffer is as it was. */
  twostate predicate OnlyWithin(a: array<char>, s: nat)
    requires s <= a.Length
    reads a
  {
    forall j :: 0 <= j < a.Length && !(s <= j < s + |old(CStringAt(a[..], s))|) ==> a[j] == old(a[j])
  }

  lemma TakeTake(text: string, i: nat, j: nat)
    requires i <= j <= |text|
    ensures text[..j][..i] == text[..i]
  {
  }

  /** Writes a NUL. */
  method Cut(a: array<char>, p: nat)
    requires p < a.Length
    modifies a
    ensures a[..] == old(a[..])[p := '\0']
  {
    a[p] := '\0';
  }

  /** Strips spaces off the end of the string at `s`, in place. */
  method Rstrip(a: array<char>, s: nat)
    requires Terminated(a[..], s)
    modifies a
    ensures Terminated(a[..], s)
    ensures CStringAt(a[..], s) == RTrim(old(CStringAt(a[..], s)))
    ensures OnlyWithin(a, s)
  {
    hide CStringAt;
    ghost var text := CStringAt(a[..], s);
    var n := Strlen(a, s);
    var p := s + n;
    while p > s
      invariant s <= p <= s + |text|
      invariant Terminated(a[..], s) && CStringAt(a[..], s) == text[..p - s]
      invariant RTrim(text[..p - s]) == RTrim(text)
      invariant OnlyWithin(a, s)
    {
      p := p - 1;
      assert a[p] == text[..p + 1 - s][p - s];
      if !IsSpace(a[p]) {
        assert RTrim(text[..p + 1 - s]) == text[..p + 1 - s];
        return;
      }
      CStringCut(a[..], s, p - s);
      TakeTake(text, p - s, p + 1 - s);
      Cut(a, p);
    }
  }

  /** The place of the first character of the string at `s` that is not a space. */
  method Lskip(a: array<char>, s: nat) returns (r: nat)
    requires Terminated(a[..], s)
    ensures Terminated(a[..], r) && CStringAt(a[..], r) == LTrim(CStringAt(a[..], s))
    ensures r == s + |CStringAt(a[..], s)| - |LTrim(CStringAt(a[..], s))|
  {
    r := s;
    while a[r] != '\0' && IsSpace(a[r])
      invariant s <= r && Terminated(a[..], r)
      invariant r + |CStringAt(a[..], r)| == s + |CStringAt(a[..], s)|
      invariant LTrim(CStringAt(a[..], r)) == LTrim(CStringAt(a[..], s))
      decreases a.Length - r
    {
      CStringDrop(a[..], r, 1);
      r := r + 1;
    }
  }

  /** The place of the first `c`, or of a comment, in the string at `s`, or of its end. */
  method FindCharOrComment(a: array<char>, s: nat, c: char) returns (e: nat)
    requires Terminated(a[..], s)
    ensures e == s + Find(CStringAt(a[..], s), c)
  {
    ghost var text := CStringAt(a[..], s);
    var space := false;
    e := s;
    NulAtEnd(a[..], s, 0);
    while a[e] != '\0' && a[e] != c && !(space && a[e] == ';')
      invariant s <= e <= s + |text|
      invariant a[e] == '\0' <==> e == s + |text|
      invariant FindFrom(text, c, e - s, space) == Find(text, c)
      decreases a.Length - e
    {
      space := IsSpace(a[e]);
      e := e + 1;
      NulAtEnd(a[..], s, e - s);
    }
  }

  /** Copies the string at `at` as far as it fits, always ending it. */
  method Strncpy0(dest: array<char>, src: array<char>, at: nat, size: nat)
    requires Terminated(src[..], at) && dest != src && 0 < size == dest.Length
    modifies dest
    ensures Terminated(dest[..], 0) && CStringAt(dest[..], 0) == Fit(CStringAt(src[..], at), size)
  {
    ghost var text := CStringAt(src[..], at);
    var i := 0;
    NulAtEnd(src[..], at, 0);
    while i < size && src[at + i] != '\0'
      invariant 0 <= i <= size && i <= |text|
      invariant src[at + i] == '\0' <==> i == |text|
      invariant forall k :: 0 <= k < i ==> dest[k] == text[k]
    {
      dest[i] := src[at + i];
      i := i + 1;
      NulAtEnd(src[..], at, i);
    }
    var n := i;
    while i < size
      invariant n <= i <= size
      invariant forall k :: 0 <= k < n ==> dest[k] == text[k]
      invariant forall k :: n <= k < i ==> dest[k] == '\0'
    {
      dest[i] := '\0';
      i := i + 1;
    }
    dest[size - 1] := '\0';
    CStringIs(dest[..], 0, Fit(text, size));
  }

  class Parser {
    const line: array<char>
    const section: array<char>
    const prevName: array<char>
    var lineno: nat
    var error: nat
    var calls: seq<Call>

    constructor ()
      ensures Valid() && Abs() == Start
    {
      line := new char[INI_MAX_LINE](_ => '\0');
      section := new char[MAX_SECTION](_ => '\0');
      prevName := new char[MAX_NAME](_ => '\0');
      lineno, error, calls := 0, 0, [];
    }

    ghost predicate Valid()
      reads this, section, prevName
    {
      && line.Length == INI_MAX_LINE && section.Length == MAX_SECTION && prevName.Length == MAX_NAME
      && line != section && line != prevName && section != prevName
      && Terminated(section[..], 0) && Terminated(prevName[..], 0)
    }

    ghost function Abs(): State
      requires Valid()
      reads this, section, prevName
    {
      State(CStringAt(section[..], 0), CStringAt(prevName[..], 0), lineno, error, calls)
    }

    /** The string a buffer holds, handed to the handler. */
    method Text(a: array<char>, s: nat) returns (text: string)
      requires Terminated(a[..], s)
      ensures text == CStringAt(a[..], s)
    {
      var n := Strlen(a, s);
      text := a[s..s + n];
    }

    method SetError()
      requires Valid()
      modifies this
      ensures Valid() && Abs() == Fault(old(Abs()))
    {
      if error == 0 { error := lineno; }
    }

    /** Calls the handler, and notes the line if it refuses. */
    method CallUser(h: Handler, call: Call)
      requires Valid()
      modifies this
      ensures Valid() && Abs() == CallHandler(h, old(Abs()), call)
    {
      var ok := h(calls, call);
      calls := calls + [call];
      if !ok { SetError(); }
    }

    /** Takes the first `n` characters of the string at `at` as the new section's name. */
    method NameSection(at: nat, n: nat)
      requires Valid() && Terminated(line[..], at) && n < |CStringAt(line[..], at)|
      modifies line, section, prevName
      ensures Valid()
      ensures Abs() == old(Abs()).(section := Fit(old(CStringAt(line[..], at))[..n], MAX_SECTION), prev := "")
    {
      CStringCut(line[..], at, n);
      ghost var before := line[..];
      line[at + n] := '\0';
      assert line[..] == before[at + n := '\0'];
      Strncpy0(section, line, at, MAX_SECTION);
      prevName[0] := '\0';
      CStringIs(prevName[..], 0, "");
    }

    /** A line that begins with a bracket. */
    method SectionLine(start: nat)
      requires Valid() && Terminated(line[..], start)
      requires CStringAt(line[..], start) != ""
      modifies this, line, section, prevName
      ensures Valid()
      ensures var body, st := old(CStringAt(line[..], start)), old(Abs());
              var e := Find(body[1..], ']');
              Abs() == if FoundAt(body[1..], e, ']')
                       then st.(section := Fit(body[1..][..e], MAX_SECTION), prev := "") else Fault(st)
    {
      CStringDrop(line[..], start, 1);
      var end := FindCharOrComment(line, start + 1, ']');
      NulAtEnd(line[..], start + 1, end - start - 1);
      if line[end] == ']' {
        NameSection(start + 1, end - start - 1);
      } else {
        SetError();
      }
    }

    /** Where a name/value line is divided, if it is one. */
    method FindDivision(start: nat) returns (end: nat)
      requires Valid() && Terminated(line[..], start)
      ensures var body := CStringAt(line[..], start);
              var e := Division(body);
              if e < |body| then end == start + e
              else start <= end < line.Length && line[end] != '=' && line[end] != ':'
    {
      end := FindCharOrComment(line, start, '=');
      NulAtEnd(line[..], start, end - start);
      if line[end] != '=' {
        end := FindCharOrComment(line, start, ':');
        NulAtEnd(line[..], start, end - start);
      }
    }

    /** The value that begins at `at`: spaces and a comment taken off, in place. */
    method TrimValue(at: nat) returns (value: nat)
      requires Valid() && Terminated(line[..], at)
      modifies line
      ensures Valid() && at <= value && Terminated(line[..], value)
      ensures CStringAt(line[..], value) == ValueOf(old(CStringAt(line[..], at)))
      ensures forall j :: 0 <= j < at ==> line[j] == old(line[j])
    {
      hide CStringAt, RTrim, LTrim, FindFrom;
      value := Lskip(line, at);
      ghost var text := CStringAt(line[..], value);
      var end := FindCharOrComment(line, value, '\0');
      NulAtEnd(line[..], value, end - value);
      if line[end] == ';' {
        CStringCut(line[..], value, end - value);
        line[end] := '\0';
        assert line[..] == old(line[..])[end := '\0'];
      } else {
        assert text[..end - value] == text;
      }
      assert CStringAt(line[..], value) == text[..end - value];
      Rstrip(line, value);
    }

    /** Cuts the line at `end` and trims the name before it. */
    method CutName(start: nat, end: nat)
      requires Valid() && Terminated(line[..], start)
      requires start <= end < start + |CStringAt(line[..], start)|
      modifies line
      ensures Valid() && Terminated(line[..], start) && Terminated(line[..], end + 1)
      ensures var body := old(CStringAt(line[..], start));
              && CStringAt(line[..], start) == RTrim(body[..end - start])
              && CStringAt(line[..], end + 1) == body[end - start + 1..]
    {
      hide CStringAt, RTrim;
      CStringDrop(line[..], start, end - start + 1);
      CStringCut(line[..], start, end - start);
      ghost var before := line[..];
      line[end] := '\0';
      assert line[..] == before[end := '\0'];
      CStringSame(before, line[..], end + 1);
      ghost var divided := line[..];
      Rstrip(line, start);
      CStringSame(divided, line[..], end + 1);
    }

    /** A name/value line, divided at `end`. */
    method PairLine(h: Handler, start: nat, end: nat)
      requires Valid() && Terminated(line[..], start)
      requires start <= end < start + |CStringAt(line[..], start)|
      modifies this, line, section, prevName
      ensures Valid()
      ensures var body, st := old(CStringAt(line[..], start)), old(Abs());
              var name := RTrim(body[..end - start]);
              Abs() == CallHandler(h, st.(prev := Fit(name, MAX_NAME)),
                                   Call(st.section, name, ValueOf(body[end - start + 1..])))
    {
      hide CStringAt, RTrim, ValueOf, CallHandler, Fit;
      CutName(start, end);
      ghost var named := line[..];
      var value := TrimValue(end + 1);
      PrefixKept(named, line[..], start, end);
      FinishPair(h, start, value);
    }

    lemma PrefixKept(a: seq<char>, b: seq<char>, start: nat, end: nat)
      requires |a| == |b| && Terminated(a, start) && start + |CStringAt(a, start)| <= end
      requires forall j :: 0 <= j < |a| && j <= end ==> a[j] == b[j]
      ensures Terminated(b, start) && CStringAt(b, start) == CStringAt(a, start)
    {
      CStringIs(b, start, CStringAt(a, start));
    }

    /** The call for a name/value line whose parts have been trimmed. */
    method FinishPair(h: Handler, name: nat, value: nat)
      requires Valid() && Terminated(line[..], name) && Terminated(line[..], value)
      modifies this, section, prevName
      ensures Valid()
      ensures var st, n := old(Abs()), old(CStringAt(line[..], name));
              Abs() == CallHandler(h, st.(prev := Fit(n, MAX_NAME)),
                                   Call(st.section, n, old(CStringAt(line[..], value))))
    {
      Strncpy0(prevName, line, name, MAX_NAME);
      var s := Text(section, 0);
      var n := Text(line, name);
      var v := Text(line, value);
      CallUser(h, Call(s, n, v));
    }

    /** A line continuing the previous name's value. */
    method ContinuationLine(h: Handler, start: nat)
      requires Valid() && Terminated(line[..], start)
      modifies this
      ensures Valid()
      ensures var st := old(Abs());
              Abs() == CallHandler(h, st, Call(st.section, st.prev, CStringAt(line[..], start)))
    {
      var s := Text(section, 0);
      var n := Text(prevName, 0);
      var v := Text(line, start);
      CallUser(h, Call(s, n, v));
    }

    /** A line that is no comment, continuation or section. */
    method NameLine(h: Handler, start: nat)
      requires Valid() && Terminated(line[..], start)
      modifies this, line, section, prevName
      ensures Valid()
      ensures var body, st := old(CStringAt(line[..], start)), old(Abs());
              var e := Division(body);
              Abs() == if e < |body| then
                         CallHandler(h, st.(prev := Fit(RTrim(body[..e]), MAX_NAME)),
                                     Call(st.section, RTrim(body[..e]), ValueOf(body[e + 1..])))
                       else Fault(st)
    {
      hide CStringAt, RTrim, ValueOf, CallHandler, Fault, Fit, Division;
      var end := FindDivision(start);
      if line[end] == '=' || line[end] == ':' {
        PairLine(h, start, end);
      } else {
        SetError();
      }
    }

    /** One trimmed line that begins at `start`. */
    method InterpretLine(h: Handler, start: nat)
      requires Valid() && Terminated(line[..], start)
      modifies this, line, section, prevName
      ensures Valid()
      ensures Abs() == Interpret(h, old(Abs()), old(CStringAt(line[..], start)), start > 0)
    {
      hide CStringAt, RTrim, ValueOf, CallHandler, Fault, Fit, Division, FindFrom;
      NulAtEnd(line[..], start, 0);
      NulAtEnd(prevName[..], 0, 0);
      if line[start] == ';' || line[start] == '#' {
      } else if prevName[0] != '\0' && line[start] != '\0' && start > 0 {
        ContinuationLine(h, start);
      } else if line[start] == '[' {
        SectionLine(start);
      } else if line[start] != '\0' {
        NameLine(h, start);
      }
    }

    /** Where the line begins, behind a byte order mark at the start of the file. */
    method SkipBom() returns (start: nat)
      requires Valid() && Terminated(line[..], 0)
      ensures Terminated(line[..], start)
      ensures var text := CStringAt(line[..], 0);
              start == (if lineno == 1 && HasBom(text) then 3 else 0) && CStringAt(line[..], start) == text[start..]
    {
      ghost var text := CStringAt(line[..], 0);
      start := 0;
      NulAtEnd(line[..], 0, 0);
      if |text| > 0 { NulAtEnd(line[..], 0, 1); }
      if |text| > 1 { NulAtEnd(line[..], 0, 2); }
      if lineno == 1 && line[0] == '\U{EF}' && line[1] == '\U{BB}' && line[2] == '\U{BF}' {
        start := 3;
      }
      CStringDrop(line[..], 0, start);
    }

    /** The line in the buffer. */
    method DoLine(h: Handler)
      requires Valid() && Terminated(line[..], 0)
      modifies this, line, section, prevName
      ensures Valid()
      ensures Abs() == Line(h, old(Abs()), old(CStringAt(line[..], 0)))
    {
      hide CStringAt, RTrim, LTrim, Interpret;
      lineno := lineno + 1;
      var start := SkipBom();
      Rstrip(line, start);
      var body := Lskip(line, start);
      InterpretLine(h, body);
    }

    lemma NextRead(file: string, n: nat, max: nat)
      requires n < |file| && n < max
      ensures ReadLength(file[n..], max - n) ==
              1 + if file[n] == '\n' then 0 else ReadLength(file[n + 1..], max - n - 1)
    {
      assert file[n..][1..] == file[n + 1..];
    }

    /** Reads the next line of the file into the buffer, like fgets. */
    method ReadLine(file: string) returns (n: nat)
      requires Valid() && file != ""
      modifies line
      ensures n == ReadLength(file, INI_MAX_LINE - 1)
      ensures Terminated(line[..], 0) && CStringAt(line[..], 0) == CStringAt(file[..n], 0)
    {
      hide CStringAt, ReadLength;
      n := 0;
      while n < |file| && n < INI_MAX_LINE - 1
        invariant 0 <= n <= |file| && n <= INI_MAX_LINE - 1
        invariant n + ReadLength(file[n..], INI_MAX_LINE - 1 - n) == ReadLength(file, INI_MAX_LINE - 1)
        invariant line[..n] == file[..n]
      {
        NextRead(file, n, INI_MAX_LINE - 1);
        line[n] := file[n];
        n := n + 1;
        if file[n - 1] == '\n' { break; }
      }
      EndLine(file[..n]);
    }

    /** Ends what has been read with a NUL. */
    method EndLine(text: string)
      requires Valid() && |text| < INI_MAX_LINE && line[..|text|] == text
      modifies line
      ensures Terminated(line[..], 0) && CStringAt(line[..], 0) == CStringAt(text, 0)
    {
      line[|text|] := '\0';
      assert line[..|text|] == text;
      CStringIs(line[..], 0, CStringAt(text, 0));
    }

    /** The whole file: the handler's calls, and the number of the first bad line or 0. */
    method ParseFile(h: Handler, file: string) returns (result: nat)
      requires Valid()
      modifies this, line, section, prevName
      ensures Valid() && Abs() == Parse(h, old(Abs()), file)
      ensures result == error
    {
      hide CStringAt, Line, ReadLength;
      var at := 0;
      ghost var start := Abs();
      assert file[0..] == file;
      while at < |file|
        invariant Valid() && at <= |file|
        invariant Parse(h, Abs(), file[at..]) == Parse(h, start, file)
      {
        ghost var st := Abs();
        var n := ReadLine(file[at..]);
        assert file[at..][n..] == file[at + n..];
        DoLine(h);
        at := at + n;
      }
      result := error;
    }
  }
}
