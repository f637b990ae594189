/** What the INI parser does with the text of each line, on strings: the section and
    previous name it carries from line to line, the calls it makes and the result. */
module IniLines {
  import opened CStrings

  const INI_MAX_LINE := 200
  const MAX_SECTION := 50
  const MAX_NAME := 50

  predicate IsSpace(c: char) {
    c == ' ' || c == '\t' || c == '\n' || c == '\U{0B}' || c == '\U{0C}' || c == '\r'
  }

  function RTrim(s: string): (r: string)
    ensures r <= s
    ensures r != "" ==> !IsSpace(r[|r| - 1])
  {
    if s != "" && IsSpace(s[|s| - 1]) then RTrim(s[..|s| - 1]) else s
  }

  function LTrim(s: string): (r: string)
    ensures |r| <= |s|
    ensures r != "" ==> !IsSpace(r[0])
  {
    if s != "" && IsSpace(s[0]) then LTrim(s[1..]) else s
  }

  /** The first place from `i` on with the character `c`, or with a `;` after a space. */
  function FindFrom(s: string, c: char, i: nat, space: bool): (e: nat)
    requires i <= |s|
    ensures i <= e <= |s|
    ensures e < |s| ==> s[e] == c || s[e] == ';'
    decreases |s| - i
  {
    if i == |s| || s[i] == c || (space && s[i] == ';') then i
    else FindFrom(s, c, i + 1, IsSpace(s[i]))
  }

  function Find(s: string, c: char): (e: nat)
    ensures e <= |s|
    ensures e < |s| ==> s[e] == c || s[e] == ';'
  {
    FindFrom(s, c, 0, false)
  }

  predicate FoundAt(s: string, e: nat, c: char) {
    e < |s| && s[e] == c
  }

  /** What fits into a buffer of `size` characters. */
  function Fit(s: string, size: nat): (r: string)
    requires size > 0
    ensures |r| < size
  {
    if |s| < size then s else s[..size - 1]
  }

  datatype Call = Call(section: string, name: string, value: string)

  /** The handler's verdict may depend on the calls it has seen. */
  type Handler = (seq<Call>, Call) -> bool

  /** `prev` is the previous name, `error` the first bad line's number, 0 for none. */
  datatype State = State(section: string, prev: string, lineno: nat, error: nat, calls: seq<Call>)

  const Start := State("", "", 0, 0, [])

  function Fault(st: State): State {
    if st.error == 0 then st.(error := st.lineno) else st
  }

  function CallHandler(h: Handler, st: State, call: Call): State {
    var t := st.(calls := st.calls + [call]);
    if h(st.calls, call) then t else Fault(t)
  }

  predicate HasBom(s: string) {
    |s| >= 3 && s[0] == '\U{EF}' && s[1] == '\U{BB}' && s[2] == '\U{BF}'
  }

  /** The value part of a line after its `=` or `:`, without spaces around it and without a comment. */
  function ValueOf(s: string): string {
    var value := LTrim(s);
    RTrim(value[..Find(value, '\0')])
  }

  /** Where a name/value line is divided, or its length if it is not one. */
  function Division(body: string): (e: nat)
    ensures e <= |body|
    ensures e < |body| ==> body[e] == '=' || body[e] == ':'
  {
    var e := Find(body, '=');
    if FoundAt(body, e, '=') then e
    else
      var f := Find(body, ':');
      if FoundAt(body, f, ':') then f else |body|
  }

  /** One line, without surrounding spaces; `indented` when it does not begin at the start of the buffer. */
  function Interpret(h: Handler, st: State, body: string, indented: bool): State {
    if body != "" && (body[0] == ';' || body[0] == '#') then st
    else if st.prev != "" && body != "" && indented then
      CallHandler(h, st, Call(st.section, st.prev, body))
    else if body != "" && body[0] == '[' then
      var e := Find(body[1..], ']');
      if FoundAt(body[1..], e, ']') then st.(section := Fit(body[1..][..e], MAX_SECTION), prev := "")
      else Fault(st)
    else if body != "" then
      var e := Division(body);
      if e < |body| then
        var name := RTrim(body[..e]);
        CallHandler(h, st.(prev := Fit(name, MAX_NAME)), Call(st.section, name, ValueOf(body[e + 1..])))
      else Fault(st)
    else st
  }

  /** One line as read from the file. */
  function Line(h: Handler, st0: State, text: string): State {
    var st := st0.(lineno := st0.lineno + 1);
    var skip := if st.lineno == 1 && HasBom(text) then 3 else 0;
    var trimmed := RTrim(text[skip..]);
    var body := LTrim(trimmed);
    Interpret(h, st, body, skip + (|trimmed| - |body|) > 0)
  }

  /** How much of `file` one read takes: up to and including a newline, at most `max` characters. */
  function ReadLength(file: string, max: nat): (n: nat)
    ensures n <= |file| && n <= max
    ensures file != "" && max > 0 ==> n > 0
  {
    if file == "" || max == 0 then 0
    else if file[0] == '\n' then 1
    else 1 + ReadLength(file[1..], max - 1)
  }

  /** The whole file from state `st` on. A line ends for the parser at its first NUL. */
  function Parse(h: Handler, st: State, file: string): State
    decreases |file|
  {
    if file == "" then st
    else
      var n := ReadLength(file, INI_MAX_LINE - 1);
      Parse(h, Line(h, st, CStringAt(file[..n], 0)), file[n..])
  }
}
