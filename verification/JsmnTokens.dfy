/** What one pass of the jsmn tokenizer does, as functions on values: the
    token table filled so far, the position in the text and the open container
    on top of the implicit stack. `links` selects the build with parent links. */
module JsmnTokens {

  /** A C string without its terminating NUL. */
  type Text = s: string | '\0' !in s

  datatype Kind = Primitive | Object | Array | Str

  /** `parent` stays -1 in the build without parent links, which has no such field. */
  datatype Token = Token(kind: Kind, start: int, end: int, size: int, parent: int) {
    predicate Open() { start != -1 && end == -1 }
  }

  datatype Code = NoMem | Inval | Part | Success

  /** `toks` is the used part of the table, so `|toks|` is `toknext`. */
  datatype State = State(pos: nat, toks: seq<Token>, super: int)

  datatype Outcome = Go(state: State) | Stop(code: Code, state: State)

  const Fresh := State(0, [], -1)

  /** Reading position `i`: the terminating NUL just after the last character. */
  function At(js: Text, i: nat): char {
    if i < |js| then js[i] else '\0'
  }

  predicate IsSeparator(c: char) {
    c == '\t' || c == '\r' || c == '\n' || c == ':' || c == ',' || c == ' '
  }

  predicate EndsPrimitive(c: char) {
    IsSeparator(c) || c == ']' || c == '}'
  }

  predicate Printable(c: char) {
    ' ' <= c < 127 as char
  }

  predicate IsEscape(c: char) {
    c == '\"' || c == '/' || c == '\\' || c == 'b' || c == 'f' || c == 'r' || c == 'n' || c == 't' || c == 'u'
  }

  predicate Opens(c: char) {
    c == '{' || c == '['
  }

  predicate Closes(c: char) {
    c == '}' || c == ']'
  }

  function KindOf(c: char): Kind {
    if c == '{' || c == '}' then Object else Array
  }

  datatype Scan = Ends(at: nat) | Bad | Cut

  /** Where the primitive containing position `i` ends. */
  function PrimitiveScan(js: Text, i: nat): (r: Scan)
    requires i <= |js|
    ensures !r.Cut?
    ensures r.Ends? ==> i <= r.at <= |js|
    decreases |js| - i
  {
    if i == |js| || EndsPrimitive(js[i]) then Ends(i)
    else if !Printable(js[i]) then Bad
    else PrimitiveScan(js, i + 1)
  }

  /** Where the closing quote is, for a string whose scan has reached position `i`. */
  function StringScan(js: Text, i: nat): (r: Scan)
    requires i <= |js|
    ensures r.Ends? ==> i <= r.at < |js|
    decreases |js| - i
  {
    if i == |js| then Cut
    else if js[i] == '\"' then Ends(i)
    else if js[i] == '\\' then
      if IsEscape(At(js, i + 1)) then StringScan(js, i + 2) else Bad
    else StringScan(js, i + 1)
  }

  /** The highest open token below `n`, or -1. */
  function LastOpen(toks: seq<Token>, n: nat): (i: int)
    requires n <= |toks|
    ensures -1 <= i < n
    ensures i != -1 ==> toks[i].Open()
    ensures forall k :: i < k < n ==> !toks[k].Open()
  {
    if n == 0 then -1 else if toks[n - 1].Open() then n - 1 else LastOpen(toks, n - 1)
  }

  predicate LinksPointBack(toks: seq<Token>) {
    forall i :: 0 <= i < |toks| ==> -1 <= toks[i].parent < i
  }

  /** The first open token on the parent chain that starts at `i`, or -1. */
  function Climb(toks: seq<Token>, i: int): (r: int)
    requires LinksPointBack(toks)
    requires -1 <= i < |toks|
    ensures -1 <= r <= i
    ensures r != -1 ==> toks[r].Open()
    decreases i
  {
    if i == -1 then -1 else if toks[i].Open() then i else Climb(toks, toks[i].parent)
  }

  /** What every call of the parser needs of its own earlier results. */
  predicate Wf(s: State) {
    -1 <= s.super < |s.toks| && LinksPointBack(s.toks)
  }

  /** One more child for the container on top of the stack. */
  function Bump(toks: seq<Token>, super: int): (r: seq<Token>)
    requires -1 <= super < |toks|
    ensures |r| == |toks|
    ensures LinksPointBack(toks) ==> LinksPointBack(r)
  {
    if super == -1 then toks else toks[super := toks[super].(size := toks[super].size + 1)]
  }

  function Add(links: bool, s: State, kind: Kind, start: int, end: int): (r: seq<Token>)
    requires Wf(s)
    ensures |r| == |s.toks| + 1 && LinksPointBack(r)
  {
    Bump(s.toks, s.super) + [Token(kind, start, end, 0, if links then s.super else -1)]
  }

  function CloseAt(js: Text, s: State, i: nat, links: bool): (r: Outcome)
    requires Wf(s) && s.pos < |js| && i < |s.toks|
    ensures Wf(r.state)
  {
    if s.toks[i].kind != KindOf(js[s.pos]) then Stop(Inval, s)
    else
      var toks := s.toks[i := s.toks[i].(end := s.pos + 1)];
      Go(State(s.pos + 1, toks, if links then toks[i].parent else LastOpen(toks, i)))
  }

  /** A closing bracket, in the build that scans the table backwards. */
  function CloseByScan(js: Text, s: State): (r: Outcome)
    requires Wf(s) && s.pos < |js|
    ensures Wf(r.state)
  {
    var i := LastOpen(s.toks, |s.toks|);
    if i == -1 then Stop(Inval, s) else CloseAt(js, s, i, false)
  }

  /** A closing bracket, in the build with parent links. */
  function CloseByLinks(js: Text, s: State): (r: Outcome)
    requires Wf(s) && s.pos < |js|
    ensures Wf(r.state)
  {
    if |s.toks| < 1 then Stop(Inval, s)
    else
      var i := Climb(s.toks, |s.toks| - 1);
      if i == -1 then Go(s.(pos := s.pos + 1)) else CloseAt(js, s, i, true)
  }

  /** One round of the main loop, `pos++` included. */
  function Step(links: bool, js: Text, cap: nat, s: State): (r: Outcome)
    requires Wf(s) && s.pos < |js|
    ensures Wf(r.state)
    ensures r.Go? ==> s.pos < r.state.pos <= |js|
    ensures r.Stop? ==> r.state == s
  {
    var c := js[s.pos];
    if Opens(c) then
      if |s.toks| >= cap then Stop(NoMem, s)
      else Go(State(s.pos + 1, Add(links, s, KindOf(c), s.pos, -1), |s.toks|))
    else if Closes(c) then
      if links then CloseByLinks(js, s) else CloseByScan(js, s)
    else if c == '\"' then
      match StringScan(js, s.pos + 1)
      case Bad => Stop(Inval, s)
      case Cut => Stop(Part, s)
      case Ends(e) =>
        if |s.toks| >= cap then Stop(NoMem, s)
        else Go(State(e + 1, Add(links, s, Str, s.pos + 1, e), s.super))
    else if IsSeparator(c) then Go(s.(pos := s.pos + 1))
    else
      match PrimitiveScan(js, s.pos)
      case Bad => Stop(Inval, s)
      case Ends(e) =>
        if |s.toks| >= cap then Stop(NoMem, s)
        else Go(State(e, Add(links, s, Primitive, s.pos, e), s.super))
  }

  /** The check after the main loop. */
  function Verdict(toks: seq<Token>): Code {
    if LastOpen(toks, |toks|) != -1 then Part else Success
  }

  /** A whole call of the parser: its return code and the state it leaves. */
  function Run(links: bool, js: Text, cap: nat, s: State): (r: (Code, State))
    requires Wf(s) && s.pos <= |js|
    ensures Wf(r.1) && s.pos <= r.1.pos <= |js|
    decreases |js| - s.pos
  {
    if s.pos == |js| then (Verdict(s.toks), s)
    else
      match Step(links, js, cap, s)
      case Stop(code, t) => (code, t)
      case Go(t) => Run(links, js, cap, t)
  }
}
