/** What the error codes tell the caller: a larger table would help, more text would help, or nothing would. */
module JsmnCodes {
  import opened JsmnTokens
  import opened JsmnForest
  import opened JsmnGrammar
  import opened JsmnResume
  import JsmnLanguage
  import JsmnPrintParse

  // ---- A full table

  lemma {:induction false} TableFits(links: bool, js: Text, cap: nat, s: State)
    requires Wf(s) && s.pos <= |js| && |s.toks| <= cap
    ensures |s.toks| <= |Run(links, js, cap, s).1.toks| <= cap
    decreases |js| - s.pos
  {
    if s.pos < |js| {
      match Step(links, js, cap, s)
      case Stop(_, _) =>
      case Go(t) =>
        StepFits(links, js, cap, s, t);
        TableFits(links, js, cap, t);
    }
  }

  lemma StepFits(links: bool, js: Text, cap: nat, s: State, t: State)
    requires Wf(s) && s.pos < |js| && |s.toks| <= cap && Step(links, js, cap, s) == Go(t)
    ensures |s.toks| <= |t.toks| <= cap
  {
  }

  /** The size of the table decides about nothing but `NoMem`, and then one more slot is enough to go on. */
  lemma MoreRoom(links: bool, js: Text, cap: nat, cap': nat, s: State, code: Code)
    requires Wf(s) && s.pos < |js| && |s.toks| <= cap <= cap' && Step(links, js, cap, s) == Stop(code, s)
    ensures code != NoMem ==> Step(links, js, cap', s) == Stop(code, s)
    ensures code == NoMem ==> |s.toks| == cap
    ensures code == NoMem && cap < cap' ==>
              Step(links, js, cap', s).Go? && |Step(links, js, cap', s).state.toks| == cap + 1
  {
  }

  lemma SameTextResumes(links: bool, js: Text, cap: nat, cap': nat)
    requires cap <= cap'
    ensures Run(links, js, cap', Run(links, js, cap, Fresh).1) == Run(links, js, cap', Fresh)
  {
    ResumeEqualsFresh(links, js, cap, js, cap');
  }

  /** A call that has not run out of slots gives the same with any larger table. */
  lemma MoreSlots(links: bool, js: Text, cap: nat, cap': nat)
    requires cap <= cap' && Run(links, js, cap, Fresh).0 != NoMem
    ensures Run(links, js, cap', Fresh) == Run(links, js, cap, Fresh)
  {
    var (code, t) := Run(links, js, cap, Fresh);
    SameTextResumes(links, js, cap, cap');
    EndOfRun(links, js, cap, Fresh);
    TableFits(links, js, cap, Fresh);
    if t.pos < |js| { MoreRoom(links, js, cap, cap', t, code); }
    hide Step, LastOpen;
  }

  lemma OneMoreToken(links: bool, js: Text, cap: nat, s: State)
    requires Wf(s) && s.pos < |js|
    requires Step(links, js, cap + 1, s).Go? && |Step(links, js, cap + 1, s).state.toks| == cap + 1
    ensures |Run(links, js, cap + 1, s).1.toks| == cap + 1
  {
    hide Step;
    TableFits(links, js, cap + 1, Step(links, js, cap + 1, s).state);
  }

  lemma NoMemGrows(links: bool, js: Text, cap: nat)
    requires Run(links, js, cap, Fresh).0 == NoMem
    ensures |Run(links, js, cap, Fresh).1.toks| == cap && |Run(links, js, cap + 1, Fresh).1.toks| == cap + 1
  {
    var t := Run(links, js, cap, Fresh).1;
    EndOfRun(links, js, cap, Fresh);
    TableFits(links, js, cap, Fresh);
    SameTextResumes(links, js, cap, cap + 1);
    hide Step, Run, LastOpen;
    MoreRoom(links, js, cap, cap + 1, t, NoMem);
    OneMoreToken(links, js, cap, t);
  }

  /** `NoMem` is reported exactly when one more slot would make a difference; then the table is full. */
  lemma NoMemExactly(links: bool, js: Text, cap: nat)
    ensures Run(links, js, cap, Fresh).0 == NoMem <==> Run(links, js, cap + 1, Fresh) != Run(links, js, cap, Fresh)
    ensures Run(links, js, cap, Fresh).0 == NoMem ==> |Run(links, js, cap, Fresh).1.toks| == cap
  {
    if Run(links, js, cap, Fresh).0 == NoMem {
      NoMemGrows(links, js, cap);
    } else {
      MoreSlots(links, js, cap, cap + 1);
    }
    hide Run;
  }

  // ---- More text

  /** Some longer text would be accepted, given slots enough. */
  ghost predicate CanGoOn(links: bool, js: Text) {
    exists more: Text, cap: nat :: AcceptsLonger(links, js, more, cap)
  }

  ghost predicate AcceptsLonger(links: bool, js: Text, more: Text, cap: nat) {
    js <= more && Run(links, more, cap, Fresh).0 == Success
  }

  /** `more` goes on, if at all, with a character that ends a primitive. */
  predicate GoesOnApart(js: Text, more: Text) {
    js <= more && (|more| == |js| || EndsPrimitive(more[|js|]))
  }

  /** What is placed stays so on a longer text that does not go on with a primitive at the end. */
  lemma InvMore(links: bool, js: Text, more: Text, s: State)
    requires Inv(links, js, s) && js <= more
    requires s.pos < |js| || |more| == |js| || EndsPrimitive(more[|js|])
    ensures Inv(links, more, s)
  {
    forall i | 0 <= i < |s.toks| ensures Placed(more, s.pos, s.toks[i]) {
      assert Placed(js, s.pos, s.toks[i]);
      PlacedMore(js, more, s.pos, s.toks[i]);
    }
    hide Placed, Increasing, Laminar, SizesCount, Linked, LastOpen;
  }

  lemma PlacedMore(js: Text, more: Text, pos: nat, t: Token)
    requires js <= more && pos <= |js| && Placed(js, pos, t)
    requires pos < |js| || |more| == |js| || EndsPrimitive(more[|js|])
    ensures Placed(more, pos, t)
  {
    match t.kind
    case Primitive => PrimitiveScanMore(js, more, t.start);
    case Str => StringScanMore(js, more, t.start);
    case _ =>
  }

  function Closer(kind: Kind): char { if kind == Object then '}' else ']' }

  /** One closing bracket of the right kind at the end closes the container on top. */
  lemma CloseTop(links: bool, js: Text, cap: nat, s: State) returns (c: char, t: State)
    requires Inv(links, js, s) && Wf(s) && s.pos == |js| && s.super != -1
    ensures c != '\0' && EndsPrimitive(c)
    ensures Inv(links, js + [c], t) && Wf(t) && t.pos == |js| + 1 && t.super < s.super && |t.toks| == |s.toks|
    ensures Step(links, js + [c], cap, s) == Go(t)
  {
    c := Closer(s.toks[s.super].kind);
    var more: Text := js + [c];
    assert s.toks[s.super].Open();
    TopIsContainer(links, js, s);
    InvMore(links, js, more, s);
    CloseStep(links, more, cap, s);
    StepKeeps(links, more, cap, s);
    t := Step(links, more, cap, s).state;
    NextTop(links, more, s);
  }

  lemma TopIsContainer(links: bool, js: Text, s: State)
    requires Inv(links, js, s) && s.super != -1
    ensures IsContainer(s.toks[s.super])
  {
    assert Placed(js, s.pos, s.toks[s.super]);
  }

  /** A call at the end of its text can be brought to success by closing what is open. */
  lemma {:induction false} CloseAll(links: bool, js: Text, cap: nat, s: State) returns (more: Text)
    requires Inv(links, js, s) && Wf(s) && s.pos == |js|
    ensures GoesOnApart(js, more) && Run(links, more, cap, s).0 == Success
    decreases s.super
  {
    if s.super == -1 {
      more := js;
    } else {
      var c, t := CloseTop(links, js, cap, s);
      var js1: Text := js + [c];
      hide Inv, Step, Run, EndsPrimitive, LastOpen;
      more := CloseAll(links, js1, cap, t);
      assert more[|js|] == js1[|js|] == c;
      StepCarries(links, js1, cap, more, s, t);
    }
  }

  lemma StepCarries(links: bool, js: Text, cap: nat, more: Text, s: State, t: State)
    requires Wf(s) && s.pos < |js| && js <= more && Step(links, js, cap, s) == Go(t) && |t.toks| == |s.toks|
    ensures Run(links, more, cap, s) == Run(links, more, cap, t)
  {
    StepMore(links, js, cap, more, cap, s);
    hide Step;
  }

  /** From a state at the end of a longer text that resumes where a fresh call on it would be. */
  lemma Completes(links: bool, js: Text, text: Text, cap: nat, s: State)
    requires Inv(links, text, s) && Wf(s) && s.pos == |text| && js <= text
    requires forall more: Text :: GoesOnApart(text, more) ==>
               Run(links, more, cap, s) == Run(links, more, cap, Fresh)
    ensures CanGoOn(links, js)
  {
    var more := CloseAll(links, text, cap, s);
    hide Run, Inv;
    assert AcceptsLonger(links, js, more, cap);
  }

  /** A call that has stopped before the end of its text resumes as a fresh one on any longer text. */
  lemma StoppedResumes(links: bool, js: Text, cap: nat, text: Text, cap': nat)
    requires js <= text && cap <= cap' && Run(links, js, cap, Fresh).1.pos < |js|
    ensures var t := Run(links, js, cap, Fresh).1;
            Inv(links, text, t) && Run(links, text, cap', t) == Run(links, text, cap', Fresh)
  {
    FreshRun(links, js, cap);
    var t := Run(links, js, cap, Fresh).1;
    if |t.toks| > 0 { assert Placed(js, t.pos, t.toks[|t.toks| - 1]); }
    InvMore(links, js, text, t);
    ResumeEqualsFresh(links, js, cap, text, cap');
  }

  /** Once the string is complete, a resumed call is as a fresh one, whatever follows. */
  lemma ResumesBehind(links: bool, js: Text, cap: nat, text: Text, t: State, u: State, more: Text)
    requires js <= text <= more && t == Run(links, js, cap, Fresh).1 && t.pos < |js|
    requires Step(links, text, cap + 1, t) == Go(u)
    requires |u.toks| == |t.toks| + 1 && u.toks[|t.toks|].kind == Str
    ensures Run(links, more, cap + 1, u) == Run(links, more, cap + 1, Fresh)
  {
    hide Step, Inv, Run;
    StoppedResumes(links, js, cap, more, cap + 1);
    StepsPast(links, text, cap + 1, t, u, more);
  }

  /** A string that the text cuts off is completed by a longer text, and then what is open can be closed. */
  lemma StringGoesOn(links: bool, js: Text, cap: nat, t: State, text: Text)
    requires t == Run(links, js, cap, Fresh).1 && t.pos < |js| && js[t.pos] == '\"' && |t.toks| <= cap
    requires js <= text && StringScan(text, t.pos + 1) == Ends(|text| - 1)
    ensures CanGoOn(links, js)
  {
    hide Run, Step, Inv, StringScan, LastOpen;
    StoppedResumes(links, js, cap, text, cap + 1);
    assert text[t.pos] == '\"';
    var u := StringStep(links, text, cap + 1, t);
    forall more: Text | GoesOnApart(text, more)
      ensures Run(links, more, cap + 1, u) == Run(links, more, cap + 1, Fresh)
    {
      ResumesBehind(links, js, cap, text, t, u, more);
    }
    Completes(links, js, text, cap + 1, u);
  }

  lemma StepsPast(links: bool, js: Text, cap: nat, s: State, t: State, more: Text)
    requires Wf(s) && s.pos < |js| && js <= more && Step(links, js, cap, s) == Go(t)
    requires |t.toks| == |s.toks| + 1 && t.toks[|s.toks|].kind == Str
    ensures Run(links, more, cap, s) == Run(links, more, cap, t)
  {
    StepMore(links, js, cap, more, cap, s);
    hide Step;
  }

  lemma StringStep(links: bool, js: Text, cap: nat, s: State) returns (t: State)
    requires Inv(links, js, s) && Wf(s) && s.pos < |js| && js[s.pos] == '\"' && |s.toks| < cap
    requires StringScan(js, s.pos + 1) == Ends(|js| - 1)
    ensures Step(links, js, cap, s) == Go(t) && Inv(links, js, t) && Wf(t) && t.pos == |js|
    ensures |t.toks| == |s.toks| + 1 && t.toks[|s.toks|].kind == Str
  {
    t := Step(links, js, cap, s).state;
    StepKeeps(links, js, cap, s);
    hide Inv;
  }

  /** The text ends right behind the backslash of an escape in the string that begins at `pos`. */
  predicate EndsInEscape(js: Text, pos: nat) {
    pos + 2 <= |js| && js[pos] == '\"' && js[|js| - 1] == '\\' && Body(js[pos + 1..|js| - 1])
  }

  /** A string scan that meets the end of the text has seen the inside of a string. */
  lemma {:induction false} CutIsBody(js: Text, i: nat)
    requires i <= |js| && StringScan(js, i) == Cut
    ensures Body(js[i..])
    decreases |js| - i
  {
    if i < |js| {
      var n := if js[i] == '\\' then 2 else 1;
      CutIsBody(js, i + n);
      assert js[i..][n..] == js[i + n..];
    }
  }

  /** One that fails does so on every longer text, unless it was in the middle of an escape. */
  lemma {:induction false} BadStaysBad(js: Text, more: Text, i: nat)
    requires js <= more && i <= |js| && StringScan(js, i) == Bad
    requires !(i < |js| && js[|js| - 1] == '\\' && Body(js[i..|js| - 1]))
    ensures StringScan(more, i) == Bad
    decreases |js| - i
  {
    if js[i] == '\\' {
      if IsEscape(At(js, i + 1)) {
        if i + 2 < |js| { assert js[i..|js| - 1][2..] == js[i + 2..|js| - 1]; }
        BadStaysBad(js, more, i + 2);
      }
    } else {
      if i + 1 < |js| { assert js[i..|js| - 1][1..] == js[i + 1..|js| - 1]; }
      BadStaysBad(js, more, i + 1);
    }
  }

  lemma {:induction false} BodyJoins(a: string, b: string)
    requires Body(a) && Body(b)
    ensures Body(a + b)
  {
    if a == "" {
      assert a + b == b;
    } else {
      var n := if a[0] == '\\' then 2 else 1;
      assert (a + b)[n..] == a[n..] + b;
      BodyJoins(a[n..], b);
    }
  }

  /** The inside `b` of a string, standing at `i`, ends at the quote that ends the text. */
  lemma EndsAtQuote(text: Text, i: nat, b: string)
    requires Body(b) && i + |b| + 1 == |text| && text[i..] == b + "\""
    ensures StringScan(text, i) == Ends(|text| - 1)
  {
    assert text[i..i + |b + "\""|] == b + "\"";
    JsmnPrintParse.ScanBody(text, i, b);
  }

  lemma ClosingStops(links: bool, js: Text, cap: nat, s: State)
    requires Wf(s) && s.pos < |js| && Closes(js[s.pos])
    ensures var out := Step(links, js, cap, s); out.Stop? ==> out.code == Inval
  {
    hide LastOpen, Climb, StringScan, PrimitiveScan, Add;
  }

  lemma StopInString(links: bool, js: Text, cap: nat, s: State)
    requires Wf(s) && s.pos < |js|
    ensures var out := Step(links, js, cap, s);
            out.Stop? && out.code == Part ==> js[s.pos] == '\"' && StringScan(js, s.pos + 1) == Cut
  {
    if Closes(js[s.pos]) { ClosingStops(links, js, cap, s); }
    hide LastOpen, Climb, StringScan, PrimitiveScan, Add, CloseByLinks, CloseByScan;
  }

  lemma CutStringGoesOn(links: bool, js: Text, cap: nat, t: State)
    requires t == Run(links, js, cap, Fresh).1 && t.pos < |js| && |t.toks| <= cap
    requires js[t.pos] == '\"' && StringScan(js, t.pos + 1) == Cut
    ensures CanGoOn(links, js)
  {
    CutIsBody(js, t.pos + 1);
    assert (js + "\"")[t.pos + 1..] == js[t.pos + 1..] + "\"";
    EndsAtQuote(js + "\"", t.pos + 1, js[t.pos + 1..]);
    hide *;
    StringGoesOn(links, js, cap, t, js + "\"");
  }

  lemma OpenEndGoesOn(links: bool, js: Text, cap: nat, t: State)
    requires t == Run(links, js, cap, Fresh).1 && t.pos == |js|
    ensures CanGoOn(links, js)
  {
    FreshRun(links, js, cap);
    hide Run, Inv;
    forall more: Text | GoesOnApart(js, more) ensures Run(links, more, cap, t) == Run(links, more, cap, Fresh) {
      ResumeEqualsFresh(links, js, cap, more, cap);
    }
    Completes(links, js, js, cap, t);
  }

  /** `Part` is never reported for a text that cannot be completed. */
  lemma PartCanGoOn(links: bool, js: Text, cap: nat)
    requires Run(links, js, cap, Fresh).0 == Part
    ensures CanGoOn(links, js)
  {
    var t := Run(links, js, cap, Fresh).1;
    EndOfRun(links, js, cap, Fresh);
    TableFits(links, js, cap, Fresh);
    hide Run, Step;
    if t.pos < |js| {
      StopInString(links, js, cap, t);
      CutStringGoesOn(links, js, cap, t);
    } else {
      OpenEndGoesOn(links, js, cap, t);
    }
  }

  /** Cut in the middle of an escape, a text can be completed although it is refused. */
  lemma EscapeCanGoOn(links: bool, js: Text, cap: nat)
    requires var t := Run(links, js, cap, Fresh).1; |t.toks| <= cap && EndsInEscape(js, t.pos)
    ensures CanGoOn(links, js)
  {
    var t := Run(links, js, cap, Fresh).1;
    var body := js[t.pos + 1..|js| - 1];
    BodyJoins(body, "\\n");
    assert (js + "n\"")[t.pos + 1..] == body + "\\n" + "\"";
    EndsAtQuote(js + "n\"", t.pos + 1, body + "\\n");
    StringGoesOn(links, js, cap, t, js + "n\"");
  }

  lemma InvalStaysInval(links: bool, js: Text, cap: nat, more: Text, cap': nat, s: State)
    requires Wf(s) && s.pos < |js| && js <= more && Step(links, js, cap, s) == Stop(Inval, s)
    requires !EndsInEscape(js, s.pos)
    ensures Step(links, more, cap', s) == Stop(Inval, s)
  {
    assert more[s.pos] == js[s.pos];
    if js[s.pos] == '\"' {
      BadStaysBad(js, more, s.pos + 1);
    } else {
      PrimitiveScanMore(js, more, s.pos);
    }
  }

  /** `Inval` is final: no longer text is accepted, with any table, unless the text was cut in an escape. */
  lemma InvalIsFinal(links: bool, js: Text, cap: nat, more: Text, cap': nat)
    requires Run(links, js, cap, Fresh).0 == Inval && !EndsInEscape(js, Run(links, js, cap, Fresh).1.pos)
    requires js <= more
    ensures Run(links, more, cap', Fresh).0 != Success
  {
    var t := Run(links, js, cap, Fresh).1;
    EndOfRun(links, js, cap, Fresh);
    var room := if cap < cap' then cap' else cap;
    StoppedResumes(links, js, cap, more, room);
    InvalStaysInval(links, js, cap, more, room, t);
    assert Run(links, more, room, t) == (Inval, t);
    if Run(links, more, cap', Fresh).0 == Success { MoreSlots(links, more, cap', room); }
    hide Step, Inv;
  }

  /** What the two other codes mean, in both builds and with any table: after `Part` some longer text is accepted; after
      `Inval` none is, but for a text that ends in the middle of an escape, which is refused although it could go on. */
  lemma PartOrInval(links: bool, js: Text, cap: nat)
    ensures var (code, t) := Run(links, js, cap, Fresh);
            && (code == Part ==> CanGoOn(links, js))
            && (code == Inval ==> (CanGoOn(links, js) <==> EndsInEscape(js, t.pos)))
  {
    var (code, t) := Run(links, js, cap, Fresh);
    TableFits(links, js, cap, Fresh);
    if code == Part {
      PartCanGoOn(links, js, cap);
    } else if code == Inval {
      if EndsInEscape(js, t.pos) {
        EscapeCanGoOn(links, js, cap);
      } else {
        forall more: Text, cap': nat | js <= more ensures !AcceptsLonger(links, js, more, cap') {
          InvalIsFinal(links, js, cap, more, cap');
        }
      }
    }
  }

  /** Such a text. */
  lemma EscapeCutIsRefused(links: bool)
    ensures Run(links, "\"\\", 1, Fresh).0 == Inval && CanGoOn(links, "\"\\")
  {
    var js: Text := "\"\\";
    assert StringScan(js, 1) == Bad;
    assert Step(links, js, 1, Fresh) == Stop(Inval, Fresh);
    assert js[1..1] == "";
    EscapeCanGoOn(links, js, 1);
  }

  // ---- A container that is cut

  lemma FirstToken(links: bool, js: Text, cap: nat, s: State, t: State)
    requires Wf(s) && s.pos < |js| && |s.toks| > 0 && s.toks[0].Open() && Step(links, js, cap, s) == Go(t)
    ensures |t.toks| > 0
    ensures t.toks[0].Open() || (t.toks[0].end == t.pos && |t.toks| == |s.toks|)
  {
  }

  lemma OpenIsPart(links: bool, js: Text, cap: nat, s: State)
    requires Wf(s) && s.pos == |js| && |s.toks| > 0 && s.toks[0].Open()
    ensures Run(links, js, cap, s).0 == Part
  {
  }

  /** An accepted text closes its first container, and does so alike in any longer text. */
  lemma {:induction false} FirstCloses(links: bool, js: Text, cap: nat, more: Text, s: State) returns (u: State)
    requires Wf(s) && s.pos <= |js| && js <= more && |s.toks| > 0 && s.toks[0].Open()
    requires Run(links, js, cap, s).0 == Success
    ensures Wf(u) && u.pos <= |js| && |u.toks| > 0 && -1 < u.toks[0].end <= |js|
    ensures Run(links, more, cap, u) == Run(links, more, cap, s)
    decreases |js| - s.pos
  {
    if s.pos == |js| { OpenIsPart(links, js, cap, s); }
    var t := Step(links, js, cap, s).state;
    FirstToken(links, js, cap, s, t);
    StepMore(links, js, cap, more, cap, s);
    if t.pos == |js| && t.toks[0].Open() { OpenIsPart(links, js, cap, t); }
    hide Step, LastOpen, EndsPrimitive;
    if t.toks[0].Open() {
      u := FirstCloses(links, js, cap, more, t);
    } else {
      u := t;
    }
  }

  lemma BoxBegins(links: bool, js: Text, cap: nat)
    requires js != "" && Opens(js[0]) && cap > 0
    ensures Run(links, js, cap, Fresh) == Run(links, js, cap, State(1, [Token(KindOf(js[0]), 0, -1, 0, -1)], 0))
  {
    assert [] + [Token(KindOf(js[0]), 0, -1, 0, -1)] == [Token(KindOf(js[0]), 0, -1, 0, -1)];
    assert Step(links, js, cap, Fresh) == Go(State(1, [Token(KindOf(js[0]), 0, -1, 0, -1)], 0));
  }

  lemma BoxRuns(links: bool, node: Node, cap: nat)
    requires node.Box? && ProperNode(node) && SizeNode(node) <= cap
    ensures var text := PrintNode(node); '\0' !in text && text != "" && Opens(text[0])
    ensures var text, t := PrintNode(node), Run(links, PrintNode(node), cap, Fresh).1;
            |t.toks| > 0 && t.toks[0].end == |text|
  {
    var f := Cons("", node, Nil(""));
    assert Print(f) == PrintNode(node);
    JsmnPrintParse.PrintThenParse(links, f, cap);
  }

  /** The text of a container that is cut anywhere is never accepted, in either build and with any table. */
  lemma CutBoxIsRefused(links: bool, node: Node, cap: nat, n: nat)
    requires node.Box? && ProperNode(node) && n < |PrintNode(node)| && n > 0
    ensures '\0' !in PrintNode(node)
    ensures Run(links, PrintNode(node)[..n], cap, Fresh).0 != Success
  {
    var room := if cap < SizeNode(node) then SizeNode(node) else cap;
    BoxRuns(links, node, room);
    var full: Text := PrintNode(node);
    var js: Text := full[..n];
    hide PrintNode, ProperNode, Run, Opens;
    BoxBegins(links, js, room);
    BoxBegins(links, full, room);
    if Run(links, js, cap, Fresh).0 == Success {
      MoreSlots(links, js, cap, room);
      var u := FirstCloses(links, js, room, full, State(1, [Token(KindOf(js[0]), 0, -1, 0, -1)], 0));
      ClosedStays(links, full, room, u, 0);
    }
  }
}
