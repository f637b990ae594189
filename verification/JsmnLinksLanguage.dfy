/** The exact language of the build with parent links: a text the other build accepts, with any of its
    blanks between and behind the topmost trees replaced by closing brackets. */
module JsmnLinksLanguage {
  import opened JsmnTokens
  import opened JsmnForest
  import opened JsmnGrammar
  import opened JsmnParentLinks
  import JsmnLanguage
  import JsmnPrintParse

  // ---- What the final table tells about an earlier state

  /** No token spans position `p`. */
  predicate Outside(toks: seq<Token>, p: int) {
    forall i :: 0 <= i < |toks| ==> p < toks[i].start || toks[i].end <= p
  }

  /** The tokens of `s` are in the later table `toks` with their places, those open have been closed
      behind `s.pos` if at all, and all others begin behind it. */
  predicate Grows(s: State, toks: seq<Token>) {
    && |s.toks| <= |toks|
    && (forall k :: 0 <= k < |s.toks| ==> toks[k].start == s.toks[k].start)
    && (forall k :: 0 <= k < |s.toks| && s.toks[k].end != -1 ==> toks[k].end == s.toks[k].end)
    && (forall k :: 0 <= k < |s.toks| && s.toks[k].end == -1 ==> toks[k].end == -1 || toks[k].end > s.pos)
    && (forall k :: |s.toks| <= k < |toks| ==> toks[k].start >= s.pos)
  }

  lemma StepGrows(links: bool, js: Text, cap: nat, s: State)
    requires Wf(s) && s.pos < |js| && Step(links, js, cap, s).Go?
    ensures Grows(s, Step(links, js, cap, s).state.toks)
  {
    if Closes(js[s.pos]) { CloseGrows(links, js, cap, s); }
  }

  lemma CloseGrows(links: bool, js: Text, cap: nat, s: State)
    requires Wf(s) && s.pos < |js| && Closes(js[s.pos]) && Step(links, js, cap, s).Go?
    ensures Grows(s, Step(links, js, cap, s).state.toks)
  {
    hide LastOpen, Climb;
  }

  lemma GrowsOn(s: State, t: State, toks: seq<Token>)
    requires Grows(s, t.toks) && Grows(t, toks) && s.pos <= t.pos
    ensures Grows(s, toks)
  {
  }

  lemma {:induction false} RunGrows(links: bool, js: Text, cap: nat, s: State)
    requires Wf(s) && s.pos <= |js|
    ensures Grows(s, Run(links, js, cap, s).1.toks)
    decreases |js| - s.pos
  {
    hide Step, Grows;
    SelfGrows(s);
    if s.pos < |js| {
      match Step(links, js, cap, s)
      case Stop(_, _) =>
      case Go(t) =>
        StepGrows(links, js, cap, s);
        RunGrows(links, js, cap, t);
        GrowsOn(s, t, Run(links, js, cap, t).1.toks);
    }
  }

  lemma SelfGrows(s: State)
    ensures Grows(s, s.toks)
  {
  }

  /** A successful run from `s`, with its table. */
  ghost predicate Succeeds(links: bool, js: Text, cap: nat, s: State, toks: seq<Token>) {
    && Inv(links, js, s) && Wf(s)
    && Run(links, js, cap, s).0 == Success && Run(links, js, cap, s).1.toks == toks
  }

  lemma FinalTable(links: bool, js: Text, cap: nat, s: State, toks: seq<Token>)
    requires Succeeds(links, js, cap, s, toks)
    ensures Grows(s, toks) && forall i :: 0 <= i < |toks| ==> 0 <= toks[i].start <= toks[i].end
  {
    RunGrows(links, js, cap, s);
    RunKeeps(links, js, cap, s);
    EndOfRun(links, js, cap, s);
    var t := Run(links, js, cap, s).1;
    hide Run, Grows;
    forall i | 0 <= i < |toks| ensures 0 <= toks[i].start <= toks[i].end {
      assert Placed(js, t.pos, toks[i]) && !toks[i].Open();
    }
  }

  lemma NextSucceeds(links: bool, js: Text, cap: nat, s: State, toks: seq<Token>, t: State)
    requires Succeeds(links, js, cap, s, toks) && s.pos < |js| && Step(links, js, cap, s) == Go(t)
    ensures Succeeds(links, js, cap, t, toks)
  {
    StepKeeps(links, js, cap, s);
    hide Step, Inv;
  }

  lemma SuccessSteps(links: bool, js: Text, cap: nat, s: State, toks: seq<Token>)
    requires Succeeds(links, js, cap, s, toks) && s.pos < |js|
    ensures Step(links, js, cap, s).Go?
  {
    EndOfRun(links, js, cap, s);
    hide Inv;
  }

  /** A closed token of a state ends in the consumed text. */
  lemma ClosedBehind(links: bool, js: Text, s: State, k: nat)
    requires Inv(links, js, s) && k < |s.toks| && s.toks[k].end != -1
    ensures s.toks[k].end <= s.pos
  {
    assert Placed(js, s.pos, s.toks[k]);
  }

  /** With nothing open, a character that adds no token lies outside all tokens there will be. */
  lemma OutsideNow(links: bool, js: Text, cap: nat, s: State, toks: seq<Token>)
    requires Succeeds(links, js, cap, s, toks) && s.pos < |js| && s.super == -1
    requires Step(links, js, cap, s) == Go(s.(pos := s.pos + 1))
    ensures Outside(toks, s.pos)
  {
    var t := s.(pos := s.pos + 1);
    NextSucceeds(links, js, cap, s, toks, t);
    FinalTable(links, js, cap, t, toks);
    forall i | 0 <= i < |toks| ensures s.pos < toks[i].start || toks[i].end <= s.pos {
      if i < |s.toks| {
        assert Placed(js, s.pos, s.toks[i]) && !s.toks[i].Open();
        ClosedBehind(links, js, s, i);
      }
    }
  }

  /** A position outside all tokens, but behind the first: nothing is open there and the table is not empty. */
  lemma NothingOpenAt(js: Text, cap: nat, s: State, toks: seq<Token>)
    requires Succeeds(true, js, cap, s, toks) && s.pos < |js|
    requires Outside(toks, s.pos) && toks != [] && toks[0].start < s.pos
    ensures LastOpen(s.toks, |s.toks|) == -1 && |s.toks| >= 1
  {
    FinalTable(true, js, cap, s, toks);
    var i := LastOpen(s.toks, |s.toks|);
    if i != -1 { OpenIsInside(js, cap, s, toks, i); }
  }

  lemma OpenIsInside(js: Text, cap: nat, s: State, toks: seq<Token>, i: nat)
    requires Succeeds(true, js, cap, s, toks) && i < |s.toks| && s.toks[i].Open()
    ensures !Outside(toks, s.pos)
  {
    FinalTable(true, js, cap, s, toks);
    assert Placed(js, s.pos, s.toks[i]);
    assert toks[i].start < s.pos < toks[i].end;
  }

  lemma {:induction false} ClimbNothing(toks: seq<Token>, j: int)
    requires LinksPointBack(toks) && -1 <= j < |toks| && LastOpen(toks, |toks|) == -1
    ensures Climb(toks, j) == -1
    decreases j
  {
    if j != -1 { ClimbNothing(toks, toks[j].parent); }
  }

  /** With nothing open and a token in the table, closing brackets are passed over like blanks. */
  lemma PassesOver(js: Text, cap: nat, s: State)
    requires Wf(s) && s.pos < |js| && (Closes(js[s.pos]) || js[s.pos] == ' ')
    requires LastOpen(s.toks, |s.toks|) == -1 && |s.toks| >= 1
    ensures Step(true, js, cap, s) == Go(s.(pos := s.pos + 1))
  {
    ClimbNothing(s.toks, |s.toks| - 1);
  }

  // ---- Texts that differ in such places only

  predicate Swapped(x: char, y: char) {
    x == y || (x == ' ' && Closes(y)) || (Closes(x) && y == ' ')
  }

  predicate Twins(a: Text, b: Text, toks: seq<Token>) {
    && |a| == |b|
    && forall p :: 0 <= p < |a| ==>
         Swapped(a[p], b[p]) && (a[p] == b[p] || (Outside(toks, p) && toks != [] && toks[0].start < p))
  }

  lemma {:induction false} PrimitiveScanTwin(a: Text, b: Text, i: nat)
    requires |a| == |b| && i <= |a| && PrimitiveScan(a, i).Ends?
    requires forall p :: i <= p < PrimitiveScan(a, i).at ==> a[p] == b[p]
    requires forall p :: 0 <= p < |a| ==> Swapped(a[p], b[p])
    ensures PrimitiveScan(b, i) == PrimitiveScan(a, i)
    decreases |a| - i
  {
    if i < PrimitiveScan(a, i).at {
      PrimitiveScanTwin(a, b, i + 1);
    } else if i < |a| {
      assert Swapped(a[i], b[i]);
    }
  }

  lemma {:induction false} StringScanTwin(a: Text, b: Text, i: nat)
    requires |a| == |b| && i <= |a| && StringScan(a, i).Ends?
    requires forall p :: i <= p < StringScan(a, i).at ==> a[p] == b[p]
    requires forall p :: 0 <= p < |a| ==> Swapped(a[p], b[p])
    ensures StringScan(b, i) == StringScan(a, i)
    decreases |a| - i
  {
    var e := StringScan(a, i).at;
    if i == e {
      assert Swapped(a[e], b[e]);
    } else if a[i] == '\\' {
      assert i + 1 < |a| && Swapped(a[i + 1], b[i + 1]);
      StringScanTwin(a, b, i + 2);
    } else {
      StringScanTwin(a, b, i + 1);
    }
  }

  /** A round over a place where the texts agree: it does not see where they differ. */
  lemma StepTwin(a: Text, b: Text, cap: nat, s: State, toks: seq<Token>, t: State)
    requires Succeeds(true, a, cap, s, toks) && Twins(a, b, toks) && s.pos < |a| && a[s.pos] == b[s.pos]
    requires Step(true, a, cap, s) == Go(t)
    ensures Step(true, b, cap, s) == Go(t)
  {
    var c := a[s.pos];
    if !Opens(c) && !Closes(c) && !IsSeparator(c) {
      if c == '\"' { StringStep(a, cap, s, t); } else { PrimitiveStep(a, cap, s, t); }
      SameInside(a, b, cap, s, toks, t);
      hide Succeeds, Run;
      if c == '\"' { StringScanTwin(a, b, s.pos + 1); } else { PrimitiveScanTwin(a, b, s.pos); }
    }
    hide Succeeds, Run;
  }

  lemma StringStep(js: Text, cap: nat, s: State, t: State)
    requires Wf(s) && s.pos < |js| && js[s.pos] == '\"' && Step(true, js, cap, s) == Go(t)
    ensures StringScan(js, s.pos + 1).Ends? && |t.toks| == |s.toks| + 1
    ensures var token := t.toks[|s.toks|]; token.start == s.pos + 1 && token.end == StringScan(js, s.pos + 1).at
  {
  }

  lemma PrimitiveStep(js: Text, cap: nat, s: State, t: State)
    requires Wf(s) && s.pos < |js| && Step(true, js, cap, s) == Go(t)
    requires !Opens(js[s.pos]) && !EndsPrimitive(js[s.pos]) && js[s.pos] != '\"'
    ensures PrimitiveScan(js, s.pos).Ends? && |t.toks| == |s.toks| + 1
    ensures var token := t.toks[|s.toks|]; token.start == s.pos && token.end == PrimitiveScan(js, s.pos).at
  {
  }

  /** Inside a token that a round has added the texts agree. */
  lemma SameInside(a: Text, b: Text, cap: nat, s: State, toks: seq<Token>, t: State)
    requires Succeeds(true, a, cap, s, toks) && Twins(a, b, toks) && s.pos < |a| && Step(true, a, cap, s) == Go(t)
    requires |t.toks| == |s.toks| + 1 && t.toks[|s.toks|].start >= 0 && s.pos <= t.toks[|s.toks|].end <= |a|
    ensures var token := t.toks[|s.toks|]; forall p :: token.start <= p < token.end ==> a[p] == b[p]
  {
    NextSucceeds(true, a, cap, s, toks, t);
    FinalTable(true, a, cap, t, toks);
    hide Step, Succeeds, Run, Wf;
    var k := |s.toks|;
    assert toks[k].start == t.toks[k].start && toks[k].end == t.toks[k].end;
  }

  lemma {:induction false} RunTwin(a: Text, b: Text, cap: nat, s: State, toks: seq<Token>)
    requires Succeeds(true, a, cap, s, toks) && Twins(a, b, toks)
    ensures Run(true, b, cap, s) == Run(true, a, cap, s)
    decreases |a| - s.pos
  {
    if s.pos < |a| {
      SuccessSteps(true, a, cap, s, toks);
      var t := Step(true, a, cap, s).state;
      if a[s.pos] == b[s.pos] {
        StepTwin(a, b, cap, s, toks, t);
      } else {
        NothingOpenAt(a, cap, s, toks);
        PassesOver(a, cap, s);
        PassesOver(b, cap, s);
      }
      NextSucceeds(true, a, cap, s, toks, t);
      hide Step, Succeeds, Twins;
      RunTwin(a, b, cap, t, toks);
    }
  }

  // ---- Where the closing brackets of an accepted text are

  lemma EarlyStep(js: Text, cap: nat, s: State)
    requires Wf(s) && s.pos < |js| && s.toks == [] && Step(true, js, cap, s).Go?
    ensures var t := Step(true, js, cap, s).state;
            && !Closes(js[s.pos])
            && (t.toks == [] ==> t.pos == s.pos + 1)
            && (t.toks != [] && js[s.pos] != '\"' ==> t.toks[0].start == s.pos)
            && (t.toks != [] && js[s.pos] == '\"' ==>
                  var first := t.toks[0];
                  first.start == s.pos + 1 <= first.end < |js| && js[first.end] == '\"')
  {
    if js[s.pos] == '\"' { JsmnLanguage.ScannedBody(js, s.pos + 1); }
  }

  /** No closing bracket outside all tokens comes before the first. */
  lemma {:induction false} NoneBeforeFirst(js: Text, cap: nat, s: State, toks: seq<Token>, p: nat)
    requires Succeeds(true, js, cap, s, toks) && s.toks == [] && s.pos <= p < |js| && Closes(js[p])
    requires Outside(toks, p)
    ensures toks != [] && toks[0].start < p
    decreases |js| - s.pos
  {
    SuccessSteps(true, js, cap, s, toks);
    var t := Step(true, js, cap, s).state;
    EarlyStep(js, cap, s);
    NextSucceeds(true, js, cap, s, toks, t);
    if t.toks == [] {
      NoneBeforeFirst(js, cap, t, toks, p);
    } else {
      FinalTable(true, js, cap, t, toks);
    }
  }

  /** Where all closing brackets stand inside tokens, the other build accepts the text as well. */
  lemma {:induction false} ScanAlso(js: Text, cap: nat, linked: State, scanned: State, toks: seq<Token>)
    requires Succeeds(true, js, cap, linked, toks) && Inv(false, js, scanned) && Wf(scanned)
    requires SameState(linked, scanned)
    requires forall p :: linked.pos <= p < |js| && Closes(js[p]) ==> !Outside(toks, p)
    ensures Run(false, js, cap, scanned).0 == Success
    decreases |js| - linked.pos
  {
    if linked.pos == |js| {
      SameLastOpen(linked.toks, scanned.toks, |linked.toks|);
    } else {
      SuccessSteps(true, js, cap, linked, toks);
      SameStep(js, cap, linked, scanned);
      var a, b := Step(true, js, cap, linked), Step(false, js, cap, scanned);
      if b.Stop? {
        assert StopsUnmatched(js, b.code, b.state);
        SameLastOpen(linked.toks, scanned.toks, |linked.toks|);
        OutsideNow(true, js, cap, linked, toks);
      } else {
        NextSucceeds(true, js, cap, linked, toks, a.state);
        StepKeeps(false, js, cap, scanned);
        hide Step, Succeeds, Inv, SameState;
        ScanAlso(js, cap, a.state, b.state, toks);
      }
    }
  }

  /** The text with a blank for every closing bracket outside all tokens. */
  function Blanked(js: Text, toks: seq<Token>): (b: Text)
    ensures |b| == |js|
    ensures forall p :: 0 <= p < |js| ==> b[p] == if Closes(js[p]) && Outside(toks, p) then ' ' else js[p]
  {
    seq(|js|, p requires 0 <= p < |js| => if Closes(js[p]) && Outside(toks, p) then ' ' else js[p])
  }

  /** `js` is `plain` with closing brackets for some of the blanks outside all trees and behind the first. */
  predicate Bracketed(js: Text, plain: Text, toks: seq<Token>) {
    && |js| == |plain|
    && forall p :: 0 <= p < |js| && js[p] != plain[p] ==>
         plain[p] == ' ' && ClosingChar(js[p]) && Outside(toks, p) && toks != [] && toks[0].start < p
  }

  predicate IsBracketedPrint(js: Text, cap: nat, plain: Text, f: Forest) {
    JsmnLanguage.IsPrintOf(plain, cap, f) && Bracketed(js, plain, Listing(true, f, 0, 0, -1))
  }

  lemma FreshSucceeds(js: Text, cap: nat)
    requires Run(true, js, cap, Fresh).0 == Success
    ensures Succeeds(true, js, cap, Fresh, Run(true, js, cap, Fresh).1.toks)
  {
    hide Run;
  }

  lemma BracketedAccepted(js: Text, cap: nat, plain: Text, f: Forest)
    requires IsBracketedPrint(js, cap, plain, f)
    ensures Run(true, js, cap, Fresh) == (Success, State(|js|, Listing(true, f, 0, 0, -1), -1))
  {
    JsmnPrintParse.PrintThenParse(true, f, cap);
    FreshSucceeds(plain, cap);
    hide Run, Succeeds, Listing, Print;
    RunTwin(plain, js, cap, Fresh, Listing(true, f, 0, 0, -1));
  }

  lemma AcceptedIsBracketed(js: Text, cap: nat) returns (plain: Text, f: Forest)
    requires Run(true, js, cap, Fresh).0 == Success
    ensures IsBracketedPrint(js, cap, plain, f)
  {
    var toks := Run(true, js, cap, Fresh).1.toks;
    FreshSucceeds(js, cap);
    plain := Blanked(js, toks);
    forall p | 0 <= p < |js| && js[p] != plain[p] ensures toks != [] && toks[0].start < p {
      NoneBeforeFirst(js, cap, Fresh, toks, p);
    }
    RunTwin(js, plain, cap, Fresh, toks);
    FreshSucceeds(plain, cap);
    hide Run, Succeeds, Listing, Print;
    assert Inv(false, plain, Fresh) && SameState(Fresh, Fresh);
    ScanAlso(plain, cap, Fresh, Fresh, toks);
    f := JsmnLanguage.Accepted(plain, cap);
    JsmnPrintParse.PrintThenParse(true, f, cap);
  }

  /** The build with parent links accepts a text with a table of `cap` slots exactly when it is the print of a proper
      forest that fits, with any blanks outside all trees and behind the first replaced by closing brackets; and then
      the table is that forest's listing. */
  lemma LinksAcceptExactly(js: Text, cap: nat)
    ensures Run(true, js, cap, Fresh).0 == Success <==> exists plain, f :: IsBracketedPrint(js, cap, plain, f)
    ensures forall plain, f :: IsBracketedPrint(js, cap, plain, f) ==>
              Run(true, js, cap, Fresh).1 == State(|js|, Listing(true, f, 0, 0, -1), -1)
  {
    if Run(true, js, cap, Fresh).0 == Success {
      var plain, f := AcceptedIsBracketed(js, cap);
    }
    hide Run, IsBracketedPrint, Listing;
    forall plain, f | IsBracketedPrint(js, cap, plain, f)
      ensures Run(true, js, cap, Fresh) == (Success, State(|js|, Listing(true, f, 0, 0, -1), -1))
    {
      BracketedAccepted(js, cap, plain, f);
    }
  }
}
