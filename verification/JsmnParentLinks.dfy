/** The build with parent links against the build that scans the table: when
    they give the same result, and the exact texts on which they do not. */
module JsmnParentLinks {
  import opened JsmnTokens
  import opened JsmnForest

  /** `b` is the table `a` without its parent links. */
  predicate Unlinked(a: seq<Token>, b: seq<Token>) {
    |a| == |b| && forall i :: 0 <= i < |a| ==> b[i] == a[i].(parent := -1)
  }

  /** The same position, stack top and token fields. */
  predicate SameState(linked: State, scanned: State) {
    linked.pos == scanned.pos && linked.super == scanned.super && Unlinked(linked.toks, scanned.toks)
  }

  predicate SameOutcome(linked: Outcome, scanned: Outcome) {
    match linked
    case Go(t) => scanned.Go? && SameState(t, scanned.state)
    case Stop(code, t) => scanned.Stop? && scanned.code == code && SameState(t, scanned.state)
  }

  /** The scanning build has stopped at a closing bracket with tokens in the table
      but no container open. */
  predicate StopsUnmatched(js: Text, code: Code, s: State) {
    code == Inval && s.pos < |js| && Closes(js[s.pos]) && |s.toks| >= 1 && LastOpen(s.toks, |s.toks|) == -1
  }

  lemma SameLastOpen(a: seq<Token>, b: seq<Token>, n: nat)
    requires Unlinked(a, b) && n <= |a|
    ensures LastOpen(a, n) == LastOpen(b, n)
  {
  }

  lemma SameClose(js: Text, linked: State, scanned: State)
    requires Inv(true, js, linked) && Wf(linked) && Wf(scanned)
    requires scanned.super == LastOpen(scanned.toks, |scanned.toks|)
    requires SameState(linked, scanned) && linked.pos < |js| && linked.super != -1
    ensures SameOutcome(CloseAt(js, linked, linked.super, true), CloseAt(js, scanned, linked.super, false))
  {
    var i := linked.super;
    if linked.toks[i].kind == KindOf(js[linked.pos]) {
      SameLastOpen(linked.toks, scanned.toks, i);
      NextTop(true, js, linked);
      TopAfterClose(scanned.toks, scanned.toks[i := scanned.toks[i].(end := linked.pos + 1)], i, linked.pos);
    }
  }

  lemma SameStep(js: Text, cap: nat, linked: State, scanned: State)
    requires Inv(true, js, linked) && Inv(false, js, scanned) && Wf(linked) && Wf(scanned)
    requires SameState(linked, scanned) && linked.pos < |js|
    ensures var a, b := Step(true, js, cap, linked), Step(false, js, cap, scanned);
            if b.Stop? && StopsUnmatched(js, b.code, b.state) then a == Go(linked.(pos := linked.pos + 1))
            else SameOutcome(a, b)
  {
    if Closes(js[linked.pos]) {
      CloseStep(true, js, cap, linked);
      CloseStep(false, js, cap, scanned);
      if linked.super != -1 { SameClose(js, linked, scanned); }
    } else {
      SameAdvance(js, cap, linked, scanned);
    }
  }

  lemma SameAdvance(js: Text, cap: nat, linked: State, scanned: State)
    requires Wf(linked) && Wf(scanned) && SameState(linked, scanned)
    requires linked.pos < |js| && !Closes(js[linked.pos])
    ensures SameOutcome(Step(true, js, cap, linked), Step(false, js, cap, scanned))
  {
  }

  /** From corresponding states the two builds give the same code, position, stack top
      and tokens exactly when the scanning build does not stop unmatched. */
  lemma {:induction false} SameRun(js: Text, cap: nat, linked: State, scanned: State)
    requires Inv(true, js, linked) && Inv(false, js, scanned) && Wf(linked) && Wf(scanned)
    requires SameState(linked, scanned)
    ensures var a, b := Run(true, js, cap, linked), Run(false, js, cap, scanned);
            (a.0 == b.0 && SameState(a.1, b.1)) <==> !StopsUnmatched(js, b.0, b.1)
    decreases |js| - linked.pos
  {
    if linked.pos == |js| {
      SameLastOpen(linked.toks, scanned.toks, |linked.toks|);
    } else {
      SameStep(js, cap, linked, scanned);
      var a, b := Step(true, js, cap, linked), Step(false, js, cap, scanned);
      if a.Go? && b.Go? {
        StepKeeps(true, js, cap, linked);
        StepKeeps(false, js, cap, scanned);
        SameRun(js, cap, a.state, b.state);
      }
    }
  }

  /** The parent-link build refines the scanning build on every text and table size,
      except exactly where a closing bracket comes with nothing open. */
  lemma LinksRefineScan(js: Text, cap: nat)
    ensures var a, b := Run(true, js, cap, Fresh), Run(false, js, cap, Fresh);
            (a.0 == b.0 && SameState(a.1, b.1)) <==> !StopsUnmatched(js, b.0, b.1)
  {
    SameRun(js, cap, Fresh, Fresh);
  }

  const Opened := State(1, [Token(Array, 0, -1, 0, -1)], 0)
  const Closed := State(2, [Token(Array, 0, 2, 0, -1)], -1)

  lemma OpenAndClose(links: bool)
    ensures Step(links, "[]]", 1, Fresh) == Go(Opened) && Step(links, "[]]", 1, Opened) == Go(Closed)
  {
  }

  lemma CloseAgain()
    ensures Step(false, "[]]", 1, Closed) == Stop(Inval, Closed)
    ensures Step(true, "[]]", 1, Closed) == Go(Closed.(pos := 3)) && Verdict(Closed.toks) == Success
  {
  }

  /** The two builds do differ: the text `[]]` is refused by one and accepted by the other. */
  lemma UnmatchedBracketDiffers()
    ensures Run(false, "[]]", 1, Fresh).0 == Inval
    ensures Run(true, "[]]", 1, Fresh).0 == Success
  {
    hide Step, Verdict;
    OpenAndClose(false);
    OpenAndClose(true);
    CloseAgain();
    assert forall links: bool :: Run(links, "[]]", 1, Fresh) == Run(links, "[]]", 1, Closed);
  }
}
