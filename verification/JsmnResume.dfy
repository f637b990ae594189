/** Stopping early and calling again with more text or a larger table, against
    one fresh call on the final text and table. */
module JsmnResume {
  import opened JsmnTokens
  import JsmnForest

  /** The last token is a primitive that ran to the end of `js`, and `more` goes on
      with a character that would have belonged to it. A caller sees this in the table
      before calling again. */
  predicate CutPrimitive(js: Text, more: Text, toks: seq<Token>) {
    && |js| < |more|
    && !EndsPrimitive(more[|js|])
    && |toks| > 0
    && toks[|toks| - 1].kind == Primitive
    && toks[|toks| - 1].end == |js|
  }

  lemma {:induction false} PrimitiveScanMore(js: Text, more: Text, i: nat)
    requires js <= more && i <= |js|
    ensures PrimitiveScan(js, i) == Bad ==> PrimitiveScan(more, i) == Bad
    ensures var a, b := PrimitiveScan(js, i), PrimitiveScan(more, i);
            a.Ends? ==>
              if a.at == |js| < |more| && !EndsPrimitive(more[|js|]) then b == Bad || (b.Ends? && b.at > |js|)
              else b == a
    decreases |js| - i
  {
    if i < |js| && !EndsPrimitive(js[i]) && Printable(js[i]) {
      PrimitiveScanMore(js, more, i + 1);
    }
  }

  lemma {:induction false} StringScanMore(js: Text, more: Text, i: nat)
    requires js <= more && i <= |js|
    ensures StringScan(js, i).Ends? ==> StringScan(more, i) == StringScan(js, i)
    decreases |js| - i
  {
    if i < |js| && js[i] != '\"' {
      if js[i] != '\\' {
        StringScanMore(js, more, i + 1);
      } else if IsEscape(At(js, i + 1)) {
        StringScanMore(js, more, i + 2);
      }
    }
  }

  /** A round that got through on the shorter text and smaller table goes the same way on the
      longer ones, unless it took a cut primitive: then it fails or takes a longer token. */
  lemma StepMore(links: bool, js: Text, cap: nat, more: Text, cap': nat, s: State)
    requires js <= more && cap <= cap' && Wf(s) && s.pos < |js|
    requires Step(links, js, cap, s).Go?
    ensures var t := Step(links, js, cap, s).state;
            var u := Step(links, more, cap', s);
            if t.pos == |js| && |t.toks| > |s.toks| && CutPrimitive(js, more, t.toks) then
              u == Stop(Inval, s) || (u.Go? && |u.state.toks| == |t.toks| && u.state.toks[|s.toks|].end > |js|)
            else u == Go(t)
  {
    assert more[s.pos] == js[s.pos];
    PrimitiveScanMore(js, more, s.pos);
    StringScanMore(js, more, s.pos + 1);
  }

  predicate SamePlace(a: Token, b: Token) {
    a.kind == b.kind && a.end == b.end
  }

  /** A run never drops a token and changes neither kind nor end of a closed one. */
  lemma {:induction false} ClosedStays(links: bool, js: Text, cap: nat, s: State, k: nat)
    requires Wf(s) && s.pos <= |js| && k < |s.toks| && s.toks[k].end != -1
    ensures var t := Run(links, js, cap, s).1; k < |t.toks| && SamePlace(t.toks[k], s.toks[k])
    decreases |js| - s.pos
  {
    if s.pos < |js| {
      match Step(links, js, cap, s)
      case Stop(_, _) =>
      case Go(t) => ClosedStays(links, js, cap, t, k);
    }
  }

  /** Every token in the table ends in the consumed text. */
  predicate EndsBehind(s: State) {
    forall i :: 0 <= i < |s.toks| ==> s.toks[i].end <= s.pos
  }

  lemma GoEndsBehind(links: bool, js: Text, cap: nat, s: State, t: State)
    requires Wf(s) && s.pos < |js| && EndsBehind(s) && Step(links, js, cap, s) == Go(t)
    ensures EndsBehind(t)
    ensures |t.toks| == |s.toks| || (|t.toks| == |s.toks| + 1 && t.toks[|s.toks|].end <= t.pos)
  {
  }

  /** A cut primitive is closed too early for good: the fresh call refuses it or ends it later. */
  lemma CutDiffers(links: bool, js: Text, cap: nat, more: Text, cap': nat, s: State, t: State)
    requires js <= more && cap <= cap' && Wf(s) && s.pos < |js| && EndsBehind(s)
    requires Step(links, js, cap, s) == Go(t) && t.pos == |js| && CutPrimitive(js, more, t.toks)
    ensures Run(links, more, cap', t) != Run(links, more, cap', s)
  {
    var k := |s.toks|;
    GoEndsBehind(links, js, cap, s, t);
    if |t.toks| == |s.toks| { ClosingDoesNotCut(links, js, cap, more, s, t); }
    StepMore(links, js, cap, more, cap', s);
    ClosedStays(links, more, cap', t, k);
    var u := Step(links, more, cap', s);
    if u.Go? { ClosedStays(links, more, cap', u.state, k); }
  }

  lemma ClosingDoesNotCut(links: bool, js: Text, cap: nat, more: Text, s: State, t: State)
    requires Wf(s) && s.pos < |js| && EndsBehind(s) && Step(links, js, cap, s) == Go(t)
    requires |t.toks| == |s.toks| > 0 && js <= more
    ensures !CutPrimitive(js, more, t.toks)
  {
  }

  lemma {:induction false} Resume(links: bool, js: Text, cap: nat, more: Text, cap': nat, s: State)
    requires js <= more && cap <= cap' && Wf(s) && s.pos <= |js| && EndsBehind(s)
    requires s.pos == |js| ==> !CutPrimitive(js, more, s.toks)
    ensures var t := Run(links, js, cap, s).1;
            Run(links, more, cap', t) == Run(links, more, cap', s) <==> !CutPrimitive(js, more, t.toks)
    decreases |js| - s.pos
  {
    if s.pos < |js| {
      match Step(links, js, cap, s)
      case Stop(_, _) =>
        assert !CutPrimitive(js, more, s.toks) by {
          if |s.toks| > 0 { assert s.toks[|s.toks| - 1].end <= s.pos; }
        }
      case Go(t) =>
        StepMore(links, js, cap, more, cap', s);
        if t.pos == |js| && CutPrimitive(js, more, t.toks) {
          CutDiffers(links, js, cap, more, cap', s, t);
        } else {
          GoEndsBehind(links, js, cap, s, t);
          Resume(links, js, cap, more, cap', t);
        }
    }
  }

  /** One interrupted call: whatever code it returned, calling again with a longer text and a larger
      table gives the code, state and tokens of one fresh call on them, if and only if no primitive was cut. */
  lemma ResumeEqualsFresh(links: bool, js: Text, cap: nat, more: Text, cap': nat)
    requires js <= more && cap <= cap'
    ensures var t := Run(links, js, cap, Fresh).1;
            Run(links, more, cap', t) == Run(links, more, cap', Fresh) <==> !CutPrimitive(js, more, t.toks)
  {
    Resume(links, js, cap, more, cap', Fresh);
  }

  /** A text as far as it has arrived, and the size of the table passed with it. */
  datatype Call = Call(js: Text, cap: nat)

  predicate Growing(calls: seq<Call>) {
    forall i :: 0 <= i < |calls| - 1 ==> calls[i].js <= calls[i + 1].js && calls[i].cap <= calls[i + 1].cap
  }

  /** The code and state after making all the calls, one after the other, on one parser. */
  function RunCalls(links: bool, calls: seq<Call>): (r: (Code, State))
    requires |calls| > 0 && Growing(calls)
    ensures Wf(r.1) && r.1.pos <= |calls[|calls| - 1].js|
    decreases |calls|
  {
    var last := calls[|calls| - 1];
    if |calls| == 1 then Run(links, last.js, last.cap, Fresh)
    else
      var before := calls[..|calls| - 1];
      Run(links, last.js, last.cap, RunCalls(links, before).1)
  }

  /** No call but the last has cut a primitive that the next text goes on with. */
  predicate NeverCut(links: bool, calls: seq<Call>)
    requires Growing(calls)
  {
    forall i {:trigger calls[..i]} :: 0 < i < |calls| ==>
      Growing(calls[..i]) && !CutPrimitive(calls[i - 1].js, calls[i].js, RunCalls(links, calls[..i]).1.toks)
  }

  lemma {:induction false} UncutIsOneShot(links: bool, calls: seq<Call>)
    requires |calls| > 0 && Growing(calls) && NeverCut(links, calls)
    ensures var last := calls[|calls| - 1];
            RunCalls(links, calls) == Run(links, last.js, last.cap, Fresh)
    decreases |calls|
  {
    hide Run, CutPrimitive;
    var n := |calls|;
    if n > 1 {
      var before, last, prev := calls[..n - 1], calls[n - 1], calls[n - 2];
      assert NeverCut(links, before) by {
        forall i | 0 < i < |before|
          ensures Growing(before[..i])
          ensures !CutPrimitive(before[i - 1].js, before[i].js, RunCalls(links, before[..i]).1.toks)
        {
          assert before[..i] == calls[..i];
        }
      }
      UncutIsOneShot(links, before);
      ResumeEqualsFresh(links, prev.js, prev.cap, last.js, last.cap);
    }
  }

  // ---- A cut cannot be made good

  lemma {:induction false} PrimitiveStops(js: Text, i: nat)
    requires i <= |js| && PrimitiveScan(js, i).Ends?
    ensures var e := PrimitiveScan(js, i).at; e == |js| || EndsPrimitive(js[e])
    decreases |js| - i
  {
    if i < PrimitiveScan(js, i).at { PrimitiveStops(js, i + 1); }
  }

  /** In one fresh call every primitive ends where the text does or before a delimiter. */
  lemma FreshPrimitiveStops(links: bool, js: Text, cap: nat, k: nat)
    requires var toks := Run(links, js, cap, Fresh).1.toks; k < |toks| && toks[k].kind == Primitive
    ensures var e := Run(links, js, cap, Fresh).1.toks[k].end; e == |js| || (0 <= e < |js| && EndsPrimitive(js[e]))
  {
    JsmnForest.FreshRun(links, js, cap);
    var s := Run(links, js, cap, Fresh).1;
    hide Run;
    assert JsmnForest.Placed(js, s.pos, s.toks[k]);
    PrimitiveStops(js, s.toks[k].start);
  }

  lemma {:induction false} GrowsTo(calls: seq<Call>, i: nat)
    requires i < |calls| && Growing(calls)
    ensures calls[i].js <= calls[|calls| - 1].js
    decreases |calls| - i
  {
    if i < |calls| - 1 { GrowsTo(calls, i + 1); }
  }

  /** A closed token stays in the table as it is through all later calls. */
  lemma {:induction false} StaysThrough(links: bool, calls: seq<Call>, i: nat, k: nat)
    requires 0 < i <= |calls| && Growing(calls) && Growing(calls[..i])
    requires var toks := RunCalls(links, calls[..i]).1.toks; k < |toks| && toks[k].end != -1
    ensures var toks := RunCalls(links, calls).1.toks;
            k < |toks| && SamePlace(toks[k], RunCalls(links, calls[..i]).1.toks[k])
    decreases |calls|
  {
    if i == |calls| {
      assert calls[..i] == calls;
    } else {
      var before, last := calls[..|calls| - 1], calls[|calls| - 1];
      assert before[..i] == calls[..i];
      StaysThrough(links, before, i, k);
      ClosedStays(links, last.js, last.cap, RunCalls(links, before).1, k);
    }
  }

  /** A primitive cut by one of the calls shows in the end: one fresh call has no such token. */
  lemma CutShows(links: bool, calls: seq<Call>, i: nat)
    requires 0 < i < |calls| && Growing(calls) && Growing(calls[..i])
    requires CutPrimitive(calls[i - 1].js, calls[i].js, RunCalls(links, calls[..i]).1.toks)
    ensures var last := calls[|calls| - 1];
            RunCalls(links, calls) != Run(links, last.js, last.cap, Fresh)
  {
    var last := calls[|calls| - 1];
    var k := |RunCalls(links, calls[..i]).1.toks| - 1;
    StaysThrough(links, calls, i, k);
    GrowsTo(calls, i);
    if RunCalls(links, calls) == Run(links, last.js, last.cap, Fresh) {
      FreshPrimitiveStops(links, last.js, last.cap, k);
    }
  }

  /** Any number of interruptions, by missing text or a full table: the last call ends exactly as one fresh call
      on the final text and table if and only if no call but the last has cut a primitive. */
  lemma ChunkedEqualsOneShot(links: bool, calls: seq<Call>)
    requires |calls| > 0 && Growing(calls)
    ensures var last := calls[|calls| - 1];
            RunCalls(links, calls) == Run(links, last.js, last.cap, Fresh) <==> NeverCut(links, calls)
  {
    if NeverCut(links, calls) {
      UncutIsOneShot(links, calls);
    } else {
      var i :| 0 < i < |calls| &&
        !(Growing(calls[..i]) && !CutPrimitive(calls[i - 1].js, calls[i].js, RunCalls(links, calls[..i]).1.toks));
      CutShows(links, calls, i);
    }
  }
}
