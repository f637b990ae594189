/** The exact language of the tokenizer: from an accepted text back to the tree it is. */
module JsmnLanguage {
  import opened JsmnTokens
  import opened JsmnForest
  import opened JsmnGrammar
  import opened JsmnPrintParse

  /** A finished tree with the separators before it. */
  datatype Item = Item(sep: string, node: Node)

  /** A container still open: what stands before it on its own level, and its bracket. */
  datatype Frame = Frame(items: seq<Item>, sep: string, kind: Kind)

  /** A consumed text, as the open containers from the outside in, the finished trees of
      the innermost level and the separators after them. */
  datatype Zipper = Zipper(frames: seq<Frame>, items: seq<Item>, trail: string)

  function PrintItems(items: seq<Item>): string {
    if items == [] then ""
    else
      var last := items[|items| - 1];
      PrintItems(items[..|items| - 1]) + last.sep + PrintNode(last.node)
  }

  function PrintFrames(frames: seq<Frame>): string {
    if frames == [] then ""
    else
      var last := frames[|frames| - 1];
      PrintFrames(frames[..|frames| - 1]) + PrintItems(last.items) + last.sep + OpenOf(last.kind)
  }

  function Consumed(z: Zipper): string {
    PrintFrames(z.frames) + PrintItems(z.items) + z.trail
  }

  function SizeItems(items: seq<Item>): nat {
    if items == [] then 0 else SizeItems(items[..|items| - 1]) + SizeNode(items[|items| - 1].node)
  }

  function SizeFrames(frames: seq<Frame>): nat {
    if frames == [] then 0
    else SizeFrames(frames[..|frames| - 1]) + SizeItems(frames[|frames| - 1].items) + 1
  }

  predicate EndsInPrimitive(items: seq<Item>) {
    items != [] && items[|items| - 1].node.Prim?
  }

  predicate ProperItems(items: seq<Item>) {
    && (forall i :: 0 <= i < |items| ==> Separators(items[i].sep) && ProperNode(items[i].node))
    && (forall i :: 0 < i < |items| ==> items[i - 1].node.Prim? ==> items[i].sep != "")
  }

  predicate ProperFrame(f: Frame) {
    && ProperItems(f.items) && Separators(f.sep)
    && (f.kind == Object || f.kind == Array)
    && (EndsInPrimitive(f.items) ==> f.sep != "")
  }

  predicate ProperZipper(z: Zipper) {
    && (forall i :: 0 <= i < |z.frames| ==> ProperFrame(z.frames[i]))
    && ProperItems(z.items) && Separators(z.trail)
  }

  /** The finished trees in front of `tail`, as one forest. */
  function Build(items: seq<Item>, tail: Forest): Forest {
    if items == [] then tail
    else
      var last := items[|items| - 1];
      Build(items[..|items| - 1], Cons(last.sep, last.node, tail))
  }

  lemma {:induction false} BuildPrints(items: seq<Item>, tail: Forest)
    ensures Print(Build(items, tail)) == PrintItems(items) + Print(tail)
    ensures Size(Build(items, tail)) == SizeItems(items) + Size(tail)
  {
    if items != [] {
      var last := items[|items| - 1];
      BuildPrints(items[..|items| - 1], Cons(last.sep, last.node, tail));
      var front := PrintItems(items[..|items| - 1]);
      assert front + (last.sep + PrintNode(last.node) + Print(tail))
          == front + last.sep + PrintNode(last.node) + Print(tail);
    }
  }

  lemma {:induction false} BuildProper(items: seq<Item>, tail: Forest)
    requires ProperItems(items) && Proper(tail)
    requires EndsInPrimitive(items) && tail.Cons? ==> tail.sep != ""
    ensures Proper(Build(items, tail))
  {
    if items != [] {
      var last := items[|items| - 1];
      BuildProper(items[..|items| - 1], Cons(last.sep, last.node, tail));
    }
  }

  /** The kinds of the open tokens, in table order. */
  function OpenKinds(toks: seq<Token>): seq<Kind> {
    if toks == [] then []
    else
      var last := toks[|toks| - 1];
      OpenKinds(toks[..|toks| - 1]) + if last.Open() then [last.kind] else []
  }

  lemma {:induction false} SameOpenKinds(a: seq<Token>, b: seq<Token>)
    requires |a| == |b|
    requires forall i :: 0 <= i < |a| ==> a[i].Open() == b[i].Open() && a[i].kind == b[i].kind
    ensures OpenKinds(a) == OpenKinds(b)
  {
    if a != [] { SameOpenKinds(a[..|a| - 1], b[..|b| - 1]); }
  }

  lemma {:induction false} OpenKindsSplit(toks: seq<Token>, n: nat)
    requires n <= |toks|
    requires forall k :: n <= k < |toks| ==> !toks[k].Open()
    ensures OpenKinds(toks) == OpenKinds(toks[..n])
    decreases |toks|
  {
    if |toks| > n {
      OpenKindsSplit(toks[..|toks| - 1], n);
      assert toks[..|toks| - 1][..n] == toks[..n];
    } else {
      assert toks[..n] == toks;
    }
  }

  lemma OpenKindsTop(toks: seq<Token>)
    ensures var i := LastOpen(toks, |toks|);
            if i == -1 then OpenKinds(toks) == [] else OpenKinds(toks) == OpenKinds(toks[..i]) + [toks[i].kind]
  {
    var i := LastOpen(toks, |toks|);
    OpenKindsSplit(toks, i + 1);
    if i != -1 { assert toks[..i + 1][..i] == toks[..i]; }
  }

  function Kinds(frames: seq<Frame>): seq<Kind> {
    seq(|frames|, i requires 0 <= i < |frames| => frames[i].kind)
  }

  /** The zipper is a proper reading of the consumed text. */
  predicate TextFits(js: Text, pos: nat, z: Zipper) {
    && pos <= |js| && ProperZipper(z)
    && js[..pos] == Consumed(z)
    && (EndsInPrimitive(z.items) && z.trail == "" ==> pos == |js| || EndsPrimitive(js[pos]))
  }

  /** The open tokens of the table are the open containers of the zipper, and the sizes agree. */
  predicate TableFits(cap: nat, toks: seq<Token>, z: Zipper) {
    && |toks| <= cap
    && Kinds(z.frames) == OpenKinds(toks)
    && |toks| == SizeFrames(z.frames) + SizeItems(z.items)
  }

  predicate Fits(js: Text, cap: nat, s: State, z: Zipper) {
    Standing(s) && TextFits(js, s.pos, z) && TableFits(cap, s.toks, z)
  }

  lemma {:induction false} ScannedBody(js: Text, i: nat)
    requires i <= |js| && StringScan(js, i).Ends?
    ensures Body(js[i..StringScan(js, i).at]) && js[StringScan(js, i).at] == '\"'
    decreases |js| - i
  {
    var e := StringScan(js, i).at;
    if i < e {
      var n := if js[i] == '\\' then 2 else 1;
      ScannedBody(js, i + n);
      assert js[i..e][n..] == js[i + n..e];
    }
  }

  lemma {:induction false} ScannedPrimitive(js: Text, i: nat)
    requires i <= |js| && PrimitiveScan(js, i).Ends?
    ensures forall k :: i <= k < PrimitiveScan(js, i).at ==> Printable(js[k]) && !EndsPrimitive(js[k])
    ensures var e := PrimitiveScan(js, i).at; e == |js| || EndsPrimitive(js[e])
    decreases |js| - i
  {
    if i < PrimitiveScan(js, i).at { ScannedPrimitive(js, i + 1); }
  }

  /** One tree more on the innermost level. */
  function Grown(z: Zipper, node: Node): Zipper {
    Zipper(z.frames, z.items + [Item(z.trail, node)], "")
  }

  lemma GrownPrints(z: Zipper, node: Node)
    ensures Consumed(Grown(z, node)) == Consumed(z) + PrintNode(node)
    ensures SizeItems(Grown(z, node).items) == SizeItems(z.items) + SizeNode(node)
  {
  }

  lemma GrownProper(z: Zipper, node: Node)
    requires ProperZipper(z) && ProperNode(node) && (EndsInPrimitive(z.items) ==> z.trail != "")
    ensures ProperZipper(Grown(z, node))
  {
  }

  lemma AddedLeaf(links: bool, s: State, kind: Kind, start: int, end: int)
    requires Standing(s) && end != -1
    ensures var toks := Add(links, s, kind, start, end);
            OpenKinds(toks) == OpenKinds(s.toks) && LastOpen(toks, |toks|) == s.super
  {
    var toks := Add(links, s, kind, start, end);
    LastOpenIs(toks, |toks|, s.super);
    assert toks[..|s.toks|] == Bump(s.toks, s.super);
    SameOpenKinds(s.toks, Bump(s.toks, s.super));
  }

  lemma AddedBox(links: bool, s: State, kind: Kind, start: nat)
    requires Standing(s)
    ensures var toks := Add(links, s, kind, start, -1);
            OpenKinds(toks) == OpenKinds(s.toks) + [kind] && LastOpen(toks, |toks|) == |s.toks|
  {
    var toks := Add(links, s, kind, start, -1);
    assert toks[|s.toks|].Open();
    LastOpenIs(toks, |toks|, |s.toks|);
    assert toks[..|s.toks|] == Bump(s.toks, s.super);
    SameOpenKinds(s.toks, Bump(s.toks, s.super));
  }

  lemma LeafText(js: Text, pos: nat, z: Zipper, node: Node, next: nat)
    requires TextFits(js, pos, z) && ProperNode(node)
    requires pos < |js| && !EndsPrimitive(js[pos])
    requires pos <= next <= |js| && js[pos..next] == PrintNode(node)
    requires node.Prim? ==> next == |js| || EndsPrimitive(js[next])
    ensures TextFits(js, next, Grown(z, node))
  {
    hide Consumed, ProperZipper;
    GrownPrints(z, node);
    GrownProper(z, node);
    assert js[..next] == js[..pos] + js[pos..next];
  }

  lemma LeafFits(js: Text, cap: nat, s: State, z: Zipper, node: Node, t: State, kind: Kind, start: int, end: int)
    requires Fits(js, cap, s, z) && !node.Box? && |s.toks| < cap && end != -1
    requires TextFits(js, t.pos, Grown(z, node))
    requires t.toks == Add(false, s, kind, start, end) && t.super == s.super && Wf(t)
    ensures Fits(js, cap, t, Grown(z, node))
  {
    GrownPrints(z, node);
    AddedLeaf(false, s, kind, start, end);
  }

  /** A container begun on the innermost level. */
  function Nested(z: Zipper, kind: Kind): Zipper {
    Zipper(z.frames + [Frame(z.items, z.trail, kind)], [], "")
  }

  lemma NestedPrints(z: Zipper, kind: Kind)
    ensures Consumed(Nested(z, kind)) == Consumed(z) + OpenOf(kind)
    ensures SizeFrames(Nested(z, kind).frames) == SizeFrames(z.frames) + SizeItems(z.items) + 1
  {
  }

  lemma BoxText(js: Text, pos: nat, z: Zipper)
    requires TextFits(js, pos, z) && pos < |js| && Opens(js[pos])
    ensures TextFits(js, pos + 1, Nested(z, KindOf(js[pos])))
  {
  }

  lemma BoxTable(cap: nat, s: State, z: Zipper, kind: Kind)
    requires Standing(s) && TableFits(cap, s.toks, z) && |s.toks| < cap
    ensures TableFits(cap, Add(false, s, kind, s.pos, -1), Nested(z, kind))
  {
    NestedPrints(z, kind);
    AddedBox(false, s, kind, s.pos);
    assert Kinds(Nested(z, kind).frames) == Kinds(z.frames) + [kind];
  }

  lemma BoxFits(js: Text, cap: nat, s: State, z: Zipper, t: State)
    requires Fits(js, cap, s, z)
    requires s.pos < |js| && Opens(js[s.pos]) && |s.toks| < cap
    requires t == State(s.pos + 1, Add(false, s, KindOf(js[s.pos]), s.pos, -1), |s.toks|)
    ensures Fits(js, cap, t, Nested(z, KindOf(js[s.pos])))
  {
    BoxText(js, s.pos, z);
    BoxTable(cap, s, z, KindOf(js[s.pos]));
    AddedBox(false, s, KindOf(js[s.pos]), s.pos);
  }

  /** The innermost container finished. */
  function Finished(z: Zipper): Zipper
    requires z.frames != []
  {
    var last := z.frames[|z.frames| - 1];
    Grown(Zipper(z.frames[..|z.frames| - 1], last.items, last.sep), Box(last.kind, Build(z.items, Nil(z.trail))))
  }

  lemma FinishedPrints(z: Zipper)
    requires z.frames != []
    ensures Consumed(Finished(z)) == Consumed(z) + CloseOf(z.frames[|z.frames| - 1].kind)
    ensures SizeFrames(Finished(z).frames) + SizeItems(Finished(z).items) == SizeFrames(z.frames) + SizeItems(z.items)
  {
    var last := z.frames[|z.frames| - 1];
    var outer := Zipper(z.frames[..|z.frames| - 1], last.items, last.sep);
    var kids := Build(z.items, Nil(z.trail));
    BuildPrints(z.items, Nil(z.trail));
    GrownPrints(outer, Box(last.kind, kids));
    assert Consumed(outer) + (OpenOf(last.kind) + Print(kids) + CloseOf(last.kind))
        == Consumed(z) + CloseOf(last.kind);
  }

  lemma FinishedProper(z: Zipper)
    requires ProperZipper(z) && z.frames != []
    ensures ProperZipper(Finished(z))
  {
    BuildProper(z.items, Nil(z.trail));
  }

  lemma ClosedKinds(toks: seq<Token>, i: nat, end: int)
    requires LastOpen(toks, |toks|) == i && end != -1
    ensures var b := toks[i := toks[i].(end := end)];
            && OpenKinds(toks) == OpenKinds(b) + [toks[i].kind]
            && LastOpen(b, |b|) == LastOpen(b, i)
  {
    var b := toks[i := toks[i].(end := end)];
    OpenKindsTop(toks);
    OpenKindsSplit(b, i);
    assert b[..i] == toks[..i];
    LastOpenIs(b, |b|, LastOpen(b, i));
  }

  lemma CloseText(js: Text, pos: nat, z: Zipper)
    requires TextFits(js, pos, z) && pos < |js| && Closes(js[pos]) && z.frames != []
    requires z.frames[|z.frames| - 1].kind == KindOf(js[pos])
    ensures TextFits(js, pos + 1, Finished(z))
  {
    hide Consumed, ProperZipper;
    FinishedPrints(z);
    FinishedProper(z);
    assert js[..pos + 1] == js[..pos] + [js[pos]];
    assert [js[pos]] == CloseOf(KindOf(js[pos]));
  }

  lemma CloseTable(cap: nat, toks: seq<Token>, z: Zipper, i: nat, end: int)
    requires TableFits(cap, toks, z) && LastOpen(toks, |toks|) == i && end != -1
    ensures z.frames != [] && z.frames[|z.frames| - 1].kind == toks[i].kind
    ensures TableFits(cap, toks[i := toks[i].(end := end)], Finished(z))
  {
    ClosedKinds(toks, i, end);
    var n := |z.frames| - 1;
    assert |Kinds(z.frames)| == |OpenKinds(toks)|;
    assert Kinds(z.frames)[n] == z.frames[n].kind;
    FinishedPrints(z);
    assert Kinds(z.frames[..n]) == Kinds(z.frames)[..n];
  }

  lemma CloseFits(js: Text, cap: nat, s: State, z: Zipper, t: State)
    requires Fits(js, cap, s, z) && s.pos < |js| && Closes(js[s.pos])
    requires Step(false, js, cap, s) == Go(t)
    ensures z.frames != [] && Fits(js, cap, t, Finished(z))
  {
    hide Consumed, ProperZipper, OpenKinds;
    var i := s.super;
    ClosedKinds(s.toks, i, s.pos + 1);
    CloseTable(cap, s.toks, z, i, s.pos + 1);
    CloseText(js, s.pos, z);
  }

  lemma StringFits(js: Text, cap: nat, s: State, z: Zipper, t: State)
    requires Fits(js, cap, s, z) && s.pos < |js| && js[s.pos] == '\"'
    requires Step(false, js, cap, s) == Go(t)
    ensures exists z' :: Fits(js, cap, t, z')
  {
    hide Consumed, LastOpen, ProperZipper, OpenKinds, Body, Proper;
    var e := t.pos - 1;
    ScannedBody(js, s.pos + 1);
    var node := Quoted(js[s.pos + 1..e]);
    assert js[s.pos..t.pos] == PrintNode(node);
    LeafText(js, s.pos, z, node, t.pos);
    LeafFits(js, cap, s, z, node, t, Str, s.pos + 1, e);
  }

  lemma PrimitiveFits(js: Text, cap: nat, s: State, z: Zipper, t: State)
    requires Fits(js, cap, s, z) && s.pos < |js|
    requires !Opens(js[s.pos]) && !EndsPrimitive(js[s.pos]) && js[s.pos] != '\"'
    requires Step(false, js, cap, s) == Go(t)
    ensures exists z' :: Fits(js, cap, t, z')
  {
    ScannedPrimitive(js, s.pos);
    var text := js[s.pos..t.pos];
    assert forall k :: 0 <= k < |text| ==> text[k] == js[s.pos + k];
    LeafText(js, s.pos, z, Prim(text), t.pos);
    LeafFits(js, cap, s, z, Prim(text), t, Primitive, s.pos, t.pos);
  }

  lemma SeparatorFits(js: Text, cap: nat, s: State, z: Zipper)
    requires Fits(js, cap, s, z) && s.pos < |js| && IsSeparator(js[s.pos])
    ensures Fits(js, cap, s.(pos := s.pos + 1), z.(trail := z.trail + [js[s.pos]]))
  {
    assert js[..s.pos + 1] == js[..s.pos] + [js[s.pos]];
    assert Consumed(z.(trail := z.trail + [js[s.pos]])) == Consumed(z) + [js[s.pos]];
  }

  lemma StepFits(js: Text, cap: nat, s: State, z: Zipper, t: State)
    requires Fits(js, cap, s, z) && s.pos < |js| && Step(false, js, cap, s) == Go(t)
    ensures exists z' :: Fits(js, cap, t, z')
  {
    var c := js[s.pos];
    if Opens(c) {
      BoxFits(js, cap, s, z, t);
    } else if Closes(c) {
      CloseFits(js, cap, s, z, t);
    } else if c == '\"' {
      StringFits(js, cap, s, z, t);
    } else if IsSeparator(c) {
      SeparatorFits(js, cap, s, z);
    } else {
      PrimitiveFits(js, cap, s, z, t);
    }
  }

  /** A successful call has come to the end with nothing open, or its next step succeeds. */
  lemma SuccessGoesOn(js: Text, cap: nat, s: State)
    requires Wf(s) && s.pos <= |js| && Run(false, js, cap, s).0 == Success
    ensures s.pos == |js| ==> LastOpen(s.toks, |s.toks|) == -1
    ensures s.pos < |js| ==> var out := Step(false, js, cap, s);
              out.Go? && s.pos < out.state.pos <= |js| && Run(false, js, cap, out.state).0 == Success
  {
  }

  lemma NothingOpen(cap: nat, toks: seq<Token>, z: Zipper)
    requires TableFits(cap, toks, z) && LastOpen(toks, |toks|) == -1
    ensures z.frames == []
  {
    OpenKindsTop(toks);
    assert |Kinds(z.frames)| == 0;
  }

  /** With nothing open, the items read so far are a forest that prints what was consumed. */
  lemma BuildsConsumed(z: Zipper)
    requires ProperZipper(z) && z.frames == []
    ensures var f := Build(z.items, Nil(z.trail));
            Proper(f) && Print(f) == Consumed(z) && Size(f) == SizeFrames(z.frames) + SizeItems(z.items)
  {
    BuildPrints(z.items, Nil(z.trail));
    BuildProper(z.items, Nil(z.trail));
    assert PrintItems(z.items) + z.trail == "" + PrintItems(z.items) + z.trail;
  }

  /** At the end of the text with nothing open, that is the whole text. */
  lemma CompleteText(js: Text, cap: nat, s: State, z: Zipper) returns (f: Forest)
    requires Fits(js, cap, s, z) && s.pos == |js| && LastOpen(s.toks, |s.toks|) == -1
    ensures Proper(f) && Print(f) == js && Size(f) <= cap
  {
    NothingOpen(cap, s.toks, z);
    BuildsConsumed(z);
    hide ProperZipper, Consumed, OpenKinds, Kinds, Build, Proper, Print, Size, SizeItems, SizeFrames;
    f := Build(z.items, Nil(z.trail));
    assert js[..|js|] == js;
  }

  lemma {:induction false} AcceptedIsPrinted(js: Text, cap: nat, s: State, z: Zipper) returns (f: Forest)
    requires Fits(js, cap, s, z) && Run(false, js, cap, s).0 == Success
    ensures Proper(f) && Print(f) == js && Size(f) <= cap
    decreases |js| - s.pos
  {
    hide Run, Step;
    SuccessGoesOn(js, cap, s);
    if s.pos == |js| {
      f := CompleteText(js, cap, s, z);
    } else {
      var t := Step(false, js, cap, s).state;
      StepFits(js, cap, s, z, t);
      var z' :| Fits(js, cap, t, z');
      f := AcceptedIsPrinted(js, cap, t, z');
    }
  }

  predicate IsPrintOf(js: Text, cap: nat, f: Forest) {
    Proper(f) && Print(f) == js && Size(f) <= cap
  }

  lemma PrintAccepted(js: Text, cap: nat, f: Forest)
    requires IsPrintOf(js, cap, f)
    ensures Run(false, js, cap, Fresh) == (Success, State(|js|, Listing(false, f, 0, 0, -1), -1))
  {
    PrintThenParse(false, f, cap);
  }

  lemma Accepted(js: Text, cap: nat) returns (f: Forest)
    requires Run(false, js, cap, Fresh).0 == Success
    ensures IsPrintOf(js, cap, f)
  {
    var z := Zipper([], [], "");
    assert Consumed(z) == "" == js[..0];
    f := AcceptedIsPrinted(js, cap, Fresh, z);
  }

  /** A text is accepted with a table of `cap` slots exactly when it is the print of a proper
      forest of at most `cap` tokens, and then the table is that forest's listing. */
  lemma AcceptsExactlyPrints(js: Text, cap: nat)
    ensures Run(false, js, cap, Fresh).0 == Success <==> exists f :: IsPrintOf(js, cap, f)
    ensures forall f :: IsPrintOf(js, cap, f) ==>
              Run(false, js, cap, Fresh).1 == State(|js|, Listing(false, f, 0, 0, -1), -1)
  {
    if Run(false, js, cap, Fresh).0 == Success {
      var f := Accepted(js, cap);
    }
    forall f | IsPrintOf(js, cap, f)
      ensures Run(false, js, cap, Fresh) == (Success, State(|js|, Listing(false, f, 0, 0, -1), -1))
    {
      PrintAccepted(js, cap, f);
    }
  }
}
