/** The flat table encodes a forest: what every round of the tokenizer keeps,
    and what a reader may rely on when the call reports success. */
module JsmnForest {
  import opened JsmnTokens

  predicate IsContainer(t: Token) {
    t.kind == Object || t.kind == Array
  }

  /** Token `i` spans the place where the later token `j` begins. */
  predicate Encloses(toks: seq<Token>, i: nat, j: nat)
    requires i < j < |toks|
  {
    IsContainer(toks[i]) && (toks[i].Open() || toks[j].start < toks[i].end)
  }

  /** The highest token below `n` that encloses `j`, or -1. */
  function Innermost(toks: seq<Token>, j: nat, n: nat): (r: int)
    requires n <= j < |toks|
    ensures -1 <= r < n
    ensures r != -1 ==> Encloses(toks, r, j)
    ensures forall k :: r < k < n ==> !Encloses(toks, k, j)
  {
    if n == 0 then -1 else if Encloses(toks, n - 1, j) then n - 1 else Innermost(toks, j, n - 1)
  }

  function ParentOf(toks: seq<Token>, j: nat): (r: int)
    requires j < |toks|
    ensures -1 <= r < j
  {
    Innermost(toks, j, j)
  }

  function Children(toks: seq<Token>, i: int): set<nat> {
    set j: nat | j < |toks| && ParentOf(toks, j) == i
  }

  /** The span of a token lies in the consumed text and has the right characters at its ends. */
  predicate Placed(js: Text, pos: nat, t: Token)
    requires pos <= |js|
  {
    match t.kind
    case Primitive => 0 <= t.start < t.end <= pos && PrimitiveScan(js, t.start) == Ends(t.end)
    case Str => 1 <= t.start <= t.end < pos && js[t.start - 1] == '\"' && StringScan(js, t.start) == Ends(t.end)
    case _ =>
      && 0 <= t.start < pos
      && Opens(js[t.start]) && KindOf(js[t.start]) == t.kind
      && (t.end != -1 ==>
            t.start + 2 <= t.end <= pos && Closes(js[t.end - 1]) && KindOf(js[t.end - 1]) == t.kind)
  }

  predicate Increasing(toks: seq<Token>) {
    forall i, j :: 0 <= i < j < |toks| ==> toks[i].start < toks[j].start
  }

  /** Two tokens are disjoint, or the earlier one is a container around the later one. */
  predicate Apart(a: Token, b: Token) {
    a.Open() || a.end <= b.start || (IsContainer(a) && b.end != -1 && b.end < a.end)
  }

  predicate Laminar(toks: seq<Token>) {
    forall i, j :: 0 <= i < j < |toks| ==> Apart(toks[i], toks[j])
  }

  predicate SizesCount(toks: seq<Token>) {
    forall i {:trigger Children(toks, i)} :: 0 <= i < |toks| ==> toks[i].size == |Children(toks, i)|
  }

  /** Every parent link is the innermost enclosing container. */
  predicate Linked(toks: seq<Token>) {
    forall i {:trigger ParentOf(toks, i)} :: 0 <= i < |toks| ==> toks[i].parent == ParentOf(toks, i)
  }

  ghost predicate Inv(links: bool, js: Text, s: State) {
    && s.pos <= |js|
    && AllPlaced(js, s.pos, s.toks)
    && Increasing(s.toks)
    && Laminar(s.toks)
    && SizesCount(s.toks)
    && s.super == LastOpen(s.toks, |s.toks|)
    && if links then Linked(s.toks) else forall i :: 0 <= i < |s.toks| ==> s.toks[i].parent == -1
  }

  // ---- Enclosing containers, told apart by their defining property

  lemma InnermostIs(toks: seq<Token>, j: nat, n: nat, r: int)
    requires n <= j < |toks| && -1 <= r < n
    requires r != -1 ==> Encloses(toks, r, j)
    requires forall k :: r < k < n ==> !Encloses(toks, k, j)
    ensures Innermost(toks, j, n) == r
  {
  }

  lemma LastOpenIs(toks: seq<Token>, n: nat, r: int)
    requires -1 <= r < n <= |toks| || r == -1 < n <= |toks| || (r == -1 && n == 0)
    requires r != -1 ==> toks[r].Open()
    requires forall k :: r < k < n ==> !toks[k].Open()
    ensures LastOpen(toks, n) == r
  {
  }

  /** The tokens of `a` have the same enclosing containers in the table `b`. */
  predicate SameShape(a: seq<Token>, b: seq<Token>) {
    |a| <= |b| && forall i, j :: 0 <= i < j < |a| ==> Encloses(a, i, j) == Encloses(b, i, j)
  }

  lemma ShapeKeepsParents(a: seq<Token>, b: seq<Token>)
    requires SameShape(a, b)
    ensures forall j {:trigger ParentOf(b, j)} :: 0 <= j < |a| ==> ParentOf(a, j) == ParentOf(b, j)
  {
  }

  predicate AllPlaced(js: Text, pos: nat, toks: seq<Token>)
    requires pos <= |js|
  {
    forall i :: 0 <= i < |toks| ==> Placed(js, pos, toks[i])
  }

  // ---- A new token at the end of the table

  /** `b` is `a` with one token more, up to the sizes. */
  predicate Extends(a: seq<Token>, b: seq<Token>, t: Token) {
    && |b| == |a| + 1 && b[|a|] == t
    && forall i :: 0 <= i < |a| ==> b[i] == a[i].(size := b[i].size)
  }

  lemma AddExtends(links: bool, s: State, kind: Kind, start: int, end: int)
    requires Wf(s)
    ensures Extends(s.toks, Add(links, s, kind, start, end), Token(kind, start, end, 0, if links then s.super else -1))
  {
  }

  lemma PlacedAfterAdd(js: Text, pos: nat, later: nat, a: seq<Token>, b: seq<Token>, t: Token)
    requires pos <= later <= |js| && AllPlaced(js, pos, a) && Extends(a, b, t) && Placed(js, later, t)
    ensures AllPlaced(js, later, b)
  {
  }

  lemma IncreasingAfterAdd(js: Text, pos: nat, a: seq<Token>, b: seq<Token>, t: Token)
    requires pos <= |js| && AllPlaced(js, pos, a) && Increasing(a) && Extends(a, b, t) && pos <= t.start
    ensures Increasing(b)
  {
  }

  lemma LaminarAfterAdd(js: Text, pos: nat, a: seq<Token>, b: seq<Token>, t: Token)
    requires pos <= |js| && AllPlaced(js, pos, a) && Laminar(a) && Extends(a, b, t) && pos <= t.start
    ensures Laminar(b)
  {
  }

  /** An open container and nothing else encloses what comes after the consumed text. */
  lemma NextParent(js: Text, pos: nat, a: seq<Token>, b: seq<Token>, t: Token)
    requires pos <= |js| && AllPlaced(js, pos, a) && Extends(a, b, t) && pos <= t.start
    ensures SameShape(a, b)
    ensures ParentOf(b, |a|) == LastOpen(a, |a|)
  {
    var n, r := |a|, LastOpen(a, |a|);
    forall i | 0 <= i < n ensures Encloses(b, i, n) == a[i].Open() {
      assert Placed(js, pos, a[i]);
    }
    InnermostIs(b, n, n, r);
  }

  lemma SizesAfterAdd(a: seq<Token>, b: seq<Token>, t: Token, super: int)
    requires SizesCount(a) && SameShape(a, b) && Extends(a, b, t) && t.size == 0
    requires -1 <= super < |a| && ParentOf(b, |a|) == super
    requires forall i :: 0 <= i < |a| ==> b[i].size == a[i].size + if i == super then 1 else 0
    ensures SizesCount(b)
  {
    ShapeKeepsParents(a, b);
    forall i | 0 <= i < |b| ensures b[i].size == |Children(b, i)| {
      if i == |a| {
        assert Children(b, i) == {};
      } else if i == super {
        assert Children(b, i) == Children(a, i) + {|a|};
      } else {
        assert Children(b, i) == Children(a, i);
      }
    }
  }

  lemma LinkedAfterAdd(a: seq<Token>, b: seq<Token>, t: Token)
    requires Linked(a) && SameShape(a, b) && Extends(a, b, t) && t.parent == ParentOf(b, |a|)
    ensures Linked(b)
  {
    ShapeKeepsParents(a, b);
  }

  lemma LastOpenAfterAdd(a: seq<Token>, b: seq<Token>, t: Token)
    requires Extends(a, b, t)
    ensures LastOpen(b, |b|) == if t.Open() then |a| else LastOpen(a, |a|)
  {
  }

  /** Appending a token that begins at or after the consumed text keeps the invariant. */
  lemma {:induction false} AddKeeps(links: bool, js: Text, s: State, kind: Kind, start: int, end: int, pos: nat)
    requires Inv(links, js, s) && Wf(s)
    requires s.pos <= start && s.pos <= pos <= |js|
    requires Placed(js, pos, Token(kind, start, end, 0, if links then s.super else -1))
    requires (end == -1) == (kind == Object || kind == Array)
    ensures var super := if end == -1 then |s.toks| else s.super;
            Inv(links, js, State(pos, Add(links, s, kind, start, end), super))
  {
    var t := Token(kind, start, end, 0, if links then s.super else -1);
    var b := Add(links, s, kind, start, end);
    AddExtends(links, s, kind, start, end);
    PlacedAfterAdd(js, s.pos, pos, s.toks, b, t);
    IncreasingAfterAdd(js, s.pos, s.toks, b, t);
    LaminarAfterAdd(js, s.pos, s.toks, b, t);
    NextParent(js, s.pos, s.toks, b, t);
    SizesAfterAdd(s.toks, b, t, s.super);
    LastOpenAfterAdd(s.toks, b, t);
    if links { LinkedAfterAdd(s.toks, b, t); }
  }

  // ---- Closing the innermost open container

  predicate ClosesTop(a: seq<Token>, b: seq<Token>, i: nat, pos: nat) {
    i < |a| && a[i].Open() && LastOpen(a, |a|) == i && b == a[i := a[i].(end := pos + 1)]
  }

  lemma PlacedAfterClose(js: Text, pos: nat, a: seq<Token>, b: seq<Token>, i: nat)
    requires pos < |js| && AllPlaced(js, pos, a) && ClosesTop(a, b, i, pos)
    requires Closes(js[pos]) && a[i].kind == KindOf(js[pos])
    ensures AllPlaced(js, pos + 1, b)
  {
  }

  lemma LaminarAfterClose(js: Text, pos: nat, a: seq<Token>, b: seq<Token>, i: nat)
    requires pos < |js| && AllPlaced(js, pos, a) && Laminar(a) && ClosesTop(a, b, i, pos)
    ensures Laminar(b)
  {
  }

  lemma ShapeAfterClose(js: Text, pos: nat, a: seq<Token>, b: seq<Token>, i: nat)
    requires pos < |js| && AllPlaced(js, pos, a) && ClosesTop(a, b, i, pos)
    ensures SameShape(a, b)
  {
  }

  lemma SizesAfterClose(a: seq<Token>, b: seq<Token>)
    requires SizesCount(a) && SameShape(a, b) && |a| == |b|
    requires forall k :: 0 <= k < |a| ==> a[k].size == b[k].size
    ensures SizesCount(b)
  {
    ShapeKeepsParents(a, b);
    forall k | 0 <= k < |b| ensures Children(b, k) == Children(a, k) {
    }
  }

  lemma LinkedAfterClose(a: seq<Token>, b: seq<Token>)
    requires Linked(a) && SameShape(a, b) && |a| == |b|
    requires forall k :: 0 <= k < |a| ==> a[k].parent == b[k].parent
    ensures Linked(b)
  {
    ShapeKeepsParents(a, b);
  }

  /** The container enclosing the innermost open one is the next open one below it. */
  lemma EnclosesOpenIsOpen(js: Text, pos: nat, a: seq<Token>, i: nat)
    requires pos <= |js| && AllPlaced(js, pos, a) && Laminar(a) && i < |a| && a[i].Open()
    ensures ParentOf(a, i) == LastOpen(a, i)
  {
    forall k | 0 <= k < i ensures Encloses(a, k, i) == a[k].Open() {
      assert Placed(js, pos, a[k]) && Apart(a[k], a[i]);
    }
    InnermostIs(a, i, i, LastOpen(a, i));
  }

  lemma TopAfterClose(a: seq<Token>, b: seq<Token>, i: nat, pos: nat)
    requires ClosesTop(a, b, i, pos)
    ensures LastOpen(b, |b|) == LastOpen(b, i) == LastOpen(a, i)
  {
    LastOpenIs(b, |b|, LastOpen(a, i));
    LastOpenIs(b, i, LastOpen(a, i));
  }

  lemma IncreasingAfterClose(a: seq<Token>, b: seq<Token>, i: nat, pos: nat)
    requires Increasing(a) && ClosesTop(a, b, i, pos)
    ensures Increasing(b)
  {
  }

  lemma TableAfterClose(js: Text, pos: nat, a: seq<Token>, b: seq<Token>, i: nat)
    requires pos < |js| && AllPlaced(js, pos, a) && Increasing(a) && Laminar(a) && SizesCount(a)
    requires ClosesTop(a, b, i, pos) && Closes(js[pos]) && a[i].kind == KindOf(js[pos])
    ensures AllPlaced(js, pos + 1, b) && Increasing(b) && Laminar(b) && SizesCount(b)
    ensures Linked(a) ==> Linked(b)
  {
    PlacedAfterClose(js, pos, a, b, i);
    IncreasingAfterClose(a, b, i, pos);
    LaminarAfterClose(js, pos, a, b, i);
    ShapeAfterClose(js, pos, a, b, i);
    SizesAfterClose(a, b);
    if Linked(a) { LinkedAfterClose(a, b); }
  }

  /** Both builds make the next open container the top of the stack. */
  lemma NextTop(links: bool, js: Text, s: State)
    requires Inv(links, js, s) && s.super != -1
    ensures links ==> s.toks[s.super].parent == LastOpen(s.toks, s.super)
  {
    EnclosesOpenIsOpen(js, s.pos, s.toks, s.super);
  }

  lemma CloseKeeps(links: bool, js: Text, s: State)
    requires Inv(links, js, s) && Wf(s) && s.super != -1
    requires s.pos < |js| && Closes(js[s.pos])
    ensures Inv(links, js, CloseAt(js, s, s.super, links).state)
  {
    hide AllPlaced, Increasing, Laminar, SizesCount, Linked;
    var i := s.super;
    if s.toks[i].kind == KindOf(js[s.pos]) {
      var b := s.toks[i := s.toks[i].(end := s.pos + 1)];
      TableAfterClose(js, s.pos, s.toks, b, i);
      TopAfterClose(s.toks, b, i, s.pos);
      NextTop(links, js, s);
      assert Inv(links, js, State(s.pos + 1, b, LastOpen(s.toks, i)));
    }
  }

  lemma MoveKeeps(links: bool, js: Text, s: State, pos: nat)
    requires Inv(links, js, s) && s.pos <= pos <= |js|
    ensures Inv(links, js, s.(pos := pos))
  {
  }

  /** From any later token, the parent links lead to the innermost open container. */
  lemma {:induction false} ClimbReachesTop(toks: seq<Token>, j: int)
    requires Linked(toks) && LinksPointBack(toks)
    requires forall i :: 0 <= i < |toks| && toks[i].Open() ==> IsContainer(toks[i])
    requires LastOpen(toks, |toks|) <= j < |toks|
    ensures Climb(toks, j) == LastOpen(toks, |toks|)
    decreases j
  {
    var top := LastOpen(toks, |toks|);
    if j > top {
      if top != -1 { assert Encloses(toks, top, j); }
      assert toks[j].parent == ParentOf(toks, j);
      ClimbReachesTop(toks, toks[j].parent);
    }
  }

  lemma ClimbFromEnd(js: Text, s: State)
    requires Inv(true, js, s) && Wf(s)
    ensures Climb(s.toks, |s.toks| - 1) == s.super
  {
    forall i | 0 <= i < |s.toks| && s.toks[i].Open() ensures IsContainer(s.toks[i]) {
      assert Placed(js, s.pos, s.toks[i]);
    }
    ClimbReachesTop(s.toks, |s.toks| - 1);
  }

  /** A closing bracket does the same to the innermost open container in both builds. */
  lemma CloseStep(links: bool, js: Text, cap: nat, s: State)
    requires Inv(links, js, s) && Wf(s) && s.pos < |js| && Closes(js[s.pos])
    ensures s.super != -1 ==> Step(links, js, cap, s) == CloseAt(js, s, s.super, links)
    ensures s.super == -1 ==>
              Step(links, js, cap, s) == if links && |s.toks| >= 1 then Go(s.(pos := s.pos + 1)) else Stop(Inval, s)
  {
    if links { ClimbFromEnd(js, s); }
  }

  /** Every round, in either build, keeps the table a forest listed in preorder,
      with `toksuper` the highest open token. */
  lemma {:induction false} StepKeeps(links: bool, js: Text, cap: nat, s: State)
    requires Inv(links, js, s) && Wf(s) && s.pos < |js|
    ensures Inv(links, js, Step(links, js, cap, s).state)
  {
    var c := js[s.pos];
    if Closes(c) {
      CloseStep(links, js, cap, s);
      if s.super != -1 { CloseKeeps(links, js, s); } else { MoveKeeps(links, js, s, s.pos + 1); }
    } else {
      match Step(links, js, cap, s)
      case Stop(_, _) =>
      case Go(t) => GoKeeps(links, js, cap, s, t);
    }
  }

  lemma GoKeeps(links: bool, js: Text, cap: nat, s: State, t: State)
    requires Inv(links, js, s) && Wf(s) && s.pos < |js| && !Closes(js[s.pos])
    requires Step(links, js, cap, s) == Go(t)
    ensures Inv(links, js, t)
  {
    hide Inv, Add, LastOpen, Climb, CloseByLinks, CloseByScan;
    var c := js[s.pos];
    if Opens(c) {
      AddKeeps(links, js, s, KindOf(c), s.pos, -1, t.pos);
    } else if c == '\"' {
      AddKeeps(links, js, s, Str, s.pos + 1, t.pos - 1, t.pos);
    } else if IsSeparator(c) {
      MoveKeeps(links, js, s, t.pos);
    } else {
      AddKeeps(links, js, s, Primitive, s.pos, t.pos, t.pos);
    }
  }

  lemma {:induction false} RunKeeps(links: bool, js: Text, cap: nat, s: State)
    requires Inv(links, js, s) && Wf(s)
    ensures Inv(links, js, Run(links, js, cap, s).1)
    decreases |js| - s.pos
  {
    if s.pos < |js| {
      StepKeeps(links, js, cap, s);
      match Step(links, js, cap, s)
      case Stop(_, _) =>
      case Go(t) => RunKeeps(links, js, cap, t);
    }
  }

  /** What a table reported as complete is: a preorder listing of a forest of closed tokens. */
  ghost predicate CompleteForest(js: Text, toks: seq<Token>) {
    && (forall i :: 0 <= i < |toks| ==> Placed(js, |js|, toks[i]) && toks[i].end != -1)
    && Increasing(toks)
    && (forall i, j :: 0 <= i < j < |toks| ==>
          toks[i].end <= toks[j].start || (IsContainer(toks[i]) && toks[j].end < toks[i].end))
    && SizesCount(toks)
  }

  /** From a fresh parser, in both builds: the whole run keeps the invariant, a successful
      run leaves a complete forest over the whole text, and a run out of text with
      an open container is never called complete. */
  lemma FreshRun(links: bool, js: Text, cap: nat)
    ensures var (code, s) := Run(links, js, cap, Fresh);
            && Inv(links, js, s)
            && (code == Success ==> s.pos == |js| && s.super == -1 && CompleteForest(js, s.toks))
            && (code == Part && s.pos == |js| ==> s.super != -1)
  {
    RunKeeps(links, js, cap, Fresh);
    EndOfRun(links, js, cap, Fresh);
    var (code, s) := Run(links, js, cap, Fresh);
    if code == Success {
      forall i | 0 <= i < |s.toks| ensures s.toks[i].end != -1 {
        assert Placed(js, s.pos, s.toks[i]) && !s.toks[i].Open();
      }
      forall i, j | 0 <= i < j < |s.toks|
        ensures s.toks[i].end <= s.toks[j].start || (IsContainer(s.toks[i]) && s.toks[j].end < s.toks[i].end)
      {
        assert Apart(s.toks[i], s.toks[j]);
      }
    }
  }

  /** Success is only reported at the end of the text, by the final check. */
  lemma {:induction false} EndOfRun(links: bool, js: Text, cap: nat, s: State)
    requires Wf(s) && s.pos <= |js|
    ensures var (code, t) := Run(links, js, cap, s);
            && (code == Success ==> t.pos == |js|)
            && (t.pos == |js| ==> code == Verdict(t.toks))
            && (t.pos < |js| ==> Step(links, js, cap, t) == Stop(code, t))
    decreases |js| - s.pos
  {
    if s.pos < |js| {
      match Step(links, js, cap, s)
      case Stop(_, _) =>
      case Go(t) => EndOfRun(links, js, cap, t);
    }
  }
}
