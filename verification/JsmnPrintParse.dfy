/** Printing and then tokenizing: every proper forest comes back as its listing. */
module JsmnPrintParse {
  import opened JsmnTokens
  import opened JsmnForest
  import opened JsmnGrammar

  /** `text` stands in `js` at offset `at`. */
  predicate Here(js: Text, at: nat, text: string) {
    at + |text| <= |js| && js[at..at + |text|] == text
  }

  lemma HereSplit(js: Text, at: nat, a: string, b: string)
    requires Here(js, at, a + b)
    ensures Here(js, at, a) && Here(js, at + |a|, b)
  {
    assert js[at..at + |a|] == js[at..at + |a + b|][..|a|];
    assert js[at + |a|..at + |a| + |b|] == js[at..at + |a + b|][|a|..];
  }

  /** A state in which the stack top is the highest open token. */
  predicate Standing(s: State) {
    Wf(s) && s.super == LastOpen(s.toks, |s.toks|)
  }

  /** `n` more children for the container on top of the stack. */
  function BumpBy(toks: seq<Token>, super: int, n: nat): (r: seq<Token>)
    requires -1 <= super < |toks|
    ensures |r| == |toks|
    ensures forall i :: 0 <= i < |toks| ==> r[i] == toks[i].(size := toks[i].size + if i == super then n else 0)
  {
    if super == -1 then toks else toks[super := toks[super].(size := toks[super].size + n)]
  }

  /** The state after a piece of text has been taken: `n` new children of the open
      container, `more` new tokens, and the stack as it was. */
  function Taken(s: State, length: nat, n: nat, more: seq<Token>): State
    requires -1 <= s.super < |s.toks|
  {
    State(s.pos + length, BumpBy(s.toks, s.super, n) + more, s.super)
  }

  /** Tokens that are all closed, listed from table entry `base` on, with links that
      stay among them or go to a container not below `up`. */
  predicate Settled(links: bool, l: seq<Token>, base: nat, up: int) {
    forall i :: 0 <= i < |l| ==>
      !l[i].Open() && if links then up <= l[i].parent < base + i else l[i].parent == -1
  }

  lemma SettledConcat(links: bool, a: seq<Token>, b: seq<Token>, base: nat, up: int, up': int)
    requires Settled(links, a, base, up) && Settled(links, b, base + |a|, up') && up <= up'
    ensures Settled(links, a + b, base, up)
  {
  }

  lemma {:induction false} ListingSettled(links: bool, f: Forest, at: nat, base: nat, up: int)
    requires -1 <= up < base || up == -1
    ensures Settled(links, Listing(links, f, at, base, up), base, up)
    decreases f, 1
  {
    match f
    case Nil(_) =>
    case Cons(sep, node, rest) =>
      ListingNodeSettled(links, node, at + |sep|, base, up);
      var next := at + |sep| + |PrintNode(node)|;
      ListingSettled(links, rest, next, base + SizeNode(node), up);
      SettledConcat(links, ListingNode(links, node, at + |sep|, base, up),
                    Listing(links, rest, next, base + SizeNode(node), up), base, up, up);
  }

  lemma {:induction false} ListingNodeSettled(links: bool, node: Node, at: nat, base: nat, up: int)
    requires -1 <= up < base || up == -1
    ensures Settled(links, ListingNode(links, node, at, base, up), base, up)
    decreases node, 0
  {
    if node.Box? {
      ListingSettled(links, node.kids, at + 1, base + 1, base);
      SettledConcat(links, ListingNode(links, node, at, base, up)[..1],
                    Listing(links, node.kids, at + 1, base + 1, base), base, up, base);
    }
  }

  /** Taking settled tokens leaves the parser standing. */
  lemma TakenStands(links: bool, s: State, length: nat, n: nat, more: seq<Token>)
    requires Standing(s) && Settled(links, more, |s.toks|, -1)
    ensures Standing(Taken(s, length, n, more))
  {
    var t := Taken(s, length, n, more);
    forall k | s.super < k < |t.toks| ensures !t.toks[k].Open() {
      if k >= |s.toks| { assert t.toks[k] == more[k - |s.toks|]; }
    }
    LastOpenIs(t.toks, |t.toks|, s.super);
  }

  lemma SettledLower(links: bool, l: seq<Token>, base: nat, up: int)
    requires Settled(links, l, base, up) && -1 <= up
    ensures Settled(links, l, base, -1)
  {
  }

  /** A call that stands in state `s` will end as a call that stands in state `t`. */
  predicate Reaches(links: bool, js: Text, cap: nat, s: State, t: State) {
    && Standing(s) && Standing(t) && s.pos <= |js| && t.pos <= |js|
    && Run(links, js, cap, s) == Run(links, js, cap, t)
  }

  lemma StepReaches(links: bool, js: Text, cap: nat, s: State, length: nat, n: nat, more: seq<Token>)
    requires Standing(s) && s.pos < |js| && Settled(links, more, |s.toks|, -1)
    requires Step(links, js, cap, s) == Go(Taken(s, length, n, more))
    ensures Reaches(links, js, cap, s, Taken(s, length, n, more))
  {
    TakenStands(links, s, length, n, more);
  }

  lemma TakeSeparator(links: bool, js: Text, cap: nat, s: State)
    requires Wf(s) && s.pos < |js| && IsSeparator(js[s.pos])
    ensures Run(links, js, cap, s) == Run(links, js, cap, s.(pos := s.pos + 1))
  {
    assert Step(links, js, cap, s) == Go(s.(pos := s.pos + 1));
    hide Step;
  }

  lemma FirstSeparator(js: Text, at: nat, sep: string)
    requires sep != "" && Separators(sep) && Here(js, at, sep)
    ensures at < |js| && IsSeparator(js[at]) && Separators(sep[1..]) && Here(js, at + 1, sep[1..])
  {
    assert js[at] == sep[0];
  }

  lemma {:induction false} TakeSeparators(links: bool, js: Text, cap: nat, s: State, sep: string)
    requires Wf(s) && Separators(sep) && Here(js, s.pos, sep)
    ensures Run(links, js, cap, s) == Run(links, js, cap, s.(pos := s.pos + |sep|))
    decreases |sep|
  {
    hide Run, Step, Separators;
    if sep != "" {
      FirstSeparator(js, s.pos, sep);
      TakeSeparator(links, js, cap, s);
      TakeSeparators(links, js, cap, s.(pos := s.pos + 1), sep[1..]);
    }
  }

  lemma {:induction false} ScanPrimitive(js: Text, at: nat, t: string)
    requires forall i :: 0 <= i < |t| ==> Printable(t[i]) && !EndsPrimitive(t[i])
    requires Here(js, at, t)
    requires at + |t| == |js| || EndsPrimitive(js[at + |t|])
    ensures PrimitiveScan(js, at) == Ends(at + |t|)
    decreases |t|
  {
    if t != "" {
      assert t == t[..1] + t[1..];
      HereSplit(js, at, t[..1], t[1..]);
      assert js[at] == t[0];
      ScanPrimitive(js, at + 1, t[1..]);
    }
  }

  lemma {:induction false} ScanBody(js: Text, at: nat, b: string)
    requires Body(b) && Here(js, at, b + "\"")
    ensures StringScan(js, at) == Ends(at + |b|)
    decreases |b|
  {
    if b == "" {
      assert js[at] == (b + "\"")[0];
    } else {
      var n := if b[0] == '\\' then 2 else 1;
      assert b + "\"" == b[..n] + (b[n..] + "\"");
      HereSplit(js, at, b[..n], b[n..] + "\"");
      assert forall k :: 0 <= k < n ==> js[at + k] == b[k] by {
        assert forall k :: 0 <= k < n ==> js[at..at + n][k] == b[..n][k];
      }
      ScanBody(js, at + n, b[n..]);
    }
  }

  /** The chain of links from any later token stops at the open container `n`. */
  lemma {:induction false} ClimbTo(toks: seq<Token>, n: nat, j: nat)
    requires LinksPointBack(toks) && n <= j < |toks| && toks[n].Open()
    requires forall k :: n < k < |toks| ==> !toks[k].Open() && n <= toks[k].parent
    ensures Climb(toks, j) == n
    decreases j
  {
    if j > n { ClimbTo(toks, n, toks[j].parent); }
  }

  function BoxToken(links: bool, s: State, kind: Kind, end: int, n: nat): Token {
    Token(kind, s.pos, end, n, if links then s.super else -1)
  }

  /** `u` stands inside a container opened in `s`, with `n` children and the tokens `more` listed in it. */
  predicate Inside(links: bool, s: State, u: State, kind: Kind, n: nat, more: seq<Token>) {
    && Standing(s) && Standing(u)
    && s.pos < u.pos && u.super == |s.toks|
    && (kind == Object || kind == Array)
    && Settled(links, more, |s.toks| + 1, |s.toks|)
    && u.toks == BumpBy(s.toks, s.super, 1) + [BoxToken(links, s, kind, -1, n)] + more
  }

  /** The closing bracket finds the right container, by either search. */
  lemma ClosesTop(links: bool, js: Text, cap: nat, s: State, u: State, kind: Kind, n: nat, more: seq<Token>)
    requires Inside(links, s, u, kind, n, more)
    requires u.pos < |js| && js[u.pos] == CloseOf(kind)[0]
    ensures Step(links, js, cap, u) == CloseAt(js, u, |s.toks|, links)
  {
    var top := |s.toks|;
    forall k | top < k < |u.toks| ensures u.toks[k] == more[k - top - 1] {
    }
    if links { ClimbTo(u.toks, top, |u.toks| - 1); }
  }

  /** Once all children are listed, the closing bracket closes the right container
      and the stack is as it was before the opening bracket. */
  lemma CloseBox(links: bool, js: Text, cap: nat, s: State, u: State, kind: Kind, n: nat, more: seq<Token>)
    requires Inside(links, s, u, kind, n, more)
    requires u.pos < |js| && js[u.pos] == CloseOf(kind)[0]
    ensures Step(links, js, cap, u) ==
            Go(Taken(s, u.pos + 1 - s.pos, 1, [BoxToken(links, s, kind, u.pos + 1, n)] + more))
  {
    ClosesTop(links, js, cap, s, u, kind, n, more);
    hide Step, Climb;
    var top := |s.toks|;
    var toks := u.toks[top := u.toks[top].(end := u.pos + 1)];
    LastOpenIs(toks, top, s.super);
    assert toks == BumpBy(s.toks, s.super, 1) + ([BoxToken(links, s, kind, u.pos + 1, n)] + more);
  }

  lemma TakePrim(links: bool, js: Text, cap: nat, s: State, node: Node)
    requires Standing(s) && node.Prim? && ProperNode(node) && Here(js, s.pos, PrintNode(node))
    requires |s.toks| < cap
    requires var e := s.pos + |PrintNode(node)|; e == |js| || EndsPrimitive(js[e])
    ensures Step(links, js, cap, s) ==
            Go(Taken(s, |PrintNode(node)|, 1, ListingNode(links, node, s.pos, |s.toks|, s.super)))
  {
    ScanPrimitive(js, s.pos, node.text);
    assert js[s.pos] == node.text[0];
  }

  lemma TakeQuoted(links: bool, js: Text, cap: nat, s: State, node: Node)
    requires Standing(s) && node.Quoted? && ProperNode(node) && Here(js, s.pos, PrintNode(node))
    requires |s.toks| < cap
    ensures Step(links, js, cap, s) ==
            Go(Taken(s, |PrintNode(node)|, 1, ListingNode(links, node, s.pos, |s.toks|, s.super)))
  {
    assert PrintNode(node) == "\"" + (node.body + "\"");
    HereSplit(js, s.pos, "\"", node.body + "\"");
    ScanBody(js, s.pos + 1, node.body);
    assert js[s.pos] == '\"';
  }

  /** The opening bracket of a container puts it on top of the stack. */
  function Opened(links: bool, s: State, kind: Kind): State
    requires -1 <= s.super < |s.toks|
  {
    State(s.pos + 1, BumpBy(s.toks, s.super, 1) + [BoxToken(links, s, kind, -1, 0)], |s.toks|)
  }

  lemma OpenReaches(links: bool, js: Text, cap: nat, s: State, kind: Kind)
    requires Standing(s) && (kind == Object || kind == Array) && |s.toks| < cap
    requires s.pos < |js| && js[s.pos] == OpenOf(kind)[0]
    ensures Reaches(links, js, cap, s, Opened(links, s, kind))
  {
  }

  lemma {:induction false} TakeNode(links: bool, js: Text, cap: nat, s: State, node: Node)
    requires Standing(s) && ProperNode(node) && Here(js, s.pos, PrintNode(node))
    requires |s.toks| + SizeNode(node) <= cap
    requires var e := s.pos + |PrintNode(node)|; node.Prim? ==> e == |js| || EndsPrimitive(js[e])
    ensures Reaches(links, js, cap, s,
                    Taken(s, |PrintNode(node)|, 1, ListingNode(links, node, s.pos, |s.toks|, s.super)))
    decreases node, 0
  {
    var more := ListingNode(links, node, s.pos, |s.toks|, s.super);
    ListingNodeSettled(links, node, s.pos, |s.toks|, s.super);
    SettledLower(links, more, |s.toks|, s.super);
    if node.Box? {
      TakeKids(links, js, cap, s, node.kind, node.kids);
      TakenStands(links, s, |PrintNode(node)|, 1, more);
    } else {
      if node.Prim? { TakePrim(links, js, cap, s, node); } else { TakeQuoted(links, js, cap, s, node); }
      StepReaches(links, js, cap, s, |PrintNode(node)|, 1, more);
    }
  }

  lemma SplitBox(js: Text, at: nat, kind: Kind, kids: Forest)
    requires Here(js, at, PrintNode(Box(kind, kids)))
    ensures js[at] == OpenOf(kind)[0]
    ensures Here(js, at + 1, Print(kids))
    ensures at + 1 + |Print(kids)| < |js| && js[at + 1 + |Print(kids)|] == CloseOf(kind)[0]
  {
    var inner := Print(kids);
    assert PrintNode(Box(kind, kids)) == OpenOf(kind) + (inner + CloseOf(kind));
    HereSplit(js, at, OpenOf(kind), inner + CloseOf(kind));
    HereSplit(js, at + 1, inner, CloseOf(kind));
    assert js[at..at + 1][0] == OpenOf(kind)[0];
  }

  /** The state in which all children of a container have been listed. */
  function Listed(links: bool, s: State, kind: Kind, kids: Forest): State
    requires -1 <= s.super < |s.toks|
  {
    Taken(Opened(links, s, kind), |Print(kids)|, Roots(kids), Listing(links, kids, s.pos + 1, |s.toks| + 1, |s.toks|))
  }

  lemma {:induction false} TakeKids(links: bool, js: Text, cap: nat, s: State, kind: Kind, kids: Forest)
    requires Standing(s) && ProperNode(Box(kind, kids)) && Here(js, s.pos, PrintNode(Box(kind, kids)))
    requires |s.toks| + 1 + Size(kids) <= cap
    ensures var node := Box(kind, kids);
            var t := Taken(s, |PrintNode(node)|, 1, ListingNode(links, node, s.pos, |s.toks|, s.super));
            Wf(t) && t.pos <= |js| && Run(links, js, cap, s) == Run(links, js, cap, t)
    decreases kids, 2
  {
    hide Run, Step;
    SplitBox(js, s.pos, kind, kids);
    OpenReaches(links, js, cap, s, kind);
    assert Proper(kids) && EndsPrimitive(js[s.pos + 1 + |Print(kids)|]);
    hide LastOpen, Print, PrintNode, Proper, ProperNode, Size, Listing, ListingNode, Roots, Here, EndsPrimitive, BumpBy;
    TakeForest(links, js, cap, Opened(links, s, kind), kids);
    InsideBox(links, s, kind, kids);
    FinishBox(links, js, cap, s, Listed(links, s, kind, kids), kind, kids);
  }

  /** The closing bracket after the children completes the container. */
  lemma StepFinishes(links: bool, js: Text, cap: nat, s: State, u: State, kind: Kind, kids: Forest)
    requires Inside(links, s, u, kind, Roots(kids), Listing(links, kids, s.pos + 1, |s.toks| + 1, |s.toks|))
    requires u.pos == s.pos + 1 + |Print(kids)| < |js| && js[u.pos] == CloseOf(kind)[0]
    ensures var node := Box(kind, kids);
            Step(links, js, cap, u) ==
            Go(Taken(s, |PrintNode(node)|, 1, ListingNode(links, node, s.pos, |s.toks|, s.super)))
  {
    hide *;
    var more := Listing(links, kids, s.pos + 1, |s.toks| + 1, |s.toks|);
    CloseBox(links, js, cap, s, u, kind, Roots(kids), more);
    BoxListing(links, s.pos, |s.toks|, s.super, kind, kids);
    ClosedToken(links, s, kind, u.pos + 1, Roots(kids));
  }

  lemma ClosedToken(links: bool, s: State, kind: Kind, end: nat, n: nat)
    ensures BoxToken(links, s, kind, end, n) == Token(kind, s.pos, end, n, if links then s.super else -1)
  {
  }

  lemma FinishBox(links: bool, js: Text, cap: nat, s: State, u: State, kind: Kind, kids: Forest)
    requires Inside(links, s, u, kind, Roots(kids), Listing(links, kids, s.pos + 1, |s.toks| + 1, |s.toks|))
    requires u.pos == s.pos + 1 + |Print(kids)| < |js| && js[u.pos] == CloseOf(kind)[0]
    ensures var node := Box(kind, kids);
            var t := Taken(s, |PrintNode(node)|, 1, ListingNode(links, node, s.pos, |s.toks|, s.super));
            Wf(t) && t.pos <= |js| && Run(links, js, cap, u) == Run(links, js, cap, t)
  {
    hide Step, Run;
    StepFinishes(links, js, cap, s, u, kind, kids);
    GoesOn(links, js, cap, u);
  }

  lemma GoesOn(links: bool, js: Text, cap: nat, s: State)
    requires Wf(s) && s.pos < |js| && Step(links, js, cap, s).Go?
    ensures Run(links, js, cap, s) == Run(links, js, cap, Step(links, js, cap, s).state)
  {
  }

  lemma InsideBox(links: bool, s: State, kind: Kind, kids: Forest)
    requires Standing(s) && (kind == Object || kind == Array)
    requires Standing(Listed(links, s, kind, kids))
    ensures Inside(links, s, Listed(links, s, kind, kids), kind, Roots(kids),
                   Listing(links, kids, s.pos + 1, |s.toks| + 1, |s.toks|))
  {
    ListingSettled(links, kids, s.pos + 1, |s.toks| + 1, |s.toks|);
    var more := Listing(links, kids, s.pos + 1, |s.toks| + 1, |s.toks|);
    OpenedTaken(links, s, kind, |Print(kids)|, Roots(kids), more);
  }

  lemma BoxListing(links: bool, at: nat, base: nat, up: int, kind: Kind, kids: Forest)
    ensures |PrintNode(Box(kind, kids))| == |Print(kids)| + 2
    ensures ListingNode(links, Box(kind, kids), at, base, up) ==
            [Token(kind, at, at + |Print(kids)| + 2, Roots(kids), if links then up else -1)]
            + Listing(links, kids, at + 1, base + 1, base)
  {
  }

  lemma OpenedTaken(links: bool, s: State, kind: Kind, length: nat, n: nat, more: seq<Token>)
    requires -1 <= s.super < |s.toks|
    ensures Taken(Opened(links, s, kind), length, n, more).toks ==
            BumpBy(s.toks, s.super, 1) + [BoxToken(links, s, kind, -1, n)] + more
  {
  }

  lemma PrintCons(f: Forest)
    requires f.Cons?
    ensures Print(f) == f.sep + (PrintNode(f.node) + Print(f.rest))
  {
  }

  /** Where the parts of a printed forest stand. */
  lemma SplitCons(js: Text, at: nat, f: Forest)
    requires f.Cons? && Proper(f) && Here(js, at, Print(f))
    requires var e := at + |Print(f)|; e == |js| || EndsPrimitive(js[e])
    ensures Here(js, at, f.sep) && Here(js, at + |f.sep|, PrintNode(f.node))
    ensures var e := at + |f.sep| + |PrintNode(f.node)|;
            && |Print(f)| == |f.sep| + |PrintNode(f.node)| + |Print(f.rest)| && Here(js, e, Print(f.rest))
            && (f.node.Prim? ==> e == |js| || EndsPrimitive(js[e]))
  {
    hide Print, PrintNode, Here, Separators, ProperNode;
    var Cons(sep, node, rest) := f;
    PrintCons(f);
    HereSplit(js, at, sep, PrintNode(node) + Print(rest));
    HereSplit(js, at + |sep|, PrintNode(node), Print(rest));
    if node.Prim? { AfterPrimitive(js, at + |sep| + |PrintNode(node)|, rest); }
  }

  lemma TakeTrail(links: bool, js: Text, cap: nat, s: State, f: Forest)
    requires Standing(s) && f.Nil? && Proper(f) && Here(js, s.pos, Print(f))
    ensures Reaches(links, js, cap, s, Taken(s, |Print(f)|, Roots(f), Listing(links, f, s.pos, |s.toks|, s.super)))
  {
    hide Run, Step;
    TakeSeparators(links, js, cap, s, f.trail);
    TakenNothing(s, |f.trail|);
  }

  lemma {:induction false} TakeForest(links: bool, js: Text, cap: nat, s: State, f: Forest)
    requires Standing(s) && Proper(f) && Here(js, s.pos, Print(f))
    requires |s.toks| + Size(f) <= cap
    requires var e := s.pos + |Print(f)|; e == |js| || EndsPrimitive(js[e])
    ensures Reaches(links, js, cap, s, Taken(s, |Print(f)|, Roots(f), Listing(links, f, s.pos, |s.toks|, s.super)))
    decreases f, 1
  {
    hide Run, Step;
    if f.Nil? {
      TakeTrail(links, js, cap, s, f);
    } else {
      SplitCons(js, s.pos, f);
      TakeFirst(links, js, cap, s, f);
      TakeForest(links, js, cap, AfterFirst(links, s, f), f.rest);
      ConsTaken(links, s, f);
    }
  }

  lemma {:induction false} TakeFirst(links: bool, js: Text, cap: nat, s: State, f: Forest)
    requires f.Cons? && Standing(s) && Separators(f.sep) && ProperNode(f.node)
    requires Here(js, s.pos, f.sep) && Here(js, s.pos + |f.sep|, PrintNode(f.node))
    requires |s.toks| + SizeNode(f.node) <= cap
    requires var e := s.pos + |f.sep| + |PrintNode(f.node)|; f.node.Prim? ==> e == |js| || EndsPrimitive(js[e])
    ensures Reaches(links, js, cap, s, AfterFirst(links, s, f))
    decreases f, 0
  {
    hide Run, Step;
    TakeSeparators(links, js, cap, s, f.sep);
    TakeNode(links, js, cap, s.(pos := s.pos + |f.sep|), f.node);
  }

  /** The state after the first tree of a forest. */
  function AfterFirst(links: bool, s: State, f: Forest): State
    requires f.Cons? && -1 <= s.super < |s.toks|
  {
    var s1 := s.(pos := s.pos + |f.sep|);
    Taken(s1, |PrintNode(f.node)|, 1, ListingNode(links, f.node, s1.pos, |s1.toks|, s1.super))
  }

  lemma ConsTaken(links: bool, s: State, f: Forest)
    requires f.Cons? && -1 <= s.super < |s.toks|
    ensures var t := AfterFirst(links, s, f);
            Taken(t, |Print(f.rest)|, Roots(f.rest), Listing(links, f.rest, t.pos, |t.toks|, t.super)) ==
            Taken(s, |Print(f)|, Roots(f), Listing(links, f, s.pos, |s.toks|, s.super))
  {
  }

  lemma TakenNothing(s: State, length: nat)
    requires -1 <= s.super < |s.toks|
    ensures Taken(s, length, 0, []) == s.(pos := s.pos + length)
  {
  }

  /** What follows a primitive in a proper forest ends it. */
  lemma AfterPrimitive(js: Text, at: nat, rest: Forest)
    requires Proper(rest) && Here(js, at, Print(rest)) && (rest.Cons? ==> rest.sep != "")
    requires var e := at + |Print(rest)|; e == |js| || EndsPrimitive(js[e])
    ensures at == |js| || EndsPrimitive(js[at])
  {
  }

  /** In both builds, the printed text of every proper forest is accepted by a table with
      enough slots, and the table is exactly the forest's preorder listing. */
  lemma PrintThenParse(links: bool, f: Forest, cap: nat)
    requires Proper(f) && Size(f) <= cap
    ensures '\0' !in Print(f)
    ensures Run(links, Print(f), cap, Fresh) == (Success, State(|Print(f)|, Listing(links, f, 0, 0, -1), -1))
  {
    PrintHasNoNul(f);
    var js: Text := Print(f);
    assert Here(js, 0, js) by { assert js[0..|js|] == js; }
    TakeForest(links, js, cap, Fresh, f);
    var l := Listing(links, f, 0, 0, -1);
    assert Taken(Fresh, |js|, Roots(f), l) == State(|js|, l, -1) by { assert [] + l == l; }
  }
}
