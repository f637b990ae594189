/** The texts the tokenizer is for, as trees with their exact layout, and the
    token table each of them stands for. Of the tokenizer only the types are used here. */
module JsmnGrammar {
  import opened JsmnTokens

  datatype Node =
    | Prim(text: string)
    | Quoted(body: string)
    | Box(kind: Kind, kids: Forest)

  /** A list of nodes, each with the separators before it, and the separators at the end. */
  datatype Forest =
    | Nil(trail: string)
    | Cons(sep: string, node: Node, rest: Forest)

  // ---- The characters of the grammar, written out

  predicate SeparatorChar(c: char) {
    c == ' ' || c == ',' || c == ':' || c == '\n' || c == '\r' || c == '\t'
  }

  predicate EscapeChar(c: char) {
    c == 'b' || c == 'f' || c == 'n' || c == 'r' || c == 't' || c == 'u' || c == '\"' || c == '\\' || c == '/'
  }

  predicate ClosingChar(c: char) { c == ']' || c == '}' }

  predicate PrimitiveChar(c: char) {
    32 as char < c < 127 as char && c != ',' && c != ':' && !ClosingChar(c)
  }

  predicate Separators(s: string) {
    forall i :: 0 <= i < |s| ==> SeparatorChar(s[i])
  }

  /** The inside of a string: no bare quote, and every backslash followed by an accepted escape. */
  predicate Body(b: string) {
    b == "" ||
    if b[0] == '\\' then |b| >= 2 && EscapeChar(b[1]) && Body(b[2..])
    else b[0] != '\"' && b[0] != '\0' && Body(b[1..])
  }

  predicate PrimitiveText(t: string) {
    && |t| > 0 && t[0] != '{' && t[0] != '[' && t[0] != '\"'
    && forall i :: 0 <= i < |t| ==> PrimitiveChar(t[i])
  }

  predicate Proper(f: Forest) {
    match f
    case Nil(trail) => Separators(trail)
    case Cons(sep, node, rest) =>
      && Separators(sep) && ProperNode(node) && Proper(rest)
      // nothing but a separator can stand between a primitive and the next node
      && (node.Prim? && rest.Cons? ==> rest.sep != "")
  }

  predicate ProperNode(node: Node) {
    match node
    case Prim(t) => PrimitiveText(t)
    case Quoted(b) => Body(b)
    case Box(kind, kids) => (kind == Object || kind == Array) && Proper(kids)
  }

  function OpenOf(kind: Kind): string { if kind == Object then "{" else "[" }

  function CloseOf(kind: Kind): string { if kind == Object then "}" else "]" }

  function Print(f: Forest): string {
    match f
    case Nil(trail) => trail
    case Cons(sep, node, rest) => sep + PrintNode(node) + Print(rest)
  }

  function PrintNode(node: Node): string {
    match node
    case Prim(t) => t
    case Quoted(b) => "\"" + b + "\""
    case Box(kind, kids) => OpenOf(kind) + Print(kids) + CloseOf(kind)
  }

  /** The number of tokens a forest stands for. */
  function Size(f: Forest): nat {
    match f
    case Nil(_) => 0
    case Cons(_, node, rest) => SizeNode(node) + Size(rest)
  }

  function SizeNode(node: Node): nat {
    if node.Box? then 1 + Size(node.kids) else 1
  }

  /** The number of trees in a forest. */
  function Roots(f: Forest): nat {
    if f.Nil? then 0 else 1 + Roots(f.rest)
  }

  /** The preorder listing of a forest printed at offset `at`: its tokens take the table
      entries from `base` on, and their container is the entry `up`. */
  function Listing(links: bool, f: Forest, at: nat, base: nat, up: int): (r: seq<Token>)
    ensures |r| == Size(f)
  {
    match f
    case Nil(_) => []
    case Cons(sep, node, rest) =>
      ListingNode(links, node, at + |sep|, base, up) +
      Listing(links, rest, at + |sep| + |PrintNode(node)|, base + SizeNode(node), up)
  }

  function ListingNode(links: bool, node: Node, at: nat, base: nat, up: int): (r: seq<Token>)
    ensures |r| == SizeNode(node)
  {
    var parent := if links then up else -1;
    match node
    case Prim(t) => [Token(Primitive, at, at + |t|, 0, parent)]
    case Quoted(b) => [Token(Str, at + 1, at + 1 + |b|, 0, parent)]
    case Box(kind, kids) =>
      [Token(kind, at, at + |PrintNode(node)|, Roots(kids), parent)] + Listing(links, kids, at + 1, base + 1, base)
  }

  lemma {:induction false} BodyHasNoNul(b: string)
    requires Body(b)
    ensures '\0' !in b
  {
    if b != "" {
      if b[0] == '\\' {
        BodyHasNoNul(b[2..]);
        assert b == [b[0], b[1]] + b[2..];
      } else {
        BodyHasNoNul(b[1..]);
        assert b == [b[0]] + b[1..];
      }
    }
  }

  /** What a proper forest prints is a C string. */
  lemma {:induction false} PrintHasNoNul(f: Forest)
    requires Proper(f)
    ensures '\0' !in Print(f)
  {
    match f
    case Nil(trail) =>
    case Cons(sep, node, rest) =>
      PrintHasNoNul(rest);
      match node
      case Prim(t) =>
      case Quoted(b) => BodyHasNoNul(b);
      case Box(_, kids) => PrintHasNoNul(kids);
  }
}
