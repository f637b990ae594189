/** The allocator and the client's buffer together: one client that connects again and again,
    while the server serves others and restarts in between. */
module Reconnects {
  import opened PrefixManager
  import opened CStrings
  import ClientHandshake

  /** Each gap keeps the file within the part that is read, and each connection gets a prefix. */
  predicate Served(r: Range, b: Book, id: string, gaps: seq<seq<Op>>)
    requires r.Valid()
    decreases |gaps|
  {
    gaps == [] ||
    (WithinLimit(r, b, gaps[0]) &&
     var (c, p) := DoGet(r, ApplyAll(r, b, gaps[0]), id);
     p.Some? && Served(r, c, id, gaps[1..]))
  }

  /** The prefixes the client is given, one for each connection. */
  function Given(r: Range, b: Book, id: string, gaps: seq<seq<Op>>): (ps: seq<string>)
    requires r.Valid() && Served(r, b, id, gaps)
    ensures |ps| == |gaps|
    decreases |gaps|
  {
    if gaps == [] then []
    else
      var (c, p) := DoGet(r, ApplyAll(r, b, gaps[0]), id);
      [p.value] + Given(r, c, id, gaps[1..])
  }

  lemma {:induction false} HexIsPlain(n: nat, digits: nat)
    ensures var s := Hex(n, digits); '\0' !in s && '\"' !in s && '\\' !in s
    decreases digits
  {
    if digits > 0 { HexIsPlain(n / 16, digits - 1); }
  }

  /** What the allocator hands out fits the client's buffer and needs no escapes. */
  lemma RenderIsPlain(i: uint64)
    ensures ClientHandshake.PlainPrefix(Render(i)) && |Render(i)| == 21
  {
    HexIsPlain(i, 16);
  }

  /** One connection: the prefix given is the id's from then on, and the server stays in order. */
  lemma OneConnection(r: Range, b: Book, id: string, gap: seq<Op>)
    requires BookInv(r, b) && FileTracks(b) && WithinLimit(r, b, gap)
    requires DoGet(r, ApplyAll(r, b, gap), id).1.Some?
    ensures var (c, p) := DoGet(r, ApplyAll(r, b, gap), id);
            && BookInv(r, c) && FileTracks(c)
            && id in c.prefixes && c.prefixes[id] == p.value
            && (id in b.prefixes ==> p.value == b.prefixes[id])
            && InRange(r, p.value)
  {
    AssignmentsSurvive(r, b, gap);
    var m := ApplyAll(r, b, gap);
    GetKeeps(r, m, id);
    GetTracks(r, m, id);
    Allocates(r, m, id);
  }

  lemma {:induction false} SameAgain(r: Range, b: Book, id: string, gaps: seq<seq<Op>>)
    requires BookInv(r, b) && FileTracks(b) && Served(r, b, id, gaps) && id in b.prefixes
    ensures forall k :: 0 <= k < |gaps| ==> Given(r, b, id, gaps)[k] == b.prefixes[id]
    decreases |gaps|
  {
    if gaps != [] {
      OneConnection(r, b, id, gaps[0]);
      SameAgain(r, DoGet(r, ApplyAll(r, b, gaps[0]), id).0, id, gaps[1..]);
    }
  }

  lemma GivenAreEqual(r: Range, b: Book, id: string, gaps: seq<seq<Op>>)
    requires BookInv(r, b) && FileTracks(b) && Served(r, b, id, gaps) && gaps != []
    ensures var ps := Given(r, b, id, gaps);
            (forall k :: 0 <= k < |ps| ==> ps[k] == ps[0]) && ClientHandshake.PlainPrefix(ps[0]) && |ps[0]| == 21
  {
    OneConnection(r, b, id, gaps[0]);
    var (c, p) := DoGet(r, ApplyAll(r, b, gaps[0]), id);
    SameAgain(r, c, id, gaps[1..]);
    var i: uint64 :| r.Contains(i) && p.value == Render(i);
    RenderIsPlain(i);
  }

  /** The client's buffer before its first connection. */
  const Cleared: seq<char> := seq(ClientHandshake.PREFIX_BUFFER, _ => '\0')

  /** However often a client reconnects, and whatever the server does in between, restarts included: every
      reply carries the same prefix, and after all of them the client's uncleared buffer reads as exactly that one. */
  lemma ClientKeepsItsPrefix(r: Range, b: Book, id: string, gaps: seq<seq<Op>>)
    requires BookInv(r, b) && FileTracks(b) && Served(r, b, id, gaps) && gaps != []
    ensures var ps := Given(r, b, id, gaps);
            && (forall k :: 0 <= k < |ps| ==> ps[k] == ps[0])
            && ClientHandshake.PlainReplies(ps)
            && var held := ClientHandshake.AfterReplies(Cleared, ps);
               held.Stored? && |held.buf| == ClientHandshake.PREFIX_BUFFER && CStringAt(held.buf, 0) == ps[0]
  {
    GivenAreEqual(r, b, id, gaps);
    ClientHandshake.ReconnectsKeepPrefix(Given(r, b, id, gaps)[0], Given(r, b, id, gaps), Cleared);
  }
}
