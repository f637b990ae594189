/** How the tunnel client takes its prefix out of the server's reply: the
    token lookup of `get_prefix` over the verified tokenizer, and the buffer it
    copies into without clearing. */
module ClientHandshake {
  import opened JsmnTokens
  import opened JsmnGrammar
  import opened JsmnParser
  import JsmnPrintParse
  import JsmnLanguage
  import JsmnCodes
  import opened CStrings

  const PREFIX_BUFFER := 48
  const MAX_TOKENS := 10
  const MAC_LENGTH := 17

  function TokenText(js: Text, t: Token): string {
    if 0 <= t.start <= t.end <= |js| then js[t.start..t.end] else ""
  }

  datatype Lookup =
    | Found(at: nat)
    | Absent
    | ReadsUnset   // the loop goes on into tokens the parser has not filled

  /** The search loop from token `i` on: the first of the tokens 0 to 8 that spells `Prefix`. */
  function FindKey(js: Text, toks: seq<Token>, i: nat): (r: Lookup)
    ensures r.Found? ==> i <= r.at < 9 && r.at < |toks|
    decreases 9 - i
  {
    if i >= 9 then Absent
    else if i >= |toks| then ReadsUnset
    else if TokenText(js, toks[i]) == "Prefix" then Found(i)
    else FindKey(js, toks, i + 1)
  }

  /** What is found is the first token that spells `Prefix`, and none of nine does when it is absent. */
  lemma {:induction false} FindsFirst(js: Text, toks: seq<Token>, i: nat)
    ensures var r := FindKey(js, toks, i);
            && (r.Found? ==> TokenText(js, toks[r.at]) == "Prefix")
            && (r == Absent && i < 9 ==> |toks| >= 9)
            && (forall k :: i <= k < |toks| && k < (if r.Found? then r.at else 9) ==>
                  TokenText(js, toks[k]) != "Prefix")
    decreases 9 - i
  {
    hide TokenText;
    if i < 9 && i < |toks| && TokenText(js, toks[i]) != "Prefix" {
      FindsFirst(js, toks, i + 1);
    }
  }

  /** The buffer after copying `text` to its beginning. */
  function Overlay(buf: seq<char>, text: string): (r: seq<char>)
    requires |text| <= |buf|
    ensures |r| == |buf|
  {
    text + buf[|text|..]
  }

  datatype Outcome = Stored(buf: seq<char>) | Failed(buf: seq<char>) | Undefined

  /** What the reply does to the prefix buffer. */
  function Handle(js: Text, buf: seq<char>): Outcome
    requires |buf| == PREFIX_BUFFER
  {
    var (code, s) := Run(false, js, MAX_TOKENS, Fresh);
    if code != Success then Failed(buf)
    else
      match FindKey(js, s.toks, 0)
      case ReadsUnset => Undefined
      case Absent => Finish(buf)
      case Found(i) =>
        if i + 1 >= |s.toks| then Undefined
        else
          var text := TokenText(js, s.toks[i + 1]);
          if |text| > PREFIX_BUFFER then Undefined else Finish(Overlay(buf, text))
  }

  /** The final test: an empty buffer is reported as a failure. */
  function Finish(buf: seq<char>): Outcome
    requires |buf| == PREFIX_BUFFER
  {
    if buf[0] == '\0' then Failed(buf) else Stored(buf)
  }

  /** The request for an address: the whole of it is sent if the address has no NUL in it. */
  function Request(mac: seq<char>): seq<char> {
    "{\"Id\":\"" + mac + "\"}"
  }

  lemma RequestIsWhole(mac: seq<char>)
    requires '\0' !in mac
    ensures CStringAt(Request(mac), 0) == Request(mac)
  {
    CStringWhole(Request(mac), 0);
  }

  const JSON_ID := "{\"Id\":\"00:11:22:33:44:55\"}"

  class Client {
    const jsonId: array<char>
    const prefix: array<char>

    constructor ()
      ensures jsonId.Length == |JSON_ID| && prefix.Length == PREFIX_BUFFER
      ensures jsonId != prefix && fresh(jsonId) && fresh(prefix)
      ensures jsonId[..] == JSON_ID
      ensures forall i :: 0 <= i < PREFIX_BUFFER ==> prefix[i] == '\0'
    {
      var id := new char[|JSON_ID|](i requires 0 <= i < |JSON_ID| => JSON_ID[i]);
      var p := new char[PREFIX_BUFFER](_ => '\0');
      jsonId, prefix := id, p;
    }

    /** Puts the client's hardware address into the request. */
    method WriteId(mac: seq<char>) returns (sent: seq<char>)
      requires jsonId.Length == |JSON_ID| && |mac| >= MAC_LENGTH
      requires jsonId[..7] == JSON_ID[..7] && jsonId[24..] == JSON_ID[24..]
      modifies jsonId
      ensures jsonId[..7] == JSON_ID[..7] && jsonId[24..] == JSON_ID[24..]
      ensures sent == CStringAt(Request(mac[..MAC_LENGTH]), 0)
    {
      forall i | 0 <= i < MAC_LENGTH { jsonId[7 + i] := mac[i]; }
      assert jsonId[..] == jsonId[..7] + mac[..MAC_LENGTH] + jsonId[24..];
      assert JSON_ID[..7] == "{\"Id\":\"" && JSON_ID[24..] == "\"}";
      assert jsonId[..] == Request(mac[..MAC_LENGTH]);
      sent := CStringAt(jsonId[..], 0);
    }

    /** Parses the reply and copies the value of its `Prefix` key to the beginning of the buffer. */
    method StorePrefix(js: Text) returns (ok: bool, defined: bool)
      requires prefix.Length == PREFIX_BUFFER
      modifies prefix
      ensures match Handle(js, old(prefix[..]))
              case Undefined => !defined
              case Stored(buf) => defined && ok && prefix[..] == buf
              case Failed(buf) => defined && !ok && prefix[..] == buf
    {
      hide Run, TokenText;
      var p := new Parser(false);
      var tok := new Token[MAX_TOKENS];
      assert p.Reached(tok) == Fresh;
      var r := p.Parse(js, tok, MAX_TOKENS);
      if r != Success { return false, true; }
      var i := 0;
      while i < 9
        invariant 0 <= i <= 9
        invariant prefix[..] == old(prefix[..])
        invariant FindKey(js, tok[..p.toknext], i) == FindKey(js, tok[..p.toknext], 0)
      {
        if i >= p.toknext { return false, false; }
        var t := tok[i];
        assert tok[..p.toknext][i] == t;
        if TokenText(js, t) == "Prefix" {
          if i + 1 >= p.toknext { return false, false; }
          var text := TokenText(js, tok[i + 1]);
          assert tok[..p.toknext][i + 1] == tok[i + 1];
          if |text| > PREFIX_BUFFER { return false, false; }
          forall k | 0 <= k < |text| { prefix[k] := text[k]; }
          assert prefix[..] == Overlay(old(prefix[..]), text);
          break;
        }
        i := i + 1;
      }
      ok := prefix[0] != '\0';
      defined := true;
    }

    /** Asks for a prefix: what is sent, and what the reply does, if sending and receiving succeed. */
    method GetPrefix(mac: seq<char>, sendOk: bool, reply: seq<char>, recvOk: bool)
      returns (sent: seq<char>, ok: bool, defined: bool)
      requires jsonId.Length == |JSON_ID| && prefix.Length == PREFIX_BUFFER && jsonId != prefix
      requires |mac| >= MAC_LENGTH
      requires jsonId[..7] == JSON_ID[..7] && jsonId[24..] == JSON_ID[24..]
      modifies jsonId, prefix
      ensures jsonId[..7] == JSON_ID[..7] && jsonId[24..] == JSON_ID[24..]
      ensures sent == CStringAt(Request(mac[..MAC_LENGTH]), 0)
      ensures !sendOk || !recvOk ==> defined && !ok && prefix[..] == old(prefix[..])
      ensures sendOk && recvOk ==>
                match Handle(CStringAt(reply, 0), old(prefix[..]))
                case Undefined => !defined
                case Stored(buf) => defined && ok && prefix[..] == buf
                case Failed(buf) => defined && !ok && prefix[..] == buf
    {
      sent := WriteId(mac);
      if !sendOk || !recvOk { return sent, false, true; }
      ok, defined := StorePrefix(CStringAt(reply, 0));
    }
  }

  // ---- The reply of the server

  function Reply(p: string): string {
    "{\"Prefix\":\"" + p + "\"}"
  }

  /** A text that needs no escape. */
  predicate Plain(p: string) {
    '\0' !in p && '\"' !in p && '\\' !in p
  }

  predicate PlainPrefix(p: string) {
    0 < |p| < PREFIX_BUFFER && Plain(p)
  }

  lemma {:induction false} PlainIsBody(p: string)
    requires Plain(p)
    ensures Body(p)
  {
    if p != "" { PlainIsBody(p[1..]); }
  }

  function ValuePart(p: string): Forest { Cons(":", Quoted(p), Nil("")) }

  function KeyPart(p: string): Forest { Cons("", Quoted("Prefix"), ValuePart(p)) }

  function ReplyForest(p: string): Forest { Cons("", Box(Object, KeyPart(p)), Nil("")) }

  lemma ValueText(p: string)
    ensures Print(ValuePart(p)) == ":\"" + p + "\""
  {
  }

  lemma ValueListing(p: string)
    ensures Listing(false, ValuePart(p), 9, 2, 0) == [Token(Str, 11, 11 + |p|, 0, -1)]
    ensures Size(ValuePart(p)) == 1 && Roots(ValuePart(p)) == 1
  {
  }

  lemma KeyText(p: string)
    ensures Print(KeyPart(p)) == "\"Prefix\":\"" + p + "\""
  {
    ValueText(p);
    assert "" + "\"Prefix\"" + (":\"" + p + "\"") == "\"Prefix\":\"" + p + "\"";
  }

  lemma KeyListing(p: string)
    ensures Listing(false, KeyPart(p), 1, 1, 0) == [Token(Str, 2, 8, 0, -1), Token(Str, 11, 11 + |p|, 0, -1)]
    ensures Size(KeyPart(p)) == 2 && Roots(KeyPart(p)) == 2
  {
    ValueListing(p);
    assert ListingNode(false, Quoted("Prefix"), 1, 1, 0) == [Token(Str, 2, 8, 0, -1)];
  }

  lemma KeyProper(p: string)
    requires Body(p)
    ensures Proper(KeyPart(p))
  {
  }

  lemma ReplyText(p: string)
    ensures Print(ReplyForest(p)) == Reply(p)
  {
    KeyText(p);
    hide KeyPart;
    assert PrintNode(Box(Object, KeyPart(p))) == "{" + ("\"Prefix\":\"" + p + "\"") + "}" == Reply(p);
  }

  lemma ReplyListing(p: string)
    ensures Size(ReplyForest(p)) == 3
    ensures Listing(false, ReplyForest(p), 0, 0, -1) ==
            [Token(Object, 0, |Reply(p)|, 2, -1), Token(Str, 2, 8, 0, -1), Token(Str, 11, 11 + |p|, 0, -1)]
  {
    KeyListing(p);
    KeyText(p);
    hide KeyPart;
    assert |PrintNode(Box(Object, KeyPart(p)))| == |Reply(p)|;
    assert Listing(false, Nil(""), |Reply(p)|, 3, -1) == [];
  }

  /** The server's reply is the text of a proper forest of three tokens. */
  lemma ReplyLayout(p: string)
    requires Plain(p)
    ensures Proper(ReplyForest(p)) && Size(ReplyForest(p)) == 3
    ensures Print(ReplyForest(p)) == Reply(p)
    ensures Listing(false, ReplyForest(p), 0, 0, -1) ==
            [Token(Object, 0, |Reply(p)|, 2, -1), Token(Str, 2, 8, 0, -1), Token(Str, 11, 11 + |p|, 0, -1)]
  {
    PlainIsBody(p);
    KeyProper(p);
    ReplyText(p);
    ReplyListing(p);
    hide KeyPart, Print, Listing;
  }

  lemma FindsKey(p: string)
    requires '\0' !in Reply(p)
    ensures var toks := [Token(Object, 0, |Reply(p)|, 2, -1), Token(Str, 2, 8, 0, -1), Token(Str, 11, 11 + |p|, 0, -1)];
            FindKey(Reply(p), toks, 0) == Found(1) && TokenText(Reply(p), toks[2]) == p
  {
  }

  lemma ReplyRuns(p: string)
    requires Plain(p)
    ensures '\0' !in Reply(p)
    ensures Run(false, Reply(p), MAX_TOKENS, Fresh) ==
            (Success, State(|Reply(p)|, [Token(Object, 0, |Reply(p)|, 2, -1), Token(Str, 2, 8, 0, -1),
                                         Token(Str, 11, 11 + |p|, 0, -1)], -1))
  {
    ReplyLayout(p);
    hide ReplyForest, Print, Proper, Listing, Run;
    JsmnPrintParse.PrintThenParse(false, ReplyForest(p), MAX_TOKENS);
  }

  /** The server's reply puts exactly its prefix at the beginning of the buffer. */
  lemma ReplyStores(p: string, buf: seq<char>)
    requires PlainPrefix(p) && |buf| == PREFIX_BUFFER
    ensures '\0' !in Reply(p)
    ensures Handle(Reply(p), buf) == Stored(Overlay(buf, p))
  {
    ReplyRuns(p);
    FindsKey(p);
    assert Overlay(buf, p)[0] == p[0];
    hide Run, FindKey, TokenText, Reply;
  }

  // ---- Other replies

  /** The server's reply is the text of one proper container. */
  lemma ReplyIsBox(p: string)
    requires Plain(p)
    ensures var box := Box(Object, KeyPart(p)); ProperNode(box) && PrintNode(box) == Reply(p)
  {
    PlainIsBody(p);
    KeyProper(p);
    ReplyText(p);
    var box := Box(Object, KeyPart(p));
    hide KeyPart, Reply;
    assert Print(ReplyForest(p)) == "" + PrintNode(box) + "" == PrintNode(box);
  }

  /** A reply of the server that arrives cut short, wherever, is a failure and leaves the buffer alone. */
  lemma CutReplyFails(p: string, n: nat, buf: seq<char>)
    requires Plain(p) && 0 < n < |Reply(p)| && |buf| == 48
    ensures '\0' !in Reply(p) && Handle(Reply(p)[..n], buf) == Failed(buf)
  {
    ReplyIsBox(p);
    hide Run, FindKey, KeyPart, PrintNode, Reply;
    JsmnCodes.CutBoxIsRefused(false, Box(Object, KeyPart(p)), MAX_TOKENS, n);
  }

  /** And so is every text that is not the print of a proper forest of ten tokens at most. */
  lemma UnprintedFails(js: Text, buf: seq<char>)
    requires |buf| == 48 && !exists f :: Proper(f) && Size(f) <= 10 && Print(f) == js
    ensures Handle(js, buf) == Failed(buf)
  {
    hide Run, FindKey;
    JsmnLanguage.AcceptsExactlyPrints(js, 10);
    assert forall f :: !JsmnLanguage.IsPrintOf(js, 10, f);
  }

  /** A reply with an empty prefix fails exactly on a cleared buffer; else the earlier prefix counts as received. */
  lemma EmptyReply(buf: seq<char>)
    requires |buf| == 48
    ensures Handle("{\"Prefix\":\"\"}", buf) == if buf[0] == '\0' then Failed(buf) else Stored(buf)
  {
    ReplyRuns("");
    assert Reply("") == "{\"Prefix\":\"\"}";
    FindsKey("");
    assert Overlay(buf, "") == buf;
    hide Run, FindKey, TokenText, Reply, Overlay;
  }

  /** The text of token `k` of a printed reply. */
  function NthText(f: Forest, k: nat): string
    requires Proper(f) && k < Size(f)
  {
    PrintHasNoNul(f);
    TokenText(Print(f), Listing(false, f, 0, 0, -1)[k])
  }

  lemma {:induction false} KeyAt(js: Text, toks: seq<Token>, i: nat, k: nat)
    requires i <= k <= 9 && k <= |toks| && forall j :: i <= j < k ==> TokenText(js, toks[j]) != "Prefix"
    ensures FindKey(js, toks, i) == FindKey(js, toks, k)
    decreases k - i
  {
    hide TokenText;
    if i < k { KeyAt(js, toks, i + 1, k); }
  }

  /** Any reply: the token behind the first of nine that spells the key is copied, if there is one and it fits; a reply
      of nine tokens without the key leaves the earlier prefix; all else reads or writes out of bounds. */
  lemma PrintedReply(f: Forest, k: nat, buf: seq<char>)
    requires Proper(f) && Size(f) <= 10 && |buf| == 48 && k <= 9 && k <= Size(f)
    requires forall j :: 0 <= j < k ==> NthText(f, j) != "Prefix"
    requires k < 9 && k < Size(f) ==> NthText(f, k) == "Prefix"
    ensures '\0' !in Print(f)
    ensures var out := Handle(Print(f), buf);
            if k < 9 && k + 1 < Size(f) && |NthText(f, k + 1)| <= 48 then
              var next := NthText(f, k + 1) + buf[|NthText(f, k + 1)|..];
              out == if next[0] == '\0' then Failed(next) else Stored(next)
            else if k == 9 then out == if buf[0] == '\0' then Failed(buf) else Stored(buf)
            else out == Undefined
  {
    PrintHasNoNul(f);
    var toks := Listing(false, f, 0, 0, -1);
    forall j | 0 <= j < k ensures TokenText(Print(f), toks[j]) != "Prefix" { assert NthText(f, j) != "Prefix"; }
    JsmnPrintParse.PrintThenParse(false, f, MAX_TOKENS);
    KeyAt(Print(f), toks, 0, k);
    if k < 9 && k < Size(f) { assert NthText(f, k) == TokenText(Print(f), toks[k]); }
    if k < 9 && k + 1 < Size(f) { assert NthText(f, k + 1) == TokenText(Print(f), toks[k + 1]); }
    hide *;
    ParsedReply(Print(f), toks, k, buf);
  }

  /** The same from the parser's table. */
  lemma ParsedReply(js: Text, toks: seq<Token>, k: nat, buf: seq<char>)
    requires Run(false, js, MAX_TOKENS, Fresh) == (Success, State(|js|, toks, -1))
    requires |buf| == 48 && k <= 9 && k <= |toks| && FindKey(js, toks, 0) == FindKey(js, toks, k)
    requires k < 9 && k < |toks| ==> TokenText(js, toks[k]) == "Prefix"
    ensures var out := Handle(js, buf);
            if k < 9 && k + 1 < |toks| && |TokenText(js, toks[k + 1])| <= 48 then
              var text := TokenText(js, toks[k + 1]);
              var next := text + buf[|text|..];
              out == if next[0] == '\0' then Failed(next) else Stored(next)
            else if k == 9 then out == if buf[0] == '\0' then Failed(buf) else Stored(buf)
            else out == Undefined
  {
    hide Run, TokenText;
  }

  lemma {:induction false} CStringSplits(text: string, buf: seq<char>, i: nat)
    requires '\0' !in text && i <= |text| <= |buf| && buf[..|text|] == text
    ensures CStringAt(buf, i) == text[i..] + CStringAt(buf, |text|)
    decreases |text| - i
  {
    if i < |text| {
      assert buf[i] == buf[..|text|][i] == text[i];
      CStringSplits(text, buf, i + 1);
      assert text[i..] == [text[i]] + text[i + 1..];
    }
  }

  /** The uncleared buffer reads back as the new prefix exactly when the old text ended
      where the new one does. */
  lemma StoredReadsBack(p: string, buf: seq<char>)
    requires PlainPrefix(p) && |buf| == PREFIX_BUFFER
    ensures CStringAt(Overlay(buf, p), 0) == p <==> buf[|p|] == '\0'
  {
    var b := Overlay(buf, p);
    CStringSplits(p, b, 0);
    assert b[|p|] == buf[|p|];
  }

  predicate PlainReplies(replies: seq<string>) {
    forall i :: 0 <= i < |replies| ==> PlainPrefix(replies[i])
  }

  /** What a client holds after any number of replies, each parsed and looked up. */
  function AfterReplies(buf: seq<char>, replies: seq<string>): Outcome
    requires |buf| == PREFIX_BUFFER && PlainReplies(replies)
    decreases |replies|
  {
    if replies == [] then Stored(buf)
    else
      PlainReplyText(replies[0]);
      match Handle(Reply(replies[0]), buf)
      case Stored(next) => AfterReplies(next, replies[1..])
      case other => other
  }

  lemma PlainReplyText(p: string)
    requires PlainPrefix(p)
    ensures '\0' !in Reply(p)
  {
  }

  /** As long as every reply carries the same prefix, every reconnect succeeds and leaves the client with
      exactly that prefix, although the buffer is never cleared. */
  lemma {:induction false} ReconnectsKeepPrefix(p: string, replies: seq<string>, buf: seq<char>)
    requires PlainPrefix(p) && replies != [] && forall i :: 0 <= i < |replies| ==> replies[i] == p
    requires |buf| == PREFIX_BUFFER && buf[|p|] == '\0'
    ensures AfterReplies(buf, replies) == Stored(Overlay(buf, p))
    ensures CStringAt(Overlay(buf, p), 0) == p
    decreases |replies|
  {
    ReplyStores(p, buf);
    StoredReadsBack(p, buf);
    hide Handle, CStringAt, Reply;
    if |replies| > 1 {
      ReconnectsKeepPrefix(p, replies[1..], Overlay(buf, p));
      assert Overlay(Overlay(buf, p), p) == Overlay(buf, p);
    }
  }
}
