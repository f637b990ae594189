/** The tokenizer as it works: a parser object moving over the text and filling
    the caller's token array in place, proved to compute `JsmnTokens.Run`. */
module JsmnParser {
  import opened JsmnTokens

  class Parser {
    const links: bool  // built with parent links
    var pos: nat
    var toknext: nat
    var toksuper: int

    constructor (links: bool)
      ensures this.links == links && pos == 0 && toknext == 0 && toksuper == -1
    {
      this.links := links;
      pos, toknext, toksuper := 0, 0, -1;
    }

    /** Makes the parser ready for a new text. */
    method Init()
      modifies this
      ensures pos == 0 && toknext == 0 && toksuper == -1
    {
      pos, toknext, toksuper := 0, 0, -1;
    }

    /** The state the parser has reached, with the part of `tokens` it has filled. */
    ghost function Reached(tokens: array<Token>): State
      requires toknext <= tokens.Length
      reads this, tokens
    {
      State(pos, tokens[..toknext], toksuper)
    }

    ghost predicate Valid(js: Text, tokens: array<Token>, num: nat)
      reads this, tokens
    {
      && num <= tokens.Length
      && toknext <= tokens.Length
      && pos <= |js|
      && Wf(Reached(tokens))
    }

    /** The index of a fresh token, or -1 when the table is full. */
    method AllocToken(tokens: array<Token>, num: nat) returns (idx: int)
      requires num <= tokens.Length
      modifies this`toknext, tokens
      ensures old(toknext) >= num ==> idx == -1 && toknext == old(toknext) && tokens[..] == old(tokens[..])
      ensures old(toknext) < num ==>
                && idx == old(toknext)
                && toknext == idx + 1
                && tokens[idx] == Token(old(tokens[toknext]).kind, -1, -1, 0, -1)
                && (forall k :: 0 <= k < tokens.Length && k != idx ==> tokens[k] == old(tokens[k]))
    {
      if toknext >= num { return -1; }
      idx := toknext;
      toknext := toknext + 1;
      tokens[idx] := tokens[idx].(start := -1, end := -1, size := 0, parent := -1);
    }

    /** The state after a token has been appended, its parent not yet told. */
    ghost predicate Appended(before: seq<Token>, n: nat, tok: Token, tokens: array<Token>)
      requires n < |before|
      reads tokens, this
    {
      && toknext == n + 1
      && tokens[..] == before[n := tok]
    }

    /** The table beyond the used part is as it was. */
    ghost predicate Kept(before: seq<Token>, tokens: array<Token>)
      reads tokens, this
    {
      |before| == tokens.Length && forall k :: toknext <= k < tokens.Length ==> tokens[k] == before[k]
    }

    /** One round of the main loop has done what `Step` does, short of the final `pos++`. */
    ghost predicate Rounded(js: Text, num: nat, was: State, r: Code, tokens: array<Token>)
      requires Wf(was) && was.pos < |js|
      reads this, tokens
    {
      && toknext <= tokens.Length
      && Step(links, js, num, was) ==
         if r == Success then Go(State(pos + 1, tokens[..toknext], toksuper)) else Stop(r, Reached(tokens))
    }

    method ParsePrimitive(js: Text, tokens: array<Token>, num: nat) returns (r: Code)
      requires Valid(js, tokens, num) && pos < |js|
      requires !EndsPrimitive(js[pos])
      modifies this`pos, this`toknext, tokens
      ensures r != Success ==>
                && pos == old(pos) && toknext == old(toknext) && tokens[..] == old(tokens[..])
                && r == (if PrimitiveScan(js, old(pos)) == Bad then Inval else NoMem)
                && (r == NoMem ==> toknext >= num)
      ensures r == Success ==>
                && PrimitiveScan(js, old(pos)) == Ends(pos + 1)
                && old(toknext) < num
                && Appended(old(tokens[..]), old(toknext),
                            Token(Primitive, old(pos), pos + 1, 0, if links then toksuper else -1), tokens)
    {
      var start := pos;
      while At(js, pos) != '\0'
        invariant start <= pos <= |js|
        invariant pos == start ==> !EndsPrimitive(js[pos])
        invariant toknext == old(toknext) && tokens[..] == old(tokens[..])
        invariant PrimitiveScan(js, pos) == PrimitiveScan(js, start)
        decreases |js| - pos
      {
        if EndsPrimitive(At(js, pos)) { break; }
        if !Printable(At(js, pos)) {
          pos := start;
          return Inval;
        }
        pos := pos + 1;
      }
      var idx := AllocToken(tokens, num);
      if idx == -1 {
        pos := start;
        return NoMem;
      }
      tokens[idx] := tokens[idx].(kind := Primitive, start := start, end := pos, size := 0);
      if links {
        tokens[idx] := tokens[idx].(parent := toksuper);
      }
      pos := pos - 1;
      return Success;
    }

    method ParseString(js: Text, tokens: array<Token>, num: nat) returns (r: Code)
      requires Valid(js, tokens, num) && pos < |js|
      modifies this`pos, this`toknext, tokens
      ensures r != Success ==>
                && pos == old(pos) && toknext == old(toknext) && tokens[..] == old(tokens[..])
                && r == (match StringScan(js, old(pos) + 1) case Bad => Inval case Cut => Part case Ends(_) => NoMem)
                && (r == NoMem ==> toknext >= num)
      ensures r == Success ==>
                && StringScan(js, old(pos) + 1) == Ends(pos)
                && old(toknext) < num
                && Appended(old(tokens[..]), old(toknext),
                            Token(Str, old(pos) + 1, pos, 0, if links then toksuper else -1), tokens)
    {
      var start := pos;
      pos := pos + 1;
      while At(js, pos) != '\0'
        invariant start < pos <= |js|
        invariant toknext == old(toknext) && tokens[..] == old(tokens[..])
        invariant StringScan(js, pos) == StringScan(js, start + 1)
        decreases |js| - pos
      {
        var c := At(js, pos);
        if c == '\"' {
          var idx := AllocToken(tokens, num);
          if idx == -1 {
            pos := start;
            return NoMem;
          }
          tokens[idx] := tokens[idx].(kind := Str, start := start + 1, end := pos, size := 0);
          if links {
            tokens[idx] := tokens[idx].(parent := toksuper);
          }
          return Success;
        }
        if c == '\\' {
          pos := pos + 1;
          if !IsEscape(At(js, pos)) {
            pos := start;
            return Inval;
          }
        }
        pos := pos + 1;
      }
      pos := start;
      return Part;
    }

    method CountChild(tokens: array<Token>)
      requires toknext <= tokens.Length && -1 <= toksuper < toknext
      modifies tokens
      ensures tokens[..] == if toksuper == -1 then old(tokens[..]) else
                old(tokens[..])[toksuper := old(tokens[toksuper]).(size := old(tokens[toksuper]).size + 1)]
    {
      if toksuper != -1 {
        tokens[toksuper] := tokens[toksuper].(size := tokens[toksuper].size + 1);
      }
    }

    /** A closing bracket: find the innermost open container, by scanning the
        table backwards or by following parent links, and close it. */
    method CloseContainer(js: Text, tokens: array<Token>) returns (ok: bool)
      requires Valid(js, tokens, tokens.Length) && pos < |js|
      modifies this`toksuper, tokens
      ensures var before := old(Reached(tokens));
              var out := if links then CloseByLinks(js, before) else CloseByScan(js, before);
              ok == out.Go? && Reached(tokens) == out.state.(pos := pos)
      ensures Kept(old(tokens[..]), tokens)
    {
      var kind := KindOf(js[pos]);
      if links {
        hide LastOpen;
        if toknext < 1 { return false; }
        var i := toknext - 1;
        while true
          invariant 0 <= i < toknext
          invariant tokens[..] == old(tokens[..]) && toksuper == old(toksuper)
          invariant Climb(tokens[..toknext], i) == Climb(tokens[..toknext], toknext - 1)
          decreases i
        {
          var token := tokens[..toknext][i];
          if token.start != -1 && token.end == -1 {
            if token.kind != kind { return false; }
            tokens[i] := token.(end := pos + 1);
            toksuper := token.parent;
            break;
          }
          if token.parent == -1 { break; }
          i := token.parent;
        }
        return true;
      } else {
        hide Climb;
        var i := toknext - 1;
        while i >= 0
          invariant -1 <= i < toknext
          invariant tokens[..] == old(tokens[..]) && toksuper == old(toksuper)
          invariant LastOpen(tokens[..toknext], i + 1) == LastOpen(tokens[..toknext], toknext)
        {
          if tokens[i].start != -1 && tokens[i].end == -1 {
            if tokens[i].kind != kind { return false; }
            toksuper := -1;
            tokens[i] := tokens[i].(end := pos + 1);
            break;
          }
          i := i - 1;
        }
        if i == -1 { return false; }
        ghost var closed := tokens[..toknext];
        ghost var top := i;
        assert closed == old(tokens[..toknext])[i := old(tokens[i]).(end := pos + 1)];
        while i >= 0
          invariant -1 <= i <= top
          invariant tokens[..toknext] == closed && toksuper == -1
          invariant LastOpen(closed, i + 1) == LastOpen(closed, top)
          invariant Kept(old(tokens[..]), tokens)
        {
          if tokens[i].start != -1 && tokens[i].end == -1 {
            toksuper := i;
            break;
          }
          i := i - 1;
        }
        return true;
      }
    }

    /** An opening bracket: a new open container on top of the stack. */
    method OpenContainer(js: Text, tokens: array<Token>, num: nat) returns (ok: bool)
      requires Valid(js, tokens, num) && pos < |js| && Opens(js[pos])
      modifies this`toknext, this`toksuper, tokens
      ensures !ok ==> toknext == old(toknext) >= num && toksuper == old(toksuper) && tokens[..] == old(tokens[..])
      ensures ok ==>
                && old(toknext) < num && toknext == old(toknext) + 1 && toksuper == old(toknext)
                && tokens[..toknext] == Add(links, old(Reached(tokens)), KindOf(js[pos]), pos, -1)
      ensures Kept(old(tokens[..]), tokens)
    {
      ghost var was := Reached(tokens);
      var c := js[pos];
      var idx := AllocToken(tokens, num);
      if idx == -1 { return false; }
      if toksuper != -1 {
        tokens[toksuper] := tokens[toksuper].(size := tokens[toksuper].size + 1);
        if links {
          tokens[idx] := tokens[idx].(parent := toksuper);
        }
      }
      tokens[idx] := tokens[idx].(kind := if c == '{' then Object else Array);
      tokens[idx] := tokens[idx].(start := pos);
      toksuper := toknext - 1;
      assert tokens[idx] == Token(KindOf(c), pos, -1, 0, if links then was.super else -1);
      assert tokens[..idx] == Bump(was.toks, was.super);
      assert tokens[..toknext] == tokens[..idx] + [tokens[idx]];
      return true;
    }

    /** A quoted string, counted as a child of the open container. */
    method TakeString(js: Text, tokens: array<Token>, num: nat) returns (r: Code)
      requires Valid(js, tokens, num) && pos < |js| && js[pos] == '\"'
      modifies this`pos, this`toknext, tokens
      ensures old(toknext) <= toknext && Kept(old(tokens[..]), tokens)
      ensures Rounded(js, num, old(Reached(tokens)), r, tokens)
    {
      ghost var was := Reached(tokens);
      r := ParseString(js, tokens, num);
      if r == Success {
        CountChild(tokens);
        assert tokens[..toknext] == Add(links, was, Str, was.pos + 1, pos);
      }
    }

    /** A primitive, counted as a child of the open container. */
    method TakePrimitive(js: Text, tokens: array<Token>, num: nat) returns (r: Code)
      requires Valid(js, tokens, num) && pos < |js|
      requires !EndsPrimitive(js[pos]) && !Opens(js[pos]) && js[pos] != '\"'
      modifies this`pos, this`toknext, tokens
      ensures old(toknext) <= toknext && Kept(old(tokens[..]), tokens)
      ensures Rounded(js, num, old(Reached(tokens)), r, tokens)
    {
      ghost var was := Reached(tokens);
      r := ParsePrimitive(js, tokens, num);
      if r == Success {
        CountChild(tokens);
        assert tokens[..toknext] == Add(links, was, Primitive, was.pos, pos + 1);
      }
    }

    /** The body of the main loop, up to the final `pos++`. */
    method Round(js: Text, tokens: array<Token>, num: nat) returns (r: Code)
      requires Valid(js, tokens, num) && pos < |js|
      modifies this, tokens
      ensures old(toknext) <= toknext && Kept(old(tokens[..]), tokens)
      ensures Rounded(js, num, old(Reached(tokens)), r, tokens)
    {
      var c := js[pos];
      if c == '{' || c == '[' {
        var ok := OpenContainer(js, tokens, num);
        r := if ok then Success else NoMem;
      } else if c == '}' || c == ']' {
        var ok := CloseContainer(js, tokens);
        r := if ok then Success else Inval;
      } else if c == '\"' {
        r := TakeString(js, tokens, num);
      } else if c == '\t' || c == '\r' || c == '\n' || c == ':' || c == ',' || c == ' ' {
        r := Success;
      } else {
        r := TakePrimitive(js, tokens, num);
      }
    }

    /** Tokenizes `js` from where the parser stands. */
    method Parse(js: Text, tokens: array<Token>, num: nat) returns (r: Code)
      requires Valid(js, tokens, num)
      modifies this, tokens
      ensures Valid(js, tokens, num)
      ensures (r, Reached(tokens)) == Run(links, js, num, old(Reached(tokens)))
      ensures old(toknext) <= toknext && Kept(old(tokens[..]), tokens)
    {
      hide Wf, LastOpen;
      ghost var start := Reached(tokens);
      ghost var before := tokens[..];
      while At(js, pos) != '\0'
        invariant Valid(js, tokens, num)
        invariant Run(links, js, num, Reached(tokens)) == Run(links, js, num, start)
        invariant old(toknext) <= toknext && Kept(before, tokens)
        decreases |js| - pos
      {
        r := Round(js, tokens, num);
        if r != Success { return; }
        pos := pos + 1;
      }
      var open := AnyOpen(tokens);
      r := if open then Part else Success;
    }

    /** The final scan for a container that was never closed. */
    method AnyOpen(tokens: array<Token>) returns (open: bool)
      requires toknext <= tokens.Length
      ensures open == exists k :: 0 <= k < toknext && tokens[k].Open()
      ensures open == (LastOpen(tokens[..toknext], toknext) != -1)
    {
      var i := toknext - 1;
      while i >= 0
        invariant -1 <= i < toknext
        invariant forall k :: i < k < toknext ==> !tokens[k].Open()
      {
        if tokens[i].start != -1 && tokens[i].end == -1 { return true; }
        i := i - 1;
      }
      return false;
    }
  }
}
