/** The allocator of /64 prefixes: one per client id, the lowest free one first, with
    the set of those in use and the file that survives restarts. */
module PrefixManager {
  import opened AssignmentFile
  import opened Options

  const UINT64 := 0x1_0000_0000_0000_0000

  type uint64 = x: nat | x < UINT64

  const READ_LIMIT := 12000   // how much of the file is read at start-up

  // ---- The text of a prefix

  function Pow16(n: nat): nat {
    if n == 0 then 1 else 16 * Pow16(n - 1)
  }

  function Digit(d: nat): char
    requires d < 16
  {
    "0123456789abcdef"[d]
  }

  function Hex(n: nat, digits: nat): (s: string)
    ensures |s| == digits
  {
    if digits == 0 then "" else Hex(n / 16, digits - 1) + [Digit(n % 16)]
  }

  /** The text of the /64 prefix whose upper half is `i`. */
  function Render(i: uint64): string {
    Hex(i, 16) + "::/64"
  }

  /** What a hexadecimal digit stands for. */
  function DigitValue(c: char): int {
    if c <= '9' then c as int - '0' as int else c as int - 'a' as int + 10
  }

  /** The number that hexadecimal digits stand for. */
  function HexValue(s: string): int {
    if s == "" then 0 else 16 * HexValue(s[..|s| - 1]) + DigitValue(s[|s| - 1])
  }

  lemma DigitReads(d: nat)
    requires d < 16
    ensures DigitValue(Digit(d)) == d && Digit(d) in "0123456789abcdef"
  {
    assert d < 8 || d == 8 || d == 9 || d == 10 || d == 11 || d == 12 || d == 13 || d == 14 || d == 15;
  }

  lemma HexStep(n: nat, digits: nat)
    requires digits > 0
    ensures HexValue(Hex(n, digits)) == 16 * HexValue(Hex(n / 16, digits - 1)) + DigitValue(Digit(n % 16))
  {
    assert Hex(n, digits)[..digits - 1] == Hex(n / 16, digits - 1);
    hide DigitValue, Digit;
  }

  lemma {:induction false} HexReads(n: nat, digits: nat)
    requires n < Pow16(digits)
    ensures HexValue(Hex(n, digits)) == n
    ensures forall k :: 0 <= k < digits ==> Hex(n, digits)[k] in "0123456789abcdef"
    decreases digits
  {
    if digits > 0 {
      assert n / 16 < Pow16(digits - 1);
      assert Hex(n, digits) == Hex(n / 16, digits - 1) + [Digit(n % 16)];
      HexStep(n, digits);
      DigitReads(n % 16);
      hide *;
      HexReads(n / 16, digits - 1);
    }
  }

  /** The text of a prefix gives its upper half back: sixteen hexadecimal digits before `::/64`. */
  lemma RenderReads(i: uint64)
    ensures |Render(i)| == 21 && Render(i)[16..] == "::/64" && HexValue(Render(i)[..16]) == i
    ensures forall k :: 0 <= k < 16 ==> Render(i)[k] in "0123456789abcdef"
  {
    assert Pow16(4) == 65536;
    assert Pow16(8) == 65536 * 65536;
    assert Pow16(12) == 65536 * 65536 * 65536;
    assert Pow16(16) == 0x1_0000_0000_0000_0000;
    HexReads(i, 16);
    hide Hex, HexValue;
    assert Render(i)[..16] == Hex(i, 16);
  }

  lemma RenderInjective(a: uint64, b: uint64)
    requires Render(a) == Render(b)
    ensures a == b
  {
    RenderReads(a);
    RenderReads(b);
  }

  // ---- The range prefixes are taken from

  function Pow2(n: nat): (p: nat)
    ensures p > 0
  {
    if n == 0 then 1 else 2 * Pow2(n - 1)
  }

  /** A range of /64 prefixes: its first one, and how many low bits of it vary. */
  datatype Range = Range(start: uint64, bits: nat) {
    function Block(): (p: nat) ensures p > 0 { Pow2(bits) }

    /** Whether an address with upper half `i` has the range's leading bits. */
    predicate Contains(i: uint64) { i / Block() == start / Block() }

    predicate Valid() { bits < 64 && start % Block() == 0 }
  }

  /** The range of a CIDR of the given length, its address masked to that length. */
  function RangeOf(address: uint64, length: nat): Range
    requires 1 <= length <= 64
  {
    Range(address / Pow2(64 - length) * Pow2(64 - length), 64 - length)
  }

  lemma {:induction false} Pow2Splits(m: nat, n: nat)
    ensures Pow2(m + n) == Pow2(m) * Pow2(n)
    decreases n
  {
    if n > 0 { Pow2Splits(m, n - 1); }
  }

  lemma Pow2Of64()
    ensures Pow2(64) == UINT64
  {
    assert Pow2(8) == 256;
    Pow2Double(8, 256);
    Pow2Double(16, 65536);
    Pow2Double(32, 0x1_0000_0000);
  }

  lemma Pow2Double(n: nat, p: nat)
    requires Pow2(n) == p
    ensures Pow2(n + n) == p * p
  {
    hide Pow2;
    Pow2Splits(n, n);
  }

  lemma MultipleModulo(q: nat, b: nat)
    requires b > 0
    ensures q * b % b == 0 && q * b / b == q
  {
    DivUnique(q * b, b, q);
  }

  lemma MulMonotone(x: int, y: int, b: nat)
    ensures x <= y ==> x * b <= y * b
  {
  }

  lemma DivUnique(x: nat, b: nat, q: nat)
    requires b > 0 && q * b <= x < q * b + b
    ensures x / b == q && x % b == x - q * b
  {
    var d, m := x / b, x % b;
    assert x == d * b + m && 0 <= m < b;
    MulMonotone(d + 1, q, b);
    MulMonotone(q + 1, d, b);
  }

  /** Bit `k` of an upper half, counted from the front. */
  function Bit(i: uint64, k: nat): nat
    requires k < 64
  {
    i / Pow2(63 - k) % 2
  }

  predicate Agree(a: uint64, b: uint64, length: nat)
    requires length <= 64
  {
    forall k :: 0 <= k < length ==> Bit(a, k) == Bit(b, k)
  }

  lemma HalfOf(x: nat, b: nat)
    requires b > 0
    ensures x / b == 2 * (x / (2 * b)) + x / b % 2
  {
    var q := x / b;
    MulMonotone(q / 2 * 2, q, b);
    MulMonotone(q + 1, q / 2 * 2 + 2, b);
    DivUnique(x, 2 * b, q / 2);
  }

  /** Two numbers are equal exactly when their halves and their last bits are. */
  lemma SameHalves(x: nat, y: nat, b: nat)
    requires b > 0
    ensures x / b == y / b <==> x / (2 * b) == y / (2 * b) && x / b % 2 == y / b % 2
  {
    HalfOf(x, b);
    HalfOf(y, b);
  }

  lemma NextBit(a: uint64, b: uint64, length: nat)
    requires 0 < length <= 64
    ensures Agree(a, b, length) <==> Agree(a, b, length - 1) && Bit(a, length - 1) == Bit(b, length - 1)
  {
    hide Bit;
  }

  lemma {:induction false} AgreeExactly(a: uint64, b: uint64, length: nat)
    requires length <= 64
    ensures a / Pow2(64 - length) == b / Pow2(64 - length) <==> Agree(a, b, length)
  {
    if length == 0 {
      Pow2Of64();
      hide Pow2;
    } else {
      var n := 64 - length;
      assert Pow2(64 - (length - 1)) == 2 * Pow2(n);
      assert Bit(a, length - 1) == a / Pow2(n) % 2 && Bit(b, length - 1) == b / Pow2(n) % 2;
      hide Pow2, Bit, Agree;
      AgreeExactly(a, b, length - 1);
      NextBit(a, b, length);
      SameHalves(a, b, Pow2(n));
    }
  }

  /** The range of a CIDR holds exactly the prefixes that agree with the address in its first `length` bits, and
      begins at the lowest of them. */
  lemma RangeOfValid(address: uint64, length: nat)
    requires 1 <= length <= 64
    ensures var r := RangeOf(address, length);
            && r.Valid() && r.bits == 64 - length
            && (forall i: uint64 :: r.Contains(i) <==> Agree(i, address, length))
            && r.Contains(r.start) && forall i: uint64 :: r.Contains(i) ==> r.start <= i
  {
    var r := RangeOf(address, length);
    var b := Pow2(64 - length);
    hide Pow2, Agree;
    MultipleModulo(address / b, b);
    forall i: uint64 ensures r.Contains(i) <==> Agree(i, address, length) { AgreeExactly(i, address, length); }
    forall i: uint64 | r.Contains(i) ensures r.start <= i { InBlock(r.start, b, i); }
  }

  /** A range is a contiguous block that ends within 64 bits, and does not hold both 0 and the largest value. */
  lemma RangeIsBlock(r: Range, i: uint64)
    requires r.Valid()
    ensures r.start + r.Block() <= UINT64
    ensures r.Contains(i) <==> r.start <= i < r.start + r.Block()
    ensures r.start + r.Block() == UINT64 ==> r.start > 0
  {
    hide Pow2;
    var b := r.Block();
    InBlock(r.start, b, i);
    Pow2Of64();
    Pow2Splits(r.bits, 64 - r.bits);
    var c := Pow2(64 - r.bits);
    EvenPow2(64 - r.bits);
    BlocksFit(r.start / b, b, c);
    if r.start == 0 { TwoBlocks(b, c); }
  }

  lemma InBlock(start: nat, b: nat, i: nat)
    requires b > 0 && start % b == 0
    ensures i / b == start / b <==> start <= i < start + b
    ensures start == start / b * b
  {
    var q := start / b;
    if start <= i < start + b { DivUnique(i, b, q); }
    if i / b == q { assert i == q * b + i % b; }
  }

  lemma EvenPow2(n: nat)
    requires n > 0
    ensures Pow2(n) >= 2
  {
  }

  lemma BlocksFit(q: nat, b: nat, c: nat)
    requires b > 0 && q * b < b * c
    ensures q * b + b <= b * c
  {
    MulMonotone(c, q, b);
    MulMonotone(q + 1, c, b);
  }

  lemma TwoBlocks(b: nat, c: nat)
    requires b > 0 && c >= 2
    ensures b < b * c
  {
  }

  // ---- The allocator on values

  datatype Book = Book(prefixes: map<string, string>, inuse: map<string, bool>, file: string)

  predicate Taken(inuse: map<string, bool>, p: string) {
    p in inuse && inuse[p]
  }

  function Next(i: uint64): uint64 {
    if i == UINT64 - 1 then 0 else i + 1
  }

  /** The first free prefix the loop meets from `i` on. */
  function Search(r: Range, inuse: map<string, bool>, i: uint64): (k: Option<uint64>)
    requires r.Valid()
    ensures k.Some? ==> r.Contains(k.value) && i <= k.value && !Taken(inuse, Render(k.value))
    ensures k.Some? ==> forall j: uint64 :: i <= j < k.value ==> Taken(inuse, Render(j))
    ensures k.None? && r.start <= i ==> forall j: uint64 :: i <= j && r.Contains(j) ==> Taken(inuse, Render(j))
    decreases if r.Contains(i) then r.start + r.Block() - i else 0
  {
    RangeIsBlock(r, i);
    if !r.Contains(i) then
      assert forall j: uint64 :: i <= j && r.start <= i ==> !r.Contains(j) by {
        forall j: uint64 | i <= j && r.start <= i ensures !r.Contains(j) { RangeIsBlock(r, j); }
      }
      None
    else if !Taken(inuse, Render(i)) then Some(i)
    else
      RangeIsBlock(r, Next(i));
      Search(r, inuse, Next(i))
  }

  function DoGet(r: Range, b: Book, id: string): (Book, Option<string>)
    requires r.Valid()
  {
    if id in b.prefixes then (b.(file := Overwrite(b.file, Marshal(b.prefixes))), Some(b.prefixes[id]))
    else
      match Search(r, b.inuse, r.start)
      case None => (b, None)
      case Some(i) =>
        var p := Render(i);
        var prefixes := b.prefixes[id := p];
        (Book(prefixes, b.inuse[p := true], Overwrite(b.file, Marshal(prefixes))), Some(p))
  }

  /** What is assigned after reading a file at start-up. */
  function Load(file: string): map<string, string> {
    var m := Unmarshal(if |file| <= READ_LIMIT then file else file[..READ_LIMIT]);
    if m.None? then map[] else m.value
  }

  function DoCreate(file: string): Book {
    var m := Load(file);
    Book(m, map p | p in m.Values :: true, file)
  }

  // ---- The allocator as it works

  class Manager {
    const range: Range
    var prefixes: map<string, string>
    var inuse: map<string, bool>
    var prefixfile: string

    ghost function Abs(): Book
      reads this
    {
      Book(prefixes, inuse, prefixfile)
    }

    constructor (file: string, address: uint64, length: nat)
      requires 1 <= length <= 64
      ensures range == RangeOf(address, length) && range.Valid()
      ensures Abs() == DoCreate(file)
    {
      range := RangeOf(address, length);
      RangeOfValid(address, length);
      prefixfile := file;
      prefixes := Load(file);
      inuse := map[];
      new;
      var keys := prefixes.Keys;
      while keys != {}
        invariant keys <= prefixes.Keys && prefixes == Load(file) && prefixfile == file
        invariant inuse == map k | k in prefixes.Keys && k !in keys :: prefixes[k] := true
        decreases keys
      {
        var k :| k in keys;
        inuse := inuse[prefixes[k] := true];
        keys := keys - {k};
      }
      assert inuse == map p | p in prefixes.Values :: true;
    }

    /** The prefix of a client, a new one if it has none; absent when the range is used up. */
    method GetPrefix(id: string) returns (prefix: Option<string>)
      requires range.Valid()
      modifies this
      ensures (Abs(), prefix) == DoGet(range, old(Abs()), id)
    {
      hide Marshal, Overwrite, Render, Pow2;
      if id in prefixes {
        prefix := Some(prefixes[id]);
      } else {
        var i := range.start;
        while true
          invariant Abs() == old(Abs())
          invariant Search(range, inuse, i) == Search(range, inuse, range.start)
          decreases if range.Contains(i) then range.start + range.Block() - i else 0
        {
          var possible := Render(i);
          if !range.Contains(i) { return None; }
          if possible !in inuse || !inuse[possible] {
            prefixes := prefixes[id := possible];
            inuse := inuse[possible := true];
            prefix := Some(possible);
            break;
          }
          RangeIsBlock(range, i);
          RangeIsBlock(range, Next(i));
          i := if i == UINT64 - 1 then 0 else i + 1;
        }
      }
      prefixfile := Overwrite(prefixfile, Marshal(prefixes));
    }
  }

  // ---- What every sequence of calls keeps

  ghost predicate InUseExactly(inuse: map<string, bool>, m: map<string, string>) {
    forall p :: Taken(inuse, p) <==> p in m.Values
  }

  ghost predicate AllInRange(r: Range, m: map<string, string>) {
    forall id :: id in m ==> InRange(r, m[id])
  }

  ghost predicate InRange(r: Range, p: string) {
    exists i: uint64 :: r.Contains(i) && p == Render(i)
  }

  predicate Injective(m: map<string, string>) {
    forall a, b :: a in m && b in m && m[a] == m[b] ==> a == b
  }

  /** No two ids share a prefix, all prefixes lie in the range, and the set in use is exactly theirs. */
  ghost predicate BookInv(r: Range, b: Book) {
    && r.Valid()
    && Injective(b.prefixes)
    && AllInRange(r, b.prefixes)
    && InUseExactly(b.inuse, b.prefixes)
  }

  lemma NewPrefixKeepsInjective(m: map<string, string>, id: string, p: string)
    requires Injective(m) && p !in m.Values && id !in m
    ensures Injective(m[id := p])
  {
  }

  lemma NewPrefixInUse(m: map<string, string>, inuse: map<string, bool>, id: string, p: string)
    requires id !in m && InUseExactly(inuse, m)
    ensures InUseExactly(inuse[p := true], m[id := p])
  {
    var m' := m[id := p];
    assert m'[id] == p;
    forall q ensures q in m'.Values <==> q == p || q in m.Values {
      if q in m.Values {
        var k :| k in m && m[k] == q;
        assert m'[k] == q;
      }
    }
  }

  lemma GetKeeps(r: Range, b: Book, id: string)
    requires BookInv(r, b)
    ensures BookInv(r, DoGet(r, b, id).0)
  {
    var p := DoGet(r, b, id).1;
    if id !in b.prefixes && p.Some? {
      NewPrefixIsFree(r, b, id);
      NewPrefixKeepsInjective(b.prefixes, id, p.value);
      NewPrefixInUse(b.prefixes, b.inuse, id, p.value);
      NewPrefixInRange(r, b.prefixes, id, p.value);
    }
  }

  lemma NewPrefixIsFree(r: Range, b: Book, id: string)
    requires r.Valid() && InUseExactly(b.inuse, b.prefixes)
    requires id !in b.prefixes && DoGet(r, b, id).1.Some?
    ensures var p := DoGet(r, b, id).1.value; p !in b.prefixes.Values && InRange(r, p)
  {
  }

  lemma NewPrefixInRange(r: Range, m: map<string, string>, id: string, p: string)
    requires AllInRange(r, m) && InRange(r, p)
    ensures AllInRange(r, m[id := p])
  {
  }

  /** A known id keeps its prefix and every other assignment stays; a new id gets the lowest free
      prefix of the range; the error comes exactly when all of them are taken, and changes nothing. */
  lemma Allocates(r: Range, b: Book, id: string)
    requires BookInv(r, b)
    ensures var (c, p) := DoGet(r, b, id);
            && (forall k :: k in b.prefixes ==> k in c.prefixes && c.prefixes[k] == b.prefixes[k])
            && (p.None? <==> id !in b.prefixes && forall i: uint64 :: r.Contains(i) ==> Render(i) in b.prefixes.Values)
            && (p.None? ==> c == b)
            && (p.Some? ==> c.prefixes == b.prefixes[id := p.value])
            && (p.Some? && id !in b.prefixes ==>
                  exists i: uint64 ::
                    && r.Contains(i) && p.value == Render(i) && Render(i) !in b.prefixes.Values
                    && forall j: uint64 :: r.Contains(j) && j < i ==> Render(j) in b.prefixes.Values)
  {
    if id !in b.prefixes {
      forall j: uint64 | r.Contains(j) ensures r.start <= j { RangeIsBlock(r, j); }
      var k := Search(r, b.inuse, r.start);
      if k.Some? {
        var i := k.value;
        assert Render(i) !in b.prefixes.Values;
        forall j: uint64 | r.Contains(j) && j < i ensures Render(j) in b.prefixes.Values {
          assert Taken(b.inuse, Render(j));
        }
      } else {
        forall j: uint64 | r.Contains(j) ensures Render(j) in b.prefixes.Values {
          assert Taken(b.inuse, Render(j));
        }
      }
    }
  }

  // ---- Restarts

  const SHORTEST := 12   // no text of a map with an assignment is shorter, even with the prefix `::/64`

  /** A file to start on: blank, or an empty object, and shorter than any text with an assignment. */
  predicate StartFile(file: string) {
    |file| <= SHORTEST && (Blank(file) || Unmarshal(file) == Some(map[]))
  }

  /** The file holds the text of the assignments and nothing else; or nothing has been assigned
      and it is as it was at the start. */
  predicate FileTracks(b: Book) {
    b.file == Marshal(b.prefixes) || (b.prefixes == map[] && StartFile(b.file))
  }

  /** Each successful call leaves exactly the text of the assignments in the file,
      although it is never truncated. */
  lemma GetTracks(r: Range, b: Book, id: string)
    requires r.Valid() && FileTracks(b)
    ensures var (c, p) := DoGet(r, b, id);
            if p.Some? then c.file == Marshal(c.prefixes) else c == b
  {
    var (c, p) := DoGet(r, b, id);
    if id !in b.prefixes && p.Some? {
      MarshalGrows(b.prefixes, id, p.value);
      EscapeLength(p.value);
    }
  }

  lemma {:induction false} EscapeLength(s: string)
    ensures |s| <= |Escape(s)| <= 2 * |s|
  {
    if s != "" { EscapeLength(s[1..]); }
  }

  /** A restart finds the same assignments exactly when the file is within the part that is read. */
  lemma RestartRestores(b: Book)
    requires b.file == Marshal(b.prefixes) && b.prefixes != map[]
    ensures DoCreate(b.file).prefixes == b.prefixes <==> |b.file| <= 12000
    ensures |b.file| > 12000 ==> DoCreate(b.file).prefixes == map[]
  {
    if |b.file| <= READ_LIMIT {
      UnmarshalMarshal(b.prefixes, "");
      assert b.file + "" == b.file;
    } else {
      CutIsUnreadable(b.prefixes, READ_LIMIT);
    }
  }

  datatype Op = Get(id: string) | Restart

  function Apply(r: Range, b: Book, op: Op): Book
    requires r.Valid()
  {
    match op
    case Get(id) => DoGet(r, b, id).0
    case Restart => DoCreate(b.file)
  }

  function ApplyAll(r: Range, b: Book, ops: seq<Op>): Book
    requires r.Valid()
    decreases |ops|
  {
    if ops == [] then b else ApplyAll(r, Apply(r, b, ops[0]), ops[1..])
  }

  /** Whenever the server restarts, the file is within the part that is read. */
  predicate WithinLimit(r: Range, b: Book, ops: seq<Op>)
    requires r.Valid()
    decreases |ops|
  {
    ops == [] ||
    ((ops[0].Restart? ==> |b.file| <= READ_LIMIT) && WithinLimit(r, Apply(r, b, ops[0]), ops[1..]))
  }

  lemma RestartKeeps(r: Range, b: Book)
    requires BookInv(r, b) && FileTracks(b) && |b.file| <= READ_LIMIT
    ensures var c := DoCreate(b.file); c.prefixes == b.prefixes && BookInv(r, c) && FileTracks(c)
  {
    if b.file == Marshal(b.prefixes) {
      UnmarshalMarshal(b.prefixes, "");
      assert b.file + "" == b.file;
    }
  }

  /** Across any sequence of requests and restarts, while the file stays within the part that is
      read: no two ids share a prefix, and an id that has one keeps it. */
  lemma {:induction false} AssignmentsSurvive(r: Range, b: Book, ops: seq<Op>)
    requires BookInv(r, b) && FileTracks(b) && WithinLimit(r, b, ops)
    ensures var c := ApplyAll(r, b, ops);
            && BookInv(r, c) && FileTracks(c)
            && forall id :: id in b.prefixes ==> id in c.prefixes && c.prefixes[id] == b.prefixes[id]
    decreases |ops|
  {
    if ops != [] {
      var c := Apply(r, b, ops[0]);
      match ops[0] {
        case Get(id) =>
          GetKeeps(r, b, id);
          GetTracks(r, b, id);
          Allocates(r, b, id);
        case Restart => RestartKeeps(r, b);
      }
      AssignmentsSurvive(r, c, ops[1..]);
    }
  }

  /** The server may be started on a short file that is blank or an empty object. */
  lemma StartFiles(r: Range, file: string)
    requires r.Valid() && StartFile(file)
    ensures BookInv(r, DoCreate(file)) && FileTracks(DoCreate(file)) && DoCreate(file).prefixes == map[]
  {
  }

  /** Such as no text at all, `{}` and `{}` with a newline. */
  lemma StartFileExamples()
    ensures StartFile("") && StartFile("{}") && StartFile("{}\n")
  {
    assert After("{}", '{') == Some("}") && After("}", '}') == Some("");
    assert After("{}\n", '{') == Some("}\n") && After("}\n", '}') == Some("\n");
  }

  /** The file begins with something no JSON value begins with. */
  predicate Junk(file: string) {
    var s := Skip(file);
    s != "" && s[0] !in "{[\"-0123456789tfn"
  }

  /** On a file that is not JSON the first assignment survives a restart exactly when what is left of
      the old content behind the new text is blank: otherwise the file is read as nothing. */
  lemma LongJunkLosesAssignments(r: Range, file: string, id: string)
    requires r.Valid() && |file| <= READ_LIMIT && Junk(file)
    ensures var b := DoCreate(file);
            var c := DoGet(r, b, id).0;
            var n := |Marshal(c.prefixes)|;
            id in c.prefixes &&
            (DoCreate(c.file).prefixes == c.prefixes <==>
               (|c.file| <= READ_LIMIT && (|file| <= n || Blank(file[n..]))))
  {
    JunkIsUnreadable(file);
    var b := DoCreate(file);
    FirstGet(r, b, id);
    var c := DoGet(r, b, id).0;
    RereadExactly(file, c.prefixes);
    if |c.file| > READ_LIMIT { RestartRestores(c); }
  }

  lemma JunkIsUnreadable(file: string)
    requires Junk(file)
    ensures Unmarshal(file) == None
  {
  }

  lemma FirstGet(r: Range, b: Book, id: string)
    requires r.Valid() && b.prefixes == map[] && b.inuse == map[]
    ensures var (c, p) := DoGet(r, b, id);
            p.Some? && c.prefixes == map[id := Render(r.start)] && c.file == Overwrite(b.file, Marshal(c.prefixes))
  {
  }

  /** A file that is blank, no JSON at all, or an object of strings. */
  predicate Plain(file: string) {
    Blank(file) || Junk(file) || Unmarshal(file).Some?
  }

  /** Whatever plain file the server was started on, objects written by hand included: after a request a restart
      finds the assignments exactly when what is left of the old content behind the new text is
      blank, and nothing at all otherwise. */
  lemma RestartAfterGet(r: Range, file: string, id: string)
    requires BookInv(r, DoCreate(file)) && |file| <= READ_LIMIT && Plain(file)
    requires var (c, p) := DoGet(r, DoCreate(file), id); p.Some? && |c.file| <= READ_LIMIT
    ensures var c := DoGet(r, DoCreate(file), id).0;
            var n := |Marshal(c.prefixes)|;
            if |file| <= n || Blank(file[n..]) then DoCreate(c.file).prefixes == c.prefixes
            else DoCreate(c.file).prefixes == map[] && c.prefixes != map[]
  {
    var c := DoGet(r, DoCreate(file), id).0;
    var n := |Marshal(c.prefixes)|;
    WritesOver(r, file, id);
    hide DoGet, BookInv, Marshal, Unmarshal;
    RereadExactly(file, c.prefixes);
    if |file| > n && !Blank(file[n..]) { TailMakesUnreadable(c.prefixes, file[n..]); }
  }

  lemma WritesOver(r: Range, file: string, id: string)
    requires r.Valid() && DoGet(r, DoCreate(file), id).1.Some?
    ensures var c := DoGet(r, DoCreate(file), id).0;
            c.file == Overwrite(file, Marshal(c.prefixes)) && id in c.prefixes
  {
  }

  lemma OneEntryLength(id: string, p: string)
    ensures |Marshal(map[id := p])| <= 7 + 2 * |id| + 2 * |p|
  {
    var m := map[id := p];
    assert m - {id} == map[];
    assert MinKey(m.Keys) == id;
    EscapeLength(id);
    EscapeLength(p);
  }

  /** On an unreadable file, and on an empty object written with many blanks, the first assignment is lost. */
  lemma FirstAssignmentLost(r: Range, file: string)
    requires r.Valid() && (file == Noise || file == Spaced)
    ensures BookInv(r, DoCreate(file)) && Plain(file)
    ensures var c := DoGet(r, DoCreate(file), "a").0; "a" in c.prefixes && DoCreate(c.file).prefixes == map[]
  {
    NothingLoaded(file);
    NothingAssigned(r, file);
    var c := DoGet(r, DoCreate(file), "a").0;
    var n := |Marshal(c.prefixes)|;
    EndShows(file, n);
    hide DoGet, DoCreate, BookInv, Plain, Marshal, Blank, Overwrite;
    FirstGet(r, DoCreate(file), "a");
    OneEntryLength("a", Render(r.start));
    CoveredLength(file, Marshal(c.prefixes));
    RestartAfterGet(r, file, "a");
  }

  lemma NothingAssigned(r: Range, file: string)
    requires r.Valid() && Load(file) == map[]
    ensures var b := DoCreate(file); BookInv(r, b) && b.prefixes == map[] && b.inuse == map[] && b.file == file
  {
  }

  lemma EndShows(file: string, n: nat)
    requires file == Noise || file == Spaced
    ensures |file| >= 200 && (n < |file| ==> !Blank(file[n..]))
  {
    if n < |file| { assert file[n..][|file| - n - 1] == file[|file| - 1]; }
  }

  lemma CoveredLength(file: string, text: string)
    ensures |file| >= |text| ==> |Overwrite(file, text)| == |file|
  {
  }

  const Noise := seq(200, _ => 'x')
  const Spaced := "{" + seq(200, _ => ' ') + "}"

  lemma {:induction false} SkipBlanks(n: nat, rest: string)
    ensures Skip(seq(n, _ => ' ') + rest) == Skip(rest)
  {
    if n == 0 {
      assert seq(n, _ => ' ') + rest == rest;
    } else {
      assert (seq(n, _ => ' ') + rest)[1..] == seq(n - 1, _ => ' ') + rest;
      SkipBlanks(n - 1, rest);
    }
  }

  lemma NothingLoaded(file: string)
    requires file == Noise || file == Spaced
    ensures Plain(file) && Load(file) == map[]
  {
    if file == Spaced {
      SkipBlanks(200, "}");
      assert file[1..] == seq(200, _ => ' ') + "}";
      assert After(file, '{') == Some(file[1..]);
      assert After(file[1..], '}') == Some("");
    }
  }
}
