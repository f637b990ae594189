/** The numbers of the server's TUN interfaces: sixteen names, the lowest free one first. */
module TunIds {

  const TUN_ID_MIN := 0
  const TUN_ID_MAX := 15

  /** The lowest number from `i` on that is not held; when all are held, the number 0 again. */
  function FirstFree(held: set<int>, i: nat): (n: nat)
    requires i <= TUN_ID_MAX + 1
    ensures n <= TUN_ID_MAX
    ensures (forall k :: i <= k <= TUN_ID_MAX ==> k in held) ==> n == 0
    ensures !(forall k :: i <= k <= TUN_ID_MAX ==> k in held) ==>
              i <= n && n !in held && forall k :: i <= k < n ==> k in held
    decreases TUN_ID_MAX + 1 - i
  {
    if i > TUN_ID_MAX then 0 else if i !in held then i else FirstFree(held, i + 1)
  }

  predicate Full(held: set<int>) {
    forall k :: TUN_ID_MIN <= k <= TUN_ID_MAX ==> k in held
  }

  function DigitChar(d: nat): char
    requires d < 10
  {
    "0123456789"[d]
  }

  /** The decimal text of a number. */
  function Itoa(n: nat): (s: string)
    ensures s != ""
  {
    if n < 10 then [DigitChar(n)] else Itoa(n / 10) + [DigitChar(n % 10)]
  }

  function TunName(n: nat): string {
    "tun" + Itoa(n)
  }

  /** The text without its leading letters `t`, `u` and `n`. */
  function TrimTun(s: string): string {
    if s != "" && (s[0] == 't' || s[0] == 'u' || s[0] == 'n') then TrimTun(s[1..]) else s
  }

  predicate IsDigit(c: char) { '0' <= c <= '9' }

  /** The number a decimal text stands for, 0 for any other text. */
  function Atoi(s: string): nat {
    if s == "" || !IsDigit(s[|s| - 1]) then 0
    else if |s| == 1 then (s[0] - '0') as nat
    else 10 * Atoi(s[..|s| - 1]) + (s[|s| - 1] - '0') as nat
  }

  lemma {:induction false} AtoiItoa(n: nat)
    ensures Atoi(Itoa(n)) == n
    ensures IsDigit(Itoa(n)[0])
  {
    if n >= 10 {
      AtoiItoa(n / 10);
      assert Itoa(n)[..|Itoa(n)| - 1] == Itoa(n / 10);
    }
  }

  /** A name gives its number back. */
  lemma NameNumber(n: nat)
    ensures Atoi(TrimTun(TunName(n))) == n
  {
    AtoiItoa(n);
    var s := Itoa(n);
    assert TunName(n)[1..] == "un" + s && ("un" + s)[1..] == "n" + s && ("n" + s)[1..] == s;
    assert TrimTun(s) == s;
    assert TrimTun("n" + s) == s;
    assert TrimTun("un" + s) == s;
  }

  function HeldIn(tunset: map<int, bool>): set<int> {
    set i | i in tunset && tunset[i]
  }

  lemma MarkHeld(tunset: map<int, bool>, n: int)
    ensures HeldIn(tunset[n := true]) == HeldIn(tunset) + {n}
    ensures HeldIn(tunset[n := false]) == HeldIn(tunset) - {n}
  {
  }

  class TunManager {
    var tunset: map<int, bool>

    constructor ()
      ensures Held() == {}
    {
      tunset := map[];
    }

    ghost function Held(): set<int>
      reads this
    {
      HeldIn(tunset)
    }

    /** A new name. It is that of a number nobody holds, unless all sixteen are held. */
    method GetNewTunName() returns (tunid: string)
      modifies this
      ensures var n := FirstFree(old(Held()), TUN_ID_MIN);
              tunid == TunName(n) && Held() == old(Held()) + {n}
    {
      ghost var held := Held();
      var tunidint := 0;
      var i := TUN_ID_MIN;
      while i <= TUN_ID_MAX
        invariant TUN_ID_MIN <= i <= TUN_ID_MAX + 1 && tunidint == 0
        invariant tunset == old(tunset)
        invariant FirstFree(held, i) == FirstFree(held, TUN_ID_MIN)
        invariant i > 0 ==> 0 in held
      {
        if i !in tunset || !tunset[i] {
          MarkHeld(tunset, i);
          tunset := tunset[i := true];
          return TunName(i);
        }
        i := i + 1;
      }
      assert held + {0} == held;
      tunid := TunName(tunidint);
    }

    method UnsetTunName(tunid: string)
      modifies this
      ensures Held() == old(Held()) - {Atoi(TrimTun(tunid))}
    {
      var tunidint := Atoi(TrimTun(tunid));
      MarkHeld(tunset, tunidint);
      tunset := tunset[tunidint := false];
    }
  }

  /** Of the sixteen numbers the new one is the lowest that nobody holds; with all of them held it is 0 again. */
  lemma NewNameIsFresh(held: set<int>)
    ensures var n := FirstFree(held, TUN_ID_MIN);
            if forall k :: 0 <= k <= 15 ==> k in held then n == 0
            else n <= 15 && n !in held && forall k :: 0 <= k < n ==> k in held
    ensures FirstFree(held, TUN_ID_MIN) !in held <==> !Full(held)
  {
  }

  /** The names as the system knows them. */
  lemma SixteenNames(n: nat)
    requires n <= 15
    ensures TunName(n) == ["tun0", "tun1", "tun2", "tun3", "tun4", "tun5", "tun6", "tun7", "tun8", "tun9", "tun10",
                           "tun11", "tun12", "tun13", "tun14", "tun15"][n]
  {
    assert Itoa(1) == "1";
    assert n < 10 || n / 10 == 1;
  }

  lemma NamesDiffer(a: nat, b: nat)
    requires a != b
    ensures TunName(a) != TunName(b)
  {
    NameNumber(a);
    NameNumber(b);
  }
}
