/** C strings inside character buffers. */
module CStrings {

  /** The C string that begins at offset `i` of a buffer. */
  function CStringAt(buf: seq<char>, i: nat): (r: string)
    requires i <= |buf|
    ensures '\0' !in r && i + |r| <= |buf|
    ensures forall k :: 0 <= k < |r| ==> buf[i + k] == r[k]
    ensures i + |r| < |buf| ==> buf[i + |r|] == '\0'
    decreases |buf| - i
  {
    if i == |buf| || buf[i] == '\0' then "" else [buf[i]] + CStringAt(buf, i + 1)
  }

  /** The string at `i` ends inside the buffer. */
  predicate Terminated(buf: seq<char>, i: nat) {
    i <= |buf| && i + |CStringAt(buf, i)| < |buf|
  }

  /** A string is determined by its characters and the NUL after them. */
  lemma {:induction false} CStringIs(buf: seq<char>, i: nat, s: string)
    requires i + |s| < |buf| && '\0' !in s
    requires forall k :: 0 <= k < |s| ==> buf[i + k] == s[k]
    requires buf[i + |s|] == '\0'
    ensures CStringAt(buf, i) == s && Terminated(buf, i)
    decreases |s|
  {
    if s != "" {
      assert buf[i] == s[0];
      forall k | 0 <= k < |s[1..]| ensures buf[i + 1 + k] == s[1..][k] {
        assert buf[i + (k + 1)] == s[k + 1];
      }
      CStringIs(buf, i + 1, s[1..]);
    }
  }

  /** Within a string, the NUL is at its end and nowhere else. */
  lemma NulAtEnd(buf: seq<char>, i: nat, n: nat)
    requires Terminated(buf, i) && n <= |CStringAt(buf, i)|
    ensures buf[i + n] == '\0' <==> n == |CStringAt(buf, i)|
  {
    var s := CStringAt(buf, i);
    if n < |s| { assert s[n] in s; }
  }

  /** The rest of a string begins at a later offset. */
  lemma CStringDrop(buf: seq<char>, i: nat, k: nat)
    requires Terminated(buf, i) && k <= |CStringAt(buf, i)|
    ensures CStringAt(buf, i + k) == CStringAt(buf, i)[k..] && Terminated(buf, i + k)
  {
    var s := CStringAt(buf, i);
    forall j | 0 <= j < |s[k..]| ensures buf[i + k + j] == s[k..][j] {
      assert buf[i + (k + j)] == s[k + j];
    }
    CStringIs(buf, i + k, s[k..]);
  }

  /** A NUL written into a string ends it there. */
  lemma CStringCut(buf: seq<char>, i: nat, k: nat)
    requires Terminated(buf, i) && k <= |CStringAt(buf, i)|
    ensures CStringAt(buf[i + k := '\0'], i) == CStringAt(buf, i)[..k] && Terminated(buf[i + k := '\0'], i)
  {
    CStringIs(buf[i + k := '\0'], i, CStringAt(buf, i)[..k]);
  }

  /** A string does not depend on what stands before it. */
  lemma CStringSame(a: seq<char>, b: seq<char>, i: nat)
    requires |a| == |b| && Terminated(a, i)
    requires forall j :: i <= j < |a| ==> a[j] == b[j]
    ensures CStringAt(b, i) == CStringAt(a, i) && Terminated(b, i)
  {
    CStringIs(b, i, CStringAt(a, i));
  }

  /** A text without NUL is one string. */
  lemma CStringWhole(s: string, i: nat)
    requires '\0' !in s && i <= |s|
    ensures CStringAt(s, i) == s[i..]
    decreases |s| - i
  {
  }
}
