/** NUL-terminated strings in memory, and the library routines of malloc.c that walk them. */
module CStrings {

  type Byte = n: nat | n < 256

  /** The bytes from i to the first NUL; to the end of the memory when there is none. */
  function StringAt(s: seq<Byte>, i: nat): (r: seq<Byte>)
    ensures i <= |s| ==> i + |r| <= |s|
    decreases |s| - i
  {
    if i >= |s| || s[i] == 0 then [] else [s[i]] + StringAt(s, i + 1)
  }

  /** t stands at i and ends there. */
  ghost predicate StandsAt(s: seq<Byte>, i: nat, t: seq<Byte>) {
    i + |t| <= |s| && s[i..i + |t|] == t && 0 !in t && (i + |t| < |s| ==> s[i + |t|] == 0)
  }

  /** What stands at i is the string there. */
  lemma {:induction false} StringIs(s: seq<Byte>, i: nat, t: seq<Byte>)
    requires StandsAt(s, i, t)
    ensures StringAt(s, i) == t
    decreases |t|
  {
    if t != [] {
      assert s[i] == s[i..i + |t|][0] == t[0];
      assert s[i + 1..i + |t|] == s[i..i + |t|][1..];
      StringIs(s, i + 1, t[1..]);
    }
  }

  lemma {:induction false} StringStands(s: seq<Byte>, i: nat)
    requires i <= |s|
    ensures StandsAt(s, i, StringAt(s, i))
    decreases |s| - i
  {
    if i < |s| && s[i] != 0 {
      StringStands(s, i + 1);
      var rest := StringAt(s, i + 1);
      assert s[i..i + 1 + |rest|] == [s[i]] + s[i + 1..i + 1 + |rest|];
    }
  }

  /** The string at i ends before the memory does. */
  predicate Terminated(s: seq<Byte>, i: nat) {
    i + |StringAt(s, i)| < |s|
  }

  method StrLen(s: seq<Byte>, i: nat) returns (n: nat)
    requires Terminated(s, i)
    ensures n == |StringAt(s, i)|
  {
    n := 0;
    while s[i + n] != 0
      invariant Terminated(s, i + n) && |StringAt(s, i)| == n + |StringAt(s, i + n)|
      decreases |s| - n
    {
      n := n + 1;
    }
  }

  lemma SameTails(c: Byte, s: seq<Byte>, t: seq<Byte>)
    ensures [c] + s == [c] + t <==> s == t
  {
    if [c] + s == [c] + t {
      assert s == ([c] + s)[1..] == ([c] + t)[1..] == t;
    }
  }

  lemma HeadsDecide(a: seq<Byte>, i: nat, b: seq<Byte>, j: nat)
    requires i < |a| && j < |b| && (a[i] == 0 || a[i] != b[j])
    ensures StringAt(a, i) == StringAt(b, j) <==> a[i] == b[j]
  {
    if a[i] != 0 && b[j] != 0 {
      assert StringAt(a, i)[0] == a[i] && StringAt(b, j)[0] == b[j];
    }
  }

  /** Compares to 0 exactly when the two strings are the same. */
  method StrCmp(a: seq<Byte>, i: nat, b: seq<Byte>, j: nat) returns (r: int)
    requires Terminated(a, i) && Terminated(b, j)
    ensures r == 0 <==> StringAt(a, i) == StringAt(b, j)
  {
    var m: nat, n: nat := i, j;
    while a[m] != 0 && a[m] == b[n]
      invariant Terminated(a, m) && Terminated(b, n)
      invariant StringAt(a, i) == StringAt(b, j) <==> StringAt(a, m) == StringAt(b, n)
      decreases |a| - m
    {
      SameTails(a[m], StringAt(a, m + 1), StringAt(b, n + 1));
      m, n := m + 1, n + 1;
    }
    r := a[m] as int - b[n] as int;
    HeadsDecide(a, m, b, n);
  }

  /** Compares to 0 exactly when s and t, two stretches of the same length, are the same up to the first NUL. */
  method StrNCmp(s: seq<Byte>, t: seq<Byte>, n: nat) returns (r: int)
    requires |s| == |t| == n
    ensures r == 0 <==> StringAt(s, 0) == StringAt(t, 0)
  {
    var k := 0;
    while k < n && s[k] != 0 && s[k] == t[k]
      invariant k <= n
      invariant StringAt(s, 0) == StringAt(t, 0) <==> StringAt(s, k) == StringAt(t, k)
    {
      SameTails(s[k], StringAt(s, k + 1), StringAt(t, k + 1));
      k := k + 1;
    }
    if k == n {
      return 0;
    }
    r := s[k] as int - t[k] as int;
    HeadsDecide(s, k, t, k);
  }
}
