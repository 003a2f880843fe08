/** The two Python string operations the application relies on: the substring
    test `t in s` and `s.lower()`. */
module Strings {

  /** Python's `t in s` for strings: `t` occurs in `s` as a contiguous block. */
  predicate Contains(s: string, t: string)
    ensures Contains(s, t) ==> |t| <= |s|
    ensures t == [] ==> Contains(s, t)
  {
    if |t| <= |s| && s[..|t|] == t then true
    else if s == [] then false
    else Contains(s[1..], t)
  }

  /** `t` occurs in `s` starting at position `i`. */
  ghost predicate OccursAt(s: string, t: string, i: int)
  {
    0 <= i && i + |t| <= |s| && s[i..i + |t|] == t
  }

  /** Where `Contains` holds, `t` occurs at some position of `s`. */
  lemma {:induction false} ContainsHasPosition(s: string, t: string) returns (i: nat)
    requires Contains(s, t)
    ensures OccursAt(s, t, i)
  {
    if |t| <= |s| && s[..|t|] == t {
      i := 0;
    } else {
      var k := ContainsHasPosition(s[1..], t);
      assert s[k + 1..k + 1 + |t|] == s[1..][k..k + |t|];
      i := k + 1;
    }
  }

  /** Where `t` occurs at a position of `s`, `Contains` holds. */
  lemma {:induction false} PositionContains(s: string, t: string, i: nat)
    requires OccursAt(s, t, i)
    ensures Contains(s, t)
  {
    if i == 0 {
      assert s[..|t|] == s[i..i + |t|];
    } else if !(|t| <= |s| && s[..|t|] == t) {
      var u := s[1..];
      assert u[i - 1..i - 1 + |t|] == s[i..i + |t|];
      PositionContains(u, t, i - 1);
    }
  }

  /** `Contains` means there is a position where `t` occurs in `s`. */
  lemma {:induction false} ContainsIff(s: string, t: string)
    ensures Contains(s, t) <==> exists i :: OccursAt(s, t, i)
  {
    if Contains(s, t) {
      var i := ContainsHasPosition(s, t);
    }
    forall i | OccursAt(s, t, i)
      ensures Contains(s, t)
    {
      PositionContains(s, t, i);
    }
  }

  /** For a one-character needle the substring test is membership. */
  lemma {:induction false} ContainsChar(s: string, c: char)
    ensures Contains(s, [c]) <==> c in s
  {
    if s != [] {
      ContainsChar(s[1..], c);
      assert s == [s[0]] + s[1..];
    }
  }

  /** Lower-casing of one character; only the ASCII letters A-Z change. */
  function LowerChar(c: char): char
  {
    if 'A' <= c <= 'Z' then (c as int - 'A' as int + 'a' as int) as char else c
  }

  /** Python's `s.lower()`, restricted to ASCII case mapping. */
  function Lower(s: string): (r: string)
    ensures |r| == |s|
    ensures forall i :: 0 <= i < |s| ==> r[i] == LowerChar(s[i])
  {
    seq(|s|, i requires 0 <= i < |s| => LowerChar(s[i]))
  }
}
