// Byte strings as Go's strings package sees them, restricted to ASCII white
// space and ASCII letter case.
module Text {
  predicate IsSpace(c: char) {
    c == ' ' || c == '\t' || c == '\n' || c == '\U{000B}' || c == '\U{000C}' || c == '\r'
  }

  function TrimLeft(s: string): string {
    if s != [] && IsSpace(s[0]) then TrimLeft(s[1..]) else s
  }

  function TrimRight(s: string): string {
    if s != [] && IsSpace(s[|s| - 1]) then TrimRight(s[..|s| - 1]) else s
  }

  function TrimSpace(s: string): (t: string)
    ensures |t| <= |s|
  {
    TrimShrinks(s);
    TrimRight(TrimLeft(s))
  }

  lemma TrimShrinks(s: string)
    ensures |TrimLeft(s)| <= |s|
    ensures |TrimRight(TrimLeft(s))| <= |s|
  {
    TrimRightShrinks(TrimLeft(s));
  }

  lemma TrimRightShrinks(s: string)
    ensures |TrimRight(s)| <= |s|
  {
  }

  predicate IsTrimmed(s: string) {
    s != [] && !IsSpace(s[0]) && !IsSpace(s[|s| - 1])
  }

  lemma TrimOfTrimmed(s: string)
    requires s == [] || IsTrimmed(s)
    ensures TrimSpace(s) == s
  {
  }

  /** Trimming takes away exactly the white space at both ends. */
  lemma TrimIsExact(s: string) returns (left: string, right: string)
    ensures s == left + TrimSpace(s) + right
    ensures forall c :: c in left || c in right ==> IsSpace(c)
    ensures TrimSpace(s) == [] || IsTrimmed(TrimSpace(s))
  {
    left := TrimLeftIsExact(s);
    right := TrimRightIsExact(TrimLeft(s));
    assert s == left + (TrimSpace(s) + right);
    assert TrimSpace(s) != [] ==> TrimSpace(s)[0] == TrimLeft(s)[0];
  }

  lemma {:induction false} TrimLeftIsExact(s: string) returns (left: string)
    ensures s == left + TrimLeft(s)
    ensures forall c :: c in left ==> IsSpace(c)
    ensures TrimLeft(s) == [] || !IsSpace(TrimLeft(s)[0])
  {
    left := [];
    if s != [] && IsSpace(s[0]) {
      left := TrimLeftIsExact(s[1..]);
      left := [s[0]] + left;
    }
  }

  lemma {:induction false} TrimRightIsExact(s: string) returns (right: string)
    ensures s == TrimRight(s) + right
    ensures forall c :: c in right ==> IsSpace(c)
    ensures TrimRight(s) == [] || !IsSpace(TrimRight(s)[|TrimRight(s)| - 1])
  {
    right := [];
    if s != [] && IsSpace(s[|s| - 1]) {
      right := TrimRightIsExact(s[..|s| - 1]);
      right := right + [s[|s| - 1]];
    }
  }

  function Lower(c: char): char {
    if 'A' <= c <= 'Z' then ((c as int) + 32) as char else c
  }

  function ToLower(s: string): string {
    seq(|s|, i requires 0 <= i < |s| => Lower(s[i]))
  }

  function Normalize(s: string): string {
    ToLower(TrimSpace(s))
  }

  // The same letter in either case, or the same other character.
  predicate SameLetter(a: char, b: char) {
    a == b || ('A' <= a <= 'Z' && b as int == a as int + 32) || ('A' <= b <= 'Z' && a as int == b as int + 32)
  }

  /** Names are taken for the same exactly when, without the space around them, they are
      the same letters in either case. */
  lemma NormalizeIgnoresCase(a: string, b: string)
    ensures Normalize(a) == Normalize(b) <==>
            var (s, t) := (TrimSpace(a), TrimSpace(b));
            |s| == |t| && forall i :: 0 <= i < |s| ==> SameLetter(s[i], t[i])
  {
    var s, t := TrimSpace(a), TrimSpace(b);
    assert |ToLower(s)| == |s| && |ToLower(t)| == |t|;
    if Normalize(a) == Normalize(b) {
      forall i | 0 <= i < |s|
        ensures SameLetter(s[i], t[i])
      {
        assert ToLower(s)[i] == ToLower(t)[i];
      }
    }
  }

  lemma NormalizeTwice(s: string)
    ensures Normalize(Normalize(s)) == Normalize(s)
  {
    var left, right := TrimIsExact(s);
    TrimOfTrimmed(Normalize(s));
  }

  // Go's `<` on strings.
  predicate StrLess(a: string, b: string) {
    b != [] && (a == [] || a[0] < b[0] || (a[0] == b[0] && StrLess(a[1..], b[1..])))
  }

  predicate StrLeq(a: string, b: string) {
    !StrLess(b, a)
  }

  lemma {:induction false} StrLessTotal(a: string, b: string)
    ensures !(StrLess(a, b) && StrLess(b, a))
    ensures StrLess(a, b) || a == b || StrLess(b, a)
    ensures a == b ==> !StrLess(a, b)
  {
    if a != [] && b != [] && a[0] == b[0] {
      StrLessTotal(a[1..], b[1..]);
      assert a == [a[0]] + a[1..] && b == [b[0]] + b[1..];
    }
  }

  /** Texts are compared at the first position at which they differ, and a beginning comes
      before the whole. */
  lemma {:induction false} StrLessAtFirstDifference(a: string, b: string)
    ensures StrLess(a, b) <==>
            exists i :: 0 <= i <= |a| && i < |b| && a[..i] == b[..i] && (i == |a| || a[i] < b[i])
  {
    if a == [] {
      assert b != [] ==> a[..0] == b[..0];
    } else if b != [] {
      if a[0] < b[0] {
        assert a[..0] == b[..0];
      } else if a[0] == b[0] {
        StrLessAtFirstDifference(a[1..], b[1..]);
        if i :| 0 <= i <= |a[1..]| && i < |b[1..]| && a[1..][..i] == b[1..][..i] && (i == |a[1..]| || a[1..][i] < b[1..][i]) {
          assert a[..i + 1] == [a[0]] + a[1..][..i] && b[..i + 1] == [b[0]] + b[1..][..i];
        }
        if i :| 0 <= i <= |a| && i < |b| && a[..i] == b[..i] && (i == |a| || a[i] < b[i]) {
          assert i > 0;
          assert a[1..][..i - 1] == a[..i][1..] && b[1..][..i - 1] == b[..i][1..];
        }
      } else {
        assert forall i :: 0 < i <= |a| && i < |b| && a[..i] == b[..i] ==> a[..i][0] == b[..i][0];
      }
    }
  }

  lemma {:induction false} StrLessTransitive(a: string, b: string, c: string)
    requires StrLess(a, b) && StrLess(b, c)
    ensures StrLess(a, c)
  {
    if a != [] && a[0] == b[0] == c[0] {
      StrLessTransitive(a[1..], b[1..], c[1..]);
    }
  }

  lemma StrLeqTransitive(a: string, b: string, c: string)
    requires StrLeq(a, b) && StrLeq(b, c)
    ensures StrLeq(a, c)
  {
    StrLessTotal(a, b);
    StrLessTotal(b, c);
    StrLessTotal(a, c);
    if a != b && b != c {
      StrLessTransitive(a, b, c);
    }
  }
}
