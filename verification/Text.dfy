/** The few string operations the services rely on, over ASCII. */
module Text {
  /** The characters that stripping removes: the ASCII controls and space, then the rest of Unicode. */
  predicate IsSpace(c: char) {
    var n := c as int;
    || 9 <= n <= 13 || 28 <= n <= 32 || n == 0x85 || n == 0xA0 || n == 0x1680 || 0x2000 <= n <= 0x200A
    || n == 0x2028 || n == 0x2029 || n == 0x202F || n == 0x205F || n == 0x3000
  }

  function LowerChar(c: char): char {
    if 'A' <= c <= 'Z' then (c as int + 32) as char else c
  }

  function Lower(s: string): (r: string)
    ensures |r| == |s|
  {
    seq(|s|, i requires 0 <= i < |s| => LowerChar(s[i]))
  }

  function StripLeft(s: string): string {
    if s != [] && IsSpace(s[0]) then StripLeft(s[1..]) else s
  }

  function StripRight(s: string): string {
    if s != [] && IsSpace(s[|s| - 1]) then StripRight(s[..|s| - 1]) else s
  }

  function Strip(s: string): string {
    StripRight(StripLeft(s))
  }

  function Normal(s: string): string {
    Lower(Strip(s))
  }

  /** No space at either end. */
  predicate Trimmed(s: string) {
    s == [] || (!IsSpace(s[0]) && !IsSpace(s[|s| - 1]))
  }

  lemma StripTrimmed(s: string)
    requires Trimmed(s)
    ensures Strip(s) == s
  {
  }

  predicate IsAlnum(c: char) {
    'a' <= c <= 'z' || 'A' <= c <= 'Z' || '0' <= c <= '9'
  }

  function Occurrences(s: string, c: char): nat {
    if s == [] then 0 else Occurrences(s[1..], c) + if s[0] == c then 1 else 0
  }

  /** Exactly one `@` and no space. */
  predicate LooksLikeEmail(s: string) {
    Occurrences(Strip(s), '@') == 1 && ' ' !in Strip(s)
  }

  /** Lexicographic order. */
  predicate Precedes(a: string, b: string) {
    b != [] && (a == [] || a[0] < b[0] || (a[0] == b[0] && Precedes(a[1..], b[1..])))
  }

  // ------------------------------------------------------------------------- laws

  /** Case is ignored in ASCII letters and nowhere else. */
  lemma LowerMeans(s: string, i: nat)
    requires i < |s|
    ensures 'A' <= s[i] <= 'Z' ==>
              Lower(s)[i] == "abcdefghijklmnopqrstuvwxyz"[s[i] as int - 'A' as int]
    ensures !('A' <= s[i] <= 'Z') ==> Lower(s)[i] == s[i]
  {
    if 'A' <= s[i] <= 'Z' {
      var k := s[i] as int - 'A' as int;
      assert 0 <= k < 26 && Lower(s)[i] == ('a' as int + k) as char;
      var abc := "abcdefghijklmnopqrstuvwxyz";
      assert forall j :: 0 <= j < |abc| ==> abc[j] == ('a' as int + j) as char;
    }
  }

  predicate OnlyAt(s: string, c: char, i: int) {
    0 <= i < |s| && s[i] == c && c !in s[..i] && c !in s[i + 1..]
  }

  lemma {:induction false} AbsentIffNone(s: string, c: char)
    ensures Occurrences(s, c) == 0 <==> c !in s
  {
    if s != [] {
      AbsentIffNone(s[1..], c);
      assert s == [s[0]] + s[1..];
    }
  }

  lemma {:induction false} OnceIffOnly(s: string, c: char)
    ensures Occurrences(s, c) == 1 <==> exists i :: OnlyAt(s, c, i)
  {
    if s != [] {
      var rest := s[1..];
      OnceIffOnly(rest, c);
      AbsentIffNone(rest, c);
      assert s == [s[0]] + rest;
      if s[0] == c {
        assert c !in rest ==> OnlyAt(s, c, 0);
        assert forall i :: OnlyAt(s, c, i) && i > 0 ==> s[..i][0] == c;
      } else {
        forall i | OnlyAt(rest, c, i) ensures OnlyAt(s, c, i + 1) {
          assert s[..i + 1] == [s[0]] + rest[..i] && s[i + 2..] == rest[i + 1..];
        }
        forall i | OnlyAt(s, c, i) ensures OnlyAt(rest, c, i - 1) {
          assert s[..i] == [s[0]] + rest[..i - 1] && s[i + 1..] == rest[i..];
        }
      }
    }
  }

  /** An address has one `@` and no space, once stripped. */
  lemma EmailShape(s: string)
    ensures LooksLikeEmail(s) <==> ' ' !in Strip(s) && exists i :: OnlyAt(Strip(s), '@', i)
  {
    OnceIffOnly(Strip(s), '@');
  }

  /** Lexicographic order leaves no two strings undecided, and decides consistently. */
  lemma {:induction false} PrecedesIsTotal(a: string, b: string)
    ensures a == b || Precedes(a, b) || Precedes(b, a)
    ensures !(Precedes(a, b) && Precedes(b, a)) && !Precedes(a, a)
  {
    if a != [] && b != [] && a[0] == b[0] {
      PrecedesIsTotal(a[1..], b[1..]);
      assert a == [a[0]] + a[1..] && b == [b[0]] + b[1..];
    }
    if a != [] {
      PrecedesIsTotal(a[1..], a[1..]);
    }
  }

  lemma {:induction false} PrecedesChains(a: string, b: string, c: string)
    requires Precedes(a, b) && Precedes(b, c)
    ensures Precedes(a, c)
  {
    if a != [] && a[0] == b[0] == c[0] {
      PrecedesChains(a[1..], b[1..], c[1..]);
    }
  }
}
