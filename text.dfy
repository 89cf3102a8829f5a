/**
 * The parts of Python's `str` and `re` behaviour that the logger relies on,
 * written out over `seq<char>`. Character classes (`\w`, `\d`, `isalnum`,
 * `upper`, `lower`, `strip`) are the ASCII subsets of Python's Unicode classes.
 */
module Text {

  predicate IsDigit(c: char) { '0' <= c <= '9' }

  predicate IsLetter(c: char) { 'a' <= c <= 'z' || 'A' <= c <= 'Z' }

  predicate IsAlnumChar(c: char) { IsLetter(c) || IsDigit(c) }

  /** A character of the regular-expression class `\w`. */
  predicate IsWordChar(c: char) { IsAlnumChar(c) || c == '_' }

  /** A character that `str.strip()` removes. */
  predicate IsSpace(c: char)
  {
    c == ' ' || c == '\t' || c == '\n' || c == '\r' || c == '\U{B}' || c == '\U{C}'
    || '\U{1C}' <= c <= '\U{1F}'
  }

  predicate AllDigits(s: string) { forall c :: c in s ==> IsDigit(c) }

  predicate AllWordChars(s: string) { forall c :: c in s ==> IsWordChar(c) }

  /** Python's `s.isalnum()`: non-empty and made of letters and digits only. */
  predicate IsAlnum(s: string) { |s| > 0 && forall c :: c in s ==> IsAlnumChar(c) }

  predicate StartsWith(s: string, p: string) { |p| <= |s| && s[..|p|] == p }

  predicate EndsWith(s: string, p: string) { |p| <= |s| && s[|s| - |p|..] == p }

  /** Python's `p in s` on strings: `p` occurs somewhere in `s`. */
  predicate Contains(s: string, p: string)
    decreases |s|
  {
    StartsWith(s, p) || (|s| > 0 && Contains(s[1..], p))
  }

  /** Python's `s.find(c)`: the first index of `c`, or -1. */
  function IndexOf(s: string, c: char): (i: int)
    ensures -1 <= i < |s|
    ensures i == -1 <==> c !in s
    ensures 0 <= i ==> s[i] == c && c !in s[..i]
  {
    if |s| == 0 then -1
    else if s[0] == c then 0
    else
      var j := IndexOf(s[1..], c);
      if j < 0 then -1
      else
        assert s[..j + 1] == [s[0]] + s[1..][..j];
        j + 1
  }

  /** Python's `s.find(c, start)` for a start inside the string. */
  function FindFrom(s: string, c: char, start: nat): (i: int)
    requires start <= |s|
    ensures i == -1 <==> c !in s[start..]
    ensures i != -1 ==> start <= i < |s| && s[i] == c && c !in s[start..i]
  {
    var j := IndexOf(s[start..], c);
    if j < 0 then -1
    else
      assert s[start..start + j] == s[start..][..j];
      start + j
  }

  /** Python's `s.rfind(c)`: the last index of `c`, or -1. */
  function LastIndexOf(s: string, c: char): (i: int)
    ensures -1 <= i < |s|
    ensures i == -1 <==> c !in s
    ensures 0 <= i ==> s[i] == c && c !in s[i + 1..]
  {
    if |s| == 0 then -1
    else if s[|s| - 1] == c then |s| - 1
    else
      var t := s[..|s| - 1];
      var j := LastIndexOf(t, c);
      assert c in s ==> c in t by {
        if c in s {
          var k :| 0 <= k < |s| && s[k] == c;
          assert t[k] == c;
        }
      }
      assert j >= 0 ==> c !in s[j + 1..] by {
        if j >= 0 {
          forall k | j + 1 <= k < |s| ensures s[k] != c {
            if k < |s| - 1 { assert t[j + 1..][k - j - 1] == s[k]; }
          }
        }
      }
      j
  }

  /** The start of the last occurrence of the non-empty string `p` in `s`, or -1. */
  function LastIndexOfSub(s: string, p: string): (i: int)
    requires |p| > 0
    ensures i == -1 || 0 <= i <= |s| - |p|
    ensures 0 <= i ==> s[i..i + |p|] == p
    decreases |s|
  {
    if |s| < |p| then -1
    else if s[|s| - |p|..] == p then |s| - |p|
    else
      var j := LastIndexOfSub(s[..|s| - 1], p);
      assert 0 <= j ==> s[j..j + |p|] == s[..|s| - 1][j..j + |p|];
      j
  }

  /** An occurrence of `p` after which no position starts with the first character of `p` is the last one. */
  lemma {:induction false} LastSubAt(s: string, p: string, i: nat)
    requires |p| > 0 && i + |p| <= |s| && s[i..i + |p|] == p
    requires forall j :: i < j && j + |p| <= |s| ==> s[j] != p[0]
    ensures LastIndexOfSub(s, p) == i
    decreases |s|
  {
    if |s| - |p| != i {
      assert s[|s| - |p|..][0] == s[|s| - |p|];
      var t := s[..|s| - 1];
      assert t[i..i + |p|] == s[i..i + |p|];
      forall j | i < j && j + |p| <= |t| ensures t[j] != p[0] {
        assert t[j] == s[j];
      }
      LastSubAt(t, p, i);
    }
  }

  /** `p` is the last occurrence in `a + p + b` when its first character occurs neither later in `p` nor in `b`. */
  lemma LastOccurrence(a: string, p: string, b: string)
    requires |p| > 0 && p[0] !in p[1..] && p[0] !in b
    ensures LastIndexOfSub(a + (p + b), p) == |a|
  {
    var s := a + (p + b);
    assert s[|a|..|a| + |p|] == p;
    forall j | |a| < j && j + |p| <= |s| ensures s[j] != p[0] {
      if j < |a| + |p| {
        assert s[j] == p[1..][j - |a| - 1];
      } else {
        assert s[j] == b[j - |a| - |p|];
      }
    }
    LastSubAt(s, p, |a|);
  }

  /** Python's `s.replace(c, "")`. */
  function Remove(s: string, c: char): (r: string)
    ensures c !in r
    ensures forall x :: x in r <==> x in s && x != c
    ensures |r| <= |s|
  {
    if |s| == 0 then ""
    else (if s[0] == c then "" else [s[0]]) + Remove(s[1..], c)
  }

  /**
   * Python's `re.sub(pat, "", s)` for a literal pattern: occurrences are
   * removed left to right without overlapping.
   */
  function DeleteAll(s: string, pat: string): (r: string)
    requires |pat| > 0
    ensures |r| <= |s|
    decreases |s|
  {
    if |s| < |pat| then s
    else if s[..|pat|] == pat then DeleteAll(s[|pat|..], pat)
    else [s[0]] + DeleteAll(s[1..], pat)
  }

  /** Python's `s.split(sep)` for a one-character separator. */
  function Split(s: string, sep: char): (r: seq<string>)
    ensures |r| > 0
    ensures forall piece :: piece in r ==> sep !in piece
    decreases |s|
  {
    var i := IndexOf(s, sep);
    if i < 0 then [s] else [s[..i]] + Split(s[i + 1..], sep)
  }

  /** Python's `sep.join(pieces)`, the inverse of `Split`. */
  function Join(pieces: seq<string>, sep: char): string
    requires |pieces| > 0
  {
    if |pieces| == 1 then pieces[0] else pieces[0] + [sep] + Join(pieces[1..], sep)
  }

  function LowerChar(c: char): char
  {
    if 'A' <= c <= 'Z' then (c as int + 32) as char else c
  }

  function UpperChar(c: char): char
  {
    if 'a' <= c <= 'z' then (c as int - 32) as char else c
  }

  /** Python's `s.lower()`. */
  function Lower(s: string): (r: string)
    ensures |r| == |s|
    ensures forall i :: 0 <= i < |s| ==> r[i] == LowerChar(s[i])
  {
    seq(|s|, i requires 0 <= i < |s| => LowerChar(s[i]))
  }

  /** Python's `s.upper()`. */
  function Upper(s: string): (r: string)
    ensures |r| == |s|
    ensures forall i :: 0 <= i < |s| ==> r[i] == UpperChar(s[i])
  {
    seq(|s|, i requires 0 <= i < |s| => UpperChar(s[i]))
  }

  function TrimLeft(s: string): string
    decreases |s|
  {
    if |s| > 0 && IsSpace(s[0]) then TrimLeft(s[1..]) else s
  }

  function TrimRight(s: string): string
    decreases |s|
  {
    if |s| > 0 && IsSpace(s[|s| - 1]) then TrimRight(s[..|s| - 1]) else s
  }

  /** Python's `s.strip()`. */
  function Strip(s: string): string
  {
    TrimRight(TrimLeft(s))
  }

  /** The length of the leading run of `\w` characters. */
  function WordRunLength(s: string): (n: nat)
    ensures n <= |s|
    ensures AllWordChars(s[..n])
    ensures n < |s| ==> !IsWordChar(s[n])
  {
    if |s| > 0 && IsWordChar(s[0]) then
      var m := WordRunLength(s[1..]);
      assert s[..m + 1] == [s[0]] + s[1..][..m];
      m + 1
    else 0
  }

  /** The leading run of digits: what `\d+` captures when it is anchored at the start. */
  function DigitRun(s: string): (r: string)
    ensures StartsWith(s, r) && AllDigits(r)
    ensures |r| < |s| ==> !IsDigit(s[|r|])
  {
    if |s| > 0 && IsDigit(s[0]) then [s[0]] + DigitRun(s[1..]) else ""
  }

  function DigitChar(d: nat): char
    requires d < 10
  {
    ('0' as int + d) as char
  }

  /** `str(n)` for a natural number. */
  function NatToString(n: nat): (r: string)
    ensures |r| > 0 && AllDigits(r)
  {
    if n < 10 then [DigitChar(n)] else NatToString(n / 10) + [DigitChar(n % 10)]
  }

  /** `int(s)` for a string of decimal digits. */
  function ParseNat(s: string): nat
    requires AllDigits(s)
  {
    if |s| == 0 then 0
    else
      assert AllDigits(s[..|s| - 1]) by {
        forall c | c in s[..|s| - 1] ensures IsDigit(c) { assert c in s; }
      }
      assert s[|s| - 1] in s;
      ParseNat(s[..|s| - 1]) * 10 + (s[|s| - 1] as int - '0' as int)
  }

  // ---------------------------------------------------------------------
  // Lemmas

  /** Reading back a decimal written by `str` gives the number. */
  lemma {:induction false} ParseNatToString(n: nat)
    ensures ParseNat(NatToString(n)) == n
  {
    if n >= 10 {
      var s := NatToString(n);
      assert s[..|s| - 1] == NatToString(n / 10);
      ParseNatToString(n / 10);
    }
  }

  /** Joining the pieces of a split with the separator restores the string. */
  lemma {:induction false} SplitJoin(s: string, sep: char)
    ensures Join(Split(s, sep), sep) == s
    decreases |s|
  {
    var i := IndexOf(s, sep);
    if i >= 0 {
      SplitJoin(s[i + 1..], sep);
      assert s == s[..i] + [sep] + s[i + 1..];
    }
  }

  /** The first `c` of `a + [c] + b` is the one after `a` when `a` has none. */
  lemma IndexOfSplit(a: string, c: char, b: string)
    requires c !in a
    ensures IndexOf(a + [c] + b, c) == |a|
  {
    var s := a + [c] + b;
    assert s[|a|] == c && s[..|a|] == a;
    var i := IndexOf(s, c);
    assert i <= |a| by { assert c in s[..|a| + 1]; }
  }

  /** `find` reaches position `i` when `c` sits there and not before. */
  lemma IndexOfAt(s: string, c: char, i: nat)
    requires i < |s| && s[i] == c && c !in s[..i]
    ensures IndexOf(s, c) == i
  {
    var j := IndexOf(s, c);
    assert j <= i by { assert c in s[..i + 1]; }
    assert forall k :: 0 <= k < i ==> s[k] != c by { assert forall k :: 0 <= k < i ==> s[k] in s[..i]; }
  }

  /** `find` from `start` reaches position `i` when `c` sits there and not between. */
  lemma FindFromAt(s: string, c: char, start: nat, i: nat)
    requires start <= i < |s| && s[i] == c && c !in s[start..i]
    ensures FindFrom(s, c, start) == i
  {
    var j := FindFrom(s, c, start);
    assert j != -1 by { assert c in s[start..]; }
    assert j <= i by { assert c in s[start..i + 1]; }
    assert forall k :: start <= k < i ==> s[k] != c by { assert forall k :: start <= k < i ==> s[k] == s[start..i][k - start]; }
  }

  /** The last `c` of `a + [c] + b` is the one after `a` when `b` has none. */
  lemma LastIndexOfSplit(a: string, c: char, b: string)
    requires c !in b
    ensures LastIndexOf(a + [c] + b, c) == |a|
  {
    var s := a + [c] + b;
    assert s[|a|] == c && s[|a| + 1..] == b;
    var i := LastIndexOf(s, c);
    assert i >= |a| by { assert c in s[|a|..]; }
  }

  /** A string without any occurrence of `pat` is left alone by `DeleteAll`. */
  lemma {:induction false} DeleteAllAbsent(s: string, pat: string)
    requires |pat| > 0 && !Contains(s, pat)
    ensures DeleteAll(s, pat) == s
    decreases |s|
  {
    if |s| >= |pat| {
      assert s[..|pat|] != pat;
      DeleteAllAbsent(s[1..], pat);
      assert s == [s[0]] + s[1..];
    }
  }

  /** The first character of `p` missing from `s` rules `p` out. */
  lemma {:induction false} NotContainsFirst(s: string, p: string)
    requires |p| > 0 && p[0] !in s
    ensures !Contains(s, p)
    decreases |s|
  {
    if |s| > 0 {
      assert s[0] in s;
      NotContainsFirst(s[1..], p);
    }
  }

  /** A string occurs in any string built around it. */
  lemma {:induction false} ContainsMiddle(a: string, p: string, b: string)
    ensures Contains(a + p + b, p)
    decreases |a|
  {
    if |a| == 0 {
      assert (a + p + b)[..|p|] == p;
    } else {
      assert (a + p + b)[1..] == a[1..] + p + b;
      ContainsMiddle(a[1..], p, b);
    }
  }

  /** Trimming a string that begins with a visible character keeps that character first. */
  lemma {:induction false} StripKeepsVisibleHead(s: string)
    requires |s| > 0 && !IsSpace(s[0])
    ensures |Strip(s)| > 0 && Strip(s)[0] == s[0]
  {
    assert TrimLeft(s) == s;
    TrimRightKeepsHead(s);
  }

  lemma {:induction false} TrimRightKeepsHead(s: string)
    requires |s| > 0 && !IsSpace(s[0])
    ensures |TrimRight(s)| > 0 && TrimRight(s)[0] == s[0]
    decreases |s|
  {
    if IsSpace(s[|s| - 1]) {
      TrimRightKeepsHead(s[..|s| - 1]);
    }
  }

  /** A string without surrounding white space is its own `strip()`. */
  lemma StripTrimmed(s: string)
    requires |s| > 0 && !IsSpace(s[0]) && !IsSpace(s[|s| - 1])
    ensures Strip(s) == s
  {
  }

  /** Upper-casing keeps letters letters and digits digits. */
  lemma UpperKeepsAlnum(s: string)
    requires IsAlnum(s)
    ensures IsAlnum(Upper(s))
  {
    forall c | c in Upper(s) ensures IsAlnumChar(c) {
      var i :| 0 <= i < |Upper(s)| && Upper(s)[i] == c;
      assert s[i] in s;
    }
  }
}
