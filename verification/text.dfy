/** The few Python string operations the scripts use: `str(int)`,
    `str.split(c)`, `sep.join(parts)`, `str.replace(pat, "")` and
    `str.capitalize()`. Characters are treated as ASCII: case mapping
    touches only `A`-`Z` and `a`-`z`. */
module Text {

  predicate IsDigit(c: char) { '0' <= c <= '9' }

  predicate AllDigits(s: string) {
    forall i :: 0 <= i < |s| ==> IsDigit(s[i])
  }

  function DigitChar(d: nat): (c: char)
    requires d < 10
    ensures IsDigit(c)
  {
    (('0' as int) + d) as char
  }

  function DigitValue(c: char): (d: nat)
    requires IsDigit(c)
    ensures d < 10
  {
    (c as int) - ('0' as int)
  }

  /** `str(n)` for a non-negative integer: decimal, no leading zeros. */
  function NatToString(n: nat): (s: string)
    ensures |s| > 0 && AllDigits(s)
    decreases n
  {
    if n < 10 then [DigitChar(n)] else NatToString(n / 10) + [DigitChar(n % 10)]
  }

  /** `int(s)` for a string of decimal digits. */
  function ParseNat(s: string): nat
    requires AllDigits(s)
  {
    if |s| == 0 then 0 else ParseNat(s[..|s| - 1]) * 10 + DigitValue(s[|s| - 1])
  }

  /** `int(str(n)) == n`: the decimal rendering loses nothing. */
  lemma {:induction false} ParseNatToString(n: nat)
    ensures ParseNat(NatToString(n)) == n
    decreases n
  {
    var s := NatToString(n);
    if n < 10 {
      assert s[..0] == [];
    } else {
      assert s[..|s| - 1] == NatToString(n / 10);
      ParseNatToString(n / 10);
    }
  }

  /** `str(i)` */
  function IntToString(i: int): (s: string)
    ensures |s| > 0
  {
    if i < 0 then "-" + NatToString(-i) else NatToString(i)
  }

  /** `s.split(c)` for a one-character separator. */
  function Split(s: string, c: char): (parts: seq<string>)
    ensures |parts| >= 1
    ensures forall i :: 0 <= i < |parts| ==> c !in parts[i]
    decreases |s|
  {
    if |s| == 0 then [""]
    else
      var rest := Split(s[1..], c);
      if s[0] == c then [""] + rest
      else [[s[0]] + rest[0]] + rest[1..]
  }

  /** `sep.join(parts)` */
  function Join(parts: seq<string>, sep: string): string
    decreases |parts|
  {
    if |parts| == 0 then ""
    else if |parts| == 1 then parts[0]
    else parts[0] + sep + Join(parts[1..], sep)
  }

  /** Joining the pieces of a split with the separator gives the string back.
      Together with the contract of `Split` (no piece holds the separator)
      this pins `Split` down completely. */
  lemma {:induction false} JoinSplit(s: string, c: char)
    ensures Join(Split(s, c), [c]) == s
    decreases |s|
  {
    if |s| > 0 {
      var rest := Split(s[1..], c);
      JoinSplit(s[1..], c);
      if s[0] == c {
        assert Split(s, c) == [""] + rest;
        assert ([""] + rest)[1..] == rest;
        assert s == [c] + s[1..];
      } else {
        var parts := Split(s, c);
        assert parts == [[s[0]] + rest[0]] + rest[1..];
        if |rest| == 1 {
          assert s == [s[0]] + s[1..];
        } else {
          assert parts[1..] == rest[1..];
          assert Join(rest, [c]) == rest[0] + [c] + Join(rest[1..], [c]);
          assert s == [s[0]] + s[1..];
        }
      }
    }
  }

  /** A leading piece without the separator is split off as the first part. */
  lemma {:induction false} SplitAfter(a: string, b: string, c: char)
    requires c !in a
    ensures Split(a + [c] + b, c) == [a] + Split(b, c)
    decreases |a|
  {
    if |a| == 0 {
      assert a + [c] + b == [c] + b;
      assert ([c] + b)[1..] == b;
    } else {
      assert (a + [c] + b)[1..] == a[1..] + [c] + b;
      SplitAfter(a[1..], b, c);
      assert a == [a[0]] + a[1..];
    }
  }

  /** A separator-free prefix stays at the front of the first piece. */
  lemma {:induction false} SplitFirstStartsWith(a: string, b: string, c: char)
    requires c !in a
    ensures |Split(a + b, c)[0]| >= |a|
    ensures Split(a + b, c)[0][..|a|] == a
    decreases |a|
  {
    if |a| > 0 {
      assert (a + b)[1..] == a[1..] + b;
      SplitFirstStartsWith(a[1..], b, c);
      assert a == [a[0]] + a[1..];
    }
  }

  /** `s.replace(pat, "")`: drop every non-overlapping occurrence of `pat`,
      scanning from the left. */
  function RemoveAll(s: string, pat: string): (r: string)
    requires |pat| > 0
    ensures |r| <= |s|
    decreases |s|
  {
    if |s| < |pat| then s
    else if s[..|pat|] == pat then RemoveAll(s[|pat|..], pat)
    else [s[0]] + RemoveAll(s[1..], pat)
  }

  /** A stretch that cannot start an occurrence of the pattern is kept as is. */
  lemma {:induction false} RemoveAllSkips(a: string, b: string, pat: string)
    requires |pat| > 0 && pat[0] !in a
    ensures RemoveAll(a + b, pat) == a + RemoveAll(b, pat)
    decreases |a|
  {
    var s := a + b;
    if |a| == 0 {
      assert s == b;
    } else {
      assert a[0] in a;
      assert s[1..] == a[1..] + b;
      if |s| >= |pat| {
        assert s[..|pat|] != pat by { assert s[..|pat|][0] == a[0]; }
      }
      RemoveAllSkips(a[1..], b, pat);
      var rest := RemoveAll(b, pat);
      assert RemoveAll(s, pat) == [a[0]] + (a[1..] + rest);
      assert [a[0]] + (a[1..] + rest) == ([a[0]] + a[1..]) + rest;
      assert [a[0]] + a[1..] == a;
    }
  }

  /** An occurrence of the pattern after a stretch that cannot start one is
      dropped, and removal goes on behind it. */
  lemma RemoveAllDropsOccurrence(a: string, b: string, pat: string)
    requires |pat| > 0 && pat[0] !in a
    ensures RemoveAll(a + pat + b, pat) == a + RemoveAll(b, pat)
  {
    var t := pat + b;
    assert a + pat + b == a + t;
    RemoveAllSkips(a, t, pat);
    assert t[..|pat|] == pat;
    assert t[|pat|..] == b;
  }

  /** Removing a one-character pattern leaves no occurrence of it and keeps
      every other character, in order. */
  lemma {:induction false} RemoveAllChar(s: string, c: char)
    ensures c !in RemoveAll(s, [c])
    ensures RemoveAll(s, [c]) == Without(s, c)
    decreases |s|
  {
    if |s| > 0 {
      RemoveAllChar(s[1..], c);
      assert s[..1] == [s[0]];
    }
  }

  /** The characters of `s` other than `c`, in order. */
  function Without(s: string, c: char): string
    decreases |s|
  {
    if |s| == 0 then "" else (if s[0] == c then "" else [s[0]]) + Without(s[1..], c)
  }

  predicate IsUpper(c: char) { 'A' <= c <= 'Z' }
  predicate IsLower(c: char) { 'a' <= c <= 'z' }

  function ToUpper(c: char): char {
    if IsLower(c) then ((c as int) - 32) as char else c
  }

  function ToLower(c: char): char {
    if IsUpper(c) then ((c as int) + 32) as char else c
  }

  /** `s.capitalize()`: the first character upper-cased, the rest lower-cased. */
  function Capitalize(s: string): (r: string)
    ensures |r| == |s|
    ensures |r| > 0 ==> !IsLower(r[0])
    ensures forall i :: 1 <= i < |r| ==> !IsUpper(r[i])
    ensures forall i :: 0 <= i < |r| ==> ToLower(r[i]) == ToLower(s[i])
  {
    if |s| == 0 then ""
    else [ToUpper(s[0])] + seq(|s| - 1, i requires 0 <= i < |s| - 1 => ToLower(s[i + 1]))
  }

  function Concat(lines: seq<string>): string
    decreases |lines|
  {
    if |lines| == 0 then "" else lines[0] + Concat(lines[1..])
  }
}
