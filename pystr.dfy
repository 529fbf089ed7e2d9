/**
 * The handful of Python `str` operations the bot relies on: `strip`, `lower`,
 * `isalpha`, `replace(x, "")`, `startswith`, `split` on one character, `int(...)`
 * and `str(n)` of a non-negative integer.  Character classes cover ASCII and the
 * Russian alphabet; full Unicode tables are not modelled.
 */
module PyStr {
  import opened Wrappers

  // ---------------------------------------------------------------- strip

  /**
   * The subset of the whitespace `str.strip()` removes that the model knows:
   * space and the controls TAB..CR.
   */
  predicate IsSpace(c: char) {
    c == ' ' || '\t' <= c <= '\r'
  }

  function TrimLeft(s: string): (r: string)
    ensures |r| <= |s| && r == s[|s| - |r|..]
    ensures r == [] || !IsSpace(r[0])
    ensures forall i :: 0 <= i < |s| - |r| ==> IsSpace(s[i])
  {
    if |s| > 0 && IsSpace(s[0]) then TrimLeft(s[1..]) else s
  }

  function TrimRight(s: string): (r: string)
    ensures |r| <= |s| && r == s[..|r|]
    ensures r == [] || !IsSpace(r[|r| - 1])
    ensures forall i :: |r| <= i < |s| ==> IsSpace(s[i])
  {
    if |s| > 0 && IsSpace(s[|s| - 1]) then TrimRight(s[..|s| - 1]) else s
  }

  /** `s.strip()`: the longest infix of `s` without whitespace at either end. */
  function Strip(s: string): (r: string)
    ensures |r| <= |s|
    ensures r == [] || (!IsSpace(r[0]) && !IsSpace(r[|r| - 1]))
  {
    TrimRight(TrimLeft(s))
  }

  predicate Stripped(s: string) {
    s == [] || (!IsSpace(s[0]) && !IsSpace(s[|s| - 1]))
  }

  /** A string with no whitespace at either end is its own strip. */
  lemma StripNoOp(s: string)
    requires Stripped(s)
    ensures Strip(s) == s
  {
    assert TrimLeft(s) == s;
  }

  lemma StripIdempotent(s: string)
    ensures Strip(Strip(s)) == Strip(s)
  {
    StripNoOp(Strip(s));
  }

  // ---------------------------------------------------------------- lower

  /** `str.lower()` on one character: Latin and Russian capitals map to small letters. */
  function LowerChar(c: char): char {
    if 'A' <= c <= 'Z' then (c as int + 32) as char
    else if 'А' <= c <= 'Я' then (c as int + 32) as char
    else if c == 'Ё' then 'ё'
    else c
  }

  function Lower(s: string): (r: string)
    ensures |r| == |s|
    ensures forall i :: 0 <= i < |s| ==> r[i] == LowerChar(s[i])
  {
    seq(|s|, i requires 0 <= i < |s| => LowerChar(s[i]))
  }

  lemma {:induction false} LowerIdempotent(s: string)
    ensures Lower(Lower(s)) == Lower(s)
  {
    forall i | 0 <= i < |s|
      ensures Lower(Lower(s))[i] == Lower(s)[i]
    {
      var c := s[i];
      assert LowerChar(LowerChar(c)) == LowerChar(c);
    }
  }

  lemma LowerCharKeepsSpace(c: char)
    ensures IsSpace(LowerChar(c)) == IsSpace(c)
  {
  }

  lemma {:induction false} TrimLeftLower(s: string)
    ensures TrimLeft(Lower(s)) == Lower(TrimLeft(s))
    decreases |s|
  {
    var l := Lower(s);
    if |s| > 0 {
      LowerCharKeepsSpace(s[0]);
      if IsSpace(s[0]) {
        assert TrimLeft(l) == TrimLeft(l[1..]);
        assert l[1..] == Lower(s[1..]);
        TrimLeftLower(s[1..]);
      } else {
        assert TrimLeft(l) == l;
      }
    }
  }

  lemma {:induction false} TrimRightLower(s: string)
    ensures TrimRight(Lower(s)) == Lower(TrimRight(s))
    decreases |s|
  {
    var l := Lower(s);
    if |s| > 0 {
      LowerCharKeepsSpace(s[|s| - 1]);
      if IsSpace(s[|s| - 1]) {
        assert TrimRight(l) == TrimRight(l[..|s| - 1]);
        assert l[..|s| - 1] == Lower(s[..|s| - 1]);
        TrimRightLower(s[..|s| - 1]);
      } else {
        assert TrimRight(l) == l;
      }
    }
  }

  /** `s.strip().lower()` and `s.lower().strip()` agree: lowering never creates or removes whitespace. */
  lemma {:induction false} StripLowerCommute(s: string)
    ensures Strip(Lower(s)) == Lower(Strip(s))
  {
    TrimLeftLower(s);
    TrimRightLower(TrimLeft(s));
  }

  /** The normal form used for English words is stable: normalising twice changes nothing. */
  lemma {:induction false} NormalizeIdempotent(s: string)
    ensures Lower(Strip(Lower(Strip(s)))) == Lower(Strip(s))
  {
    StripLowerCommute(Strip(s));
    StripIdempotent(s);
    LowerIdempotent(Strip(s));
  }

  // ---------------------------------------------------------------- isalpha

  /** Letters of the Latin and the Russian alphabets. */
  predicate IsLetter(c: char) {
    ('a' <= c <= 'z') || ('A' <= c <= 'Z') || ('А' <= c <= 'я') || c == 'Ё' || c == 'ё'
  }

  /** `s.isalpha()`: non-empty and letters only. */
  predicate IsAlpha(s: string) {
    |s| > 0 && forall i :: 0 <= i < |s| ==> IsLetter(s[i])
  }

  // ---------------------------------------------------------------- replace

  /** `s.replace(c, "")` for a one-character `c`. */
  function Remove(s: string, c: char): (r: string)
    ensures c !in r
    ensures |r| <= |s|
    ensures forall x :: x in r ==> x in s
    ensures c !in s ==> r == s
  {
    if s == [] then []
    else if s[0] == c then Remove(s[1..], c)
    else [s[0]] + Remove(s[1..], c)
  }

  predicate StartsWith(s: string, prefix: string) {
    |prefix| <= |s| && s[..|prefix|] == prefix
  }

  /** The characters left by `Remove(s, c)` are exactly those of `s` other than `c`. */
  lemma {:induction false} RemoveMembers(s: string, c: char)
    ensures forall x :: x in Remove(s, c) <==> x in s && x != c
    decreases |s|
  {
    if s != [] {
      RemoveMembers(s[1..], c);
      assert s == [s[0]] + s[1..];
    }
  }

  /** `s.replace(pat, "")`: removes the non-overlapping occurrences of `pat`, scanning left to right. */
  function RemoveAll(s: string, pat: string): (r: string)
    requires |pat| > 0
    ensures |r| <= |s|
    decreases |s|
  {
    if |s| == 0 then []
    else if StartsWith(s, pat) then RemoveAll(s[|pat|..], pat)
    else [s[0]] + RemoveAll(s[1..], pat)
  }

  /** Text that cannot start an occurrence of `pat` passes through `RemoveAll` untouched. */
  lemma {:induction false} RemoveAllSkipsPrefix(a: string, b: string, pat: string)
    requires |pat| > 0
    requires pat[0] !in a
    ensures RemoveAll(a + b, pat) == a + RemoveAll(b, pat)
    decreases |a|
  {
    if a != [] {
      var s := a + b;
      assert s[0] == a[0] && a[0] in a;
      assert !StartsWith(s, pat);
      assert s[1..] == a[1..] + b;
      RemoveAllSkipsPrefix(a[1..], b, pat);
      calc {
        RemoveAll(s, pat);
        [a[0]] + RemoveAll(a[1..] + b, pat);
        [a[0]] + (a[1..] + RemoveAll(b, pat));
        { assert [a[0]] + a[1..] == a; }
        a + RemoveAll(b, pat);
      }
    } else {
      assert a + b == b;
    }
  }

  /** `pat in s`: some position of `s` starts an occurrence of `pat`. */
  predicate Contains(s: string, pat: string) {
    exists i :: 0 <= i <= |s| && StartsWith(s[i..], pat)
  }

  /** A suffix of a string without `pat` is without `pat`. */
  lemma {:induction false} NotContainsSuffix(s: string, k: nat, pat: string)
    requires k <= |s| && !Contains(s, pat)
    ensures !Contains(s[k..], pat)
  {
    forall i | 0 <= i <= |s| - k
      ensures !StartsWith(s[k..][i..], pat)
    {
      assert s[k..][i..] == s[k + i..];
    }
  }

  /** A prefix of a string without `pat` is without `pat`. */
  lemma {:induction false} NotContainsPrefix(s: string, k: nat, pat: string)
    requires k <= |s| && !Contains(s, pat)
    ensures !Contains(s[..k], pat)
  {
    forall i | 0 <= i <= k
      ensures !StartsWith(s[..k][i..], pat)
    {
      assert !StartsWith(s[i..], pat);
      if |pat| <= k - i {
        assert s[..k][i..][..|pat|] == s[i..][..|pat|];
      }
    }
  }

  /** Stripping cannot create an occurrence of `pat`. */
  lemma {:induction false} NotContainsStrip(s: string, pat: string)
    requires !Contains(s, pat)
    ensures !Contains(Strip(s), pat)
  {
    var l := TrimLeft(s);
    NotContainsSuffix(s, |s| - |l|, pat);
    NotContainsPrefix(l, |TrimRight(l)|, pat);
  }

  /**
   * Removing every run of three equal characters leaves none behind: a kept
   * `c` is never followed by two more kept ones, since those three would
   * have formed an occurrence at the kept one.
   */
  lemma {:induction false} RemoveAllTripleGone(s: string, c: char)
    ensures !Contains(RemoveAll(s, [c, c, c]), [c, c, c])
    decreases |s|
  {
    var pat := [c, c, c];
    var r := RemoveAll(s, pat);
    if |s| == 0 {
      assert r == [];
    } else if StartsWith(s, pat) {
      RemoveAllTripleGone(s[3..], c);
    } else {
      var t := s[1..];
      var rest := RemoveAll(t, pat);
      RemoveAllTripleGone(t, c);
      assert r == [s[0]] + rest;
      forall i | 0 <= i <= |r|
        ensures !StartsWith(r[i..], pat)
      {
        if i == 0 {
          KeptHeadNotTriple(s, c);
        } else {
          assert r[i..] == rest[i - 1..];
        }
      }
    }
  }

  /** The case of `RemoveAllTripleGone` where the kept first character could start a run. */
  lemma {:induction false} KeptHeadNotTriple(s: string, c: char)
    requires |s| > 0 && !StartsWith(s, [c, c, c])
    ensures !StartsWith([s[0]] + RemoveAll(s[1..], [c, c, c]), [c, c, c])
  {
    var pat := [c, c, c];
    var t := s[1..];
    var r := [s[0]] + RemoveAll(t, pat);
    if s[0] == c && |t| > 0 {
      assert !StartsWith(t, pat) by {
        if |t| >= 3 {
          assert s[..3] == [s[0], t[0], t[1]];
        }
      }
      if t[0] != c {
        assert r[1] == t[0];
      } else if |t| == 1 {
        assert |r| == 2;
      } else {
        assert s[..3] == [s[0], t[0], t[1]];
        assert t[1] != c;
        assert !StartsWith(t[1..], pat);
        assert r[2] == t[1];
      }
    }
  }

  // ---------------------------------------------------------------- split

  /** `s.split(sep)` for a one-character separator: never empty, pieces free of `sep`. */
  function Split(s: string, sep: char): (r: seq<string>)
    ensures |r| >= 1
    ensures forall i :: 0 <= i < |r| ==> sep !in r[i]
    decreases |s|
  {
    if |s| == 0 then [""]
    else if s[0] == sep then [""] + Split(s[1..], sep)
    else
      var rest := Split(s[1..], sep);
      [[s[0]] + rest[0]] + rest[1..]
  }

  /** `sep.join(parts)`. */
  function Join(parts: seq<string>, sep: char): string
    requires |parts| >= 1
  {
    if |parts| == 1 then parts[0] else parts[0] + [sep] + Join(parts[1..], sep)
  }

  lemma {:induction false} SplitNoSep(a: string, sep: char)
    requires sep !in a
    ensures Split(a, sep) == [a]
    decreases |a|
  {
    if a != [] {
      SplitNoSep(a[1..], sep);
      assert [a[0]] + a[1..] == a;
    }
  }

  lemma {:induction false} SplitCons(a: string, b: string, sep: char)
    requires sep !in a
    ensures Split(a + [sep] + b, sep) == [a] + Split(b, sep)
    decreases |a|
  {
    var s := a + [sep] + b;
    if a == [] {
      assert s[1..] == b;
    } else {
      assert s[1..] == a[1..] + [sep] + b;
      SplitCons(a[1..], b, sep);
      assert [a[0]] + a[1..] == a;
    }
  }

  /** Splitting a join of separator-free pieces gives the pieces back. */
  lemma {:induction false} SplitJoin(parts: seq<string>, sep: char)
    requires |parts| >= 1
    requires forall i :: 0 <= i < |parts| ==> sep !in parts[i]
    ensures Split(Join(parts, sep), sep) == parts
    decreases |parts|
  {
    if |parts| == 1 {
      SplitNoSep(parts[0], sep);
    } else {
      SplitJoin(parts[1..], sep);
      SplitCons(parts[0], Join(parts[1..], sep), sep);
      assert [parts[0]] + parts[1..] == parts;
    }
  }

  // ---------------------------------------------------------------- integers

  predicate IsDigit(c: char) {
    '0' <= c <= '9'
  }

  predicate IsDigits(s: string) {
    |s| > 0 && forall i :: 0 <= i < |s| ==> IsDigit(s[i])
  }

  function DigitsValue(s: string): nat
    requires forall i :: 0 <= i < |s| ==> IsDigit(s[i])
  {
    if |s| == 0 then 0
    else
      assert IsDigit(s[|s| - 1]);
      DigitsValue(s[..|s| - 1]) * 10 + (s[|s| - 1] as int - '0' as int)
  }

  /** `int(s)`: optional surrounding whitespace, an optional sign, then ASCII digits. */
  function ParseInt(s: string): Option<int> {
    var t := Strip(s);
    if |t| > 0 && (t[0] == '-' || t[0] == '+') then
      if IsDigits(t[1..]) then
        var v: int := DigitsValue(t[1..]);
        Some(if t[0] == '-' then -v else v)
      else None
    else if IsDigits(t) then Some(DigitsValue(t))
    else None
  }

  /** `str(n)` for a non-negative integer: its decimal digits, no sign, no leading zeros. */
  function NatToString(n: nat): (r: string)
    ensures IsDigits(r)
    ensures r[0] != '0' || n == 0
  {
    var d := ('0' as int + n % 10) as char;
    if n < 10 then [d] else NatToString(n / 10) + [d]
  }

  lemma {:induction false} DigitsValueOfNatToString(n: nat)
    ensures DigitsValue(NatToString(n)) == n
  {
    if n >= 10 {
      var s := NatToString(n);
      DigitsValueOfNatToString(n / 10);
      assert s[..|s| - 1] == NatToString(n / 10);
    }
  }

  /** `int(str(n)) == n`. */
  lemma {:induction false} ParseIntOfNatToString(n: nat)
    ensures ParseInt(NatToString(n)) == Some(n)
  {
    var s := NatToString(n);
    StripNoOp(s);
    DigitsValueOfNatToString(n);
  }

  /** `str` is injective on non-negative integers. */
  lemma {:induction false} NatToStringInjective(a: nat, b: nat)
    requires NatToString(a) == NatToString(b)
    ensures a == b
  {
    ParseIntOfNatToString(a);
    ParseIntOfNatToString(b);
  }
}
