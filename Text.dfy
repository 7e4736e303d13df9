/** The string operations the bot relies on, stated over `seq<char>`:
    `sep.join(xs)`, ASCII lower-casing (`str.lower`), stripping a set of
    characters from both ends (`str.strip(chars)`) and the decimal rendering
    of integers (`str(n)`, `f"{n}"`). `Contains` and `EndsWith` are not
    operations of the bot: they are predicates for stating what a reply
    contains. */
module Text {

  // ---------------------------------------------------------------------------
  // Joining and containment
  // ---------------------------------------------------------------------------

  /** `sep.join(xs)`: the items with `sep` between consecutive ones. */
  function Join(xs: seq<string>, sep: string): string
  {
    if |xs| == 0 then ""
    else if |xs| == 1 then xs[0]
    else xs[0] + sep + Join(xs[1..], sep)
  }

  /** `t` occurs in `s` at offset `k`. */
  predicate OccursAt(s: string, t: string, k: nat)
  {
    k + |t| <= |s| && s[k..k + |t|] == t
  }

  /** `t in s` for strings: `t` is a substring of `s`. */
  ghost predicate Contains(s: string, t: string)
  {
    exists k: nat :: OccursAt(s, t, k)
  }

  /** `s.endswith(t)`. */
  predicate EndsWith(s: string, t: string)
  {
    |t| <= |s| && s[|s| - |t|..] == t
  }

  lemma ContainsMiddle(a: string, t: string, b: string)
    ensures Contains(a + t + b, t)
  {
    assert (a + t + b)[|a|..|a| + |t|] == t;
    assert OccursAt(a + t + b, t, |a|);
  }

  lemma ContainsStart(t: string, b: string)
    ensures Contains(t + b, t)
  {
    assert (t + b)[..|t|] == t;
    assert OccursAt(t + b, t, 0);
  }

  lemma ContainsEnd(a: string, t: string)
    ensures Contains(a + t, t)
  {
    assert (a + t)[|a|..] == t;
    assert OccursAt(a + t, t, |a|);
  }

  lemma ContainsInLeft(s: string, t: string, u: string)
    requires Contains(s, u)
    ensures Contains(s + t, u)
  {
    var k: nat :| OccursAt(s, u, k);
    assert (s + t)[k..k + |u|] == s[k..k + |u|];
    assert OccursAt(s + t, u, k);
  }

  lemma ContainsInRight(s: string, t: string, u: string)
    requires Contains(t, u)
    ensures Contains(s + t, u)
  {
    var k: nat :| OccursAt(t, u, k);
    assert (s + t)[|s| + k..|s| + k + |u|] == t[k..k + |u|];
    assert OccursAt(s + t, u, |s| + k);
  }

  /** A substring of a substring is a substring. */
  lemma ContainsTransitive(s: string, t: string, u: string)
    requires Contains(s, t) && Contains(t, u)
    ensures Contains(s, u)
  {
    var k: nat :| OccursAt(s, t, k);
    var m: nat :| OccursAt(t, u, m);
    forall i | 0 <= i < |u| ensures s[k + m + i] == u[i] {
      assert u[i] == t[m + i] == s[k + m + i];
    }
    assert s[k + m..k + m + |u|] == u;
    assert OccursAt(s, u, k + m);
  }

  /** Every item of a join occurs in the joined string. */
  lemma {:induction false} JoinContains(xs: seq<string>, sep: string, i: nat)
    requires i < |xs|
    ensures Contains(Join(xs, sep), xs[i])
  {
    if |xs| == 1 {
      ContainsMiddle("", xs[0], "");
      assert "" + xs[0] + "" == Join(xs, sep);
    } else if i == 0 {
      ContainsMiddle("", xs[0], sep + Join(xs[1..], sep));
      assert "" + xs[0] + (sep + Join(xs[1..], sep)) == Join(xs, sep);
    } else {
      JoinContains(xs[1..], sep, i - 1);
      ContainsInRight(xs[0] + sep, Join(xs[1..], sep), xs[i]);
    }
  }

  /** A join starts with its first item and ends with its last one. */
  lemma {:induction false} JoinEnds(xs: seq<string>, sep: string)
    requires |xs| > 0
    ensures xs[0] <= Join(xs, sep)
    ensures EndsWith(Join(xs, sep), xs[|xs| - 1])
  {
    if |xs| > 1 {
      JoinEnds(xs[1..], sep);
      var rest := Join(xs[1..], sep);
      var last := xs[|xs| - 1];
      assert Join(xs, sep) == xs[0] + sep + rest;
      assert (xs[0] + sep + rest)[|xs[0] + sep + rest| - |last|..] == rest[|rest| - |last|..];
    }
  }

  /** Joining two non-empty lists is joining each and putting `sep` between. */
  lemma {:induction false} JoinConcat(xs: seq<string>, ys: seq<string>, sep: string)
    requires |xs| > 0 && |ys| > 0
    ensures Join(xs + ys, sep) == Join(xs, sep) + sep + Join(ys, sep)
  {
    if |xs| == 1 {
      assert (xs + ys)[1..] == ys;
    } else {
      assert (xs + ys)[1..] == xs[1..] + ys;
      JoinConcat(xs[1..], ys, sep);
    }
  }

  // ---------------------------------------------------------------------------
  // Lower-casing
  // ---------------------------------------------------------------------------

  predicate IsUpper(c: char)
  {
    'A' <= c <= 'Z'
  }

  /** No character of `s` is an upper-case letter. */
  predicate NoUpper(s: string)
  {
    forall i :: 0 <= i < |s| ==> !IsUpper(s[i])
  }

  function LowerChar(c: char): char
  {
    if IsUpper(c) then (c as int - 'A' as int + 'a' as int) as char else c
  }

  /** `s.lower()`, restricted to the letters A to Z. */
  function Lower(s: string): (r: string)
    ensures |r| == |s| && NoUpper(r)
    ensures forall i :: 0 <= i < |s| && !IsUpper(s[i]) ==> r[i] == s[i]
    ensures forall i :: 0 <= i < |s| && IsUpper(s[i]) ==> r[i] == (s[i] as int - 'A' as int + 'a' as int) as char
  {
    seq(|s|, i requires 0 <= i < |s| => LowerChar(s[i]))
  }

  /** `a` and `b` are the same character, or the capital and the small form
      of the same letter A to Z. */
  predicate CaseVariants(a: char, b: char)
  {
    || a == b
    || (IsUpper(a) && b as int == a as int + 32)
    || (IsUpper(b) && a as int == b as int + 32)
  }

  /** Two strings lower-case alike exactly when they have the same length and
      differ at most in the case of letters A to Z. */
  lemma LowerEqualIff(s: string, t: string)
    ensures Lower(s) == Lower(t) <==>
      |s| == |t| && forall i :: 0 <= i < |s| ==> CaseVariants(s[i], t[i])
  {
    if Lower(s) == Lower(t) {
      forall i | 0 <= i < |s| ensures CaseVariants(s[i], t[i]) {
        assert Lower(s)[i] == Lower(t)[i];
      }
    }
    if |s| == |t| && forall i :: 0 <= i < |s| ==> CaseVariants(s[i], t[i]) {
      forall i | 0 <= i < |s| ensures Lower(s)[i] == Lower(t)[i] {
        assert CaseVariants(s[i], t[i]);
      }
    }
  }

  /** Each argument lower-cased: `[x.lower() for x in xs]`. */
  function LowerAll(xs: seq<string>): (r: seq<string>)
    ensures |r| == |xs| && forall i :: 0 <= i < |r| ==> r[i] == Lower(xs[i])
  {
    seq(|xs|, i requires 0 <= i < |xs| => Lower(xs[i]))
  }

  /** Lower-casing leaves a string without capitals unchanged, so it is idempotent. */
  lemma LowerFixesLowered(s: string)
    requires NoUpper(s)
    ensures Lower(s) == s
  {
  }

  /** A join of strings without capitals has no capitals. */
  lemma {:induction false} JoinNoUpper(xs: seq<string>, sep: string)
    requires forall i :: 0 <= i < |xs| ==> NoUpper(xs[i])
    requires NoUpper(sep)
    ensures NoUpper(Join(xs, sep))
  {
    if |xs| > 1 {
      JoinNoUpper(xs[1..], sep);
      var s := xs[0] + sep + Join(xs[1..], sep);
      forall i | 0 <= i < |s| ensures !IsUpper(s[i]) {
        if i < |xs[0]| {
          assert s[i] == xs[0][i];
        } else if i < |xs[0]| + |sep| {
          assert s[i] == sep[i - |xs[0]|];
        } else {
          assert s[i] == Join(xs[1..], sep)[i - |xs[0]| - |sep|];
        }
      }
    }
  }

  // ---------------------------------------------------------------------------
  // Stripping a character set (`str.strip(chars)`)
  // ---------------------------------------------------------------------------

  /** `s.lstrip(cs)`: the longest suffix of `s` not starting with a character of `cs`. */
  function StripLeft(s: string, cs: set<char>): (r: string)
    ensures |r| <= |s| && r == s[|s| - |r|..]
    ensures forall i :: 0 <= i < |s| - |r| ==> s[i] in cs
    ensures r != [] ==> r[0] !in cs
    decreases |s|
  {
    if s != [] && s[0] in cs then StripLeft(s[1..], cs) else s
  }

  /** `s.rstrip(cs)`: the longest prefix of `s` not ending with a character of `cs`. */
  function StripRight(s: string, cs: set<char>): (r: string)
    ensures |r| <= |s| && r == s[..|r|]
    ensures forall i :: |r| <= i < |s| ==> s[i] in cs
    ensures r != [] ==> r[|r| - 1] !in cs
    decreases |s|
  {
    if s != [] && s[|s| - 1] in cs then StripRight(s[..|s| - 1], cs) else s
  }

  /** `s.strip(cs)`: both ends stripped; `cs` is a set of characters, not a word. */
  function Strip(s: string, cs: set<char>): string
  {
    StripRight(StripLeft(s, cs), cs)
  }

  /** Stripping removes a leading run of `cs` characters and stops at the first other one. */
  lemma {:induction false} StripLeftPrefix(p: string, s: string, cs: set<char>)
    requires forall i :: 0 <= i < |p| ==> p[i] in cs
    requires s != [] ==> s[0] !in cs
    ensures StripLeft(p + s, cs) == s
  {
    if p != [] {
      assert (p + s)[1..] == p[1..] + s;
      StripLeftPrefix(p[1..], s, cs);
    }
  }

  /** Stripping removes a trailing run of `cs` characters and stops at the last other one. */
  lemma {:induction false} StripRightSuffix(s: string, p: string, cs: set<char>)
    requires forall i :: 0 <= i < |p| ==> p[i] in cs
    requires s != [] ==> s[|s| - 1] !in cs
    ensures StripRight(s + p, cs) == s
  {
    if p != [] {
      assert (s + p)[..|s + p| - 1] == s + p[..|p| - 1];
      StripRightSuffix(s, p[..|p| - 1], cs);
    }
  }

  /** A string whose two ends are outside `cs` is left unchanged by stripping. */
  lemma StripTrimmed(s: string, cs: set<char>)
    requires s != [] && s[0] !in cs && s[|s| - 1] !in cs
    ensures Strip(s, cs) == s
  {
  }

  // ---------------------------------------------------------------------------
  // Decimal numbers (`str(n)`)
  // ---------------------------------------------------------------------------

  predicate IsDigit(c: char)
  {
    '0' <= c <= '9'
  }

  predicate AllDigits(s: string)
  {
    forall i :: 0 <= i < |s| ==> IsDigit(s[i])
  }

  function DigitChar(d: nat): (c: char)
    requires d < 10
  {
    ('0' as int + d) as char
  }

  function DigitValue(c: char): nat
    requires IsDigit(c)
  {
    c as int - '0' as int
  }

  /** `str(n)` for a natural number: digits only, no leading zero. */
  function NatToString(n: nat): (r: string)
    ensures |r| > 0 && AllDigits(r)
    ensures r[0] == '0' ==> n == 0
    decreases n
  {
    if n < 10 then [DigitChar(n)] else NatToString(n / 10) + [DigitChar(n % 10)]
  }

  /** The number a string of decimal digits denotes (`int(s)`). */
  function DigitsValue(s: string): nat
    requires AllDigits(s)
    decreases |s|
  {
    if s == [] then 0 else DigitsValue(s[..|s| - 1]) * 10 + DigitValue(s[|s| - 1])
  }

  /** `str(n)` for any integer: a minus sign before the digits of a negative number. */
  function IntToString(n: int): string
  {
    if n < 0 then "-" + NatToString(-n) else NatToString(n)
  }

  /** `int(s)` for the strings `IntToString` produces. */
  function ParseInt(s: string): int
    requires s != [] && (s[0] == '-' ==> AllDigits(s[1..])) && (s[0] != '-' ==> AllDigits(s))
  {
    if s[0] == '-' then -(DigitsValue(s[1..]) as int) else DigitsValue(s)
  }

  /** Reading back the decimal rendering of `n` gives `n`. */
  lemma {:induction false} NatToStringRoundTrip(n: nat)
    ensures DigitsValue(NatToString(n)) == n
    decreases n
  {
    var r := NatToString(n);
    if n >= 10 {
      NatToStringRoundTrip(n / 10);
      assert r[..|r| - 1] == NatToString(n / 10);
    }
  }

  /** Reading back the decimal rendering of an integer gives the integer. */
  lemma IntToStringRoundTrip(n: int)
    ensures var s := IntToString(n);
      s != [] && (s[0] == '-' ==> AllDigits(s[1..])) && (s[0] != '-' ==> AllDigits(s)) && ParseInt(s) == n
  {
    if n < 0 {
      NatToStringRoundTrip(-n);
      assert IntToString(n)[1..] == NatToString(-n);
    } else {
      NatToStringRoundTrip(n);
    }
  }
}
