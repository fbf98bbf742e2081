/** The Python string built-ins the text-producing code relies on:
    sep.join, str.split with a one-character separator, str() of a
    non-negative int, the `in` substring test, str.replace, str.strip()
    and int() of a string. */
module Text {
  import opened Wrappers

  /** sep.join(parts), built from the end the way the loops append. */
  function Join(parts: seq<string>, sep: string): string
    decreases |parts|
  {
    if |parts| == 0 then ""
    else if |parts| == 1 then parts[0]
    else Join(parts[..|parts| - 1], sep) + sep + parts[|parts| - 1]
  }

  /** Joining a first part in front of at least one more. */
  lemma {:induction false} JoinCons(a: string, rest: seq<string>, sep: string)
    requires |rest| > 0
    ensures Join([a] + rest, sep) == a + sep + Join(rest, sep)
    decreases |rest|
  {
    if |rest| > 1 {
      var init := rest[..|rest| - 1];
      JoinCons(a, init, sep);
      assert ([a] + rest)[..|[a] + rest| - 1] == [a] + init;
    }
  }

  /** Joining two non-empty runs of parts puts one separator between them. */
  lemma {:induction false} JoinAppend(a: seq<string>, b: seq<string>, sep: string)
    requires |a| > 0 && |b| > 0
    ensures Join(a + b, sep) == Join(a, sep) + sep + Join(b, sep)
    decreases |b|
  {
    if |b| > 1 {
      var init := b[..|b| - 1];
      JoinAppend(a, init, sep);
      assert (a + b)[..|a + b| - 1] == a + init;
    } else {
      assert (a + b)[..|a + b| - 1] == a;
    }
  }

  /** The first index of c in s. */
  function IndexOf(s: string, c: char): (i: nat)
    requires c in s
    ensures i < |s| && s[i] == c && c !in s[..i]
  {
    if s[0] == c then 0 else 1 + IndexOf(s[1..], c)
  }

  /** s.split(c): the pieces between the separators, one more piece than
      there are separators. */
  function Split(s: string, c: char): (r: seq<string>)
    decreases |s|
  {
    if c !in s then [s]
    else
      var i := IndexOf(s, c);
      [s[..i]] + Split(s[i + 1..], c)
  }

  /** Splitting on c and joining with c gives the string back. */
  lemma {:induction false} JoinSplit(s: string, c: char)
    ensures Join(Split(s, c), [c]) == s
    decreases |s|
  {
    if c in s {
      var i := IndexOf(s, c);
      JoinSplit(s[i + 1..], c);
      JoinCons(s[..i], Split(s[i + 1..], c), [c]);
      assert s == s[..i] + [c] + s[i + 1..];
    }
  }

  /** Joining pieces that hold no c with c and splitting on c gives the
      pieces back. */
  lemma {:induction false} SplitJoin(parts: seq<string>, c: char)
    requires |parts| > 0
    requires forall k :: 0 <= k < |parts| ==> c !in parts[k]
    ensures Split(Join(parts, [c]), c) == parts
    decreases |parts|
  {
    if |parts| == 1 {
    } else {
      var a, rest := parts[0], parts[1..];
      assert parts == [a] + rest;
      JoinCons(a, rest, [c]);
      SplitJoin(rest, c);
      var s := Join(parts, [c]);
      assert s == a + [c] + Join(rest, [c]);
      assert s[..|a|] == a && s[|a|] == c;
      assert IndexOf(s, c) == |a| by {
        assert c in s[..|a| + 1];
      }
      assert s[|a| + 1..] == Join(rest, [c]);
    }
  }

  /** No piece of a split holds the separator. */
  lemma {:induction false} SplitPieces(s: string, c: char)
    ensures forall k :: 0 <= k < |Split(s, c)| ==> c !in Split(s, c)[k]
    decreases |s|
  {
    if c in s {
      SplitPieces(s[IndexOf(s, c) + 1..], c);
    }
  }

  /** Joining pieces that lack c with a separator that lacks c gives a
      string that lacks c. */
  lemma {:induction false} JoinLacks(parts: seq<string>, sep: string, c: char)
    requires forall k :: 0 <= k < |parts| ==> c !in parts[k]
    requires c !in sep
    ensures c !in Join(parts, sep)
    decreases |parts|
  {
    if |parts| > 1 {
      JoinLacks(parts[..|parts| - 1], sep, c);
    }
  }

  function DigitChar(d: int): char
    requires 0 <= d < 10
  {
    ('0' as int + d) as char
  }

  predicate IsDigit(c: char)
  {
    '0' <= c <= '9'
  }

  function DigitValue(c: char): nat
    requires IsDigit(c)
  {
    c as int - '0' as int
  }

  /** str(n) for n >= 0: its decimal digits. */
  function NatToString(n: nat): (r: string)
    ensures |r| > 0
    decreases n
  {
    if n < 10 then [DigitChar(n)] else NatToString(n / 10) + [DigitChar(n % 10)]
  }

  /** str(n) is made of digits only, and a single digit below ten. */
  lemma {:induction false} NatToStringDigits(n: nat)
    ensures forall k :: 0 <= k < |NatToString(n)| ==> IsDigit(NatToString(n)[k])
    ensures n < 10 ==> NatToString(n) == [DigitChar(n)]
    decreases n
  {
    if n >= 10 {
      NatToStringDigits(n / 10);
    }
  }

  /** `pat in s`: pat occurs somewhere in s. */
  predicate Contains(s: string, pat: string)
    decreases |s|
  {
    pat <= s || (|s| > 0 && Contains(s[1..], pat))
  }

  /** An occurrence at index i makes Contains hold ... */
  lemma {:induction false} ContainsAt(s: string, pat: string, i: nat)
    requires i <= |s| - |pat| && pat <= s[i..]
    ensures Contains(s, pat)
    decreases i
  {
    if i > 0 {
      assert s[1..][i - 1..] == s[i..];
      ContainsAt(s[1..], pat, i - 1);
    }
  }

  /** ... and Contains always has such an index. */
  lemma {:induction false} ContainsIndex(s: string, pat: string) returns (i: nat)
    requires Contains(s, pat)
    ensures i <= |s| - |pat| && pat <= s[i..]
    decreases |s|
  {
    if pat <= s {
      i := 0;
    } else {
      var j := ContainsIndex(s[1..], pat);
      assert s[1..][j..] == s[j + 1..];
      i := j + 1;
    }
  }

  /** s.replace(pat, rep) with a non-empty pat: occurrences are replaced
      from left to right, never overlapping. */
  function ReplaceAll(s: string, pat: string, rep: string): string
    requires |pat| > 0
    decreases |s|
  {
    if |s| == 0 then ""
    else if pat <= s then rep + ReplaceAll(s[|pat|..], pat, rep)
    else [s[0]] + ReplaceAll(s[1..], pat, rep)
  }

  /** A string without the pattern is left alone, and replacing a pattern
      by itself changes nothing. */
  lemma {:induction false} ReplaceAllIdentity(s: string, pat: string, rep: string)
    requires |pat| > 0
    requires !Contains(s, pat) || rep == pat
    ensures ReplaceAll(s, pat, rep) == s
    decreases |s|
  {
    if |s| > 0 {
      if pat <= s {
        ReplaceAllIdentity(s[|pat|..], pat, rep);
        assert pat + s[|pat|..] == s;
      } else {
        ReplaceAllIdentity(s[1..], pat, rep);
        assert [s[0]] + s[1..] == s;
      }
    }
  }

  /** Python's str.isspace() characters, the ones str.strip() removes. */
  predicate IsSpace(c: char)
  {
    var n := c as int;
    (0x09 <= n <= 0x0d) || (0x1c <= n <= 0x20) || n == 0x85 || n == 0xa0 || n == 0x1680 ||
    (0x2000 <= n <= 0x200a) || n == 0x2028 || n == 0x2029 || n == 0x202f || n == 0x205f ||
    n == 0x3000
  }

  /** The first index at or after i that does not hold whitespace. */
  function SkipSpace(s: string, i: nat): (r: nat)
    requires i <= |s|
    ensures i <= r <= |s| && (r < |s| ==> !IsSpace(s[r]))
    ensures forall k :: i <= k < r ==> IsSpace(s[k])
    decreases |s| - i
  {
    if i < |s| && IsSpace(s[i]) then SkipSpace(s, i + 1) else i
  }

  /** The end of s[lo..j] once its trailing whitespace is dropped. */
  function TrimSpace(s: string, lo: nat, j: nat): (r: nat)
    requires lo <= j <= |s|
    ensures lo <= r <= j && (r > lo ==> !IsSpace(s[r - 1]))
    ensures forall k :: r <= k < j ==> IsSpace(s[k])
    decreases j
  {
    if j > lo && IsSpace(s[j - 1]) then TrimSpace(s, lo, j - 1) else j
  }

  /** s.strip(): s without its leading and trailing whitespace. */
  function Strip(s: string): string
  {
    var lo := SkipSpace(s, 0);
    s[lo..TrimSpace(s, lo, |s|)]
  }

  /** Strip removes only whitespace: s is whitespace, then the result,
      then whitespace, and the result neither starts nor ends with any. */
  lemma StripShape(s: string)
    ensures var r := Strip(s);
      (exists i :: 0 <= i <= |s| - |r| && r <= s[i..] &&
        (forall k :: 0 <= k < i ==> IsSpace(s[k])) &&
        (forall k :: i + |r| <= k < |s| ==> IsSpace(s[k]))) &&
      (|r| > 0 ==> !IsSpace(r[0]) && !IsSpace(r[|r| - 1]))
  {
    var lo := SkipSpace(s, 0);
    var hi := TrimSpace(s, lo, |s|);
    assert Strip(s) <= s[lo..];
  }

  /** Stripping a string that neither starts nor ends with whitespace
      changes nothing; in particular stripping is idempotent. */
  lemma StripNothing(s: string)
    requires |s| > 0 ==> !IsSpace(s[0]) && !IsSpace(s[|s| - 1])
    ensures Strip(s) == s
  {
  }

  lemma StripIdempotent(s: string)
    ensures Strip(Strip(s)) == Strip(s)
  {
    StripShape(s);
    StripNothing(Strip(s));
  }

  /** The digits of s read as a decimal number, underscores skipped. */
  function DigitsValue(s: string): nat
    requires forall k :: 0 <= k < |s| ==> IsDigit(s[k]) || s[k] == '_'
    decreases |s|
  {
    if |s| == 0 then 0
    else if s[|s| - 1] == '_' then DigitsValue(s[..|s| - 1])
    else DigitsValue(s[..|s| - 1]) * 10 + DigitValue(s[|s| - 1])
  }

  /** A run of ASCII digits in which single underscores may separate two
      digits, as int() accepts it. */
  predicate DigitRun(s: string)
  {
    |s| > 0 && IsDigit(s[0]) && IsDigit(s[|s| - 1]) &&
    (forall k :: 0 <= k < |s| ==> IsDigit(s[k]) || s[k] == '_') &&
    (forall k :: 0 <= k < |s| - 1 ==> s[k] == '_' ==> s[k + 1] != '_')
  }

  /** A digit run's value, or None when the text is not one. */
  function ParseDigits(body: string): (r: Option<nat>)
    ensures r.Some? <==> DigitRun(body)
  {
    if DigitRun(body) then Some(DigitsValue(body)) else None
  }

  /** int(s) for a string: surrounding whitespace, an optional sign and a
      digit run; None where Python raises ValueError. */
  function ParseInt(s: string): Option<int>
  {
    var t := Strip(s);
    if |t| > 0 && (t[0] == '+' || t[0] == '-') then
      match ParseDigits(t[1..])
      case None => None
      case Some(v) => Some(if t[0] == '-' then 0 - v else v as int)
    else
      match ParseDigits(t)
      case None => None
      case Some(v) => Some(v)
  }

  lemma {:induction false} DigitsValueOf(n: nat)
    requires forall k :: 0 <= k < |NatToString(n)| ==> IsDigit(NatToString(n)[k])
    ensures DigitsValue(NatToString(n)) == n
    decreases n
  {
    if n >= 10 {
      var s := NatToString(n);
      assert s[..|s| - 1] == NatToString(n / 10);
      DigitsValueOf(n / 10);
    }
  }

  /** int(str(n)) == n. */
  lemma ParseIntOfNat(n: nat)
    ensures ParseInt(NatToString(n)) == Some(n)
  {
    var s := NatToString(n);
    NatToStringDigits(n);
    StripNothing(s);
    DigitsValueOf(n);
    assert IsDigit(s[0]) && IsDigit(s[|s| - 1]);
    assert DigitRun(s);
    assert ParseDigits(s) == Some(n);
  }
}
