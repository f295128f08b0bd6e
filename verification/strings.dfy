/** The pieces of Python's `str` that the modelled code relies on:
    `strip`, `lower`/`upper`, `replace`, `split`, `startswith`/`endswith`,
    `os.path.basename`, decimal formatting (`str(n)`, `f"{n:06d}"`) and the
    base-10 grammar of `int(...)`. */
module Strings {
  import opened Wrappers

  // ---------------------------------------------------------------- whitespace

  /** Python's `str.isspace` on one character. */
  predicate IsSpace(c: char) {
    c == ' ' || ('\t' <= c <= '\r') || ('\U{1c}' <= c <= '\U{1f}')
    || c == '\U{85}' || c == '\U{a0}' || c == '\U{1680}'
    || ('\U{2000}' <= c <= '\U{200a}') || c == '\U{2028}' || c == '\U{2029}'
    || c == '\U{202f}' || c == '\U{205f}' || c == '\U{3000}'
  }

  /** `s.lstrip()`: the suffix of `s` after its leading whitespace. */
  function TrimStart(s: string): (r: string)
    ensures |r| <= |s| && r == s[|s| - |r|..]
    ensures r == [] || !IsSpace(r[0])
    ensures forall k :: 0 <= k < |s| - |r| ==> IsSpace(s[k])
  {
    if s != [] && IsSpace(s[0]) then TrimStart(s[1..]) else s
  }

  /** `s.rstrip()`: the prefix of `s` before its trailing whitespace. */
  function TrimEnd(s: string): (r: string)
    ensures |r| <= |s| && r == s[..|r|]
    ensures r == [] || !IsSpace(r[|r| - 1])
    ensures forall k :: |r| <= k < |s| ==> IsSpace(s[k])
  {
    if s != [] && IsSpace(s[|s| - 1]) then TrimEnd(s[..|s| - 1]) else s
  }

  /** `s.strip()`. */
  function Strip(s: string): (r: string)
    ensures r == [] || (!IsSpace(r[0]) && !IsSpace(r[|r| - 1]))
    ensures forall c :: c in r ==> c in s
  {
    TrimStartChars(s);
    TrimEnd(TrimStart(s))
  }

  /** `lstrip()` keeps only characters of its input. */
  lemma {:induction false} TrimStartChars(s: string)
    ensures forall c :: c in TrimStart(s) ==> c in s
  {
    if s != [] && IsSpace(s[0]) {
      TrimStartChars(s[1..]);
      assert forall c :: c in s[1..] ==> c in s;
    }
  }

  /** A string without surrounding whitespace is its own `strip()`. */
  lemma StripUnchanged(s: string)
    requires s == [] || (!IsSpace(s[0]) && !IsSpace(s[|s| - 1]))
    ensures Strip(s) == s
  {
  }

  /** Surrounding spaces are removed and nothing else. */
  lemma StripPadded(s: string)
    requires s != [] && !IsSpace(s[0]) && !IsSpace(s[|s| - 1])
    ensures Strip(" " + s + " ") == s
  {
    var t := s + " ";
    assert (" " + s + " ")[1..] == t;
    assert TrimStart(t) == t;
    assert TrimStart(" " + s + " ") == t;
    assert t[..|t| - 1] == s;
    assert TrimEnd(s) == s;
  }

  /** `strip()` is idempotent. */
  lemma StripIdempotent(s: string)
    ensures Strip(Strip(s)) == Strip(s)
  {
    StripUnchanged(Strip(s));
  }

  // ---------------------------------------------------------------- case

  /** ASCII case mapping used for `str.lower()`. */
  function LowerChar(c: char): char {
    if 'A' <= c <= 'Z' then (c as int + 32) as char else c
  }

  /** ASCII case mapping used for `str.upper()`. */
  function UpperChar(c: char): char {
    if 'a' <= c <= 'z' then (c as int - 32) as char else c
  }

  function Lower(s: string): (r: string)
    ensures |r| == |s|
  {
    seq(|s|, i requires 0 <= i < |s| => LowerChar(s[i]))
  }

  function Upper(s: string): (r: string)
    ensures |r| == |s|
  {
    seq(|s|, i requires 0 <= i < |s| => UpperChar(s[i]))
  }

  /** `upper()` leaves no lower-case ASCII letter behind and is idempotent. */
  lemma UpperIsUpper(s: string)
    ensures forall i :: 0 <= i < |s| ==> !('a' <= Upper(s)[i] <= 'z')
    ensures Upper(Upper(s)) == Upper(s)
  {
  }

  /** `upper()` neither adds nor removes a character that is not an ASCII
      letter. */
  lemma UpperKeeps(s: string, c: char)
    requires !('a' <= c <= 'z') && !('A' <= c <= 'Z')
    ensures c in Upper(s) <==> c in s
  {
    if c in s {
      var k :| 0 <= k < |s| && s[k] == c;
      assert Upper(s)[k] == c;
    }
    if c in Upper(s) {
      var k :| 0 <= k < |s| && Upper(s)[k] == c;
      assert s[k] == c;
    }
  }

  // ---------------------------------------------------------------- substrings

  predicate StartsWith(s: string, prefix: string) {
    |prefix| <= |s| && s[..|prefix|] == prefix
  }

  predicate EndsWith(s: string, suffix: string) {
    |suffix| <= |s| && s[|s| - |suffix|..] == suffix
  }

  /** `pat in s` for strings. */
  predicate Contains(s: string, pat: string) {
    StartsWith(s, pat) || (s != [] && Contains(s[1..], pat))
  }

  /** For a one-character pattern, `pat in s` is character membership. */
  lemma {:induction false} ContainsChar(s: string, c: char)
    ensures Contains(s, [c]) <==> c in s
  {
    if s != [] {
      ContainsChar(s[1..], c);
      assert s == [s[0]] + s[1..];
    }
  }

  /** A pattern does not occur where two of its neighbouring characters
      never stand side by side. */
  lemma {:induction false} NoPairNoMatch(s: string, pat: string, i: nat)
    requires i + 1 < |pat|
    requires forall j :: 0 <= j < |s| - 1 ==> !(s[j] == pat[i] && s[j + 1] == pat[i + 1])
    ensures !Contains(s, pat)
  {
    if s != [] {
      if |pat| <= |s| {
        assert s[..|pat|][i] == s[i] && s[..|pat|][i + 1] == s[i + 1];
      }
      NoPairNoMatch(s[1..], pat, i);
    }
  }

  /** Two ways of cutting a string at a separator that the first piece does
      not contain are the same cut. */
  lemma CutUnique(a: string, b: string, a': string, b': string, c: char)
    requires c !in a && c !in a'
    requires a + [c] + b == a' + [c] + b'
    ensures a == a' && b == b'
  {
    var x := a + [c] + b;
    assert x[|a|] == c && x[|a'|] == c;
    assert forall i :: 0 <= i < |a| ==> x[i] == a[i];
    assert forall i :: 0 <= i < |a'| ==> x[i] == a'[i];
    if |a| != |a'| {
      assert false;
    } else {
      assert a == x[..|a|] == a';
      assert b == x[|a| + 1..] == b';
    }
  }

  /** `s.replace(pat, rep)`: one left-to-right pass over non-overlapping
      occurrences; the replacement text is not scanned again. */
  /** A character that cannot start the pattern adds no occurrence in front. */
  lemma NotContainsPrepend(c: char, s: string, pat: string)
    requires pat != [] && c != pat[0] && !Contains(s, pat)
    ensures !Contains([c] + s, pat)
  {
    assert ([c] + s)[1..] == s;
    if |pat| <= |[c] + s| {
      assert ([c] + s)[..|pat|][0] == c;
    }
  }

  lemma {:induction false} NotContainsSuffix(pre: string, x: string, pat: string, k: nat)
    requires pat != [] && !Contains(x, pat) && k <= |pre|
    requires forall i :: k <= i < |pre| ==> pre[i] != pat[0]
    ensures !Contains(pre[k..] + x, pat)
    decreases |pre| - k
  {
    if k < |pre| {
      NotContainsSuffix(pre, x, pat, k + 1);
      assert pre[k..] + x == [pre[k]] + (pre[k + 1..] + x);
      NotContainsPrepend(pre[k], pre[k + 1..] + x, pat);
    } else {
      assert pre[k..] + x == x;
    }
  }

  /** A prefix that does not start with the pattern, and whose later characters
      cannot start it, adds no occurrence of the pattern. */
  lemma NotContainsAfterPrefix(pre: string, x: string, pat: string)
    requires pat != [] && !Contains(x, pat)
    requires |pat| <= |pre| && pre[..|pat|] != pat
    requires forall i :: 1 <= i < |pre| ==> pre[i] != pat[0]
    ensures !Contains(pre + x, pat)
  {
    NotContainsSuffix(pre, x, pat, 1);
    assert (pre + x)[1..] == pre[1..] + x;
    assert (pre + x)[..|pat|] == pre[..|pat|];
  }

  function ReplaceAll(s: string, pat: string, rep: string): (r: string)
    requires pat != []
    decreases |s|
  {
    if |s| < |pat| then s
    else if s[..|pat|] == pat then rep + ReplaceAll(s[|pat|..], pat, rep)
    else [s[0]] + ReplaceAll(s[1..], pat, rep)
  }

  /** Without an occurrence of the pattern, `replace` changes nothing. */
  lemma {:induction false} ReplaceAllAbsent(s: string, pat: string, rep: string)
    requires pat != [] && !Contains(s, pat)
    ensures ReplaceAll(s, pat, rep) == s
    decreases |s|
  {
    if |s| >= |pat| {
      ReplaceAllAbsent(s[1..], pat, rep);
    }
  }

  /** Replacing one character: it is gone afterwards unless the replacement
      reintroduces it, and every remaining character came from `s` or `rep`. */
  lemma {:induction false} ReplaceCharChars(s: string, c: char, rep: string, x: char)
    ensures x in ReplaceAll(s, [c], rep) ==> (x in s && x != c) || x in rep
    decreases |s|
  {
    if |s| >= 1 {
      ReplaceCharChars(s[1..], c, rep, x);
      if s[..1] == [c] {
        assert ReplaceAll(s, [c], rep) == rep + ReplaceAll(s[1..], [c], rep);
      } else {
        assert s[0] != c;
        assert ReplaceAll(s, [c], rep) == [s[0]] + ReplaceAll(s[1..], [c], rep);
      }
      assert forall y :: y in s[1..] ==> y in s;
    }
  }

  /** Replacing one character commutes with concatenation. */
  lemma {:induction false} ReplaceCharConcat(a: string, b: string, c: char, rep: string)
    ensures ReplaceAll(a + b, [c], rep) == ReplaceAll(a, [c], rep) + ReplaceAll(b, [c], rep)
    decreases |a|
  {
    if a != [] {
      assert (a + b)[1..] == a[1..] + b;
      assert (a + b)[..1] == a[..1];
      ReplaceCharConcat(a[1..], b, c, rep);
    } else {
      assert a + b == b;
    }
  }

  // ---------------------------------------------------------------- splitting

  function CountChar(s: string, c: char): nat {
    if s == [] then 0 else (if s[0] == c then 1 else 0) + CountChar(s[1..], c)
  }

  /** Occurrences of a character in a concatenation. */
  lemma {:induction false} CountCharConcat(a: string, b: string, c: char)
    ensures CountChar(a + b, c) == CountChar(a, c) + CountChar(b, c)
  {
    if a == [] {
      assert a + b == b;
    } else {
      assert (a + b)[0] == a[0];
      assert (a + b)[1..] == a[1..] + b;
      CountCharConcat(a[1..], b, c);
    }
  }

  lemma {:induction false} CountCharAbsent(s: string, c: char)
    requires c !in s
    ensures CountChar(s, c) == 0
  {
    if s != [] {
      assert forall x :: x in s[1..] ==> x in s;
      CountCharAbsent(s[1..], c);
    }
  }

  /** A text without the separator is one piece. */
  lemma SplitNoSeparator(s: string, sep: char)
    requires sep !in s
    ensures Split(s, sep) == [s]
  {
    CountCharAbsent(s, sep);
    var parts := Split(s, sep);
    assert forall k :: 0 <= k < |s| ==> s[k] != sep;
    assert parts[0] == s[..|s|] == s;
    assert parts == [parts[0]];
  }

  /** A separator right after a piece without separators ends that piece. */
  lemma {:induction false} SplitAfterPiece(a: string, rest: string, sep: char)
    requires sep !in a
    ensures Split(a + [sep] + rest, sep) == [a] + Split(rest, sep)
  {
    var s := a + [sep] + rest;
    if a == [] {
      assert s == [sep] + rest;
      assert s[1..] == rest;
    } else {
      assert s[0] == a[0];
      assert s[1..] == a[1..] + [sep] + rest;
      assert sep !in a[1..] by {
        assert forall x :: x in a[1..] ==> x in a;
      }
      SplitAfterPiece(a[1..], rest, sep);
      assert [a[0]] + a[1..] == a;
    }
  }

  /** Splitting what was joined gives back the pieces, when no piece holds
      the separator. */
  lemma {:induction false} JoinSplit(parts: seq<string>, sep: char)
    requires parts != []
    requires forall p :: p in parts ==> sep !in p
    ensures Split(Join(parts, sep), sep) == parts
  {
    if |parts| == 1 {
      assert parts[0] in parts;
      SplitNoSeparator(parts[0], sep);
    } else {
      assert parts[0] in parts;
      assert forall p :: p in parts[1..] ==> p in parts;
      JoinSplit(parts[1..], sep);
      SplitAfterPiece(parts[0], Join(parts[1..], sep), sep);
      assert [parts[0]] + parts[1..] == parts;
    }
  }

  /** `s.split(sep)` for a one-character separator: the pieces between
      separators, so there is always one piece more than separators. */
  function Split(s: string, sep: char): (parts: seq<string>)
    ensures |parts| == CountChar(s, sep) + 1
    ensures forall p :: p in parts ==> sep !in p
    ensures |parts[0]| <= |s| && parts[0] == s[..|parts[0]|]
    ensures |parts[0]| == |s| || s[|parts[0]|] == sep
  {
    if s == [] then [""]
    else
      var rest := Split(s[1..], sep);
      if s[0] == sep then [""] + rest
      else
        assert forall p :: p in rest[1..] ==> p in rest;
        [[s[0]] + rest[0]] + rest[1..]
  }

  /** `sep.join(parts)`. */
  function Join(parts: seq<string>, sep: char): string {
    if |parts| == 0 then ""
    else if |parts| == 1 then parts[0]
    else parts[0] + [sep] + Join(parts[1..], sep)
  }

  /** Joining the pieces of a split with the same separator gives back the
      original text. */
  lemma {:induction false} SplitJoin(s: string, sep: char)
    ensures Join(Split(s, sep), sep) == s
  {
    if s != [] {
      SplitJoin(s[1..], sep);
      var rest := Split(s[1..], sep);
      if s[0] == sep {
        assert ([""] + rest)[1..] == rest;
      } else {
        var parts := [[s[0]] + rest[0]] + rest[1..];
        if |rest| > 1 {
          assert parts[1..] == rest[1..];
          assert Join(rest, sep) == rest[0] + [sep] + Join(rest[1..], sep);
        }
      }
    }
  }

  /** `s.split(sep, 1)`: at most two pieces, cut at the first separator. */
  function SplitOnce(s: string, sep: char): (parts: seq<string>)
    ensures |parts| == 1 || |parts| == 2
    ensures |parts| == 2 <==> sep in s
    ensures |parts| == 1 ==> parts[0] == s
    ensures |parts| == 2 ==> sep !in parts[0] && parts[0] + [sep] + parts[1] == s
  {
    var head := Split(s, sep)[0];
    assert sep !in head;
    if |head| == |s| then
      assert head == s;
      [s]
    else
      assert s == head + [sep] + s[|head| + 1..];
      [head, s[|head| + 1..]]
  }

  /** `os.path.basename(p)` on POSIX: the text after the last '/'. */
  function Basename(p: string): (r: string)
    ensures '/' !in r
    ensures |r| <= |p| && r == p[|p| - |r|..]
    ensures |r| < |p| ==> p[|p| - |r| - 1] == '/'
  {
    if p == [] || p[|p| - 1] == '/' then []
    else Basename(p[..|p| - 1]) + [p[|p| - 1]]
  }

  /** A path without '/' is its own base name. */
  lemma {:induction false} BasenameNoSlash(p: string)
    requires '/' !in p
    ensures Basename(p) == p
  {
    if p != [] {
      var init := p[..|p| - 1];
      assert forall k :: 0 <= k < |init| ==> init[k] == p[k];
      assert p[|p| - 1] in p;
      BasenameNoSlash(init);
      assert init + [p[|p| - 1]] == p;
    }
  }

  /** The basename of a path that ends in a folder separator followed by a
      name without separators is that name. */
  lemma {:induction false} BasenameAfterSlash(dir: string, name: string)
    requires EndsWith(dir, "/") && '/' !in name
    ensures Basename(dir + name) == name
  {
    if name == [] {
      assert dir + name == dir;
      assert dir[|dir| - 1] == '/';
    } else {
      var init := name[..|name| - 1];
      assert (dir + name)[..|dir + name| - 1] == dir + init;
      BasenameAfterSlash(dir, init);
      assert init + [name[|name| - 1]] == name;
    }
  }

  // ---------------------------------------------------------------- decimal

  predicate IsDigit(c: char) {
    '0' <= c <= '9'
  }

  predicate AllDigits(s: string) {
    forall i :: 0 <= i < |s| ==> IsDigit(s[i])
  }

  function DigitChar(d: nat): (c: char)
    requires d < 10
    ensures IsDigit(c)
  {
    ('0' as int + d) as char
  }

  function DigitValue(c: char): (d: nat)
    requires IsDigit(c)
    ensures d < 10 && DigitChar(d) == c
  {
    c as int - '0' as int
  }

  /** `str(n)` for a natural number: its decimal digits, without leading
      zeros. */
  function NatToDecimal(n: nat): (s: string)
    ensures |s| >= 1 && AllDigits(s)
    ensures s[0] == '0' ==> n == 0
  {
    if n < 10 then [DigitChar(n)] else NatToDecimal(n / 10) + [DigitChar(n % 10)]
  }

  /** The number a string of decimal digits denotes. */
  function DecimalValue(s: string): nat
    requires AllDigits(s)
  {
    if s == [] then 0 else DecimalValue(s[..|s| - 1]) * 10 + DigitValue(s[|s| - 1])
  }

  /** Reading back what `str(n)` printed gives `n`. */
  lemma {:induction false} DecimalRoundTrip(n: nat)
    ensures DecimalValue(NatToDecimal(n)) == n
  {
    if n >= 10 {
      DecimalRoundTrip(n / 10);
      var s := NatToDecimal(n);
      assert s[..|s| - 1] == NatToDecimal(n / 10);
    }
  }

  /** Distinct numbers print differently. */
  lemma NatToDecimalInjective(a: nat, b: nat)
    ensures NatToDecimal(a) == NatToDecimal(b) ==> a == b
  {
    DecimalRoundTrip(a);
    DecimalRoundTrip(b);
  }

  /** `str(i)` for any integer. */
  function IntToString(i: int): (s: string)
    ensures |s| >= 1
    ensures s[0] == '-' <==> i < 0
  {
    if i < 0 then "-" + NatToDecimal(-i) else NatToDecimal(i)
  }

  /** Distinct integers print differently. */
  lemma IntToStringInjective(a: int, b: int)
    ensures IntToString(a) == IntToString(b) ==> a == b
  {
    if IntToString(a) == IntToString(b) {
      if a < 0 && b < 0 {
        assert IntToString(a)[1..] == NatToDecimal(-a);
        assert IntToString(b)[1..] == NatToDecimal(-b);
        NatToDecimalInjective(-a, -b);
      } else if a >= 0 && b >= 0 {
        NatToDecimalInjective(a, b);
      }
    }
  }

  /** `f"{n:0{width}d}"` for a digit string: left-padded with '0'. */
  function ZeroPad(s: string, width: nat): (r: string)
    ensures |r| == if |s| >= width then |s| else width
    ensures AllDigits(s) ==> AllDigits(r)
    decreases width - |s|
  {
    if |s| >= width then s else ZeroPad(['0'] + s, width)
  }

  /** A leading zero does not change a decimal value. */
  lemma {:induction false} LeadingZero(s: string)
    requires AllDigits(s)
    ensures DecimalValue(['0'] + s) == DecimalValue(s)
  {
    if s != [] {
      LeadingZero(s[..|s| - 1]);
      assert (['0'] + s)[..|s|] == ['0'] + s[..|s| - 1];
    }
  }

  /** Zero-padding does not change the decimal value. */
  lemma {:induction false} ZeroPadValue(s: string, width: nat)
    requires AllDigits(s)
    ensures DecimalValue(ZeroPad(s, width)) == DecimalValue(s)
    decreases width - |s|
  {
    if |s| < width {
      LeadingZero(s);
      ZeroPadValue(['0'] + s, width);
    }
  }

  // ---------------------------------------------------------------- int()

  /** Digits with single underscores between them, as `int()` accepts. */
  predicate DigitGroups(s: string) {
    && |s| >= 1 && IsDigit(s[0]) && IsDigit(s[|s| - 1])
    && (forall i :: 0 <= i < |s| ==> IsDigit(s[i]) || s[i] == '_')
    && (forall i :: 0 <= i < |s| - 1 ==> !(s[i] == '_' && s[i + 1] == '_'))
  }

  function RemoveUnderscores(s: string): (r: string)
    requires forall i :: 0 <= i < |s| ==> IsDigit(s[i]) || s[i] == '_'
    ensures AllDigits(r)
  {
    if s == [] then []
    else (if s[0] == '_' then [] else [s[0]]) + RemoveUnderscores(s[1..])
  }

  /** `int(s)` for base 10 on an already stripped string: an optional sign
      and digit groups; `None` where Python raises `ValueError`. */
  function ParseIntLiteral(s: string): Option<int> {
    if |s| >= 1 && (s[0] == '+' || s[0] == '-') then
      var body := s[1..];
      if DigitGroups(body) then
        var n: int := DecimalValue(RemoveUnderscores(body));
        Some(if s[0] == '-' then -n else n)
      else None
    else if DigitGroups(s) then Some(DecimalValue(RemoveUnderscores(s)))
    else None
  }

  lemma {:induction false} RemoveUnderscoresNone(s: string)
    requires AllDigits(s)
    ensures RemoveUnderscores(s) == s
  {
    if s != [] {
      RemoveUnderscoresNone(s[1..]);
    }
  }

  /** The digits `str(n)` prints are accepted by `int()` and read back as `n`. */
  lemma DecimalParses(n: nat)
    ensures DigitGroups(NatToDecimal(n))
    ensures DecimalValue(RemoveUnderscores(NatToDecimal(n))) == n
  {
    RemoveUnderscoresNone(NatToDecimal(n));
    DecimalRoundTrip(n);
  }

  /** `int(str(i)) == i`. */
  lemma IntParseRoundTrip(i: int)
    ensures ParseIntLiteral(IntToString(i)) == Some(i)
  {
    if i < 0 {
      NegativeParses(-i);
    } else {
      DecimalParses(i);
      assert IsDigit(NatToDecimal(i)[0]);
    }
  }

  lemma NegativeParses(n: nat)
    requires n > 0
    ensures ParseIntLiteral("-" + NatToDecimal(n)) == Some(-(n as int))
  {
    var d := NatToDecimal(n);
    DecimalParses(n);
    var s := "-" + d;
    assert s[1..] == d;
  }
}
