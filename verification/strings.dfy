/** Text helpers with Python's and Java's meaning: whitespace stripping,
    prefix/suffix/containment tests, splitting on a separator character,
    joining with a separator, ASCII lower-casing and decimal rendering. */
module Strings {
  import opened Wrappers

  /** The characters Python's `str.isspace()` accepts (and so `str.strip()` removes). */
  predicate IsSpace(c: char) {
    || c == ' ' || c == '\t' || c == '\n' || c == '\r'
    || c == '\U{000B}' || c == '\U{000C}'
    || ('\U{001C}' <= c <= '\U{001F}')
    || c == '\U{0085}' || c == '\U{00A0}' || c == '\U{1680}'
    || ('\U{2000}' <= c <= '\U{200A}')
    || c == '\U{2028}' || c == '\U{2029}' || c == '\U{202F}' || c == '\U{205F}' || c == '\U{3000}'
  }

  predicate AllSpace(s: string) {
    forall i :: 0 <= i < |s| ==> IsSpace(s[i])
  }

  /** Drops leading whitespace (Python `str.lstrip()`). */
  function LStrip(s: string): (r: string)
    ensures |r| <= |s|
    ensures r == [] || !IsSpace(r[0])
  {
    if |s| > 0 && IsSpace(s[0]) then LStrip(s[1..]) else s
  }

  /** What `lstrip()` keeps is a suffix, and only whitespace was dropped. */
  lemma {:induction false} LStripSuffix(s: string)
    ensures LStrip(s) == s[|s| - |LStrip(s)|..]
    ensures AllSpace(s[..|s| - |LStrip(s)|])
  {
    if |s| > 0 && IsSpace(s[0]) {
      var r := LStrip(s[1..]);
      LStripSuffix(s[1..]);
      assert s[1..][..|s| - 1 - |r|] == s[1..|s| - |r|];
      assert s[1..][|s| - 1 - |r|..] == s[|s| - |r|..];
    }
  }

  /** Drops trailing whitespace (Python `str.rstrip()`). */
  function RStrip(s: string): (r: string)
    ensures |r| <= |s|
    ensures r == [] || !IsSpace(r[|r| - 1])
  {
    if |s| > 0 && IsSpace(s[|s| - 1]) then RStrip(s[..|s| - 1]) else s
  }

  /** What `rstrip()` keeps is a prefix, and only whitespace was dropped. */
  lemma {:induction false} RStripPrefix(s: string)
    ensures RStrip(s) == s[..|RStrip(s)|]
    ensures AllSpace(s[|RStrip(s)|..])
  {
    if |s| > 0 && IsSpace(s[|s| - 1]) {
      var r := RStrip(s[..|s| - 1]);
      RStripPrefix(s[..|s| - 1]);
      assert s[..|s| - 1][|r|..] == s[|r|..|s| - 1];
      assert s[..|s| - 1][..|r|] == s[..|r|];
    }
  }

  /** Python `str.strip()`: both ends, and nothing is left of a blank string. */
  function Strip(s: string): (r: string)
    ensures |r| <= |s|
    ensures r == [] || (!IsSpace(r[0]) && !IsSpace(r[|r| - 1]))
    ensures r == [] <==> AllSpace(s)
  {
    StripBlank(s);
    RStripPrefix(LStrip(s));
    RStrip(LStrip(s))
  }

  lemma StripBlank(s: string)
    ensures RStrip(LStrip(s)) == [] <==> AllSpace(s)
  {
    var l := LStrip(s);
    var r := RStrip(l);
    LStripSuffix(s);
    RStripPrefix(l);
    if r == [] {
      assert s == s[..|s| - |l|] + l;
      assert AllSpace(l) by { assert l[|r|..] == l; }
    } else {
      assert r[0] == l[0];
      assert !AllSpace(s) by { assert s[|s| - |l|] == l[0]; }
    }
  }

  /** The last character that is not whitespace, if any. */
  function LastNonSpace(s: string): Option<char> {
    if |s| == 0 then None
    else if IsSpace(s[|s| - 1]) then LastNonSpace(s[..|s| - 1])
    else Some(s[|s| - 1])
  }

  /** Where the last non-space character sits: only whitespace follows it. */
  lemma {:induction false} LastNonSpaceAt(s: string) returns (p: nat)
    ensures LastNonSpace(s).None? ==> AllSpace(s)
    ensures LastNonSpace(s).Some? ==>
              p < |s| && s[p] == LastNonSpace(s).value && !IsSpace(s[p]) && AllSpace(s[p + 1..])
  {
    p := 0;
    if |s| > 0 && IsSpace(s[|s| - 1]) {
      var t := s[..|s| - 1];
      p := LastNonSpaceAt(t);
      forall i | 0 <= i < |t| ensures t[i] == s[i] { }
      if LastNonSpace(t).Some? {
        forall i | p + 1 <= i < |s| ensures IsSpace(s[i]) {
          if i < |s| - 1 { assert t[p + 1..][i - p - 1] == s[i]; }
        }
      }
    } else if |s| > 0 {
      p := |s| - 1;
    }
  }

  /** `strip()` ends with the last non-space character, and is empty when there is none. */
  lemma StripLast(s: string)
    ensures Strip(s) == [] <==> LastNonSpace(s).None?
    ensures Strip(s) != [] ==> LastNonSpace(s) == Some(Strip(s)[|Strip(s)| - 1])
  {
    var p := LastNonSpaceAt(s);
    if LastNonSpace(s).Some? {
      StripEndsAt(s, p);
    }
  }

  lemma {:induction false} RStripTrailing(a: string, b: string)
    requires |a| > 0 && !IsSpace(a[|a| - 1]) && AllSpace(b)
    ensures RStrip(a + b) == a
  {
    if |b| > 0 {
      RStripTrailing(a, b[..|b| - 1]);
      assert (a + b)[..|a + b| - 1] == a + b[..|b| - 1];
    }
  }

  /** When only whitespace follows a non-space character, `strip()` ends at that character. */
  lemma StripEndsAt(t: string, p: nat)
    requires p < |t| && !IsSpace(t[p]) && AllSpace(t[p + 1..])
    ensures Strip(t) != [] && Strip(t)[|Strip(t)| - 1] == t[p]
  {
    var l := LStrip(t);
    var k := |t| - |l|;
    LStripSuffix(t);
    forall i | 0 <= i < k ensures IsSpace(t[i]) {
      assert t[..k][i] == t[i];
    }
    assert k <= p;
    assert l == t[k..p + 1] + t[p + 1..];
    RStripTrailing(t[k..p + 1], t[p + 1..]);
  }

  /** A text that starts with a non-space character keeps it first under `strip()`. */
  lemma StripHead(s: string)
    requires |s| > 0 && !IsSpace(s[0])
    ensures |Strip(s)| > 0 && Strip(s)[0] == s[0]
  {
    assert LStrip(s) == s;
    RStripPrefix(s);
    assert !AllSpace(s);
  }

  /** Leading blanks make no difference to `strip()`. */
  lemma StripLeadingSpace(c: char, s: string)
    requires IsSpace(c)
    ensures Strip([c] + s) == Strip(s)
  {
    assert ([c] + s)[1..] == s;
  }

  /** A text with non-space ends is its own `strip()`. */
  lemma StripTrimmed(s: string)
    requires |s| > 0 && !IsSpace(s[0]) && !IsSpace(s[|s| - 1])
    ensures Strip(s) == s
  {
    assert LStrip(s) == s;
  }

  predicate StartsWith(s: string, prefix: string) {
    |prefix| <= |s| && s[..|prefix|] == prefix
  }

  predicate EndsWith(s: string, suffix: string) {
    |suffix| <= |s| && s[|s| - |suffix|..] == suffix
  }

  /** Python's `needle in s` / Java's `s.contains(needle)`. */
  predicate Contains(s: string, needle: string)
    decreases |s|
  {
    StartsWith(s, needle) || (|s| > 0 && Contains(s[1..], needle))
  }

  /** Python `s.split(sep)` for a one-character separator: never empty, and the
      pieces are the maximal separator-free runs. */
  function Split(s: string, sep: char): (r: seq<string>)
    ensures |r| >= 1
    ensures forall i :: 0 <= i < |r| ==> sep !in r[i]
  {
    if |s| == 0 then [""]
    else
      var rest := Split(s[1..], sep);
      if s[0] == sep then [""] + rest
      else [[s[0]] + rest[0]] + rest[1..]
  }

  /** Python `sep.join(parts)`. */
  function Join(parts: seq<string>, sep: string): string
  {
    if |parts| == 0 then ""
    else if |parts| == 1 then parts[0]
    else parts[0] + sep + Join(parts[1..], sep)
  }

  /** Joining one more part appends the separator and that part. */
  lemma {:induction false} JoinSnoc(parts: seq<string>, x: string, sep: string)
    requires |parts| >= 1
    ensures Join(parts + [x], sep) == Join(parts, sep) + sep + x
  {
    if |parts| > 1 {
      JoinSnoc(parts[1..], x, sep);
      assert (parts + [x])[1..] == parts[1..] + [x];
    } else {
      assert (parts + [x])[1..] == [x];
    }
  }

  /** A join of two or more parts opens with the first part and a separator, and
      closes with a separator and the last part. */
  lemma JoinEnds(parts: seq<string>, sep: string)
    requires |parts| >= 2
    ensures StartsWith(Join(parts, sep), parts[0] + sep)
    ensures EndsWith(Join(parts, sep), sep + parts[|parts| - 1])
    ensures EndsWith(Join(parts, sep), parts[|parts| - 1])
  {
    var last := parts[|parts| - 1];
    JoinSnoc(parts[..|parts| - 1], last, sep);
    assert parts[..|parts| - 1] + [last] == parts;
    var j := Join(parts, sep);
    assert j == Join(parts[..|parts| - 1], sep) + (sep + last);
    assert j[|j| - |last|..] == last;
  }

  /** Splitting and re-joining on the same separator gives the text back. */
  lemma {:induction false} JoinSplit(s: string, sep: char)
    ensures Join(Split(s, sep), [sep]) == s
  {
    if |s| > 0 {
      var rest := Split(s[1..], sep);
      JoinSplit(s[1..], sep);
      if s[0] == sep {
        assert s == [sep] + s[1..];
      } else {
        if |rest| == 1 {
          assert s == [s[0]] + s[1..];
        } else {
          assert Join(rest, [sep]) == rest[0] + [sep] + Join(rest[1..], [sep]);
          assert s == [s[0]] + s[1..];
        }
      }
    }
  }

  /** Joining separator-free pieces and splitting again gives the pieces back. */
  lemma {:induction false} SplitJoin(parts: seq<string>, sep: char)
    requires |parts| >= 1
    requires forall i :: 0 <= i < |parts| ==> sep !in parts[i]
    ensures Split(Join(parts, [sep]), sep) == parts
  {
    if |parts| == 1 {
      SplitNoSep(parts[0], sep);
    } else {
      SplitJoin(parts[1..], sep);
      SplitPrefix(parts[0], Join(parts[1..], [sep]), sep);
      assert [parts[0]] + parts[1..] == parts;
    }
  }

  lemma {:induction false} SplitNoSep(s: string, sep: char)
    requires sep !in s
    ensures Split(s, sep) == [s]
  {
    if |s| > 0 {
      SplitNoSep(s[1..], sep);
      assert s == [s[0]] + s[1..];
    }
  }

  lemma {:induction false} SplitPrefix(a: string, b: string, sep: char)
    requires sep !in a
    ensures Split(a + [sep] + b, sep) == [a] + Split(b, sep)
  {
    if |a| == 0 {
      assert a + [sep] + b == [sep] + b;
      assert ([sep] + b)[1..] == b;
    } else {
      SplitPrefix(a[1..], b, sep);
      assert (a + [sep] + b)[1..] == a[1..] + [sep] + b;
      assert [a[0]] + a[1..] == a;
    }
  }

  /** The first piece of a split is the separator-free lead plus the first piece of what follows. */
  lemma {:induction false} SplitFirst(a: string, b: string, sep: char)
    requires sep !in a
    ensures Split(a + b, sep)[0] == a + Split(b, sep)[0]
  {
    if |a| > 0 {
      SplitFirst(a[1..], b, sep);
      assert (a + b)[1..] == a[1..] + b;
      assert [a[0]] + a[1..] == a;
    } else {
      assert a + b == b;
    }
  }

  /** ASCII lower-casing. */
  function Lower(s: string): (r: string)
    ensures |r| == |s|
    ensures forall i :: 0 <= i < |s| ==> r[i] == LowerChar(s[i])
  {
    if |s| == 0 then "" else [LowerChar(s[0])] + Lower(s[1..])
  }

  function LowerChar(c: char): char {
    if 'A' <= c <= 'Z' then (c as int - 'A' as int + 'a' as int) as char else c
  }

  /** Python `s.replace(target, replacement)` for a one-character `target`. */
  function ReplaceChar(s: string, target: char, replacement: string): (r: string)
    ensures target !in replacement ==> target !in r
    ensures target !in s ==> r == s
  {
    if |s| == 0 then ""
    else (if s[0] == target then replacement else [s[0]]) + ReplaceChar(s[1..], target, replacement)
  }

  predicate IsDigit(c: char) {
    '0' <= c <= '9'
  }

  predicate AllDigits(s: string) {
    forall i :: 0 <= i < |s| ==> IsDigit(s[i])
  }

  /** Python `str(n)` for a non-negative integer: decimal, no leading zeros. */
  function NatToString(n: nat): (r: string)
    ensures |r| >= 1 && AllDigits(r)
    ensures r[0] == '0' ==> n == 0
  {
    if n < 10 then ["0123456789"[n]]
    else NatToString(n / 10) + ["0123456789"[n % 10]]
  }

  /** The value of a decimal digit string. */
  function ParseNat(s: string): nat
    requires AllDigits(s)
  {
    if |s| == 0 then 0
    else ParseNat(s[..|s| - 1]) * 10 + (s[|s| - 1] as int - '0' as int)
  }

  /** Reading back a rendered count gives the count. */
  lemma {:induction false} ParseNatToString(n: nat)
    ensures ParseNat(NatToString(n)) == n
  {
    var r := NatToString(n);
    if n >= 10 {
      ParseNatToString(n / 10);
      assert r[..|r| - 1] == NatToString(n / 10);
    }
  }
}
