/** Option, and the outcome of one call to the hosted text-generation model. */
module Wrappers {

  datatype Option<+T> = None | Some(value: T)

  /** What one `generateContent` call produced: the reply text, or an error
      thrown by the client library or by the network. */
  datatype Reply = Replied(text: string) | Failed
}

/**
 * String operations of the JavaScript runtime that the application relies on:
 * trimming, prefix tests, `split`/`join`, substring search, `\D` filtering,
 * decimal rendering of numbers and case folding.
 */
module Text {

  /** The code points JavaScript treats as white space or line terminators:
      what `String.prototype.trim` strips and what `\s` matches. */
  predicate IsSpace(c: char) {
    c == '\t' || c == '\n' || c == '\U{000B}' || c == '\U{000C}' || c == '\r' ||
    c == ' ' || c == '\U{00A0}' || c == '\U{1680}' || ('\U{2000}' <= c <= '\U{200A}') ||
    c == '\U{2028}' || c == '\U{2029}' || c == '\U{202F}' || c == '\U{205F}' ||
    c == '\U{3000}' || c == '\U{FEFF}'
  }

  predicate AllSpace(s: string) {
    forall k :: 0 <= k < |s| ==> IsSpace(s[k])
  }

  /** The number of white-space characters `s` starts with. */
  function LeadingSpaces(s: string): (n: nat)
    ensures n <= |s|
  {
    if s != [] && IsSpace(s[0]) then 1 + LeadingSpaces(s[1..]) else 0
  }

  /** `s` without the white space it ends with. */
  function TrimEnd(s: string): (r: string)
    ensures |r| <= |s|
  {
    if s != [] && IsSpace(s[|s| - 1]) then TrimEnd(s[..|s| - 1]) else s
  }

  /** `s.trim()`: `s` without the white space it starts and ends with. */
  function Trim(s: string): string
    decreases |s|
  {
    if s != [] && IsSpace(s[0]) then Trim(s[1..]) else TrimEnd(s)
  }

  /** `LeadingSpaces` counts exactly the white space before the first other
      character. */
  lemma {:induction false} LeadingSpacesSpec(s: string)
    ensures var n := LeadingSpaces(s);
      (forall k :: 0 <= k < n ==> IsSpace(s[k])) && (n < |s| ==> !IsSpace(s[n]))
  {
    if s != [] && IsSpace(s[0]) {
      LeadingSpacesSpec(s[1..]);
    }
  }

  /** `TrimEnd` drops exactly the white space after the last other character. */
  lemma {:induction false} TrimEndSpec(s: string)
    ensures var r := TrimEnd(s);
      && r <= s
      && (forall k :: |r| <= k < |s| ==> IsSpace(s[k]))
      && (r != [] ==> !IsSpace(r[|r| - 1]))
  {
    if s != [] && IsSpace(s[|s| - 1]) {
      TrimEndSpec(s[..|s| - 1]);
    }
  }

  /** The trimmed text is the run of `s` that starts at its first character
      that is not white space and leaves only white space after it; it neither
      starts nor ends with white space, and it is empty exactly when `s` is all
      white space. */
  lemma TrimSpec(s: string)
    ensures var r := Trim(s);
      var n := LeadingSpaces(s);
      && n + |r| <= |s| && r == s[n..n + |r|]
      && (forall k :: 0 <= k < n ==> IsSpace(s[k]))
      && (forall k :: n + |r| <= k < |s| ==> IsSpace(s[k]))
      && (r != [] ==> !IsSpace(r[0]) && !IsSpace(r[|r| - 1]))
      && (r == [] <==> AllSpace(s))
  {
    var n := LeadingSpaces(s);
    var t := s[n..];
    var r := Trim(s);
    TrimSkipsLeadingSpaces(s);
    LeadingSpacesSpec(s);
    TrimEndSpec(t);
    assert r == s[n..n + |r|];
    forall k | n + |r| <= k < |s|
      ensures IsSpace(s[k])
    {
      assert s[k] == t[k - n];
    }
    if r != [] {
      assert r[0] == s[n];
    }
  }

  lemma {:induction false} TrimSkipsLeadingSpaces(s: string)
    ensures Trim(s) == TrimEnd(s[LeadingSpaces(s)..])
    decreases |s|
  {
    if s != [] && IsSpace(s[0]) {
      TrimSkipsLeadingSpaces(s[1..]);
      assert s[1..][LeadingSpaces(s[1..])..] == s[LeadingSpaces(s)..];
    }
  }

  /** Trimming a word after one leading space gives back the word. */
  lemma TrimAfterSpace(w: string)
    requires w != [] && !IsSpace(w[0]) && !IsSpace(w[|w| - 1])
    ensures Trim(" " + w) == w
  {
    var s := " " + w;
    assert s[1..] == w;
    assert LeadingSpaces(s) == 1;
  }

  /** `line.trim()` is falsy. */
  predicate IsBlank(s: string) {
    Trim(s) == []
  }

  /** `s.startsWith(p)`. */
  predicate StartsWith(s: string, p: string) {
    p <= s
  }

  /** `s.split(sep)` for a non-empty separator: the separator's occurrences are
      found left to right without overlap and the pieces between them are kept,
      empty pieces included. */
  function SplitOn(s: string, sep: string): (r: seq<string>)
    requires sep != []
    ensures |r| >= 1
    decreases |s|
  {
    if sep <= s then [""] + SplitOn(s[|sep|..], sep)
    else if s == [] then [""]
    else
      var rest := SplitOn(s[1..], sep);
      [[s[0]] + rest[0]] + rest[1..]
  }

  /** `parts.join(sep)`. */
  function Join(parts: seq<string>, sep: string): string
  {
    if |parts| == 0 then ""
    else if |parts| == 1 then parts[0]
    else parts[0] + sep + Join(parts[1..], sep)
  }

  /** Joining the pieces of a split with the same separator gives back the text. */
  lemma {:induction false} JoinSplit(s: string, sep: string)
    requires sep != []
    ensures Join(SplitOn(s, sep), sep) == s
    decreases |s|
  {
    if sep <= s {
      JoinSplit(s[|sep|..], sep);
      JoinSplitAtSeparator(s, sep);
    } else if s != [] {
      JoinSplit(s[1..], sep);
      JoinSplitAtChar(s, sep);
    }
  }

  /** The step of `JoinSplit` when the text starts with the separator. */
  lemma JoinSplitAtSeparator(s: string, sep: string)
    requires sep != [] && sep <= s
    requires Join(SplitOn(s[|sep|..], sep), sep) == s[|sep|..]
    ensures Join(SplitOn(s, sep), sep) == s
  {
    var tail := s[|sep|..];
    assert s == sep + tail by {
      assert s[..|sep|] == sep;
      assert s == s[..|sep|] + tail;
    }
    assert SplitOn(s, sep) == [""] + SplitOn(tail, sep);
    JoinCons("", SplitOn(tail, sep), sep);
    assert "" + sep == sep;
  }

  /** The step of `JoinSplit` when the text starts with another character. */
  lemma JoinSplitAtChar(s: string, sep: string)
    requires sep != [] && !(sep <= s) && s != []
    requires Join(SplitOn(s[1..], sep), sep) == s[1..]
    ensures Join(SplitOn(s, sep), sep) == s
  {
    var rest := SplitOn(s[1..], sep);
    assert SplitOn(s, sep) == [[s[0]] + rest[0]] + rest[1..];
    JoinExtendFirst(s[0], rest, sep);
    assert [s[0]] + s[1..] == s;
  }

  lemma JoinCons(p: string, t: seq<string>, sep: string)
    requires t != []
    ensures Join([p] + t, sep) == p + sep + Join(t, sep)
  {
    assert ([p] + t)[1..] == t;
  }

  lemma JoinExtendFirst(c: char, t: seq<string>, sep: string)
    requires t != []
    ensures Join([[c] + t[0]] + t[1..], sep) == [c] + Join(t, sep)
  {
    var r := [[c] + t[0]] + t[1..];
    if |t| > 1 {
      assert r[1..] == t[1..];
    }
  }

  /** A piece that does not contain the separator's first character is not cut. */
  lemma {:induction false} SplitFree(p: string, sep: string)
    requires sep != [] && sep[0] !in p
    ensures SplitOn(p, sep) == [p]
    decreases |p|
  {
    if p != [] {
      assert !(sep <= p) by { assert p[0] != sep[0]; }
      SplitFree(p[1..], sep);
      assert [p[0]] + p[1..] == p;
    }
  }

  /** The first separator after a separator-free piece ends that piece. */
  lemma {:induction false} SplitAfterFree(p: string, sep: string, rest: string)
    requires sep != [] && sep[0] !in p
    ensures SplitOn(p + sep + rest, sep) == [p] + SplitOn(rest, sep)
    decreases |p|
  {
    var s := p + sep + rest;
    if p == [] {
      assert s == sep + rest;
      assert s[|sep|..] == rest;
    } else {
      assert !(sep <= s) by { assert s[0] == p[0] != sep[0]; }
      assert s[1..] == p[1..] + sep + rest;
      SplitAfterFree(p[1..], sep, rest);
      assert [p[0]] + p[1..] == p;
    }
  }

  /** Splitting a join gives back the parts, provided no part contains the
      separator's first character (so every occurrence is a joint). */
  lemma {:induction false} SplitJoin(parts: seq<string>, sep: string)
    requires sep != [] && parts != []
    requires forall k :: 0 <= k < |parts| ==> sep[0] !in parts[k]
    ensures SplitOn(Join(parts, sep), sep) == parts
    decreases |parts|
  {
    if |parts| == 1 {
      SplitFree(parts[0], sep);
    } else {
      SplitJoin(parts[1..], sep);
      SplitAfterFree(parts[0], sep, Join(parts[1..], sep));
      assert [parts[0]] + parts[1..] == parts;
    }
  }

  /** A piece of a split on a one-character separator holds only characters of
      the text, and never the separator. */
  lemma {:induction false} SplitPieceChars(s: string, sep: string, j: nat)
    requires |sep| == 1 && j < |SplitOn(s, sep)|
    ensures sep[0] !in SplitOn(s, sep)[j]
    ensures forall c :: c in SplitOn(s, sep)[j] ==> c in s
    decreases |s|
  {
    if sep <= s {
      var r := SplitOn(s[|sep|..], sep);
      if j > 0 {
        SplitPieceChars(s[|sep|..], sep, j - 1);
        assert SplitOn(s, sep)[j] == r[j - 1];
      }
    } else if s != [] {
      var rest := SplitOn(s[1..], sep);
      if j == 0 {
        SplitPieceChars(s[1..], sep, 0);
      } else {
        SplitPieceChars(s[1..], sep, j);
        assert SplitOn(s, sep)[j] == rest[j];
      }
    }
  }

  /** A character of a join comes from the separator or from one of the parts. */
  lemma {:induction false} JoinChars(parts: seq<string>, sep: string, c: char)
    requires c !in sep && forall k :: 0 <= k < |parts| ==> c !in parts[k]
    ensures c !in Join(parts, sep)
    decreases |parts|
  {
    if |parts| > 1 {
      JoinChars(parts[1..], sep, c);
    }
  }

  /** `s.includes(p)`. */
  predicate Contains(s: string, p: string)
    decreases |s|
  {
    p <= s || (s != [] && Contains(s[1..], p))
  }

  /** `Contains` holds exactly when `p` occurs at some index of `s`. */
  lemma {:induction false} ContainsIff(s: string, p: string)
    ensures Contains(s, p) <==> exists i :: 0 <= i <= |s| && p <= s[i..]
    decreases |s|
  {
    assert s[0..] == s;
    if s != [] {
      ContainsIff(s[1..], p);
      if Contains(s, p) && !(p <= s) {
        var i :| 0 <= i <= |s[1..]| && p <= s[1..][i..];
        assert s[1..][i..] == s[i + 1..];
      }
      if exists i :: 0 <= i <= |s| && p <= s[i..] {
        var i :| 0 <= i <= |s| && p <= s[i..];
        if i > 0 {
          assert s[1..][i - 1..] == s[i..];
        }
      }
    }
  }

  predicate IsDigit(c: char) {
    '0' <= c <= '9'
  }

  /** `s.replace(/\D/g, '')`: the digits of `s`, in order. */
  function DigitsOnly(s: string): (r: string)
    ensures forall k :: 0 <= k < |r| ==> IsDigit(r[k])
    ensures forall c {:trigger c in r} :: c in r <==> c in s && IsDigit(c)
    ensures |r| <= |s|
  {
    if s == [] then ""
    else (if IsDigit(s[0]) then [s[0]] else "") + DigitsOnly(s[1..])
  }

  lemma {:induction false} DigitsOnlyOfDigits(s: string)
    requires forall k :: 0 <= k < |s| ==> IsDigit(s[k])
    ensures DigitsOnly(s) == s
  {
    if s != [] {
      DigitsOnlyOfDigits(s[1..]);
      assert [s[0]] + s[1..] == s;
    }
  }

  lemma {:induction false} DigitsOnlyAppend(a: string, b: string)
    ensures DigitsOnly(a + b) == DigitsOnly(a) + DigitsOnly(b)
  {
    if a != [] {
      DigitsOnlyAppend(a[1..], b);
      assert (a + b)[1..] == a[1..] + b;
    } else {
      assert a + b == b;
    }
  }

  /** Each character of a string is kept exactly when it is a digit, and in
      its place: what comes before it and what comes after it are cleaned
      on their own. */
  lemma DigitsOnlyEach(a: string, c: char, b: string)
    ensures DigitsOnly(a + [c] + b) == DigitsOnly(a) + (if IsDigit(c) then [c] else "") + DigitsOnly(b)
  {
    DigitsOnlyAppend(a + [c], b);
    DigitsOnlyAppend(a, [c]);
    assert [c][1..] == "";
  }

  function DigitChar(d: nat): (c: char)
    requires d < 10
    ensures IsDigit(c)
  {
    ('0' as int + d) as char
  }

  /** The decimal rendering of a natural number, as template literals print it. */
  function Decimal(n: nat): (r: string)
    ensures r != []
    ensures forall k :: 0 <= k < |r| ==> IsDigit(r[k])
  {
    if n < 10 then [DigitChar(n)] else Decimal(n / 10) + [DigitChar(n % 10)]
  }

  /** Reading a string of digits as a decimal number. */
  function DigitsValue(s: string): nat
    requires forall k :: 0 <= k < |s| ==> IsDigit(s[k])
  {
    if s == [] then 0
    else
      var last := s[|s| - 1];
      assert IsDigit(last);
      10 * DigitsValue(s[..|s| - 1]) + (last as int - '0' as int)
  }

  /** Reading back a decimal rendering gives the number: rendering is injective. */
  lemma {:induction false} DecimalRoundTrip(n: nat)
    ensures DigitsValue(Decimal(n)) == n
  {
    if n >= 10 {
      DecimalRoundTrip(n / 10);
      var s := Decimal(n);
      assert s[..|s| - 1] == Decimal(n / 10);
    }
  }

  lemma DecimalInjective(a: nat, b: nat)
    requires Decimal(a) == Decimal(b)
    ensures a == b
  {
    DecimalRoundTrip(a);
    DecimalRoundTrip(b);
  }

  /** The case folding of a JavaScript `/i` regular expression without the `u`
      flag, restricted to what matters when the pattern is upper-case ASCII:
      only `a`..`z` fold (the runtime refuses to fold a non-ASCII character onto
      an ASCII one). */
  function FoldUpperAscii(c: char): char {
    if 'a' <= c <= 'z' then (c as int - 32) as char else c
  }

  /** The upper-case ASCII pattern `pat` matches `s` at index `i`, ignoring case. */
  predicate MatchesAtIgnoreCase(s: string, i: nat, pat: string) {
    i + |pat| <= |s| && forall k :: 0 <= k < |pat| ==> FoldUpperAscii(s[i + k]) == pat[k]
  }

  /** A match starts with the pattern's first character, up to case. */
  lemma MatchStartsWith(s: string, i: nat, pat: string)
    requires pat != [] && i < |s|
    ensures MatchesAtIgnoreCase(s, i, pat) ==> FoldUpperAscii(s[i]) == pat[0]
  {
    if MatchesAtIgnoreCase(s, i, pat) {
      assert s[i + 0] == s[i];
    }
  }

  /** `toLowerCase` on one character, for ASCII and the Latin-1 letters. */
  function LowerChar(c: char): char {
    if IsCapital(c) then (c as int + 32) as char else c
  }

  /** The capitals `toLowerCase` changes here: `A`-`Z` and the Latin-1
      capitals `À`-`Þ` other than the sign `×`. */
  predicate IsCapital(c: char) {
    'A' <= c <= 'Z' || ('\U{00C0}' <= c <= '\U{00DE}' && c != '\U{00D7}')
  }

  /** `s.toLowerCase()`, character by character (see `LowerChar`): no capital
      is left, every other character stays as it was, and each capital
      becomes its small letter, 32 code points further. */
  function ToLower(s: string): (r: string)
    ensures |r| == |s|
    ensures forall k :: 0 <= k < |r| ==> !IsCapital(r[k])
    ensures forall k :: 0 <= k < |s| && !IsCapital(s[k]) ==> r[k] == s[k]
    ensures forall k :: 0 <= k < |s| && IsCapital(s[k]) ==> r[k] as int == s[k] as int + 32
  {
    seq(|s|, k requires 0 <= k < |s| => LowerChar(s[k]))
  }

  /** A string without capitals is its own lower case. */
  lemma ToLowerOfLower(s: string)
    requires forall k :: 0 <= k < |s| ==> !IsCapital(s[k])
    ensures ToLower(s) == s
  {
  }

  /** Lower-casing twice is lower-casing once. */
  lemma ToLowerIdempotent(s: string)
    ensures ToLower(ToLower(s)) == ToLower(s)
  {
    ToLowerOfLower(ToLower(s));
  }

  /** `s` with every occurrence of `c` removed (`s.replace(/c/g, '')`). */
  function Without(s: string, c: char): (r: string)
    ensures c !in r
    ensures forall d {:trigger d in r} :: d in r <==> d in s && d != c
    ensures |r| <= |s|
  {
    if s == [] then ""
    else (if s[0] == c then "" else [s[0]]) + Without(s[1..], c)
  }

  /** Removal distributes over concatenation. */
  lemma {:induction false} WithoutAppend(a: string, b: string, c: char)
    ensures Without(a + b, c) == Without(a, c) + Without(b, c)
  {
    if a != [] {
      WithoutAppend(a[1..], b, c);
      assert (a + b)[1..] == a[1..] + b;
    } else {
      assert a + b == b;
    }
  }

  /** Each character other than `c` is kept in its place, and `c` is
      dropped. */
  lemma WithoutEach(a: string, x: char, b: string, c: char)
    ensures Without(a + [x] + b, c) == Without(a, c) + (if x == c then "" else [x]) + Without(b, c)
  {
    WithoutAppend(a + [x], b, c);
    WithoutAppend(a, [x], c);
    assert [x][1..] == "";
  }

  /** A string without `c` is left unchanged. */
  lemma {:induction false} WithoutAbsent(s: string, c: char)
    requires c !in s
    ensures Without(s, c) == s
  {
    if s != [] {
      assert c !in s[1..];
      WithoutAbsent(s[1..], c);
      assert [s[0]] + s[1..] == s;
    }
  }
}
