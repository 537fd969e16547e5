/**
 * The JavaScript string built-ins the application relies on, stated over
 * `string` (a sequence of Unicode scalar values):
 * `String.prototype.trim`, `toLowerCase`, `includes`, `String(n)` for a
 * clock reading, `localeCompare` and `encodeURIComponent`.
 */
module JsText {

  // ---------------------------------------------------------------- trim

  /** The characters `trim` removes: WhiteSpace and LineTerminator
      (sections 12.2 and 12.3 of ECMA-262), i.e. TAB, VT, FF, ZWNBSP,
      every space separator of category Zs, LF, CR, LS and PS. */
  predicate IsWhitespace(c: char) {
    || c == '\t' || c == '\n' || c == '\U{B}' || c == '\U{C}' || c == '\r' || c == ' '
    || c == '\U{A0}' || c == '\U{1680}' || ('\U{2000}' <= c <= '\U{200A}')
    || c == '\U{2028}' || c == '\U{2029}' || c == '\U{202F}' || c == '\U{205F}'
    || c == '\U{3000}' || c == '\U{FEFF}'
  }

  /** True when every character of `s` is whitespace (also for the empty string). */
  predicate AllWhitespace(s: string) {
    forall i :: 0 <= i < |s| ==> IsWhitespace(s[i])
  }

  /** Drops the leading whitespace: the result is the longest suffix of `s`
      that does not start with whitespace. */
  function TrimStart(s: string): (r: string)
    ensures |r| <= |s| && r == s[|s| - |r|..]
    ensures r == [] || !IsWhitespace(r[0])
    ensures AllWhitespace(s[..|s| - |r|])
  {
    if s != [] && IsWhitespace(s[0]) then TrimStart(s[1..]) else s
  }

  /** Drops the trailing whitespace: the result is the longest prefix of `s`
      that does not end with whitespace. */
  function TrimEnd(s: string): (r: string)
    ensures |r| <= |s| && r == s[..|r|]
    ensures r == [] || !IsWhitespace(r[|r| - 1])
    ensures AllWhitespace(s[|r|..])
  {
    if s != [] && IsWhitespace(s[|s| - 1]) then TrimEnd(s[..|s| - 1]) else s
  }

  /** `r` is the part of `s` that starts at `lo` and has only whitespace around it. */
  predicate TrimmedAt(s: string, r: string, lo: nat) {
    && lo + |r| <= |s| && r == s[lo..lo + |r|]
    && AllWhitespace(s[..lo]) && AllWhitespace(s[lo + |r|..])
  }

  /** `s.trim()`: the slice of `s` between its leading and its trailing
      whitespace. It is empty exactly when `s` is all whitespace. */
  function Trim(s: string): (r: string)
    ensures |r| <= |s|
    ensures r == [] || (!IsWhitespace(r[0]) && !IsWhitespace(r[|r| - 1]))
    ensures r == [] <==> AllWhitespace(s)
    ensures exists lo :: TrimmedAt(s, r, lo)
  {
    TrimSlice(s);
    TrimEnd(TrimStart(s))
  }

  lemma {:induction false} TrimSlice(s: string)
    ensures TrimmedAt(s, TrimEnd(TrimStart(s)), |s| - |TrimStart(s)|)
    ensures TrimEnd(TrimStart(s)) == [] <==> AllWhitespace(s)
  {
    var t := TrimStart(s);
    var r := TrimEnd(t);
    var lo := |s| - |t|;
    TrimEmpty(s);
    TrimmedAtIntro(s, t, r, lo);
  }

  lemma TrimmedAtIntro(s: string, t: string, r: string, lo: nat)
    requires lo + |t| == |s| && t == s[lo..] && AllWhitespace(s[..lo])
    requires |r| <= |t| && r == t[..|r|] && AllWhitespace(t[|r|..])
    ensures TrimmedAt(s, r, lo)
  {
    SliceOfSuffix(s, lo, |r|);
  }

  /** Slicing a suffix of `s` is slicing `s`. */
  lemma SliceOfSuffix(s: string, lo: nat, k: nat)
    requires lo + k <= |s|
    ensures s[lo..][..k] == s[lo..lo + k] && s[lo..][k..] == s[lo + k..]
  {
  }

  lemma {:induction false} TrimEmpty(s: string)
    ensures TrimEnd(TrimStart(s)) == [] <==> AllWhitespace(s)
  {
    var t := TrimStart(s);
    var lo := |s| - |t|;
    if TrimEnd(t) == [] {
      assert AllWhitespace(t[0..]);
      AllWhitespaceSplit(s, lo);
    } else {
      assert lo < |s| && s[lo] == t[0];
    }
  }

  lemma AllWhitespaceSplit(s: string, lo: nat)
    requires lo <= |s| && AllWhitespace(s[..lo]) && AllWhitespace(s[lo..])
    ensures AllWhitespace(s)
  {
    forall i | 0 <= i < |s| ensures IsWhitespace(s[i]) {
      if i < lo { assert s[i] == s[..lo][i]; } else { assert s[i] == s[lo..][i - lo]; }
    }
  }

  /** Trimming is idempotent. */
  lemma {:induction false} TrimIdempotent(s: string)
    ensures Trim(Trim(s)) == Trim(s)
  {
    var r := Trim(s);
    assert TrimStart(r) == r;
    assert TrimEnd(r) == r;
  }

  /** Whitespace around a text does not change what `trim` returns. */
  lemma {:induction false} TrimIgnoresPadding(pre: string, t: string, post: string)
    requires AllWhitespace(pre) && AllWhitespace(post)
    ensures Trim(pre + t + post) == Trim(t)
  {
    assert pre + t + post == pre + (t + post);
    TrimStartSkipsWhitespace(pre, t + post);
    TrimStartOfAppend(t, post);
    if TrimStart(t) == [] {
      assert TrimStart(post) == [];
    } else {
      TrimEndSkipsWhitespace(TrimStart(t), post);
    }
  }

  lemma {:induction false} AllWhitespaceAppend(a: string, b: string)
    requires AllWhitespace(a) && AllWhitespace(b)
    ensures AllWhitespace(a + b)
  {
    forall i | 0 <= i < |a + b| ensures IsWhitespace((a + b)[i]) {
      if i < |a| { assert (a + b)[i] == a[i]; } else { assert (a + b)[i] == b[i - |a|]; }
    }
  }

  lemma {:induction false} TrimStartSkipsWhitespace(pre: string, t: string)
    requires AllWhitespace(pre)
    ensures TrimStart(pre + t) == TrimStart(t)
    decreases |pre|
  {
    if pre != [] {
      assert (pre + t)[0] == pre[0];
      assert (pre + t)[1..] == pre[1..] + t;
      TrimStartSkipsWhitespace(pre[1..], t);
    } else {
      assert pre + t == t;
    }
  }

  lemma {:induction false} TrimEndSkipsWhitespace(t: string, post: string)
    requires AllWhitespace(post)
    ensures TrimEnd(t + post) == TrimEnd(t)
    decreases |post|
  {
    if post != [] {
      assert (t + post)[|t + post| - 1] == post[|post| - 1];
      assert (t + post)[..|t + post| - 1] == t + post[..|post| - 1];
      TrimEndSkipsWhitespace(t, post[..|post| - 1]);
    } else {
      assert t + post == t;
    }
  }

  /** Leading whitespace of `t + post` comes from `t` unless `t` is all whitespace. */
  lemma {:induction false} TrimStartOfAppend(t: string, post: string)
    ensures TrimStart(t) != [] ==> TrimStart(t + post) == TrimStart(t) + post
    ensures TrimStart(t) == [] ==> TrimStart(t + post) == TrimStart(post)
    decreases |t|
  {
    if t == [] {
      assert t + post == post;
    } else if IsWhitespace(t[0]) {
      assert (t + post)[0] == t[0];
      assert (t + post)[1..] == t[1..] + post;
      TrimStartOfAppend(t[1..], post);
    } else {
      assert (t + post)[0] == t[0];
    }
  }

  // ------------------------------------------------------------ lower case

  /** `toLowerCase` on one character, for the ASCII letters. */
  function LowerChar(c: char): (d: char)
    ensures 'A' <= c <= 'Z' ==> 'a' <= d <= 'z' && d as int == c as int + 32
    ensures !('A' <= c <= 'Z') ==> d == c
  {
    if 'A' <= c <= 'Z' then (c as int + 32) as char else c
  }

  /** `s.toLowerCase()`, character by character. */
  function ToLower(s: string): (r: string)
    ensures |r| == |s|
    ensures forall i :: 0 <= i < |s| ==> r[i] == LowerChar(s[i])
  {
    if s == [] then [] else [LowerChar(s[0])] + ToLower(s[1..])
  }

  /** Lower-casing twice is lower-casing once, so a lower-cased name is its own key. */
  lemma {:induction false} ToLowerIdempotent(s: string)
    ensures ToLower(ToLower(s)) == ToLower(s)
  {
    var r := ToLower(s);
    forall i | 0 <= i < |s| ensures ToLower(r)[i] == r[i] {
      assert r[i] == LowerChar(s[i]);
    }
  }

  // -------------------------------------------------------------- includes

  /** `s.startsWith(p)`. */
  predicate StartsWith(s: string, p: string) {
    |p| <= |s| && s[..|p|] == p
  }

  /** `t` occurs in `s` starting at position `i`. */
  predicate OccursAt(s: string, t: string, i: int) {
    0 <= i && i + |t| <= |s| && s[i..i + |t|] == t
  }

  /** `s.includes(t)`: `t` occurs in `s` at some position. */
  function Includes(s: string, t: string): (b: bool)
    ensures b <==> exists i :: OccursAt(s, t, i)
  {
    if StartsWith(s, t) then
      assert OccursAt(s, t, 0);
      true
    else if s == [] then
      assert forall i :: !OccursAt(s, t, i);
      false
    else
      IncludesStep(s, t);
      Includes(s[1..], t)
  }

  /** An occurrence in `s` past its first position is an occurrence in `s[1..]`. */
  lemma {:induction false} IncludesStep(s: string, t: string)
    requires s != [] && !StartsWith(s, t)
    ensures (exists i :: OccursAt(s, t, i)) <==> (exists i :: OccursAt(s[1..], t, i))
  {
    if exists i :: OccursAt(s, t, i) {
      var i :| OccursAt(s, t, i);
      assert i != 0;
      assert s[1..][i - 1..i - 1 + |t|] == s[i..i + |t|];
      assert OccursAt(s[1..], t, i - 1);
    }
    if exists i :: OccursAt(s[1..], t, i) {
      var i :| OccursAt(s[1..], t, i);
      assert s[1..][i..i + |t|] == s[i + 1..i + 1 + |t|];
      assert OccursAt(s, t, i + 1);
    }
  }

  /** Every string includes the empty string. */
  lemma IncludesEmpty(s: string)
    ensures Includes(s, [])
  {
    assert OccursAt(s, [], 0);
  }

  // ------------------------------------------------------ number to string

  function DigitChar(d: nat): (c: char)
    requires d < 10
    ensures '0' <= c <= '9' && c as int - '0' as int == d
  {
    ('0' as int + d) as char
  }

  /** `String(n)` for a non-negative integer: its decimal digits, without leading zeros. */
  function NumberToString(n: nat): (r: string)
    ensures |r| >= 1
    ensures forall i :: 0 <= i < |r| ==> '0' <= r[i] <= '9'
    ensures r[0] == '0' ==> n == 0
    decreases n
  {
    if n < 10 then [DigitChar(n)] else NumberToString(n / 10) + [DigitChar(n % 10)]
  }

  /** Reads a string of decimal digits back as a number. */
  function DecimalValue(s: string): nat
    requires forall i :: 0 <= i < |s| ==> '0' <= s[i] <= '9'
  {
    if s == [] then 0
    else DecimalValue(s[..|s| - 1]) * 10 + (s[|s| - 1] as int - '0' as int)
  }

  /** `String(n)` loses nothing: its digits read back as `n`. */
  lemma {:induction false} NumberToStringRoundTrip(n: nat)
    ensures DecimalValue(NumberToString(n)) == n
    decreases n
  {
    var r := NumberToString(n);
    if n >= 10 {
      NumberToStringRoundTrip(n / 10);
      assert r[..|r| - 1] == NumberToString(n / 10);
    }
  }

  /** Distinct numbers print differently. */
  lemma NumberToStringInjective(a: nat, b: nat)
    requires NumberToString(a) == NumberToString(b)
    ensures a == b
  {
    NumberToStringRoundTrip(a);
    NumberToStringRoundTrip(b);
  }

  // --------------------------------------------------------- localeCompare

  /** `a.localeCompare(b) <= 0`, taken as lexicographic order of the
      character codes. */
  predicate LexLe(a: string, b: string)
    ensures |a| <= |b| && a == b[..|a|] ==> LexLe(a, b)
  {
    a == [] || (b != [] && (a[0] < b[0] || (a[0] == b[0] && LexLe(a[1..], b[1..]))))
  }

  lemma {:induction false} LexLeTotal(a: string, b: string)
    ensures LexLe(a, b) || LexLe(b, a)
  {
    if a != [] && b != [] && a[0] == b[0] {
      LexLeTotal(a[1..], b[1..]);
    }
  }

  lemma {:induction false} LexLeTransitive(a: string, b: string, c: string)
    requires LexLe(a, b) && LexLe(b, c)
    ensures LexLe(a, c)
  {
    if a != [] && b != [] && c != [] && a[0] == b[0] == c[0] {
      LexLeTransitive(a[1..], b[1..], c[1..]);
    }
  }

  lemma {:induction false} LexLeAntisymmetric(a: string, b: string)
    requires LexLe(a, b) && LexLe(b, a)
    ensures a == b
  {
    if a != [] && b != [] {
      LexLeAntisymmetric(a[1..], b[1..]);
      assert a == [a[0]] + a[1..] && b == [b[0]] + b[1..];
    }
  }

  // ---------------------------------------------------- encodeURIComponent

  /** The characters `encodeURIComponent` leaves as they are. */
  predicate IsUriUnreserved(c: char) {
    || ('A' <= c <= 'Z') || ('a' <= c <= 'z') || ('0' <= c <= '9')
    || c == '-' || c == '_' || c == '.' || c == '!' || c == '~'
    || c == '*' || c == '\'' || c == '(' || c == ')'
  }

  /** The characters that can appear in an encoded URI component. */
  predicate IsUriSafe(c: char) {
    IsUriUnreserved(c) || c == '%'
  }

  /** The UTF-8 encoding of one Unicode scalar value. */
  function Utf8(c: char): (bytes: seq<nat>)
    ensures 1 <= |bytes| <= 4
    ensures forall k :: 0 <= k < |bytes| ==> bytes[k] < 256
    ensures c as int < 0x80 <==> |bytes| == 1
  {
    var cp := c as int;
    if cp < 0x80 then [cp]
    else if cp < 0x800 then [0xC0 + cp / 0x40, 0x80 + cp % 0x40]
    else if cp < 0x1_0000 then [0xE0 + cp / 0x1000, 0x80 + (cp / 0x40) % 0x40, 0x80 + cp % 0x40]
    else [0xF0 + cp / 0x4_0000, 0x80 + (cp / 0x1000) % 0x40, 0x80 + (cp / 0x40) % 0x40, 0x80 + cp % 0x40]
  }

  function HexDigit(d: nat): (c: char)
    requires d < 16
    ensures ('0' <= c <= '9') || ('A' <= c <= 'F')
  {
    if d < 10 then DigitChar(d) else ('A' as int + (d - 10)) as char
  }

  /** `%XY` for each byte, upper-case hexadecimal. */
  function PercentEncode(bytes: seq<nat>): (r: string)
    requires forall k :: 0 <= k < |bytes| ==> bytes[k] < 256
    ensures |r| == 3 * |bytes|
    ensures forall i :: 0 <= i < |r| ==> IsUriSafe(r[i])
  {
    if bytes == [] then []
    else ['%', HexDigit(bytes[0] / 16), HexDigit(bytes[0] % 16)] + PercentEncode(bytes[1..])
  }

  /** `encodeURIComponent(s)`: unreserved characters stay, every other
      character becomes the percent-encoding of its UTF-8 bytes. */
  function EncodeUriComponent(s: string): (r: string)
    ensures forall i :: 0 <= i < |r| ==> IsUriSafe(r[i])
    ensures |r| >= |s|
  {
    if s == [] then []
    else
      (if IsUriUnreserved(s[0]) then [s[0]] else PercentEncode(Utf8(s[0])))
      + EncodeUriComponent(s[1..])
  }

  /** A text made only of unreserved characters is its own encoding. */
  lemma {:induction false} EncodeUnreservedIsIdentity(s: string)
    requires forall i :: 0 <= i < |s| ==> IsUriUnreserved(s[i])
    ensures EncodeUriComponent(s) == s
  {
    if s != [] {
      EncodeUnreservedIsIdentity(s[1..]);
      assert s == [s[0]] + s[1..];
    }
  }
}
