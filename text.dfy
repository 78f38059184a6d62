/** The JavaScript string built-ins the gallery relies on: `trim`, `toLowerCase`
    (ASCII letters only), `includes`, `Array.prototype.join` and the decimal
    rendering of a non-negative integer by `Number.prototype.toString`. */
module Text {

  /** The code points that `String.prototype.trim` strips: the ECMAScript
      WhiteSpace characters (TAB, VT, FF, SP, NBSP, ZWNBSP and the Unicode
      space separators U+1680, U+2000..U+200A, U+202F, U+205F, U+3000) and
      the LineTerminator characters (LF, CR, LS, PS). */
  const WhiteSpace: set<char> := {
    '\t', '\n', '\U{B}', '\U{C}', '\r', ' ', '\U{A0}', '\U{FEFF}', '\U{1680}',
    '\U{2000}', '\U{2001}', '\U{2002}', '\U{2003}', '\U{2004}', '\U{2005}',
    '\U{2006}', '\U{2007}', '\U{2008}', '\U{2009}', '\U{200A}',
    '\U{2028}', '\U{2029}', '\U{202F}', '\U{205F}', '\U{3000}'}

  predicate IsWhiteSpace(c: char) {
    c in WhiteSpace
  }

  /** Every character of `s` is white space (true of the empty string). */
  ghost predicate Blank(s: string) {
    forall i :: 0 <= i < |s| ==> IsWhiteSpace(s[i])
  }

  /** `s` with its leading white space removed. */
  function TrimStart(s: string): (r: string)
    ensures |r| <= |s|
  {
    if s != [] && IsWhiteSpace(s[0]) then TrimStart(s[1..]) else s
  }

  /** `TrimStart` drops a prefix of white space and stops at the first
      character that is not white space. */
  lemma {:induction false} TrimStartDropsBlankPrefix(s: string)
    ensures TrimStart(s) == s[|s| - |TrimStart(s)|..]
    ensures Blank(s[..|s| - |TrimStart(s)|])
    ensures TrimStart(s) != [] ==> !IsWhiteSpace(TrimStart(s)[0])
  {
    if s != [] && IsWhiteSpace(s[0]) {
      TrimStartDropsBlankPrefix(s[1..]);
      var k := |s| - |TrimStart(s)|;
      assert s[1..][k - 1..] == s[k..];
      assert forall i :: 1 <= i < k ==> s[..k][i] == s[1..][..k - 1][i - 1];
    } else {
      assert s[..0] == [];
    }
  }

  /** `s` with its trailing white space removed. */
  function TrimEnd(s: string): (r: string)
    ensures |r| <= |s|
  {
    if s != [] && IsWhiteSpace(s[|s| - 1]) then TrimEnd(s[..|s| - 1]) else s
  }

  /** `TrimEnd` drops a suffix of white space and stops at the last
      character that is not white space. */
  lemma {:induction false} TrimEndDropsBlankSuffix(s: string)
    ensures TrimEnd(s) == s[..|TrimEnd(s)|]
    ensures Blank(s[|TrimEnd(s)|..])
    ensures TrimEnd(s) != [] ==> !IsWhiteSpace(TrimEnd(s)[|TrimEnd(s)| - 1])
  {
    if s != [] && IsWhiteSpace(s[|s| - 1]) {
      var t := s[..|s| - 1];
      TrimEndDropsBlankSuffix(t);
      var k := |TrimEnd(s)|;
      assert t[..k] == s[..k];
      assert forall i :: 0 <= i < |s| - k - 1 ==> s[k..][i] == t[k..][i];
    } else {
      assert s[|s|..] == [];
    }
  }

  /** `s.trim()`: never longer than `s`, and empty exactly when `s` is
      blank, which is the condition `!s.trim()` tests. */
  function Trim(s: string): (r: string)
    ensures |r| <= |s|
    ensures r == "" <==> Blank(s)
  {
    TrimEmptyIffBlank(s);
    TrimEnd(TrimStart(s))
  }

  /** Trimming both ends leaves nothing exactly when `s` is blank. */
  lemma TrimEmptyIffBlank(s: string)
    ensures TrimEnd(TrimStart(s)) == "" <==> Blank(s)
  {
    var t := TrimStart(s);
    TrimStartDropsBlankPrefix(s);
    TrimEndDropsBlankSuffix(t);
    var k := |s| - |t|;
    if TrimEnd(t) == "" {
      assert t == [];
      assert s[..k] == s;
    } else {
      assert t[0] == s[k];
    }
  }

  /** The trimmed string has no white space at either end. */
  lemma TrimStripsBothEnds(s: string)
    ensures Trim(s) != "" ==> !IsWhiteSpace(Trim(s)[0]) && !IsWhiteSpace(Trim(s)[|Trim(s)| - 1])
  {
    var t := TrimStart(s);
    TrimStartDropsBlankPrefix(s);
    TrimEndDropsBlankSuffix(t);
    var r := Trim(s);
    if r != "" {
      assert r[0] == t[0];
    }
  }

  /** ASCII `toLowerCase` of one character: 'A'..'Z' map to 'a'..'z'. */
  function LowerChar(c: char): char {
    if 'A' <= c <= 'Z' then (c as int + 32) as char else c
  }

  /** `s.toLowerCase()`, restricted to ASCII case folding. */
  function ToLower(s: string): (r: string)
    ensures |r| == |s|
    ensures forall i :: 0 <= i < |r| ==> !('A' <= r[i] <= 'Z')
    ensures forall i :: 0 <= i < |s| && !('A' <= s[i] <= 'Z') ==> r[i] == s[i]
    ensures forall i :: 0 <= i < |s| && 'A' <= s[i] <= 'Z' ==> r[i] as int == s[i] as int + 32
  {
    seq(|s|, i requires 0 <= i < |s| => LowerChar(s[i]))
  }

  /** Lower-casing twice is lower-casing once. */
  lemma ToLowerIdempotent(s: string)
    ensures ToLower(ToLower(s)) == ToLower(s)
  {
    forall i | 0 <= i < |s|
      ensures ToLower(ToLower(s))[i] == ToLower(s)[i]
    {
      var c := s[i];
      if 'A' <= c <= 'Z' {
        assert LowerChar(c) as int == c as int + 32;
      }
    }
  }

  /** Lower-casing commutes with taking a slice. */
  lemma ToLowerSlice(s: string, i: nat, j: nat)
    requires i <= j <= |s|
    ensures ToLower(s)[i..j] == ToLower(s[i..j])
  {
  }

  /** `haystack.includes(needle)`: some slice of `haystack` equals `needle`,
      searched from the left. The empty needle is found everywhere. */
  function Includes(haystack: string, needle: string): bool
    ensures needle == [] ==> Includes(haystack, needle)
    ensures Includes(haystack, needle) ==> |needle| <= |haystack|
  {
    needle <= haystack || (haystack != [] && Includes(haystack[1..], needle))
  }

  /** `needle` occurs in `haystack` starting at position `k`. */
  ghost predicate OccursAt(haystack: string, needle: string, k: int) {
    0 <= k && k + |needle| <= |haystack| && haystack[k..k + |needle|] == needle
  }

  /** `Includes` holds exactly when `needle` occurs at some position. */
  lemma {:induction false} IncludesIff(haystack: string, needle: string)
    ensures Includes(haystack, needle) <==> exists k :: OccursAt(haystack, needle, k)
  {
    if needle <= haystack {
      assert OccursAt(haystack, needle, 0);
    } else if haystack == [] {
    } else {
      var tail := haystack[1..];
      IncludesIff(tail, needle);
      if exists k :: OccursAt(tail, needle, k) {
        var k :| OccursAt(tail, needle, k);
        assert haystack[k + 1..k + 1 + |needle|] == tail[k..k + |needle|];
        assert OccursAt(haystack, needle, k + 1);
      }
      if exists k :: OccursAt(haystack, needle, k) {
        var k :| OccursAt(haystack, needle, k);
        assert k != 0 by {
          assert haystack[0..|needle|] == haystack[..|needle|];
        }
        assert tail[k - 1..k - 1 + |needle|] == haystack[k..k + |needle|];
        assert OccursAt(tail, needle, k - 1);
      }
    }
  }

  /** `xs.join(sep)`: the elements in order with `sep` between neighbours. */
  function Join(xs: seq<string>, sep: string): (r: string)
    ensures xs == [] ==> r == ""
    ensures xs != [] ==> xs[0] <= r
  {
    if |xs| == 0 then "" else if |xs| == 1 then xs[0] else xs[0] + sep + Join(xs[1..], sep)
  }

  /** Appending an element to a non-empty list appends `sep` and the element
      to the joined string. */
  lemma {:induction false} JoinSnoc(xs: seq<string>, x: string, sep: string)
    requires xs != []
    ensures Join(xs + [x], sep) == Join(xs, sep) + sep + x
  {
    if |xs| == 1 {
      assert (xs + [x])[1..] == [x];
    } else {
      assert (xs + [x])[1..] == xs[1..] + [x];
      JoinSnoc(xs[1..], x, sep);
    }
  }

  /** The character of a decimal digit. */
  function DigitChar(d: nat): (c: char)
    requires d < 10
    ensures '0' <= c <= '9' && c as int - '0' as int == d
  {
    ('0' as int + d) as char
  }

  /** `n.toString()` for a non-negative integer: its decimal digits, most
      significant first, with no leading zero. */
  function DecimalString(n: nat): (r: string)
    ensures r != [] && (|r| > 1 ==> r[0] != '0')
    ensures forall i :: 0 <= i < |r| ==> '0' <= r[i] <= '9'
  {
    if n < 10 then [DigitChar(n)] else DecimalString(n / 10) + [DigitChar(n % 10)]
  }

  /** The value of a string of decimal digits. */
  function DecimalValue(s: string): nat
    requires forall i :: 0 <= i < |s| ==> '0' <= s[i] <= '9'
  {
    if s == [] then 0 else 10 * DecimalValue(s[..|s| - 1]) + (s[|s| - 1] as int - '0' as int)
  }

  /** Reading back the decimal rendering of `n` gives `n`, so the rendering
      is injective: two numbers have the same string only if they are equal. */
  lemma {:induction false} DecimalRoundTrip(n: nat)
    ensures DecimalValue(DecimalString(n)) == n
  {
    var r := DecimalString(n);
    if n >= 10 {
      DecimalRoundTrip(n / 10);
      assert r[..|r| - 1] == DecimalString(n / 10);
    }
  }

  /** Joining a non-empty list first and then joining the result with more
      elements is joining everything at once. */
  lemma {:induction false} JoinFlatten(xs: seq<string>, ys: seq<string>, sep: string)
    requires xs != []
    ensures Join([Join(xs, sep)] + ys, sep) == Join(xs + ys, sep)
    decreases |ys|
  {
    if ys != [] {
      var init, last := ys[..|ys| - 1], ys[|ys| - 1];
      assert ys == init + [last];
      JoinFlatten(xs, init, sep);
      assert [Join(xs, sep)] + ys == ([Join(xs, sep)] + init) + [last];
      assert xs + ys == (xs + init) + [last];
      JoinSnoc([Join(xs, sep)] + init, last, sep);
      JoinSnoc(xs + init, last, sep);
    } else {
      assert [Join(xs, sep)] + ys == [Join(xs, sep)];
      assert xs + ys == xs;
    }
  }
}
