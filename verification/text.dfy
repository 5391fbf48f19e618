/** The JavaScript string operations the artwork form relies on: `trim`,
    `startsWith` and the UTF-16 `length` of a string. */
module Text {

  /** The code points ECMAScript's `String.prototype.trim` strips: the
      WhiteSpace set (tab, vertical tab, form feed, ZWNBSP and the Unicode
      space separators) and the LineTerminator set (LF, CR, LS, PS). */
  predicate IsWhitespace(c: char) {
    || c == '\t' || c == '\n' || c == '\U{000B}' || c == '\U{000C}' || c == '\r'
    || c == ' ' || c == '\U{00A0}' || c == '\U{1680}'
    || ('\U{2000}' <= c <= '\U{200A}')
    || c == '\U{2028}' || c == '\U{2029}' || c == '\U{202F}' || c == '\U{205F}'
    || c == '\U{3000}' || c == '\U{FEFF}'
  }

  /** A string made of whitespace only (the empty string included). */
  predicate IsBlank(s: string) {
    forall i :: 0 <= i < |s| ==> IsWhitespace(s[i])
  }

  /** `s` with its longest whitespace prefix removed. */
  function TrimStart(s: string): (r: string)
    ensures |r| <= |s| && r == s[|s| - |r|..]
    ensures IsBlank(s[..|s| - |r|])
    ensures |r| > 0 ==> !IsWhitespace(r[0])
  {
    if |s| > 0 && IsWhitespace(s[0]) then TrimStart(s[1..]) else s
  }

  /** `s` with its longest whitespace suffix removed. */
  function TrimEnd(s: string): (r: string)
    ensures |r| <= |s| && r == s[..|r|]
    ensures IsBlank(s[|r|..])
    ensures |r| > 0 ==> !IsWhitespace(r[|r| - 1])
  {
    if |s| > 0 && IsWhitespace(s[|s| - 1]) then TrimEnd(s[..|s| - 1]) else s
  }

  /** `String.prototype.trim`: whitespace removed from both ends. */
  function Trim(s: string): (r: string)
    ensures |r| <= |s|
    ensures exists a {:trigger s[a..]} ::
      && 0 <= a <= |s| - |r| && r == s[a..][..|r|]
      && IsBlank(s[..a]) && IsBlank(s[a..][|r|..])
    ensures |r| > 0 ==> !IsWhitespace(r[0]) && !IsWhitespace(r[|r| - 1])
  {
    var t := TrimStart(s);
    var r := TrimEnd(t);
    var a := |s| - |t|;
    assert r == s[a..][..|r|];
    assert s[a..][|r|..] == t[|r|..];
    r
  }

  /** Trimming leaves nothing exactly when the string is blank, which is
      when JavaScript treats `s.trim()` as falsy. */
  lemma TrimEmptyIffBlank(s: string)
    ensures Trim(s) == [] <==> IsBlank(s)
  {}

  /** `s.startsWith(p)`. */
  predicate StartsWith(s: string, p: string) {
    |p| <= |s| && s[..|p|] == p
  }

  /** The number of UTF-16 code units a code point occupies. */
  function CodeUnits(c: char): nat {
    if c as int > 0xFFFF then 2 else 1
  }

  /** JavaScript's `s.length`: the number of UTF-16 code units of `s`. */
  function Utf16Length(s: string): (n: nat)
    ensures |s| <= n <= 2 * |s|
    ensures n == |s| <==> forall i :: 0 <= i < |s| ==> s[i] as int <= 0xFFFF
  {
    if s == [] then 0 else CodeUnits(s[0]) + Utf16Length(s[1..])
  }

  /** The code points of `s` that need a surrogate pair in UTF-16, by position. */
  function AstralPositions(s: string): set<nat> {
    set i: nat | i < |s| && s[i] as int > 0xFFFF
  }

  /** Code units add up over concatenation. */
  lemma {:induction false} Utf16LengthAppend(a: string, b: string)
    ensures Utf16Length(a + b) == Utf16Length(a) + Utf16Length(b)
    decreases |a|
  {
    if a != [] {
      assert (a + b)[0] == a[0] && (a + b)[1..] == a[1..] + b;
      Utf16LengthAppend(a[1..], b);
    } else {
      assert a + b == b;
    }
  }

  /** `s.length` is one unit per code point plus one more for each code point
      above U+FFFF. */
  lemma {:induction false} Utf16LengthCountsAstral(s: string)
    ensures Utf16Length(s) == |s| + |AstralPositions(s)|
    decreases |s|
  {
    if s != [] {
      var k := |s| - 1;
      var init := s[..k];
      assert s == init + [s[k]];
      Utf16LengthAppend(init, [s[k]]);
      assert Utf16Length([s[k]]) == CodeUnits(s[k]) by {
        assert [s[k]][1..] == [];
      }
      Utf16LengthCountsAstral(init);
      if s[k] as int > 0xFFFF {
        assert AstralPositions(s) == AstralPositions(init) + {k};
      } else {
        assert AstralPositions(s) == AstralPositions(init);
      }
    }
  }
}
