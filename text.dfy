/** Character classes and string primitives shared by the query normaliser,
    the record matchers and the password validator.

    Python's whitespace (str.isspace, str.split, str.strip and the `\s` class
    of `re`) is modelled code point by code point. Word characters (`\w`),
    str.lower, str.isupper, str.islower and str.isdigit are modelled on ASCII. */
module Text {

  /** The code points Python treats as whitespace. */
  predicate IsSpace(c: char)
  {
    var n := c as int;
    n == 0x20 || 0x09 <= n <= 0x0D || 0x1C <= n <= 0x1F || n == 0x85 || n == 0xA0
    || n == 0x1680 || 0x2000 <= n <= 0x200A || n == 0x2028 || n == 0x2029
    || n == 0x202F || n == 0x205F || n == 0x3000
  }

  predicate IsUpper(c: char) { 'A' <= c <= 'Z' }

  predicate IsLower(c: char) { 'a' <= c <= 'z' }

  predicate IsDigit(c: char) { '0' <= c <= '9' }

  /** The `\w` class of `re`: letters, digits and underscore. */
  predicate IsWordChar(c: char) { IsUpper(c) || IsLower(c) || IsDigit(c) || c == '_' }

  /** str.lower on one character: an ASCII capital becomes the same letter
      in lower case; every other character is unchanged. */
  function LowerChar(c: char): (r: char)
    ensures !IsUpper(r)
    ensures IsUpper(c) ==> IsLower(r) && r as int - 'a' as int == c as int - 'A' as int
    ensures IsWordChar(c) ==> IsWordChar(r)
    ensures !IsUpper(c) ==> r == c
  {
    if IsUpper(c) then (c as int + 32) as char else c
  }

  /** str.lower */
  function Lower(s: string): (r: string)
  {
    seq(|s|, i requires 0 <= i < |s| => LowerChar(s[i]))
  }

  /** str.lstrip(): drops the longest all-whitespace prefix. */
  function TrimLeft(s: string): (r: string)
    ensures |r| <= |s| && r == s[|s| - |r|..]
    ensures r == [] || !IsSpace(r[0])
    ensures forall i :: 0 <= i < |s| - |r| ==> IsSpace(s[i])
  {
    if s == [] || !IsSpace(s[0]) then s else TrimLeft(s[1..])
  }

  /** str.rstrip(): drops the longest all-whitespace suffix. */
  function TrimRight(s: string): (r: string)
    ensures |r| <= |s| && r == s[..|r|]
    ensures r == [] || !IsSpace(r[|r| - 1])
    ensures forall i :: |r| <= i < |s| ==> IsSpace(s[i])
  {
    if s == [] || !IsSpace(s[|s| - 1]) then s else TrimRight(s[..|s| - 1])
  }

  /** str.strip() */
  function Trim(s: string): (r: string)
  {
    TrimRight(TrimLeft(s))
  }

  /** The ends of a trimmed string are not whitespace, and a string trims
      to nothing exactly when it is all whitespace. */
  lemma TrimEnds(s: string)
    ensures var r := Trim(s); r == [] || (!IsSpace(r[0]) && !IsSpace(r[|r| - 1]))
    ensures Trim(s) == [] <==> forall i :: 0 <= i < |s| ==> IsSpace(s[i])
  {
    var l := TrimLeft(s);
    TrimLeftEmpty(s);
    TrimRightEmpty(l);
    if Trim(s) != [] {
      assert Trim(s)[0] == l[0];
    }
  }

  /** lstrip() gives nothing exactly when the input is all whitespace. */
  lemma TrimLeftEmpty(s: string)
    ensures TrimLeft(s) == [] <==> forall i :: 0 <= i < |s| ==> IsSpace(s[i])
  {
    var l := TrimLeft(s);
    if l != [] {
      assert l[0] == s[|s| - |l|];
    }
  }

  /** rstrip() gives nothing exactly when the input is all whitespace. */
  lemma TrimRightEmpty(s: string)
    ensures TrimRight(s) == [] <==> forall i :: 0 <= i < |s| ==> IsSpace(s[i])
  {
    var r := TrimRight(s);
    if r != [] {
      assert r[|r| - 1] == s[|r| - 1];
    }
  }

  /** Characters of Trim(s) are characters of s. */
  lemma TrimChars(s: string, i: nat)
    requires i < |Trim(s)|
    ensures Trim(s)[i] in s
  {
    var l := TrimLeft(s);
    assert Trim(s)[i] == l[i] == s[|s| - |l| + i];
  }

  /** `q` occurs in `s` as a contiguous block. */
  predicate IsSubstring(q: string, s: string)
  {
    q <= s || (s != [] && IsSubstring(q, s[1..]))
  }

  /** `q` occurs in `s` starting at position `i`. */
  predicate OccursAt(q: string, s: string, i: int)
  {
    0 <= i <= |s| - |q| && s[i..i + |q|] == q
  }

  /** The recursive substring test agrees with the positional definition. */
  lemma {:induction false} IsSubstringAt(q: string, s: string)
    ensures IsSubstring(q, s) <==> exists i :: OccursAt(q, s, i)
  {
    if q <= s {
      assert OccursAt(q, s, 0);
    } else if s != [] {
      IsSubstringAt(q, s[1..]);
      if exists i :: OccursAt(q, s, i) {
        var i :| OccursAt(q, s, i);
        OccursShift(q, s, i);
      }
      if IsSubstring(q, s[1..]) {
        var j :| OccursAt(q, s[1..], j);
        OccursShift(q, s, j + 1);
      }
    }
  }

  /** An occurrence after the first position is an occurrence in the tail. */
  lemma OccursShift(q: string, s: string, i: int)
    requires s != [] && 1 <= i
    ensures OccursAt(q, s, i) <==> OccursAt(q, s[1..], i - 1)
  {
    if 0 <= i - 1 <= |s| - 1 - |q| {
      assert s[1..][i - 1..i - 1 + |q|] == s[i..i + |q|];
    }
  }

  /** Django's `icontains` lookup: case-insensitive substring containment. */
  predicate IContains(field: string, q: string)
  {
    IsSubstring(Lower(q), Lower(field))
  }

  /** `a` and `b` differ at most in the case of ASCII letters. */
  predicate SameUpToCase(a: string, b: string)
  {
    |a| == |b|
    && forall i :: 0 <= i < |a| ==>
         a[i] == b[i]
         || (IsUpper(a[i]) && b[i] as int - 'a' as int == a[i] as int - 'A' as int)
         || (IsUpper(b[i]) && a[i] as int - 'a' as int == b[i] as int - 'A' as int)
  }

  /** Strings that differ only in letter case lower to the same string. */
  lemma SameUpToCaseLower(a: string, b: string)
    requires SameUpToCase(a, b)
    ensures Lower(a) == Lower(b)
  {
    forall i | 0 <= i < |a|
      ensures Lower(a)[i] == Lower(b)[i]
    {
      var x, y := a[i], b[i];
      assert LowerChar(x) == LowerChar(y) by {
        if IsUpper(x) && y as int - 'a' as int == x as int - 'A' as int {
          assert IsLower(y) && LowerChar(y) == y;
        } else if IsUpper(y) && x as int - 'a' as int == y as int - 'A' as int {
          assert IsLower(x) && LowerChar(x) == x;
        }
      }
    }
  }

  /** `icontains` ignores the case of ASCII letters in the field and in the
      query. */
  lemma IContainsIgnoresCase(field: string, field': string, q: string, q': string)
    requires SameUpToCase(field, field') && SameUpToCase(q, q')
    ensures IContains(field, q) <==> IContains(field', q')
  {
    SameUpToCaseLower(field, field');
    SameUpToCaseLower(q, q');
  }

  /** An empty query is contained in every field. */
  lemma EmptyQueryMatches(field: string)
    ensures IContains(field, "")
  {
  }
}
