/** `SearchService._clean_query`: whitespace collapsing, symbol stripping,
    trimming and lowercasing of the raw search text. */
module QueryNormalizer {
  import opened Text

  predicate NoSpace(w: string)
  {
    forall i :: 0 <= i < |w| ==> !IsSpace(w[i])
  }

  /** The leading run of non-whitespace characters of `s`. */
  function Token(s: string): (w: string)
    ensures w <= s && NoSpace(w)
    ensures |w| == |s| || IsSpace(s[|w|])
  {
    if s == [] || IsSpace(s[0]) then [] else [s[0]] + Token(s[1..])
  }

  /** str.split() with no separator: the maximal runs of non-whitespace. */
  function Words(s: string): (ws: seq<string>)
    ensures forall k :: 0 <= k < |ws| ==> ws[k] != [] && NoSpace(ws[k])
    decreases |s|
  {
    if s == [] then []
    else if IsSpace(s[0]) then Words(s[1..])
    else
      var w := Token(s);
      [w] + Words(s[|w|..])
  }

  /** The characters of `s` that are not whitespace, in order. */
  function NonSpace(s: string): (r: string)
    ensures NoSpace(r)
  {
    if s == [] then []
    else (if IsSpace(s[0]) then [] else [s[0]]) + NonSpace(s[1..])
  }

  /** The words laid end to end. */
  function Concat(ws: seq<string>): (r: string)
  {
    if ws == [] then [] else ws[0] + Concat(ws[1..])
  }

  lemma {:induction false} NonSpaceAppend(a: string, b: string)
    ensures NonSpace(a + b) == NonSpace(a) + NonSpace(b)
  {
    if a == [] {
      assert a + b == b;
    } else {
      assert (a + b)[0] == a[0];
      assert (a + b)[1..] == a[1..] + b;
      NonSpaceAppend(a[1..], b);
      var head, x, y := if IsSpace(a[0]) then [] else [a[0]], NonSpace(a[1..]), NonSpace(b);
      assert head + (x + y) == (head + x) + y;
    }
  }

  lemma {:induction false} NonSpaceOfWord(w: string)
    requires NoSpace(w)
    ensures NonSpace(w) == w
  {
    if w != [] {
      assert w == [w[0]] + w[1..];
      NonSpaceOfWord(w[1..]);
    }
  }

  /** The words of `s`, laid end to end, are `s` with its whitespace removed:
      `split()` loses no other character and keeps the order. */
  lemma {:induction false} WordsConcat(s: string)
    ensures Concat(Words(s)) == NonSpace(s)
    decreases |s|
  {
    if s == [] {
    } else if IsSpace(s[0]) {
      WordsConcat(s[1..]);
    } else {
      var w := Token(s);
      var rest := s[|w|..];
      assert |w| >= 1 && s == w + rest;
      NonSpaceAppend(w, rest);
      NonSpaceOfWord(w);
      WordsConcat(rest);
    }
  }

  /** A token cannot reach past a whitespace character. */
  lemma {:induction false} TokenBeforeSpace(a: string, c: char, b: string)
    requires IsSpace(c)
    ensures Token(a + [c] + b) == Token(a)
  {
    if a == [] {
      assert a + [c] + b == [c] + b;
    } else if !IsSpace(a[0]) {
      assert (a + [c] + b)[0] == a[0];
      assert (a + [c] + b)[1..] == a[1..] + [c] + b;
      TokenBeforeSpace(a[1..], c, b);
    } else {
      assert (a + [c] + b)[0] == a[0];
    }
  }

  /** Words never span whitespace: splitting at any whitespace character
      splits the word list there. With `Words(w) == [w]` for a word `w`
      (`WordsJoin`), this says the words are the maximal runs of
      non-whitespace, in order. */
  lemma {:induction false} WordsSplitAt(a: string, c: char, b: string)
    requires IsSpace(c)
    ensures Words(a + [c] + b) == Words(a) + Words(b)
    decreases |a|, 1
  {
    if a == [] {
      WordsAfterSpace(c, b);
      assert a + [c] + b == [c] + b;
    } else if IsSpace(a[0]) {
      WordsAfterLeadingSpace(a, c, b);
      WordsSplitAt(a[1..], c, b);
    } else {
      WordsSplitAtWord(a, c, b);
    }
  }

  lemma {:induction false} WordsSplitAtWord(a: string, c: char, b: string)
    requires IsSpace(c) && a != [] && !IsSpace(a[0])
    ensures Words(a + [c] + b) == Words(a) + Words(b)
    decreases |a|, 0
  {
    var w := Token(a);
    WordsAfterToken(a, c, b);
    WordsSplitAt(a[|w|..], c, b);
    var x, y := Words(a[|w|..]), Words(b);
    assert [w] + (x + y) == ([w] + x) + y;
  }

  lemma WordsAfterLeadingSpace(a: string, c: char, b: string)
    requires a != [] && IsSpace(a[0])
    ensures Words(a) == Words(a[1..])
    ensures Words(a + [c] + b) == Words(a[1..] + [c] + b)
  {
    var s := a + [c] + b;
    assert s[0] == a[0];
    assert s[1..] == a[1..] + [c] + b;
  }

  /** When `a` starts with a word, so does `a + [c] + b`, and the rest
      continues where the word of `a` ends. */
  lemma WordsAfterToken(a: string, c: char, b: string)
    requires IsSpace(c) && a != [] && !IsSpace(a[0])
    ensures 1 <= |Token(a)| <= |a|
    ensures Words(a) == [Token(a)] + Words(a[|Token(a)|..])
    ensures Words(a + [c] + b) == [Token(a)] + Words(a[|Token(a)|..] + [c] + b)
  {
    var s := a + [c] + b;
    var w := Token(a);
    TokenBeforeSpace(a, c, b);
    assert s[0] == a[0];
    assert s[|w|..] == a[|w|..] + [c] + b;
  }

  /** ' '.join(ws) */
  function Join(ws: seq<string>): (s: string)
  {
    if ws == [] then []
    else if |ws| == 1 then ws[0]
    else ws[0] + " " + Join(ws[1..])
  }

  /** ' '.join(s.split()) */
  function Collapse(s: string): (r: string)
  {
    Join(Words(s))
  }

  /** The characters `re.sub(r'[^\w\s\-]', '', s)` keeps. */
  predicate Kept(c: char)
  {
    IsWordChar(c) || IsSpace(c) || c == '-'
  }

  /** re.sub(r'[^\w\s\-]', '', s) */
  function StripSymbols(s: string): (r: string)
    ensures |r| <= |s|
    ensures forall i :: 0 <= i < |r| ==> Kept(r[i])
    ensures (forall i :: 0 <= i < |s| ==> Kept(s[i])) ==> r == s
    ensures (forall i :: 0 <= i < |s| ==> !Kept(s[i])) ==> r == []
  {
    if s == [] then []
    else
      assert s == [s[0]] + s[1..];
      (if Kept(s[0]) then [s[0]] else []) + StripSymbols(s[1..])
  }

  /** The substitution works character by character: stripping a
      concatenation strips each part, so the kept characters stay in order. */
  lemma {:induction false} StripSymbolsAppend(a: string, b: string)
    ensures StripSymbols(a + b) == StripSymbols(a) + StripSymbols(b)
  {
    if a == [] {
      assert a + b == b;
    } else {
      assert (a + b)[0] == a[0];
      assert (a + b)[1..] == a[1..] + b;
      StripSymbolsAppend(a[1..], b);
      var head, x, y := if Kept(a[0]) then [a[0]] else [], StripSymbols(a[1..]), StripSymbols(b);
      assert head + (x + y) == (head + x) + y;
    }
  }

  /** `_clean_query` */
  function CleanQuery(query: string): (r: string)
  {
    Lower(Trim(StripSymbols(Collapse(query))))
  }

  /** The characters a normalised query may contain. */
  predicate NormalChar(c: char)
  {
    IsWordChar(c) || c == ' ' || c == '-'
  }

  /** Lowercase, only word characters, spaces and hyphens (so no tab or
      newline), and no space at either end. */
  predicate IsNormalQuery(r: string)
  {
    (forall i :: 0 <= i < |r| ==> NormalChar(r[i]) && !IsUpper(r[i]))
    && (r == [] || (r[0] != ' ' && r[|r| - 1] != ' '))
  }

  predicate AllNormal(s: string)
  {
    forall i :: 0 <= i < |s| ==> NormalChar(s[i])
  }

  /** A normalised query is lowercase, holds only word characters, spaces
      and hyphens (so no tab or newline), and does not start or end with a
      space. */
  lemma CleanQueryShape(query: string)
    ensures IsNormalQuery(CleanQuery(query))
  {
    var k := StripSymbols(Collapse(query));
    var t := Trim(k);
    StripNormal(query);
    TrimNormal(k);
    TrimEnds(k);
    LowerNormal(t);
  }

  lemma TrimNormal(k: string)
    requires AllNormal(k)
    ensures AllNormal(Trim(k))
  {
    var t := Trim(k);
    forall i | 0 <= i < |t| ensures NormalChar(t[i]) {
      TrimChars(k, i);
      var j :| 0 <= j < |k| && k[j] == t[i];
    }
  }

  /** After collapsing, stripping leaves only normal characters. */
  lemma StripNormal(query: string)
    ensures AllNormal(StripSymbols(Collapse(query)))
  {
    JoinSpaces(Words(query));
    StripKeepsSpaces(Collapse(query));
  }

  /** Stripping symbols from a string whose only whitespace is the plain
      space leaves only normal characters. */
  lemma {:induction false} StripKeepsSpaces(s: string)
    requires forall i :: 0 <= i < |s| ==> !IsSpace(s[i]) || s[i] == ' '
    ensures AllNormal(StripSymbols(s))
  {
    if s != [] {
      StripKeepsSpaces(s[1..]);
    }
  }

  /** Lowercasing keeps a normal string normal and its ends non-space. */
  lemma LowerNormal(t: string)
    requires AllNormal(t)
    requires t == [] || (!IsSpace(t[0]) && !IsSpace(t[|t| - 1]))
    ensures IsNormalQuery(Lower(t))
  {
  }

  /** The only whitespace `' '.join(...)` leaves is the single space. */
  lemma {:induction false} JoinSpaces(ws: seq<string>)
    requires forall k :: 0 <= k < |ws| ==> NoSpace(ws[k])
    ensures forall i :: 0 <= i < |Join(ws)| ==> !IsSpace(Join(ws)[i]) || Join(ws)[i] == ' '
  {
    if |ws| > 1 {
      JoinSpaces(ws[1..]);
    }
  }

  /** Splitting a joined list of words gives the words back. */
  lemma {:induction false} WordsJoin(ws: seq<string>)
    requires forall k :: 0 <= k < |ws| ==> ws[k] != [] && NoSpace(ws[k])
    ensures Words(Join(ws)) == ws
  {
    if ws == [] {
    } else if |ws| == 1 {
      var w := ws[0];
      assert w + [] == w;
      TokenOfWord(w, []);
      assert w[|w|..] == [];
    } else {
      var w := ws[0];
      var rest := Join(ws[1..]);
      var s := w + " " + rest;
      assert s == w + (" " + rest);
      TokenOfWord(w, " " + rest);
      assert s[|w|..] == " " + rest;
      WordsJoin(ws[1..]);
      assert (" " + rest)[1..] == rest;
    }
  }

  /** A word followed by whitespace or nothing is read back as one token. */
  lemma {:induction false} TokenOfWord(w: string, tail: string)
    requires NoSpace(w)
    requires tail == [] || IsSpace(tail[0])
    ensures Token(w + tail) == w
  {
    if w != [] {
      assert (w + tail)[1..] == w[1..] + tail;
      TokenOfWord(w[1..], tail);
    } else {
      assert w + tail == tail;
    }
  }

  /** Collapsing whitespace twice is the same as collapsing once. */
  lemma CollapseIdempotent(s: string)
    ensures Collapse(Collapse(s)) == Collapse(s)
  {
    WordsJoin(Words(s));
  }

  /** Normalisation as a whole is not idempotent: a symbol between two
      spaces is removed after the spaces were collapsed, leaving a double
      space that only a second pass collapses ("a ! b" becomes "a  b", and
      then "a b"). */
  lemma CleanQueryNotIdempotent(a: char, b: char)
    requires IsLower(a) && IsLower(b)
    ensures CleanQuery([a, ' ', '!', ' ', b]) == [a, ' ', ' ', b]
    ensures CleanQuery(CleanQuery([a, ' ', '!', ' ', b])) == [a, ' ', b]
  {
    CleanFirstPass(a, b);
    CleanSecondPass(a, b);
  }

  lemma CleanFirstPass(a: char, b: char)
    requires IsLower(a) && IsLower(b)
    ensures CleanQuery([a, ' ', '!', ' ', b]) == [a, ' ', ' ', b]
  {
    var q := [a, ' ', '!', ' ', b];
    CollapseSymbol(a, b);
    StripSymbol(a, b);
    UnchangedByTrimAndLower([a, ' ', ' ', b]);
  }

  lemma CollapseSymbol(a: char, b: char)
    requires IsLower(a) && IsLower(b)
    ensures Collapse([a, ' ', '!', ' ', b]) == [a, ' ', '!', ' ', b]
  {
    var ws := [[a], ['!'], [b]];
    assert Join(ws) == [a, ' ', '!', ' ', b] by {
      assert Join(ws[2..]) == [b];
      assert Join(ws[1..]) == ['!'] + " " + [b];
    }
    WordsJoin(ws);
  }

  lemma StripSymbol(a: char, b: char)
    requires IsLower(a) && IsLower(b)
    ensures StripSymbols([a, ' ', '!', ' ', b]) == [a, ' ', ' ', b]
  {
    var q := [a, ' ', '!', ' ', b];
    assert StripSymbols(q[4..]) == [b];
    assert StripSymbols(q[3..]) == [' ', b];
    assert StripSymbols(q[2..]) == [' ', b];
    assert StripSymbols(q[1..]) == [' ', ' ', b];
  }

  lemma CleanSecondPass(a: char, b: char)
    requires IsLower(a) && IsLower(b)
    ensures CleanQuery([a, ' ', ' ', b]) == [a, ' ', b]
  {
    var s := [a, ' ', b];
    CollapseDoubleSpace(a, b);
    assert StripSymbols(s) == s by {
      assert StripSymbols(s[2..]) == [b];
      assert StripSymbols(s[1..]) == [' ', b];
    }
    UnchangedByTrimAndLower(s);
  }

  /** A lowercase string that starts and ends with a letter is its own
      trimmed, lowercased form. */
  lemma UnchangedByTrimAndLower(s: string)
    requires |s| >= 1 && IsLower(s[0]) && IsLower(s[|s| - 1])
    requires forall i :: 0 <= i < |s| ==> !IsUpper(s[i])
    ensures Lower(Trim(s)) == s
  {
    LetterNotSpace(s[0]);
    LetterNotSpace(s[|s| - 1]);
    assert TrimLeft(s) == s;
    assert TrimRight(s) == s;
    assert Trim(s) == s;
    assert forall i :: 0 <= i < |s| ==> Lower(s)[i] == s[i];
  }

  lemma LetterNotSpace(c: char)
    requires IsWordChar(c)
    ensures !IsSpace(c)
  {
  }

  lemma CollapseDoubleSpace(a: char, b: char)
    requires !IsSpace(a) && !IsSpace(b)
    ensures Collapse([a, ' ', ' ', b]) == [a, ' ', b]
  {
    WordsAroundSpaces(a, ' ', ' ', b);
    assert Join([[a], [b]]) == [a, ' ', b];
  }

  /** Two one-character words separated by two whitespace characters. */
  lemma WordsAroundSpaces(a: char, c1: char, c2: char, b: char)
    requires !IsSpace(a) && IsSpace(c1) && IsSpace(c2) && !IsSpace(b)
    ensures Words([a, c1, c2, b]) == [[a], [b]]
  {
    WordsAfterSpaces(c1, c2, b);
    WordsAfterWord(a, [c1, c2, b]);
    assert [a] + [c1, c2, b] == [a, c1, c2, b];
  }

  lemma WordsAfterSpaces(c1: char, c2: char, b: char)
    requires IsSpace(c1) && IsSpace(c2) && !IsSpace(b)
    ensures Words([c1, c2, b]) == [[b]]
  {
    WordsAfterSpace(c1, [c2, b]);
    assert [c1] + [c2, b] == [c1, c2, b];
    WordsAfterOneSpace(c2, b);
  }

  lemma WordsAfterOneSpace(c: char, b: char)
    requires IsSpace(c) && !IsSpace(b)
    ensures Words([c, b]) == [[b]]
  {
    WordsAfterSpace(c, [b]);
    assert [c] + [b] == [c, b];
    WordsSingle(b);
  }

  lemma WordsSingle(b: char)
    requires !IsSpace(b)
    ensures Words([b]) == [[b]]
  {
    WordsJoin([[b]]);
  }

  /** A single non-space character followed by whitespace is a word of its own. */
  lemma WordsAfterWord(a: char, rest: string)
    requires !IsSpace(a) && rest != [] && IsSpace(rest[0])
    ensures Words([a] + rest) == [[a]] + Words(rest)
  {
    var s := [a] + rest;
    TokenOfWord([a], rest);
    assert s[1..] == rest;
  }

  /** Leading whitespace does not change the words. */
  lemma WordsAfterSpace(c: char, rest: string)
    requires IsSpace(c)
    ensures Words([c] + rest) == Words(rest)
  {
    assert ([c] + rest)[1..] == rest;
  }
}
