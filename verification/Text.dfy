/**
  Strings as the two programs handle them: the C++ `trim`, `find` and `iss >>`
  on the server, and `trimmed`, `mid`, `indexOf` of QString on the client.
 */
module Text {

  datatype Option<+T> = None | Some(value: T)

  /* ----- character classes ----- */

  /** isspace in the "C" locale: what `iss >>` skips. */
  predicate IsSpace(c: char) {
    c == ' ' || '\t' <= c <= '\r'
  }

  /** The four characters the server's trim strips. */
  predicate IsBlank(c: char) {
    c == ' ' || c == '\t' || c == '\r' || c == '\n'
  }

  /** QChar::isSpace. */
  predicate IsQtSpace(c: char) {
    || IsSpace(c)
    || c == '\U{0085}' || c == '\U{00A0}' || c == '\U{1680}'
    || '\U{2000}' <= c <= '\U{200A}'
    || c == '\U{2028}' || c == '\U{2029}' || c == '\U{202F}' || c == '\U{205F}' || c == '\U{3000}'
  }

  predicate SpaceFree(s: string) {
    forall c :: c in s ==> !IsSpace(c)
  }

  /* ----- trimming ----- */

  function TrimLeft(p: char -> bool, s: string): (r: string)
    ensures |r| <= |s|
    ensures r == "" || !p(r[0])
    ensures forall c :: c in r ==> c in s
  {
    if s != "" && p(s[0]) then TrimLeft(p, s[1..]) else s
  }

  function TrimRight(p: char -> bool, s: string): (r: string)
    ensures r == "" || !p(r[|r| - 1])
    ensures r <= s
  {
    if s != "" && p(s[|s| - 1]) then TrimRight(p, s[..|s| - 1]) else s
  }

  /** The server's trim. */
  function Trim(s: string): string {
    TrimRight(IsBlank, TrimLeft(IsBlank, s))
  }

  /** QString::trimmed. */
  function Trimmed(s: string): string {
    TrimRight(IsQtSpace, TrimLeft(IsQtSpace, s))
  }

  ghost predicate All(p: char -> bool, s: string) {
    forall c :: c in s ==> p(c)
  }

  /** Neither end of s is stripped by a trim over p. */
  predicate Solid(p: char -> bool, s: string) {
    s == "" || (!p(s[0]) && !p(s[|s| - 1]))
  }

  lemma {:induction false} TrimLeftPadding(p: char -> bool, pad: string, s: string)
    requires All(p, pad)
    ensures TrimLeft(p, pad + s) == TrimLeft(p, s)
  {
    if pad == "" {
      assert pad + s == s;
    } else {
      assert (pad + s)[1..] == pad[1..] + s;
      TrimLeftPadding(p, pad[1..], s);
    }
  }

  lemma {:induction false} TrimRightPadding(p: char -> bool, s: string, pad: string)
    requires All(p, pad)
    ensures TrimRight(p, s + pad) == TrimRight(p, s)
  {
    if pad == "" {
      assert s + pad == s;
    } else {
      assert (s + pad)[..|s + pad| - 1] == s + pad[..|pad| - 1];
      TrimRightPadding(p, s, pad[..|pad| - 1]);
    }
  }

  lemma TrimBothPadded(p: char -> bool, left: string, s: string, right: string)
    requires All(p, left) && All(p, right) && Solid(p, s)
    ensures TrimRight(p, TrimLeft(p, left + s + right)) == s
  {
    assert left + s + right == left + (s + right);
    TrimLeftPadding(p, left, s + right);
    if s == "" {
      assert s + right == right + "";
      TrimLeftPadding(p, right, "");
    } else {
      assert TrimLeft(p, s + right) == s + right;
      TrimRightPadding(p, s, right);
    }
  }

  /** trim removes exactly the blank padding: the one solid core of a padded text. */
  lemma TrimPadded(left: string, s: string, right: string)
    requires All(IsBlank, left) && All(IsBlank, right) && Solid(IsBlank, s)
    ensures Trim(left + s + right) == s
  {
    TrimBothPadded(IsBlank, left, s, right);
  }

  /** And trimmed, likewise, the padding of Qt white space. */
  lemma TrimmedPadded(left: string, s: string, right: string)
    requires All(IsQtSpace, left) && All(IsQtSpace, right) && Solid(IsQtSpace, s)
    ensures Trimmed(left + s + right) == s
  {
    TrimBothPadded(IsQtSpace, left, s, right);
  }

  /** The characters that count as white space, one by one. */
  lemma WhiteSpaceCharacters(c: char)
    ensures IsBlank(c) <==> c in " \t\r\n"
    ensures IsSpace(c) <==> c in " \t\n\U{000B}\U{000C}\r"
    ensures IsQtSpace(c) <==> IsSpace(c) || c in QT_SPACES
  {
  }

  /** The white space of Unicode beyond ASCII. */
  const QT_SPACES := [
    '\U{0085}', '\U{00A0}', '\U{1680}', '\U{2000}', '\U{2001}', '\U{2002}', '\U{2003}', '\U{2004}', '\U{2005}',
    '\U{2006}', '\U{2007}', '\U{2008}', '\U{2009}', '\U{200A}', '\U{2028}', '\U{2029}', '\U{202F}', '\U{205F}',
    '\U{3000}']

  lemma TrimSpaceFree(s: string)
    requires SpaceFree(s)
    ensures Trim(s) == s
  {
    assert s != "" ==> s[0] in s && s[|s| - 1] in s;
    TrimPadded("", s, "");
    assert "" + s + "" == s;
  }

  lemma {:induction false} TrimRightSuffix(p: char -> bool, s: string)
    ensures exists pad :: All(p, pad) && s == TrimRight(p, s) + pad
  {
    if s != "" && p(s[|s| - 1]) {
      TrimRightSuffix(p, s[..|s| - 1]);
      var pad :| All(p, pad) && s[..|s| - 1] == TrimRight(p, s[..|s| - 1]) + pad;
      assert s == TrimRight(p, s) + (pad + [s[|s| - 1]]);
    } else {
      assert s == TrimRight(p, s) + "";
    }
  }

  /** A text is the padding TrimLeft takes off, and the rest. */
  lemma {:induction false} PadOf(p: char -> bool, s: string) returns (pad: string)
    ensures All(p, pad) && s == pad + TrimLeft(p, s)
  {
    pad := "";
    if s != "" && p(s[0]) {
      var rest := PadOf(p, s[1..]);
      pad := [s[0]] + rest;
      assert s == [s[0]] + s[1..];
      assert pad + TrimLeft(p, s) == [s[0]] + (rest + TrimLeft(p, s[1..]));
    }
  }

  /** What QString::trimmed returns has no Qt space at either end. */
  lemma TrimmedSolid(s: string)
    ensures Solid(IsQtSpace, Trimmed(s))
    ensures forall c :: c in Trimmed(s) ==> c in s
  {
    var t := TrimLeft(IsQtSpace, s);
    TrimRightSuffix(IsQtSpace, t);
  }

  /* ----- searching ----- */

  /** std::string::find and QString::indexOf: the leftmost occurrence, or -1. */
  function IndexOf(s: string, pat: string): (i: int)
    ensures i == -1 || 0 <= i <= |s| - |pat|
  {
    if |s| < |pat| then -1
    else if pat <= s then 0
    else if s == "" then -1
    else
      var r := IndexOf(s[1..], pat);
      if r == -1 then -1 else r + 1
  }

  predicate Contains(s: string, pat: string) {
    IndexOf(s, pat) != -1
  }

  predicate OccursAt(s: string, pat: string, i: nat) {
    i <= |s| && pat <= s[i..]
  }

  /** find is exact: the pattern occurs where it says, and nowhere further left. */
  lemma {:induction false} IndexOfIsLeftmost(s: string, pat: string, j: nat)
    requires pat != ""
    ensures IndexOf(s, pat) != -1 ==> OccursAt(s, pat, IndexOf(s, pat))
    ensures OccursAt(s, pat, j) ==> 0 <= IndexOf(s, pat) <= j
  {
    if |s| < |pat| {
    } else if pat <= s {
      assert s[0..] == s;
    } else {
      var k := if j == 0 then 0 else j - 1;
      IndexOfIsLeftmost(s[1..], pat, k);
      var r := IndexOf(s[1..], pat);
      if r != -1 {
        assert s[1..][r..] == s[r + 1..];
      }
      if j > 0 && j <= |s| {
        assert s[1..][k..] == s[j..];
      }
      assert s[0..] == s;
    }
  }

  /** An index with an occurrence and none before it is the one find returns. */
  lemma IndexOfIs(s: string, pat: string, i: nat)
    requires pat != ""
    requires OccursAt(s, pat, i)
    requires forall j: nat :: j < i ==> !OccursAt(s, pat, j)
    ensures IndexOf(s, pat) == i
  {
    IndexOfIsLeftmost(s, pat, i);
  }

  /** The leftmost occurrence of a single character. */
  lemma IndexOfChar(pre: string, c: char, post: string)
    requires c !in pre
    ensures IndexOf(pre + [c] + post, [c]) == |pre|
  {
    var s := pre + [c] + post;
    assert s[|pre|..] == [c] + post;
    forall j: nat | j < |pre| ensures !OccursAt(s, [c], j) {
      assert s[j..][0] == pre[j];
    }
    IndexOfIs(s, [c], |pre|);
  }

  /** A text that lacks one of its characters does not contain the phrase. */
  lemma WithoutCharacter(s: string, phrase: string, c: char)
    requires c !in s && c in phrase
    ensures !Contains(s, phrase)
  {
    IndexOfIsLeftmost(s, phrase, 0);
  }

  /** An occurrence in a trimmed text is one in the text itself. */
  lemma OccursInTrimmed(s: string, pat: string, j: nat) returns (i: nat)
    requires OccursAt(Trim(s), pat, j)
    ensures OccursAt(s, pat, i)
  {
    var pad := PadOf(IsBlank, s);
    var t := TrimLeft(IsBlank, s);
    i := |pad| + j;
    assert Trim(s) <= t;
    assert s[i..] == t[j..];
    assert pat <= Trim(s)[j..] <= t[j..];
  }

  /** An occurrence before a cut is one in the whole text, and ends before the cut. */
  lemma OccursBeforeCut(s: string, n: nat, pat: string, i: nat)
    requires n <= |s| && OccursAt(s[..n], pat, i)
    ensures OccursAt(s, pat, i) && i + |pat| <= n
  {
    assert s[..n][i..] <= s[i..];
  }

  /* ----- QString::mid ----- */

  /** QString::mid: a start past the end gives "", a negative or too large count means the rest. */
  function Mid(s: string, start: nat, count: int): string {
    if start > |s| then ""
    else if count < 0 || count > |s| - start then s[start..]
    else s[start..start + count]
  }

  /** It is the piece that starts there: up to count characters, or all the rest if count is negative. */
  lemma MidIsPiece(s: string, start: nat, count: int) returns (before: string, after: string)
    ensures start <= |s| ==> |before| == start && s == before + Mid(s, start, count) + after
    ensures start <= |s| && count >= 0 ==> |Mid(s, start, count)| <= count
    ensures start <= |s| && (count < 0 || |Mid(s, start, count)| < count) ==> after == ""
    ensures start > |s| ==> Mid(s, start, count) == ""
  {
    before := if start <= |s| then s[..start] else "";
    after := if start > |s| || count < 0 || count > |s| - start then "" else s[start + count..];
  }

  /* ----- reading words with `iss >>` ----- */

  datatype Extraction = Failed | Word(word: string, rest: string)

  function WordLength(s: string): (n: nat)
    ensures n <= |s|
    ensures SpaceFree(s[..n])
    ensures n < |s| ==> IsSpace(s[n])
  {
    if s == "" || IsSpace(s[0]) then 0
    else
      var n := WordLength(s[1..]);
      assert s[..n + 1] == [s[0]] + s[1..][..n];
      n + 1
  }

  /** One `iss >> word`: skip white space, then take the longest space-free run. */
  function Extract(s: string): (e: Extraction)
    ensures e.Word? ==> e.word != "" && SpaceFree(e.word) && |e.rest| < |s|
    ensures e.Word? ==> e.rest == "" || IsSpace(e.rest[0])
  {
    var t := TrimLeft(IsSpace, s);
    if t == "" then Failed else Word(t[..WordLength(t)], t[WordLength(t)..])
  }

  function Tokens(s: string): seq<string>
    decreases |s|
  {
    match Extract(s)
    case Failed => []
    case Word(word, rest) => [word] + Tokens(rest)
  }

  lemma {:induction false} WordLengthIs(w: string, rest: string)
    requires SpaceFree(w)
    requires rest == "" || IsSpace(rest[0])
    ensures WordLength(w + rest) == |w|
  {
    if w == "" {
      assert w + rest == rest;
    } else {
      assert (w + rest)[1..] == w[1..] + rest;
      WordLengthIs(w[1..], rest);
    }
  }

  /** `iss >>` recovers a space-free word standing between white space. */
  lemma ExtractWord(pad: string, w: string, rest: string)
    requires All(IsSpace, pad)
    requires w != "" && SpaceFree(w)
    requires rest == "" || IsSpace(rest[0])
    ensures Extract(pad + w + rest) == Word(w, rest)
  {
    assert pad + w + rest == pad + (w + rest);
    TrimLeftPadding(IsSpace, pad, w + rest);
    assert !IsSpace((w + rest)[0]);
    WordLengthIs(w, rest);
  }

  lemma ExtractBlank(pad: string)
    requires All(IsSpace, pad)
    ensures Extract(pad) == Failed
  {
    TrimLeftPadding(IsSpace, pad, "");
    assert pad + "" == pad;
  }
}
