/**
 * The string operations of Python that the extractor relies on: character classes,
 * strip(), split(), slicing at the first separator, substring search and int().
 */
module Text {
  import opened Failures

  /** Whitespace as str.isspace() and str.strip() see it. */
  predicate IsSpace(c: char) {
    c == ' ' || ('\t' <= c <= '\r') || ('\U{1C}' <= c <= '\U{1F}')
    || c == '\U{85}' || c == '\U{A0}' || c == '\U{1680}'
    || ('\U{2000}' <= c <= '\U{200A}') || c == '\U{2028}' || c == '\U{2029}'
    || c == '\U{202F}' || c == '\U{205F}' || c == '\U{3000}'
  }

  /** A decimal digit (str.isnumeric() restricted to ASCII). */
  predicate IsDigit(c: char) {
    '0' <= c <= '9'
  }

  /**
   * A letter: str.isalpha() on the ASCII letters, ª µ º, U+00C0 to U+024F (Latin-1 Supplement
   * and Latin Extended-A and -B) except × and ÷, and the Cyrillic letters U+0400 to U+0481 and
   * U+048A to U+052F. Letters of other scripts are not letters here.
   */
  predicate IsAlpha(c: char) {
    ('A' <= c <= 'Z') || ('a' <= c <= 'z') || c == 'ª' || c == 'µ' || c == 'º'
    || ('À' <= c <= '\U{24F}' && c != '×' && c != '÷')
    || ('\U{400}' <= c <= '\U{481}') || ('\U{48A}' <= c <= '\U{52F}')
  }

  /** The position of the first occurrence of x in s (list.index / str.index). */
  function IndexOf<T(==)>(s: seq<T>, x: T): (k: nat)
    requires x in s
    ensures k < |s| && s[k] == x && x !in s[..k]
  {
    if s[0] == x then 0
    else
      assert s == [s[0]] + s[1..];
      1 + IndexOf(s[1..], x)
  }

  lemma IndexOfAt<T>(s: seq<T>, x: T, k: nat)
    requires k < |s| && s[k] == x && x !in s[..k]
    ensures IndexOf(s, x) == k
  {
  }

  /** s[1:] — Python slicing never fails on an empty string. */
  function Drop1<T>(s: seq<T>): (r: seq<T>)
    ensures s != [] ==> r == s[1..]
    ensures s == [] ==> r == []
  {
    if s == [] then [] else s[1..]
  }

  /** s[: s.index(c)] when c occurs in s, otherwise s itself. */
  function BeforeFirst(s: string, c: char): (r: string)
    ensures c !in r
    ensures |r| <= |s| && r == s[..|r|]
    ensures c !in s ==> r == s
  {
    if c in s then s[..IndexOf(s, c)] else s
  }

  /** Cutting at the first separator keeps exactly what was written before it. */
  lemma BeforeFirstOf(a: string, c: char, b: string)
    requires c !in a
    ensures BeforeFirst(a + [c] + b, c) == a
  {
    var s := a + [c] + b;
    assert s[..|a|] == a;
    IndexOfAt(s, c, |a|);
  }

  // ---------------------------------------------------------------- strip

  /** The characters a strip removes: all whitespace (`strip()`) or blanks only (`strip(" ")`). */
  datatype Stripped = Whitespace | Blanks

  predicate Drops(chars: Stripped, c: char) {
    if chars == Whitespace then IsSpace(c) else c == ' '
  }

  function StripLeftWith(s: string, chars: Stripped): (r: string)
    ensures |r| <= |s| && r == s[|s| - |r|..]
    ensures r != [] ==> !Drops(chars, r[0])
    decreases |s|
  {
    if s != [] && Drops(chars, s[0]) then StripLeftWith(s[1..], chars) else s
  }

  function StripRightWith(s: string, chars: Stripped): (r: string)
    ensures |r| <= |s| && r == s[..|r|]
    ensures r != [] ==> !Drops(chars, r[|r| - 1])
    decreases |s|
  {
    if s != [] && Drops(chars, s[|s| - 1]) then StripRightWith(s[..|s| - 1], chars) else s
  }

  /** Every character of t is one a strip with these characters removes. */
  predicate AllDropped(t: string, chars: Stripped) {
    forall j :: 0 <= j < |t| ==> Drops(chars, t[j])
  }

  /** str.strip(): remove leading and trailing whitespace. */
  function Strip(s: string): (r: string)
    ensures r != [] ==> !IsSpace(r[0]) && !IsSpace(r[|r| - 1])
  {
    StripRightWith(StripLeftWith(s, Whitespace), Whitespace)
  }

  /** str.strip(" "): remove leading and trailing blanks only. */
  function StripBlanks(s: string): (r: string)
    ensures r != [] ==> r[0] != ' ' && r[|r| - 1] != ' '
  {
    StripRightWith(StripLeftWith(s, Blanks), Blanks)
  }

  /** Every character a left strip removes is a removed character. */
  lemma {:induction false} StripLeftDrops(s: string, chars: Stripped, j: nat)
    requires j < |s| - |StripLeftWith(s, chars)|
    ensures Drops(chars, s[j])
    decreases j
  {
    if j > 0 {
      var t := s[1..];
      var k := j - 1;
      assert StripLeftWith(s, chars) == StripLeftWith(t, chars);
      StripLeftDrops(t, chars, k);
      assert s[j] == t[k];
    }
  }

  /** A left strip removes a run of removed characters: the text is that run, then the result. */
  lemma {:induction false} StripLeftSplits(s: string, chars: Stripped)
    ensures var left := StripLeftWith(s, chars);
            s == s[..|s| - |left|] + left && AllDropped(s[..|s| - |left|], chars)
  {
    var n := |s| - |StripLeftWith(s, chars)|;
    StripLeftRun(s, chars, n);
    assert s == s[..n] + s[n..];
  }

  /** The run a left strip removes is made of removed characters only. */
  lemma {:induction false} StripLeftRun(s: string, chars: Stripped, n: nat)
    requires n == |s| - |StripLeftWith(s, chars)|
    ensures AllDropped(s[..n], chars)
  {
    var pre := s[..n];
    forall j | 0 <= j < |pre| ensures Drops(chars, pre[j]) {
      StripLeftDrops(s, chars, j);
    }
  }

  /** Every character a right strip removes is a removed character. */
  lemma {:induction false} StripRightDrops(s: string, chars: Stripped, j: nat)
    requires |StripRightWith(s, chars)| <= j < |s|
    ensures Drops(chars, s[j])
    decreases |s|
  {
    if j < |s| - 1 {
      var p := s[..|s| - 1];
      assert StripRightWith(s, chars) == StripRightWith(p, chars);
      StripRightDrops(p, chars, j);
      assert s[j] == p[j];
    }
  }

  /** A right strip removes a run of removed characters: the text is the result, then that run. */
  lemma {:induction false} StripRightSplits(s: string, chars: Stripped)
    ensures var r := StripRightWith(s, chars);
            s == r + s[|r|..] && AllDropped(s[|r|..], chars)
  {
    var r := StripRightWith(s, chars);
    var post := s[|r|..];
    forall j | 0 <= j < |post| ensures Drops(chars, post[j]) {
      var k := |r| + j;
      StripRightDrops(s, chars, k);
      assert post[j] == s[k];
    }
  }

  /** A strip keeps a middle part of the text: what it removes on either side are removed characters only. */
  lemma StripKeepsMiddle(s: string, chars: Stripped)
    ensures var r := StripRightWith(StripLeftWith(s, chars), chars);
            exists pre, post :: s == pre + r + post && AllDropped(pre, chars) && AllDropped(post, chars)
  {
    var left := StripLeftWith(s, chars);
    var r := StripRightWith(left, chars);
    StripLeftSplits(s, chars);
    StripRightSplits(left, chars);
    var pre := s[..|s| - |left|];
    var post := left[|r|..];
    assert s == pre + (r + post);
    KeptBetween(s, pre, r, post, chars);
  }

  lemma KeptBetween(s: string, pre: string, r: string, post: string, chars: Stripped)
    requires s == pre + (r + post) && AllDropped(pre, chars) && AllDropped(post, chars)
    ensures exists pre', post' :: s == pre' + r + post' && AllDropped(pre', chars) && AllDropped(post', chars)
  {
    assert s == pre + r + post;
  }

  /**
   * str.strip() removes whitespace at both ends and nothing else: the text is the result with
   * runs of whitespace around it, and the result neither starts nor ends with whitespace.
   */
  lemma StripMeaning(s: string)
    ensures exists pre, post :: s == pre + Strip(s) + post && AllDropped(pre, Whitespace) && AllDropped(post, Whitespace)
  {
    StripKeepsMiddle(s, Whitespace);
  }

  /** str.strip(" ") removes blanks at both ends and nothing else. */
  lemma StripBlanksMeaning(s: string)
    ensures exists pre, post :: s == pre + StripBlanks(s) + post && AllDropped(pre, Blanks) && AllDropped(post, Blanks)
  {
    StripKeepsMiddle(s, Blanks);
  }

  lemma StripUnpadded(s: string)
    requires s != [] ==> !IsSpace(s[0]) && !IsSpace(s[|s| - 1])
    ensures Strip(s) == s
  {
  }

  // ---------------------------------------------------------------- split

  /** Length of the leading run of non-whitespace characters. */
  function TokenLength(s: string): (n: nat)
    ensures n <= |s|
    ensures forall j :: 0 <= j < n ==> !IsSpace(s[j])
    ensures n < |s| ==> IsSpace(s[n])
  {
    if s == [] || IsSpace(s[0]) then 0 else 1 + TokenLength(s[1..])
  }

  /** str.split() with no argument: the maximal runs of non-whitespace characters. */
  function Words(s: string): (w: seq<string>)
    ensures forall k :: 0 <= k < |w| ==> w[k] != []
    ensures forall k, j :: 0 <= k < |w| && 0 <= j < |w[k]| ==> !IsSpace(w[k][j])
    ensures w == [] <==> AllDropped(s, Whitespace)
    decreases |s|
  {
    if s == [] then []
    else if IsSpace(s[0]) then
      assert AllDropped(s, Whitespace) <==> AllDropped(s[1..], Whitespace) by {
        if AllDropped(s[1..], Whitespace) {
          forall j | 0 <= j < |s| ensures IsSpace(s[j]) {
            if j > 0 { assert s[j] == s[1..][j - 1]; }
          }
        }
      }
      Words(s[1..])
    else
      var n := TokenLength(s);
      [s[..n]] + Words(s[n..])
  }

  /** A non-empty run of characters none of which is whitespace. */
  predicate IsWord(w: string) {
    w != [] && forall j :: 0 <= j < |w| ==> !IsSpace(w[j])
  }

  /** A word without whitespace followed by nothing or by whitespace is one token. */
  lemma TokenLengthOf(word: string, tail: string)
    requires IsWord(word)
    requires tail != [] ==> IsSpace(tail[0])
    ensures TokenLength(word + tail) == |word|
  {
    var s := word + tail;
    assert forall j :: 0 <= j < |word| ==> s[j] == word[j];
    assert tail != [] ==> s[|word|] == tail[0];
  }

  /** A word without whitespace followed by nothing or by whitespace is split off whole. */
  lemma WordsOfWord(word: string, tail: string)
    requires IsWord(word)
    requires tail != [] ==> IsSpace(tail[0])
    ensures Words(word + tail) == [word] + Words(tail)
  {
    var s := word + tail;
    TokenLengthOf(word, tail);
    assert s[0] == word[0];
    assert s[..|word|] == word;
    assert s[|word|..] == tail;
  }

  /** Splitting words joined by blanks gives the words back. */
  lemma {:induction false} WordsOfJoined(ws: seq<string>)
    requires forall k :: 0 <= k < |ws| ==> IsWord(ws[k])
    ensures Words(JoinWith(ws, " ")) == ws
    decreases |ws|
  {
    if |ws| == 1 {
      WordsOfWord(ws[0], []);
      assert ws[0] + [] == ws[0];
    } else if |ws| > 1 {
      var w := ws[0];
      var rest := JoinWith(ws[1..], " ");
      var tail := " " + rest;
      assert JoinWith(ws, " ") == w + tail;
      WordsOfWord(w, tail);
      assert tail[1..] == rest;
      WordsOfJoined(ws[1..]);
      assert ws == [w] + ws[1..];
    }
  }

  /** str.split(sep) for a one-character separator: always at least one part. */
  function SplitAt(s: string, sep: char): (parts: seq<string>)
    ensures |parts| >= 1
    ensures forall k :: 0 <= k < |parts| ==> sep !in parts[k]
    decreases |s|
  {
    if sep !in s then [s]
    else
      var k := IndexOf(s, sep);
      [s[..k]] + SplitAt(s[k + 1..], sep)
  }

  /** sep.join(parts). */
  function JoinWith(parts: seq<string>, sep: string): string {
    if parts == [] then []
    else if |parts| == 1 then parts[0]
    else parts[0] + sep + JoinWith(parts[1..], sep)
  }

  /** Splitting at a separator loses nothing: joining the parts gives the text back. */
  lemma {:induction false} SplitAtJoin(s: string, sep: char)
    ensures JoinWith(SplitAt(s, sep), [sep]) == s
    decreases |s|
  {
    if sep in s {
      var k := IndexOf(s, sep);
      var rest := SplitAt(s[k + 1..], sep);
      SplitAtJoin(s[k + 1..], sep);
      assert SplitAt(s, sep) == [s[..k]] + rest;
      assert s == s[..k] + [sep] + s[k + 1..];
    }
  }

  // ---------------------------------------------------------------- substrings

  predicate StartsWith(s: string, prefix: string) {
    |prefix| <= |s| && s[..|prefix|] == prefix
  }

  /** `sub in s` (equivalently `s.find(sub) != -1`). */
  predicate Contains(s: string, sub: string)
    decreases |s|
  {
    StartsWith(s, sub) || (s != [] && Contains(s[1..], sub))
  }

  // ---------------------------------------------------------------- numbers

  predicate AllDigits(s: string) {
    forall j :: 0 <= j < |s| ==> IsDigit(s[j])
  }

  /** A text of digits holds no other character. */
  lemma NotInDigits(s: string, c: char)
    requires AllDigits(s) && !IsDigit(c)
    ensures c !in s
  {
  }

  function DigitValue(c: char): nat
    requires IsDigit(c)
  {
    c as int - '0' as int
  }

  function DigitChar(d: nat): (c: char)
    requires d < 10
    ensures IsDigit(c) && DigitValue(c) == d
  {
    ('0' as int + d) as char
  }

  /** The value of a string of decimal digits (leading zeros allowed). */
  function DigitsValue(s: string): nat
    requires AllDigits(s)
    decreases |s|
  {
    if s == [] then 0 else 10 * DigitsValue(s[..|s| - 1]) + DigitValue(s[|s| - 1])
  }

  /** The decimal rendering of a natural number, as str() and f-strings write it. */
  function NatToString(n: nat): (s: string)
    ensures s != [] && AllDigits(s)
    ensures s[0] == '0' ==> n == 0 && |s| == 1
    decreases n
  {
    if n < 10 then [DigitChar(n)] else NatToString(n / 10) + [DigitChar(n % 10)]
  }

  lemma {:induction false} NatToStringValue(n: nat)
    ensures DigitsValue(NatToString(n)) == n
    decreases n
  {
    if n >= 10 {
      var s := NatToString(n);
      NatToStringValue(n / 10);
      assert s[..|s| - 1] == NatToString(n / 10);
    }
  }

  /** The texts int() accepts once stripped: an optional sign, then at least one digit. */
  predicate IsIntLiteral(t: string) {
    (t != [] && AllDigits(t)) || (|t| >= 2 && (t[0] == '-' || t[0] == '+') && AllDigits(t[1..]))
  }

  /** int() of a text without surrounding whitespace: an optional sign, then at least one digit. */
  function IntLiteral(t: string): (r: Result<int>)
    ensures r.Ok? <==> IsIntLiteral(t)
    ensures r.Err? ==> r.error == NotAnInteger
    ensures t != [] && AllDigits(t) ==> r == Ok(DigitsValue(t))
    ensures |t| >= 2 && t[0] == '+' && AllDigits(t[1..]) ==> r == Ok(DigitsValue(t[1..]))
    ensures |t| >= 2 && t[0] == '-' && AllDigits(t[1..]) ==> r == Ok(-(DigitsValue(t[1..]) as int))
  {
    var signed := t != [] && (t[0] == '-' || t[0] == '+');
    var body := if signed then t[1..] else t;
    if body == [] || !AllDigits(body) then Err(NotAnInteger)
    else
      var magnitude: int := DigitsValue(body);
      Ok(if signed && t[0] == '-' then -magnitude else magnitude)
  }

  /** int(s): surrounding whitespace is ignored. */
  function ParseInt(s: string): (r: Result<int>)
    ensures r.Ok? <==> IsIntLiteral(Strip(s))
    ensures r.Err? ==> r.error == NotAnInteger
    ensures s != [] && AllDigits(s) ==> r == Ok(DigitsValue(s))
    ensures var t := Strip(s);
            (t != [] && AllDigits(t) ==> r == Ok(DigitsValue(t)))
            && (|t| >= 2 && t[0] == '+' && AllDigits(t[1..]) ==> r == Ok(DigitsValue(t[1..])))
            && (|t| >= 2 && t[0] == '-' && AllDigits(t[1..]) ==> r == Ok(-(DigitsValue(t[1..]) as int)))
  {
    var t := Strip(s);
    StripDigits(s);
    IntLiteral(t)
  }

  /** A run of digits has no whitespace to strip. */
  lemma StripDigits(s: string)
    ensures s != [] && AllDigits(s) ==> Strip(s) == s
  {
    if s != [] && AllDigits(s) {
      assert IsDigit(s[0]) && IsDigit(s[|s| - 1]);
      StripUnpadded(s);
    }
  }

  /** int("") fails. */
  lemma ParseIntEmpty()
    ensures ParseInt([]) == Err(NotAnInteger)
  {
    assert Strip([]) == [];
  }

  /** A text with no whitespace at either end and one more blank after it strips back to itself. */
  lemma StripPadded(s: string)
    requires s != [] && !IsSpace(s[0]) && !IsSpace(s[|s| - 1])
    ensures Strip(s + " ") == s
  {
    var t := s + " ";
    assert t[0] == s[0];
    assert StripLeftWith(t, Whitespace) == t;
    assert t[..|t| - 1] == s;
    assert StripRightWith(s, Whitespace) == s;
  }

  /** int(str(n)) == n. */
  lemma ParseIntRendered(n: nat)
    ensures ParseInt(NatToString(n)) == Ok(n)
  {
    NatToStringValue(n);
  }

  /** int(str(n) + " ") == n: a trailing blank is ignored. */
  lemma ParseIntPadded(n: nat)
    ensures ParseInt(NatToString(n) + " ") == Ok(n)
  {
    var s := NatToString(n);
    StripPadded(s);
    NatToStringValue(n);
  }
}
