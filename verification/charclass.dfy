/** Character classes and the counting helpers the scanners share: maximal
    runs, occurrence counts and column bookkeeping. The character classes are
    the ASCII restriction of the Unicode predicates the lexer calls. */
module CharClass {

  /** ASCII part of `char::is_numeric`. */
  predicate IsNumeric(c: char) {
    '0' <= c <= '9'
  }

  /** ASCII part of `char::is_alphabetic`. */
  predicate IsAlphabetic(c: char) {
    'a' <= c <= 'z' || 'A' <= c <= 'Z'
  }

  /** ASCII part of `char::is_alphanumeric`. */
  predicate IsAlphanumeric(c: char) {
    IsAlphabetic(c) || IsNumeric(c)
  }

  /** ASCII part of `char::is_whitespace`: tab, line feed, vertical tab, form
      feed, carriage return and space. */
  predicate IsWhitespace(c: char) {
    c == '\t' || c == '\n' || c == '\U{B}' || c == '\U{C}' || c == '\r' || c == ' '
  }

  /** Characters a number literal is made of. */
  predicate IsNumberChar(c: char) {
    IsNumeric(c) || c == '.'
  }

  /** Characters that may start a word. */
  predicate IsWordStart(c: char) {
    IsAlphabetic(c) || c == '_'
  }

  /** Characters that may continue a word. */
  predicate IsWordChar(c: char) {
    IsAlphanumeric(c) || c == '_'
  }

  predicate NotNewline(c: char) {
    c != '\n'
  }

  /** The end of the maximal run of `inRun` characters that starts at `from`. */
  function RunEnd(chars: seq<char>, from: nat, inRun: char -> bool): (e: nat)
    requires from <= |chars|
    ensures from <= e <= |chars|
    ensures forall k :: from <= k < e ==> inRun(chars[k])
    ensures e == |chars| || !inRun(chars[e])
    decreases |chars| - from
  {
    if from == |chars| || !inRun(chars[from]) then from else RunEnd(chars, from + 1, inRun)
  }

  /** A maximal run is determined by its properties: any end position with
      them is the one `RunEnd` finds. */
  lemma RunEndUnique(chars: seq<char>, from: nat, inRun: char -> bool, e: nat)
    requires from <= e <= |chars|
    requires forall k :: from <= k < e ==> inRun(chars[k])
    requires e == |chars| || !inRun(chars[e])
    ensures RunEnd(chars, from, inRun) == e
  {
  }

  /** Number of occurrences of `x` in `s`. */
  function Occurrences(s: seq<char>, x: char): (n: nat)
    ensures n <= |s|
  {
    if |s| == 0 then 0 else (if s[0] == x then 1 else 0) + Occurrences(s[1..], x)
  }

  lemma {:induction false} OccurrencesAppend(a: seq<char>, b: seq<char>, x: char)
    ensures Occurrences(a + b, x) == Occurrences(a, x) + Occurrences(b, x)
    decreases |a|
  {
    if |a| == 0 {
      assert a + b == b;
    } else {
      assert (a + b)[1..] == a[1..] + b;
      OccurrencesAppend(a[1..], b, x);
    }
  }

  /** `x` occurs in `s` exactly when it is counted. */
  lemma {:induction false} OccurrencesPositive(s: seq<char>, x: char)
    ensures Occurrences(s, x) > 0 <==> x in s
    decreases |s|
  {
    if |s| > 0 {
      OccurrencesPositive(s[1..], x);
      assert s == [s[0]] + s[1..];
    }
  }

  /** One step of the column counter: a newline resets it to 1, any other
      character moves it one to the right. */
  function ColStep(col: nat, c: char): (r: nat)
    ensures r >= 1
  {
    if c == '\n' then 1 else col + 1
  }

  /** The column counter after stepping over every character of `text`. */
  function ColAfter(col: nat, text: seq<char>): (r: nat)
    ensures |text| > 0 || col >= 1 ==> r >= 1
    decreases |text|
  {
    if |text| == 0 then col else ColAfter(ColStep(col, text[0]), text[1..])
  }

  /** Without a newline the column simply moves by the length of the text. */
  lemma {:induction false} ColAfterNoNewline(col: nat, text: seq<char>)
    requires '\n' !in text
    ensures ColAfter(col, text) == col + |text|
    decreases |text|
  {
    if |text| > 0 {
      ColAfterNoNewline(col + 1, text[1..]);
    }
  }

  /** After a newline the counter restarts: it is one more than the number
      of characters after the last newline, whatever it was before. */
  lemma {:induction false} ColAfterLastNewline(col: nat, a: seq<char>, b: seq<char>)
    requires '\n' !in b
    ensures ColAfter(col, a + ['\n'] + b) == 1 + |b|
    decreases |a|
  {
    if |a| == 0 {
      assert a + ['\n'] + b == ['\n'] + b;
      assert (['\n'] + b)[1..] == b;
      ColAfterNoNewline(1, b);
    } else {
      assert (a + ['\n'] + b)[1..] == a[1..] + ['\n'] + b;
      ColAfterLastNewline(ColStep(col, a[0]), a[1..], b);
    }
  }

  lemma {:induction false} ColAfterAppend(col: nat, a: seq<char>, b: seq<char>)
    ensures ColAfter(col, a + b) == ColAfter(ColAfter(col, a), b)
    decreases |a|
  {
    if |a| == 0 {
      assert a + b == b;
    } else {
      assert (a + b)[1..] == a[1..] + b;
      ColAfterAppend(ColStep(col, a[0]), a[1..], b);
    }
  }
}
