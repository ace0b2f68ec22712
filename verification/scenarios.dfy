/** Token streams for families of inputs that show how the arms combine:
    numbers next to the range operator, the second-dot rule, comments
    followed by code, and the operator macro's line and column quirks. */
module LexScenarios {
  import opened Types
  import opened CharClass
  import opened Cursors
  import opened Operators
  import opened CommentScan
  import opened NumberScan
  import opened Lexer
  import opened StepProperties
  import opened LexProperties

  // ----- single iterations used below -----

  /** An iteration that aborts aborts the whole lexer with its reason. */
  lemma LexFromFails(chars: seq<char>, cur: Cursor)
    requires cur.idx < |chars| && cur.col >= 1 && Step(chars, cur).Err?
    ensures LexFrom(chars, cur) == Err(Step(chars, cur).error)
  {
  }

  /** A lexer whose first character gives a reason to abort aborts with it. */
  lemma LexFailsAtStart(text: string)
    requires |text| > 0 && Failure(text, 0).Some?
    ensures Lex(text) == Err(Failure(text, 0).value)
  {
    var cur := Cursor(0, 1, 0);
    StepFailure(text, cur);
    LexFromFails(text, cur);
  }

  /** Dots before `j` never outnumber dots before a later `k`. */
  lemma DotsMono(chars: seq<char>, p: nat, j: nat, k: nat)
    requires p <= j <= k <= |chars|
    ensures Dots(chars[p..j]) <= Dots(chars[p..k])
  {
    assert chars[p..k] == chars[p..j] + chars[j..k];
    OccurrencesAppend(chars[p..j], chars[j..k], '.');
  }

  /** A number whose run meets its second dot at `z` is an Int ending two
      positions before `z`. */
  lemma NumberSecondDotAt(chars: seq<char>, p: nat, z: nat, col: nat, lines: nat)
    requires p < z < |chars| && IsNumeric(chars[p]) && chars[z] == '.'
    requires forall k :: p <= k < z ==> IsNumberChar(chars[k])
    requires Dots(chars[p..z]) == 1
    ensures z >= p + 2
    ensures ScanNumber(chars, p, col, lines)
         == Scanned(Some(Token(Int, chars[p..z - 1], Span(lines + 1, col, z - 1 - p))), z - 2, col, lines, z - 1 - p)
  {
    var e := RunEnd(chars, p, IsNumberChar);
    assert e > z;
    DotsSnoc(chars, p, z);
    DotsMono(chars, p, z + 1, e);
    assert z >= p + 2;
    var r := ScanNumber(chars, p, col, lines);
    var l := r.last;
    SecondDotPosition(chars, p, z, l + 2);
    var v := chars[p..z - 1];
    assert r.tok.value.val == v;
    assert r.tok.value == Token(Int, v, Span(lines + 1, col, z - 1 - p));
  }

  /** Two positions that both hold the second dot of the run from `p` are
      the same. */
  lemma SecondDotPosition(chars: seq<char>, p: nat, z: nat, q: nat)
    requires p < z < |chars| && chars[z] == '.' && Dots(chars[p..z]) == 1
    requires p < q < |chars| && chars[q] == '.' && Dots(chars[p..q]) == 1
    ensures q == z
  {
    DotsSnoc(chars, p, z);
    DotsSnoc(chars, p, q);
    if q < z {
      DotsMono(chars, p, q + 1, z);
    } else if q > z {
      DotsMono(chars, p, z + 1, q);
    }
  }

  /** The range arm on `..`. */
  lemma StepRange(chars: seq<char>, cur: Cursor, t: Token, next: Cursor)
    requires cur.idx < |chars| && cur.col >= 1 && OpensRange(chars, cur.idx)
    requires t == Token(Operator, RangeName, Span(cur.lines + 1, cur.col, 2))
    requires next == Cursor(cur.idx + 2, cur.col + 2, cur.lines)
    ensures Emits(chars, cur, Some(t), next)
  {
    var s := Scanned(Some(t), cur.idx + 1, cur.col, cur.lines, 2);
    assert DefaultArm(chars, cur) == Ok(s);
    assert Dispatch(chars, cur) == Ok(s);
    StepOf(chars, cur, s);
  }

  /** The operator macro on an operator character that is neither followed
      by `=` nor doubled: a one-character Operator that claims length 2 on
      the line count itself, and a column step of one. */
  lemma StepSingleOperator(chars: seq<char>, cur: Cursor)
    requires cur.idx + 1 < |chars| && cur.col >= 1 && IsOperatorChar(chars[cur.idx])
    requires chars[cur.idx + 1] != '=' && chars[cur.idx + 1] != chars[cur.idx]
    ensures Emits(chars, cur, Some(Token(Operator, [chars[cur.idx]], Span(cur.lines, cur.col, 2))), Cursor(cur.idx + 1, cur.col + 1, cur.lines))
  {
    var idx := cur.idx;
    assert chars[idx..idx + 1] == [chars[idx]];
    var s := Scanned(Some(Token(Operator, [chars[idx]], Span(cur.lines, cur.col, 2))), idx, cur.col, cur.lines, 1);
    assert OperatorArm(chars, idx, cur.col, cur.lines) == Ok(s);
    assert Dispatch(chars, cur) == Ok(s);
    StepOf(chars, cur, s);
  }

  /** The operator macro on an operator character followed by `=`. */
  lemma StepOperatorAssignment(chars: seq<char>, cur: Cursor)
    requires cur.idx + 1 < |chars| && cur.col >= 1 && IsOperatorChar(chars[cur.idx]) && chars[cur.idx + 1] == '='
    ensures Emits(chars, cur, Some(Token(Assignment, [chars[cur.idx], '='], Span(cur.lines, cur.col, 2))), Cursor(cur.idx + 2, cur.col + 1, cur.lines))
  {
    var idx := cur.idx;
    assert chars[idx..idx + 2] == [chars[idx], '='];
    var s := Scanned(Some(Token(Assignment, [chars[idx], '='], Span(cur.lines, cur.col, 2))), idx + 1, cur.col, cur.lines, 1);
    assert OperatorArm(chars, idx, cur.col, cur.lines) == Ok(s);
    assert Dispatch(chars, cur) == Ok(s);
    StepOf(chars, cur, s);
  }

  /** One iteration on `//` with a body after it is the line comment arm. */
  lemma StepLineCommentArm(chars: seq<char>, cur: Cursor, sc: Scanned)
    requires cur.idx + 2 < |chars| && cur.col >= 1
    requires chars[cur.idx] == '/' && chars[cur.idx + 1] == '/'
    requires sc == LineComment(chars, cur.idx + 2, cur.col, cur.lines)
    ensures Emits(chars, cur, sc.tok, Cursor(sc.last + 1, sc.col + sc.advance, sc.lines))
  {
    DispatchLineComment(chars, cur);
    StepOf(chars, cur, sc);
  }

  /** The line comment arm on a body that ends at the newline at `e`. */
  lemma LineCommentUpTo(chars: seq<char>, s: nat, e: nat, col: nat, lines: nat)
    requires 2 <= s <= e < |chars| && chars[e] == '\n'
    requires forall k :: s <= k < e ==> chars[k] != '\n'
    ensures var body := chars[s..e];
      LineComment(chars, s, col, lines)
        == Scanned(Some(Token(Comment, body, Span(lines + 1, col + |body|, |body| + 2))), e - 1, col + |body|, lines, |body| + 2)
  {
    RunEndUnique(chars, s, NotNewline, e);
  }

  // ----- families of inputs -----

  /** `a..b` for digit runs `a` and `b`: the second dot stops the first
      number, so the text is an Int, the range operator and an Int. */
  lemma RangeBetweenNumbers(a: string, b: string)
    requires |a| >= 1 && forall k :: 0 <= k < |a| ==> IsNumeric(a[k])
    requires |b| >= 1 && forall k :: 0 <= k < |b| ==> IsNumeric(b[k])
    ensures Lex(a + ".." + b) == Ok([
      Token(Int, a, Span(1, 1, |a|)),
      Token(Operator, RangeName, Span(1, 1 + |a|, 2)),
      Token(Int, b, Span(1, 3 + |a|, |b|))])
  {
    var text := a + ".." + b;
    assert text[..|a| + 2] == a + ".." && text[|a| + 2..] == b;
    LexRange(text, a, b);
  }

  /** The three tokens of `a..b`, stated for any text with those parts. */
  lemma LexRange(text: string, a: string, b: string)
    requires |a| >= 1 && forall k :: 0 <= k < |a| ==> IsNumeric(a[k])
    requires |b| >= 1 && forall k :: 0 <= k < |b| ==> IsNumeric(b[k])
    requires |text| >= |a| + 2 && text[..|a| + 2] == a + ".." && text[|a| + 2..] == b
    ensures Lex(text) == Ok([
      Token(Int, a, Span(1, 1, |a|)),
      Token(Operator, RangeName, Span(1, 1 + |a|, 2)),
      Token(Int, b, Span(1, 3 + |a|, |b|))])
  {
    assert text[|a|] == (a + "..")[|a|] && text[|a| + 1] == (a + "..")[|a| + 1];
    var t0 := Token(Int, a, Span(1, 1, |a|));
    var t1 := Token(Operator, RangeName, Span(1, 1 + |a|, 2));
    var t2 := Token(Int, b, Span(1, 3 + |a|, |b|));
    RangeThenDigits(text, |a|, 1 + |a|, b, t1, t2);
    NumberThenRange(text, a);
    LexFromEmits(text, Cursor(0, 1, 0), t0, Cursor(|a|, 1 + |a|, 0), [t1, t2]);
    assert [t0] + [t1, t2] == [t0, t1, t2];
  }

  /** `..` at `p` followed by digits to the end of the input, on the first
      line: the range operator, then an Int. */
  lemma RangeThenDigits(text: string, p: nat, col: nat, b: string, t1: Token, t2: Token)
    requires col >= 1 && p + 2 <= |text| && text[p] == '.' && text[p + 1] == '.' && text[p + 2..] == b
    requires |b| >= 1 && forall k :: 0 <= k < |b| ==> IsNumeric(b[k])
    requires t1 == Token(Operator, RangeName, Span(1, col, 2)) && t2 == Token(Int, b, Span(1, col + 2, |b|))
    ensures LexFrom(text, Cursor(p, col, 0)) == Ok([t1, t2])
  {
    var c2 := Cursor(p + 2, col + 2, 0);
    DigitsToEnd(text, c2, b, t2);
    LexFromRange(text, p, col, 0, t1, [t2]);
    assert [t1] + [t2] == [t1, t2];
  }

  /** The range operator in front of what the loop yields after it. */
  lemma LexFromRange(chars: seq<char>, p: nat, col: nat, lines: nat, t: Token, ts: seq<Token>)
    requires col >= 1 && p + 1 < |chars| && chars[p] == '.' && chars[p + 1] == '.'
    requires t == Token(Operator, RangeName, Span(lines + 1, col, 2))
    requires LexFrom(chars, Cursor(p + 2, col + 2, lines)) == Ok(ts)
    ensures LexFrom(chars, Cursor(p, col, lines)) == Ok([t] + ts)
  {
    var cur := Cursor(p, col, lines);
    var next := Cursor(p + 2, col + 2, lines);
    StepRange(chars, cur, t, next);
    LexFromEmits(chars, cur, t, next, ts);
  }

  /** The first iteration on `a..` followed by anything. */
  lemma NumberThenRange(text: string, a: string)
    requires |a| >= 1 && forall k :: 0 <= k < |a| ==> IsNumeric(a[k])
    requires |text| >= |a| + 2 && text[..|a| + 2] == a + ".."
    ensures Emits(text, Cursor(0, 1, 0), Some(Token(Int, a, Span(1, 1, |a|))), Cursor(|a|, 1 + |a|, 0))
  {
    var n := |a|;
    assert text[0..n] == a;
    assert text[0..n + 1] == a + ".";
    OccurrencesPositive(a, '.');
    OccurrencesAppend(a, ".", '.');
    NumberSecondDotAt(text, 0, n + 1, 1, 0);
    var c0 := Cursor(0, 1, 0);
    DispatchNumber(text, c0);
    StepOf(text, c0, ScanNumber(text, 0, 1, 0));
  }

  /** Digits that run to the end of the input, as the last token. */
  lemma DigitsToEnd(text: string, cur: Cursor, d: string, t: Token)
    requires cur.idx < |text| && cur.col >= 1 && text[cur.idx..] == d
    requires forall k :: 0 <= k < |d| ==> IsNumeric(d[k])
    requires t == Token(Int, d, Span(cur.lines + 1, cur.col, |d|))
    ensures LexFrom(text, cur) == Ok([t])
  {
    assert Dots(d) == 0 by {
      OccurrencesPositive(d, '.');
    }
    assert forall k :: cur.idx <= k < |text| ==> IsNumberChar(text[k]) by {
      assert forall k :: cur.idx <= k < |text| ==> text[k] == d[k - cur.idx];
    }
    NumberToEnd(text, cur);
  }

  /** `a.d.c` for a digit run `a`, one digit `d` and digits `c`: the second
      dot ends the first number as the Int `a.`, and the digit before it is
      read again as the start of the Float `d.c`. */
  lemma SecondDotRescan(a: string, d: char, c: string)
    requires |a| >= 1 && forall k :: 0 <= k < |a| ==> IsNumeric(a[k])
    requires IsNumeric(d)
    requires forall k :: 0 <= k < |c| ==> IsNumeric(c[k])
    ensures Lex(a + "." + [d] + "." + c) == Ok([
      Token(Int, a + ".", Span(1, 1, |a| + 1)),
      Token(Float, [d] + "." + c, Span(1, |a| + 2, |c| + 2))])
  {
    var text := a + "." + [d] + "." + c;
    assert text[..|a| + 3] == a + "." + [d] + "." && text[|a| + 1..] == [d] + "." + c;
    LexSecondDot(text, a, d, c);
  }

  /** The two tokens of `a.d.c`, stated for any text with those parts. */
  lemma LexSecondDot(text: string, a: string, d: char, c: string)
    requires |a| >= 1 && forall k :: 0 <= k < |a| ==> IsNumeric(a[k])
    requires IsNumeric(d)
    requires forall k :: 0 <= k < |c| ==> IsNumeric(c[k])
    requires |text| >= |a| + 3 && text[..|a| + 3] == a + "." + [d] + "." && text[|a| + 1..] == [d] + "." + c
    ensures Lex(text) == Ok([
      Token(Int, a + ".", Span(1, 1, |a| + 1)),
      Token(Float, [d] + "." + c, Span(1, |a| + 2, |c| + 2))])
  {
    var n := |a|;
    var t0 := Token(Int, a + ".", Span(1, 1, n + 1));
    var t1 := Token(Float, [d] + "." + c, Span(1, n + 2, |c| + 2));
    var c0, c1 := Cursor(0, 1, 0), Cursor(n + 1, n + 2, 0);
    SecondDotFirst(text, a, d);
    FloatToEnd(text, c1, d, c, t1);
    LexFromEmits(text, c0, t0, c1, [t1]);
    assert [t0] + [t1] == [t0, t1];
  }

  /** The first iteration on `a.d.` followed by anything. */
  lemma SecondDotFirst(text: string, a: string, d: char)
    requires |a| >= 1 && forall k :: 0 <= k < |a| ==> IsNumeric(a[k])
    requires IsNumeric(d)
    requires |text| >= |a| + 3 && text[..|a| + 3] == a + "." + [d] + "."
    ensures Emits(text, Cursor(0, 1, 0), Some(Token(Int, a + ".", Span(1, 1, |a| + 1))), Cursor(|a| + 1, |a| + 2, 0))
  {
    var n := |a|;
    assert text[0..n + 1] == a + ".";
    assert text[0..n + 2] == a + "." + [d];
    OccurrencesPositive(a, '.');
    OccurrencesAppend(a, ".", '.');
    OccurrencesAppend(a + ".", [d], '.');
    NumberSecondDotAt(text, 0, n + 2, 1, 0);
    var c0 := Cursor(0, 1, 0);
    DispatchNumber(text, c0);
    StepOf(text, c0, ScanNumber(text, 0, 1, 0));
  }

  /** A digit, a dot and digits that run to the end of the input, as the
      last token. */
  lemma FloatToEnd(text: string, cur: Cursor, d: char, c: string, t: Token)
    requires cur.idx < |text| && cur.col >= 1 && text[cur.idx..] == [d] + "." + c
    requires IsNumeric(d) && forall k :: 0 <= k < |c| ==> IsNumeric(c[k])
    requires t == Token(Float, [d] + "." + c, Span(cur.lines + 1, cur.col, |c| + 2))
    ensures LexFrom(text, cur) == Ok([t])
  {
    var f := [d] + "." + c;
    assert Dots(f) == 1 by {
      OccurrencesPositive(c, '.');
      OccurrencesAppend([d], ".", '.');
      OccurrencesAppend([d] + ".", c, '.');
    }
    assert forall k :: cur.idx <= k < |text| ==> IsNumberChar(text[k]) by {
      assert forall k :: cur.idx <= k < |text| ==> text[k] == f[k - cur.idx];
    }
    NumberToEnd(text, cur);
  }

  /** `//body` then a newline and a word: the comment keeps its body as
      written, reports the column after the body, and the word starts line
      2 in column 1. */
  lemma LineCommentThenWord(body: string, w: string)
    requires '\n' !in body
    requires |w| >= 1 && IsWordStart(w[0]) && forall k :: 0 <= k < |w| ==> IsWordChar(w[k])
    ensures Lex("//" + body + "\n" + w) == Ok([
      Token(Comment, body, Span(1, 1 + |body|, |body| + 2)),
      Token(Word, w, Span(2, 1, |w|))])
  {
    CommentThenWordText(body, w);
    CommentNewlineWord("//" + body + "\n" + w, body, w);
  }

  /** The same on a text given by where its parts sit. */
  lemma CommentNewlineWord(text: string, body: string, w: string)
    requires '\n' !in body
    requires |w| >= 1 && IsWordStart(w[0]) && forall k :: 0 <= k < |w| ==> IsWordChar(w[k])
    requires |text| == |body| + 3 + |w| && text[..|body| + 3] == "//" + body + "\n"
    requires text[|body| + 2] == '\n' && text[|body| + 3..] == w
    ensures LexFrom(text, Cursor(0, 1, 0)) == Ok([
      Token(Comment, body, Span(1, 1 + |body|, |body| + 2)),
      Token(Word, w, Span(2, 1, |w|))])
  {
    var t0 := Token(Comment, body, Span(1, 1 + |body|, |body| + 2));
    var t1 := Token(Word, w, Span(2, 1, |w|));
    NewlineThenWord(text, Cursor(2 + |body|, 1 + 2 * |body| + 2, 0), w, t1);
    CommentFirst(text, body, t0, [t1]);
    assert [t0] + [t1] == [t0, t1];
  }

  /** A newline then a word that runs to the end of the input: the word is
      the last token and starts the next line in column 1. */
  lemma NewlineThenWord(text: string, cur: Cursor, w: string, t: Token)
    requires cur.idx < |text| && cur.col >= 1 && text[cur.idx] == '\n' && text[cur.idx + 1..] == w
    requires |w| >= 1 && IsWordStart(w[0]) && forall k :: 0 <= k < |w| ==> IsWordChar(w[k])
    requires t == Token(Word, w, Span(cur.lines + 2, 1, |w|))
    ensures LexFrom(text, cur) == Ok([t])
  {
    var next := Cursor(cur.idx + 1, 1, cur.lines + 1);
    WordAtEnd(text, next, w, t);
    NewlineAt(text, cur);
  }

  /** Where the parts of `//body`, a newline and `w` sit in the text. */
  lemma CommentThenWordText(body: string, w: string)
    ensures var text := "//" + body + "\n" + w;
      && |text| == |body| + 3 + |w|
      && text[..|body| + 3] == "//" + body + "\n"
      && text[|body| + 2] == '\n'
      && text[|body| + 3..] == w
  {
  }

  /** The first iteration on `//body` and a newline puts the comment in
      front of what the loop yields from the newline on. */
  lemma CommentFirst(text: string, body: string, t0: Token, ts: seq<Token>)
    requires '\n' !in body
    requires |text| >= |body| + 3 && text[..|body| + 3] == "//" + body + "\n"
    requires t0 == Token(Comment, body, Span(1, 1 + |body|, |body| + 2))
    requires LexFrom(text, Cursor(2 + |body|, 1 + 2 * |body| + 2, 0)) == Ok(ts)
    ensures LexFrom(text, Cursor(0, 1, 0)) == Ok([t0] + ts)
  {
    CommentFirstText(text, body);
    var next := Cursor(2 + |body|, 1 + 2 * |body| + 2, 0);
    LineCommentUpTo(text, 2, 2 + |body|, 1, 0);
    var sc := LineComment(text, 2, 1, 0);
    assert sc == Scanned(Some(t0), 1 + |body|, 1 + |body|, 0, |body| + 2);
    var c0 := Cursor(0, 1, 0);
    StepLineCommentArm(text, c0, sc);
    assert Cursor(sc.last + 1, sc.col + sc.advance, sc.lines) == next;
    LexFromEmits(text, c0, t0, next, ts);
  }

  /** Where the body and the newline of `//body` and a newline sit. */
  lemma CommentFirstText(text: string, body: string)
    requires '\n' !in body
    requires |text| >= |body| + 3 && text[..|body| + 3] == "//" + body + "\n"
    ensures text[0] == '/' && text[1] == '/'
    ensures text[2..2 + |body|] == body && text[2 + |body|] == '\n'
    ensures forall k :: 2 <= k < 2 + |body| ==> text[k] != '\n'
  {
    forall k | 2 <= k < 2 + |body|
      ensures text[k] != '\n'
    {
      assert text[k] == body[k - 2];
    }
  }

  /** A newline in the code records a line, resets the column and yields
      nothing. */
  lemma NewlineAt(text: string, cur: Cursor)
    requires cur.idx < |text| && cur.col >= 1 && text[cur.idx] == '\n'
    ensures LexFrom(text, cur) == LexFrom(text, Cursor(cur.idx + 1, 1, cur.lines + 1))
  {
    StepSilent(text, cur);
    LexFromSkips(text, cur, Cursor(cur.idx + 1, 1, cur.lines + 1));
  }

  /** A word that runs to the end of the input, as the last token. */
  lemma WordAtEnd(text: string, cur: Cursor, w: string, t: Token)
    requires cur.idx < |text| && cur.col >= 1 && text[cur.idx..] == w
    requires |w| >= 1 && IsWordStart(w[0]) && forall k :: 0 <= k < |w| ==> IsWordChar(w[k])
    requires t == Token(Word, w, Span(cur.lines + 1, cur.col, |w|))
    ensures LexFrom(text, cur) == Ok([t])
  {
    assert forall k :: cur.idx <= k < |text| ==> text[k] == w[k - cur.idx];
    WordToEnd(text, cur);
  }

  // A block comment opener followed by text free of `*` and `/` is never
  // closed.
  lemma UnclosedBlockComment(body: string)
    requires |body| >= 1 && '*' !in body && '/' !in body
    ensures Lex("/*" + body) == Err(UnclosedComment)
  {
    var text := "/*" + body;
    forall k | 2 <= k < |text|
      ensures InBlockBody(text[k])
    {
      assert text[k] == body[k - 2];
    }
    RunEndUnique(text, 2, InBlockBody, |text|);
    assert !BlockWellFormed(text, 2) by {
      assert text[2] == body[0];
    }
    assert Failure(text, 0) == Some(UnclosedComment);
    LexFailsAtStart(text);
  }

  // The empty block comment `/*/`: its token reports the column one to the
  // left of the slash, and the column counter ends one to the right of it.
  lemma StepEmptyBlockComment(chars: seq<char>, cur: Cursor, t: Token, next: Cursor)
    requires cur.idx + 2 < |chars| && cur.col >= 1
    requires chars[cur.idx] == '/' && chars[cur.idx + 1] == '*' && chars[cur.idx + 2] == '/'
    requires t == Token(Comment, [], Span(cur.lines + 1, cur.col - 1, 2))
    requires next == Cursor(cur.idx + 3, cur.col + 1, cur.lines)
    ensures Emits(chars, cur, Some(t), next)
  {
    DispatchBlockComment(chars, cur);
    var s := Scanned(Some(t), cur.idx + 2, cur.col - 1, cur.lines, 2);
    assert BlockCommentSpec(chars, cur.idx + 2, cur.col, cur.lines) == Ok(s);
    StepOf(chars, cur, s);
  }

  // `/*/` at the start of the input is a Comment reported at column 0.
  lemma EmptyBlockCommentAtStart()
    ensures Lex("/*/") == Ok([Token(Comment, [], Span(1, 0, 2))])
  {
    var text := "/*/";
    var t := Token(Comment, [], Span(1, 0, 2));
    var next := Cursor(3, 2, 0);
    StepEmptyBlockComment(text, Cursor(0, 1, 0), t, next);
    LexAtEnd(text, next);
    LexFromEmits(text, Cursor(0, 1, 0), t, next, []);
    assert [t] + [] == [t];
    assert Lex(text) == LexFrom(text, Cursor(0, 1, 0));
  }

  /** An operator character before a word: the operator is reported on line
      0, one less than the word's line 1, claims length 2 for its one
      character, and moves the column by one only. */
  lemma OperatorThenWord(op: char, w: string)
    requires IsOperatorChar(op)
    requires |w| >= 1 && IsWordStart(w[0]) && forall k :: 0 <= k < |w| ==> IsWordChar(w[k])
    ensures Lex([op] + w) == Ok([
      Token(Operator, [op], Span(0, 1, 2)),
      Token(Word, w, Span(1, 2, |w|))])
  {
    var text := [op] + w;
    var t0 := Token(Operator, [op], Span(0, 1, 2));
    var t1 := Token(Word, w, Span(1, 2, |w|));
    var c0, c1 := Cursor(0, 1, 0), Cursor(1, 2, 0);
    StepSingleOperator(text, c0);
    assert [text[0]] == [op];
    assert text[1..] == w;
    WordAtEnd(text, c1, w, t1);
    LexFromEmits(text, c0, t0, c1, [t1]);
    assert [t0] + [t1] == [t0, t1];
  }

  /** `op=` before digits: a compound assignment on line 0 that consumes two
      characters but moves the column by one, so the number after it is
      reported one column left of where it stands. */
  lemma CompoundAssignmentThenNumber(op: char, d: string)
    requires IsOperatorChar(op)
    requires |d| >= 1 && forall k :: 0 <= k < |d| ==> IsNumeric(d[k])
    ensures Lex([op, '='] + d) == Ok([
      Token(Assignment, [op, '='], Span(0, 1, 2)),
      Token(Int, d, Span(1, 2, |d|))])
  {
    var text := [op, '='] + d;
    var t0 := Token(Assignment, [op, '='], Span(0, 1, 2));
    var t1 := Token(Int, d, Span(1, 2, |d|));
    var c0, c1 := Cursor(0, 1, 0), Cursor(2, 2, 0);
    StepOperatorAssignment(text, c0);
    assert [text[0], '='] == [op, '='];
    assert text[2..] == d;
    DigitsToEnd(text, c1, d, t1);
    LexFromEmits(text, c0, t0, c1, [t1]);
    assert [t0] + [t1] == [t0, t1];
  }

  /** A dot that is not followed by another dot is accepted by no arm. */
  lemma LoneDot(text: string)
    requires |text| >= 1 && text[0] == '.' && (|text| == 1 || text[1] != '.')
    ensures Lex(text) == Err(UnexpectedValue('.'))
  {
    assert Failure(text, 0) == Some(UnexpectedValue('.'));
    LexFailsAtStart(text);
  }

  /** An operator character on its own has no character after it to look
      at, and aborts. */
  lemma TrailingOperatorFails(op: char)
    requires IsOperatorChar(op)
    ensures Lex([op]) == Err(TrailingOperator)
  {
    assert Failure([op], 0) == Some(TrailingOperator);
    LexFailsAtStart([op]);
  }
}
