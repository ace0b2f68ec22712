// Comments: `//` runs to the end of the line, `/*` to its closing `*/`.
// Both are emitted as Comment tokens whose value leaves out the delimiters.
module CommentScan {
  import opened Types
  import opened CharClass
  import opened Cursors

  /** Characters that may stand inside a block comment without stopping the
      comment loop: the loop stops at any `/`, and at the character after any
      `*`. */
  predicate InBlockBody(c: char) {
    c != '*' && c != '/'
  }

  /** The comment loop's condition. */
  predicate Continues(chars: seq<char>, idx: nat, multiline: bool, prev: char)
    requires idx < |chars|
  {
    (multiline && (prev != '*' && chars[idx] != '/')) || (!multiline && chars[idx] != '\n')
  }

  /** Where the comment loop stopped, the characters it pushed, and the column
      counter and newline count it leaves. */
  datatype CommentLoopEnd = CommentLoopEnd(stop: nat, body: seq<char>, col: nat, lines: nat)

  /** The comment loop: it pushes every character it passes, moves the column
      counter over it, and records a newline for every `\n`. */
  function CommentLoop(chars: seq<char>, idx: nat, multiline: bool, prev: char, body: seq<char>, col: nat, lines: nat)
    : (r: CommentLoopEnd)
    requires idx <= |chars|
    ensures idx <= r.stop <= |chars|
    ensures r.body == body + chars[idx..r.stop]
    ensures r.col == ColAfter(col, chars[idx..r.stop])
    ensures r.lines == lines + Occurrences(chars[idx..r.stop], '\n')
    decreases |chars| - idx
  {
    if idx < |chars| && Continues(chars, idx, multiline, prev) then
      var c := chars[idx];
      var r := CommentLoop(chars, idx + 1, multiline, c, body + [c], ColStep(col, c), if c == '\n' then lines + 1 else lines);
      LoopPassesOne(chars, idx, body, col, lines, r);
      r
    else
      CommentLoopEnd(idx, body, col, lines)
  }

  /** Passing the character at `idx` and then the rest up to `stop`. */
  lemma PassOne(chars: seq<char>, idx: nat, stop: nat, col: nat)
    requires idx < stop <= |chars|
    ensures chars[idx..stop] == [chars[idx]] + chars[idx + 1..stop]
    ensures ColAfter(col, chars[idx..stop]) == ColAfter(ColStep(col, chars[idx]), chars[idx + 1..stop])
    ensures Occurrences(chars[idx..stop], '\n') == (if chars[idx] == '\n' then 1 else 0) + Occurrences(chars[idx + 1..stop], '\n')
  {
    assert chars[idx..stop][1..] == chars[idx + 1..stop];
  }

  /** What the loop leaves after the character at `idx`, read as what it
      leaves from `idx` on. */
  lemma LoopPassesOne(chars: seq<char>, idx: nat, body: seq<char>, col: nat, lines: nat, r: CommentLoopEnd)
    requires idx + 1 <= r.stop <= |chars|
    requires r.body == body + [chars[idx]] + chars[idx + 1..r.stop]
    requires r.col == ColAfter(ColStep(col, chars[idx]), chars[idx + 1..r.stop])
    requires r.lines == (if chars[idx] == '\n' then lines + 1 else lines) + Occurrences(chars[idx + 1..r.stop], '\n')
    ensures r.body == body + chars[idx..r.stop]
    ensures r.col == ColAfter(col, chars[idx..r.stop])
    ensures r.lines == lines + Occurrences(chars[idx..r.stop], '\n')
  {
    PassOne(chars, idx, r.stop, col);
    assert body + [chars[idx]] + chars[idx + 1..r.stop] == body + chars[idx..r.stop];
  }

  /** A line comment's loop stops at the first newline, or at the end of the
      input. */
  lemma {:induction false} LineLoopStop(chars: seq<char>, idx: nat, prev: char, body: seq<char>, col: nat, lines: nat)
    requires idx <= |chars|
    ensures CommentLoop(chars, idx, false, prev, body, col, lines).stop == RunEnd(chars, idx, NotNewline)
    decreases |chars| - idx
  {
    if idx < |chars| && chars[idx] != '\n' {
      var c := chars[idx];
      LineLoopStop(chars, idx + 1, c, body + [c], ColStep(col, c), lines);
    }
  }

  /** Once the previous character is not a `*`, a block comment's loop runs
      over the longest stretch free of `*` and `/`; it also passes a `*` that
      ends the stretch and stops right after it. */
  lemma {:induction false} BlockLoopStop(chars: seq<char>, idx: nat, prev: char, body: seq<char>, col: nat, lines: nat)
    requires idx <= |chars|
    requires prev != '*'
    ensures var m := RunEnd(chars, idx, InBlockBody);
      CommentLoop(chars, idx, true, prev, body, col, lines).stop == (if m < |chars| && chars[m] == '*' then m + 1 else m)
    decreases |chars| - idx
  {
    if idx < |chars| {
      var c := chars[idx];
      var col' := ColStep(col, c);
      var lines' := if c == '\n' then lines + 1 else lines;
      if c == '*' {
        assert CommentLoop(chars, idx + 1, true, c, body + [c], col', lines').stop == idx + 1;
      } else if c != '/' {
        BlockLoopStop(chars, idx + 1, c, body + [c], col', lines');
      }
    }
  }

  // Scans the comment whose `/` is at `p` and whose second character is
  // `/` or `*`. `//` or `/*` as the last two characters of the input is an
  // error; otherwise the body starts two characters after `p`.
  function ScanComment(chars: seq<char>, p: nat, col: nat, lines: nat): (r: Result<Scanned>)
    requires p + 1 < |chars| && chars[p] == '/' && (chars[p + 1] == '/' || chars[p + 1] == '*')
    requires col >= 1
    ensures r.Err? <==> p + 2 == |chars| || (chars[p + 1] == '*' && !BlockWellFormed(chars, p + 2))
    ensures p + 2 == |chars| ==> r == Err(CommentAtEnd)
    ensures p + 2 < |chars| && chars[p + 1] == '/' ==>
      var e := RunEnd(chars, p + 2, NotNewline);
      && r.Ok? && r.value.last == e - 1
      && r.value.tok == Some(Token(Comment, chars[p + 2..e], Span(lines + 1, col + (e - p - 2), e - p)))
    ensures p + 2 < |chars| && chars[p + 1] == '*' ==> r == BlockCommentSpec(chars, p + 2, col, lines)
  {
    var multiline := chars[p + 1] == '*';
    var s := p + 2;
    if s >= |chars| then
      // `unreachable!()` fires
      Err(CommentAtEnd)
    else if multiline then
      BlockComment(chars, s, col, lines)
    else
      Ok(LineComment(chars, s, col, lines))
  }

  /** `//` with a body after it scans a line comment. */
  lemma ScanLineComment(chars: seq<char>, p: nat, col: nat, lines: nat)
    requires p + 2 < |chars| && chars[p] == '/' && chars[p + 1] == '/' && col >= 1
    ensures ScanComment(chars, p, col, lines) == Ok(LineComment(chars, p + 2, col, lines))
  {
  }

  // `/*` with a body after it scans a block comment.
  lemma ScanBlockComment(chars: seq<char>, p: nat, col: nat, lines: nat)
    requires p + 2 < |chars| && chars[p] == '/' && chars[p + 1] == '*' && col >= 1
    ensures ScanComment(chars, p, col, lines) == BlockCommentSpec(chars, p + 2, col, lines)
  {
  }

  // A line comment whose body starts at `s`. The body runs up to, not
  // including, the next newline (or the end of the input); the newline is
  // left for the next iteration. The column counter moves over the body,
  // and the token's column is the moved counter.
  function LineComment(chars: seq<char>, s: nat, col: nat, lines: nat): (r: Scanned)
    requires 2 <= s < |chars|
    ensures var e := RunEnd(chars, s, NotNewline);
      var body := chars[s..e];
      r == Scanned(Some(Token(Comment, body, Span(lines + 1, col + |body|, |body| + 2))), e - 1, col + |body|, lines, |body| + 2)
  {
    var scan := CommentLoop(chars, s, false, chars[s], [], col, lines);
    LineScanFacts(chars, s, col, lines);
    // the loop stopped on the newline; the main loop's step lands on it
    Scanned(Some(Token(Comment, scan.body, Span(lines + 1, scan.col, |scan.body| + 2))), scan.stop - 1, scan.col, scan.lines, |scan.body| + 2)
  }

  lemma LineScanFacts(chars: seq<char>, s: nat, col: nat, lines: nat)
    requires 2 <= s < |chars|
    ensures var scan := CommentLoop(chars, s, false, chars[s], [], col, lines);
      var e := RunEnd(chars, s, NotNewline);
      scan == CommentLoopEnd(e, chars[s..e], col + (e - s), lines)
  {
    var scan := CommentLoop(chars, s, false, chars[s], [], col, lines);
    LineLoopStop(chars, s, chars[s], [], col, lines);
    var e := RunEnd(chars, s, NotNewline);
    var body := chars[s..e];
    assert scan.body == body;
    assert '\n' !in body;
    ColAfterNoNewline(col, body);
    OccurrencesPositive(body, '\n');
  }

  // Is the block comment whose body starts at `s` well formed? Either `/*`
  // is directly followed by `/`, which closes an empty comment, or a
  // non-empty stretch free of `*` and `/` is followed by `*/`.
  predicate BlockWellFormed(chars: seq<char>, s: nat)
    requires s < |chars|
  {
    var m := RunEnd(chars, s, InBlockBody);
    chars[s] == '/' || (s < m && m + 1 < |chars| && chars[m] == '*' && chars[m + 1] == '/')
  }

  // The outcome of a block comment whose body starts at `s`, just after
  // `/*`, stated without the loop. The body is the stretch free of `*` and
  // `/`; the comment is an error unless it is well formed. Newlines in the
  // body are recorded and reset the column counter, and the counter ends on
  // the body's last character. In the empty `/*/` form the counter steps
  // one back.
  function BlockCommentSpec(chars: seq<char>, s: nat, col: nat, lines: nat): Result<Scanned>
    requires s < |chars| && col >= 1
  {
    var m := RunEnd(chars, s, InBlockBody);
    if chars[s] == '/' then
      Ok(Scanned(Some(Token(Comment, [], Span(lines + 1, col - 1, 2))), s, col - 1, lines, 2))
    else if BlockWellFormed(chars, s) then
      Ok(BlockBody(chars, s, m, col, lines))
    else
      Err(UnclosedComment)
  }

  /** The comment whose body runs from `s` to `m`, closed by `*` and `/`. */
  function BlockBody(chars: seq<char>, s: nat, m: nat, col: nat, lines: nat): Scanned
    requires s <= m <= |chars|
  {
    var body := chars[s..m];
    var col' := ColAfter(col, body);
    Scanned(Some(Token(Comment, body, Span(lines + 1, col', |body| + 2))), m + 1, col', lines + Occurrences(body, '\n'), |body| + 2)
  }

  // The block comment as the lexer's loop scans it: it agrees with the
  // outcome stated without the loop.
  function BlockComment(chars: seq<char>, s: nat, col: nat, lines: nat): (r: Result<Scanned>)
    requires 2 <= s < |chars| && chars[s - 1] == '*'
    requires col >= 1
    ensures r == BlockCommentSpec(chars, s, col, lines)
  {
    var scan := CommentLoop(chars, s, true, chars[s], [], col, lines);
    BlockScanFacts(chars, s, col, lines);
    if scan.stop < |chars| && chars[scan.stop - 1] == '*' && chars[scan.stop] == '/' then
      // the `*` of `*/` was pushed and counted; take it back
      var body := Pop(scan.body);
      var col' := scan.col - 1;
      BlockClosed(chars, s, col, lines, scan.stop, body, col', scan.lines);
      Ok(Scanned(Some(Token(Comment, body, Span(lines + 1, col', |body| + 2))), scan.stop, col', scan.lines, |body| + 2))
    else
      Err(UnclosedComment)
  }

  /** A closed block comment, given where the loop stopped and what it left,
      is the outcome stated without the loop. */
  lemma BlockClosed(chars: seq<char>, s: nat, col: nat, lines: nat, stop: nat, body: seq<char>, col': nat, lines': nat)
    requires 2 <= s < |chars| && col >= 1 && BlockWellFormed(chars, s)
    requires chars[s] == '/' ==> stop == s && body == [] && col' == col - 1 && lines' == lines
    requires chars[s] != '/' ==>
      var m := RunEnd(chars, s, InBlockBody);
      && stop == m + 1 && body == chars[s..m]
      && col' == ColAfter(col, body) && lines' == lines + Occurrences(body, '\n')
    ensures BlockCommentSpec(chars, s, col, lines)
         == Ok(Scanned(Some(Token(Comment, body, Span(lines + 1, col', |body| + 2))), stop, col', lines', |body| + 2))
  {
    var n := |body| + 2;
    var tok := Some(Token(Comment, body, Span(lines + 1, col', n)));
    if chars[s] == '/' {
      assert n == 2;
      assert tok == Some(Token(Comment, [], Span(lines + 1, col - 1, 2)));
      BlockClosedEmpty(chars, s, col, lines);
    } else {
      var m := RunEnd(chars, s, InBlockBody);
      BlockClosedBody(chars, s, col, lines, m, body, col', lines');
    }
  }

  // The empty comment `/*/`.
  lemma BlockClosedEmpty(chars: seq<char>, s: nat, col: nat, lines: nat)
    requires 2 <= s < |chars| && col >= 1 && chars[s] == '/'
    ensures BlockCommentSpec(chars, s, col, lines)
         == Ok(Scanned(Some(Token(Comment, [], Span(lines + 1, col - 1, 2))), s, col - 1, lines, 2))
  {
  }

  /** A comment with a body closed by `*` and `/`. */
  lemma BlockClosedBody(chars: seq<char>, s: nat, col: nat, lines: nat, m: nat, body: seq<char>, col': nat, lines': nat)
    requires 2 <= s < |chars| && col >= 1 && chars[s] != '/' && BlockWellFormed(chars, s)
    requires m == RunEnd(chars, s, InBlockBody) && body == chars[s..m]
    requires col' == ColAfter(col, body) && lines' == lines + Occurrences(body, '\n')
    ensures BlockCommentSpec(chars, s, col, lines)
         == Ok(Scanned(Some(Token(Comment, body, Span(lines + 1, col', |body| + 2))), m + 1, col', lines', |body| + 2))
  {
    assert BlockCommentSpec(chars, s, col, lines) == Ok(BlockBody(chars, s, m, col, lines));
  }

  // What the block comment loop leaves, started on the first character
  // after `/*`, in the three cases that decide the outcome.
  lemma BlockScanFacts(chars: seq<char>, s: nat, col: nat, lines: nat)
    requires 2 <= s < |chars| && chars[s - 1] == '*'
    requires col >= 1
    ensures var scan := CommentLoop(chars, s, true, chars[s], [], col, lines);
      var closes := scan.stop < |chars| && chars[scan.stop - 1] == '*' && chars[scan.stop] == '/';
      var m := RunEnd(chars, s, InBlockBody);
      && (chars[s] == '/' ==> closes && scan == CommentLoopEnd(s, [], col, lines))
      && (chars[s] != '/' && BlockWellFormed(chars, s) ==>
            && closes
            && scan.stop == m + 1
            && Pop(scan.body) == chars[s..m]
            && scan.col == ColAfter(col, chars[s..m]) + 1
            && scan.lines == lines + Occurrences(chars[s..m], '\n'))
      && (!BlockWellFormed(chars, s) ==> !closes)
  {
    var m := RunEnd(chars, s, InBlockBody);
    if chars[s] != '/' && chars[s] != '*' {
      BlockLoopStop(chars, s, chars[s], [], col, lines);
      if m < |chars| && chars[m] == '*' {
        BlockLoopToStar(chars, s, col, lines, m);
      } else if m < |chars| {
        assert chars[m - 1] != '*';
      }
    }
  }

  /** A body free of `*` and `/` that ends at a `*`: the loop stops right
      after that `*`, having pushed it and moved the column over it. */
  lemma BlockLoopToStar(chars: seq<char>, s: nat, col: nat, lines: nat, m: nat)
    requires 2 <= s < m < |chars| && chars[m] == '*'
    requires CommentLoop(chars, s, true, chars[s], [], col, lines).stop == m + 1
    ensures var scan := CommentLoop(chars, s, true, chars[s], [], col, lines);
      && Pop(scan.body) == chars[s..m]
      && scan.col == ColAfter(col, chars[s..m]) + 1
      && scan.lines == lines + Occurrences(chars[s..m], '\n')
  {
    var scan := CommentLoop(chars, s, true, chars[s], [], col, lines);
    var body := chars[s..m];
    assert chars[s..m + 1] == body + ['*'];
    assert scan.body == body + ['*'];
    assert Pop(body + ['*']) == body;
    var c := ColAfter(col, body);
    ColAfterAppend(col, body, ['*']);
    assert ColAfter(c, ['*']) == ColAfter(c + 1, []) == c + 1;
    OccurrencesAppend(body, ['*'], '\n');
    assert Occurrences(['*'], '\n') == 0;
  }
}
