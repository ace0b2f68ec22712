/** Properties of one iteration of the lexer's loop: which characters emit
    nothing, when an iteration aborts and with what, and how the line and
    column counters move. */
module StepProperties {
  import opened Types
  import opened CharClass
  import opened Cursors
  import opened Operators
  import opened StringLiteral
  import opened CommentScan
  import opened Lexer

  /** Whitespace, and only whitespace, produces no token: a newline records
      a line and resets the column to 1, any other whitespace moves it one to
      the right. */
  lemma StepSilent(chars: seq<char>, cur: Cursor)
    requires cur.idx < |chars| && cur.col >= 1
    ensures var c := chars[cur.idx];
      var r := Step(chars, cur);
      && (IsWhitespace(c) ==>
            r == Ok(Emitted(None, Cursor(cur.idx + 1, ColStep(cur.col, c), cur.lines + (if c == '\n' then 1 else 0)))))
      && (r.Ok? && r.value.tok.None? ==> IsWhitespace(c))
  {
  }

  /** The reasons an iteration aborts, read off the character at `idx` and
      what follows it, independently of how the arms scan. */
  function Failure(chars: seq<char>, idx: nat): Option<LexError>
    requires idx < |chars|
  {
    var c := chars[idx];
    if IsOperatorChar(c) && idx + 1 == |chars| then Some(TrailingOperator)
    else if c == '/' && idx + 1 == |chars| then Some(LoneSlash)
    else if OpensComment(chars, idx) && idx + 2 == |chars| then Some(CommentAtEnd)
    else if OpensComment(chars, idx) && chars[idx + 1] == '*' && !BlockWellFormed(chars, idx + 2) then Some(UnclosedComment)
    else if c == '"' && StringEnd(chars, idx + 1) == |chars| then Some(UnterminatedString)
    else if !Recognised(chars, idx) then Some(UnexpectedValue(c))
    else None
  }

  /** An iteration aborts exactly when one of the listed reasons applies, and
      with that reason. */
  lemma StepFailure(chars: seq<char>, cur: Cursor)
    requires cur.idx < |chars| && cur.col >= 1
    ensures var r := Step(chars, cur);
      var f := Failure(chars, cur.idx);
      && (r.Err? <==> f.Some?)
      && (r.Err? ==> r.error == f.value)
  {
    var c := chars[cur.idx];
    if SingleCharKind(c).Some? || c == ':' {
    } else if IsOperatorChar(c) || c == '"' {
      DispatchFailureOperatorString(chars, cur);
    } else if c == '/' {
      DispatchFailureSlash(chars, cur);
    } else {
      DispatchFailureDefault(chars, cur);
    }
  }

  /** The dispatch aborts with the reason `Failure` gives, or not at all. */
  predicate FailsAsListed(chars: seq<char>, cur: Cursor)
    requires cur.idx < |chars| && cur.col >= 1
  {
    var r := Dispatch(chars, cur);
    var f := Failure(chars, cur.idx);
    && (r.Err? <==> f.Some?)
    && (r.Err? ==> r.error == f.value)
  }

  /** Failures of the operator macro and of string literals. */
  lemma DispatchFailureOperatorString(chars: seq<char>, cur: Cursor)
    requires cur.idx < |chars| && cur.col >= 1
    requires IsOperatorChar(chars[cur.idx]) || chars[cur.idx] == '"'
    ensures FailsAsListed(chars, cur)
  {
  }

  /** Failures of the `/` arm. */
  lemma DispatchFailureSlash(chars: seq<char>, cur: Cursor)
    requires cur.idx < |chars| && cur.col >= 1 && chars[cur.idx] == '/'
    ensures FailsAsListed(chars, cur)
  {
    var idx := cur.idx;
    assert Dispatch(chars, cur) == SlashArm(chars, idx, cur.col, cur.lines);
    if OpensComment(chars, idx) && idx + 2 < |chars| && chars[idx + 1] == '*' {
      ScanBlockComment(chars, idx, cur.col, cur.lines);
    }
  }

  /** Failures of the catch-all arm. */
  lemma DispatchFailureDefault(chars: seq<char>, cur: Cursor)
    requires cur.idx < |chars| && cur.col >= 1
    requires var c := chars[cur.idx];
      SingleCharKind(c).None? && c != ':' && !IsOperatorChar(c) && c != '"' && c != '/'
    ensures FailsAsListed(chars, cur)
  {
    assert Dispatch(chars, cur) == DefaultArm(chars, cur);
  }

  /** The line a token reports: the number of newlines recorded so far for
      the operator macro, one more for every other arm. */
  lemma StepLine(chars: seq<char>, cur: Cursor)
    requires cur.idx < |chars| && cur.col >= 1
    ensures var r := Step(chars, cur);
      r.Ok? && r.value.tok.Some? ==>
        r.value.tok.value.span.line == (if ToOperatorArm(chars, cur.idx) then cur.lines else cur.lines + 1)
  {
    var c := chars[cur.idx];
    if ToOperatorArm(chars, cur.idx) {
      LineOfOperator(chars, cur);
    } else if SingleCharKind(c).Some? || c == ':' || c == '"' {
      LineOfSimple(chars, cur);
    } else if c == '/' {
      LineOfComment(chars, cur);
    } else {
      LineOfDefault(chars, cur);
    }
  }

  /** The line a token of the dispatch reports. */
  predicate ReportsLine(chars: seq<char>, cur: Cursor, line: nat)
    requires cur.idx < |chars| && cur.col >= 1
  {
    var r := Dispatch(chars, cur);
    r.Ok? && r.value.tok.Some? ==> r.value.tok.value.span.line == line
  }

  lemma LineOfOperator(chars: seq<char>, cur: Cursor)
    requires cur.idx < |chars| && cur.col >= 1 && ToOperatorArm(chars, cur.idx)
    ensures ReportsLine(chars, cur, cur.lines)
  {
    var op := OperatorArm(chars, cur.idx, cur.col, cur.lines);
    assert Dispatch(chars, cur) == op;
    assert op.Ok? ==> op.value.tok.value.span.line == cur.lines;
  }

  lemma LineOfSimple(chars: seq<char>, cur: Cursor)
    requires cur.idx < |chars| && cur.col >= 1
    requires var c := chars[cur.idx]; SingleCharKind(c).Some? || c == ':' || c == '"'
    ensures ReportsLine(chars, cur, cur.lines + 1)
  {
  }

  lemma LineOfComment(chars: seq<char>, cur: Cursor)
    requires cur.idx < |chars| && cur.col >= 1 && chars[cur.idx] == '/' && !ToOperatorArm(chars, cur.idx)
    ensures ReportsLine(chars, cur, cur.lines + 1)
  {
    var idx := cur.idx;
    if idx + 2 < |chars| {
      if chars[idx + 1] == '*' {
        DispatchBlockComment(chars, cur);
      } else {
        DispatchLineComment(chars, cur);
      }
    } else {
      assert Dispatch(chars, cur).Err?;
    }
  }

  lemma LineOfDefault(chars: seq<char>, cur: Cursor)
    requires cur.idx < |chars| && cur.col >= 1
    requires var c := chars[cur.idx];
      SingleCharKind(c).None? && c != ':' && !IsOperatorChar(c) && c != '"' && c != '/'
    ensures ReportsLine(chars, cur, cur.lines + 1)
  {
    assert Dispatch(chars, cur) == DefaultArm(chars, cur);
  }

  /** Only whitespace newlines and newlines inside block comments are
      recorded: a token leaves the newline count as it was, except that a
      comment adds the newlines of its body (a line comment's body has
      none). */
  lemma StepLines(chars: seq<char>, cur: Cursor)
    requires cur.idx < |chars| && cur.col >= 1
    ensures var r := Step(chars, cur);
      r.Ok? && r.value.tok.Some? ==>
        var t := r.value.tok.value;
        r.value.next.lines == cur.lines + (if t.typ == Comment then Occurrences(t.val, '\n') else 0)
  {
    var idx := cur.idx;
    if OpensComment(chars, idx) && idx + 2 < |chars| {
      if chars[idx + 1] == '/' {
        var e := RunEnd(chars, idx + 2, NotNewline);
        var body := chars[idx + 2..e];
        assert '\n' !in body by {
          forall k | 0 <= k < |body|
            ensures body[k] != '\n'
          {
            assert body[k] == chars[idx + 2 + k];
          }
        }
        OccurrencesPositive(body, '\n');
        DispatchLineComment(chars, cur);
      } else {
        DispatchBlockComment(chars, cur);
      }
    }
  }

  /** How the column counter moves over a token. The operator macro moves it
      by one whatever it consumed. A line comment moves it by twice its body
      plus two, since the body is counted once by the comment loop and once
      more by the advance. A block comment's body moves it as the text does,
      and the advance adds the body plus two on top. Every other token moves
      it by exactly the characters consumed. */
  lemma StepColumn(chars: seq<char>, cur: Cursor)
    requires cur.idx < |chars| && cur.col >= 1
    ensures var r := Step(chars, cur);
      r.Ok? && r.value.tok.Some? ==>
        var t := r.value.tok.value;
        var next := r.value.next;
        && (ToOperatorArm(chars, cur.idx) ==> next.col == cur.col + 1)
        && (t.typ == Comment && chars[cur.idx + 1] == '/' ==> next.col == cur.col + 2 * |t.val| + 2)
        && (t.typ == Comment && chars[cur.idx + 1] == '*' ==>
              next.col == if t.val == [] then cur.col + 1 else ColAfter(cur.col, t.val) + |t.val| + 2)
        && (!ToOperatorArm(chars, cur.idx) && t.typ != Comment ==> next.col == cur.col + (next.idx - cur.idx))
  {
    if ToOperatorArm(chars, cur.idx) {
      StepColumnOperator(chars, cur);
    }
    CommentArmOnly(chars, cur);
    if OpensComment(chars, cur.idx) && cur.idx + 2 < |chars| {
      if chars[cur.idx + 1] == '/' {
        StepColumnLineComment(chars, cur);
      } else {
        StepColumnBlockComment(chars, cur);
      }
    }
    StepColumnOther(chars, cur);
  }

  /** The operator macro moves the column by one. */
  lemma StepColumnOperator(chars: seq<char>, cur: Cursor)
    requires cur.idx < |chars| && cur.col >= 1 && ToOperatorArm(chars, cur.idx)
    ensures var r := Step(chars, cur);
      r.Ok? ==> r.value.next.col == cur.col + 1
  {
    if chars[cur.idx] == '/' {
      assert Dispatch(chars, cur) == OperatorArm(chars, cur.idx, cur.col, cur.lines);
    }
  }

  /** A `/` that opens a comment goes to the comment arm. */
  lemma DispatchComment(chars: seq<char>, cur: Cursor)
    requires cur.idx < |chars| && cur.col >= 1 && OpensComment(chars, cur.idx)
    ensures Dispatch(chars, cur) == ScanComment(chars, cur.idx, cur.col, cur.lines)
  {
    assert Dispatch(chars, cur) == SlashArm(chars, cur.idx, cur.col, cur.lines);
  }

  /** A `//` with a body after it goes to the line comment arm. */
  lemma DispatchLineComment(chars: seq<char>, cur: Cursor)
    requires cur.idx + 2 < |chars| && cur.col >= 1
    requires chars[cur.idx] == '/' && chars[cur.idx + 1] == '/'
    ensures Dispatch(chars, cur) == Ok(LineComment(chars, cur.idx + 2, cur.col, cur.lines))
  {
    DispatchComment(chars, cur);
    ScanLineComment(chars, cur.idx, cur.col, cur.lines);
  }

  // A `/*` with a body after it goes to the block comment arm.
  lemma DispatchBlockComment(chars: seq<char>, cur: Cursor)
    requires cur.idx + 2 < |chars| && cur.col >= 1
    requires chars[cur.idx] == '/' && chars[cur.idx + 1] == '*'
    ensures Dispatch(chars, cur) == BlockCommentSpec(chars, cur.idx + 2, cur.col, cur.lines)
  {
    DispatchComment(chars, cur);
    ScanBlockComment(chars, cur.idx, cur.col, cur.lines);
  }

  /** Only the comment arm produces comments. */
  lemma CommentArmOnly(chars: seq<char>, cur: Cursor)
    requires cur.idx < |chars| && cur.col >= 1
    ensures var r := Dispatch(chars, cur);
      r.Ok? && r.value.tok.Some? && r.value.tok.value.typ == Comment ==>
        OpensComment(chars, cur.idx) && cur.idx + 2 < |chars|
  {
  }

  /** A line comment moves the column by twice its body plus two. */
  lemma StepColumnLineComment(chars: seq<char>, cur: Cursor)
    requires cur.idx + 2 < |chars| && cur.col >= 1
    requires chars[cur.idx] == '/' && chars[cur.idx + 1] == '/'
    ensures var r := Step(chars, cur);
      r.Ok? && r.value.tok.Some? ==> r.value.next.col == cur.col + 2 * |r.value.tok.value.val| + 2
  {
    DispatchLineComment(chars, cur);
  }

  /** A block comment moves the column as its body does, plus its body and
      two. */
  lemma StepColumnBlockComment(chars: seq<char>, cur: Cursor)
    requires cur.idx + 2 < |chars| && cur.col >= 1
    requires chars[cur.idx] == '/' && chars[cur.idx + 1] == '*'
    ensures var r := Step(chars, cur);
      r.Ok? && r.value.tok.Some? ==>
        var t := r.value.tok.value;
        r.value.next.col == if t.val == [] then cur.col + 1 else ColAfter(cur.col, t.val) + |t.val| + 2
  {
    DispatchBlockComment(chars, cur);
  }

  /** Every other token moves the column by the characters it consumed. */
  lemma StepColumnOther(chars: seq<char>, cur: Cursor)
    requires cur.idx < |chars| && cur.col >= 1
    ensures var r := Step(chars, cur);
      r.Ok? && r.value.tok.Some? && !ToOperatorArm(chars, cur.idx) && r.value.tok.value.typ != Comment ==>
        r.value.next.col == cur.col + (r.value.next.idx - cur.idx)
  {
    var c := chars[cur.idx];
    if SingleCharKind(c).Some? || c == ':' || c == '"' {
      DispatchColumnSimple(chars, cur);
    } else if !IsOperatorChar(c) && c != '/' {
      DispatchColumnDefault(chars, cur);
    }
  }

  /** The token's advance is the number of characters its arm consumed. */
  predicate AdvanceIsConsumed(chars: seq<char>, cur: Cursor)
    requires cur.idx < |chars| && cur.col >= 1
  {
    var r := Dispatch(chars, cur);
    r.Ok? && r.value.tok.Some? ==> r.value.col + r.value.advance == cur.col + (r.value.last + 1 - cur.idx)
  }

  /** Structural tokens, colons and string literals advance by what they
      consumed. */
  lemma DispatchColumnSimple(chars: seq<char>, cur: Cursor)
    requires cur.idx < |chars| && cur.col >= 1
    requires var c := chars[cur.idx]; SingleCharKind(c).Some? || c == ':' || c == '"'
    ensures AdvanceIsConsumed(chars, cur)
  {
  }

  /** Numbers, the range operator and words advance by what they consumed. */
  lemma DispatchColumnDefault(chars: seq<char>, cur: Cursor)
    requires cur.idx < |chars| && cur.col >= 1
    requires var c := chars[cur.idx];
      SingleCharKind(c).None? && c != ':' && !IsOperatorChar(c) && c != '"' && c != '/'
    ensures AdvanceIsConsumed(chars, cur)
  {
    assert Dispatch(chars, cur) == DefaultArm(chars, cur);
  }
}
