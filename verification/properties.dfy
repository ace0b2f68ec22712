/** Properties of the whole token stream: what yields no tokens, the order
    tokens come in, single-token inputs, and the string literal round trip. */
module LexProperties {
  import opened Types
  import opened CharClass
  import opened Cursors
  import opened StringLiteral
  import opened NumberScan
  import opened Lexer
  import opened StepProperties

  /** One iteration of the loop from `cur`, followed by the rest. */
  lemma LexFromStep(chars: seq<char>, cur: Cursor)
    requires cur.idx < |chars| && cur.col >= 1
    requires Step(chars, cur).Ok?
    ensures var e := Step(chars, cur).value;
      LexFrom(chars, cur) == Prepend(Cons(e.tok, []), LexFrom(chars, e.next))
  {
    var e := Step(chars, cur).value;
    var r := LexFrom(chars, e.next);
    if r.Ok? {
      ConsAppend(e.tok, r.value);
    }
  }

  lemma ConsAppend(tok: Option<Token>, rest: seq<Token>)
    ensures Cons(tok, []) + rest == Cons(tok, rest)
  {
    if tok.None? {
      assert [] + rest == rest;
    }
  }

  /** One iteration from `cur` appends `tok`, if it is a token, and leaves
      the loop at `next`. */
  predicate Emits(chars: seq<char>, cur: Cursor, tok: Option<Token>, next: Cursor)
    requires cur.idx < |chars| && cur.col >= 1
  {
    var r := Step(chars, cur);
    r.Ok? && r.value.tok == tok && r.value.next == next
  }

  /** An iteration that emits `t` puts it in front of the rest. */
  lemma LexFromEmits(chars: seq<char>, cur: Cursor, t: Token, next: Cursor, ts: seq<Token>)
    requires cur.idx < |chars| && cur.col >= 1
    requires Emits(chars, cur, Some(t), next)
    requires LexFrom(chars, next) == Ok(ts)
    ensures LexFrom(chars, cur) == Ok([t] + ts)
  {
    LexFromStep(chars, cur);
  }

  /** An iteration that emits nothing leaves the rest as it is. */
  lemma LexFromSkips(chars: seq<char>, cur: Cursor, next: Cursor)
    requires cur.idx < |chars| && cur.col >= 1
    requires Emits(chars, cur, None, next)
    ensures LexFrom(chars, cur) == LexFrom(chars, next)
  {
    LexFromStep(chars, cur);
    assert Cons(None, []) == [];
    if LexFrom(chars, next).Ok? {
      assert [] + LexFrom(chars, next).value == LexFrom(chars, next).value;
    }
  }

  /** An iteration whose dispatch scanned `s`. */
  lemma StepOf(chars: seq<char>, cur: Cursor, s: Scanned)
    requires cur.idx < |chars| && cur.col >= 1
    requires Dispatch(chars, cur) == Ok(s)
    ensures Emits(chars, cur, s.tok, Cursor(s.last + 1, if s.tok.Some? then s.col + s.advance else s.col, s.lines))
  {
  }

  /** A word start goes to the word arm. */
  lemma DispatchWord(chars: seq<char>, cur: Cursor)
    requires cur.idx < |chars| && cur.col >= 1 && IsWordStart(chars[cur.idx])
    ensures Dispatch(chars, cur) == Ok(ScanWord(chars, cur.idx, cur.col, cur.lines))
  {
    assert DefaultArm(chars, cur) == Ok(ScanWord(chars, cur.idx, cur.col, cur.lines));
  }

  /** A digit goes to the number arm. */
  lemma DispatchNumber(chars: seq<char>, cur: Cursor)
    requires cur.idx < |chars| && cur.col >= 1 && IsNumeric(chars[cur.idx])
    ensures Dispatch(chars, cur) == Ok(ScanNumber(chars, cur.idx, cur.col, cur.lines))
  {
    assert DefaultArm(chars, cur) == Ok(ScanNumber(chars, cur.idx, cur.col, cur.lines));
  }

  /** A quote goes to the string arm. */
  lemma DispatchString(chars: seq<char>, cur: Cursor)
    requires cur.idx < |chars| && cur.col >= 1 && chars[cur.idx] == '"'
    ensures Dispatch(chars, cur) == ScanString(chars, cur.idx, cur.col, cur.lines)
  {
  }

  /** The input from `cur` on yields no tokens exactly when it is all
      whitespace. */
  lemma {:induction false} LexEmptyIff(chars: seq<char>, cur: Cursor)
    requires cur.idx <= |chars| && cur.col >= 1
    ensures LexFrom(chars, cur) == Ok([]) <==> forall k :: cur.idx <= k < |chars| ==> IsWhitespace(chars[k])
    decreases |chars| - cur.idx
  {
    if cur.idx < |chars| {
      StepSilent(chars, cur);
      if IsWhitespace(chars[cur.idx]) {
        var next := Step(chars, cur).value.next;
        LexEmptyIff(chars, next);
        assert LexFrom(chars, cur) == LexFrom(chars, next);
      }
    }
  }

  /** A text made only of whitespace yields no tokens, and any other text
      yields a token or an error. */
  lemma LexWhitespaceOnly(text: string)
    ensures Lex(text) == Ok([]) <==> forall k :: 0 <= k < |text| ==> IsWhitespace(text[k])
  {
    LexEmptyIff(text, Cursor(0, 1, 0));
  }

  /** The index of the first character of every token the loop from `cur`
      produces, in the order the tokens are produced. */
  function Starts(chars: seq<char>, cur: Cursor): (ps: seq<nat>)
    requires cur.idx <= |chars| && cur.col >= 1
    ensures forall i :: 0 <= i < |ps| ==> cur.idx <= ps[i] < |chars|
    ensures forall i, j :: 0 <= i < j < |ps| ==> ps[i] < ps[j]
    decreases |chars| - cur.idx
  {
    if cur.idx == |chars| then []
    else
      match Step(chars, cur)
      case Err(_) => []
      case Ok(e) =>
        var rest := Starts(chars, e.next);
        if e.tok.Some? then [cur.idx] + rest else rest
  }

  /** Tokens come in source order: the i-th token is taken from the source
      at the i-th start index, and the start indices strictly increase. */
  lemma {:induction false} SourceOrder(chars: seq<char>, cur: Cursor)
    requires cur.idx <= |chars| && cur.col >= 1
    ensures var r := LexFrom(chars, cur);
      var ps := Starts(chars, cur);
      r.Ok? ==>
        && |ps| == |r.value|
        && (forall i :: 0 <= i < |ps| ==> TextAt(chars, ps[i], r.value[i]))
    decreases |chars| - cur.idx
  {
    if cur.idx < |chars| {
      var r := LexFrom(chars, cur);
      if r.Ok? {
        var e := Step(chars, cur).value;
        SourceOrder(chars, e.next);
        var rest := LexFrom(chars, e.next).value;
        var ps' := Starts(chars, e.next);
        if e.tok.Some? {
          StepSound(chars, cur);
          PrependTextAt(chars, cur.idx, e.tok.value, rest, ps');
          assert r.value == [e.tok.value] + rest;
          assert Starts(chars, cur) == [cur.idx] + ps';
        } else {
          assert r.value == rest;
        }
      }
    }
  }

  /** Putting a token taken from `p` in front keeps every token matched
      with its start index. */
  lemma PrependTextAt(chars: seq<char>, p: nat, t: Token, ts: seq<Token>, ps: seq<nat>)
    requires TextAt(chars, p, t) && |ps| == |ts|
    requires forall i :: 0 <= i < |ps| ==> TextAt(chars, ps[i], ts[i])
    ensures |[p] + ps| == |[t] + ts|
    ensures forall i :: 0 <= i < |[p] + ps| ==> TextAt(chars, ([p] + ps)[i], ([t] + ts)[i])
  {
    forall i | 0 <= i < |[p] + ps|
      ensures TextAt(chars, ([p] + ps)[i], ([t] + ts)[i])
    {
      if i > 0 {
        assert ([p] + ps)[i] == ps[i - 1] && ([t] + ts)[i] == ts[i - 1];
      }
    }
  }

  /** The rest of the input is all whitespace after a position where the
      loop has nothing left to produce. */
  lemma LexAtEnd(chars: seq<char>, cur: Cursor)
    requires cur.idx == |chars| && cur.col >= 1
    ensures LexFrom(chars, cur) == Ok([])
  {
  }

  /** A word that runs to the end of the input is a single Word token at
      the cursor's column, on the line after the newlines recorded. */
  lemma WordToEnd(chars: seq<char>, cur: Cursor)
    requires cur.idx < |chars| && cur.col >= 1 && IsWordStart(chars[cur.idx])
    requires forall k :: cur.idx <= k < |chars| ==> IsWordChar(chars[k])
    ensures var w := chars[cur.idx..];
      LexFrom(chars, cur) == Ok([Token(Word, w, Span(cur.lines + 1, cur.col, |w|))])
  {
    WordScanToEnd(chars, cur.idx, cur.col, cur.lines);
    DispatchWord(chars, cur);
    LexFromLast(chars, cur, ScanWord(chars, cur.idx, cur.col, cur.lines));
  }

  /** The word arm on a word that runs to the end of the input. */
  lemma WordScanToEnd(chars: seq<char>, p: nat, col: nat, lines: nat)
    requires p < |chars| && IsWordStart(chars[p])
    requires forall k :: p <= k < |chars| ==> IsWordChar(chars[k])
    ensures var w := chars[p..];
      ScanWord(chars, p, col, lines) == Scanned(Some(Token(Word, w, Span(lines + 1, col, |w|))), |chars| - 1, col, lines, |w|)
  {
    RunEndUnique(chars, p, IsWordChar, |chars|);
    assert chars[p..|chars|] == chars[p..];
  }

  /** A dispatch whose token ends on the last character of the input
      yields that token and nothing more. */
  lemma LexFromLast(chars: seq<char>, cur: Cursor, s: Scanned)
    requires cur.idx < |chars| && cur.col >= 1
    requires Dispatch(chars, cur) == Ok(s) && s.tok.Some? && s.last + 1 == |chars|
    ensures LexFrom(chars, cur) == Ok([s.tok.value])
  {
    StepOf(chars, cur, s);
    var next := Cursor(s.last + 1, s.col + s.advance, s.lines);
    LexAtEnd(chars, next);
    LexFromEmits(chars, cur, s.tok.value, next, []);
    assert [s.tok.value] + [] == [s.tok.value];
  }

  /** A word on its own is a single Word token covering the whole text. */
  lemma LexWord(w: string)
    requires |w| >= 1 && IsWordStart(w[0])
    requires forall k :: 0 <= k < |w| ==> IsWordChar(w[k])
    ensures Lex(w) == Ok([Token(Word, w, Span(1, 1, |w|))])
  {
    WordToEnd(w, Cursor(0, 1, 0));
    assert w[0..] == w;
  }

  /** A number with at most one dot that runs to the end of the input is a
      single token, a Float exactly when it holds the dot. */
  lemma NumberToEnd(chars: seq<char>, cur: Cursor)
    requires cur.idx < |chars| && cur.col >= 1 && IsNumeric(chars[cur.idx])
    requires forall k :: cur.idx <= k < |chars| ==> IsNumberChar(chars[k])
    requires Dots(chars[cur.idx..]) <= 1
    ensures var n := chars[cur.idx..];
      var kind := if Dots(n) == 1 then Float else Int;
      LexFrom(chars, cur) == Ok([Token(kind, n, Span(cur.lines + 1, cur.col, |n|))])
  {
    var p := cur.idx;
    NumberScanToEnd(chars, p, cur.col, cur.lines);
    DispatchNumber(chars, cur);
    LexFromLast(chars, cur, ScanNumber(chars, p, cur.col, cur.lines));
  }

  /** The number arm on a number with at most one dot that runs to the end
      of the input. */
  lemma NumberScanToEnd(chars: seq<char>, p: nat, col: nat, lines: nat)
    requires p < |chars| && IsNumeric(chars[p])
    requires forall k :: p <= k < |chars| ==> IsNumberChar(chars[k])
    requires Dots(chars[p..]) <= 1
    ensures var n := chars[p..];
      var kind := if Dots(n) == 1 then Float else Int;
      ScanNumber(chars, p, col, lines) == Scanned(Some(Token(kind, n, Span(lines + 1, col, |n|))), |chars| - 1, col, lines, |n|)
  {
    RunEndUnique(chars, p, IsNumberChar, |chars|);
    assert chars[p..|chars|] == chars[p..];
  }

  /** A run of digits on its own is a single Int token. */
  lemma LexDigits(d: string)
    requires |d| >= 1
    requires forall k :: 0 <= k < |d| ==> IsNumeric(d[k])
    ensures Lex(d) == Ok([Token(Int, d, Span(1, 1, |d|))])
  {
    assert d[0..] == d;
    OccurrencesPositive(d, '.');
    NumberToEnd(d, Cursor(0, 1, 0));
  }

  /** Two runs of digits around one dot are a single Float token. */
  lemma LexFloat(a: string, b: string)
    requires |a| >= 1 && forall k :: 0 <= k < |a| ==> IsNumeric(a[k])
    requires forall k :: 0 <= k < |b| ==> IsNumeric(b[k])
    ensures var text := a + "." + b;
      Lex(text) == Ok([Token(Float, text, Span(1, 1, |text|))])
  {
    var text := a + "." + b;
    assert text[0..] == text;
    OccurrencesPositive(a, '.');
    OccurrencesPositive(b, '.');
    OccurrencesAppend(a, ".", '.');
    OccurrencesAppend(a + ".", b, '.');
    NumberToEnd(text, Cursor(0, 1, 0));
  }

  /** The first closing quote is determined by its properties. */
  lemma StringEndIs(chars: seq<char>, j: nat, e: nat)
    requires 1 <= j <= e < |chars|
    requires ClosesAt(chars, e) && forall k :: j <= k < e ==> !ClosesAt(chars, k)
    ensures StringEnd(chars, j) == e
  {
  }

  /** In the literal written for a value without backslashes, the closing
      quote is the first quote that closes it. */
  lemma StringLiteralEnd(s: string)
    requires '\\' !in s
    ensures var text := ['"'] + Escape(s) + ['"'];
      StringEnd(text, 1) == |text| - 1 && text[1..|text| - 1] == Escape(s)
  {
    var raw := Escape(s);
    var text := ['"'] + raw + ['"'];
    var n := |text|;
    EscapeQuotes(s);
    forall k | 1 <= k < n - 1
      ensures !ClosesAt(text, k)
    {
      assert text[k] == raw[k - 1];
      if text[k] == '"' {
        assert k - 1 > 0 && raw[k - 2] == '\\';
        assert text[k - 1] == raw[k - 2];
      }
    }
    assert ClosesAt(text, n - 1) by {
      if |raw| > 0 {
        assert text[n - 2] == raw[|raw| - 1];
      }
    }
    StringEndIs(text, 1, n - 1);
    assert text[1..n - 1] == raw;
  }

  /** What the string arm needs to know about the literal written for a
      value without backslashes: where it closes, and what its body decodes
      to. */
  lemma StringLiteralFacts(s: string, text: string)
    requires '\\' !in s && text == ['"'] + Escape(s) + ['"']
    ensures 2 <= |text| && text[0] == '"' && StringEnd(text, 1) == |text| - 1
    ensures Decode(text[1..|text| - 1]) == s && Escapes(text[1..|text| - 1]) == EscapeCount(s)
  {
    StringLiteralEnd(s);
    DecodeEscape(s);
  }

  /** The string arm on a literal that closes at its last character and
      whose body decodes to `s`. */
  lemma StringLiteralScan(s: string, text: string, sc: Scanned)
    requires 2 <= |text| && text[0] == '"' && StringEnd(text, 1) == |text| - 1
    requires Decode(text[1..|text| - 1]) == s && Escapes(text[1..|text| - 1]) == EscapeCount(s)
    requires sc == Scanned(Some(Token(String, s, Span(1, 1 + EscapeCount(s), |s| + 2))), |text| - 1, 1 + EscapeCount(s), 0, |s| + 2)
    ensures ScanString(text, 0, 1, 0) == Ok(sc)
  {
    ScanStringAt(text, 0, 1, 0, 1, |text| - 1, text[1..|text| - 1], s, 1, 1 + EscapeCount(s), sc);
  }

  /** The string arm on a literal whose closing quote is at `e`, whose raw
      body `raw` decodes to `v`, on line `line` of the report. */
  lemma ScanStringAt(chars: seq<char>, p: nat, col: nat, lines: nat, q: nat, e: nat, raw: seq<char>, v: seq<char>, line: nat, c: nat, sc: Scanned)
    requires p < |chars| && chars[p] == '"' && q == p + 1
    requires q <= |chars| && e == StringEnd(chars, q) && e < |chars| && raw == chars[q..e]
    requires v == Decode(raw) && c == col + Escapes(raw) && line == lines + 1
    requires sc == Scanned(Some(Token(String, v, Span(line, c, |v| + 2))), e, c, lines, |v| + 2)
    ensures ScanString(chars, p, col, lines) == Ok(sc)
  {
    var r := ScanString(chars, p, col, lines);
    assert r.Ok?;
    var t := r.value.tok.value;
    assert t.val == v && t.span == sc.tok.value.span;
    assert r.value.tok == sc.tok;
    assert r.value.last == e && r.value.col == c && r.value.advance == |v| + 2;
  }

  /** Writing a value without backslashes as a string literal and lexing it
      gives back the value: one String token whose span length is the value's
      length plus the quotes, reported at the column after the escapes. */
  lemma StringRoundTrip(s: string)
    requires '\\' !in s
    ensures Lex(['"'] + Escape(s) + ['"']) == Ok([Token(String, s, Span(1, 1 + EscapeCount(s), |s| + 2))])
  {
    var text := ['"'] + Escape(s) + ['"'];
    StringLiteralFacts(s, text);
    LexStringLiteral(s, text);
  }

  /** Lexing a literal that closes at its last character and whose body
      decodes to `s` gives one String token. */
  lemma LexStringLiteral(s: string, text: string)
    requires 2 <= |text| && text[0] == '"' && StringEnd(text, 1) == |text| - 1
    requires Decode(text[1..|text| - 1]) == s && Escapes(text[1..|text| - 1]) == EscapeCount(s)
    ensures Lex(text) == Ok([Token(String, s, Span(1, 1 + EscapeCount(s), |s| + 2))])
  {
    var cur := Cursor(0, 1, 0);
    var sc := Scanned(Some(Token(String, s, Span(1, 1 + EscapeCount(s), |s| + 2))), |text| - 1, 1 + EscapeCount(s), 0, |s| + 2);
    StringLiteralScan(s, text, sc);
    DispatchString(text, cur);
    assert Dispatch(text, cur) == Ok(sc);
    LexFromLast(text, cur, sc);
  }

  /** Prepends tokens already produced to the outcome of the rest. */
  function Prepend(tokens: seq<Token>, r: Result<seq<Token>>): (p: Result<seq<Token>>)
    ensures p.Ok? <==> r.Ok?
    ensures p.Ok? ==> |p.value| == |tokens| + |r.value| && p.value[..|tokens|] == tokens && p.value[|tokens|..] == r.value
  {
    match r
    case Ok(rest) => Ok(tokens + rest)
    case Err(e) => Err(e)
  }

  lemma PrependPrepend(a: seq<Token>, b: seq<Token>, r: Result<seq<Token>>)
    ensures Prepend(a, Prepend(b, r)) == Prepend(a + b, r)
  {
    if r.Ok? {
      assert a + (b + r.value) == (a + b) + r.value;
    }
  }

  /** The lexer as the loop it is written as: a mutable index, column,
      newline count and token list, stepped until the end of the input or
      the first abort. */
  method LexLoop(text: string) returns (r: Result<seq<Token>>)
    ensures r == Lex(text)
  {
    var cur := Cursor(0, 1, 0);
    var tokens: seq<Token> := [];
    while cur.idx < |text|
      invariant cur.idx <= |text| && cur.col >= 1
      invariant Lex(text) == Prepend(tokens, LexFrom(text, cur))
      decreases |text| - cur.idx
    {
      var step := Step(text, cur);
      if step.Err? {
        return Err(step.error);
      }
      var e := step.value;
      LexFromStep(text, cur);
      PrependPrepend(tokens, Cons(e.tok, []), LexFrom(text, e.next));
      tokens := tokens + Cons(e.tok, []);
      cur := e.next;
    }
    assert tokens + [] == tokens;
    return Ok(tokens);
  }
}
