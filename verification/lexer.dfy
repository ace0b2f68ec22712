/** The lexer's main loop: the dispatch on the current character, one
    iteration of the loop, and the whole token stream. */
module Lexer {
  import opened Types
  import opened CharClass
  import opened Cursors
  import opened Operators
  import opened StringLiteral
  import opened CommentScan
  import opened NumberScan

  /** The kinds whose token is the one character that selects them. */
  function SingleCharKind(c: char): (r: Option<TokeType>)
    ensures r.Some? ==> r.value == Assignment || (IsStructural(r.value) && r.value != Colon)
    ensures r.Some? && r.value != Assignment ==> Symbol(r.value) == c
    ensures r == Some(Assignment) <==> c == '='
  {
    match c
    case ';' => Some(SemiColon)
    case '(' => Some(OpenParen)
    case '=' => Some(Assignment)
    case ')' => Some(CloseParen)
    case '[' => Some(OpenBracket)
    case ']' => Some(CloseBracket)
    case '{' => Some(OpenBrace)
    case '}' => Some(CloseBrace)
    case ',' => Some(Comma)
    case _ => None
  }

  /** The character every structural token consists of. */
  function Symbol(k: TokeType): char
    requires IsStructural(k)
  {
    match k
    case OpenParen => '('
    case CloseParen => ')'
    case OpenBracket => '['
    case CloseBracket => ']'
    case OpenBrace => '{'
    case CloseBrace => '}'
    case Comma => ','
    case Colon => ':'
    case SemiColon => ';'
  }

  /** Looking a kind up from its character and writing the kind's character
      back are inverse to each other. */
  lemma SingleCharKindSymbol(c: char, k: TokeType)
    ensures SingleCharKind(c) == Some(k) && k != Assignment ==> Symbol(k) == c
    ensures IsStructural(k) && k != Colon ==> SingleCharKind(Symbol(k)) == Some(k)
  {
  }

  /** The value the range operator's token carries in place of `..`. */
  const RangeName: string := "Range"

  /** What every token the lexer produces looks like, by kind.
      - string literals and comments claim their value plus two delimiters;
      - operators claim two columns, whether they are the range `..`, a
        doubled operator or an operator standing alone;
      - every other token claims exactly its value, which is not empty;
      - a structural token is its own character, a number is digits and at
        most one dot, and a word is a word start followed by word characters. */
  predicate WellFormed(t: Token) {
    && (t.typ == String || t.typ == Comment ==> t.span.length == |t.val| + 2)
    && (t.typ == Operator ==> t.span.length == 2 && (t.val == RangeName || 1 <= |t.val| <= 2))
    && (t.typ != String && t.typ != Comment && t.typ != Operator ==> 1 <= |t.val| == t.span.length)
    && (IsStructural(t.typ) ==> t.val == [Symbol(t.typ)])
    && (t.typ == Int || t.typ == Float ==>
          && |t.val| >= 1 && IsNumeric(t.val[0])
          && (forall k :: 0 <= k < |t.val| ==> IsNumberChar(t.val[k]))
          && (t.typ == Float ==> Dots(t.val) == 1)
          && Dots(t.val) <= 1)
    && (t.typ == Word ==>
          && |t.val| >= 1 && IsWordStart(t.val[0])
          && (forall k :: 0 <= k < |t.val| ==> IsWordChar(t.val[k])))
  }

  /** Where the token's text comes from, given the index `p` of its first
      character: a string literal's value is the decoded body up to its
      closing quote, a comment's value is the source text after its two
      opening characters, the range operator stands for `..`, and every
      other token's value is the source text at `p` itself. */
  predicate TextAt(chars: seq<char>, p: nat, t: Token) {
    if t.typ == String then
      p + 1 <= |chars| && t.val == Decode(chars[p + 1..StringEnd(chars, p + 1)])
    else if t.typ == Comment then
      p + 2 + |t.val| <= |chars| && t.val == chars[p + 2..p + 2 + |t.val|]
    else if t.typ == Operator && t.val == RangeName then
      p + 2 <= |chars| && chars[p..p + 2] == ".."
    else
      p + |t.val| <= |chars| && t.val == chars[p..p + |t.val|]
  }

  /** The colon arm: `::` and `:=` are two-character tokens, any other colon
      stands alone. */
  function ScanColon(chars: seq<char>, p: nat, col: nat, lines: nat): (r: Scanned)
    requires p < |chars| && chars[p] == ':'
    ensures r.tok.Some? && r.col == col && r.lines == lines
    ensures var t := r.tok.value;
      && (r.last == p + 1 <==> p + 1 < |chars| && (chars[p + 1] == ':' || chars[p + 1] == '='))
      && (r.last == p || r.last == p + 1)
      && t.val == chars[p..r.last + 1]
      && t.span == Span(lines + 1, col, |t.val|)
      && r.advance == |t.val|
      && t.typ == (if t.val == "::" then ConstAssignment else if t.val == ":=" then Assignment else Colon)
  {
    if p + 1 < |chars| && (chars[p + 1] == '=' || chars[p + 1] == ':') then
      var next := chars[p + 1];
      var kind := if next == ':' then ConstAssignment else Assignment;
      Scanned(Some(Token(kind, [':', next], Span(lines + 1, col, 2))), p + 1, col, lines, 2)
    else
      Scanned(Some(Token(Colon, [':'], Span(lines + 1, col, 1))), p, col, lines, 1)
  }

  /** Where the word loop stopped and the characters it collected. */
  datatype WordLoopEnd = WordLoopEnd(stop: nat, word: seq<char>)

  /** The word loop: it collects word characters until the first other
      character or the end of the input. */
  function WordLoop(chars: seq<char>, idx: nat, acc: seq<char>): (r: WordLoopEnd)
    requires idx <= |chars|
    ensures r.stop == RunEnd(chars, idx, IsWordChar)
    ensures r.word == acc + chars[idx..r.stop]
    decreases |chars| - idx
  {
    if idx < |chars| && IsWordChar(chars[idx]) then
      var r := WordLoop(chars, idx + 1, acc + [chars[idx]]);
      assert chars[idx..r.stop] == [chars[idx]] + chars[idx + 1..r.stop];
      r
    else
      WordLoopEnd(idx, acc)
  }

  /** The word arm: the token is the maximal run of word characters that
      starts at `p`. */
  function ScanWord(chars: seq<char>, p: nat, col: nat, lines: nat): (r: Scanned)
    requires p < |chars| && IsWordStart(chars[p])
    ensures var e := RunEnd(chars, p, IsWordChar);
      && p < e
      && r == Scanned(Some(Token(Word, chars[p..e], Span(lines + 1, col, e - p))), e - 1, col, lines, e - p)
  {
    var w := WordLoop(chars, p, []);
    assert w.word == chars[p..w.stop];
    // the loop leaves the index on the first character after the word
    Scanned(Some(Token(Word, w.word, Span(lines + 1, col, |w.word|))), w.stop - 1, col, lines, |w.word|)
  }

  /** Does the character at `idx` go to the operator macro? The four
      operator characters do, and so does a `/` that opens no comment. */
  predicate ToOperatorArm(chars: seq<char>, idx: nat)
    requires idx < |chars|
  {
    IsOperatorChar(chars[idx])
    || (chars[idx] == '/' && idx + 1 < |chars| && chars[idx + 1] != '/' && chars[idx + 1] != '*')
  }

  /** Does the character at `idx` open a comment? */
  predicate OpensComment(chars: seq<char>, idx: nat)
    requires idx < |chars|
  {
    chars[idx] == '/' && idx + 1 < |chars| && (chars[idx + 1] == '/' || chars[idx + 1] == '*')
  }

  /** Does the character at `idx` open the range operator `..`? */
  predicate OpensRange(chars: seq<char>, idx: nat)
    requires idx < |chars|
  {
    idx + 1 < |chars| && chars[idx] == '.' && chars[idx + 1] == '.'
  }

  /** Is there a branch of the dispatch that accepts the character at `idx`? */
  predicate Recognised(chars: seq<char>, idx: nat)
    requires idx < |chars|
  {
    var c := chars[idx];
    || SingleCharKind(c).Some? || c == ':' || IsOperatorChar(c) || c == '"' || c == '/'
    || IsNumeric(c) || OpensRange(chars, idx) || IsWhitespace(c) || IsWordStart(c)
  }

  /** The operator arm: the macro's token, and the loop's own span length of
      one as the advance. */
  function OperatorArm(chars: seq<char>, idx: nat, col: nat, lines: nat): (r: Result<Scanned>)
    requires idx < |chars|
    ensures r.Err? <==> idx + 1 == |chars|
    ensures r.Ok? ==> r.value.tok.Some? && r.value.col == col && r.value.lines == lines && r.value.advance == 1
  {
    var (tok, last) :- ParseOperator(chars, idx, lines, col);
    Ok(Scanned(Some(tok), last, col, lines, 1))
  }

  /** The `/` arm: a comment when the next character is `/` or `*`, the
      operator macro when there is another next character, and an error at
      the end of the input. */
  function SlashArm(chars: seq<char>, idx: nat, col: nat, lines: nat): (r: Result<Scanned>)
    requires idx < |chars| && chars[idx] == '/' && col >= 1
    ensures r.Err? <==> idx + 1 == |chars| || (OpensComment(chars, idx) && ScanComment(chars, idx, col, lines).Err?)
    ensures idx + 1 == |chars| ==> r == Err(LoneSlash)
    ensures r.Ok? ==> idx <= r.value.last < |chars| && r.value.tok.Some? && r.value.col + r.value.advance >= 1
  {
    if idx + 1 < |chars| then
      if chars[idx + 1] == '*' || chars[idx + 1] == '/' then
        CommentExtent(chars, idx, col, lines);
        ScanComment(chars, idx, col, lines)
      else
        OperatorArm(chars, idx, col, lines)
    else
      // `chars.get(idx + 1)` finds nothing and the arm is declared unreachable
      Err(LoneSlash)
  }

  /** The catch-all arm: numbers, the range operator, whitespace, words, and
      an error for every character none of them accepts. */
  function DefaultArm(chars: seq<char>, cur: Cursor): (r: Result<Scanned>)
    requires cur.idx < |chars| && cur.col >= 1
    ensures r.Err? <==> !(IsNumeric(chars[cur.idx]) || OpensRange(chars, cur.idx) || IsWhitespace(chars[cur.idx]) || IsWordStart(chars[cur.idx]))
    ensures r.Err? ==> r.error == UnexpectedValue(chars[cur.idx])
    ensures r.Ok? ==> cur.idx <= r.value.last < |chars|
    ensures r.Ok? && r.value.tok.None? ==> r.value.col >= 1
    ensures r.Ok? && r.value.tok.Some? ==> r.value.col + r.value.advance >= 1
  {
    var Cursor(idx, col, lines) := cur;
    var c := chars[idx];
    if IsNumeric(c) then
      Ok(ScanNumber(chars, idx, col, lines))
    else if OpensRange(chars, idx) then
      Ok(Scanned(Some(Token(Operator, RangeName, Span(lines + 1, col, 2))), idx + 1, col, lines, 2))
    else if IsWhitespace(c) then
      Ok(Scanned(None, idx, ColStep(col, c), if c == '\n' then lines + 1 else lines, 0))
    else if IsWordStart(c) then
      Ok(ScanWord(chars, idx, col, lines))
    else
      Err(UnexpectedValue(c))
  }

  /** One pass through the dispatch on the character at `cur.idx`: the
      arm it takes consumes the characters from `cur.idx` to `last`. */
  function Dispatch(chars: seq<char>, cur: Cursor): (r: Result<Scanned>)
    requires cur.idx < |chars| && cur.col >= 1
    ensures r.Ok? ==> cur.idx <= r.value.last < |chars|
    ensures r.Ok? && r.value.tok.None? ==> r.value.col >= 1
    ensures r.Ok? && r.value.tok.Some? ==> r.value.col + r.value.advance >= 1
  {
    var Cursor(idx, col, lines) := cur;
    var c := chars[idx];
    if SingleCharKind(c).Some? then
      Ok(Scanned(Some(Token(SingleCharKind(c).value, [c], Span(lines + 1, col, 1))), idx, col, lines, 1))
    else if c == ':' then
      Ok(ScanColon(chars, idx, col, lines))
    else if IsOperatorChar(c) then
      OperatorArm(chars, idx, col, lines)
    else if c == '"' then
      ScanString(chars, idx, col, lines)
    else if c == '/' then
      SlashArm(chars, idx, col, lines)
    else
      DefaultArm(chars, cur)
  }

  /** What one iteration of the loop leaves: the token it appends, if any,
      and the state for the next iteration. */
  datatype Emitted = Emitted(tok: Option<Token>, next: Cursor)

  /** One iteration of the loop: the dispatch, the step past the last
      character consumed, and the column advance for a token. */
  function Step(chars: seq<char>, cur: Cursor): (r: Result<Emitted>)
    requires cur.idx < |chars| && cur.col >= 1
    ensures r.Ok? ==> cur.idx < r.value.next.idx <= |chars| && r.value.next.col >= 1
  {
    var s :- Dispatch(chars, cur);
    var col := if s.tok.Some? then s.col + s.advance else s.col;
    Ok(Emitted(s.tok, Cursor(s.last + 1, col, s.lines)))
  }

  /** The operator macro's tokens are well formed and are the source text
      they cover. */
  lemma OperatorArmSound(chars: seq<char>, idx: nat, col: nat, lines: nat)
    requires idx < |chars|
    ensures var r := OperatorArm(chars, idx, col, lines);
      r.Ok? ==> WellFormed(r.value.tok.value) && TextAt(chars, idx, r.value.tok.value)
  {
  }

  /** The `/` arm's tokens are well formed and taken from the source. */
  lemma SlashArmSound(chars: seq<char>, idx: nat, col: nat, lines: nat)
    requires idx < |chars| && chars[idx] == '/' && col >= 1
    ensures var r := SlashArm(chars, idx, col, lines);
      r.Ok? ==> WellFormed(r.value.tok.value) && TextAt(chars, idx, r.value.tok.value)
  {
    if OpensComment(chars, idx) {
      CommentWellFormed(chars, idx, col, lines);
      assert SlashArm(chars, idx, col, lines) == ScanComment(chars, idx, col, lines);
    } else if idx + 1 < |chars| {
      OperatorArmSound(chars, idx, col, lines);
      assert SlashArm(chars, idx, col, lines) == OperatorArm(chars, idx, col, lines);
    }
  }

  /** The catch-all arm's tokens are well formed and taken from the source. */
  lemma DefaultArmSound(chars: seq<char>, cur: Cursor)
    requires cur.idx < |chars| && cur.col >= 1
    ensures var r := DefaultArm(chars, cur);
      r.Ok? && r.value.tok.Some? ==> WellFormed(r.value.tok.value) && TextAt(chars, cur.idx, r.value.tok.value)
  {
    var c := chars[cur.idx];
    if IsNumeric(c) {
      NumberWellFormed(chars, cur.idx, cur.col, cur.lines);
    } else if !OpensRange(chars, cur.idx) && !IsWhitespace(c) && IsWordStart(c) {
      WordWellFormed(chars, cur.idx, cur.col, cur.lines);
    }
  }

  /** A token the dispatch produces is well formed and taken from the source
      at `cur.idx`. */
  lemma DispatchSound(chars: seq<char>, cur: Cursor)
    requires cur.idx < |chars| && cur.col >= 1
    ensures var r := Dispatch(chars, cur);
      r.Ok? && r.value.tok.Some? ==> WellFormed(r.value.tok.value) && TextAt(chars, cur.idx, r.value.tok.value)
  {
    var c := chars[cur.idx];
    if SingleCharKind(c).Some? {
      SingleCharKindSymbol(c, SingleCharKind(c).value);
    } else if c == ':' {
    } else if IsOperatorChar(c) {
      OperatorArmSound(chars, cur.idx, cur.col, cur.lines);
    } else if c == '"' {
      StringTextAt(chars, cur.idx, cur.col, cur.lines);
    } else if c == '/' {
      SlashArmSound(chars, cur.idx, cur.col, cur.lines);
    } else {
      DefaultArmSound(chars, cur);
    }
  }

  /** A token one iteration appends is well formed and taken from the source
      at `cur.idx`. */
  lemma StepSound(chars: seq<char>, cur: Cursor)
    requires cur.idx < |chars| && cur.col >= 1
    ensures var r := Step(chars, cur);
      r.Ok? && r.value.tok.Some? ==> WellFormed(r.value.tok.value) && TextAt(chars, cur.idx, r.value.tok.value)
  {
    DispatchSound(chars, cur);
  }

  /** Prepends the token of one iteration, if it has one. */
  function Cons(tok: Option<Token>, tokens: seq<Token>): (r: seq<Token>)
    ensures |r| == |tokens| + (if tok.Some? then 1 else 0)
    ensures forall t :: t in r <==> t in tokens || tok == Some(t)
  {
    match tok
    case Some(t) => [t] + tokens
    case None => tokens
  }

  /** The loop from state `cur` to the end of the input. There are no
      more tokens than characters left to read. */
  function LexFrom(chars: seq<char>, cur: Cursor): (r: Result<seq<Token>>)
    requires cur.idx <= |chars| && cur.col >= 1
    ensures r.Ok? ==> |r.value| <= |chars| - cur.idx
    decreases |chars| - cur.idx
  {
    if cur.idx == |chars| then
      Ok([])
    else
      var e :- Step(chars, cur);
      var rest :- LexFrom(chars, e.next);
      Ok(Cons(e.tok, rest))
  }

  /** The lexer: the loop from the first character, in column 1 with no
      newline seen. */
  function Lex(text: string): (r: Result<seq<Token>>)
    ensures r.Ok? ==> |r.value| <= |text|
  {
    LexFrom(text, Cursor(0, 1, 0))
  }

  /** Every token the loop from `cur` yields is well formed. */
  lemma {:induction false} LexFromWellFormed(chars: seq<char>, cur: Cursor)
    requires cur.idx <= |chars| && cur.col >= 1
    ensures var r := LexFrom(chars, cur);
      r.Ok? ==> forall t :: t in r.value ==> WellFormed(t)
    decreases |chars| - cur.idx
  {
    if cur.idx < |chars| && LexFrom(chars, cur).Ok? {
      var e := Step(chars, cur).value;
      StepSound(chars, cur);
      LexFromWellFormed(chars, e.next);
    }
  }

  /** Every token the lexer yields is well formed. */
  lemma LexWellFormed(text: string)
    ensures var r := Lex(text);
      r.Ok? ==> forall t :: t in r.value ==> WellFormed(t)
  {
    LexFromWellFormed(text, Cursor(0, 1, 0));
  }

  /** Word tokens are a word start followed by word characters. */
  lemma WordWellFormed(chars: seq<char>, idx: nat, col: nat, lines: nat)
    requires idx < |chars| && IsWordStart(chars[idx])
    ensures var r := ScanWord(chars, idx, col, lines);
      r.tok.Some? && WellFormed(r.tok.value) && TextAt(chars, idx, r.tok.value)
  {
    var e := RunEnd(chars, idx, IsWordChar);
    var t := ScanWord(chars, idx, col, lines).tok.value;
    assert t.val == chars[idx..e];
    forall k | 0 <= k < |t.val|
      ensures IsWordChar(t.val[k])
    {
      assert t.val[k] == chars[idx + k];
    }
  }

  /** A string literal's token is the decoded body up to its closing quote. */
  lemma StringTextAt(chars: seq<char>, idx: nat, col: nat, lines: nat)
    requires idx < |chars| && chars[idx] == '"'
    ensures var r := ScanString(chars, idx, col, lines);
      r.Ok? ==> r.value.tok.Some? && WellFormed(r.value.tok.value) && TextAt(chars, idx, r.value.tok.value)
  {
  }

  /** A comment ends inside the input and always yields a token. */
  lemma CommentExtent(chars: seq<char>, idx: nat, col: nat, lines: nat)
    requires idx < |chars| && OpensComment(chars, idx) && col >= 1
    ensures var r := ScanComment(chars, idx, col, lines);
      r.Ok? ==> idx <= r.value.last < |chars| && r.value.tok.Some? && r.value.col + r.value.advance >= 1
  {
    if idx + 2 < |chars| {
      if chars[idx + 1] == '*' {
        ScanBlockComment(chars, idx, col, lines);
      } else {
        ScanLineComment(chars, idx, col, lines);
      }
    }
  }

  /** Comment tokens claim their body plus the two delimiters. */
  lemma CommentWellFormed(chars: seq<char>, idx: nat, col: nat, lines: nat)
    requires idx < |chars| && OpensComment(chars, idx) && col >= 1
    ensures var r := ScanComment(chars, idx, col, lines);
      r.Ok? ==> r.value.tok.Some? && WellFormed(r.value.tok.value) && TextAt(chars, idx, r.value.tok.value)
  {
    if idx + 2 < |chars| {
      if chars[idx + 1] == '*' {
        ScanBlockComment(chars, idx, col, lines);
        BlockCommentWellFormed(chars, idx, col, lines);
      } else {
        ScanLineComment(chars, idx, col, lines);
        LineCommentWellFormed(chars, idx, col, lines);
      }
    }
  }

  lemma LineCommentWellFormed(chars: seq<char>, p: nat, col: nat, lines: nat)
    requires p + 2 < |chars|
    ensures var r := LineComment(chars, p + 2, col, lines);
      r.tok.Some? && WellFormed(r.tok.value) && TextAt(chars, p, r.tok.value)
  {
  }

  lemma BlockCommentWellFormed(chars: seq<char>, p: nat, col: nat, lines: nat)
    requires p + 2 < |chars| && col >= 1
    ensures var r := BlockCommentSpec(chars, p + 2, col, lines);
      r.Ok? ==> r.value.tok.Some? && WellFormed(r.value.tok.value) && TextAt(chars, p, r.value.tok.value)
  {
  }

  /** Number tokens are digits and at most one dot, starting with a digit. */
  lemma NumberWellFormed(chars: seq<char>, idx: nat, col: nat, lines: nat)
    requires idx < |chars| && IsNumeric(chars[idx])
    ensures var r := ScanNumber(chars, idx, col, lines);
      r.tok.Some? && WellFormed(r.tok.value) && TextAt(chars, idx, r.tok.value)
  {
    var r := ScanNumber(chars, idx, col, lines);
    var e := RunEnd(chars, idx, IsNumberChar);
    assert r.last < e;
    var t := r.tok.value;
    assert t.val == chars[idx..r.last + 1];
    assert t.val[0] == chars[idx];
    forall k | 0 <= k < |t.val|
      ensures IsNumberChar(t.val[k])
    {
      assert t.val[k] == chars[idx + k];
    }
  }
}
