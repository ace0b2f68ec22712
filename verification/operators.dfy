/** The operator macro: an operator character `op` at `idx`, looked at
    together with the character after it. */
module Operators {
  import opened Types

  /** Characters that open the operator arm directly (`/` reaches it only
      when it does not open a comment). */
  predicate IsOperatorChar(c: char) {
    c == '-' || c == '*' || c == '+' || c == '%'
  }

  /** Scans the operator at `idx` and returns its token together with the
      index of the last character it consumed. `lines` is the number of
      newlines seen so far; the macro uses it as the line number itself, one
      less than every other branch does. Every token it builds claims length
      2, also when only one character is consumed. */
  function ParseOperator(chars: seq<char>, idx: nat, lines: nat, col: nat): (r: Result<(Token, nat)>)
    requires idx < |chars|
    ensures r.Err? <==> idx + 1 == |chars|
    ensures r.Err? ==> r.error == TrailingOperator
    ensures r.Ok? ==>
      var (tok, last) := r.value;
      && (last == idx || last == idx + 1)
      && tok.val == chars[idx..last + 1]
      && tok.span == Span(lines, col, 2)
      && (tok.typ == Assignment <==> chars[idx + 1] == '=')
      && (tok.typ == Operator <==> chars[idx + 1] != '=')
      && (last == idx + 1 <==> chars[idx + 1] == '=' || chars[idx + 1] == chars[idx])
  {
    if idx + 1 < |chars| then
      var op := chars[idx];
      var next := chars[idx + 1];
      if next == '=' then
        Ok((Token(Assignment, [op, '='], Span(lines, col, 2)), idx + 1))
      else if op == next then
        Ok((Token(Operator, [op, next], Span(lines, col, 2)), idx + 1))
      else
        // the lookahead is undone and the operator stands alone
        Ok((Token(Operator, [op], Span(lines, col, 2)), idx))
    else
      // `chars[idx]` after `idx += 1` is out of bounds
      Err(TrailingOperator)
  }
}
