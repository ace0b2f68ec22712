/** The lexer's loop state, and what one arm of its dispatch leaves behind. */
module Cursors {
  import opened Types

  /** State between two iterations of the main loop: the index of the current
      character, the column counter, and the number of newlines recorded so
      far (the length of the `rows` vector; the values it stores never reach
      a token). */
  datatype Cursor = Cursor(idx: nat, col: nat, lines: nat)

  /** The result of one arm of the dispatch.
      - `tok`: the token the arm produced, if any;
      - `last`: the index of the last character the arm consumed (the loop
        then steps one past it);
      - `col`, `lines`: the column counter and newline count after the arm,
        before the loop adds the advance;
      - `advance`: the length of the loop's own span, which the loop adds to
        the column counter when a token was produced. It equals the token's
        span length except in the operator arm, where it stays 1. */
  datatype Scanned = Scanned(tok: Option<Token>, last: nat, col: nat, lines: nat, advance: nat)
}
