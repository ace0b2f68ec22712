/** Token data model of the lexer: the closed set of token kinds, the source
    span, the token record, and the outcome type that replaces the lexer's
    panics. */
module Types {

  /** The closed set of token kinds: nine structural kinds, five literal or
      comment kinds, and three operator kinds. */
  datatype TokeType =
    | OpenParen | CloseParen | OpenBracket | CloseBracket | OpenBrace | CloseBrace
    | Comma | Colon | SemiColon
    | Int | Word | Float | String | Comment
    | Operator | Assignment | ConstAssignment

  /** Source location of a token. The three counters are unsigned. */
  datatype Span = Span(line: nat, col: nat, length: nat)

  /** A token is a plain value: kind, owned text and span. */
  datatype Token = Token(typ: TokeType, val: string, span: Span)

  datatype Option<+T> = None | Some(value: T)

  /** The conditions under which the lexer aborts. */
  datatype LexError =
    | TrailingOperator      // an operator character is the last character of the input
    | LoneSlash             // a `/` is the last character of the input
    | CommentAtEnd          // `//` or `/*` is the end of the input
    | UnclosedComment       // a `/*` comment is not closed by `*/`
    | UnterminatedString    // no closing `"` for a string literal
    | UnexpectedValue(c: char) // a character no branch accepts

  /** Either the value produced or the reason the lexer aborted. */
  datatype Result<+T> = Ok(value: T) | Err(error: LexError) {

    predicate IsFailure() {
      Err?
    }

    function PropagateFailure<U>(): Result<U>
      requires Err?
    {
      Err(error)
    }

    function Extract(): T
      requires Ok?
    {
      value
    }
  }

  predicate Distinct<T(==)>(s: seq<T>) {
    forall i, j :: 0 <= i < j < |s| ==> s[i] != s[j]
  }

  predicate IsStructural(k: TokeType) {
    k in {OpenParen, CloseParen, OpenBracket, CloseBracket, OpenBrace, CloseBrace, Comma, Colon, SemiColon}
  }

  predicate IsLiteral(k: TokeType) {
    k in {Int, Word, Float, String, Comment}
  }

  predicate IsOperatorKind(k: TokeType) {
    k in {Operator, Assignment, ConstAssignment}
  }

  /** The structural kinds, each once. */
  function StructuralKinds(): (ks: seq<TokeType>)
    ensures |ks| == 9 && Distinct(ks)
    ensures forall k :: k in ks <==> IsStructural(k)
  {
    [OpenParen, CloseParen, OpenBracket, CloseBracket, OpenBrace, CloseBrace, Comma, Colon, SemiColon]
  }

  /** The literal and comment kinds, each once. */
  function LiteralKinds(): (ks: seq<TokeType>)
    ensures |ks| == 5 && Distinct(ks)
    ensures forall k :: k in ks <==> IsLiteral(k)
  {
    [Int, Word, Float, String, Comment]
  }

  /** The operator kinds, each once. */
  function OperatorKinds(): (ks: seq<TokeType>)
    ensures |ks| == 3 && Distinct(ks)
    ensures forall k :: k in ks <==> IsOperatorKind(k)
  {
    [Operator, Assignment, ConstAssignment]
  }

  /** Every kind exactly once: the enumeration is closed and has 17 members. */
  function AllKinds(): (ks: seq<TokeType>)
    ensures |ks| == 17 && Distinct(ks)
    ensures forall k: TokeType :: k in ks
  {
    var ks := StructuralKinds() + LiteralKinds() + OperatorKinds();
    assert forall k: TokeType :: k in ks by {
      forall k: TokeType ensures k in ks {
        KindGroupsPartition(k);
      }
    }
    ks
  }

  /** The three groups partition the kinds: each kind is in exactly one. */
  lemma KindGroupsPartition(k: TokeType)
    ensures IsStructural(k) || IsLiteral(k) || IsOperatorKind(k)
    ensures !(IsStructural(k) && IsLiteral(k))
    ensures !(IsStructural(k) && IsOperatorKind(k))
    ensures !(IsLiteral(k) && IsOperatorKind(k))
  {
  }

  /** Removes the last element, if any (the behaviour of `Vec::pop` whose
      result is discarded). */
  function Pop<T>(s: seq<T>): (r: seq<T>)
    ensures |s| > 0 ==> r + [s[|s| - 1]] == s
    ensures |s| == 0 ==> r == []
  {
    if |s| == 0 then [] else s[..|s| - 1]
  }
}
