/** Number literals: a run of digits and dots in which the first dot makes a
    Float and a second dot ends the number early. */
module NumberScan {
  import opened Types
  import opened CharClass
  import opened Cursors

  function Dots(s: seq<char>): nat {
    Occurrences(s, '.')
  }

  /** Where the number loop stopped (the index the lexer holds after the
      loop, before it steps back one), whether it saw a dot, and the
      characters it kept. */
  datatype NumberLoopEnd = NumberLoopEnd(stop: nat, isFloat: bool, digits: seq<char>)

  /** The number loop: it takes digits and dots; on a second dot it steps
      back one position, drops the character it pushed last and forgets that
      the number was a Float. */
  function NumberLoop(chars: seq<char>, idx: nat, isFloat: bool, acc: seq<char>): (r: NumberLoopEnd)
    requires 1 <= idx <= |chars|
    ensures idx - 1 <= r.stop <= |chars|
    decreases |chars| - idx
  {
    if idx < |chars| && IsNumberChar(chars[idx]) then
      if chars[idx] == '.' && isFloat then
        NumberLoopEnd(idx - 1, false, Pop(acc))
      else
        NumberLoop(chars, idx + 1, isFloat || chars[idx] == '.', acc + [chars[idx]])
    else
      NumberLoopEnd(idx, isFloat, acc)
  }

  /** Is `e` the end of the run of digits and dots that starts at `p`? */
  predicate RunEndsAt(chars: seq<char>, p: nat, e: nat) {
    && p <= e <= |chars|
    && (forall k :: p <= k < e ==> IsNumberChar(chars[k]))
    && (e == |chars| || !IsNumberChar(chars[e]))
  }

  /** One pass of the number loop that neither stops nor meets a second dot. */
  lemma NumberLoopStep(chars: seq<char>, idx: nat, isFloat: bool, acc: seq<char>)
    requires 1 <= idx < |chars| && IsNumberChar(chars[idx]) && !(chars[idx] == '.' && isFloat)
    ensures NumberLoop(chars, idx, isFloat, acc)
         == NumberLoop(chars, idx + 1, isFloat || chars[idx] == '.', acc + [chars[idx]])
  {
  }

  /** Keeping the next character of the run keeps the loop's invariant: the
      accumulator is the text read so far and the flag says whether it holds
      a dot. */
  lemma NumberLoopKeeps(chars: seq<char>, p: nat, e: nat, idx: nat, isFloat: bool, acc: seq<char>)
    requires RunEndsAt(chars, p, e) && p < idx < e
    requires acc == chars[p..idx] && Dots(acc) <= 1 && isFloat == (Dots(acc) == 1)
    requires !(chars[idx] == '.' && isFloat)
    ensures acc + [chars[idx]] == chars[p..idx + 1]
    ensures Dots(acc + [chars[idx]]) <= 1
    ensures (isFloat || chars[idx] == '.') == (Dots(acc + [chars[idx]]) == 1)
    ensures NumberLoop(chars, idx, isFloat, acc)
         == NumberLoop(chars, idx + 1, isFloat || chars[idx] == '.', acc + [chars[idx]])
  {
    assert chars[p..idx + 1] == acc + [chars[idx]];
    OccurrencesAppend(acc, [chars[idx]], '.');
    NumberLoopStep(chars, idx, isFloat, acc);
  }

  /** With at most one dot in the run from `p` to `e`, the number loop keeps
      the whole run, and it is a Float exactly when the run holds a dot. */
  lemma {:induction false} NumberLoopWholeRun(chars: seq<char>, p: nat, e: nat, idx: nat, isFloat: bool, acc: seq<char>)
    requires RunEndsAt(chars, p, e) && p < idx <= e
    requires acc == chars[p..idx] && Dots(acc) <= 1 && isFloat == (Dots(acc) == 1)
    requires Dots(chars[p..e]) <= 1
    ensures NumberLoop(chars, idx, isFloat, acc) == NumberLoopEnd(e, Dots(chars[p..e]) == 1, chars[p..e])
    decreases |chars| - idx
  {
    if idx < e {
      DotsSplit(chars, p, idx, e);
      DotsSnoc(chars, p, idx);
      NumberLoopKeeps(chars, p, e, idx, isFloat, acc);
      NumberLoopWholeRun(chars, p, e, idx + 1, isFloat || chars[idx] == '.', acc + [chars[idx]]);
    } else {
      assert NumberLoop(chars, idx, isFloat, acc) == NumberLoopEnd(idx, isFloat, acc);
    }
  }

  /** The number loop over a run from `p` to `e` stopped one position before
      a second dot: it kept the text before that position, holding one dot,
      and is not a Float. */
  predicate StoppedEarly(chars: seq<char>, p: nat, e: nat, r: NumberLoopEnd) {
    && p + 1 <= r.stop && r.stop + 1 < e <= |chars|
    && chars[r.stop + 1] == '.' && Dots(chars[p..r.stop + 1]) == 1
    && !r.isFloat && r.digits == chars[p..r.stop]
  }

  /** With two or more dots in the run from `p` to `e`, the number loop stops
      one position before the second dot. */
  lemma {:induction false} NumberLoopStopsEarly(chars: seq<char>, p: nat, e: nat, idx: nat, isFloat: bool, acc: seq<char>)
    requires RunEndsAt(chars, p, e) && p < idx <= e && IsNumeric(chars[p])
    requires acc == chars[p..idx] && Dots(acc) <= 1 && isFloat == (Dots(acc) == 1)
    requires Dots(chars[p..e]) >= 2
    ensures StoppedEarly(chars, p, e, NumberLoop(chars, idx, isFloat, acc))
    decreases |chars| - idx
  {
    if idx == e {
      assert false;
    }
    DotsSplit(chars, p, idx, e);
    if chars[idx] == '.' && isFloat {
      NumberLoopSecondDot(chars, p, idx, acc);
    } else {
      NumberLoopKeeps(chars, p, e, idx, isFloat, acc);
      NumberLoopStopsEarly(chars, p, e, idx + 1, isFloat || chars[idx] == '.', acc + [chars[idx]]);
    }
  }

  /** The number loop started right after the first digit, in both cases. */
  lemma NumberLoopOutcome(chars: seq<char>, p: nat, e: nat)
    requires RunEndsAt(chars, p, e) && p < e && IsNumeric(chars[p])
    ensures var r := NumberLoop(chars, p + 1, false, [chars[p]]);
      && (Dots(chars[p..e]) <= 1 ==> r == NumberLoopEnd(e, Dots(chars[p..e]) == 1, chars[p..e]))
      && (Dots(chars[p..e]) >= 2 ==> StoppedEarly(chars, p, e, r))
  {
    assert chars[p..p + 1] == [chars[p]];
    if Dots(chars[p..e]) <= 1 {
      NumberLoopWholeRun(chars, p, e, p + 1, false, [chars[p]]);
    } else {
      NumberLoopStopsEarly(chars, p, e, p + 1, false, [chars[p]]);
    }
  }

  /** Reading one more character adds one dot exactly when it is a dot. */
  lemma DotsSnoc(chars: seq<char>, p: nat, idx: nat)
    requires p <= idx < |chars|
    ensures Dots(chars[p..idx + 1]) == Dots(chars[p..idx]) + (if chars[idx] == '.' then 1 else 0)
  {
    assert chars[p..idx + 1] == chars[p..idx] + [chars[idx]];
    OccurrencesAppend(chars[p..idx], [chars[idx]], '.');
  }

  /** Dots on both sides of a position inside the run. */
  lemma DotsSplit(chars: seq<char>, p: nat, idx: nat, e: nat)
    requires p <= idx < e <= |chars|
    ensures Dots(chars[p..e]) == Dots(chars[p..idx + 1]) + Dots(chars[idx + 1..e])
  {
    assert chars[p..e] == chars[p..idx + 1] + chars[idx + 1..e];
    OccurrencesAppend(chars[p..idx + 1], chars[idx + 1..e], '.');
  }

  /** Meeting a second dot at `idx`: the loop stops one position back. */
  lemma NumberLoopSecondDot(chars: seq<char>, p: nat, idx: nat, acc: seq<char>)
    requires p < idx < |chars| && IsNumeric(chars[p]) && chars[idx] == '.'
    requires acc == chars[p..idx] && Dots(acc) == 1
    ensures var r := NumberLoop(chars, idx, true, acc);
      && p + 1 <= r.stop && r.stop + 1 == idx
      && Dots(chars[p..idx + 1]) == 2
      && !r.isFloat && r.digits == chars[p..r.stop]
  {
    // the dot of `acc` is not its first character, which is a digit
    assert acc == [chars[p]] + acc[1..];
    OccurrencesAppend([chars[p]], acc[1..], '.');
    assert Pop(acc) == chars[p..idx - 1];
    assert chars[p..idx + 1] == acc + ['.'];
    OccurrencesAppend(acc, ['.'], '.');
  }

  /** Scans the number whose first digit is at `p`. The token's value is the
      source text it covers, made of digits and at most one dot, and its span
      length is the value's length.
      - When the run of digits and dots starting at `p` has at most one dot,
        the token is that whole run, and it is a Float exactly when the run
        holds a dot.
      - Otherwise the token ends two positions before the run's second dot
        and is an Int, also when its value keeps the first dot; the character
        just before the second dot is scanned again. */
  function ScanNumber(chars: seq<char>, p: nat, col: nat, lines: nat): (r: Scanned)
    requires p < |chars| && IsNumeric(chars[p])
    ensures r.tok.Some? && r.col == col && r.lines == lines
    ensures var t := r.tok.value;
      && p <= r.last < |chars|
      && t.val == chars[p..r.last + 1]
      && t.span == Span(lines + 1, col, |t.val|)
      && r.advance == |t.val|
      && Dots(t.val) <= 1
    ensures var t := r.tok.value;
      var e := RunEnd(chars, p, IsNumberChar);
      && (Dots(chars[p..e]) <= 1 ==> r.last + 1 == e && t.typ == (if Dots(chars[p..e]) == 1 then Float else Int))
      && (Dots(chars[p..e]) >= 2 ==>
            && t.typ == Int && r.last + 2 < e
            && chars[r.last + 2] == '.' && Dots(chars[p..r.last + 2]) == 1)
  {
    var loop := NumberLoop(chars, p + 1, false, [chars[p]]);
    // the loop leaves the index on the first character after the number;
    // `idx -= 1` steps back onto the number's last character
    var last := loop.stop - 1;
    NumberLoopResult(chars, p, loop, last);
    var kind := if loop.isFloat then Float else Int;
    Scanned(Some(Token(kind, loop.digits, Span(lines + 1, col, |loop.digits|))), last, col, lines, |loop.digits|)
  }

  /** The number loop's result, with `last` the position it steps back to. */
  lemma NumberLoopResult(chars: seq<char>, p: nat, loop: NumberLoopEnd, last: int)
    requires p < |chars| && IsNumeric(chars[p])
    requires loop == NumberLoop(chars, p + 1, false, [chars[p]]) && last + 1 == loop.stop
    ensures p <= last < |chars| && loop.digits == chars[p..last + 1] && Dots(loop.digits) <= 1
    ensures var e := RunEnd(chars, p, IsNumberChar);
      && (Dots(chars[p..e]) <= 1 ==> last + 1 == e && loop.isFloat == (Dots(chars[p..e]) == 1))
      && (Dots(chars[p..e]) >= 2 ==>
            && !loop.isFloat && last + 2 < e
            && chars[last + 2] == '.' && Dots(chars[p..last + 2]) == 1)
  {
    var e := RunEnd(chars, p, IsNumberChar);
    NumberLoopOutcome(chars, p, e);
    if Dots(chars[p..e]) >= 2 {
      StoppedEarlyAt(chars, p, e, loop, last);
    }
  }

  /** A loop that stopped early, seen from the position it steps back to. */
  lemma StoppedEarlyAt(chars: seq<char>, p: nat, e: nat, loop: NumberLoopEnd, last: int)
    requires StoppedEarly(chars, p, e, loop) && last + 1 == loop.stop
    ensures p <= last < |chars| && loop.digits == chars[p..last + 1] && Dots(loop.digits) <= 1
    ensures !loop.isFloat && last + 2 < e && chars[last + 2] == '.' && Dots(chars[p..last + 2]) == 1
  {
    var q := loop.stop;
    assert last + 2 == q + 1;
    assert chars[p..q + 1] == chars[p..q] + [chars[q]];
    OccurrencesAppend(chars[p..q], [chars[q]], '.');
  }
}
