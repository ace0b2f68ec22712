/** String literals: where a literal ends, how its escapes decode, and how
    far the column counter moves over it. */
module StringLiteral {
  import opened Types
  import opened Cursors

  /** The characters a backslash escapes into something else. */
  predicate IsEscapeTarget(c: char) {
    c == 'n' || c == 't' || c == 'r' || c == '"'
  }

  function EscapeValue(c: char): char
    requires IsEscapeTarget(c)
  {
    match c
    case 'n' => '\n'
    case 't' => '\t'
    case 'r' => '\r'
    case _ => '"'
  }

  /** Does the raw text start with a recognised escape (a backslash followed
      by an escape target)? */
  predicate StartsWithEscape(raw: seq<char>) {
    |raw| >= 2 && raw[0] == '\\' && IsEscapeTarget(raw[1])
  }

  /** Number of recognised escapes in a raw body, read left to right. */
  function Escapes(raw: seq<char>): (n: nat)
    decreases |raw|
  {
    if |raw| == 0 then 0
    else if StartsWithEscape(raw) then 1 + Escapes(raw[2..])
    else Escapes(raw[1..])
  }

  /** The decoded value of a raw string body, read left to right in units:
      a recognised escape is one unit and decodes to its value; every other
      character, a backslash before anything else included, is a unit of its
      own and is kept. Each escape shortens the text by one. */
  function Decode(raw: seq<char>): (r: seq<char>)
    ensures |r| + Escapes(raw) == |raw|
    ensures |raw| > 0 ==> |r| > 0
    decreases |raw|
  {
    if |raw| == 0 then []
    else if StartsWithEscape(raw) then [EscapeValue(raw[1])] + Decode(raw[2..])
    else [raw[0]] + Decode(raw[1..])
  }

  /** Does appending `c` to `raw` complete an escape begun by a trailing
      backslash? */
  predicate Completes(raw: seq<char>, c: char) {
    |raw| > 0 && raw[|raw| - 1] == '\\' && IsEscapeTarget(c)
  }

  lemma PopCons(x: char, xs: seq<char>)
    requires |xs| > 0
    ensures Pop([x] + xs) == [x] + Pop(xs)
  {
  }

  /** Decoding read from the right end: appending one raw character either
      completes an escape begun by a trailing backslash, replacing that
      backslash, or adds the character itself. This is the order in which the
      lexer's loop works. */
  lemma {:induction false} DecodeSnoc(raw: seq<char>, c: char)
    ensures Decode(raw + [c]) == (if Completes(raw, c) then Pop(Decode(raw)) + [EscapeValue(c)] else Decode(raw) + [c])
    decreases |raw|, 1
  {
    if |raw| <= 1 {
      DecodeSnocShort(raw, c);
    } else if StartsWithEscape(raw) {
      DecodeSnocAfterEscape(raw, c);
    } else {
      DecodeSnocAfterPlain(raw, c);
    }
  }

  lemma DecodeSnocShort(raw: seq<char>, c: char)
    requires |raw| <= 1
    ensures Decode(raw + [c]) == (if Completes(raw, c) then Pop(Decode(raw)) + [EscapeValue(c)] else Decode(raw) + [c])
  {
    if |raw| == 0 {
      assert raw + [c] == [c];
      DecodeSingle(c);
    } else {
      DecodeSingle(raw[0]);
      assert raw == [raw[0]];
      DecodePair(raw[0], c);
    }
  }

  /** A single character decodes to itself. */
  lemma DecodeSingle(c: char)
    ensures Decode([c]) == [c]
  {
    assert Decode([c]) == [c] + Decode([c][1..]);
  }

  /** Two characters are one escape or two plain characters. */
  lemma DecodePair(a: char, c: char)
    ensures Decode([a, c]) == (if a == '\\' && IsEscapeTarget(c) then [EscapeValue(c)] else [a, c])
  {
    var t := [a, c];
    if StartsWithEscape(t) {
      assert t[2..] == [];
    } else {
      assert t[1..] == [c];
      DecodeSingle(c);
    }
  }

  lemma {:induction false} DecodeSnocAfterEscape(raw: seq<char>, c: char)
    requires |raw| >= 2 && StartsWithEscape(raw)
    ensures Decode(raw + [c]) == (if Completes(raw, c) then Pop(Decode(raw)) + [EscapeValue(c)] else Decode(raw) + [c])
    decreases |raw|, 0
  {
    var t := raw + [c];
    var rest := raw[2..];
    assert StartsWithEscape(t);
    assert t[2..] == rest + [c];
    assert Decode(t) == [EscapeValue(raw[1])] + Decode(rest + [c]);
    assert Decode(raw) == [EscapeValue(raw[1])] + Decode(rest);
    DecodeSnoc(rest, c);
    if |rest| == 0 {
      assert !Completes(raw, c);
    } else {
      assert rest[|rest| - 1] == raw[|raw| - 1];
      assert Completes(raw, c) == Completes(rest, c);
      if Completes(rest, c) {
        PopCons(EscapeValue(raw[1]), Decode(rest));
      }
    }
  }

  lemma {:induction false} DecodeSnocAfterPlain(raw: seq<char>, c: char)
    requires |raw| >= 2 && !StartsWithEscape(raw)
    ensures Decode(raw + [c]) == (if Completes(raw, c) then Pop(Decode(raw)) + [EscapeValue(c)] else Decode(raw) + [c])
    decreases |raw|, 0
  {
    var t := raw + [c];
    var rest := raw[1..];
    assert Decode(t) == [raw[0]] + Decode(rest + [c]) by {
      assert !StartsWithEscape(t);
      assert t[1..] == rest + [c];
    }
    assert Decode(raw) == [raw[0]] + Decode(rest);
    assert Completes(raw, c) == Completes(rest, c) by {
      assert rest[|rest| - 1] == raw[|raw| - 1];
    }
    DecodeSnoc(rest, c);
    if Completes(rest, c) {
      calc {
        Decode(t);
        [raw[0]] + (Pop(Decode(rest)) + [EscapeValue(c)]);
        { PopCons(raw[0], Decode(rest)); }
        Pop(Decode(raw)) + [EscapeValue(c)];
      }
    } else {
      calc {
        Decode(t);
        [raw[0]] + (Decode(rest) + [c]);
        Decode(raw) + [c];
      }
    }
  }

  /** The escape count read from the right end. */
  lemma {:induction false} EscapesSnoc(raw: seq<char>, c: char)
    ensures Escapes(raw + [c]) == Escapes(raw) + (if Completes(raw, c) then 1 else 0)
    decreases |raw|
  {
    var t := raw + [c];
    if |raw| == 0 {
      assert t == [c];
      assert Escapes(t) == Escapes(t[1..]);
    } else if |raw| == 1 {
      assert t[1..] == [c];
      if StartsWithEscape(t) {
        assert t[2..] == [];
      } else {
        assert Escapes(t) == Escapes([c]);
        assert Escapes([c]) == Escapes([c][1..]);
      }
      assert Escapes(raw) == Escapes(raw[1..]);
    } else if StartsWithEscape(raw) {
      var rest := raw[2..];
      assert StartsWithEscape(t);
      assert t[2..] == rest + [c];
      EscapesSnoc(rest, c);
      if |rest| > 0 {
        assert rest[|rest| - 1] == raw[|raw| - 1];
      }
    } else {
      var rest := raw[1..];
      assert !StartsWithEscape(t);
      assert t[1..] == rest + [c];
      EscapesSnoc(rest, c);
      assert rest[|rest| - 1] == raw[|raw| - 1];
    }
  }

  /** A `"` at `j` closes the literal when the raw character before it is not
      a backslash. */
  predicate ClosesAt(chars: seq<char>, j: nat)
    requires 1 <= j < |chars|
  {
    chars[j] == '"' && chars[j - 1] != '\\'
  }

  /** The first closing quote at or after `j`, or the end of the input when
      there is none. */
  function StringEnd(chars: seq<char>, j: nat): (e: nat)
    requires 1 <= j <= |chars|
    ensures j <= e <= |chars|
    ensures e < |chars| ==> ClosesAt(chars, e)
    ensures forall k :: j <= k < e ==> !ClosesAt(chars, k)
    decreases |chars| - j
  {
    if j == |chars| || ClosesAt(chars, j) then j else StringEnd(chars, j + 1)
  }

  /** Where the string loop stopped, what it accumulated, and the column
      counter it leaves. */
  datatype StringScan = StringScan(stop: nat, decoded: seq<char>, col: nat)

  /** The string loop. `prev` is the previously read character; an escape
      replaces the backslash already pushed and moves the column counter one
      to the right. */
  function StringLoop(chars: seq<char>, idx: nat, prev: char, acc: seq<char>, col: nat): (r: StringScan)
    requires idx <= |chars|
    ensures idx <= r.stop <= |chars|
    ensures r.stop < |chars| ==> chars[r.stop] == '"'
    ensures r.col >= col
    decreases |chars| - idx
  {
    if idx < |chars| && !(chars[idx] == '"' && prev != '\\') then
      var c := chars[idx];
      if prev == '\\' && IsEscapeTarget(c) then
        StringLoop(chars, idx + 1, c, Pop(acc) + [EscapeValue(c)], col + 1)
      else
        StringLoop(chars, idx + 1, c, acc + [c], col)
    else
      StringScan(idx, acc, col)
  }

  /** One iteration of the string loop inside the literal extends the raw
      text by one character. */
  lemma StringLoopStep(chars: seq<char>, s: nat, idx: nat, prev: char, acc: seq<char>, col: nat, col0: nat, acc': seq<char>, col': nat)
    requires 1 <= s <= idx < |chars| && prev == chars[idx - 1]
    requires chars[s - 1] != '\\'
    requires !ClosesAt(chars, idx)
    requires acc == Decode(chars[s..idx]) && col == col0 + Escapes(chars[s..idx])
    requires acc' == Decode(chars[s..idx + 1]) && col' == col0 + Escapes(chars[s..idx + 1])
    ensures StringLoop(chars, idx, prev, acc, col) == StringLoop(chars, idx + 1, chars[idx], acc', col')
  {
    var c := chars[idx];
    var raw := chars[s..idx];
    assert raw + [c] == chars[s..idx + 1];
    CompletesAt(chars, s, idx);
    if Completes(raw, c) {
      assert Pop(acc) + [EscapeValue(c)] == acc' && col + 1 == col' by {
        DecodeSnoc(raw, c);
        EscapesSnoc(raw, c);
      }
      StringLoopEscape(chars, idx, acc, col);
    } else {
      assert acc + [c] == acc' && col == col' by {
        DecodeSnoc(raw, c);
        EscapesSnoc(raw, c);
      }
      StringLoopPlain(chars, idx, acc, col);
    }
  }

  /** An escape replaces the backslash pushed last by its value and moves
      the column counter one to the right. */
  lemma StringLoopEscape(chars: seq<char>, idx: nat, acc: seq<char>, col: nat)
    requires 1 <= idx < |chars| && !ClosesAt(chars, idx)
    requires chars[idx - 1] == '\\' && IsEscapeTarget(chars[idx])
    ensures StringLoop(chars, idx, chars[idx - 1], acc, col)
         == StringLoop(chars, idx + 1, chars[idx], Pop(acc) + [EscapeValue(chars[idx])], col + 1)
  {
  }

  /** Any other character inside the literal is kept as it is. */
  lemma StringLoopPlain(chars: seq<char>, idx: nat, acc: seq<char>, col: nat)
    requires 1 <= idx < |chars| && !ClosesAt(chars, idx)
    requires !(chars[idx - 1] == '\\' && IsEscapeTarget(chars[idx]))
    ensures StringLoop(chars, idx, chars[idx - 1], acc, col) == StringLoop(chars, idx + 1, chars[idx], acc + [chars[idx]], col)
  {
  }

  /** Inside the literal, the character before `idx` ends the raw text read
      so far, or is the opening character, which is not a backslash. */
  lemma CompletesAt(chars: seq<char>, s: nat, idx: nat)
    requires 1 <= s <= idx < |chars| && chars[s - 1] != '\\'
    ensures Completes(chars[s..idx], chars[idx]) == (chars[idx - 1] == '\\' && IsEscapeTarget(chars[idx]))
  {
    if idx > s {
      assert chars[s..idx][idx - 1 - s] == chars[idx - 1];
    }
  }

  /** From any point inside the literal, the loop decodes exactly the raw
      text up to the first closing quote, and adds one column per escape. */
  lemma {:induction false} StringLoopDecodes(chars: seq<char>, s: nat, idx: nat, prev: char, acc: seq<char>, col: nat, col0: nat)
    requires 1 <= s <= idx <= |chars| && prev == chars[idx - 1]
    requires chars[s - 1] != '\\'
    requires forall k :: s <= k < idx ==> !ClosesAt(chars, k)
    requires acc == Decode(chars[s..idx]) && col == col0 + Escapes(chars[s..idx])
    ensures var e := StringEnd(chars, idx);
      StringLoop(chars, idx, prev, acc, col) == StringScan(e, Decode(chars[s..e]), col0 + Escapes(chars[s..e]))
    decreases |chars| - idx
  {
    if idx < |chars| && !ClosesAt(chars, idx) {
      var acc', col' := Decode(chars[s..idx + 1]), col0 + Escapes(chars[s..idx + 1]);
      StringLoopStep(chars, s, idx, prev, acc, col, col0, acc', col');
      StringLoopDecodes(chars, s, idx + 1, chars[idx], acc', col', col0);
      assert StringEnd(chars, idx) == StringEnd(chars, idx + 1);
    } else {
      StringLoopStops(chars, idx, prev, acc, col);
    }
  }

  /** At a closing quote or at the end of the input the loop stops where it
      is. */
  lemma StringLoopStops(chars: seq<char>, idx: nat, prev: char, acc: seq<char>, col: nat)
    requires 1 <= idx <= |chars| && prev == chars[idx - 1]
    requires idx == |chars| || ClosesAt(chars, idx)
    ensures StringEnd(chars, idx) == idx
    ensures StringLoop(chars, idx, prev, acc, col) == StringScan(idx, acc, col)
  {
  }

  /** On its first character the loop compares with that character itself
      rather than with the opening quote; either way it behaves the same. */
  lemma StringLoopFirst(chars: seq<char>, s: nat, col: nat)
    requires 1 <= s < |chars| && chars[s - 1] == '"'
    ensures StringLoop(chars, s, chars[s], [], col) == StringLoop(chars, s, chars[s - 1], [], col)
  {
  }

  /** Scans the string literal whose opening quote is at `p`. The literal
      ends at the first `"` not preceded by a backslash; its value is the
      decoded body and its span length the decoded length plus the two
      quotes. The token's column is the column counter after the escapes
      have moved it, and together with the advance the column moves by the
      raw width of the literal. */
  function ScanString(chars: seq<char>, p: nat, col: nat, lines: nat): (r: Result<Scanned>)
    requires p < |chars| && chars[p] == '"'
    ensures r.Err? <==> StringEnd(chars, p + 1) == |chars|
    ensures r.Err? ==> r.error == UnterminatedString
    ensures r.Ok? ==>
      var e := StringEnd(chars, p + 1);
      var raw := chars[p + 1..e];
      && r.value.tok == Some(Token(String, Decode(raw), Span(lines + 1, col + Escapes(raw), |Decode(raw)| + 2)))
      && r.value.last == e
      && r.value.lines == lines
      && r.value.col == col + Escapes(raw)
      && r.value.advance == |Decode(raw)| + 2
    ensures r.Ok? ==> r.value.col + r.value.advance == col + (r.value.last - p + 1)
  {
    var s := p + 1;
    if s < |chars| then
      StringLoopFirst(chars, s, col);
      assert chars[s..s] == [];
      StringLoopDecodes(chars, s, s, chars[s - 1], [], col, col);
      var scan := StringLoop(chars, s, chars[s], [], col);
      if scan.stop < |chars| && chars[scan.stop] == '"' then
        var value := scan.decoded;
        Ok(Scanned(Some(Token(String, value, Span(lines + 1, scan.col, |value| + 2))), scan.stop, scan.col, lines, |value| + 2))
      else
        Err(UnterminatedString)
    else
      // the loop does not run and `chars[idx]` is out of bounds
      Err(UnterminatedString)
  }

  // ----- the inverse: writing a value as a string literal -----

  /** The raw form of one character: newline, tab, carriage return and quote
      are written as escapes, everything else as itself. */
  function EscapeChar(c: char): seq<char> {
    if c == '\n' then ['\\', 'n']
    else if c == '\t' then ['\\', 't']
    else if c == '\r' then ['\\', 'r']
    else if c == '"' then ['\\', '"']
    else [c]
  }

  /** The raw body that denotes `s`. */
  function Escape(s: seq<char>): seq<char>
  {
    if |s| == 0 then [] else EscapeChar(s[0]) + Escape(s[1..])
  }

  predicate NeedsEscape(c: char) {
    c == '\n' || c == '\t' || c == '\r' || c == '"'
  }

  /** Number of characters of `s` written as escapes. */
  function EscapeCount(s: seq<char>): nat
  {
    if |s| == 0 then 0 else (if NeedsEscape(s[0]) then 1 else 0) + EscapeCount(s[1..])
  }

  /** Decoding undoes escaping for every value without a backslash (the
      lexer has no escape for the backslash itself), and the raw body holds
      one escape per special character. */
  lemma {:induction false} DecodeEscape(s: seq<char>)
    requires '\\' !in s
    ensures Decode(Escape(s)) == s
    ensures Escapes(Escape(s)) == EscapeCount(s)
    decreases |s|
  {
    if |s| > 0 {
      var rest := Escape(s[1..]);
      DecodeEscape(s[1..]);
      var raw := EscapeChar(s[0]) + rest;
      if NeedsEscape(s[0]) {
        assert StartsWithEscape(raw);
        assert raw[2..] == rest;
      } else {
        assert raw[0] == s[0];
        assert !StartsWithEscape(raw);
        assert raw[1..] == rest;
      }
      assert s == [s[0]] + s[1..];
    }
  }

  /** In an escaped body every quote follows a backslash, and the body does
      not end with a backslash. */
  lemma {:induction false} EscapeQuotes(s: seq<char>)
    requires '\\' !in s
    ensures var raw := Escape(s);
      && (forall k :: 0 <= k < |raw| && raw[k] == '"' ==> k > 0 && raw[k - 1] == '\\')
      && (|raw| > 0 ==> raw[|raw| - 1] != '\\')
    decreases |s|
  {
    if |s| > 0 {
      EscapeQuotes(s[1..]);
      var head := EscapeChar(s[0]);
      var rest := Escape(s[1..]);
      var raw := head + rest;
      forall k | 0 <= k < |raw| && raw[k] == '"'
        ensures k > 0 && raw[k - 1] == '\\'
      {
        if k >= |head| {
          assert raw[k] == rest[k - |head|];
        }
      }
      if |rest| > 0 {
        assert raw[|raw| - 1] == rest[|rest| - 1];
      }
    }
  }
}
