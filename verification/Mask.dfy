/**
  Masking a source text: the interiors of comments, strings and templates become spaces, so that what is left
  can be read line by line.
  Source: experiments/lift-harness/src/sieve.ts, maskSource.
 */
module Mask {
  import opened Outcomes
  import opened CodeUnits

  datatype St = Code | LineComment | BlockComment | Single | Double | Template

  predicate InLiteral(st: St) { st.Single? || st.Double? || st.Template? }

  /** What one turn of the scan writes, how many characters it takes in, and the state it leaves. */
  datatype Turn = Turn(next: St, text: Text, taken: nat)

  function Step(st: St, c: Unit, d: Option<Unit>): (t: Turn)
    ensures 1 <= t.taken <= 2 && |t.text| == t.taken
  {
    match st
    case Code =>
      if c == SLASH && d == Some(SLASH) then Turn(LineComment, [SLASH, SLASH], 2)
      else if c == SLASH && d == Some(STAR) then Turn(BlockComment, [SLASH, STAR], 2)
      else if c == QUOTE then Turn(Single, [c], 1)
      else if c == DOUBLE_QUOTE then Turn(Double, [c], 1)
      else if c == BACKTICK then Turn(Template, [c], 1)
      else Turn(Code, [c], 1)
    case LineComment => if c == NEWLINE then Turn(Code, [c], 1) else Turn(LineComment, [SPACE], 1)
    case BlockComment =>
      if c == STAR && d == Some(SLASH) then Turn(Code, [STAR, SLASH], 2)
      else Turn(BlockComment, if c == NEWLINE then [c] else [SPACE], 1)
    case Template =>
      if c == BACKSLASH then Turn(Template, [SPACE, SPACE], 2)
      else if c == BACKTICK then Turn(Code, [c], 1)
      else Turn(Template, if c == NEWLINE then [c] else [SPACE], 1)
    case _ =>
      if c == BACKSLASH then Turn(st, [SPACE, SPACE], 2)
      else if c == (if st.Single? then QUOTE else DOUBLE_QUOTE) then Turn(Code, [c], 1)
      else if c == NEWLINE then Turn(Code, [c], 1)
      else Turn(st, [SPACE], 1)
  }

  function First(src: Text): Option<Unit> { if src == [] then None else Some(src[0]) }

  function TurnAt(src: Text, st: St): (t: Turn)
    requires src != []
    ensures 1 <= t.taken <= 2 && |t.text| == t.taken
  {
    Step(st, src[0], First(src[1..]))
  }

  /** What is left after one turn: a turn may take in one character more than there is. */
  function Left(src: Text, t: Turn): Text {
    if t.taken <= |src| then src[t.taken..] else []
  }

  /** The masked text of what is left, from a state. */
  function Masked(src: Text, st: St): Text
    decreases |src|, st
  {
    if src == [] then [] else TurnAt(src, st).text + Masked(Left(src, TurnAt(src, st)), TurnAt(src, st).next)
  }

  /** The masked text of what a scan at index i has left. */
  function MaskedFrom(src: Text, i: nat, st: St): Text {
    if i <= |src| then Masked(src[i..], st) else []
  }

  /** One turn of the scan: the state it leaves, what it writes, and how many further characters it takes in. */
  method TakeTurn(st: St, c: Unit, d: Option<Unit>) returns (next: St, text: Text, skip: nat)
    ensures Turn(next, text, 1 + skip) == Step(st, c, d)
  {
    next, text, skip := st, [c], 0;
    match st {
      case Code =>
        if c == SLASH && d == Some(SLASH) { next, text, skip := LineComment, [SLASH, SLASH], 1; }
        else if c == SLASH && d == Some(STAR) { next, text, skip := BlockComment, [SLASH, STAR], 1; }
        else if c == QUOTE { next := Single; }
        else if c == DOUBLE_QUOTE { next := Double; }
        else if c == BACKTICK { next := Template; }
      case LineComment =>
        if c == NEWLINE { next := Code; } else { text := [SPACE]; }
      case BlockComment =>
        if c == STAR && d == Some(SLASH) { next, text, skip := Code, [STAR, SLASH], 1; }
        else if c != NEWLINE { text := [SPACE]; }
      case Template =>
        if c == BACKSLASH { text, skip := [SPACE, SPACE], 1; }
        else if c == BACKTICK { next := Code; }
        else if c != NEWLINE { text := [SPACE]; }
      case _ =>
        var q := if st.Single? then QUOTE else DOUBLE_QUOTE;
        if c == BACKSLASH { text, skip := [SPACE, SPACE], 1; }
        else if c == q || c == NEWLINE { next := Code; }
        else { text := [SPACE]; }
    }
  }

  /** What is written, with what the rest will be masked to, is the whole. */
  ghost predicate Scanned(src: Text, whole: Text, out: Text, i: nat, st: St) {
    out + MaskedFrom(src, i, st) == whole
  }

  /** As the source runs it, one character and a look-ahead at a time. */
  method MaskSource(src: Text) returns (out: Text)
    ensures out == Masked(src, Code)
  {
    ghost var whole := Masked(src, Code);
    out := [];
    var st := Code;
    var i := 0;
    ScanStart(src, st);
    while i < |src|
      invariant Scanned(src, whole, out, i, st)
      decreases |src| - i
    {
      var c := src[i];
      var d := if i + 1 < |src| then Some(src[i + 1]) else None;
      TurnScans(src, whole, out, i, st);
      var text, skip;
      st, text, skip := TakeTurn(st, c, d);
      out := out + text;
      i := i + 1 + skip;
    }
    ScanEnd(src, whole, out, i, st);
  }

  lemma {:induction false} ScanStart(src: Text, st: St)
    ensures Scanned(src, Masked(src, st), [], 0, st)
  {
    assert src[0..] == src;
  }

  lemma {:induction false} ScanEnd(src: Text, whole: Text, out: Text, i: nat, st: St)
    requires i >= |src| && Scanned(src, whole, out, i, st)
    ensures out == whole
  {
    if i == |src| { assert src[i..] == []; }
    assert out + [] == out;
  }

  lemma {:induction false} TurnScans(src: Text, whole: Text, out: Text, i: nat, st: St)
    requires i < |src| && Scanned(src, whole, out, i, st)
    ensures var t := Step(st, src[i], if i + 1 < |src| then Some(src[i + 1]) else None);
            Scanned(src, whole, out + t.text, i + t.taken, t.next)
  {
    var t := TurnFrom(src, i, st);
    Reassociate(out, t.text, MaskedFrom(src, i + t.taken, t.next));
  }

  /** One turn of the loop, in terms of what is still to be masked. */
  lemma {:induction false} TurnFrom(src: Text, i: nat, st: St) returns (t: Turn)
    requires i < |src|
    ensures t == Step(st, src[i], if i + 1 < |src| then Some(src[i + 1]) else None)
    ensures MaskedFrom(src, i, st) == t.text + MaskedFrom(src, i + t.taken, t.next)
  {
    LookAhead(src, i);
    var rest;
    t, rest := MaskedTurn(src[i..], st);
    RestFrom(src, i, t);
  }

  lemma {:induction false} RestFrom(src: Text, i: nat, t: Turn)
    requires i < |src| && t.taken >= 1
    ensures Left(src[i..], t) == if i + t.taken <= |src| then src[i + t.taken..] else []
  {
    if i + t.taken <= |src| { DropTwice(src, i, t.taken); }
  }

  lemma {:induction false} LookAhead(src: Text, i: nat)
    requires i < |src|
    ensures src[i..] != [] && src[i..][0] == src[i]
    ensures First(src[i..][1..]) == if i + 1 < |src| then Some(src[i + 1]) else None
  {
  }

  lemma {:induction false} Reassociate(a: Text, b: Text, c: Text)
    ensures a + (b + c) == a + b + c
  {
  }

  lemma {:induction false} DropTwice(s: Text, i: nat, n: nat)
    requires i + n <= |s|
    ensures s[i..][n..] == s[i + n..]
  {
  }

  // ---------------------------------------------------------------- idempotence

  lemma {:induction false} MaskedTurn(src: Text, st: St) returns (t: Turn, rest: Text)
    requires src != []
    ensures t == Step(st, src[0], First(src[1..])) && rest == Masked(Left(src, t), t.next)
    ensures Masked(src, st) == t.text + rest
  {
    t := TurnAt(src, st);
    rest := Masked(Left(src, t), t.next);
  }

  lemma {:induction false} CodeTurn(c: Unit, d: Option<Unit>)
    ensures Step(Code, c, d).text[0] == c
  {
  }

  /** In code, what is written first is what was read first. */
  lemma {:induction false} CodeFirst(src: Text)
    ensures First(Masked(src, Code)) == First(src)
  {
    if src != [] {
      var t, rest := MaskedTurn(src, Code);
      CodeTurn(src[0], First(src[1..]));
      assert (t.text + rest)[0] == t.text[0];
    }
  }

  /** A turn on what a turn wrote: the same, but a blanked escape is two blanks and no longer one escape. */
  lemma {:induction false} StepAgain(st: St, c: Unit, d: Option<Unit>, d': Option<Unit>)
    requires var t := Step(st, c, d);
             && (t.taken == 2 ==> d' == Some(t.text[1]))
             && (t.taken == 1 && t.next.Code? ==> d' == d)
    ensures Step(st, Step(st, c, d).text[0], d') ==
            if InLiteral(st) && c == BACKSLASH then Turn(st, [SPACE], 1) else Step(st, c, d)
  {
  }

  lemma {:induction false} TurnAgain(st: St, c: Unit, after: Text)
    ensures var t := Step(st, c, First(after));
            var rest := Masked(Left([c] + after, t), t.next);
            Step(st, t.text[0], First((t.text + rest)[1..])) ==
            if InLiteral(st) && c == BACKSLASH then Turn(st, [SPACE], 1) else t
  {
    var t := Step(st, c, First(after));
    var rest := Masked(Left([c] + after, t), t.next);
    var d' := First((t.text + rest)[1..]);
    if t.taken == 2 {
      assert (t.text + rest)[1] == t.text[1];
    } else {
      assert ([c] + after)[1..] == after && (t.text + rest)[1..] == rest;
      if t.next.Code? { CodeFirst(after); }
    }
    StepAgain(st, c, First(after), d');
  }

  lemma {:induction false} MaskedAfter(m: Text, st: St, t: Turn, rest: Text)
    requires m == t.text + rest && |t.text| == t.taken >= 1 && Step(st, m[0], First(m[1..])) == t
    ensures Masked(m, st) == t.text + Masked(rest, t.next)
  {
    assert m[t.taken..] == rest;
  }

  lemma {:induction false} BlankAgain(st: St, rest: Text)
    requires InLiteral(st)
    ensures Masked([SPACE] + rest, st) == [SPACE] + Masked(rest, st)
  {
    MaskedAfter([SPACE] + rest, st, Turn(st, [SPACE], 1), rest);
  }

  lemma {:induction false} TwoBlanks(rest: Text)
    ensures [SPACE] + ([SPACE] + rest) == [SPACE, SPACE] + rest
  {
  }

  lemma {:induction false} BlanksAgain(st: St, rest: Text)
    requires InLiteral(st)
    ensures Masked([SPACE, SPACE] + rest, st) == [SPACE, SPACE] + Masked(rest, st)
  {
    TwoBlanks(rest);
    TwoBlanks(Masked(rest, st));
    BlankAgain(st, rest);
    BlankAgain(st, [SPACE] + rest);
  }

  lemma {:induction false} TurnMasked(src: Text, st: St, t: Turn, rest: Text)
    requires src != [] && t == Step(st, src[0], First(src[1..])) && rest == Masked(Left(src, t), t.next)
    requires Masked(rest, t.next) == rest
    ensures Masked(t.text + rest, st) == t.text + rest
  {
    if InLiteral(st) && src[0] == BACKSLASH {
      BlanksAgain(st, rest);
    } else {
      assert src == [src[0]] + src[1..];
      TurnAgain(st, src[0], src[1..]);
      MaskedAfter(t.text + rest, st, t, rest);
    }
  }

  /** Masking what is masked changes nothing, from any state. */
  lemma {:induction false} MaskedTwice(src: Text, st: St)
    ensures Masked(Masked(src, st), st) == Masked(src, st)
    decreases |src|
  {
    if src != [] {
      var t, rest := MaskedTurn(src, st);
      MaskedTwice(Left(src, t), t.next);
      TurnMasked(src, st, t, rest);
    }
  }

  lemma {:induction false} MaskIdempotent(src: Text)
    ensures Masked(Masked(src, Code), Code) == Masked(src, Code)
  {
    MaskedTwice(src, Code);
  }

  // ---------------------------------------------------------------- which positions are kept

  /** The state of the scan before position i; nothing at the second half of a pair. */
  function StateBefore(src: Text, st: St, i: nat): Option<St>
    requires i <= |src|
    decreases |src|, st
  {
    if i == 0 then Some(st)
    else if i < TurnAt(src, st).taken then None
    else StateBefore(Left(src, TurnAt(src, st)), TurnAt(src, st).next, i - TurnAt(src, st).taken)
  }

  /** A backslash inside a string or template that ends the source or stands right before a newline. */
  predicate Swallows(src: Text, st: St, i: nat) {
    && i < |src| && src[i] == BACKSLASH && (i + 1 == |src| || src[i + 1] == NEWLINE)
    && StateBefore(src, st, i).Some? && InLiteral(StateBefore(src, st, i).value)
  }

  /** Same length, same newlines. */
  predicate SameShape(a: Text, b: Text) {
    |a| == |b| && forall i :: 0 <= i < |a| ==> (a[i] == NEWLINE <==> b[i] == NEWLINE)
  }

  lemma {:induction false} SwallowsShift(src: Text, st: St, i: nat)
    requires src != [] && TurnAt(src, st).taken <= |src|
    ensures Swallows(src, st, i) <==>
            if i < TurnAt(src, st).taken then i == 0 && Swallows(src, st, 0)
            else Swallows(Left(src, TurnAt(src, st)), TurnAt(src, st).next, i - TurnAt(src, st).taken)
  {
  }

  lemma {:induction false} ShapeSplits(src: Text, text: Text, rest: Text)
    requires |text| <= |src|
    ensures SameShape(src, text + rest) <==>
            SameShape(src[..|text|], text) && SameShape(src[|text|..], rest)
  {
    var n, m := |text|, text + rest;
    assert forall k :: 0 <= k < n ==> src[..n][k] == src[k] && m[k] == text[k];
    assert forall k :: 0 <= k < |rest| ==> m[n + k] == rest[k];
    assert forall k :: 0 <= k < |src| - n ==> src[n..][k] == src[n + k];
    if SameShape(src, m) {
      forall k | 0 <= k < |rest| ensures src[n..][k] == NEWLINE <==> rest[k] == NEWLINE {
        assert src[n + k] == NEWLINE <==> m[n + k] == NEWLINE;
      }
    }
    if SameShape(src[..n], text) && SameShape(src[n..], rest) {
      forall k | 0 <= k < |src| ensures src[k] == NEWLINE <==> m[k] == NEWLINE {
        if k >= n { assert src[n..][k - n] == src[k] && m[k] == rest[k - n]; }
      }
    }
  }

  /** What one turn writes has the shape of what it takes in, unless it swallows. */
  lemma {:induction false} TurnShape(src: Text, st: St)
    requires src != []
    ensures Swallows(src, st, 0) <==>
            (TurnAt(src, st).taken > |src| || !SameShape(src[..TurnAt(src, st).taken], TurnAt(src, st).text))
  {
    var t := TurnAt(src, st);
    if t.taken <= |src| {
      assert src[..t.taken][0] == src[0];
      if t.taken == 2 {
        assert src[..2][1] == src[1] && First(src[1..]) == Some(src[1]);
      }
    }
  }

  /** Masking keeps the length and every newline exactly when no backslash inside a string or template ends
      the source or stands right before a newline. */
  lemma {:induction false} ShapeKept(src: Text, st: St)
    ensures SameShape(src, Masked(src, st)) <==> forall i: nat :: !Swallows(src, st, i)
    decreases |src|
  {
    if src != [] {
      var t, rest := MaskedTurn(src, st);
      TurnShape(src, st);
      if t.taken <= |src| {
        ShapeSplits(src, t.text, rest);
        ShapeKept(Left(src, t), t.next);
        forall i: nat ensures Swallows(src, st, i) <==>
            if i < t.taken then i == 0 && Swallows(src, st, 0) else Swallows(Left(src, t), t.next, i - t.taken)
        {
          SwallowsShift(src, st, i);
        }
        if !forall i: nat :: !Swallows(Left(src, t), t.next, i) {
          var i: nat :| Swallows(Left(src, t), t.next, i);
          SwallowsShift(src, st, i + t.taken);
        }
      } else {
        assert |Masked(src, st)| >= 2 > |src|;
      }
    }
  }

  /** A source that loses its newline: a quote, a backslash and a newline. */
  lemma {:induction false} ShapeLost()
    ensures !SameShape([QUOTE, BACKSLASH, NEWLINE], Masked([QUOTE, BACKSLASH, NEWLINE], Code))
  {
    var src := [QUOTE, BACKSLASH, NEWLINE];
    assert Left(src, TurnAt(src, Code)) == src[1..] && StateBefore(src[1..], Single, 0) == Some(Single);
    assert Swallows(src, Code, 1);
    ShapeKept(src, Code);
  }

  predicate IsBracket(c: Unit) {
    c in {OPEN_ROUND, OPEN_SQUARE, OPEN_CURLY, CLOSE_ROUND, CLOSE_SQUARE, CLOSE_CURLY}
  }

  lemma {:induction false} AppendAt(a: Text, b: Text, i: nat)
    requires i < |a| + |b|
    ensures (a + b)[i] == if i < |a| then a[i] else b[i - |a|]
  {
  }

  lemma {:induction false} LeftAt(src: Text, t: Turn, i: nat)
    requires t.taken <= i < |src|
    ensures src[i] == Left(src, t)[i - t.taken]
  {
  }

  lemma {:induction false} TurnBrackets(st: St, c: Unit, d: Option<Unit>)
    ensures var t := Step(st, c, d);
            && (IsBracket(t.text[0]) <==> IsBracket(c) && st.Code?)
            && (IsBracket(t.text[0]) ==> t.text[0] == c)
            && (t.taken == 2 ==> !IsBracket(t.text[1]))
  {
  }

  /** A bracket survives masking exactly where the source has it as code: none in a comment, a string or a
      template is left, and no other is lost. */
  lemma {:induction false} BracketsOfCode(src: Text, st: St, i: nat)
    requires i < |src|
    ensures i < |Masked(src, st)|
    ensures IsBracket(Masked(src, st)[i]) <==> IsBracket(src[i]) && StateBefore(src, st, i) == Some(Code)
    ensures IsBracket(Masked(src, st)[i]) ==> Masked(src, st)[i] == src[i]
    decreases |src|
  {
    var t, rest := MaskedTurn(src, st);
    if i < t.taken {
      AppendAt(t.text, rest, i);
      TurnBrackets(st, src[0], First(src[1..]));
      if i == 1 { assert First(src[1..]) == Some(src[1]); }
    } else {
      BracketsOfCode(Left(src, t), t.next, i - t.taken);
      AppendAt(t.text, rest, i);
      LeftAt(src, t, i);
    }
  }
}
