/**
  What masking blanks, stated on the tokens of a source: code, comments, strings and templates.
  Source: experiments/lift-harness/src/sieve.ts, maskSource.

  A source is read as a list of tokens without reference to the scan's states; the masked text is then what is
  left of each token.
 */
module MaskTokens {
  import opened Outcomes
  import opened CodeUnits
  import opened Mask

  /** Inside a string or template: one unit, or a backslash with the unit it escapes. */
  datatype Part = Raw(c: Unit) | Escape(c: Unit)

  /** Closed by its quote, left open, or left open on a backslash that ends the source. */
  datatype Ending = Closed | Open | Dangling

  datatype Token =
    | Plain(c: Unit)
    | Remark(body: Text)
    | Block(body: Text, closed: bool)
    | Literal(quote: Unit, parts: seq<Part>, ending: Ending)

  // ---------------------------------------------------------------- tokens as text

  function PartText(part: Part): Text {
    match part case Raw(c) => [c] case Escape(c) => [BACKSLASH, c]
  }

  function PartsText(parts: seq<Part>): Text {
    if parts == [] then [] else PartText(parts[0]) + PartsText(parts[1..])
  }

  function EndText(quote: Unit, ending: Ending): Text {
    match ending case Closed => [quote] case Open => [] case Dangling => [BACKSLASH]
  }

  function TokenText(t: Token): Text {
    match t
    case Plain(c) => [c]
    case Remark(body) => [SLASH, SLASH] + body
    case Block(body, closed) => [SLASH, STAR] + (body + if closed then [STAR, SLASH] else [])
    case Literal(quote, parts, ending) => [quote] + (PartsText(parts) + EndText(quote, ending))
  }

  function TokensText(ts: seq<Token>): Text {
    if ts == [] then [] else TokenText(ts[0]) + TokensText(ts[1..])
  }

  predicate NoClose(body: Text) {
    forall i :: 0 <= i < |body| - 1 ==> !(body[i] == STAR && body[i + 1] == SLASH)
  }

  predicate PartsFit(quote: Unit, parts: seq<Part>) {
    forall i :: 0 <= i < |parts| ==>
      parts[i].Raw? ==>
        parts[i].c != quote && parts[i].c != BACKSLASH && (parts[i].c == NEWLINE ==> quote == BACKTICK)
  }

  /** This text is this token, whatever follows it being so. */
  predicate Fits(t: Token, after: Text) {
    match t
    case Plain(c) =>
      c !in {QUOTE, DOUBLE_QUOTE, BACKTICK} && !(c == SLASH && First(after) in {Some(SLASH), Some(STAR)})
    case Remark(body) => NEWLINE !in body && (after == [] || after[0] == NEWLINE)
    case Block(body, closed) => NoClose(body) && (closed || after == [])
    case Literal(quote, parts, ending) =>
      && quote in {QUOTE, DOUBLE_QUOTE, BACKTICK} && PartsFit(quote, parts)
      && (ending.Dangling? ==> after == [])
      && (ending.Open? ==> after == [] || (quote != BACKTICK && after[0] == NEWLINE))
  }

  predicate Reads(ts: seq<Token>) {
    ts != [] ==> Fits(ts[0], TokensText(ts[1..])) && Reads(ts[1..])
  }

  // ---------------------------------------------------------------- what masking leaves of a token

  function Spaces(n: nat): Text { seq(n, k requires 0 <= k < n => SPACE) }

  /** A space for every unit but a newline. */
  function Blanked(body: Text): Text {
    seq(|body|, k requires 0 <= k < |body| => if body[k] == NEWLINE then NEWLINE else SPACE)
  }

  function PartBlanked(part: Part): Text {
    match part case Raw(c) => Blanked([c]) case Escape(_) => Spaces(2)
  }

  function PartsBlanked(parts: seq<Part>): Text {
    if parts == [] then [] else PartBlanked(parts[0]) + PartsBlanked(parts[1..])
  }

  function EndBlanked(quote: Unit, ending: Ending): Text {
    match ending case Closed => [quote] case Open => [] case Dangling => Spaces(2)
  }

  function TokenMasked(t: Token): Text {
    match t
    case Plain(c) => [c]
    case Remark(body) => [SLASH, SLASH] + Spaces(|body|)
    case Block(body, closed) => [SLASH, STAR] + (Blanked(body) + if closed then [STAR, SLASH] else [])
    case Literal(quote, parts, ending) => [quote] + (PartsBlanked(parts) + EndBlanked(quote, ending))
  }

  function TokensMasked(ts: seq<Token>): Text {
    if ts == [] then [] else TokenMasked(ts[0]) + TokensMasked(ts[1..])
  }

  // ---------------------------------------------------------------- every source is read

  lemma {:induction false} ReadRemark(src: Text) returns (body: Text, after: Text)
    ensures src == body + after && NEWLINE !in body && (after == [] || after[0] == NEWLINE)
  {
    if src == [] || src[0] == NEWLINE {
      body, after := [], src;
    } else {
      body, after := ReadRemark(src[1..]);
      assert src == [src[0]] + src[1..];
      body := [src[0]] + body;
    }
  }

  lemma {:induction false} ReadBlock(src: Text) returns (body: Text, closed: bool, after: Text)
    ensures src == body + (if closed then [STAR, SLASH] else []) + after
    ensures NoClose(body) && (closed || after == []) && |after| <= |src|
    ensures body != [] ==> src[0] == body[0]
  {
    if src == [] {
      body, closed, after := [], false, [];
    } else if src[0] == STAR && First(src[1..]) == Some(SLASH) {
      body, closed, after := [], true, src[2..];
      assert src == [src[0], src[1]] + src[2..];
    } else {
      var rest;
      rest, closed, after := ReadBlock(src[1..]);
      assert src == [src[0]] + src[1..];
      body := [src[0]] + rest;
    }
  }

  lemma {:induction false} ReadLiteral(src: Text, quote: Unit) returns (parts: seq<Part>, ending: Ending, after: Text)
    requires quote in {QUOTE, DOUBLE_QUOTE, BACKTICK}
    ensures src == PartsText(parts) + EndText(quote, ending) + after
    ensures Fits(Literal(quote, parts, ending), after) && |after| <= |src|
    decreases |src|
  {
    if src == [] || (src[0] == NEWLINE && quote != BACKTICK) {
      parts, ending, after := [], Open, src;
      NothingBefore(src);
    } else if src[0] == BACKSLASH && |src| == 1 {
      parts, ending, after := [], Dangling, [];
      assert src == [BACKSLASH];
    } else if src[0] == quote {
      parts, ending, after := [], Closed, src[1..];
      HeadOff(src);
    } else {
      var part, n := if src[0] == BACKSLASH then Escape(src[1]) else Raw(src[0]), if src[0] == BACKSLASH then 2 else 1;
      var rest;
      rest, ending, after := ReadLiteral(src[n..], quote);
      parts := [part] + rest;
      PartFirst(src, n, part, rest, EndText(quote, ending), after);
      PartFits(quote, part, rest);
    }
  }

  lemma {:induction false} PartFirst(src: Text, n: nat, part: Part, rest: seq<Part>, end: Text, after: Text)
    requires n <= |src| && src[..n] == PartsText([part]) && src[n..] == PartsText(rest) + end + after
    ensures src == PartsText([part] + rest) + end + after
  {
    assert ([part] + rest)[1..] == rest && PartsText([part])  == src[..n] + [];
    assert PartsText([part] + rest) == src[..n] + PartsText(rest);
    Reassociate(src[..n] + PartsText(rest), end, after);
    Reassociate(src[..n], PartsText(rest), end + after);
    Reassociate(PartsText(rest), end, after);
    assert src == src[..n] + src[n..];
  }

  lemma {:induction false} PartFits(quote: Unit, part: Part, rest: seq<Part>)
    requires PartsFit(quote, [part]) && PartsFit(quote, rest)
    ensures PartsFit(quote, [part] + rest)
  {
    assert [part][0] == part;
  }

  /** The first token of a source. */
  lemma {:induction false} ReadOne(src: Text) returns (t: Token, after: Text)
    requires src != []
    ensures src == TokenText(t) + after && Fits(t, after) && |after| < |src|
  {
    assert src == [src[0]] + src[1..];
    if src[0] in {QUOTE, DOUBLE_QUOTE, BACKTICK} {
      var parts, ending;
      parts, ending, after := ReadLiteral(src[1..], src[0]);
      t := Literal(src[0], parts, ending);
    } else if src[0] == SLASH && First(src[1..]) in {Some(SLASH), Some(STAR)} {
      assert src == [src[0], src[1]] + src[2..];
      if src[1] == SLASH {
        var body;
        body, after := ReadRemark(src[2..]);
        t := Remark(body);
      } else {
        var body, closed;
        body, closed, after := ReadBlock(src[2..]);
        t := Block(body, closed);
      }
    } else {
      t, after := Plain(src[0]), src[1..];
    }
  }

  /** Every source is the text of a list of tokens. */
  lemma {:induction false} EverySourceReads(src: Text) returns (ts: seq<Token>)
    ensures Reads(ts) && TokensText(ts) == src
    decreases |src|
  {
    ts := [];
    if src != [] {
      var t, after := ReadOne(src);
      var rest := EverySourceReads(after);
      ts := [t] + rest;
      assert ts[1..] == rest;
    }
  }

  // ---------------------------------------------------------------- masking a token

  lemma {:induction false} OneUnit(c: Unit, after: Text, st: St)
    requires Step(st, c, First(after)).taken == 1
    ensures Masked([c] + after, st) == Step(st, c, First(after)).text + Masked(after, Step(st, c, First(after)).next)
  {
    assert ([c] + after)[1..] == after;
  }

  lemma {:induction false} TwoUnits(c: Unit, d: Unit, after: Text, st: St)
    requires Step(st, c, Some(d)).taken == 2
    ensures Masked([c, d] + after, st) == Step(st, c, Some(d)).text + Masked(after, Step(st, c, Some(d)).next)
  {
    assert ([c, d] + after)[1..] == [d] + after;
    assert ([c, d] + after)[2..] == after;
  }

  /** One unit of an interior, before what the rest of the interior is masked to. */
  lemma {:induction false} Onward(c: Unit, u: Text, rest: Text, blanks: Text, after: Text, st: St, next: St)
    requires Step(st, c, First(rest + after)) == Turn(st, u, 1)
    requires Masked(rest + after, st) == blanks + Masked(after, next)
    ensures Masked([c] + rest + after, st) == u + blanks + Masked(after, next)
  {
    OneUnit(c, rest + after, st);
    Reassociate([c], rest, after);
    Reassociate(u, blanks, Masked(after, next));
  }

  /** And one escape. */
  lemma {:induction false} OnwardPair(c: Unit, d: Unit, u: Text, rest: Text, blanks: Text, after: Text, st: St,
                                      to: St, next: St)
    requires Step(st, c, Some(d)) == Turn(to, u, 2)
    requires Masked(rest + after, to) == blanks + Masked(after, next)
    ensures Masked([c, d] + rest + after, st) == u + blanks + Masked(after, next)
  {
    TwoUnits(c, d, rest + after, st);
    Reassociate([c, d], rest, after);
    Reassociate(u, blanks, Masked(after, next));
  }

  lemma {:induction false} NothingBefore(after: Text)
    ensures [] + after == after
  {
  }

  lemma {:induction false} HeadOff(body: Text)
    requires body != []
    ensures body == [body[0]] + body[1..]
    ensures Spaces(|body|) == [SPACE] + Spaces(|body[1..]|)
    ensures Blanked(body) == (if body[0] == NEWLINE then [NEWLINE] else [SPACE]) + Blanked(body[1..])
  {
  }

  lemma {:induction false} NoCloseTail(body: Text, after: Text)
    requires body != [] && NoClose(body) && (after == [] || after[0] != SLASH)
    ensures NoClose(body[1..]) && !(body[0] == STAR && First(body[1..] + after) == Some(SLASH))
  {
    if |body| > 1 { assert body[1..][0] == body[0 + 1]; } else { NothingBefore(after); }
    forall i | 0 <= i < |body[1..]| - 1 ensures !(body[1..][i] == STAR && body[1..][i + 1] == SLASH) {
      assert body[1..][i] == body[i + 1];
    }
  }

  lemma {:induction false} RemarkMasked(body: Text, after: Text)
    requires NEWLINE !in body
    ensures Masked(body + after, LineComment) == Spaces(|body|) + Masked(after, LineComment)
  {
    if body == [] {
      NothingBefore(after);
      NothingBefore(Masked(after, LineComment));
    } else {
      RemarkMasked(body[1..], after);
      HeadOff(body);
      Onward(body[0], [SPACE], body[1..], Spaces(|body[1..]|), after, LineComment, LineComment);
    }
  }

  lemma {:induction false} BlockMasked(body: Text, after: Text)
    requires NoClose(body) && (after == [] || after[0] != SLASH)
    ensures Masked(body + after, BlockComment) == Blanked(body) + Masked(after, BlockComment)
  {
    if body == [] {
      NothingBefore(after);
      NothingBefore(Masked(after, BlockComment));
    } else {
      NoCloseTail(body, after);
      BlockMasked(body[1..], after);
      HeadOff(body);
      Onward(body[0], if body[0] == NEWLINE then [NEWLINE] else [SPACE], body[1..], Blanked(body[1..]), after,
             BlockComment, BlockComment);
    }
  }

  function StateIn(quote: Unit): St {
    if quote == QUOTE then Single else if quote == DOUBLE_QUOTE then Double else Template
  }

  lemma {:induction false} PartTurn(quote: Unit, part: Part, d: Option<Unit>)
    requires quote in {QUOTE, DOUBLE_QUOTE, BACKTICK} && PartsFit(quote, [part])
    ensures part.Raw? ==> Step(StateIn(quote), part.c, d) == Turn(StateIn(quote), PartBlanked(part), 1)
    ensures part.Escape? ==> Step(StateIn(quote), BACKSLASH, d) == Turn(StateIn(quote), PartBlanked(part), 2)
  {
    assert [part][0] == part;
    assert Spaces(2) == [SPACE, SPACE];
  }

  lemma {:induction false} PartMasked(quote: Unit, part: Part, rest: Text, blanks: Text, after: Text)
    requires quote in {QUOTE, DOUBLE_QUOTE, BACKTICK} && PartsFit(quote, [part])
    requires Masked(rest + after, StateIn(quote)) == blanks + Masked(after, StateIn(quote))
    ensures Masked(PartText(part) + rest + after, StateIn(quote)) ==
            PartBlanked(part) + blanks + Masked(after, StateIn(quote))
  {
    var st := StateIn(quote);
    match part
    case Raw(c) =>
      PartTurn(quote, part, First(rest + after));
      Onward(c, PartBlanked(part), rest, blanks, after, st, st);
    case Escape(c) =>
      PartTurn(quote, part, Some(c));
      OnwardPair(BACKSLASH, c, PartBlanked(part), rest, blanks, after, st, st, st);
  }

  lemma {:induction false} PartsMasked(quote: Unit, parts: seq<Part>, after: Text)
    requires quote in {QUOTE, DOUBLE_QUOTE, BACKTICK} && PartsFit(quote, parts)
    ensures Masked(PartsText(parts) + after, StateIn(quote)) == PartsBlanked(parts) + Masked(after, StateIn(quote))
  {
    if parts == [] {
      NothingBefore(after);
      NothingBefore(Masked(after, StateIn(quote)));
    } else {
      var rest, st := parts[1..], StateIn(quote);
      PartsMasked(quote, rest, after);
      PartMasked(quote, parts[0], PartsText(rest), PartsBlanked(rest), after);
    }
  }

  /** A newline ends a remark or a string, and is itself code. */
  lemma {:induction false} NewlineEnds(after: Text, st: St)
    requires after == [] || (after[0] == NEWLINE && st in {LineComment, Single, Double})
    ensures Masked(after, st) == Masked(after, Code)
  {
    if after != [] {
      HeadOff(after);
      OneUnit(after[0], after[1..], st);
      OneUnit(after[0], after[1..], Code);
    }
  }

  lemma {:induction false} EndMasked(quote: Unit, parts: seq<Part>, ending: Ending, after: Text)
    requires Fits(Literal(quote, parts, ending), after)
    ensures Masked(EndText(quote, ending) + after, StateIn(quote)) == EndBlanked(quote, ending) + Masked(after, Code)
  {
    match ending
    case Closed => OneUnit(quote, after, StateIn(quote));
    case Open =>
      NothingBefore(after);
      NewlineEnds(after, StateIn(quote));
    case Dangling => OneBackslash(StateIn(quote));
  }

  lemma {:induction false} OneBackslash(st: St)
    requires InLiteral(st)
    ensures Masked([BACKSLASH] + [], st) == Spaces(2) + []
  {
    assert [BACKSLASH] + [] == [BACKSLASH];
    assert Spaces(2) == [SPACE, SPACE];
  }

  lemma {:induction false} LiteralMasked(quote: Unit, parts: seq<Part>, ending: Ending, after: Text)
    requires Fits(Literal(quote, parts, ending), after)
    ensures var t := Literal(quote, parts, ending);
            Masked(TokenText(t) + after, Code) == TokenMasked(t) + Masked(after, Code)
  {
    var body, end := PartsText(parts), EndText(quote, ending);
    var blanks, ended := PartsBlanked(parts), EndBlanked(quote, ending);
    PartsMasked(quote, parts, end + after);
    EndMasked(quote, parts, ending, after);
    Reassociate(body, end, after);
    Reassociate(blanks, ended, Masked(after, Code));
    OneUnit(quote, body + end + after, Code);
    Reassociate([quote], body + end, after);
    Reassociate([quote], blanks + ended, Masked(after, Code));
  }

  lemma {:induction false} RemarkTokenMasked(body: Text, after: Text)
    requires Fits(Remark(body), after)
    ensures Masked(TokenText(Remark(body)) + after, Code) == TokenMasked(Remark(body)) + Masked(after, Code)
  {
    RemarkMasked(body, after);
    NewlineEnds(after, LineComment);
    OnwardPair(SLASH, SLASH, [SLASH, SLASH], body, Spaces(|body|), after, Code, LineComment, Code);
  }

  lemma {:induction false} BlockTokenMasked(body: Text, closed: bool, after: Text)
    requires Fits(Block(body, closed), after)
    ensures var t := Block(body, closed);
            Masked(TokenText(t) + after, Code) == TokenMasked(t) + Masked(after, Code)
  {
    var end := if closed then [STAR, SLASH] else [];
    BlockEnd(closed, after);
    BlockMasked(body, end + after);
    Reassociate(body, end, after);
    Reassociate(Blanked(body), end, Masked(after, Code));
    OnwardPair(SLASH, STAR, [SLASH, STAR], body + end, Blanked(body) + end, after, Code, BlockComment, Code);
  }

  lemma {:induction false} BlockEnd(closed: bool, after: Text)
    requires closed || after == []
    ensures var end := if closed then [STAR, SLASH] else [];
            && (end + after == [] || (end + after)[0] != SLASH)
            && Masked(end + after, BlockComment) == end + Masked(after, Code)
  {
    if closed { TwoUnits(STAR, SLASH, after, BlockComment); } else { NothingBefore(after); }
  }

  lemma {:induction false} TokenIsMasked(t: Token, after: Text)
    requires Fits(t, after)
    ensures Masked(TokenText(t) + after, Code) == TokenMasked(t) + Masked(after, Code)
  {
    match t
    case Plain(c) => OneUnit(c, after, Code);
    case Remark(body) => RemarkTokenMasked(body, after);
    case Block(body, closed) => BlockTokenMasked(body, closed, after);
    case Literal(quote, parts, ending) => LiteralMasked(quote, parts, ending, after);
  }

  /** However a source is read as tokens, masking leaves its code and its delimiters and blanks the rest: every
      unit of a comment, string or template but a newline that no backslash escapes. */
  lemma {:induction false} MaskedByTokens(ts: seq<Token>)
    requires Reads(ts)
    ensures Masked(TokensText(ts), Code) == TokensMasked(ts)
  {
    if ts != [] {
      TokenIsMasked(ts[0], TokensText(ts[1..]));
      MaskedByTokens(ts[1..]);
    }
  }

  /** So every source is masked to what its tokens leave. */
  lemma {:induction false} MaskBlanksExactly(src: Text) returns (ts: seq<Token>)
    ensures Reads(ts) && TokensText(ts) == src && Masked(src, Code) == TokensMasked(ts)
  {
    ts := EverySourceReads(src);
    MaskedByTokens(ts);
  }
}
