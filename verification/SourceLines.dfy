/** A source text as lines, and where each line starts. */
module SourceLines {
  import opened CodeUnits
  import opened Mask

  function Split(s: Text): (lines: seq<Text>)
    ensures lines != []
  {
    if s == [] then [[]]
    else
      var rest := Split(s[1..]);
      if s[0] == NEWLINE then [[]] + rest else [[s[0]] + rest[0]] + rest[1..]
  }

  /** The lines written out again, each with its newline. */
  function Flat(lines: seq<Text>): Text {
    if lines == [] then [] else lines[0] + [NEWLINE] + Flat(lines[1..])
  }

  /** The offset line li starts at. */
  function Start(lines: seq<Text>, li: nat): nat
    requires li <= |lines|
  {
    if li == 0 then 0 else Start(lines, li - 1) + |lines[li - 1]| + 1
  }

  lemma {:induction false} FlatSplit(s: Text)
    ensures Flat(Split(s)) == s + [NEWLINE]
  {
    if s == [] {
      assert Flat([[]]) == [] + [NEWLINE] + [];
    } else {
      FlatSplit(s[1..]);
      var rest := Split(s[1..]);
      if s[0] == NEWLINE {
        assert ([[]] + rest)[1..] == rest;
        assert Flat([[]] + rest) == [] + [NEWLINE] + Flat(rest);
      } else {
        assert ([[s[0]] + rest[0]] + rest[1..])[1..] == rest[1..];
        assert [s[0]] + rest[0] + [NEWLINE] + Flat(rest[1..]) == [s[0]] + Flat(rest);
      }
      assert s == [s[0]] + s[1..];
    }
  }

  predicate SameLengths(a: seq<Text>, b: seq<Text>) {
    |a| == |b| && forall i :: 0 <= i < |a| ==> |a[i]| == |b[i]|
  }

  lemma {:induction false} SameShapeTails(a: Text, b: Text)
    requires a != [] && b != []
    ensures SameShape(a, b) <==> (a[0] == NEWLINE <==> b[0] == NEWLINE) && SameShape(a[1..], b[1..])
  {
    if (a[0] == NEWLINE <==> b[0] == NEWLINE) && SameShape(a[1..], b[1..]) {
      forall i | 0 <= i < |a| ensures a[i] == NEWLINE <==> b[i] == NEWLINE {
        if i > 0 { assert a[1..][i - 1] == NEWLINE <==> b[1..][i - 1] == NEWLINE; }
      }
    }
    if SameShape(a, b) {
      forall i | 0 <= i < |a| - 1 ensures a[1..][i] == NEWLINE <==> b[1..][i] == NEWLINE {
        assert a[i + 1] == NEWLINE <==> b[i + 1] == NEWLINE;
      }
    }
  }

  lemma {:induction false} SameLengthsTails(a: seq<Text>, b: seq<Text>)
    requires a != [] && b != []
    ensures SameLengths(a, b) <==> |a[0]| == |b[0]| && SameLengths(a[1..], b[1..])
  {
    if SameLengths(a, b) {
      forall i | 0 <= i < |a| - 1 ensures |a[1..][i]| == |b[1..][i]| { assert |a[i + 1]| == |b[i + 1]|; }
    }
    if |a[0]| == |b[0]| && SameLengths(a[1..], b[1..]) {
      forall i | 0 <= i < |a| ensures |a[i]| == |b[i]| {
        if i > 0 { assert |a[1..][i - 1]| == |b[1..][i - 1]|; }
      }
    }
  }

  lemma {:induction false} EmptySplits(a: Text, b: Text)
    requires a == [] && b != []
    ensures !SameLengths(Split(a), Split(b)) && !SameLengths(Split(b), Split(a))
  {
    var lines := Split(b);
    assert |lines| >= 2 || |lines[0]| >= 1;
    assert |Split(a)| == 1 && |Split(a)[0]| == 0;
  }

  /** Two texts split into lines of the same lengths exactly when they have one length and their newlines in
      one place. */
  lemma {:induction false} SameShapeSplits(a: Text, b: Text)
    ensures SameShape(a, b) <==> SameLengths(Split(a), Split(b))
  {
    if a == [] && b != [] {
      EmptySplits(a, b);
    } else if a != [] && b == [] {
      EmptySplits(b, a);
    } else if a != [] {
      var p, q := Split(a[1..]), Split(b[1..]);
      SameShapeTails(a, b);
      SameShapeSplits(a[1..], b[1..]);
      SameLengthsTails(p, q);
      SameLengthsTails(Split(a), Split(b));
      if a[0] == NEWLINE { assert Split(a)[0] == [] && Split(a)[1..] == p; }
      else { assert Split(a)[1..] == p[1..]; }
      if b[0] == NEWLINE { assert Split(b)[0] == [] && Split(b)[1..] == q; }
      else { assert Split(b)[1..] == q[1..]; }
    }
  }

  lemma {:induction false} SameStarts(a: seq<Text>, b: seq<Text>, li: nat)
    requires SameLengths(a, b) && li <= |a|
    ensures Start(a, li) == Start(b, li)
  {
    if li > 0 { SameStarts(a, b, li - 1); }
  }

  lemma {:induction false} FlatLength(lines: seq<Text>)
    ensures |Flat(lines)| == Start(lines, |lines|)
  {
    if lines != [] {
      FlatLength(lines[1..]);
      StartShifts(lines, |lines|);
    }
  }

  lemma {:induction false} StartShifts(lines: seq<Text>, li: nat)
    requires 1 <= li <= |lines|
    ensures Start(lines, li) == |lines[0]| + 1 + Start(lines[1..], li - 1)
  {
    if li > 1 { StartShifts(lines, li - 1); }
  }

  /** The character at a position of a line, the newline being at its end. */
  lemma {:induction false} FlatAt(lines: seq<Text>, li: nat, ci: nat)
    requires li < |lines| && ci <= |lines[li]|
    ensures Start(lines, li) + ci < |Flat(lines)|
    ensures Flat(lines)[Start(lines, li) + ci] == if ci < |lines[li]| then lines[li][ci] else NEWLINE
  {
    if li > 0 {
      FlatAt(lines[1..], li - 1, ci);
      StartShifts(lines, li);
    }
  }

  /** A line and its newline fit in the text. */
  lemma {:induction false} LineFits(lines: seq<Text>, li: nat)
    requires li < |lines|
    ensures Start(lines, li + 1) == Start(lines, li) + |lines[li]| + 1 <= |Flat(lines)|
  {
    FlatAt(lines, li, |lines[li]|);
  }

  lemma {:induction false} StartsAscend(lines: seq<Text>, a: nat, b: nat)
    requires a < b <= |lines|
    ensures Start(lines, a) < Start(lines, b)
    decreases b
  {
    if a < b - 1 { StartsAscend(lines, a, b - 1); }
  }

  /** A position belongs to one line. */
  lemma {:induction false} OneLine(lines: seq<Text>, a: nat, b: nat, byte: nat)
    requires a < |lines| && b < |lines|
    requires Start(lines, a) <= byte < Start(lines, a + 1) && Start(lines, b) <= byte < Start(lines, b + 1)
    ensures a == b
  {
    if a < b {
      if a + 1 < b { StartsAscend(lines, a + 1, b); }
    } else if b < a {
      if b + 1 < a { StartsAscend(lines, b + 1, a); }
    }
  }

  /** The line a position is on, lines being numbered from 1. */
  function LineOf(lines: seq<Text>, byte: nat): nat {
    if lines == [] || byte <= |lines[0]| then 1 else 1 + LineOf(lines[1..], byte - |lines[0]| - 1)
  }

  lemma {:induction false} LineOfAt(lines: seq<Text>, li: nat, ci: nat)
    requires li < |lines| && ci <= |lines[li]|
    ensures LineOf(lines, Start(lines, li) + ci) == li + 1
  {
    if li > 0 {
      StartShifts(lines, li);
      LineOfAt(lines[1..], li - 1, ci);
    }
  }

  lemma {:induction false} LineOfIs(lines: seq<Text>, byte: nat)
    requires byte < |Flat(lines)|
    ensures var line := LineOf(lines, byte);
            1 <= line <= |lines| && Start(lines, line - 1) <= byte < Start(lines, line)
  {
    if byte > |lines[0]| {
      LineOfIs(lines[1..], byte - |lines[0]| - 1);
      var line := LineOf(lines, byte);
      StartShifts(lines, line);
      if line > 1 { StartShifts(lines, line - 1); }
    } else {
      assert Start(lines, 1) == |lines[0]| + 1;
    }
  }

  /** From one position to the next the line stays, or is left at its end. */
  lemma {:induction false} LineOfNext(lines: seq<Text>, byte: nat)
    requires byte + 1 < |Flat(lines)|
    ensures 1 <= LineOf(lines, byte) <= |lines|
    ensures var line := LineOf(lines, byte);
            LineOf(lines, byte + 1) == if byte + 1 == Start(lines, line) then line + 1 else line
  {
    LineOfIs(lines, byte);
    LineOfIs(lines, byte + 1);
    var line, next := LineOf(lines, byte), LineOf(lines, byte + 1);
    if byte + 1 == Start(lines, line) {
      FlatLength(lines);
      OneLine(lines, next - 1, line, byte + 1);
    } else {
      OneLine(lines, next - 1, line - 1, byte + 1);
    }
  }
}
