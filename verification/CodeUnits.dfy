/** Strings as the host language has them: sequences of 16-bit code units, ordered unit by unit. */
module CodeUnits {
  type Unit = u: int | 0 <= u < 0x1_0000
  type Text = seq<Unit>

  const NEWLINE: Unit := 0x0a
  const SPACE: Unit := 0x20
  const DOUBLE_QUOTE: Unit := 0x22
  const QUOTE: Unit := 0x27
  const OPEN_ROUND: Unit := 0x28
  const CLOSE_ROUND: Unit := 0x29
  const STAR: Unit := 0x2a
  const SLASH: Unit := 0x2f
  const OPEN_SQUARE: Unit := 0x5b
  const BACKSLASH: Unit := 0x5c
  const CLOSE_SQUARE: Unit := 0x5d
  const BACKTICK: Unit := 0x60
  const OPEN_CURLY: Unit := 0x7b
  const CLOSE_CURLY: Unit := 0x7d

  predicate IsAscii(s: string) {
    forall i :: 0 <= i < |s| ==> s[i] < '\U{80}'
  }

  function Ascii(s: string): Text
    requires IsAscii(s)
    ensures |Ascii(s)| == |s| && forall i :: 0 <= i < |s| ==> Ascii(s)[i] == s[i] as int
  {
    seq(|s|, i requires 0 <= i < |s| => s[i] as int)
  }

  lemma {:induction false} AsciiInjective(a: string, b: string)
    requires IsAscii(a) && IsAscii(b) && Ascii(a) == Ascii(b)
    ensures a == b
  {
    forall i | 0 <= i < |a| ensures a[i] == b[i] {
      assert Ascii(a)[i] == Ascii(b)[i];
    }
  }

  /** The order the host sorts strings in. */
  predicate Less(a: Text, b: Text) {
    b != [] && (a == [] || a[0] < b[0] || (a[0] == b[0] && Less(a[1..], b[1..])))
  }

  /** The texts agree in front of position k, where one ends or has the lesser unit. */
  predicate DiffersAt(a: Text, b: Text, k: nat) {
    k <= |a| && k < |b| && a[..k] == b[..k] && (k == |a| || a[k] < b[k])
  }

  /** It is decided at the first difference; a text comes before those it begins. */
  lemma {:induction false} LessAtFirstDifference(a: Text, b: Text)
    ensures Less(a, b) <==> exists k: nat :: DiffersAt(a, b, k)
  {
    if b == [] {
    } else if a == [] || a[0] < b[0] {
      assert DiffersAt(a, b, 0);
    } else {
      LessAtFirstDifference(a[1..], b[1..]);
      forall k: nat | DiffersAt(a, b, k) ensures k > 0 && a[0] == b[0] && DiffersAt(a[1..], b[1..], k - 1) {
        assert k > 0 ==> a[0] == a[..k][0] == b[..k][0] && a[1..][..k - 1] == a[..k][1..];
        assert k > 0 ==> b[1..][..k - 1] == b[..k][1..];
      }
      if a[0] == b[0] && Less(a[1..], b[1..]) {
        var k: nat :| DiffersAt(a[1..], b[1..], k);
        assert a[..k + 1] == [a[0]] + a[1..][..k] && b[..k + 1] == [b[0]] + b[1..][..k];
        assert DiffersAt(a, b, k + 1);
      }
    }
  }

  lemma {:induction false} LessTotal(a: Text, b: Text)
    ensures Less(a, b) || Less(b, a) || a == b
    ensures !(Less(a, b) && Less(b, a)) && !Less(a, a)
  {
    if a != [] && b != [] && a[0] == b[0] {
      LessTotal(a[1..], b[1..]);
      assert a == [a[0]] + a[1..] && b == [b[0]] + b[1..];
    }
    if a != [] { LessTotal(a[1..], a[1..]); }
  }

  lemma {:induction false} LessTransitive(a: Text, b: Text, c: Text)
    requires Less(a, b) && Less(b, c)
    ensures Less(a, c)
  {
    if a != [] && a[0] == b[0] && b[0] == c[0] { LessTransitive(a[1..], b[1..], c[1..]); }
  }
}
