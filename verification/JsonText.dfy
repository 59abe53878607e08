/**
  JSON values and their plain serialization, as JSON.stringify writes it without whitespace, keys in the
  order they stand in; and why two values never share a text.
  Strings are escaped as in section 7 of RFC 8259; a lone surrogate is escaped too, so that the text is
  well-formed.
 */
module JsonText {
  import opened CodeUnits
  import opened Decimal

  datatype Keyed<V> = Keyed(key: Text, value: V)

  datatype Json =
    | JNull
    | JBool(flag: bool)
    | JNum(number: int)
    | JStr(text: Text)
    | JArr(items: seq<Json>)
    | JObj(fields: seq<Keyed<Json>>)

  const QUOTE: Unit := 0x22
  const COMMA: Unit := 0x2C
  const MINUS: Unit := 0x2D
  const COLON: Unit := 0x3A
  const LBRACKET: Unit := 0x5B
  const BACKSLASH: Unit := 0x5C
  const RBRACKET: Unit := 0x5D
  const LBRACE: Unit := 0x7B
  const RBRACE: Unit := 0x7D

  // ---------------------------------------------------------------- strings

  predicate IsHigh(u: Unit) { 0xD800 <= u < 0xDC00 }
  predicate IsLow(u: Unit) { 0xDC00 <= u < 0xE000 }

  function HexDigit(d: int): Unit
    requires 0 <= d < 16
  {
    if d < 10 then 0x30 + d else 0x61 + d - 10
  }

  function HexValue(u: Unit): int
    ensures 0 <= HexValue(u) < 16
  {
    if 0x30 <= u <= 0x39 then u - 0x30 else if 0x61 <= u <= 0x66 then u - 0x61 + 10 else 0
  }

  /** The letter of a two-unit escape, or 0. */
  function ShortEscape(u: Unit): Unit {
    if u == QUOTE then QUOTE
    else if u == BACKSLASH then BACKSLASH
    else if u == 0x08 then 0x62
    else if u == 0x0C then 0x66
    else if u == 0x0A then 0x6E
    else if u == 0x0D then 0x72
    else if u == 0x09 then 0x74
    else 0
  }

  function ShortMeaning(letter: Unit): Unit {
    if letter == 0x62 then 0x08
    else if letter == 0x66 then 0x0C
    else if letter == 0x6E then 0x0A
    else if letter == 0x72 then 0x0D
    else if letter == 0x74 then 0x09
    else letter
  }

  /** One code unit that is not half of a surrogate pair. */
  function EscapeUnit(u: Unit): Text {
    if ShortEscape(u) != 0 then [BACKSLASH, ShortEscape(u)]
    else if u < 0x20 || IsHigh(u) || IsLow(u) then
      [BACKSLASH, 0x75, HexDigit(u / 4096), HexDigit(u / 256 % 16), HexDigit(u / 16 % 16), HexDigit(u % 16)]
    else [u]
  }

  function Escape(s: Text): Text {
    if s == [] then []
    else if |s| > 1 && IsHigh(s[0]) && IsLow(s[1]) then [s[0], s[1]] + Escape(s[2..])
    else EscapeUnit(s[0]) + Escape(s[1..])
  }

  function Quote(s: Text): Text { [QUOTE] + Escape(s) + [QUOTE] }

  lemma {:induction false} EscapeOne(u: Unit, rest: Text)
    requires !(rest != [] && IsHigh(u) && IsLow(rest[0]))
    ensures Escape([u] + rest) == EscapeUnit(u) + Escape(rest)
  {
    assert ([u] + rest)[1..] == rest;
  }

  /** A unit that stands alone, as it is spelled. */
  lemma {:induction false} SpelledAlone(u: Unit)
    ensures Escape([u]) == EscapeUnit(u)
  {
    assert [u] + [] == [u];
    EscapeOne(u, []);
    assert EscapeUnit(u) + [] == EscapeUnit(u);
  }

  /** A backslash and these letters. */
  function Escaped(letters: string): Text
    requires IsAscii(letters)
  {
    [BACKSLASH] + Ascii(letters)
  }

  lemma {:induction false} ShortSpelled()
    ensures Escape([0x08]) == Escaped("b") && Escape([0x09]) == Escaped("t") && Escape([0x0A]) == Escaped("n")
    ensures Escape([0x0C]) == Escaped("f") && Escape([0x0D]) == Escaped("r")
  {
    SpelledAlone(0x08);
    SpelledAlone(0x09);
    SpelledAlone(0x0A);
    SpelledAlone(0x0C);
    SpelledAlone(0x0D);
  }

  lemma {:induction false} QuotesSpelled()
    ensures Escape([0x22]) == [0x5C, 0x22] && Escape([0x5C]) == [0x5C, 0x5C]
  {
    SpelledAlone(0x22);
    SpelledAlone(0x5C);
  }

  lemma {:induction false} HexSpelled()
    ensures Escape([0x1F]) == Escaped("u001f") && Escape([0xDE0A]) == Escaped("ude0a")
  {
    SpelledAlone(0x1F);
    SpelledAlone(0xDE0A);
  }

  /** How each unit is spelled: seven short escapes, every other control unit and each lone half of a pair in
      four lower-case hexadecimal digits, and all else as it is. */
  lemma {:induction false} EscapesSpelled(u: Unit)
    ensures Escape([0x08]) == Escaped("b") && Escape([0x09]) == Escaped("t") && Escape([0x0A]) == Escaped("n")
    ensures Escape([0x0C]) == Escaped("f") && Escape([0x0D]) == Escaped("r")
    ensures Escape([0x22]) == [0x5C, 0x22] && Escape([0x5C]) == [0x5C, 0x5C]
    ensures Escape([0x1F]) == Escaped("u001f") && Escape([0xDE0A]) == Escaped("ude0a")
    ensures |Escape([u])| == if u in {0x08, 0x09, 0x0A, 0x0C, 0x0D, 0x22, 0x5C} then 2
                             else if u < 0x20 || 0xD800 <= u < 0xE000 then 6 else 1
    ensures |Escape([u])| == 1 ==> Escape([u]) == [u]
  {
    ShortSpelled();
    QuotesSpelled();
    HexSpelled();
    SpelledAlone(u);
  }

  /** Read a string back from just after its opening quote: what it spells, and what follows. */
  function Unescape(t: Text): (Text, Text) {
    if t == [] then ([], [])
    else if t[0] == QUOTE then ([], t[1..])
    else if t[0] != BACKSLASH then
      var (s, rest) := Unescape(t[1..]);
      ([t[0]] + s, rest)
    else if |t| > 5 && t[1] == 0x75 then
      var (s, rest) := Unescape(t[6..]);
      ([HexValue(t[2]) * 4096 + HexValue(t[3]) * 256 + HexValue(t[4]) * 16 + HexValue(t[5])] + s, rest)
    else if |t| > 1 then
      var (s, rest) := Unescape(t[2..]);
      ([ShortMeaning(t[1])] + s, rest)
    else ([], [])
  }

  lemma {:induction false} UnescapeRaw(u: Unit, t: Text)
    requires u != QUOTE && u != BACKSLASH
    ensures Unescape([u] + t) == ([u] + Unescape(t).0, Unescape(t).1)
  {
    assert ([u] + t)[1..] == t;
  }

  lemma {:induction false} UnescapeShort(letter: Unit, t: Text)
    requires letter != 0x75
    ensures Unescape([BACKSLASH, letter] + t) == ([ShortMeaning(letter)] + Unescape(t).0, Unescape(t).1)
  {
    assert ([BACKSLASH, letter] + t)[2..] == t;
  }

  lemma {:induction false} UnescapeHex(a: Unit, b: Unit, c: Unit, d: Unit, t: Text)
    ensures Unescape([BACKSLASH, 0x75, a, b, c, d] + t) ==
            ([HexValue(a) * 4096 + HexValue(b) * 256 + HexValue(c) * 16 + HexValue(d)] + Unescape(t).0, Unescape(t).1)
  {
    var e: Text := [BACKSLASH, 0x75, a, b, c, d] + t;
    assert e[6..] == t;
    assert e[0] == BACKSLASH && e[1] == 0x75 && e[2] == a && e[3] == b && e[4] == c && e[5] == d;
  }

  lemma {:induction false} HexDigitRoundTrip(d: int)
    requires 0 <= d < 16
    ensures HexValue(HexDigit(d)) == d
  {
  }

  lemma {:induction false} FourDigits(u: int)
    requires 0 <= u < 0x1_0000
    ensures u / 4096 < 16
    ensures u / 4096 * 4096 + u / 256 % 16 * 256 + u / 16 % 16 * 16 + u % 16 == u
  {
    var q := u / 16;
    var r := q / 16;
    assert r == u / 256 && r / 16 == u / 4096;
  }

  lemma {:induction false} UnescapeUnit(u: Unit, t: Text)
    ensures Unescape(EscapeUnit(u) + t) == ([u] + Unescape(t).0, Unescape(t).1)
  {
    if ShortEscape(u) != 0 {
      UnescapeShort(ShortEscape(u), t);
    } else if u < 0x20 || IsHigh(u) || IsLow(u) {
      FourDigits(u);
      var a, b, c, d := u / 4096, u / 256 % 16, u / 16 % 16, u % 16;
      HexDigitRoundTrip(a);
      HexDigitRoundTrip(b);
      HexDigitRoundTrip(c);
      HexDigitRoundTrip(d);
      UnescapeHex(HexDigit(a), HexDigit(b), HexDigit(c), HexDigit(d), t);
    } else {
      UnescapeRaw(u, t);
    }
  }

  /** Reading an escaped text spells the string, whatever follows it. */
  lemma {:induction false} UnescapeEscaped(s: Text, t: Text)
    ensures Unescape(Escape(s) + t) == (s + Unescape(t).0, Unescape(t).1)
  {
    if s == [] {
      assert Escape(s) + t == t && s + Unescape(t).0 == Unescape(t).0;
    } else if |s| > 1 && IsHigh(s[0]) && IsLow(s[1]) {
      UnescapeEscaped(s[2..], t);
      var rest := Escape(s[2..]) + t;
      UnescapeRaw(s[1], rest);
      UnescapeRaw(s[0], [s[1]] + rest);
      PairFirst(s[0], s[1], Escape(s[2..]), t);
      PairFirst(s[0], s[1], s[2..], Unescape(t).0);
      assert s == [s[0], s[1]] + s[2..];
    } else {
      UnescapeEscaped(s[1..], t);
      UnescapeUnit(s[0], Escape(s[1..]) + t);
      Associate(EscapeUnit(s[0]), Escape(s[1..]), t);
      Associate([s[0]], s[1..], Unescape(t).0);
      assert s == [s[0]] + s[1..];
    }
  }

  lemma {:induction false} Associate(a: Text, b: Text, c: Text)
    ensures a + b + c == a + (b + c)
  {
  }

  lemma {:induction false} PairFirst(x: Unit, y: Unit, b: Text, c: Text)
    ensures [x, y] + b + c == [x] + ([y] + (b + c))
  {
  }

  /** Two quoted strings with anything after them never share a text. */
  lemma {:induction false} QuotePrefix(a: Text, b: Text, x: Text, y: Text)
    requires Quote(a) + x == Quote(b) + y
    ensures a == b && x == y
  {
    Quoted(a, x);
    Quoted(b, y);
  }

  lemma {:induction false} Quoted(a: Text, x: Text)
    ensures Unescape((Quote(a) + x)[1..]) == (a, x)
  {
    var t := [QUOTE] + x;
    assert (Quote(a) + x)[1..] == Escape(a) + t;
    UnescapeEscaped(a, t);
    assert t[0] == QUOTE && t[1..] == x && a + [] == a;
  }

  // ---------------------------------------------------------------- values

  function PrintNat(n: nat): Text {
    ReadPrinted(n);
    Ascii(ToDecimal(n))
  }

  function PrintInt(n: int): Text {
    if n < 0 then [MINUS] + PrintNat(-n) else PrintNat(n)
  }

  /** The pieces after the first, each behind a comma. */
  function Tail(pieces: seq<Text>): Text {
    if pieces == [] then [] else [COMMA] + pieces[0] + Tail(pieces[1..])
  }

  function Join(pieces: seq<Text>): Text {
    if pieces == [] then [] else pieces[0] + Tail(pieces[1..])
  }

  function Print(v: Json): Text
    decreases v, 1
  {
    match v
    case JNull => [0x6E, 0x75, 0x6C, 0x6C]
    case JBool(flag) => if flag then [0x74, 0x72, 0x75, 0x65] else [0x66, 0x61, 0x6C, 0x73, 0x65]
    case JNum(number) => PrintInt(number)
    case JStr(text) => Quote(text)
    case JArr(items) => [LBRACKET] + Join(PrintItems(items)) + [RBRACKET]
    case JObj(fields) => [LBRACE] + Join(PrintFields(fields)) + [RBRACE]
  }

  function PrintItems(items: seq<Json>): seq<Text>
    decreases items, 0
  {
    if items == [] then [] else [Print(items[0])] + PrintItems(items[1..])
  }

  function Member(key: Text, value: Text): Text { Quote(key) + [COLON] + value }

  function PrintFields(fields: seq<Keyed<Json>>): seq<Text>
    decreases fields, 0
  {
    if fields == [] then [] else [Member(fields[0].key, Print(fields[0].value))] + PrintFields(fields[1..])
  }

  // ---------------------------------------------------------------- no two values share a text

  predicate Digit(u: Unit) { 0x30 <= u <= 0x39 }

  /** What may follow a value: nothing, a comma, or a closing bracket. */
  predicate Closes(x: Text) {
    x == [] || x[0] == COMMA || x[0] == RBRACKET || x[0] == RBRACE
  }

  /** The first unit of a value's text says which form it has. */
  lemma {:induction false} FirstUnit(v: Json)
    ensures Print(v) != []
    ensures v.JNull? <==> Print(v)[0] == 0x6E
    ensures v.JBool? <==> Print(v)[0] == 0x74 || Print(v)[0] == 0x66
    ensures v.JNum? <==> Print(v)[0] == MINUS || Digit(Print(v)[0])
    ensures v.JStr? <==> Print(v)[0] == QUOTE
    ensures v.JArr? <==> Print(v)[0] == LBRACKET
    ensures v.JObj? <==> Print(v)[0] == LBRACE
  {
    if v.JNum? { IntStarts(v.number); }
  }

  lemma {:induction false} NatDigits(n: nat)
    ensures PrintNat(n) != [] && forall i :: 0 <= i < |PrintNat(n)| ==> Digit(PrintNat(n)[i])
  {
    ReadPrinted(n);
  }

  lemma {:induction false} IntStarts(n: int)
    ensures PrintInt(n) != [] && (PrintInt(n)[0] == MINUS || Digit(PrintInt(n)[0]))
  {
    NatDigits(if n < 0 then -n else n);
  }

  function LeadingDigits(t: Text): nat {
    if t == [] || !Digit(t[0]) then 0 else 1 + LeadingDigits(t[1..])
  }

  lemma {:induction false} LeadingDigitsOf(a: Text, x: Text)
    requires Closes(x) && forall i :: 0 <= i < |a| ==> Digit(a[i])
    ensures LeadingDigits(a + x) == |a|
  {
    if a == [] {
      assert a + x == x;
    } else {
      LeadingDigitsOf(a[1..], x);
      assert (a + x)[1..] == a[1..] + x;
    }
  }

  /** A run of digits ends where something else begins. */
  lemma {:induction false} DigitsPrefix(a: Text, b: Text, x: Text, y: Text)
    requires a + x == b + y && Closes(x) && Closes(y)
    requires forall i :: 0 <= i < |a| ==> Digit(a[i])
    requires forall i :: 0 <= i < |b| ==> Digit(b[i])
    ensures a == b && x == y
  {
    LeadingDigitsOf(a, x);
    LeadingDigitsOf(b, y);
    Cancel(a, b, x, y);
  }

  lemma {:induction false} Cancel(a: Text, b: Text, x: Text, y: Text)
    requires a + x == b + y && |a| == |b|
    ensures a == b && x == y
  {
    assert a == (a + x)[..|a|] && b == (b + y)[..|b|];
    assert x == (a + x)[|a|..] && y == (b + y)[|b|..];
  }

  lemma {:induction false} NatInjective(m: nat, n: nat)
    requires PrintNat(m) == PrintNat(n)
    ensures m == n
  {
    ReadPrinted(m);
    ReadPrinted(n);
    AsciiInjective(ToDecimal(m), ToDecimal(n));
  }

  lemma {:induction false} IntPrefix(m: int, n: int, x: Text, y: Text)
    requires PrintInt(m) + x == PrintInt(n) + y && Closes(x) && Closes(y)
    ensures m == n && x == y
  {
    var p, q := PrintNat(if m < 0 then -m else m), PrintNat(if n < 0 then -n else n);
    NatDigits(if m < 0 then -m else m);
    NatDigits(if n < 0 then -n else n);
    assert (PrintInt(m) + x)[0] == PrintInt(m)[0] && (PrintInt(n) + y)[0] == PrintInt(n)[0];
    assert (m < 0) == (n < 0);
    if m < 0 {
      Associate([MINUS], p, x);
      Associate([MINUS], q, y);
      Cancel([MINUS], [MINUS], p + x, q + y);
    }
    DigitsPrefix(p, q, x, y);
    NatInjective(if m < 0 then -m else m, if n < 0 then -n else n);
  }

  /** Two values with something closing after them share a text only if they are one value and are followed
      by one text: no value's text runs into another's. */
  lemma {:induction false} PrintPrefix(v: Json, w: Json, x: Text, y: Text)
    requires Print(v) + x == Print(w) + y && Closes(x) && Closes(y)
    ensures v == w && x == y
    decreases v, 1
  {
    FirstUnit(v);
    FirstUnit(w);
    assert Print(v)[0] == (Print(v) + x)[0] == (Print(w) + y)[0] == Print(w)[0];
    match v
    case JNull => Cancel(Print(v), Print(w), x, y);
    case JBool(_) => Cancel(Print(v), Print(w), x, y);
    case JNum(number) => IntPrefix(number, w.number, x, y);
    case JStr(text) => QuotePrefix(text, w.text, x, y);
    case JArr(items) => ArrayPrefix(items, w.items, x, y);
    case JObj(fields) => ObjectPrefix(fields, w.fields, x, y);
  }

  // ---------------------------------------------------------------- lists of pieces

  /** Text that closes an enclosing array or object. */
  predicate Shuts(t: Text) {
    t != [] && (t[0] == RBRACKET || t[0] == RBRACE)
  }

  lemma {:induction false} TailStep(pieces: seq<Text>, t: Text)
    requires pieces != []
    ensures Tail(pieces) + t == [COMMA] + (Join(pieces) + t)
    ensures Join(pieces) + t == pieces[0] + (Tail(pieces[1..]) + t)
  {
    Associate(pieces[0], Tail(pieces[1..]), t);
    Associate([COMMA], pieces[0], Tail(pieces[1..]));
    Associate([COMMA], Join(pieces), t);
  }

  lemma {:induction false} TailCloses(pieces: seq<Text>, t: Text)
    requires Shuts(t)
    ensures Closes(Tail(pieces) + t) && (pieces != [] ==> (Tail(pieces) + t)[0] == COMMA)
    ensures pieces == [] ==> Tail(pieces) + t == t
  {
    if pieces == [] {
      assert Tail(pieces) + t == t;
    } else {
      TailStep(pieces, t);
    }
  }

  /** An array's text, opened. */
  lemma {:induction false} Bracketed(open: Unit, body: Text, close: Unit, x: Text)
    ensures [open] + body + [close] + x == [open] + (body + ([close] + x))
  {
    Associate([open] + body, [close], x);
    Associate([open], body, [close] + x);
  }

  lemma {:induction false} ArrayPrefix(a: seq<Json>, b: seq<Json>, x: Text, y: Text)
    requires Print(JArr(a)) + x == Print(JArr(b)) + y
    ensures a == b && x == y
    decreases a, 1
  {
    var t, u := [RBRACKET] + x, [RBRACKET] + y;
    var p, q := PrintItems(a), PrintItems(b);
    Bracketed(LBRACKET, Join(p), RBRACKET, x);
    Bracketed(LBRACKET, Join(q), RBRACKET, y);
    Cancel([LBRACKET], [LBRACKET], Join(p) + t, Join(q) + u);
    if a != [] && b != [] {
      TailStep(p, t);
      TailStep(q, u);
    } else {
      ItemsOpen(a, t);
      ItemsOpen(b, u);
    }
    ItemsPrefix(a, b, t, u);
    Cancel([RBRACKET], [RBRACKET], x, y);
  }

  /** Whether there are items shows in the first unit after the bracket. */
  lemma {:induction false} ItemsOpen(items: seq<Json>, t: Text)
    requires Shuts(t)
    ensures items == [] ==> Join(PrintItems(items)) + t == t && Tail(PrintItems(items)) + t == t
    ensures items != [] ==> Join(PrintItems(items)) + t != [] && !Shuts(Join(PrintItems(items)) + t)
  {
    if items == [] {
      assert [] + t == t;
    } else {
      TailStep(PrintItems(items), t);
      FirstUnit(items[0]);
    }
  }

  lemma {:induction false} ItemsPrefix(a: seq<Json>, b: seq<Json>, t: Text, u: Text)
    requires Tail(PrintItems(a)) + t == Tail(PrintItems(b)) + u && Shuts(t) && Shuts(u)
    ensures a == b && t == u
    decreases a, 0
  {
    var p, q := PrintItems(a), PrintItems(b);
    TailCloses(p, t);
    TailCloses(q, u);
    if a != [] && b != [] {
      TailStep(p, t);
      TailStep(q, u);
      Cancel([COMMA], [COMMA], Join(p) + t, Join(q) + u);
      assert p[1..] == PrintItems(a[1..]) && q[1..] == PrintItems(b[1..]);
      TailCloses(p[1..], t);
      TailCloses(q[1..], u);
      PrintPrefix(a[0], b[0], Tail(p[1..]) + t, Tail(q[1..]) + u);
      ItemsPrefix(a[1..], b[1..], t, u);
      assert a == [a[0]] + a[1..] && b == [b[0]] + b[1..];
    }
  }

  lemma {:induction false} ObjectPrefix(a: seq<Keyed<Json>>, b: seq<Keyed<Json>>, x: Text, y: Text)
    requires Print(JObj(a)) + x == Print(JObj(b)) + y
    ensures a == b && x == y
    decreases a, 1
  {
    var t, u := [RBRACE] + x, [RBRACE] + y;
    var p, q := PrintFields(a), PrintFields(b);
    Bracketed(LBRACE, Join(p), RBRACE, x);
    Bracketed(LBRACE, Join(q), RBRACE, y);
    Cancel([LBRACE], [LBRACE], Join(p) + t, Join(q) + u);
    if a != [] && b != [] {
      TailStep(p, t);
      TailStep(q, u);
    } else {
      FieldsOpen(a, t);
      FieldsOpen(b, u);
    }
    FieldsPrefix(a, b, t, u);
    Cancel([RBRACE], [RBRACE], x, y);
  }

  lemma {:induction false} FieldsOpen(fields: seq<Keyed<Json>>, t: Text)
    requires Shuts(t)
    ensures fields == [] ==> Join(PrintFields(fields)) + t == t && Tail(PrintFields(fields)) + t == t
    ensures fields != [] ==> Join(PrintFields(fields)) + t != [] && !Shuts(Join(PrintFields(fields)) + t)
  {
    if fields == [] {
      assert [] + t == t;
    } else {
      TailStep(PrintFields(fields), t);
      assert PrintFields(fields)[0][0] == QUOTE;
    }
  }

  lemma {:induction false} FieldsPrefix(a: seq<Keyed<Json>>, b: seq<Keyed<Json>>, t: Text, u: Text)
    requires Tail(PrintFields(a)) + t == Tail(PrintFields(b)) + u && Shuts(t) && Shuts(u)
    ensures a == b && t == u
    decreases a, 0
  {
    var p, q := PrintFields(a), PrintFields(b);
    TailCloses(p, t);
    TailCloses(q, u);
    if a != [] && b != [] {
      TailStep(p, t);
      TailStep(q, u);
      Cancel([COMMA], [COMMA], Join(p) + t, Join(q) + u);
      assert p[1..] == PrintFields(a[1..]) && q[1..] == PrintFields(b[1..]);
      TailCloses(p[1..], t);
      TailCloses(q[1..], u);
      var t', u' := Tail(p[1..]) + t, Tail(q[1..]) + u;
      MemberOpen(a[0], t');
      MemberOpen(b[0], u');
      QuotePrefix(a[0].key, b[0].key, [COLON] + (Print(a[0].value) + t'), [COLON] + (Print(b[0].value) + u'));
      Cancel([COLON], [COLON], Print(a[0].value) + t', Print(b[0].value) + u');
      PrintPrefix(a[0].value, b[0].value, t', u');
      FieldsPrefix(a[1..], b[1..], t, u);
      assert a == [a[0]] + a[1..] && b == [b[0]] + b[1..];
    }
  }

  lemma {:induction false} MemberOpen(f: Keyed<Json>, t: Text)
    ensures Member(f.key, Print(f.value)) + t == Quote(f.key) + ([COLON] + (Print(f.value) + t))
  {
    Associate(Quote(f.key) + [COLON], Print(f.value), t);
    Associate(Quote(f.key), [COLON], Print(f.value) + t);
  }

  /** Serialization is injective: two values with one text are one value, down to the order of keys. */
  lemma {:induction false} PrintInjective(v: Json, w: Json)
    requires Print(v) == Print(w)
    ensures v == w
  {
    assert Print(v) + [] == Print(v) && Print(w) + [] == Print(w);
    PrintPrefix(v, w, [], []);
  }
}
