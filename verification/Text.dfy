/** Decimal numbers and the string operations of the trace and log formats. */
module Text {
  import opened Basics

  // ----- decimal numbers -----

  predicate IsDigit(c: char) {
    '0' <= c <= '9'
  }

  function DigitValue(c: char): nat
    requires IsDigit(c)
  {
    c as int - '0' as int
  }

  function Digit(d: nat): (c: char)
    requires d < 10
    ensures IsDigit(c) && DigitValue(c) == d
  {
    ('0' as int + d) as char
  }

  predicate AllDigits(s: string) {
    forall i :: 0 <= i < |s| ==> IsDigit(s[i])
  }

  /** `str(n)` and `'%d' % n` for a natural number. */
  function Decimal(n: nat): (s: string)
    ensures s != [] && AllDigits(s)
  {
    if n < 10 then [Digit(n)] else Decimal(n / 10) + [Digit(n % 10)]
  }

  function Value(s: string): nat
    requires AllDigits(s)
  {
    if s == [] then 0 else Value(s[..|s| - 1]) * 10 + DigitValue(s[|s| - 1])
  }

  /** `int(s)` on a string of digits; anything else is an error. */
  function ParseNat(s: string): Option<nat> {
    if s != [] && AllDigits(s) then Some(Value(s)) else None
  }

  lemma {:induction false} DecimalValue(n: nat)
    ensures ParseNat(Decimal(n)) == Some(n)
  {
    if n >= 10 {
      DecimalValue(n / 10);
      var s := Decimal(n);
      assert s[..|s| - 1] == Decimal(n / 10);
    } else {
      var s := Decimal(n);
      assert s[..|s| - 1] == [];
      assert Value(s) == DigitValue(s[0]) == n;
    }
  }

  /** The text writes the number in base ten, with or without zeros in front. */
  ghost predicate Numeral(s: string, n: nat) {
    && s != [] && '0' <= s[|s| - 1] <= '9' && n % 10 == s[|s| - 1] as int - 48
    && if |s| == 1 then n < 10 else Numeral(s[..|s| - 1], n / 10)
  }

  lemma LastDigit(v: nat, d: nat, n: nat)
    requires d < 10
    ensures v * 10 + d == n <==> v == n / 10 && n % 10 == d
  {
  }

  lemma {:induction false} NumeralMeans(s: string, n: nat)
    ensures ParseNat(s) == Some(n) <==> Numeral(s, n)
  {
    if s != [] {
      var k := |s| - 1;
      assert AllDigits(s) <==> AllDigits(s[..k]) && IsDigit(s[k]);
      if k > 0 {
        NumeralMeans(s[..k], n / 10);
      }
      if AllDigits(s) {
        LastDigit(Value(s[..k]), DigitValue(s[k]), n);
      }
    }
  }

  /** A printed number is its numeral without zeros in front. */
  lemma {:induction false} DecimalNumeral(n: nat)
    ensures Numeral(Decimal(n), n) && (|Decimal(n)| == 1 || Decimal(n)[0] != '0')
  {
    DecimalValue(n);
    NumeralMeans(Decimal(n), n);
    if n >= 10 {
      DecimalNumeral(n / 10);
    }
  }

  lemma DecimalInjective(m: nat, n: nat)
    requires Decimal(m) == Decimal(n)
    ensures m == n
  {
    DecimalValue(m);
    DecimalValue(n);
  }

  function Pow10(k: nat): nat {
    if k == 0 then 1 else 10 * Pow10(k - 1)
  }

  /** A number has as many digits as powers of ten it reaches. */
  lemma {:induction false} DecimalLength(n: nat, k: nat)
    requires k > 0
    ensures |Decimal(n)| <= k <==> n < Pow10(k)
  {
    if n >= 10 {
      if k == 1 {
        assert Pow10(1) == 10;
      } else {
        DecimalLength(n / 10, k - 1);
        assert n / 10 < Pow10(k - 1) <==> n < 10 * Pow10(k - 1);
      }
    } else {
      Pow10AtLeast(k);
    }
  }

  lemma {:induction false} Pow10AtLeast(k: nat)
    ensures Pow10(k) >= 1 && (k > 0 ==> Pow10(k) >= 10)
  {
    if k > 0 {
      Pow10AtLeast(k - 1);
    }
  }

  lemma DecimalLonger(m: nat, n: nat)
    requires m <= n
    ensures |Decimal(m)| <= |Decimal(n)|
  {
    DecimalLength(n, |Decimal(n)|);
    DecimalLength(m, |Decimal(n)|);
  }

  /** `s.zfill(w)` on digits. */
  function ZFill(s: string, w: nat): string {
    if |s| >= w then s else seq(w - |s|, _ => '0') + s
  }

  lemma {:induction false} LeadingZeros(k: nat, s: string)
    requires AllDigits(s)
    ensures AllDigits(seq(k, _ => '0') + s) && Value(seq(k, _ => '0') + s) == Value(s)
  {
    var zeros := seq(k, _ => '0');
    if s != [] {
      LeadingZeros(k, s[..|s| - 1]);
      assert (zeros + s)[..k + |s| - 1] == zeros + s[..|s| - 1];
    } else {
      ZerosValue(k);
      assert zeros + s == zeros;
    }
  }

  lemma {:induction false} ZerosValue(k: nat)
    ensures AllDigits(seq(k, _ => '0')) && Value(seq(k, _ => '0')) == 0
  {
    if k > 0 {
      ZerosValue(k - 1);
      assert seq(k, _ => '0')[..k - 1] == seq(k - 1, _ => '0');
    }
  }

  /** Zero-padding to a width that fits keeps the number and makes the width exact. */
  lemma ZFillValue(n: nat, w: nat)
    requires |Decimal(n)| <= w
    ensures |ZFill(Decimal(n), w)| == w && ParseNat(ZFill(Decimal(n), w)) == Some(n)
  {
    DecimalValue(n);
    if |Decimal(n)| < w {
      LeadingZeros(w - |Decimal(n)|, Decimal(n));
    }
  }

  // ----- splitting and stripping -----

  function IndexOf(s: string, c: char): (i: nat)
    requires c in s
    ensures i < |s| && s[i] == c && c !in s[..i]
  {
    if s[0] == c then 0 else
      assert s == [s[0]] + s[1..];
      1 + IndexOf(s[1..], c)
  }

  /** `s.split(c)`: always at least one piece. */
  function Split(s: string, c: char): (parts: seq<string>)
    ensures parts != []
    decreases |s|
  {
    if c in s then
      var i := IndexOf(s, c);
      [s[..i]] + Split(s[i + 1..], c)
    else [s]
  }

  function Join(parts: seq<string>, c: char): string
    requires parts != []
  {
    if |parts| == 1 then parts[0] else parts[0] + [c] + Join(parts[1..], c)
  }

  lemma SplitFirst(a: string, c: char, b: string)
    requires c !in a
    ensures Split(a + [c] + b, c) == [a] + Split(b, c)
  {
    var s := a + [c] + b;
    assert s[|a|] == c;
    var i := IndexOf(s, c);
    assert forall k :: 0 <= k < |a| ==> s[k] == a[k];
    assert forall k :: 0 <= k < i ==> s[k] in s[..i];
    assert i == |a|;
    assert s[..|a|] == a && s[|a| + 1..] == b;
  }

  /** Splitting undoes joining when no piece holds the separator. */
  lemma {:induction false} SplitJoin(parts: seq<string>, c: char)
    requires parts != [] && forall i :: 0 <= i < |parts| ==> c !in parts[i]
    ensures Split(Join(parts, c), c) == parts
  {
    if |parts| > 1 {
      SplitJoin(parts[1..], c);
      SplitFirst(parts[0], c, Join(parts[1..], c));
      assert parts == [parts[0]] + parts[1..];
    }
  }

  lemma {:induction false} JoinSplit(s: string, c: char)
    ensures Join(Split(s, c), c) == s && forall i :: 0 <= i < |Split(s, c)| ==> c !in Split(s, c)[i]
    decreases |s|
  {
    if c in s {
      var i := IndexOf(s, c);
      JoinSplit(s[i + 1..], c);
      assert Split(s, c)[1..] == Split(s[i + 1..], c);
      assert s == s[..i] + [c] + s[i + 1..];
    }
  }

  /** The pieces of a text between the separators. */
  ghost predicate PiecesOf(s: string, c: char, parts: seq<string>) {
    parts != [] && s == Join(parts, c) && forall i :: 0 <= i < |parts| ==> c !in parts[i]
  }

  lemma SplitMeans(s: string, c: char, parts: seq<string>)
    ensures Split(s, c) == parts <==> PiecesOf(s, c, parts)
  {
    JoinSplit(s, c);
    if PiecesOf(s, c, parts) {
      SplitJoin(parts, c);
    }
  }

  predicate IsSpace(c: char) {
    c == ' ' || c == '\t' || c == '\n' || c == '\r' || c as int == 11 || c as int == 12
  }

  function StripLeft(s: string): string {
    if s != [] && IsSpace(s[0]) then StripLeft(s[1..]) else s
  }

  function StripRight(s: string): string {
    if s != [] && IsSpace(s[|s| - 1]) then StripRight(s[..|s| - 1]) else s
  }

  function Strip(s: string): string {
    StripRight(StripLeft(s))
  }

  /** Text that neither starts nor ends with white space is left alone. */
  lemma StripIdle(s: string)
    requires s == [] || (!IsSpace(s[0]) && !IsSpace(s[|s| - 1]))
    ensures Strip(s) == s
  {
  }

  /** A space, a tab, a line end, a carriage return, or one of the control characters 11 and 12. */
  ghost predicate White(c: char) {
    c == ' ' || 9 <= c as int <= 13
  }

  ghost predicate Blank(s: string) {
    forall i :: 0 <= i < |s| ==> White(s[i])
  }

  /** Neither end is white space. */
  ghost predicate Clean(s: string) {
    s == [] || (!White(s[0]) && !White(s[|s| - 1]))
  }

  /** The text is the clean text with white space around it. */
  ghost predicate Padded(s: string, t: string) {
    exists a: string, b: string :: Blank(a) && Blank(b) && Clean(t) && s == a + t + b
  }

  lemma SpaceMeans(c: char)
    ensures IsSpace(c) <==> White(c)
  {
    assert '\t' as int == 9 && '\n' as int == 10 && '\r' as int == 13;
  }

  lemma CleanMeans(s: string)
    ensures Clean(s) <==> s == [] || (!IsSpace(s[0]) && !IsSpace(s[|s| - 1]))
  {
    if s != [] {
      SpaceMeans(s[0]);
      SpaceMeans(s[|s| - 1]);
    }
  }

  lemma {:induction false} StripLeftOff(a: string, t: string)
    requires Blank(a) && (t == [] || !IsSpace(t[0]))
    ensures StripLeft(a + t) == t
  {
    if a == [] {
      assert a + t == t;
    } else {
      SpaceMeans(a[0]);
      assert (a + t)[1..] == a[1..] + t;
      StripLeftOff(a[1..], t);
    }
  }

  lemma {:induction false} StripRightOff(t: string, b: string)
    requires Blank(b) && (t == [] || !IsSpace(t[|t| - 1]))
    ensures StripRight(t + b) == t
  {
    if b == [] {
      assert t + b == t;
    } else {
      var k := |b| - 1;
      SpaceMeans(b[k]);
      assert (t + b)[..|t + b| - 1] == t + b[..k];
      StripRightOff(t, b[..k]);
    }
  }

  lemma {:induction false} StripLeftRest(s: string) returns (a: string)
    ensures Blank(a) && s == a + StripLeft(s) && (StripLeft(s) == [] || !IsSpace(StripLeft(s)[0]))
  {
    if s != [] && IsSpace(s[0]) {
      var rest := StripLeftRest(s[1..]);
      a := [s[0]] + rest;
      SpaceMeans(s[0]);
      assert s == [s[0]] + s[1..];
    } else {
      a := [];
    }
  }

  lemma {:induction false} StripRightRest(s: string) returns (b: string)
    ensures Blank(b) && s == StripRight(s) + b && (StripRight(s) == [] || !IsSpace(StripRight(s)[|StripRight(s)| - 1]))
    ensures StripRight(s) != [] ==> StripRight(s)[0] == s[0]
  {
    if s != [] && IsSpace(s[|s| - 1]) {
      var k := |s| - 1;
      var rest := StripRightRest(s[..k]);
      b := rest + [s[k]];
      SpaceMeans(s[k]);
      assert s == s[..k] + [s[k]];
    } else {
      b := [];
    }
  }

  /** White space around a text is all that stripping takes off. */
  lemma StripMeans(s: string, t: string)
    ensures Strip(s) == t <==> Padded(s, t)
  {
    if Strip(s) == t {
      var a := StripLeftRest(s);
      var b := StripRightRest(StripLeft(s));
      CleanMeans(t);
      assert s == a + t + b;
    }
    if a: string, b: string :| Blank(a) && Blank(b) && Clean(t) && s == a + t + b {
      CleanMeans(t);
      StripBack(a, t, b);
    }
  }

  lemma StripBack(a: string, t: string, b: string)
    requires Blank(a) && Blank(b) && (t == [] || (!IsSpace(t[0]) && !IsSpace(t[|t| - 1])))
    ensures Strip(a + t + b) == t
  {
    if t == [] {
      assert a + t + b == (a + b) + [];
      StripLeftOff(a + b, []);
    } else {
      assert a + t + b == a + (t + b);
      StripLeftOff(a, t + b);
      StripRightOff(t, b);
    }
  }

  // ----- numbers as Python reads and writes them -----

  /** Digits, with or without a sign. */
  ghost predicate Integer(s: string, v: int) {
    || (v >= 0 && Numeral(s, v))
    || (s != [] && s[0] == '+' && v >= 0 && Numeral(s[1..], v))
    || (s != [] && s[0] == '-' && v <= 0 && Numeral(s[1..], -v))
  }

  lemma SignedMeans(s: string, v: int)
    ensures ParseSigned(s) == Some(v) <==> Integer(s, v)
  {
    if s != [] && (s[0] == '-' || s[0] == '+') {
      if v >= 0 {
        NumeralMeans(s, v);
        NumeralMeans(s[1..], v);
      }
      if v <= 0 {
        NumeralMeans(s[1..], -v);
      }
    } else if v >= 0 {
      NumeralMeans(s, v);
    }
  }

  /** What `int(s)` takes: an integer with white space around it. */
  ghost predicate IntText(s: string, v: int) {
    exists t: string :: Padded(s, t) && Integer(t, v)
  }

  /** An integer, with or without a letter L behind. */
  ghost predicate LongInteger(t: string, v: int) {
    Integer(t, v) || (t != [] && t[|t| - 1] in "Ll" && Integer(t[..|t| - 1], v))
  }

  /** What `long(s)` takes: the same, with or without a letter L behind. */
  ghost predicate LongText(s: string, v: int) {
    exists t: string :: Padded(s, t) && LongInteger(t, v)
  }

  lemma StripOnly(s: string, t: string)
    requires Padded(s, t)
    ensures t == Strip(s)
  {
    StripMeans(s, t);
  }

  lemma IntMeans(s: string, v: int)
    ensures ParseInt(s) == Some(v) <==> IntText(s, v)
  {
    StripMeans(s, Strip(s));
    SignedMeans(Strip(s), v);
    if t: string :| Padded(s, t) && Integer(t, v) {
      StripOnly(s, t);
    }
  }

  lemma LongIntegerMeans(t: string, v: int)
    ensures ParseSigned(if t != [] && (t[|t| - 1] == 'L' || t[|t| - 1] == 'l') then t[..|t| - 1] else t) == Some(v)
       <==> LongInteger(t, v)
  {
    assert "Ll"[0] == 'L' && "Ll"[1] == 'l';
    SignedMeans(t, v);
    if t != [] {
      SignedMeans(t[..|t| - 1], v);
      NoLetterAtEnd(t, v);
    }
  }

  lemma LongMeans(s: string, v: int)
    ensures ParseLong(s) == Some(v) <==> LongText(s, v)
  {
    StripMeans(s, Strip(s));
    LongIntegerMeans(Strip(s), v);
    if t: string :| Padded(s, t) && LongInteger(t, v) {
      StripOnly(s, t);
    }
  }

  lemma NoLetterAtEnd(s: string, v: int)
    requires s != []
    ensures Integer(s, v) ==> '0' <= s[|s| - 1] <= '9'
  {
  }

  /** `'%d' % n`. */
  function Signed(n: int): (s: string)
    ensures s != [] && IsDigit(s[|s| - 1])
  {
    if n >= 0 then Decimal(n) else "-" + Decimal(-n)
  }

  /** A number with an optional sign. */
  function ParseSigned(s: string): Option<int> {
    if s != [] && (s[0] == '-' || s[0] == '+') then
      match ParseNat(s[1..])
      case Some(n) => Some(if s[0] == '-' then -(n as int) else n)
      case None => None
    else
      match ParseNat(s)
      case Some(n) => Some(n)
      case None => None
  }

  /** `int(s)`: white space around the number does not matter. */
  function ParseInt(s: string): Option<int> {
    ParseSigned(Strip(s))
  }

  /** `long(s)`: a letter L may follow. */
  function ParseLong(s: string): Option<int> {
    var t := Strip(s);
    ParseSigned(if t != [] && (t[|t| - 1] == 'L' || t[|t| - 1] == 'l') then t[..|t| - 1] else t)
  }

  lemma SignedBack(n: int)
    ensures ParseSigned(Signed(n)) == Some(n)
  {
    if n >= 0 {
      DecimalValue(n);
      assert IsDigit(Decimal(n)[0]);
    } else {
      DecimalValue(-n);
      assert ("-" + Decimal(-n))[1..] == Decimal(-n);
    }
  }

  /** The shortest numeral, behind a minus sign if the number is negative. */
  ghost predicate Printed(s: string, n: int) {
    if n >= 0 then Numeral(s, n) && (|s| == 1 || s[0] != '0')
    else s != [] && s[0] == '-' && Numeral(s[1..], -n) && (|s| == 2 || s[1] != '0')
  }

  lemma SignedPrinted(n: int)
    ensures Printed(Signed(n), n)
  {
    if n >= 0 {
      DecimalNumeral(n);
    } else {
      DecimalNumeral(-n);
      assert ("-" + Decimal(-n))[1..] == Decimal(-n);
    }
  }

  lemma SignedClean(n: int)
    ensures Strip(Signed(n)) == Signed(n)
  {
    assert Signed(n)[0] == '-' || IsDigit(Signed(n)[0]);
    StripIdle(Signed(n));
  }

  /** Both readers give back a printed number. */
  lemma NumberBack(n: nat)
    ensures ParseInt(Decimal(n)) == Some(n) && ParseLong(Decimal(n)) == Some(n)
  {
    SignedClean(n);
    SignedBack(n);
  }
}
