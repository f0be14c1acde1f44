/** Copyright years: a set of years printed as comma-separated ranges, and the parser for such lists. */
module YearRanges {
  import opened Basics
  import opened Text

  /** A printed range, both ends included. */
  datatype Run = Run(first: int, last: int)

  predicate In(y: int, r: Run) {
    r.first <= y <= r.last
  }

  function YearsOf(r: Run): set<int> {
    set y: int | r.first <= y <= r.last && In(y, r)
  }

  ghost predicate Ascending(s: seq<int>) {
    forall i, j :: 0 <= i < j < |s| ==> s[i] < s[j]
  }

  /** The ranges of an ascending list: a year that follows the last one extends its range. */
  function Runs(s: seq<int>): (r: seq<Run>)
    ensures s != [] ==> r != [] && r[|r| - 1].last == s[|s| - 1]
  {
    if s == [] then []
    else
      var x, before := s[|s| - 1], Runs(s[..|s| - 1]);
      if |s| > 1 && x == s[|s| - 2] + 1
      then before[..|before| - 1] + [Run(before[|before| - 1].first, x)]
      else before + [Run(x, x)]
  }

  function RunText(r: Run): string {
    if r.first == r.last then Signed(r.first) else Signed(r.first) + "-" + Signed(r.last)
  }

  function RunTexts(rs: seq<Run>): seq<string> {
    seq(|rs|, i requires 0 <= i < |rs| => RunText(rs[i]))
  }

  // ----- printing -----

  lemma HasMember(s: set<int>)
    requires s != {}
    ensures exists y :: y in s
  {
    if forall y :: y !in s {
      assert false;
    }
  }

  method Smallest(dates: set<int>) returns (m: int)
    requires dates != {}
    ensures m in dates && forall y :: y in dates ==> m <= y
  {
    HasMember(dates);
    m :| m in dates;
    var rest := dates - {m};
    while rest != {}
      invariant rest <= dates && m in dates && forall y :: y in dates && y !in rest ==> m <= y
      decreases |rest|
    {
      HasMember(rest);
      var y :| y in rest;
      if y < m {
        m := y;
      }
      rest := rest - {y};
    }
  }

  /** `list(dates)`, sorted. */
  method SortedList(dates: set<int>) returns (s: seq<int>)
    ensures Ascending(s) && forall y :: y in s <==> y in dates
  {
    s := [];
    var rest := dates;
    while rest != {}
      invariant rest <= dates && Ascending(s) && (forall y :: y in s <==> y in dates && y !in rest)
      invariant forall x, y :: x in s && y in rest ==> x < y
      decreases |rest|
    {
      var y := Smallest(rest);
      forall i | 0 <= i < |s|
        ensures s[i] < y
      {
        assert s[i] in s;
      }
      s := s + [y];
      rest := rest - {y};
    }
  }

  lemma RunsNext(done: seq<int>, next: int)
    requires done != []
    ensures var rs := Runs(done); var r := rs[|rs| - 1];
            Runs(done + [next]) == if next == r.last + 1 then rs[..|rs| - 1] + [Run(r.first, next)] else rs + [Run(next, next)]
  {
    assert (done + [next])[..|done|] == done;
  }

  lemma RunTextsLast(rs: seq<Run>)
    requires rs != []
    ensures RunTexts(rs) == RunTexts(rs[..|rs| - 1]) + [RunText(rs[|rs| - 1])]
  {
  }

  lemma RunTextsAppend(closed: seq<Run>, r: Run)
    ensures RunTexts(closed + [r]) == RunTexts(closed) + [RunText(r)]
  {
  }

  lemma NextRun(done: seq<int>, closed: seq<Run>, r: Run, next: int)
    requires done != [] && Runs(done) == closed + [r]
    ensures Runs(done + [next]) == if next == r.last + 1 then closed + [Run(r.first, next)] else closed + [r] + [Run(next, next)]
    ensures RunTexts(closed + [r]) == RunTexts(closed) + [RunText(r)]
  {
    RunsNext(done, next);
    assert (closed + [r])[..|closed|] == closed && (closed + [r])[|closed|] == r;
    RunTextsAppend(closed, r);
  }

  /** The ranges of the years taken so far: the closed ones are printed, `r` is open. */
  ghost predicate Open(done: seq<int>, closed: seq<Run>, r: Run, output: seq<string>) {
    done != [] && Runs(done) == closed + [r] && output == RunTexts(closed)
  }

  lemma OpenStart(y: int)
    ensures Open([y], [], Run(y, y), [])
  {
    assert [y][..0] == [];
  }

  lemma OpenNext(done: seq<int>, closed: seq<Run>, r: Run, output: seq<string>, next: int)
    requires Open(done, closed, r, output)
    ensures next == r.last + 1 ==> Open(done + [next], closed, Run(r.first, next), output)
    ensures next != r.last + 1 ==> Open(done + [next], closed + [r], Run(next, next), output + [RunText(r)])
  {
    NextRun(done, closed, r, next);
  }

  lemma OpenEnd(done: seq<int>, closed: seq<Run>, r: Run, output: seq<string>)
    requires Open(done, closed, r, output)
    ensures output + [RunText(r)] == RunTexts(Runs(done))
  {
    RunTextsAppend(closed, r);
  }

  /** The loop of `datestr`: years are popped from the front of the sorted list; a gap closes the range. */
  method Compress(sorted: seq<int>) returns (output: seq<string>)
    requires sorted != []
    ensures output == RunTexts(Runs(sorted))
  {
    output := [];
    var list := sorted[1..];
    var first, second := sorted[0], sorted[0];
    ghost var done, closed: seq<Run> := [sorted[0]], [];
    OpenStart(sorted[0]);
    while list != []
      invariant done + list == sorted && Open(done, closed, Run(first, second), output)
      decreases |list|
    {
      var next := list[0];
      list := list[1..];
      OpenNext(done, closed, Run(first, second), output, next);
      done := done + [next];
      if next == second + 1 {
        second := next;
      } else {
        output := output + [RunText(Run(first, second))];
        closed := closed + [Run(first, second)];
        first, second := next, next;
      }
    }
    assert done == sorted;
    OpenEnd(done, closed, Run(first, second), output);
    output := output + [RunText(Run(first, second))];
  }

  // ----- the printed ranges are the maximal runs -----

  ghost predicate Maximal(rs: seq<Run>, s: seq<int>) {
    Spaced(rs) && forall y: int :: y in s <==> InSome(y, rs)
  }

  ghost predicate InSome(y: int, rs: seq<Run>) {
    exists k :: 0 <= k < |rs| && In(y, rs[k])
  }

  lemma InSomeLast(y: int, rs: seq<Run>, r: Run)
    ensures InSome(y, rs + [r]) <==> InSome(y, rs) || In(y, r)
  {
    assert (rs + [r])[|rs|] == r;
    if InSome(y, rs) {
      var k :| 0 <= k < |rs| && In(y, rs[k]);
      assert In(y, (rs + [r])[k]);
    }
  }

  /** Range `k` is not empty and starts at least one year behind the end of the one before. */
  ghost predicate SpacedAt(rs: seq<Run>, k: nat)
    requires k < |rs|
  {
    rs[k].first <= rs[k].last && (k > 0 ==> rs[k - 1].last + 1 < rs[k].first)
  }

  ghost predicate Spaced(rs: seq<Run>) {
    forall k: nat :: k < |rs| ==> SpacedAt(rs, k)
  }

  lemma SpacedLast(rs: seq<Run>, r: Run)
    ensures Spaced(rs + [r]) <==> Spaced(rs) && r.first <= r.last && (rs != [] ==> rs[|rs| - 1].last + 1 < r.first)
  {
    var all := rs + [r];
    assert forall k: nat :: k < |rs| ==> (SpacedAt(all, k) <==> SpacedAt(rs, k));
    assert SpacedAt(all, |rs|) <==> r.first <= r.last && (rs != [] ==> rs[|rs| - 1].last + 1 < r.first);
  }

  lemma {:induction false} RunsSpaced(s: seq<int>)
    requires Ascending(s)
    ensures Spaced(Runs(s))
  {
    if |s| > 1 {
      var t, x := s[..|s| - 1], s[|s| - 1];
      RunsSpaced(t);
      assert s == t + [x];
      RunsNext(t, x);
      var rs := Runs(t);
      var rest, r := rs[..|rs| - 1], rs[|rs| - 1];
      assert rs == rest + [r];
      SpacedLast(rest, r);
      SpacedLast(rest, Run(r.first, x));
      SpacedLast(rs, Run(x, x));
    }
  }

  lemma CoverNext(t: seq<int>, x: int, y: int)
    requires t != [] && Spaced(Runs(t))
    ensures InSome(y, Runs(t + [x])) <==> InSome(y, Runs(t)) || y == x
  {
    RunsNext(t, x);
    var rs := Runs(t);
    var r, rest := rs[|rs| - 1], rs[..|rs| - 1];
    assert rs == rest + [r] && SpacedAt(rs, |rs| - 1);
    InSomeLast(y, rest, r);
    InSomeLast(y, rest, Run(r.first, x));
    InSomeLast(y, rs, Run(x, x));
  }

  lemma {:induction false} RunsCover(s: seq<int>, y: int)
    requires Ascending(s)
    ensures y in s <==> InSome(y, Runs(s))
  {
    if |s| == 1 {
      assert Runs(s) == [] + [Run(s[0], s[0])];
      InSomeLast(y, [], Run(s[0], s[0]));
    } else if |s| > 1 {
      var t, x := s[..|s| - 1], s[|s| - 1];
      RunsCover(t, y);
      RunsSpaced(t);
      assert s == t + [x];
      CoverNext(t, x, y);
    }
  }

  /** The printed ranges are not empty, increase with a gap of at least one year between two of them, and cover exactly
      the years of the list: they are its maximal runs. */
  lemma RunsMaximal(s: seq<int>)
    requires Ascending(s)
    ensures Maximal(Runs(s), s)
  {
    RunsSpaced(s);
    forall y: int
      ensures y in s <==> InSome(y, Runs(s))
    {
      RunsCover(s, y);
    }
  }

  lemma {:induction false} RunsApart(rs: seq<Run>, s: seq<int>, i: nat, j: nat)
    requires Maximal(rs, s) && i < j < |rs|
    ensures rs[i].last + 1 < rs[j].first
    decreases j
  {
    assert SpacedAt(rs, j) && SpacedAt(rs, j - 1);
    if i < j - 1 {
      RunsApart(rs, s, i, j - 1);
    }
  }

  /** A year next to a range is not in the list; two years in a row are in one range. */
  lemma RunsClosed(rs: seq<Run>, s: seq<int>, y: int)
    requires Maximal(rs, s) && y in s && y + 1 in s
    ensures exists k :: 0 <= k < |rs| && In(y, rs[k]) && In(y + 1, rs[k])
  {
    assert InSome(y, rs) && InSome(y + 1, rs);
    var i :| 0 <= i < |rs| && In(y, rs[i]);
    var j :| 0 <= j < |rs| && In(y + 1, rs[j]);
    if i < j {
      RunsApart(rs, s, i, j);
    } else if j < i {
      RunsApart(rs, s, j, i);
    }
  }

  // ----- parsing -----

  /** `([0-9]{4})\s*-\s*([0-9]{4})` at the start of the text; what follows does not matter. */
  function MatchRange(d: string): Option<Run> {
    if |d| >= 4 && AllDigits(d[..4]) then
      var tail := StripLeft(d[4..]);
      if tail != [] && tail[0] == '-' then
        var rest := StripLeft(tail[1..]);
        if |rest| >= 4 && AllDigits(rest[..4]) then Some(Run(Value(d[..4]), Value(rest[..4]))) else None
      else None
    else None
  }

  /** The years a piece stands for; a piece that is neither a range nor a number is skipped. */
  function PieceYears(d: string): set<int> {
    match MatchRange(d)
    case Some(r) => YearsOf(r)
    case None =>
      match ParseInt(d)
      case Some(n) => {n}
      case None => {}
  }

  function AllYears(pieces: seq<string>): set<int> {
    if pieces == [] then {} else AllYears(pieces[..|pieces| - 1]) + PieceYears(Strip(pieces[|pieces| - 1]))
  }

  // ----- what a piece stands for -----

  ghost predicate RangeParts(t: string, a: string, v: string, w: string, b: string, rest: string) {
    |a| == 4 && |b| == 4 && Blank(v) && Blank(w) && t == a + v + "-" + w + b + rest
  }

  /** Four digits, a hyphen that may have white space around it, four digits, and anything behind. */
  ghost predicate RangeText(t: string, f: nat, l: nat) {
    exists a: string, v: string, w: string, b: string, rest: string ::
      RangeParts(t, a, v, w, b, rest) && Numeral(a, f) && Numeral(b, l)
  }

  ghost predicate CleanStands(t: string, y: int) {
    if exists f: nat, l: nat :: RangeText(t, f, l) then exists f: nat, l: nat :: RangeText(t, f, l) && f <= y <= l
    else Integer(t, y)
  }

  /** Without the white space around it, the piece is a range with the year in it, or else the year itself. */
  ghost predicate Stands(piece: string, y: int) {
    exists t: string :: Padded(piece, t) && CleanStands(t, y)
  }

  ghost predicate StandIn(pieces: seq<string>, y: int) {
    exists k :: 0 <= k < |pieces| && Stands(pieces[k], y)
  }

  /** The years are those the pieces between the commas stand for. */
  ghost predicate ListsYears(text: string, years: set<int>) {
    exists pieces: seq<string> :: PiecesOf(text, ',', pieces) && forall y: int :: y in years <==> StandIn(pieces, y)
  }

  lemma Assemble(d: string, a: string, v: string, tail: string, w: string, inner: string, b: string, rest: string)
    requires d == a + (v + tail) && tail != [] && tail[0] == '-' && tail[1..] == w + inner && inner == b + rest
    ensures d == a + v + "-" + w + b + rest
  {
    assert tail == "-" + tail[1..];
  }

  lemma MatchedParts(d: string)
    requires MatchRange(d).Some?
    ensures MatchRange(d).value.first >= 0 && MatchRange(d).value.last >= 0
    ensures RangeText(d, MatchRange(d).value.first, MatchRange(d).value.last)
  {
    var a, tail := d[..4], StripLeft(d[4..]);
    var v := StripLeftRest(d[4..]);
    var inner := StripLeft(tail[1..]);
    var w := StripLeftRest(tail[1..]);
    var b, rest := inner[..4], inner[4..];
    Assemble(d, a, v, tail, w, inner, b, rest);
    assert RangeParts(d, a, v, w, b, rest);
    NumeralMeans(a, Value(a));
    NumeralMeans(b, Value(b));
  }

  lemma PartsMatched(d: string, a: string, v: string, w: string, b: string, rest: string, f: nat, l: nat)
    requires RangeParts(d, a, v, w, b, rest) && Numeral(a, f) && Numeral(b, l)
    ensures MatchRange(d) == Some(Run(f, l))
  {
    NumeralMeans(a, f);
    NumeralMeans(b, l);
    var inner := b + rest;
    var tail := "-" + (w + inner);
    assert d[..4] == a && d[4..] == v + tail;
    StripLeftOff(v, tail);
    assert tail[1..] == w + inner;
    assert IsDigit(b[0]) && inner[0] == b[0];
    StripLeftOff(w, inner);
    assert inner[..4] == b;
  }

  lemma MatchMeans(d: string, f: nat, l: nat)
    ensures MatchRange(d) == Some(Run(f, l)) <==> RangeText(d, f, l)
  {
    if MatchRange(d) == Some(Run(f, l)) {
      MatchedParts(d);
    }
    if RangeText(d, f, l) {
      var a: string, v: string, w: string, b: string, rest: string :|
        RangeParts(d, a, v, w, b, rest) && Numeral(a, f) && Numeral(b, l);
      PartsMatched(d, a, v, w, b, rest, f, l);
    }
  }

  lemma CleanMeansYears(t: string, y: int)
    requires Clean(t)
    ensures CleanStands(t, y) <==> y in PieceYears(t)
  {
    forall f: nat, l: nat
      ensures RangeText(t, f, l) <==> MatchRange(t) == Some(Run(f, l))
    {
      MatchMeans(t, f, l);
    }
    if MatchRange(t).Some? {
      MatchedParts(t);
    } else {
      CleanMeans(t);
      StripIdle(t);
      SignedMeans(t, y);
    }
  }

  lemma StandsMeans(piece: string, y: int)
    ensures Stands(piece, y) <==> y in PieceYears(Strip(piece))
  {
    StripMeans(piece, Strip(piece));
    CleanMeansYears(Strip(piece), y);
    forall t: string | Padded(piece, t)
      ensures t == Strip(piece)
    {
      StripMeans(piece, t);
    }
  }

  lemma {:induction false} AllYearsMean(pieces: seq<string>, y: int)
    ensures y in AllYears(pieces) <==> StandIn(pieces, y)
  {
    if pieces != [] {
      var n := |pieces| - 1;
      AllYearsMean(pieces[..n], y);
      StandsMeans(pieces[n], y);
      StandInLast(pieces, y);
    }
  }

  lemma StandInLast(pieces: seq<string>, y: int)
    requires pieces != []
    ensures StandIn(pieces, y) <==> StandIn(pieces[..|pieces| - 1], y) || Stands(pieces[|pieces| - 1], y)
  {
    var front := pieces[..|pieces| - 1];
    assert forall k :: 0 <= k < |front| ==> front[k] == pieces[k];
  }

  lemma YearsListed(text: string)
    ensures ListsYears(text, AllYears(Split(text, ',')))
  {
    var pieces := Split(text, ',');
    SplitMeans(text, ',', pieces);
    forall y: int
      ensures y in AllYears(pieces) <==> StandIn(pieces, y)
    {
      AllYearsMean(pieces, y);
    }
  }

  /** `process_dates`. */
  method ProcessDates(text: string) returns (output: set<int>)
    ensures ListsYears(text, output)
    ensures output == AllYears(Split(text, ','))
  {
    var dates := Split(text, ',');
    output := {};
    assert dates[..0] == [];
    for i := 0 to |dates|
      invariant output == AllYears(dates[..i])
    {
      assert dates[..i + 1][..i] == dates[..i];
      var date := Strip(dates[i]);
      var m := MatchRange(date);
      if m.Some? {
        var f, l := m.value.first, m.value.last;
        var before := output;
        var y := f;
        while y < l + 1
          invariant f <= y && (y <= l + 1 || y == f)
          invariant forall z: int :: z in output <==> z in before || (f <= z < y && z <= l)
        {
          output := output + {y};
          y := y + 1;
        }
        assert output == before + YearsOf(m.value);
      } else {
        var n := ParseInt(date);
        if n.Some? {
          output := output + {n.value};
        }
      }
    }
    assert dates[..|dates|] == dates;
    YearsListed(text);
  }

  // ----- one range read back -----

  lemma DecimalFourDigits(n: nat)
    ensures |Decimal(n)| <= 3 <==> n < 1000
    ensures |Decimal(n)| <= 4 <==> n < 10000
  {
    DecimalLength(n, 3);
    DecimalLength(n, 4);
    assert Pow10(1) == 10 && Pow10(2) == 100 && Pow10(3) == 1000 && Pow10(4) == 10000;
  }

  lemma SingleBack(n: int)
    ensures PieceYears(Signed(n)) == {n}
  {
    SignedBack(n);
    SignedClean(n);
    var d := Signed(n);
    if |d| >= 4 && AllDigits(d[..4]) {
      assert d[..4][0] == d[0];
      var tail := d[4..];
      assert tail != [] ==> IsDigit(tail[0]);
      assert StripLeft(tail) == tail;
    }
  }

  lemma {:induction false} FourDigitValue(s: string)
    requires AllDigits(s)
    ensures Value(s) < Pow10(|s|)
  {
    if s != [] {
      FourDigitValue(s[..|s| - 1]);
    }
  }

  /** What the pattern makes of a printed range. */
  lemma RangeMatched(r: Run)
    requires 0 <= r.first < r.last
    ensures |Decimal(r.first)| != 4 ==> MatchRange(RunText(r)) == None
    ensures |Decimal(r.first)| == 4 ==>
              |Decimal(r.last)| >= 4 && MatchRange(RunText(r)) == Some(Run(r.first, Value(Decimal(r.last)[..4])))
  {
    var f, l := Decimal(r.first), Decimal(r.last);
    var d := RunText(r);
    DecimalFourDigits(r.first);
    DecimalFourDigits(r.last);
    assert d == f + "-" + l;
    if |f| == 4 {
      assert d[..4] == f && d[4..] == "-" + l;
      assert StripLeft(d[4..]) == d[4..];
      assert d[4..][1..] == l && StripLeft(l) == l;
      DecimalValue(r.first);
    } else if |f| < 4 {
      assert d[|f|] == '-' && (|d| >= 4 ==> d[..4][|f|] == '-');
    } else {
      assert IsDigit(d[4]) && d[4..][0] == d[4];
      assert StripLeft(d[4..]) == d[4..];
    }
  }

  /** A printed range is not a number. */
  lemma RangeIsNoNumber(r: Run)
    requires r.first < r.last
    ensures ParseInt(RunText(r)) == None
  {
    var d, f := RunText(r), Signed(r.first);
    RunTextClean(r);
    assert d[|f|] == '-' && |f| > 0;
    if d[0] == '-' {
      assert |f| > 1 && d[1..][|f| - 1] == '-';
    }
  }

  lemma NegativeRange(r: Run)
    requires r.first < r.last && r.first < 0
    ensures PieceYears(RunText(r)) == {}
  {
    var d := RunText(r);
    RangeIsNoNumber(r);
    assert d[0] == '-' && (|d| >= 4 ==> d[..4][0] == '-');
  }

  /** A printed range is read back as itself exactly when it is a single year or has four digits at both ends; otherwise
      years of it are lost, and never is a year outside it added. */
  lemma RangeBack(r: Run)
    requires r.first <= r.last
    ensures PieceYears(RunText(r)) <= YearsOf(r)
    ensures PieceYears(RunText(r)) == YearsOf(r) <==> r.first == r.last || (1000 <= r.first && r.last <= 9999)
  {
    assert r.last in YearsOf(r);
    if r.first == r.last {
      SingleBack(r.first);
    } else if r.first < 0 {
      NegativeRange(r);
    } else {
      PositiveRange(r);
    }
  }

  lemma PositiveRange(r: Run)
    requires 0 <= r.first < r.last
    ensures PieceYears(RunText(r)) <= YearsOf(r)
    ensures PieceYears(RunText(r)) == YearsOf(r) <==> 1000 <= r.first && r.last <= 9999
  {
    RangeMatched(r);
    RangeIsNoNumber(r);
    DecimalFourDigits(r.first);
    DecimalFourDigits(r.last);
    var l := Decimal(r.last);
    assert r.last in YearsOf(r);
    if |Decimal(r.first)| == 4 {
      FourDigitValue(l[..4]);
      assert Pow10(1) == 10 && Pow10(2) == 100 && Pow10(3) == 1000 && Pow10(4) == 10000;
      if |l| == 4 {
        assert l[..4] == l;
        DecimalValue(r.last);
      }
    }
  }

  lemma RunTextClean(r: Run)
    ensures ',' !in RunText(r) && Strip(RunText(r)) == RunText(r)
  {
    var f, l := Signed(r.first), Signed(r.last);
    assert (IsDigit(f[0]) || f[0] == '-') && RunText(r)[0] == f[0];
    assert ',' !in f && ',' !in l;
    StripIdle(RunText(r));
  }

  // ----- the whole list read back -----

  /** What a caller can check: years in a row are all four-digit years. */
  ghost predicate FourDigitPairs(s: seq<int>) {
    forall y: int :: y in s && y + 1 in s ==> 1000 <= y && y + 1 <= 9999
  }

  predicate Kept(r: Run) {
    r.first == r.last || (1000 <= r.first && r.last <= 9999)
  }

  lemma {:induction false} TextsBack(rs: seq<Run>, y: int)
    requires Spaced(rs)
    ensures y in AllYears(RunTexts(rs)) <==> exists k :: 0 <= k < |rs| && y in PieceYears(RunText(rs[k]))
  {
    if rs != [] {
      var front, r := rs[..|rs| - 1], rs[|rs| - 1];
      assert rs == front + [r];
      SpacedLast(front, r);
      TextsBack(front, y);
      RunTextsLast(rs);
      RunTextClean(r);
      assert RunTexts(rs)[..|rs| - 1] == RunTexts(front);
      assert forall k :: 0 <= k < |front| ==> front[k] == rs[k];
      if y in PieceYears(RunText(r)) {
        assert y in PieceYears(RunText(rs[|rs| - 1]));
      }
    }
  }

  lemma SplitBack(rs: seq<Run>)
    requires rs != []
    ensures Split(Join(RunTexts(rs), ','), ',') == RunTexts(rs)
  {
    forall i | 0 <= i < |rs|
      ensures ',' !in RunTexts(rs)[i]
    {
      RunTextClean(rs[i]);
    }
    SplitJoin(RunTexts(rs), ',');
  }

  lemma PieceWithin(r: Run, y: int)
    requires r.first <= r.last && y in PieceYears(RunText(r))
    ensures In(y, r)
  {
    RangeBack(r);
    assert y in YearsOf(r);
  }

  lemma OneRange(rs: seq<Run>, s: seq<int>, j: nat, k: nat, y: int)
    requires Maximal(rs, s) && j < |rs| && k < |rs| && In(y, rs[j]) && In(y, rs[k])
    ensures j == k
  {
    if j < k {
      RunsApart(rs, s, j, k);
    } else if k < j {
      RunsApart(rs, s, k, j);
    }
  }

  /** A year of range `k` is read back exactly if the piece of that range gives it: no other piece can. */
  lemma OwnPieceOnly(rs: seq<Run>, s: seq<int>, k: nat, y: int)
    requires Maximal(rs, s) && k < |rs| && In(y, rs[k])
    ensures y in AllYears(RunTexts(rs)) <==> y in PieceYears(RunText(rs[k]))
  {
    TextsBack(rs, y);
    if j :| 0 <= j < |rs| && y in PieceYears(RunText(rs[j])) {
      assert SpacedAt(rs, j);
      PieceWithin(rs[j], y);
      OneRange(rs, s, j, k, y);
    }
  }

  lemma NothingAdded(rs: seq<Run>, s: seq<int>, y: int)
    requires Maximal(rs, s) && y in AllYears(RunTexts(rs))
    ensures y in s
  {
    TextsBack(rs, y);
    var j :| 0 <= j < |rs| && y in PieceYears(RunText(rs[j]));
    assert SpacedAt(rs, j);
    PieceWithin(rs[j], y);
    assert InSome(y, rs);
  }

  /** The four-digit condition on neighbouring years is the condition on ranges. */
  lemma PairsMeanKept(rs: seq<Run>, s: seq<int>)
    requires Maximal(rs, s)
    ensures FourDigitPairs(s) <==> forall k :: 0 <= k < |rs| ==> Kept(rs[k])
  {
    if FourDigitPairs(s) {
      forall k | 0 <= k < |rs|
        ensures Kept(rs[k])
      {
        var r := rs[k];
        assert SpacedAt(rs, k);
        if r.first < r.last {
          assert In(r.first, r) && In(r.first + 1, r) && In(r.last - 1, r) && In(r.last, r);
          assert InSome(r.first, rs) && InSome(r.first + 1, rs) && InSome(r.last - 1, rs) && InSome(r.last, rs);
          assert (r.last - 1) + 1 == r.last;
        }
      }
    }
    if forall k :: 0 <= k < |rs| ==> Kept(rs[k]) {
      forall y: int | y in s && y + 1 in s
        ensures 1000 <= y && y + 1 <= 9999
      {
        RunsClosed(rs, s, y);
        var k :| 0 <= k < |rs| && In(y, rs[k]) && In(y + 1, rs[k]);
        assert Kept(rs[k]);
      }
    }
  }

  /** Every year comes back exactly when every range is one the pattern can read. */
  lemma AllBackIffKept(rs: seq<Run>, s: seq<int>)
    requires Maximal(rs, s)
    ensures (forall y: int :: y in s ==> y in AllYears(RunTexts(rs))) <==> forall k :: 0 <= k < |rs| ==> Kept(rs[k])
  {
    if forall k :: 0 <= k < |rs| ==> Kept(rs[k]) {
      forall y: int | y in s
        ensures y in AllYears(RunTexts(rs))
      {
        assert InSome(y, rs);
        var k :| 0 <= k < |rs| && In(y, rs[k]);
        OwnPieceOnly(rs, s, k, y);
        assert SpacedAt(rs, k) && Kept(rs[k]);
        RangeBack(rs[k]);
        assert y in YearsOf(rs[k]);
      }
    }
    if forall y: int :: y in s ==> y in AllYears(RunTexts(rs)) {
      forall k | 0 <= k < |rs|
        ensures Kept(rs[k])
      {
        assert SpacedAt(rs, k);
        RangeBack(rs[k]);
        forall y | y in YearsOf(rs[k])
          ensures y in PieceYears(RunText(rs[k]))
        {
          assert InSome(y, rs);
          OwnPieceOnly(rs, s, k, y);
        }
        assert PieceYears(RunText(rs[k])) == YearsOf(rs[k]);
      }
    }
  }

  /** Round trip: parsing the printed ranges gives back the set of years exactly when years in a row are all four-digit
      years; whatever the years, none is added. */
  lemma YearsRoundTrip(s: seq<int>)
    requires Ascending(s) && s != []
    ensures var back := AllYears(Split(Join(RunTexts(Runs(s)), ','), ','));
            && (forall y :: y in back ==> y in s)
            && ((forall y: int :: y in s ==> y in back) <==> FourDigitPairs(s))
  {
    var rs := Runs(s);
    RunsMaximal(s);
    SplitBack(rs);
    forall y | y in AllYears(RunTexts(rs))
      ensures y in s
    {
      NothingAdded(rs, s, y);
    }
    AllBackIffKept(rs, s);
    PairsMeanKept(rs, s);
  }

  /** One year, or the first and the last year with a hyphen between them. */
  ghost predicate PrintsRun(piece: string, r: Run) {
    if r.first == r.last then Printed(piece, r.first)
    else exists a: string, b: string :: Printed(a, r.first) && Printed(b, r.last) && piece == a + "-" + b
  }

  ghost predicate PrintsRuns(text: string, pieces: seq<string>, rs: seq<Run>) {
    PiecesOf(text, ',', pieces) && |pieces| == |rs| && forall k :: 0 <= k < |rs| ==> PrintsRun(pieces[k], rs[k])
  }

  /** The text lists, between commas, ranges with gaps between them, in increasing order, that cover exactly the set of
      years. */
  ghost predicate ListsRuns(text: string, dates: set<int>) {
    exists rs: seq<Run>, pieces: seq<string> :: Spaced(rs) && CoverExactly(rs, dates) && PrintsRuns(text, pieces, rs)
  }

  lemma RunTextPrints(r: Run)
    ensures PrintsRun(RunText(r), r)
  {
    SignedPrinted(r.first);
    SignedPrinted(r.last);
  }

  lemma RunTextsPrint(rs: seq<Run>)
    requires rs != []
    ensures PrintsRuns(Join(RunTexts(rs), ','), RunTexts(rs), rs)
  {
    forall k | 0 <= k < |rs|
      ensures ',' !in RunTexts(rs)[k] && PrintsRun(RunTexts(rs)[k], rs[k])
    {
      RunTextClean(rs[k]);
      RunTextPrints(rs[k]);
    }
  }

  ghost predicate CoverExactly(rs: seq<Run>, dates: set<int>) {
    forall y: int :: y in dates <==> InSome(y, rs)
  }

  ghost predicate FourDigitNeighbours(dates: set<int>) {
    forall y: int :: y in dates && y + 1 in dates ==> 1000 <= y && y + 1 <= 9999
  }

  /** `datestr`, with what `process_dates` makes of its result; there is nothing to pop from an empty list. */
  method DateStr(dates: set<int>) returns (text: Option<string>)
    ensures text.None? <==> dates == {}
    ensures text.Some? ==> ListsRuns(text.value, dates) && AllYears(Split(text.value, ',')) <= dates
    ensures text.Some? ==> (AllYears(Split(text.value, ',')) == dates <==> FourDigitNeighbours(dates))
  {
    var sorted := SortedList(dates);
    EmptyAlike(dates, sorted);
    if sorted == [] {
      return None;
    }
    var output := Compress(sorted);
    text := Some(Join(output, ','));
    DateStrResult(dates, sorted);
  }

  lemma EmptyAlike(dates: set<int>, sorted: seq<int>)
    requires forall y :: y in sorted <==> y in dates
    ensures sorted == [] <==> dates == {}
  {
    if |sorted| > 0 {
      var y := sorted[0];
      assert y in sorted && y in dates;
    } else if dates != {} {
      HasMember(dates);
    }
  }

  lemma SubsetByMember(a: set<int>, b: set<int>)
    ensures a <= b <==> forall y :: y in a ==> y in b
  {
    if a - b == {} {
      assert a == a * b + (a - b);
    } else {
      HasMember(a - b);
    }
  }

  lemma DateStrResult(dates: set<int>, sorted: seq<int>)
    requires Ascending(sorted) && sorted != [] && forall y :: y in sorted <==> y in dates
    ensures var text := Join(RunTexts(Runs(sorted)), ',');
            && ListsRuns(text, dates) && AllYears(Split(text, ',')) <= dates
            && (AllYears(Split(text, ',')) == dates <==> FourDigitNeighbours(dates))
  {
    RunsMaximal(sorted);
    assert CoverExactly(Runs(sorted), dates);
    RunTextsPrint(Runs(sorted));
    YearsRoundTrip(sorted);
    var back := AllYears(Split(Join(RunTexts(Runs(sorted)), ','), ','));
    SubsetByMember(back, dates);
    SubsetByMember(dates, back);
    assert FourDigitNeighbours(dates) <==> FourDigitPairs(sorted);
  }
}
