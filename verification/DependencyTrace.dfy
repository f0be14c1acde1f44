/** The ASCII form of instruction dependency records: the printer, the parser, and when the parser gives back what
    was printed. */
module DependencyTrace {
  import opened Basics
  import opened Text

  const LIMIT32: nat := 0x1_0000_0000
  const LIMIT64: nat := 0x1_0000_0000_0000_0000

  type uint32 = x: nat | x < LIMIT32
  type uint64 = x: nat | x < LIMIT64

  datatype RecordType = INVALID | LOAD | STORE | COMP

  /** `InstDepRecord` of the protocol definition. */
  datatype Record = Record(
    seqNum: uint64, kind: RecordType, pAddr: Option<uint64>, size: Option<uint32>, flags: Option<uint32>,
    robDep: seq<uint64>, compDelay: uint64, regDep: seq<uint64>, weight: Option<uint32>, pc: Option<uint64>,
    vAddr: Option<uint64>, asid: Option<uint32>)

  datatype Result<+T> = Ok(value: T) | Error

  function TypeName(t: RecordType): string {
    match t
    case INVALID => "INVALID"
    case LOAD => "LOAD"
    case STORE => "STORE"
    case COMP => "COMP"
  }

  function TypeOf(name: string): Option<RecordType> {
    if name == "INVALID" then Some(INVALID)
    else if name == "LOAD" then Some(LOAD)
    else if name == "STORE" then Some(STORE)
    else if name == "COMP" then Some(COMP)
    else None
  }

  // ----- the printer -----

  function Optional(x: Option<nat>): seq<string> {
    match x
    case Some(n) => [Decimal(n)]
    case None => []
  }

  function OrDefault(x: Option<nat>, default: nat): nat {
    match x
    case Some(n) => n
    case None => default
  }

  /** The comma-separated fields of a line. */
  function Fields(r: Record): seq<string> {
    [Decimal(r.seqNum), Decimal(OrDefault(r.pc, 0)), Decimal(OrDefault(r.weight, 1)), TypeName(r.kind)]
    + Optional(r.pAddr) + Optional(r.size) + Optional(r.flags) + [Decimal(r.compDelay)]
  }

  /** A dependency list: each number behind a comma. */
  function DepText(deps: seq<uint64>): string {
    if deps == [] then "" else DepText(deps[..|deps| - 1]) + "," + Decimal(deps[|deps| - 1])
  }

  function LineText(r: Record): string {
    Join(Fields(r), ',') + ":" + DepText(r.robDep) + ":" + DepText(r.regDep)
  }

  function TraceText(rs: seq<Record>): string {
    if rs == [] then "" else TraceText(rs[..|rs| - 1]) + LineText(rs[|rs| - 1]) + "\n"
  }

  lemma {:induction false} JoinAppend(parts: seq<string>, last: string, c: char)
    requires parts != []
    ensures Join(parts + [last], c) == Join(parts, c) + [c] + last
  {
    if |parts| > 1 {
      assert (parts + [last])[1..] == parts[1..] + [last];
      JoinAppend(parts[1..], last, c);
    } else {
      assert (parts + [last])[1..] == [last];
    }
  }

  method WriteOptional(text: string, x: Option<nat>, ghost fields: seq<string>) returns (r: string)
    requires fields != [] && text == Join(fields, ',')
    ensures r == Join(fields + Optional(x), ',')
  {
    r := text;
    match x {
      case Some(n) =>
        JoinAppend(fields, Decimal(n), ',');
        r := r + "," + Decimal(n);
      case None =>
        assert fields + [] == fields;
    }
  }

  method WriteDeps(text: string, deps: seq<uint64>) returns (r: string)
    ensures r == text + DepText(deps)
  {
    r := text;
    assert deps[..0] == [];
    for i := 0 to |deps|
      invariant r == text + DepText(deps[..i])
    {
      assert deps[..i + 1][..i] == deps[..i];
      r := r + "," + Decimal(deps[i]);
    }
    assert deps[..|deps|] == deps;
  }

  /** The body of the decoder's loop: one record appended to the output, field by field. */
  method WriteRecord(out: string, r: Record) returns (text: string)
    ensures text == out + LineText(r) + "\n"
  {
    var line := Decimal(r.seqNum);
    ghost var fields := [Decimal(r.seqNum)];
    JoinAppend(fields, Decimal(OrDefault(r.pc, 0)), ',');
    line := line + "," + if r.pc.Some? then Decimal(r.pc.value) else "0";
    assert Decimal(0) == "0" && Decimal(1) == "1";
    fields := fields + [Decimal(OrDefault(r.pc, 0))];
    JoinAppend(fields, Decimal(OrDefault(r.weight, 1)), ',');
    line := line + "," + if r.weight.Some? then Decimal(r.weight.value) else "1";
    fields := fields + [Decimal(OrDefault(r.weight, 1))];
    JoinAppend(fields, TypeName(r.kind), ',');
    line := line + "," + TypeName(r.kind);
    fields := fields + [TypeName(r.kind)];
    line := WriteOptional(line, r.pAddr, fields);
    line := WriteOptional(line, r.size, fields + Optional(r.pAddr));
    line := WriteOptional(line, r.flags, fields + Optional(r.pAddr) + Optional(r.size));
    JoinAppend(fields + Optional(r.pAddr) + Optional(r.size) + Optional(r.flags), Decimal(r.compDelay), ',');
    line := line + "," + Decimal(r.compDelay);
    assert fields + Optional(r.pAddr) + Optional(r.size) + Optional(r.flags) + [Decimal(r.compDelay)] == Fields(r);
    assert line == Join(Fields(r), ',');
    line := WriteDeps(line + ":", r.robDep);
    line := WriteDeps(line + ":", r.regDep);
    assert line == LineText(r);
    text := out + line + "\n";
  }

  // ----- the parser -----

  /** A field takes a number only if it fits. */
  function Fitting(n: Option<int>, limit: nat): Option<nat> {
    if n.Some? && 0 <= n.value < limit then Some(n.value) else None
  }

  /** A field set to `long(s)`. */
  function LongField(s: string, limit: nat): Option<nat> {
    Fitting(ParseLong(s), limit)
  }

  /** A field set to `int(s)`. */
  function IntField(s: string, limit: nat): Option<nat> {
    Fitting(ParseInt(s), limit)
  }

  lemma FieldBack(n: nat, limit: nat)
    requires n < limit
    ensures LongField(Decimal(n), limit) == Some(n) && IntField(Decimal(n), limit) == Some(n)
  {
    NumberBack(n);
  }

  /** Dependencies: empty pieces are skipped. */
  function ParseDeps(parts: seq<string>): Option<seq<uint64>> {
    if parts == [] then Some([])
    else
      match ParseDeps(parts[..|parts| - 1])
      case None => None
      case Some(deps) =>
        var last := parts[|parts| - 1];
        if last == "" then Some(deps)
        else match LongField(last, LIMIT64)
             case Some(n) => Some(deps + [n])
             case None => None
  }

  /** What the first four fields say; INVALID is refused. */
  function Head(seqNum: Option<uint64>, pc: Option<uint64>, weight: Option<uint32>, kind: Option<RecordType>): Option<Record> {
    if seqNum.Some? && pc.Some? && weight.Some? && kind.Some? && kind.value != INVALID
    then Some(Record(seqNum.value, kind.value, None, None, None, [], 0, [], weight, pc, None, None))
    else None
  }

  /** The four fields of a memory record that follow. */
  function MemoryRecord(
    h: Record, pAddr: Option<uint64>, size: Option<uint32>, flags: Option<uint32>, delay: Option<uint64>): Result<Record>
  {
    if pAddr.Some? && size.Some? && flags.Some? && delay.Some?
    then Ok(h.(pAddr := pAddr, size := size, flags := flags, compDelay := delay.value))
    else Error
  }

  function ComputationRecord(h: Record, delay: Option<uint64>): Result<Record> {
    if delay.Some? then Ok(h.(compDelay := delay.value)) else Error
  }

  /** The first four fields as parsed. */
  function HeadOf(f: seq<string>): Option<Record>
    requires |f| >= 4
  {
    Head(LongField(f[0], LIMIT64), LongField(f[1], LIMIT64), LongField(f[2], LIMIT32), TypeOf(f[3]))
  }

  /** The fields in front of the first colon. */
  function ParseInfo(f: seq<string>): Result<Record> {
    if |f| < 4 then Error
    else
      match HeadOf(f)
      case None => Error
      case Some(h) =>
        if h.kind == LOAD || h.kind == STORE then
          if |f| < 8 then Error
          else MemoryRecord(
                 h, LongField(f[4], LIMIT64), IntField(f[5], LIMIT32), IntField(f[6], LIMIT32), LongField(f[7], LIMIT64))
        else if |f| < 5 then Error
        else ComputationRecord(h, LongField(f[4], LIMIT64))
  }

  /** The three parts of a line: fields, order dependencies, register dependencies. */
  function ParseParts(fields: seq<string>, rob: string, reg: string): Result<Record> {
    match ParseInfo(fields)
    case Error => Error
    case Ok(r) =>
      match (ParseDeps(Split(rob, ',')), ParseDeps(Split(reg, ',')))
      case (Some(robDep), Some(regDep)) => Ok(r.(robDep := robDep, regDep := regDep))
      case _ => Error
  }

  function ParseLine(line: string): Result<Record> {
    var parts := Split(Strip(line), ':');
    if |parts| != 3 then Error
    else
      ParseParts(Split(parts[0], ','), Strip(parts[1]), parts[2])
  }

  /** The lines of a file: a last piece counts only if it is not empty. */
  function Lines(text: string): seq<string> {
    var pieces := Split(text, '\n');
    if pieces[|pieces| - 1] == "" then pieces[..|pieces| - 1] else pieces
  }

  /** All the results, or the first error. */
  function Collect<T>(results: seq<Result<T>>): Result<seq<T>> {
    if results == [] then Ok([])
    else
      match (Collect(results[..|results| - 1]), results[|results| - 1])
      case (Ok(values), Ok(v)) => Ok(values + [v])
      case _ => Error
  }

  function Parsed(lines: seq<string>): seq<Result<Record>> {
    seq(|lines|, i requires 0 <= i < |lines| => ParseLine(lines[i]))
  }

  function ParseLines(lines: seq<string>): Result<seq<Record>> {
    Collect(Parsed(lines))
  }

  lemma CollectLast<T>(results: seq<Result<T>>, r: Result<T>)
    ensures Collect(results + [r]) == match (Collect(results), r)
                                      case (Ok(values), Ok(v)) => Ok(values + [v])
                                      case _ => Error
  {
    assert (results + [r])[..|results|] == results;
  }

  lemma CollectNext<T>(results: seq<Result<T>>, i: nat)
    requires i < |results| && Collect(results[..i]).Ok?
    ensures results[i].Ok? ==> Collect(results[..i + 1]) == Ok(Collect(results[..i]).value + [results[i].value])
    ensures results[i].Error? ==> Collect(results) == Error
  {
    CollectLast(results[..i], results[i]);
    assert results[..i] + [results[i]] == results[..i + 1];
    if results[i].Error? {
      CollectFails(results[..i + 1], results[i + 1..]);
      assert results[..i + 1] + results[i + 1..] == results;
    }
  }

  lemma {:induction false} CollectFails<T>(front: seq<Result<T>>, back: seq<Result<T>>)
    requires Collect(front) == Error
    ensures Collect(front + back) == Error
  {
    if back == [] {
      assert front + back == front;
    } else {
      CollectFails(front, back[..|back| - 1]);
      CollectLast(front + back[..|back| - 1], back[|back| - 1]);
      assert front + back == front + back[..|back| - 1] + [back[|back| - 1]];
    }
  }

  // ----- the round trip -----

  predicate Plain(c: char) {
    IsDigit(c) || 'A' <= c <= 'Z'
  }

  ghost predicate PlainText(s: string) {
    s != [] && forall i :: 0 <= i < |s| ==> Plain(s[i])
  }

  lemma FieldsPlain(r: Record)
    ensures forall i :: 0 <= i < |Fields(r)| ==> PlainText(Fields(r)[i])
  {
    assert PlainText(TypeName(r.kind)) by {
      match r.kind
      case INVALID =>
      case LOAD =>
      case STORE =>
      case COMP =>
    }
  }

  /** Joined fields hold nothing but fields and commas, and are as clean at the ends as the fields. */
  lemma {:induction false} JoinPlain(parts: seq<string>)
    requires parts != [] && forall i :: 0 <= i < |parts| ==> PlainText(parts[i])
    ensures var s := Join(parts, ','); s != [] && Plain(s[0]) && forall i :: 0 <= i < |s| ==> Plain(s[i]) || s[i] == ','
  {
    if |parts| > 1 {
      assert PlainText(parts[0]);
      forall i | 0 <= i < |parts[1..]|
        ensures PlainText(parts[1..][i])
      {
        assert PlainText(parts[i + 1]);
      }
      JoinPlain(parts[1..]);
    } else {
      assert PlainText(parts[0]);
    }
  }

  /** A dependency list is the join of its numbers behind an empty first piece. */
  function DepParts(deps: seq<uint64>): seq<string> {
    if deps == [] then [""] else DepParts(deps[..|deps| - 1]) + [Decimal(deps[|deps| - 1])]
  }

  lemma {:induction false} DepTextJoined(deps: seq<uint64>)
    ensures DepText(deps) == Join(DepParts(deps), ',')
    ensures forall i :: 0 <= i < |DepParts(deps)| ==> AllDigits(DepParts(deps)[i])
  {
    if deps != [] {
      DepTextJoined(deps[..|deps| - 1]);
      JoinAppend(DepParts(deps[..|deps| - 1]), Decimal(deps[|deps| - 1]), ',');
    }
  }

  lemma {:induction false} DepTextClean(deps: seq<uint64>)
    ensures forall i :: 0 <= i < |DepText(deps)| ==> IsDigit(DepText(deps)[i]) || DepText(deps)[i] == ','
  {
    if deps != [] {
      DepTextClean(deps[..|deps| - 1]);
    }
  }

  lemma {:induction false} DepPartsBack(deps: seq<uint64>)
    ensures ParseDeps(DepParts(deps)) == Some(deps)
  {
    if deps != [] {
      var front, last := deps[..|deps| - 1], deps[|deps| - 1];
      DepPartsBack(front);
      FieldBack(last, LIMIT64);
      assert DepParts(deps)[..|DepParts(deps)| - 1] == DepParts(front);
      assert deps == front + [last];
    } else {
      assert [""][..0] == [];
    }
  }

  /** A dependency list of any length is read back, the empty one included. */
  lemma DepsBack(deps: seq<uint64>)
    ensures Strip(DepText(deps)) == DepText(deps)
    ensures ParseDeps(Split(DepText(deps), ',')) == Some(deps)
  {
    DepTextClean(deps);
    StripIdle(DepText(deps));
    DepTextJoined(deps);
    var parts := DepParts(deps);
    forall i | 0 <= i < |parts|
      ensures ',' !in parts[i]
    {
      assert AllDigits(parts[i]);
    }
    SplitJoin(parts, ',');
    DepPartsBack(deps);
  }

  predicate InLine(c: char) {
    Plain(c) || c == ',' || c == ':'
  }

  lemma LineClean(r: Record)
    ensures LineText(r) != [] && forall i :: 0 <= i < |LineText(r)| ==> InLine(LineText(r)[i])
  {
    FieldsPlain(r);
    JoinPlain(Fields(r));
    DepTextClean(r.robDep);
    DepTextClean(r.regDep);
  }

  lemma LineSplit(r: Record)
    ensures Split(Strip(LineText(r)), ':') == [Join(Fields(r), ','), DepText(r.robDep), DepText(r.regDep)]
  {
    LineClean(r);
    StripIdle(LineText(r));
    var info := Join(Fields(r), ',');
    var parts := [info, DepText(r.robDep), DepText(r.regDep)];
    FieldsPlain(r);
    JoinPlain(Fields(r));
    DepTextClean(r.robDep);
    DepTextClean(r.regDep);
    assert ':' !in info && ':' !in parts[1] && ':' !in parts[2];
    assert parts[1..] == [parts[1], parts[2]] && parts[1..][1..] == [parts[2]];
    assert Join(parts[1..], ':') == parts[1] + [':'] + parts[2];
    assert LineText(r) == Join(parts, ':');
    SplitJoin(parts, ':');
  }

  lemma FieldsSplit(r: Record)
    ensures Split(Join(Fields(r), ','), ',') == Fields(r)
  {
    FieldsPlain(r);
    forall i | 0 <= i < |Fields(r)|
      ensures ',' !in Fields(r)[i]
    {
      assert PlainText(Fields(r)[i]);
    }
    SplitJoin(Fields(r), ',');
  }

  lemma TypeNameBack(t: RecordType)
    ensures TypeOf(TypeName(t)) == Some(t)
  {
    assert "INVALID"[0] == 'I' && "LOAD"[0] == 'L' && "STORE"[0] == 'S' && "COMP"[0] == 'C';
  }

  predicate HasAddress(r: Record) {
    r.pAddr.Some? && r.size.Some? && r.flags.Some?
  }

  /** What the line format can carry: memory records have all of address, size and flags, computation records none;
      there is no place for a virtual address or an address space. */
  predicate WellFormed(r: Record) {
    && r.kind != INVALID
    && (r.kind == LOAD || r.kind == STORE ==> HasAddress(r))
    && (r.kind == COMP ==> r.pAddr.None? && r.size.None? && r.flags.None?)
    && r.vAddr.None? && r.asid.None?
  }

  /** The record with its optional program counter and weight filled in. */
  function Filled(r: Record): Record {
    r.(pc := Some(OrDefault(r.pc, 0)), weight := Some(OrDefault(r.weight, 1)))
  }

  function Bare(r: Record): Record {
    Filled(r).(robDep := [], regDep := [], vAddr := None, asid := None)
  }

  lemma HeadNumbers(r: Record)
    ensures var f := Fields(r);
            && LongField(f[0], LIMIT64) == Some(r.seqNum) && LongField(f[1], LIMIT64) == Some(OrDefault(r.pc, 0))
            && LongField(f[2], LIMIT32) == Some(OrDefault(r.weight, 1)) && TypeOf(f[3]) == Some(r.kind)
  {
    FieldBack(r.seqNum, LIMIT64);
    FieldBack(OrDefault(r.pc, 0), LIMIT64);
    FieldBack(OrDefault(r.weight, 1), LIMIT32);
    TypeNameBack(r.kind);
  }

  function Present(r: Record): nat {
    |Optional(r.pAddr)| + |Optional(r.size)| + |Optional(r.flags)|
  }

  /** The record with nothing but what the first four fields say. */
  function HeadOnly(r: Record): Record {
    r.(pAddr := None, size := None, flags := None, robDep := [], compDelay := 0, regDep := [])
  }

  lemma HeadBack(r: Record)
    ensures HeadOf(Fields(r)) == if r.kind == INVALID then None else Some(HeadOnly(Bare(r)))
  {
    HeadNumbers(r);
  }

  lemma MemoryInfo(f: seq<string>, h: Record, pAddr: uint64, size: uint32, flags: uint32, delay: uint64)
    requires |f| >= 8 && HeadOf(f) == Some(h) && (h.kind == LOAD || h.kind == STORE)
    requires LongField(f[4], LIMIT64) == Some(pAddr) && IntField(f[5], LIMIT32) == Some(size)
    requires IntField(f[6], LIMIT32) == Some(flags) && LongField(f[7], LIMIT64) == Some(delay)
    ensures ParseInfo(f) == Ok(h.(pAddr := Some(pAddr), size := Some(size), flags := Some(flags), compDelay := delay))
  {
  }

  /** Reading the fields back: exactly what the printer left out is lost, or the line is refused. */
  lemma InfoMemory(r: Record)
    requires r.kind == LOAD || r.kind == STORE
    ensures ParseInfo(Fields(r)) == if HasAddress(r) then Ok(Bare(r)) else Error
  {
    HeadBack(r);
    var f := Fields(r);
    assert |f| == 5 + Present(r);
    if HasAddress(r) {
      assert f[4] == Decimal(r.pAddr.value) && f[5] == Decimal(r.size.value) && f[6] == Decimal(r.flags.value)
             && f[7] == Decimal(r.compDelay);
      FieldBack(r.pAddr.value, LIMIT64);
      FieldBack(r.size.value, LIMIT32);
      FieldBack(r.flags.value, LIMIT32);
      FieldBack(r.compDelay, LIMIT64);
      MemoryInfo(f, HeadOnly(Bare(r)), r.pAddr.value, r.size.value, r.flags.value, r.compDelay);
    }
  }

  lemma ComputationInfo(f: seq<string>, h: Record)
    requires |f| >= 5 && HeadOf(f) == Some(h) && h.kind == COMP
    ensures ParseInfo(f) == ComputationRecord(h, LongField(f[4], LIMIT64))
  {
  }

  lemma InfoComputation(r: Record)
    requires r.kind == COMP
    ensures Present(r) == 0 ==> ParseInfo(Fields(r)) == Ok(Bare(r))
    ensures ParseInfo(Fields(r)).Ok? ==>
              var v := ParseInfo(Fields(r)).value; v.pAddr.None? && v.size.None? && v.flags.None?
  {
    HeadBack(r);
    ComputationInfo(Fields(r), HeadOnly(Bare(r)));
    if Present(r) == 0 {
      assert Fields(r)[4] == Decimal(r.compDelay);
      FieldBack(r.compDelay, LIMIT64);
    }
  }

  lemma ParsedLine(r: Record)
    ensures ParseLine(LineText(r)) == match ParseInfo(Fields(r))
                                      case Ok(v) => Ok(v.(robDep := r.robDep, regDep := r.regDep))
                                      case Error => Error
  {
    LineSplit(r);
    FieldsSplit(r);
    DepsBack(r.robDep);
    DepsBack(r.regDep);
  }

  /** A printed record is read back, with the absent program counter as 0 and the absent weight as 1, exactly when it
      is well formed. */
  lemma LineRoundTrip(r: Record)
    ensures ParseLine(LineText(r)) == Ok(Filled(r)) <==> WellFormed(r)
  {
    ParsedLine(r);
    match r.kind {
      case INVALID => HeadNumbers(r);
      case LOAD => InfoMemory(r);
      case STORE => InfoMemory(r);
      case COMP => InfoComputation(r);
    }
    InfoHasNoExtras(Fields(r));
  }

  lemma InfoHasNoExtras(f: seq<string>)
    ensures ParseInfo(f).Ok? ==> ParseInfo(f).value.vAddr.None? && ParseInfo(f).value.asid.None?
  {
  }

  // ----- whole files -----

  function LineTexts(rs: seq<Record>): seq<string> {
    seq(|rs|, i requires 0 <= i < |rs| => LineText(rs[i]))
  }

  function FilledAll(rs: seq<Record>): seq<Record> {
    seq(|rs|, i requires 0 <= i < |rs| => Filled(rs[i]))
  }

  lemma {:induction false} TraceJoined(rs: seq<Record>)
    ensures TraceText(rs) == Join(LineTexts(rs) + [""], '\n')
  {
    if rs == [] {
      assert LineTexts(rs) + [""] == [""];
    } else {
      var front, last := rs[..|rs| - 1], rs[|rs| - 1];
      TraceJoined(front);
      LineTextsLast(rs);
      JoinLast(LineTexts(front), LineText(last));
    }
  }

  lemma LineTextsLast(rs: seq<Record>)
    requires rs != []
    ensures LineTexts(rs) == LineTexts(rs[..|rs| - 1]) + [LineText(rs[|rs| - 1])]
  {
  }

  lemma {:induction false} JoinLast(lines: seq<string>, last: string)
    ensures Join(lines + [last] + [""], '\n') == Join(lines + [""], '\n') + last + "\n"
  {
    if lines == [] {
      assert lines + [last] + [""] == [last, ""] && [last, ""][1..] == [""];
      assert lines + [""] == [""];
    } else {
      assert (lines + [last] + [""])[1..] == lines[1..] + [last] + [""];
      assert (lines + [""])[1..] == lines[1..] + [""];
      JoinLast(lines[1..], last);
    }
  }

  lemma TraceLines(rs: seq<Record>)
    ensures Lines(TraceText(rs)) == LineTexts(rs)
  {
    TraceJoined(rs);
    var parts := LineTexts(rs) + [""];
    forall i | 0 <= i < |parts|
      ensures '\n' !in parts[i]
    {
      if i < |rs| {
        NoNewline(rs[i]);
      }
    }
    SplitJoin(parts, '\n');
    assert parts[|parts| - 1] == "" && parts[..|parts| - 1] == LineTexts(rs);
  }

  lemma NoNewline(r: Record)
    ensures '\n' !in LineText(r)
  {
    LineClean(r);
  }

  ghost predicate AllWellFormed(rs: seq<Record>) {
    forall i :: 0 <= i < |rs| ==> WellFormed(rs[i])
  }

  lemma CollectOk<T>(results: seq<Result<T>>, r: Result<T>, values: seq<T>, v: T)
    ensures Collect(results + [r]) == Ok(values + [v]) <==> Collect(results) == Ok(values) && r == Ok(v)
  {
    CollectLast(results, r);
    if Collect(results + [r]) == Ok(values + [v]) {
      var us, u := Collect(results).value, r.value;
      assert us == (us + [u])[..|us|] && values == (values + [v])[..|values|] && u == (us + [u])[|us|];
    }
  }

  lemma LinesStep(front: seq<Record>, last: Record)
    ensures ParseLines(LineTexts(front + [last])) == Ok(FilledAll(front + [last]))
       <==> ParseLines(LineTexts(front)) == Ok(FilledAll(front)) && ParseLine(LineText(last)) == Ok(Filled(last))
  {
    assert Parsed(LineTexts(front + [last])) == Parsed(LineTexts(front)) + [ParseLine(LineText(last))];
    assert FilledAll(front + [last]) == FilledAll(front) + [Filled(last)];
    CollectOk(Parsed(LineTexts(front)), ParseLine(LineText(last)), FilledAll(front), Filled(last));
  }

  lemma WellFormedStep(front: seq<Record>, last: Record)
    ensures AllWellFormed(front + [last]) <==> AllWellFormed(front) && WellFormed(last)
  {
    assert (front + [last])[|front|] == last;
    assert forall i :: 0 <= i < |front| ==> (front + [last])[i] == front[i];
  }

  lemma {:induction false} LinesRoundTrip(rs: seq<Record>)
    ensures ParseLines(LineTexts(rs)) == Ok(FilledAll(rs)) <==> AllWellFormed(rs)
  {
    if rs == [] {
      assert LineTexts(rs) == [] && FilledAll(rs) == [];
    } else {
      var front, last := rs[..|rs| - 1], rs[|rs| - 1];
      assert rs == front + [last];
      LinesRoundTrip(front);
      LineRoundTrip(last);
      LinesStep(front, last);
      WellFormedStep(front, last);
    }
  }

  /** Printing any list of records and parsing the text gives back the records, filled in, exactly when all of them are
      well formed. */
  lemma TraceRoundTrip(rs: seq<Record>)
    ensures ParseLines(Lines(TraceText(rs))) == Ok(FilledAll(rs)) <==> AllWellFormed(rs)
  {
    TraceLines(rs);
    LinesRoundTrip(rs);
  }

  // ----- the printed text in the format's terms -----

  ghost function Name(t: RecordType): string {
    match t
    case INVALID => "INVALID"
    case LOAD => "LOAD"
    case STORE => "STORE"
    case COMP => "COMP"
  }

  ghost function Given(x: Option<nat>): string {
    if x.Some? then "," + Decimal(x.value) else ""
  }

  ghost function Listed(deps: seq<uint64>): string {
    if deps == [] then "" else Listed(deps[..|deps| - 1]) + "," + Decimal(deps[|deps| - 1])
  }

  /** seq_num,pc,weight,type,[p_addr,][size,][flags,]comp_delay:[,rob_dep]:[,reg_dep] with 0 for an absent program counter
      and 1 for an absent weight. */
  ghost function RecordLine(r: Record): string {
    Decimal(r.seqNum)
    + "," + (if r.pc.Some? then Decimal(r.pc.value) else "0")
    + "," + (if r.weight.Some? then Decimal(r.weight.value) else "1")
    + "," + Name(r.kind)
    + Given(r.pAddr) + Given(r.size) + Given(r.flags)
    + "," + Decimal(r.compDelay)
    + ":" + Listed(r.robDep)
    + ":" + Listed(r.regDep)
  }

  /** A line for each record, with a line end behind each. */
  ghost predicate PrintsRecords(text: string, rs: seq<Record>) {
    exists lines: seq<string> ::
      |lines| == |rs| && PiecesOf(text, '\n', lines + [""]) && forall i :: 0 <= i < |rs| ==> lines[i] == RecordLine(rs[i])
  }

  lemma {:induction false} DepTextListed(deps: seq<uint64>)
    ensures DepText(deps) == Listed(deps)
  {
    if deps != [] {
      DepTextListed(deps[..|deps| - 1]);
    }
  }

  lemma JoinGiven(fields: seq<string>, x: Option<nat>)
    requires fields != []
    ensures Join(fields + Optional(x), ',') == Join(fields, ',') + Given(x)
  {
    if x.Some? {
      JoinAppend(fields, Decimal(x.value), ',');
    } else {
      assert fields + Optional(x) == fields;
    }
  }

  lemma HeadText(r: Record, head: seq<string>)
    requires head == [Decimal(r.seqNum), Decimal(OrDefault(r.pc, 0)), Decimal(OrDefault(r.weight, 1)), TypeName(r.kind)]
    ensures Join(head, ',') == Decimal(r.seqNum) + "," + (if r.pc.Some? then Decimal(r.pc.value) else "0")
                               + "," + (if r.weight.Some? then Decimal(r.weight.value) else "1") + "," + Name(r.kind)
  {
    assert Decimal(0) == "0" && Decimal(1) == "1" && Name(r.kind) == TypeName(r.kind);
    JoinAppend(head[..1], head[1], ',');
    JoinAppend(head[..2], head[2], ',');
    JoinAppend(head[..3], head[3], ',');
    assert head[..1] + [head[1]] == head[..2] && head[..2] + [head[2]] == head[..3] && head[..3] + [head[3]] == head;
  }

  lemma LineIsRecordLine(r: Record)
    ensures LineText(r) == RecordLine(r)
  {
    var head := [Decimal(r.seqNum), Decimal(OrDefault(r.pc, 0)), Decimal(OrDefault(r.weight, 1)), TypeName(r.kind)];
    HeadText(r, head);
    JoinGiven(head, r.pAddr);
    var more := head + Optional(r.pAddr);
    JoinGiven(more, r.size);
    JoinGiven(more + Optional(r.size), r.flags);
    JoinAppend(more + Optional(r.size) + Optional(r.flags), Decimal(r.compDelay), ',');
    DepTextListed(r.robDep);
    DepTextListed(r.regDep);
  }

  lemma TracePrints(rs: seq<Record>)
    ensures PrintsRecords(TraceText(rs), rs)
  {
    var lines := LineTexts(rs);
    TraceJoined(rs);
    forall i | 0 <= i < |lines|
      ensures '\n' !in lines[i] && lines[i] == RecordLine(rs[i])
    {
      NoNewline(rs[i]);
      LineIsRecordLine(rs[i]);
    }
    assert PiecesOf(TraceText(rs), '\n', lines + [""]);
  }

  method PrintTrace(rs: seq<Record>) returns (text: string)
    ensures PrintsRecords(text, rs)
    ensures text == TraceText(rs)
  {
    text := "";
    assert rs[..0] == [];
    for i := 0 to |rs|
      invariant text == TraceText(rs[..i])
    {
      assert rs[..i + 1][..i] == rs[..i];
      text := WriteRecord(text, rs[i]);
    }
    assert rs[..|rs|] == rs;
    TracePrints(rs);
  }

  // ----- the text that is read in the format's terms -----

  /** The pieces that are not empty are the numbers, in order. */
  ghost predicate Numbers(parts: seq<string>, deps: seq<uint64>) {
    if parts == [] then deps == []
    else
      var k, n := |parts| - 1, |deps| - 1;
      if parts[k] == "" then Numbers(parts[..k], deps)
      else deps != [] && LongText(parts[k], deps[n]) && Numbers(parts[..k], deps[..n])
  }

  ghost predicate DepsAre(text: string, deps: seq<uint64>) {
    exists parts: seq<string> :: PiecesOf(text, ',', parts) && Numbers(parts, deps)
  }

  ghost predicate HeadIs(f: seq<string>, r: Record) {
    && |f| >= 5 && LongText(f[0], r.seqNum) && r.pc.Some? && LongText(f[1], r.pc.value)
    && r.weight.Some? && LongText(f[2], r.weight.value)
    && f[3] in ["LOAD", "STORE", "COMP"] && f[3] == Name(r.kind) && r.vAddr.None? && r.asid.None?
  }

  /** The four fields behind the type of a memory record. */
  ghost predicate MemoryFields(f: seq<string>, r: Record)
    requires |f| >= 8
  {
    && r.pAddr.Some? && LongText(f[4], r.pAddr.value) && r.size.Some? && IntText(f[5], r.size.value)
    && r.flags.Some? && IntText(f[6], r.flags.value) && LongText(f[7], r.compDelay)
  }

  /** Memory records have address, size and flags in front of the delay, computation records the delay alone; what
      follows does not matter. */
  ghost predicate InfoIs(f: seq<string>, r: Record) {
    && HeadIs(f, r)
    && if f[3] == "COMP" then r.pAddr.None? && r.size.None? && r.flags.None? && LongText(f[4], r.compDelay)
       else |f| >= 8 && MemoryFields(f, r)
  }

  ghost predicate PartsAre(core: string, parts: seq<string>, fields: seq<string>, rob: string) {
    && PiecesOf(core, ':', parts) && |parts| == 3 && PiecesOf(parts[0], ',', fields) && Padded(parts[1], rob)
  }

  /** The line, white space at its ends aside, has three parts: the fields and the two lists. */
  ghost predicate RecordOf(line: string, r: Record) {
    exists core: string, parts: seq<string>, fields: seq<string>, rob: string ::
      && Padded(line, core) && PartsAre(core, parts, fields, rob)
      && InfoIs(fields, r) && DepsAre(rob, r.robDep) && DepsAre(parts[2], r.regDep)
  }

  /** The lines of a file: behind the last line end there is a line only if there is text. */
  ghost predicate LinesOf(text: string, lines: seq<string>) {
    PiecesOf(text, '\n', lines + [""]) || (PiecesOf(text, '\n', lines) && lines[|lines| - 1] != "")
  }

  ghost predicate NoRecord(line: string) {
    forall r: Record :: !RecordOf(line, r)
  }

  ghost predicate RecordsOf(lines: seq<string>, r: Result<seq<Record>>) {
    match r
    case Ok(rs) => |rs| == |lines| && forall i :: 0 <= i < |lines| ==> RecordOf(lines[i], rs[i])
    case Error => exists i :: 0 <= i < |lines| && NoRecord(lines[i])
  }

  ghost predicate ReadsTrace(text: string, r: Result<seq<Record>>) {
    exists lines: seq<string> :: LinesOf(text, lines) && RecordsOf(lines, r)
  }

  lemma LongFieldMeans(s: string, limit: nat, n: nat)
    requires n < limit
    ensures LongField(s, limit) == Some(n) <==> LongText(s, n)
  {
    LongMeans(s, n);
  }

  lemma IntFieldMeans(s: string, limit: nat, n: nat)
    requires n < limit
    ensures IntField(s, limit) == Some(n) <==> IntText(s, n)
  {
    IntMeans(s, n);
  }

  lemma {:induction false} NumbersMean(parts: seq<string>, deps: seq<uint64>)
    ensures ParseDeps(parts) == Some(deps) <==> Numbers(parts, deps)
  {
    if parts != [] {
      var k := |parts| - 1;
      if parts[k] == "" {
        NumbersMean(parts[..k], deps);
      } else if deps != [] {
        var n := |deps| - 1;
        NumbersMean(parts[..k], deps[..n]);
        LongFieldMeans(parts[k], LIMIT64, deps[n]);
        assert deps == deps[..n] + [deps[n]];
        NumbersLast(parts, deps);
      }
    }
  }

  lemma AppendEqual(front: seq<uint64>, last: uint64, deps: seq<uint64>)
    requires deps != []
    ensures front + [last] == deps <==> front == deps[..|deps| - 1] && last == deps[|deps| - 1]
  {
    var all := front + [last];
    assert all[..|all| - 1] == front && all[|all| - 1] == last;
    assert deps == deps[..|deps| - 1] + [deps[|deps| - 1]];
  }

  lemma NumbersLast(parts: seq<string>, deps: seq<uint64>)
    requires parts != [] && deps != [] && parts[|parts| - 1] != ""
    ensures ParseDeps(parts) == Some(deps)
       <==> ParseDeps(parts[..|parts| - 1]) == Some(deps[..|deps| - 1])
            && LongField(parts[|parts| - 1], LIMIT64) == Some(deps[|deps| - 1])
  {
    var front, last := ParseDeps(parts[..|parts| - 1]), LongField(parts[|parts| - 1], LIMIT64);
    if front.Some? && last.Some? {
      AppendEqual(front.value, last.value, deps);
    }
  }

  lemma DepsMean(text: string, deps: seq<uint64>)
    ensures ParseDeps(Split(text, ',')) == Some(deps) <==> DepsAre(text, deps)
  {
    SplitMeans(text, ',', Split(text, ','));
    NumbersMean(Split(text, ','), deps);
    forall parts: seq<string> | PiecesOf(text, ',', parts)
      ensures parts == Split(text, ',')
    {
      SplitMeans(text, ',', parts);
    }
  }

  lemma TypeMeans(name: string, t: RecordType)
    ensures TypeOf(name) == Some(t) <==> name == Name(t)
  {
    assert "INVALID"[0] == 'I' && "LOAD"[0] == 'L' && "STORE"[0] == 'S' && "COMP"[0] == 'C';
  }

  lemma HeadExact(a: Option<uint64>, b: Option<uint64>, c: Option<uint32>, k: Option<RecordType>, h: Record)
    requires HeadOnly(h) == h
    ensures Head(a, b, c, k) == Some(h) <==>
            && a == Some(h.seqNum) && b.Some? && h.pc == b && c.Some? && h.weight == c
            && k == Some(h.kind) && h.kind != INVALID && h.vAddr.None? && h.asid.None?
  {
  }

  lemma NameAllowed(name: string, t: RecordType)
    requires name == Name(t)
    ensures name in ["LOAD", "STORE", "COMP"] <==> t != INVALID
    ensures name == "COMP" <==> t == COMP
  {
    assert "INVALID"[0] == 'I' && "LOAD"[0] == 'L' && "STORE"[0] == 'S' && "COMP"[0] == 'C';
    var all := ["LOAD", "STORE", "COMP"];
    assert all[0] == "LOAD" && all[1] == "STORE" && all[2] == "COMP";
  }

  lemma HeadMeans(f: seq<string>, r: Record)
    requires |f| >= 5
    ensures HeadOf(f) == Some(HeadOnly(r)) <==> HeadIs(f, r)
  {
    HeadExact(LongField(f[0], LIMIT64), LongField(f[1], LIMIT64), LongField(f[2], LIMIT32), TypeOf(f[3]), HeadOnly(r));
    LongFieldMeans(f[0], LIMIT64, r.seqNum);
    if r.pc.Some? {
      LongFieldMeans(f[1], LIMIT64, r.pc.value);
    }
    if r.weight.Some? {
      LongFieldMeans(f[2], LIMIT32, r.weight.value);
    }
    TypeMeans(f[3], r.kind);
    if f[3] == Name(r.kind) {
      NameAllowed(f[3], r.kind);
    }
  }

  lemma MemoryExact(h: Record, p: Option<uint64>, s: Option<uint32>, g: Option<uint32>, d: Option<uint64>, r: Record)
    requires HeadOnly(h) == h && r.robDep == [] && r.regDep == []
    ensures MemoryRecord(h, p, s, g, d) == Ok(r)
       <==> && h == HeadOnly(r) && p.Some? && r.pAddr == p && s.Some? && r.size == s
            && g.Some? && r.flags == g && d == Some(r.compDelay)
  {
  }

  lemma MemoryMeans(f: seq<string>, h: Record, r: Record)
    requires |f| >= 8 && HeadOnly(h) == h && r.robDep == [] && r.regDep == []
    ensures var m := MemoryRecord(
                       h, LongField(f[4], LIMIT64), IntField(f[5], LIMIT32), IntField(f[6], LIMIT32), LongField(f[7], LIMIT64));
            m == Ok(r) <==> h == HeadOnly(r) && MemoryFields(f, r)
  {
    MemoryExact(
      h, LongField(f[4], LIMIT64), IntField(f[5], LIMIT32), IntField(f[6], LIMIT32), LongField(f[7], LIMIT64), r);
    if r.pAddr.Some? {
      LongFieldMeans(f[4], LIMIT64, r.pAddr.value);
    }
    if r.size.Some? {
      IntFieldMeans(f[5], LIMIT32, r.size.value);
    }
    if r.flags.Some? {
      IntFieldMeans(f[6], LIMIT32, r.flags.value);
    }
    LongFieldMeans(f[7], LIMIT64, r.compDelay);
  }

  lemma ComputationMeans(f: seq<string>, h: Record, r: Record)
    requires |f| >= 5 && HeadOnly(h) == h && r.robDep == [] && r.regDep == []
    ensures ComputationRecord(h, LongField(f[4], LIMIT64)) == Ok(r)
       <==> h == HeadOnly(r) && r.pAddr.None? && r.size.None? && r.flags.None? && LongText(f[4], r.compDelay)
  {
    LongFieldMeans(f[4], LIMIT64, r.compDelay);
  }

  lemma HeadIsBare(a: Option<uint64>, b: Option<uint64>, c: Option<uint32>, k: Option<RecordType>)
    ensures Head(a, b, c, k).Some? ==>
              var h := Head(a, b, c, k).value; HeadOnly(h) == h && (h.kind == LOAD || h.kind == STORE || h.kind == COMP)
  {
  }

  /** The cases of the parser, with the parsed head as a value. */
  lemma InfoCases(f: seq<string>, r: Record)
    requires r.robDep == [] && r.regDep == [] && |f| >= 5
    ensures ParseInfo(f) == Ok(r) <==>
            && HeadOf(f) == Some(HeadOnly(r))
            && if r.kind == COMP then r.pAddr.None? && r.size.None? && r.flags.None? && LongText(f[4], r.compDelay)
               else |f| >= 8 && MemoryFields(f, r)
  {
    HeadIsBare(LongField(f[0], LIMIT64), LongField(f[1], LIMIT64), LongField(f[2], LIMIT32), TypeOf(f[3]));
    if HeadOf(f).Some? {
      var h := HeadOf(f).value;
      ComputationMeans(f, h, r);
      if |f| >= 8 {
        MemoryMeans(f, h, r);
      }
    }
  }

  lemma InfoMeans(f: seq<string>, r: Record)
    requires r.robDep == [] && r.regDep == []
    ensures ParseInfo(f) == Ok(r) <==> InfoIs(f, r)
  {
    if |f| >= 5 {
      InfoCases(f, r);
      HeadMeans(f, r);
      if f[3] == Name(r.kind) {
        NameAllowed(f[3], r.kind);
      }
    }
  }

  lemma LineMeans(line: string, r: Record)
    ensures ParseLine(line) == Ok(r) <==> RecordOf(line, r)
  {
    var core := Strip(line);
    var parts := Split(core, ':');
    if |parts| == 3 {
      var fields, rob := Split(parts[0], ','), Strip(parts[1]);
      StripMeans(line, core);
      SplitMeans(core, ':', parts);
      SplitMeans(parts[0], ',', fields);
      StripMeans(parts[1], rob);
      assert PartsAre(core, parts, fields, rob);
      PartsMean(core, parts, fields, rob, r);
    }
    if RecordOf(line, r) {
      var c: string, ps: seq<string>, fs: seq<string>, rb: string :|
        && Padded(line, c) && PartsAre(c, ps, fs, rb)
        && InfoIs(fs, r) && DepsAre(rb, r.robDep) && DepsAre(ps[2], r.regDep);
      StripMeans(line, c);
      PartsUnique(c, ps, fs, rb);
      PartsMean(c, ps, fs, rb, r);
    }
  }

  lemma PartsUnique(core: string, parts: seq<string>, fields: seq<string>, rob: string)
    requires PartsAre(core, parts, fields, rob)
    ensures parts == Split(core, ':') && fields == Split(parts[0], ',') && rob == Strip(parts[1])
  {
    SplitMeans(core, ':', parts);
    SplitMeans(parts[0], ',', fields);
    StripMeans(parts[1], rob);
  }

  lemma PartsMean(core: string, parts: seq<string>, fields: seq<string>, rob: string, r: Record)
    requires PartsAre(core, parts, fields, rob)
    ensures ParseParts(fields, rob, parts[2]) == Ok(r)
       <==> InfoIs(fields, r) && DepsAre(rob, r.robDep) && DepsAre(parts[2], r.regDep)
  {
    var bare := r.(robDep := [], regDep := []);
    InfoMeans(fields, bare);
    InfoBare(fields);
    assert InfoIs(fields, bare) <==> InfoIs(fields, r);
    DepsMean(rob, r.robDep);
    DepsMean(parts[2], r.regDep);
  }

  lemma InfoBare(f: seq<string>)
    ensures ParseInfo(f).Ok? ==> ParseInfo(f).value.robDep == [] && ParseInfo(f).value.regDep == []
  {
  }

  lemma LinesMean(text: string)
    ensures LinesOf(text, Lines(text))
  {
    var pieces := Split(text, '\n');
    SplitMeans(text, '\n', pieces);
    var k := |pieces| - 1;
    assert pieces == pieces[..k] + [pieces[k]];
  }

  lemma {:induction false} CollectMeans<T>(results: seq<Result<T>>)
    ensures match Collect(results)
            case Ok(values) => |values| == |results| && forall i :: 0 <= i < |results| ==> results[i] == Ok(values[i])
            case Error => exists i :: 0 <= i < |results| && results[i].Error?
  {
    if results != [] {
      CollectMeans(results[..|results| - 1]);
    }
  }

  /** The result says what the line says. */
  ghost predicate Agrees(line: string, result: Result<Record>) {
    match result
    case Ok(r) => RecordOf(line, r)
    case Error => NoRecord(line)
  }

  lemma LineAgrees(line: string)
    ensures Agrees(line, ParseLine(line))
  {
    forall r: Record
      ensures ParseLine(line) == Ok(r) <==> RecordOf(line, r)
    {
      LineMeans(line, r);
    }
  }

  lemma RecordsRead(lines: seq<string>, results: seq<Result<Record>>)
    requires |results| == |lines| && forall i :: 0 <= i < |lines| ==> Agrees(lines[i], results[i])
    ensures RecordsOf(lines, Collect(results))
  {
    CollectMeans(results);
    if Collect(results).Error? {
      var i :| 0 <= i < |results| && results[i].Error?;
      assert Agrees(lines[i], results[i]);
    } else {
      forall i | 0 <= i < |lines|
        ensures RecordOf(lines[i], Collect(results).value[i])
      {
        assert Agrees(lines[i], results[i]);
      }
    }
  }

  lemma TraceRead(text: string)
    ensures ReadsTrace(text, ParseLines(Lines(text)))
  {
    var lines := Lines(text);
    LinesMean(text);
    forall i | 0 <= i < |lines|
      ensures Agrees(lines[i], Parsed(lines)[i])
    {
      LineAgrees(lines[i]);
    }
    RecordsRead(lines, Parsed(lines));
  }

  method ParseTrace(text: string) returns (r: Result<seq<Record>>)
    ensures ReadsTrace(text, r)
    ensures r == ParseLines(Lines(text))
  {
    var lines := Lines(text);
    TraceRead(text);
    ghost var results := Parsed(lines);
    var rs := [];
    assert results[..0] == [];
    for i := 0 to |lines|
      invariant Collect(results[..i]) == Ok(rs)
    {
      CollectNext(results, i);
      var next := ParseLine(lines[i]);
      if next.Error? {
        return Error;
      }
      rs := rs + [next.value];
    }
    assert results[..|lines|] == results;
    return Ok(rs);
  }
}
