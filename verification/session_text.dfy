// The text the session files are written in: records on lines, fields separated by blanks, strings in quotes.
module SessionText {
  import opened Basics
  import opened UnitText

  // ---- scanning one field off the front of a line ----

  datatype Scanned<+T> = Bad | Good(value: T, rest: string) {
    predicate IsFailure() { Bad? }
    function PropagateFailure<U>(): Scanned<U>
      requires Bad?
    { Bad }
    function Extract(): (T, string)
      requires Good?
    { (value, rest) }
  }

  const MAX_U32: nat := 0xFFFF_FFFF
  const MAX_U64: nat := 0xFFFF_FFFF_FFFF_FFFF

  predicate IsSpace(c: char) { c == ' ' || '\t' <= c <= '\r' }
  predicate IsDigit(c: char) { '0' <= c <= '9' }

  function SkipSpace(s: string): string {
    if s != "" && IsSpace(s[0]) then SkipSpace(s[1..]) else s
  }

  // Whether nothing but blanks is left.
  predicate Finished(s: string) { SkipSpace(s) == "" }

  // Reads digits as long as there are any, continuing a number begun as `value`.
  function ScanDigits(s: string, value: nat): (nat, string) {
    if s != "" && IsDigit(s[0]) then ScanDigits(s[1..], 10 * value + (s[0] - '0') as nat) else (value, s)
  }

  // A decimal number with an optional sign: whether it is negative, and its digits.
  function ScanNumber(s: string): Scanned<(bool, nat)> {
    var t := SkipSpace(s);
    var negative := t != "" && t[0] == '-';
    var u := if t != "" && (t[0] == '-' || t[0] == '+') then t[1..] else t;
    if u == "" || !IsDigit(u[0]) then Bad
    else
      var (value, rest) := ScanDigits(u, 0);
      Good((negative, value), rest)
  }

  // A negative number wraps around, as strtoull has it; one too large fails.
  function ScanUnsigned(s: string, maximum: nat): Scanned<nat> {
    var (number, rest) :- ScanNumber(s);
    if number.1 > maximum then Bad
    else Good(if number.0 && number.1 != 0 then maximum + 1 - number.1 else number.1, rest)
  }

  function ScanBool(s: string): Scanned<bool> {
    var (number, rest) :- ScanNumber(s);
    if number.1 == 0 then Good(false, rest) else if number == (false, 1) then Good(true, rest) else Bad
  }

  function ScanChar(s: string): Scanned<char> {
    var t := SkipSpace(s);
    if t == "" then Bad else Good(t[0], t[1..])
  }

  function WordEnd(s: string): (k: nat)
    ensures k <= |s|
  {
    if s != "" && !IsSpace(s[0]) then 1 + WordEnd(s[1..]) else 0
  }

  function ScanWord(s: string): Scanned<string> {
    var t := SkipSpace(s);
    if t == "" then Bad else Good(t[..WordEnd(t)], t[WordEnd(t)..])
  }

  // What follows an opening quote, up to the closing one; a backslash makes the next character literal.
  function Unquote(s: string): Scanned<string> {
    if s == "" then Bad
    else if s[0] == '"' then Good("", s[1..])
    else if s[0] == '\\' then
      if |s| == 1 then Bad
      else
        var (tail, rest) :- Unquote(s[2..]);
        Good([s[1]] + tail, rest)
    else
      var (tail, rest) :- Unquote(s[1..]);
      Good([s[0]] + tail, rest)
  }

  function ScanQuoted(s: string): Scanned<string> {
    var t := SkipSpace(s);
    if t == "" then Bad else if t[0] == '"' then Unquote(t[1..]) else ScanWord(t)
  }

  // ---- printing fields ----

  function DigitChar(n: nat): char
    requires n < 10
  {
    '0' + n as char
  }

  function NatText(n: nat): string {
    if n < 10 then [DigitChar(n)] else NatText(n / 10) + [DigitChar(n % 10)]
  }

  function BoolText(b: bool): string { if b then "1" else "0" }

  function Escape(s: string): string {
    if s == "" then ""
    else (if s[0] == '"' || s[0] == '\\' then ['\\', s[0]] else [s[0]]) + Escape(s[1..])
  }

  function Quoted(s: string): string { ['"'] + Escape(s) + ['"'] }

  // A field after a blank, and the rest of the line.
  function Field(text: string, rest: string): string { [' '] + text + rest }

  // Where one field ends the next blank begins, or the line is over.
  predicate FieldEnd(rest: string) { rest == "" || rest[0] == ' ' }

  // ---- reals ----

  // How finite doubles are printed and scanned. Nothing here depends on the format, only on its being faithful.
  datatype RealCodec = RealCodec(format: real -> string, scan: string -> Scanned<real>)

  ghost predicate Faithful(codec: RealCodec, r: real) {
    WellFormed(codec.format(r)) && '\n' !in codec.format(r) && forall rest :: FieldEnd(rest) ==> codec.scan(Field(codec.format(r), rest)) == Good(r, rest)
  }

  // ---- fields scan back ----

  lemma {:induction false} DigitsScanBack(n: nat, rest: string)
    ensures ScanDigits(NatText(n) + rest, 0) == ScanDigits(rest, n)
    ensures IsDigit((NatText(n) + rest)[0])
  {
    var d := DigitChar(n % 10);
    assert ([d] + rest)[1..] == rest;
    if n < 10 {
      assert NatText(n) + rest == [d] + rest;
    } else {
      DigitsScanBack(n / 10, [d] + rest);
      assert NatText(n) + rest == NatText(n / 10) + ([d] + rest);
    }
  }

  lemma FieldStart(text: string, rest: string)
    requires text != "" && !IsSpace(text[0])
    ensures SkipSpace(Field(text, rest)) == text + rest
  {
    assert Field(text, rest)[1..] == text + rest;
  }

  lemma NumberScansBack(n: nat, rest: string)
    requires FieldEnd(rest)
    ensures ScanNumber(Field(NatText(n), rest)) == Good((false, n), rest)
  {
    hide SkipSpace, NatText, Field;
    NatTextStarts(n);
    FieldStart(NatText(n), rest);
    DigitsScanBack(n, rest);
  }

  lemma NatScansBack(n: nat, rest: string, maximum: nat)
    requires n <= maximum && FieldEnd(rest)
    ensures ScanUnsigned(Field(NatText(n), rest), maximum) == Good(n, rest)
  {
    hide ScanNumber;
    NumberScansBack(n, rest);
  }

  lemma NatTextStarts(n: nat)
    ensures NatText(n) != "" && IsDigit(NatText(n)[0])
  {
    DigitsScanBack(n, "");
    assert NatText(n) + "" == NatText(n);
  }

  lemma BoolScansBack(b: bool, rest: string)
    requires FieldEnd(rest)
    ensures ScanBool(Field(BoolText(b), rest)) == Good(b, rest)
  {
    hide ScanNumber, Field;
    NumberScansBack(if b then 1 else 0, rest);
    assert BoolText(b) == NatText(if b then 1 else 0);
  }

  lemma UnquoteEnd(rest: string)
    ensures Unquote(['"'] + rest) == Good("", rest)
  {
    assert (['"'] + rest)[1..] == rest;
  }

  lemma {:induction false} UnquoteNext(c: char, tail: string)
    ensures Unquote((if c == '"' || c == '\\' then ['\\', c] else [c]) + tail) ==
            match Unquote(tail) case Bad => Bad case Good(v, rest) => Good([c] + v, rest)
  {
    assert (['\\', c] + tail)[2..] == tail && ([c] + tail)[1..] == tail;
  }

  lemma {:induction false} EscapedScansBack(s: string, rest: string)
    ensures Unquote(Escape(s) + ['"'] + rest) == Good(s, rest)
  {
    hide Unquote;
    if s == "" {
      UnquoteEnd(rest);
      assert Escape(s) + ['"'] + rest == ['"'] + rest;
    } else {
      EscapedScansBack(s[1..], rest);
      var tail := Escape(s[1..]) + ['"'] + rest;
      UnquoteNext(s[0], tail);
      var first := if s[0] == '"' || s[0] == '\\' then ['\\', s[0]] else [s[0]];
      assert Escape(s) + ['"'] + rest == first + tail;
      assert s == [s[0]] + s[1..];
    }
  }

  lemma QuotedScansBack(s: string, rest: string)
    ensures ScanQuoted(Field(Quoted(s), rest)) == Good(s, rest)
  {
    hide SkipSpace, Escape, Unquote, Field;
    FieldStart(Quoted(s), rest);
    EscapedScansBack(s, rest);
    assert (Quoted(s) + rest)[1..] == Escape(s) + ['"'] + rest;
  }

  lemma {:induction false} WordScansBack(word: string, rest: string)
    requires word != "" && (forall c :: c in word ==> !IsSpace(c)) && FieldEnd(rest)
    ensures ScanWord(word + rest) == Good(word, rest)
  {
    WordEndsThere(word, rest);
    assert !IsSpace(word[0]);
    assert (word + rest)[..|word|] == word && (word + rest)[|word|..] == rest;
  }

  lemma {:induction false} WordEndsThere(word: string, rest: string)
    requires (forall c :: c in word ==> !IsSpace(c)) && FieldEnd(rest)
    ensures WordEnd(word + rest) == |word|
  {
    if word == "" {
      assert word + rest == rest;
    } else {
      assert word[0] in word && (word + rest)[1..] == word[1..] + rest;
      WordEndsThere(word[1..], rest);
    }
  }

  // ---- no field holds a line break ----

  predicate OneLine(s: string) { '\n' !in s }

  lemma {:induction false} NatTextOneLine(n: nat)
    ensures OneLine(NatText(n))
  {
    if n < 10 {
    } else {
      NatTextOneLine(n / 10);
    }
  }

  lemma {:induction false} EscapeOneLine(s: string)
    requires OneLine(s)
    ensures OneLine(Escape(s))
  {
    if s == "" {
    } else {
      assert s[0] in s;
      EscapeOneLine(s[1..]);
    }
  }

  lemma QuotedOneLine(s: string)
    requires OneLine(s)
    ensures OneLine(Quoted(s))
  {
    EscapeOneLine(s);
  }

  lemma FieldOneLine(text: string, rest: string)
    requires OneLine(text) && OneLine(rest)
    ensures OneLine(Field(text, rest)) && FieldEnd(Field(text, rest))
  {}

  // ---- lines ----

  function LineEnd(text: string): (k: nat)
    ensures k <= |text| && '\n' !in text[..k] && (k < |text| ==> text[k] == '\n')
  {
    if text == "" || text[0] == '\n' then 0
    else
      var k := 1 + LineEnd(text[1..]);
      assert text[..k] == [text[0]] + text[1..][..k - 1];
      k
  }

  // What std::getline leaves for the next call.
  function AfterLine(text: string): (rest: string)
    ensures text != "" ==> |rest| < |text|
  {
    if LineEnd(text) < |text| then text[LineEnd(text) + 1..] else ""
  }

  function Lines(text: string): seq<string>
    decreases |text|
  {
    if text == "" then [] else [text[..LineEnd(text)]] + Lines(AfterLine(text))
  }

  function Unlines(lines: seq<string>): string {
    if lines == [] then "" else lines[0] + ['\n'] + Unlines(lines[1..])
  }

  // What reading some records off the front of a list came to.
  datatype Read<+S, +T> = Failed(status: S) | Done(value: T, rest: seq<string>) {
    predicate IsFailure() { Failed? }
    function PropagateFailure<U>(): Read<S, U>
      requires Failed?
    { Failed(status) }
    function Extract(): (T, seq<string>)
      requires Done?
    { (value, rest) }
  }

  // Lines a reader passes over, so that newer writers can add records.
  predicate Extension(line: string) { |line| >= 2 && line[0] == 'X' && line[1] == ' ' }

  function Records(lines: seq<string>): seq<string> {
    if lines == [] then []
    else (if Extension(lines[0]) then [] else [lines[0]]) + Records(lines[1..])
  }

  lemma {:induction false} LineEndsThere(line: string, rest: string)
    requires OneLine(line)
    ensures LineEnd(line + ['\n'] + rest) == |line|
  {
    if line == "" {
      assert line + ['\n'] + rest == ['\n'] + rest;
    } else {
      assert line[0] in line;
      assert (line + ['\n'] + rest)[1..] == line[1..] + ['\n'] + rest;
      LineEndsThere(line[1..], rest);
    }
  }

  lemma FirstLine(line: string, rest: string)
    requires OneLine(line)
    ensures Lines(line + ['\n'] + rest) == [line] + Lines(rest)
  {
    var text := line + ['\n'] + rest;
    LineEndsThere(line, rest);
    assert text[..|line|] == line && text[|line| + 1..] == rest;
  }

  lemma {:induction false} LinesOfUnlines(lines: seq<string>, rest: string)
    requires forall l :: l in lines ==> OneLine(l)
    ensures Lines(Unlines(lines) + rest) == lines + Lines(rest)
  {
    hide Lines;
    if lines == [] {
      assert Unlines(lines) + rest == rest;
    } else {
      LinesOfUnlines(lines[1..], rest);
      FirstLine(lines[0], Unlines(lines[1..]) + rest);
      assert Unlines(lines) + rest == lines[0] + ['\n'] + (Unlines(lines[1..]) + rest);
    }
  }

  lemma {:induction false} RecordsConcat(a: seq<string>, b: seq<string>)
    ensures Records(a + b) == Records(a) + Records(b)
  {
    if a == [] {
      assert a + b == b;
    } else {
      assert (a + b)[1..] == a[1..] + b;
      RecordsConcat(a[1..], b);
    }
  }

  lemma {:induction false} AllRecords(lines: seq<string>)
    requires forall l :: l in lines ==> !Extension(l)
    ensures Records(lines) == lines
  {
    if lines == [] {
    } else {
      assert lines[0] in lines;
      AllRecords(lines[1..]);
    }
  }

  lemma {:induction false} NoRecords(lines: seq<string>)
    requires forall l :: l in lines ==> Extension(l)
    ensures Records(lines) == []
  {
    if lines == [] {
    } else {
      assert lines[0] in lines;
      NoRecords(lines[1..]);
    }
  }

  lemma {:induction false} UnlinesConcat(a: seq<string>, b: seq<string>)
    ensures Unlines(a + b) == Unlines(a) + Unlines(b)
  {
    if a == [] {
      assert a + b == b;
    } else {
      assert (a + b)[1..] == a[1..] + b;
      UnlinesConcat(a[1..], b);
    }
  }

  // Reads up to the next record. What is left over holds exactly the records after it.
  method ReadRequiredLine(text: string) returns (line: Option<string>, rest: string)
    ensures Records(Lines(text)) == if line.Some? then [line.value] + Records(Lines(rest)) else []
    ensures line.None? ==> rest == ""
  {
    rest := text;
    while rest != ""
      invariant Records(Lines(text)) == Records(Lines(rest))
      decreases |rest|
    {
      var next := rest[..LineEnd(rest)];
      rest := AfterLine(rest);
      if !Extension(next) { return Some(next), rest; }
    }
    line := None;
  }

  // ---- runs of records of one kind ----

  function Printed<T>(rows: seq<T>, format: T -> string): (lines: seq<string>)
    ensures |lines| == |rows| && forall i :: 0 <= i < |rows| ==> lines[i] == format(rows[i])
  {
    if rows == [] then [] else [format(rows[0])] + Printed(rows[1..], format)
  }

  // The next n records scanned one by one after those already taken, and the records behind them.
  function TakeRows<T>(lines: seq<string>, n: nat, scan: string -> Option<T>, taken: seq<T>): Option<(seq<T>, seq<string>)> {
    if n == 0 then Some((taken, lines))
    else if lines == [] then None
    else match scan(lines[0])
      case None => None
      case Some(row) => TakeRows(lines[1..], n - 1, scan, taken + [row])
  }

  method WriteRows<T>(rows: seq<T>, format: T -> string) returns (text: string)
    ensures text == Unlines(Printed(rows, format))
  {
    text := "";
    for i := 0 to |rows|
      invariant text == Unlines(Printed(rows, format)[..i])
    {
      text := text + format(rows[i]) + ['\n'];
      UnlinesNext(Printed(rows, format), i);
    }
    assert Printed(rows, format)[..|rows|] == Printed(rows, format);
  }

  lemma UnlinesNext(lines: seq<string>, i: nat)
    requires i < |lines|
    ensures Unlines(lines[..i + 1]) == Unlines(lines[..i]) + lines[i] + ['\n']
  {
    assert lines[..i + 1] == lines[..i] + [lines[i]];
    UnlinesConcat(lines[..i], [lines[i]]);
    assert Unlines([lines[i]]) == lines[i] + ['\n'] + Unlines([]);
    assert Unlines(lines[..i]) + (lines[i] + ['\n']) == Unlines(lines[..i]) + lines[i] + ['\n'];
  }

  method ReadRows<T>(text: string, n: nat, scan: string -> Option<T>) returns (rows: Option<seq<T>>, rest: string)
    ensures match TakeRows(Records(Lines(text)), n, scan, [])
            case None => rows.None?
            case Some(r) => rows == Some(r.0) && Records(Lines(rest)) == r.1
  {
    hide Lines, Records;
    var taken: seq<T> := [];
    rest := text;
    for i := 0 to n
      invariant TakeRows(Records(Lines(text)), n, scan, []) == TakeRows(Records(Lines(rest)), n - i, scan, taken)
    {
      var line;
      line, rest := ReadRequiredLine(rest);
      if line.None? { return None, rest; }
      var row := scan(line.value);
      if row.None? { return None, rest; }
      taken := taken + [row.value];
    }
    rows := Some(taken);
  }

  lemma FirstPrinted<T>(rows: seq<T>, format: T -> string, rest: seq<string>)
    requires rows != []
    ensures (Printed(rows, format) + rest)[0] == format(rows[0])
    ensures (Printed(rows, format) + rest)[1..] == Printed(rows[1..], format) + rest
  {}

  lemma TakenNext<T>(taken: seq<T>, rows: seq<T>)
    requires rows != []
    ensures taken + [rows[0]] + rows[1..] == taken + rows
  {}

  // Rows that scan back one by one are read back together.
  lemma {:induction false} RowsReadBack<T>(rows: seq<T>, format: T -> string, scan: string -> Option<T>,
                                          taken: seq<T>, rest: seq<string>)
    requires forall x :: x in rows ==> scan(format(x)) == Some(x)
    ensures TakeRows(Printed(rows, format) + rest, |rows|, scan, taken) == Some((taken + rows, rest))
  {
    var lines := Printed(rows, format) + rest;
    if rows == [] {
      assert lines == rest && taken + rows == taken;
    } else {
      assert rows[0] in rows;
      FirstPrinted(rows, format, rest);
      hide Printed;
      RowsReadBack(rows[1..], format, scan, taken + [rows[0]], rest);
      TakenNext(taken, rows);
    }
  }

  // ---- ids and whole records ----

  function IdOrZero(id: Option<nat>): nat { if id.Some? then id.value else 0 }

  function IdOf(value: nat): Option<nat> { if value == 0 then None else Some(value) }

  // A record is accepted when its fields scan and nothing follows them.
  function Whole<T>(fields: Scanned<T>): Option<T> {
    if fields.Good? && Finished(fields.rest) then Some(fields.value) else None
  }

  lemma UnlinesFirst(line: string, rest: seq<string>)
    ensures Unlines([line] + rest) == line + ['\n'] + Unlines(rest)
  {
    assert ([line] + rest)[1..] == rest;
  }

  lemma OneLineFile(line: string)
    ensures Unlines([line]) == line + ['\n']
  {
    assert Unlines([line][1..]) == "";
  }

  lemma TwoLines(a: string, b: string)
    ensures Unlines([a, b]) == a + ['\n'] + (b + ['\n'])
  {
    OneLineFile(b);
    assert [a, b][1..] == [b];
  }

  lemma FirstRecord(text: string)
    ensures text == "" ==> Records(Lines(text)) == []
    ensures text != "" ==>
      Records(Lines(text)) ==
        (if Extension(text[..LineEnd(text)]) then [] else [text[..LineEnd(text)]]) + Records(Lines(AfterLine(text)))
  {}

  lemma FirstOfLines(text: string)
    requires text != ""
    ensures Lines(text) != [] && Lines(text)[0] == text[..LineEnd(text)]
  {}

  predicate AllBlank(lines: seq<string>) { forall l :: l in lines ==> l == "" }

  lemma BlankStep(text: string)
    ensures text == "" ==> AllBlank(Records(Lines(text)))
    ensures text != "" ==>
      (AllBlank(Records(Lines(text))) <==>
        (text[..LineEnd(text)] == "" || Extension(text[..LineEnd(text)])) && AllBlank(Records(Lines(AfterLine(text)))))
  {
    hide Lines, Records;
    FirstRecord(text);
    if text != "" {
      var first, rest := text[..LineEnd(text)], Records(Lines(AfterLine(text)));
      forall l | l in rest ensures l in [first] + rest {}
      assert first in [first] + rest;
      assert [] + rest == rest;
    }
  }

  method OnlyBlankRecords(text: string) returns (ok: bool)
    ensures ok <==> AllBlank(Records(Lines(text)))
  {
    hide Lines, Records, AllBlank;
    var rest := text;
    while rest != ""
      invariant AllBlank(Records(Lines(text))) == AllBlank(Records(Lines(rest)))
      decreases |rest|
    {
      BlankStep(rest);
      var raw := rest[..LineEnd(rest)];
      if raw != "" && !Extension(raw) { return false; }
      rest := AfterLine(rest);
    }
    BlankStep("");
    ok := true;
  }

  // ---- putting fields in front of each other ----

  predicate Fits(n: nat) { n <= MAX_U64 }

  // An id that may be absent; zero is the written form of absence.
  predicate FitsId(id: Option<nat>) { id.Some? ==> 0 < id.value <= MAX_U64 }

  // A line, or the rest of one, that more fields can be put in front of.
  predicate Tail(rest: string) { OneLine(rest) && FieldEnd(rest) }

  lemma NatField(n: nat, rest: string, maximum: nat)
    requires n <= maximum && Tail(rest)
    ensures Tail(Field(NatText(n), rest)) && ScanUnsigned(Field(NatText(n), rest), maximum) == Good(n, rest)
  {
    NatTextOneLine(n);
    NatScansBack(n, rest, maximum);
    FieldOneLine(NatText(n), rest);
  }

  lemma BoolField(b: bool, rest: string)
    requires Tail(rest)
    ensures Tail(Field(BoolText(b), rest)) && ScanBool(Field(BoolText(b), rest)) == Good(b, rest)
  {
    BoolScansBack(b, rest);
    FieldOneLine(BoolText(b), rest);
  }

  lemma QuotedField(s: string, rest: string)
    requires OneLine(s) && Tail(rest)
    ensures Tail(Field(Quoted(s), rest)) && ScanQuoted(Field(Quoted(s), rest)) == Good(s, rest)
  {
    QuotedOneLine(s);
    QuotedScansBack(s, rest);
    FieldOneLine(Quoted(s), rest);
  }

  lemma RealField(codec: RealCodec, r: real, rest: string)
    requires Faithful(codec, r) && Tail(rest)
    ensures Tail(Field(codec.format(r), rest)) && codec.scan(Field(codec.format(r), rest)) == Good(r, rest)
  {
    FieldOneLine(codec.format(r), rest);
  }

  // A record: a tag letter, then fields. Only the letter X marks an extension.
  predicate Record(line: string) { OneLine(line) && !Extension(line) }

  lemma TagField(tag: char, rest: string)
    requires !IsSpace(tag) && tag != 'X' && Tail(rest)
    ensures ScanChar([tag] + rest) == Good(tag, rest) && Record([tag] + rest)
  {
    assert ([tag] + rest)[1..] == rest;
  }

  lemma AllRead<T>(x: T)
    ensures Whole(Good(x, "")) == Some(x)
  {}

  lemma EmptyTail()
    ensures Tail("")
  {}

  lemma WordField(word: string, rest: string)
    requires word != "" && (forall c :: c in word ==> !IsSpace(c)) && word[0] != 'X' && Tail(rest)
    ensures ScanWord(word + rest) == Good(word, rest) && Record(word + rest)
  {
    hide ScanWord;
    WordScansBack(word, rest);
    forall i | 0 <= i < |word| ensures word[i] != '\n' { assert word[i] in word; }
  }

  ghost predicate AllRecord(lines: seq<string>) { forall l :: l in lines ==> Record(l) }

  lemma AllRecordConcat(a: seq<string>, b: seq<string>)
    requires AllRecord(a) && AllRecord(b)
    ensures AllRecord(a + b)
  {}

  lemma OneRecord(line: string)
    requires Record(line)
    ensures AllRecord([line])
  {}

  lemma RecordsOnly(lines: seq<string>)
    requires AllRecord(lines)
    ensures Lines(Unlines(lines)) == lines && Records(lines) == lines
  {
    AllRecords(lines);
    LinesOfUnlines(lines, "");
    assert Unlines(lines) + "" == Unlines(lines) && lines + Lines("") == lines;
  }

  lemma HeaderThenBody(header: string, body: string)
    requires OneLine(header)
    ensures header + ['\n'] + body != "" && Lines(header + ['\n'] + body)[0] == header && AfterLine(header + ['\n'] + body) == body
  {
    LineEndsThere(header, body);
    var text := header + ['\n'] + body;
    assert text[..|header|] == header && text[|header| + 1..] == body;
  }

  lemma EndIsRecord()
    ensures AllRecord(["E"])
  {}

  lemma SizeKnown(text: string, maximumBytes: nat)
    requires SizeOk(text, maximumBytes)
    ensures Utf8Size(text).Some?
  {}
}
