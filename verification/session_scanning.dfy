// What is scanned from one line is on one line: a file never yields a string with a line break in it.
module SessionScanning {
  import opened Basics
  import opened SessionText

  lemma TailOneLine(s: string, k: nat)
    requires OneLine(s) && k <= |s|
    ensures OneLine(s[k..]) && OneLine(s[..k])
  {}

  lemma {:induction false} SkipSpaceOneLine(s: string)
    requires OneLine(s)
    ensures OneLine(SkipSpace(s))
  {
    if s == "" || !IsSpace(s[0]) {
    } else {
      TailOneLine(s, 1);
      SkipSpaceOneLine(s[1..]);
    }
  }

  lemma {:induction false} DigitsOneLine(s: string, value: nat)
    requires OneLine(s)
    ensures OneLine(ScanDigits(s, value).1)
  {
    if s == "" || !IsDigit(s[0]) {
    } else {
      TailOneLine(s, 1);
      DigitsOneLine(s[1..], 10 * value + (s[0] - '0') as nat);
    }
  }

  lemma NumberOneLine(s: string)
    requires OneLine(s) && ScanNumber(s).Good?
    ensures OneLine(ScanNumber(s).rest)
  {
    hide SkipSpace, ScanDigits;
    SkipSpaceOneLine(s);
    var t := SkipSpace(s);
    TailOneLine(t, 1);
    DigitsOneLine(if t[0] == '-' || t[0] == '+' then t[1..] else t, 0);
  }

  lemma UnsignedOneLine(s: string, maximum: nat)
    requires OneLine(s)
    ensures ScanUnsigned(s, maximum).Good? ==> OneLine(ScanUnsigned(s, maximum).rest)
  {
    hide ScanNumber;
    if ScanNumber(s).Good? { NumberOneLine(s); }
  }

  lemma BoolOneLine(s: string)
    requires OneLine(s)
    ensures ScanBool(s).Good? ==> OneLine(ScanBool(s).rest)
  {
    hide ScanNumber;
    if ScanNumber(s).Good? { NumberOneLine(s); }
  }

  lemma CharOneLine(s: string)
    requires OneLine(s)
    ensures ScanChar(s).Good? ==> OneLine(ScanChar(s).rest)
  {
    hide SkipSpace;
    SkipSpaceOneLine(s);
    if SkipSpace(s) != "" { TailOneLine(SkipSpace(s), 1); }
  }

  // A scan that leaves both what it found and the rest on one line.
  predicate BothOneLine(r: Scanned<string>) { r.Good? ==> OneLine(r.value) && OneLine(r.rest) }

  lemma {:induction false} UnquoteOneLine(s: string)
    requires OneLine(s)
    ensures BothOneLine(Unquote(s))
    decreases |s|
  {
    if s == "" {
    } else if s[0] == '"' {
      TailOneLine(s, 1);
    } else {
      var n := if s[0] == '\\' then 2 else 1;
      if n <= |s| {
        TailOneLine(s, n);
        assert s[n - 1] in s;
        UnquoteOneLine(s[n..]);
      }
    }
  }

  lemma ScannedQuoteOneLine(s: string)
    requires OneLine(s)
    ensures BothOneLine(ScanQuoted(s))
  {
    hide SkipSpace, Unquote, OneLine, WordEnd;
    SkipSpaceOneLine(s);
    var t := SkipSpace(s);
    if t != "" {
      TailOneLine(t, 1);
      UnquoteOneLine(t[1..]);
      SkipSpaceOneLine(t);
      TailOneLine(SkipSpace(t), WordEnd(SkipSpace(t)));
    }
  }

  // Scanning a number never goes beyond its line.
  ghost predicate StaysOnLine(codec: RealCodec) {
    forall s :: OneLine(s) && codec.scan(s).Good? ==> OneLine(codec.scan(s).rest)
  }

  // ---- lines ----

  ghost predicate AllOneLine(lines: seq<string>) { forall l :: l in lines ==> OneLine(l) }

  lemma {:induction false} LinesOneLine(text: string)
    ensures AllOneLine(Lines(text))
    decreases |text|
  {
    hide OneLine, LineEnd;
    if text == "" {
    } else {
      LinesOneLine(AfterLine(text));
      FirstOneLine(text);
    }
  }

  lemma FirstOneLine(text: string)
    ensures OneLine(text[..LineEnd(text)])
  {
    hide LineEnd;
  }

  lemma {:induction false} RecordsOneLine(lines: seq<string>)
    requires AllOneLine(lines)
    ensures AllOneLine(Records(lines))
  {
    hide OneLine;
    if lines == [] {
    } else {
      RecordsOneLine(lines[1..]);
    }
  }

  lemma RestOneLine(lines: seq<string>)
    requires AllOneLine(lines) && lines != []
    ensures OneLine(lines[0]) && AllOneLine(lines[1..])
  {
    hide OneLine;
  }

  // The rows taken off a list of lines are those taken before and some that were scanned from its lines.
  lemma {:induction false} RowsOneLine<T>(lines: seq<string>, n: nat, scan: string -> Option<T>, taken: seq<T>, ok: T -> bool)
    requires AllOneLine(lines) && forall x :: x in taken ==> ok(x)
    requires forall l :: OneLine(l) && scan(l).Some? ==> ok(scan(l).value)
    ensures var r := TakeRows(lines, n, scan, taken);
            r.Some? ==> AllOneLine(r.value.1) && forall x :: x in r.value.0 ==> ok(x)
    decreases n
  {
    hide OneLine, AllOneLine;
    if n == 0 || lines == [] || scan(lines[0]).None? {
    } else {
      RestOneLine(lines);
      RowsOneLine(lines[1..], n - 1, scan, taken + [scan(lines[0]).value], ok);
    }
  }
}
