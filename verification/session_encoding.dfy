// Which session texts are well formed: those whose titles, keys and paths are.
module SessionEncoding {
  import opened Basics
  import TextEncoding
  import opened UnitText
  import opened SessionText

  lemma {:induction false} NatIsAscii(n: nat)
    ensures AllAscii(NatText(n))
  {
    if n < 10 {
    } else {
      NatIsAscii(n / 10);
    }
  }

  lemma NatWellFormed(n: nat)
    ensures WellFormed(NatText(n))
  {
    hide NatText;
    NatIsAscii(n);
    AsciiIsWellFormed(NatText(n));
  }

  lemma BoolWellFormed(b: bool)
    ensures WellFormed(BoolText(b))
  {
    AsciiIsWellFormed(BoolText(b));
  }

  // A field after a blank, with more fields or nothing behind it.
  lemma FieldWellFormed(text: string, rest: string)
    requires FieldEnd(rest)
    ensures FieldEnd(Field(text, rest)) && (WellFormed(Field(text, rest)) <==> WellFormed(text) && WellFormed(rest))
  {
    hide WellFormed;
    AsciiSeam([' '] + text, rest);
    WellFormedConcat([' '] + text, rest);
    AsciiSeam([' '], text);
    WellFormedConcat([' '], text);
    AsciiIsWellFormed([' ']);
  }

  lemma NatFieldWellFormed(n: nat, rest: string)
    requires FieldEnd(rest) && WellFormed(rest)
    ensures FieldEnd(Field(NatText(n), rest)) && WellFormed(Field(NatText(n), rest))
  {
    NatWellFormed(n);
    FieldWellFormed(NatText(n), rest);
  }

  // A mark of plain characters in front of fields.
  lemma TagWellFormed(tag: string, rest: string)
    requires AllAscii(tag) && FieldEnd(rest)
    ensures WellFormed(tag + rest) <==> WellFormed(rest)
  {
    AsciiSeam(tag, rest);
    WellFormedConcat(tag, rest);
    AsciiIsWellFormed(tag);
  }

  // Two texts that begin alike, up to a pair of surrogates, and go on equally well.
  lemma SameFront(front: string, a: string, b: string)
    requires SeamOk(front, a) && SeamOk(front, b) && (WellFormed(a) <==> WellFormed(b))
    ensures WellFormed(front + a) <==> WellFormed(front + b)
  {
    hide WellFormed, SeamOk;
    WellFormedConcat(front, a);
    WellFormedConcat(front, b);
  }

  lemma Escaped(s: string)
    requires s != ""
    ensures Escape(s) == Escape([s[0]]) + Escape(s[1..])
    ensures Escape([s[0]]) == if s[0] == '"' || s[0] == '\\' then ['\\', s[0]] else [s[0]]
    ensures Escape(s)[0] == s[0] || Escape(s)[0] == '\\'
  {
    assert [s[0]][1..] == "";
  }

  predicate HighHalf(c: char) { TextEncoding.IsHigh(UnitOf(c)) }
  predicate LowHalf(c: char) { TextEncoding.IsLow(UnitOf(c)) }

  // Escaping keeps pairs of surrogates together and apart.
  lemma {:induction false} EscapeWellFormed(s: string)
    ensures WellFormed(Escape(s)) <==> WellFormed(s)
    decreases |s|
  {
    hide WellFormed, Escape;
    if s == "" {
      assert Escape("") == "" by { EscapeNothing(); }
    } else if |s| > 1 && HighHalf(s[0]) && LowHalf(s[1]) {
      EscapeWellFormed(s[2..]);
      Escaped(s);
      Escaped(s[1..]);
      assert s[1..][1..] == s[2..] && s == s[..2] + s[2..];
      assert Escape(s) == s[..2] + Escape(s[2..]);
      SameFront(s[..2], Escape(s[2..]), s[2..]);
    } else {
      EscapeWellFormed(s[1..]);
      Escaped(s);
      if |s| > 1 { Escaped(s[1..]); } else { EscapeNothing(); }
      var e, rest := Escape([s[0]]), Escape(s[1..]);
      assert s == [s[0]] + s[1..];
      SameFront([s[0]], rest, s[1..]);
      if |e| == 2 {
        AsciiSeam(e, rest);
        AsciiSeam([s[0]], rest);
        WellFormedConcat(e, rest);
        WellFormedConcat([s[0]], rest);
        AsciiIsWellFormed(e);
        AsciiIsWellFormed([s[0]]);
      }
    }
  }

  lemma EscapeNothing()
    ensures Escape("") == ""
  {}

  lemma QuotedWellFormed(s: string)
    ensures WellFormed(Quoted(s)) <==> WellFormed(s)
  {
    hide WellFormed, Escape;
    EscapeWellFormed(s);
    AsciiSeam(['"'], Escape(s));
    WellFormedConcat(['"'], Escape(s));
    AsciiSeam(['"'] + Escape(s), ['"']);
    WellFormedConcat(['"'] + Escape(s), ['"']);
    AsciiIsWellFormed(['"']);
  }

  // ---- lines ----

  ghost predicate AllWellFormed(lines: seq<string>) { forall l :: l in lines ==> WellFormed(l) }

  lemma AllWellFormedConcat(a: seq<string>, b: seq<string>)
    ensures AllWellFormed(a + b) <==> AllWellFormed(a) && AllWellFormed(b)
  {
    hide WellFormed;
    assert forall l :: l in a || l in b ==> l in a + b;
  }

  lemma {:induction false} UnlinesWellFormed(lines: seq<string>)
    ensures WellFormed(Unlines(lines)) <==> AllWellFormed(lines)
  {
    hide WellFormed;
    if lines == [] {
      AsciiIsWellFormed("");
    } else {
      var first, rest := lines[0], Unlines(lines[1..]);
      UnlinesWellFormed(lines[1..]);
      AsciiSeam(first + ['\n'], rest);
      WellFormedConcat(first + ['\n'], rest);
      AsciiSeam(first, ['\n']);
      WellFormedConcat(first, ['\n']);
      AsciiIsWellFormed(['\n']);
      assert lines == [first] + lines[1..];
      AllWellFormedConcat([first], lines[1..]);
    }
  }

  lemma {:induction false} PrintedWellFormed<T(!new)>(rows: seq<T>, format: T -> string)
    ensures AllWellFormed(Printed(rows, format)) <==> forall x :: x in rows ==> WellFormed(format(x))
  {
    hide WellFormed;
    if rows == [] {
    } else {
      PrintedWellFormed(rows[1..], format);
      AllWellFormedConcat([format(rows[0])], Printed(rows[1..], format));
      assert rows == [rows[0]] + rows[1..];
    }
  }
}
