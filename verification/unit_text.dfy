// Wide strings as strings. A wide string is a sequence of UTF-16 units, well formed or not. A character below U+10000 is
// the unit of that value. Characters are never surrogates, so a character from there on stands for one: the surrogate
// 0xD800 plus what its value leaves over when divided by 0x800. Lengths are therefore lengths in units.
module UnitText {
  import opened Basics
  import opened TextEncoding

  function UnitOf(c: char): Unit { if c as int < 0x1_0000 then c as int else 0xD800 + c as int % 0x800 }

  function UnitsOf(s: string): (r: seq<Unit>)
    ensures |r| == |s|
  {
    seq(|s|, i requires 0 <= i < |s| => UnitOf(s[i]))
  }

  predicate WellFormed(s: string) { ValidUtf16(UnitsOf(s)) }

  // Longer, in units or in its UTF-8 form, than a 32-bit length can say.
  predicate TooLong(text: string) {
    |text| > MAX_INT || (WellFormed(text) && |EncodeUtf8(UnitsOf(text))| > MAX_INT)
  }

  // The bytes a text takes up in a file; nothing for surrogates that are no pair and for a text too long to be measured.
  function Utf8Size(text: string): Option<nat> {
    if !WellFormed(text) || TooLong(text) then None else Some(|EncodeUtf8(UnitsOf(text))|)
  }

  predicate SizeOk(text: string, maximumBytes: nat) {
    Utf8Size(text).Some? && Utf8Size(text).value <= maximumBytes
  }

  // ---- putting texts together ----

  // No pair of surrogates spans the seam.
  predicate Seam(a: seq<Unit>, b: seq<Unit>) { a == [] || b == [] || !IsHigh(a[|a| - 1]) || !IsLow(b[0]) }

  lemma {:induction false} ValidConcat(a: seq<Unit>, b: seq<Unit>)
    requires Seam(a, b)
    ensures ValidUtf16(a + b) <==> ValidUtf16(a) && ValidUtf16(b)
    ensures ValidUtf16(a + b) ==> EncodeUtf8(a + b) == EncodeUtf8(a) + EncodeUtf8(b)
    decreases |a|
  {
    hide EncodeScalar;
    if a == [] {
      assert a + b == b;
    } else {
      var n := if IsHigh(a[0]) then 2 else 1;
      if n <= |a| {
        assert (a + b)[n..] == a[n..] + b && (a + b)[0] == a[0] && (n == 2 ==> (a + b)[1] == a[1]);
        assert Seam(a[n..], b);
        ValidConcat(a[n..], b);
        if ValidUtf16(a + b) { Front(a, b, n); }
      }
    }
  }

  // The first code point of two texts put together is that of the first one.
  lemma Front(a: seq<Unit>, b: seq<Unit>, n: nat)
    requires a != [] && n == (if IsHigh(a[0]) then 2 else 1) && n <= |a|
    requires ValidUtf16(a) && ValidUtf16(a + b) && ValidUtf16(a[n..]) && ValidUtf16((a + b)[n..])
    ensures FirstScalar(a + b) == FirstScalar(a) && FirstScalar(a).1 == n
    ensures EncodeUtf8(a + b) == EncodeScalar(FirstScalar(a).0) + EncodeUtf8((a + b)[n..])
    ensures EncodeUtf8(a) == EncodeScalar(FirstScalar(a).0) + EncodeUtf8(a[n..])
  {
    hide EncodeScalar;
  }

  lemma UnitsConcat(a: string, b: string)
    ensures UnitsOf(a + b) == UnitsOf(a) + UnitsOf(b)
  {}

  predicate SeamOk(a: string, b: string) { Seam(UnitsOf(a), UnitsOf(b)) }

  lemma WellFormedConcat(a: string, b: string)
    requires SeamOk(a, b)
    ensures WellFormed(a + b) <==> WellFormed(a) && WellFormed(b)
    ensures WellFormed(a + b) ==> |EncodeUtf8(UnitsOf(a + b))| == |EncodeUtf8(UnitsOf(a))| + |EncodeUtf8(UnitsOf(b))|
  {
    UnitsConcat(a, b);
    ValidConcat(UnitsOf(a), UnitsOf(b));
  }

  // The size of two texts put together, as far as it can be measured.
  lemma SizeConcat(a: string, b: string)
    requires SeamOk(a, b)
    ensures Utf8Size(a + b).Some? ==>
              Utf8Size(a).Some? && Utf8Size(b).Some? && Utf8Size(a + b).value == Utf8Size(a).value + Utf8Size(b).value
    ensures Utf8Size(a).Some? && Utf8Size(b).Some? && |a + b| <= MAX_INT && Utf8Size(a).value + Utf8Size(b).value <= MAX_INT ==>
              Utf8Size(a + b) == Some(Utf8Size(a).value + Utf8Size(b).value)
  {
    hide ValidUtf16, EncodeUtf8, SeamOk, UnitsOf;
    WellFormedConcat(a, b);
  }

  predicate Ascii(c: char) { c as int < 0x80 }

  predicate AllAscii(s: string) { forall i :: 0 <= i < |s| ==> Ascii(s[i]) }

  lemma {:induction false} AsciiIsWellFormed(s: string)
    requires AllAscii(s)
    ensures WellFormed(s)
  {
    if s == "" {
    } else {
      AsciiIsWellFormed(s[1..]);
      assert UnitsOf(s)[1..] == UnitsOf(s[1..]);
    }
  }

  // Next to a plain character there is always a seam.
  lemma AsciiSeam(a: string, b: string)
    requires (a != "" && Ascii(a[|a| - 1])) || (b != "" && Ascii(b[0])) || a == "" || b == ""
    ensures SeamOk(a, b)
  {}
}
