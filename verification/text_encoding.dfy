// Text files: UTF-8 with or without a mark, and UTF-16 in either byte order, told apart by the mark.
module TextEncoding {
  import opened Basics

  type Byte = x: int | 0 <= x < 256
  // A UTF-16 code unit, as wchar_t holds it.
  type Unit = x: int | 0 <= x < 0x1_0000

  datatype Encoding = Utf8 | Utf8Bom | Utf16Le | Utf16Be

  const MAX_INT := 0x7FFF_FFFF

  // ---- UTF-16 (section 2 of RFC 2781) ----

  predicate IsHigh(u: int) { 0xD800 <= u <= 0xDBFF }
  predicate IsLow(u: int) { 0xDC00 <= u <= 0xDFFF }

  predicate ValidUtf16(text: seq<Unit>) {
    if text == [] then true
    else if IsHigh(text[0]) then |text| > 1 && IsLow(text[1]) && ValidUtf16(text[2..])
    else !IsLow(text[0]) && ValidUtf16(text[1..])
  }

  // A code point that is not a surrogate.
  predicate IsScalar(c: int) { 0 <= c < 0xD800 || 0xE000 <= c <= 0x10FFFF }

  // The units that spell a code point.
  function Units(c: int): (r: seq<Unit>)
    requires IsScalar(c)
    ensures r != []
  {
    if c < 0x1_0000 then [c] else [0xD800 + (c - 0x1_0000) / 1024, 0xDC00 + (c - 0x1_0000) % 1024]
  }

  // The code point of two surrogates.
  function Combined(high: int, low: int): int { 0x1_0000 + (high - 0xD800) * 1024 + (low - 0xDC00) }

  // The code point a valid text begins with, and the number of units that spell it.
  function FirstScalar(text: seq<Unit>): (r: (int, nat))
    requires text != [] && ValidUtf16(text)
    ensures IsScalar(r.0) && 0 < r.1 <= |text| && ValidUtf16(text[r.1..])
  {
    if IsHigh(text[0]) then (Combined(text[0], text[1]), 2) else (text[0], 1)
  }

  lemma UnitsOfFirst(text: seq<Unit>)
    requires text != [] && ValidUtf16(text)
    ensures var (c, n) := FirstScalar(text); Units(c) == text[..n]
  {
    if IsHigh(text[0]) {
      var x: int, y: int := text[0] - 0xD800, text[1] - 0xDC00;
      assert (x * 1024 + y) / 1024 == x && (x * 1024 + y) % 1024 == y;
    }
  }

  lemma FirstOfUnits(c: int, rest: seq<Unit>)
    requires IsScalar(c) && ValidUtf16(rest)
    ensures var text := Units(c) + rest;
            ValidUtf16(text) && FirstScalar(text) == (c, |Units(c)|) && text[|Units(c)|..] == rest
  {
    var text := Units(c) + rest;
    assert text[|Units(c)|..] == rest;
  }

  // ---- UTF-8 (section 3 of RFC 3629) ----

  function EncodeScalar(c: int): (r: seq<Byte>)
    requires IsScalar(c)
    ensures 1 <= |r| <= 4
  {
    if c < 0x80 then [c]
    else if c < 0x800 then [0xC0 + c / 64, 0x80 + c % 64]
    else if c < 0x1_0000 then [0xE0 + c / 4096, 0x80 + c / 64 % 64, 0x80 + c % 64]
    else [0xF0 + c / 262144, 0x80 + c / 4096 % 64, 0x80 + c / 64 % 64, 0x80 + c % 64]
  }

  predicate IsTail(b: int) { 0x80 <= b <= 0xBF }

  function FromTwo(a: int, b: int): int { (a - 0xC0) * 64 + (b - 0x80) }
  function FromThree(a: int, b: int, c: int): int { (a - 0xE0) * 4096 + (b - 0x80) * 64 + (c - 0x80) }
  function FromFour(a: int, b: int, c: int, d: int): int {
    (a - 0xF0) * 262144 + (b - 0x80) * 4096 + (c - 0x80) * 64 + (d - 0x80)
  }

  // The code point some bytes begin with and its length; nothing for overlong forms, surrogates, values beyond the last
  // code point, and sequences cut short.
  function DecodeScalar(b: seq<Byte>): Option<(int, nat)>
    requires b != []
  {
    if b[0] < 0x80 then Some((b[0], 1))
    else if 0xC2 <= b[0] <= 0xDF then
      if |b| > 1 && IsTail(b[1]) then Some((FromTwo(b[0], b[1]), 2)) else None
    else if 0xE0 <= b[0] <= 0xEF then
      if |b| > 2 && IsTail(b[1]) && IsTail(b[2]) then
        var c := FromThree(b[0], b[1], b[2]);
        if c >= 0x800 && IsScalar(c) then Some((c, 3)) else None
      else None
    else if 0xF0 <= b[0] <= 0xF4 then
      if |b| > 3 && IsTail(b[1]) && IsTail(b[2]) && IsTail(b[3]) then
        var c := FromFour(b[0], b[1], b[2], b[3]);
        if 0x1_0000 <= c <= 0x10FFFF then Some((c, 4)) else None
      else None
    else None
  }

  lemma DecodedIsScalar(b: seq<Byte>)
    requires b != [] && DecodeScalar(b).Some?
    ensures var (c, n) := DecodeScalar(b).value; IsScalar(c) && 0 < n <= |b|
  {}

  lemma Digits2(c: int)
    requires 0 <= c < 0x800
    ensures (c / 64) * 64 + c % 64 == c && 0 <= c / 64 < 32
  {}

  lemma Digits3(c: int)
    requires 0 <= c < 0x1_0000
    ensures (c / 4096) * 4096 + (c / 64 % 64) * 64 + c % 64 == c && 0 <= c / 4096 < 16
  {
    assert c / 64 == (c / 4096) * 64 + c / 64 % 64;
  }

  lemma Digits4(c: int)
    requires 0 <= c <= 0x10FFFF
    ensures (c / 262144) * 262144 + (c / 4096 % 64) * 4096 + (c / 64 % 64) * 64 + c % 64 == c && 0 <= c / 262144 < 5
  {
    assert c / 4096 == (c / 262144) * 64 + c / 4096 % 64;
    assert c / 64 == (c / 4096) * 64 + c / 64 % 64;
  }

  lemma ScalarReadsBack(c: int, rest: seq<Byte>)
    requires IsScalar(c)
    ensures DecodeScalar(EncodeScalar(c) + rest) == Some((c, |EncodeScalar(c)|))
    ensures (EncodeScalar(c) + rest)[|EncodeScalar(c)|..] == rest
  {
    var e := EncodeScalar(c);
    var b := e + rest;
    assert forall i :: 0 <= i < |e| ==> b[i] == e[i];
    if c < 0x80 {
    } else if c < 0x800 {
      Digits2(c);
    } else if c < 0x1_0000 {
      Digits3(c);
    } else {
      Digits4(c);
    }
  }

  lemma Compose(q: int, r: int)
    requires 0 <= r < 64
    ensures (q * 64 + r) / 64 == q && (q * 64 + r) % 64 == r
  {}

  // The decoder accepts only what the encoder would have written.
  lemma ScalarWritesBack(b: seq<Byte>)
    requires b != [] && DecodeScalar(b).Some?
    ensures var (c, n) := DecodeScalar(b).value; IsScalar(c) && 0 < n <= |b| && EncodeScalar(c) == b[..n]
  {
    hide EncodeScalar, FromTwo, FromThree, FromFour;
    DecodedIsScalar(b);
    var n := DecodeScalar(b).value.1;
    if n == 1 {
      WritesOne(b[0]);
    } else if n == 2 {
      WritesTwo(b[0], b[1]);
    } else if n == 3 {
      WritesThree(b[0], b[1], b[2]);
    } else {
      WritesFour(b[0], b[1], b[2], b[3]);
    }
  }

  lemma WritesOne(a: Byte)
    requires a < 0x80
    ensures EncodeScalar(a) == [a]
  {}

  lemma WritesTwo(a: Byte, b: Byte)
    requires 0xC2 <= a <= 0xDF && IsTail(b)
    ensures IsScalar(FromTwo(a, b)) && EncodeScalar(FromTwo(a, b)) == [a, b]
  {
    Compose(a - 0xC0, b - 0x80);
  }

  lemma WritesThree(a: Byte, b: Byte, c: Byte)
    requires 0xE0 <= a <= 0xEF && IsTail(b) && IsTail(c) && FromThree(a, b, c) >= 0x800 && IsScalar(FromThree(a, b, c))
    ensures EncodeScalar(FromThree(a, b, c)) == [a, b, c]
  {
    Three(a - 0xE0, b - 0x80, c - 0x80);
  }

  lemma WritesFour(a: Byte, b: Byte, c: Byte, d: Byte)
    requires 0xF0 <= a <= 0xF4 && IsTail(b) && IsTail(c) && IsTail(d) && 0x1_0000 <= FromFour(a, b, c, d) <= 0x10FFFF
    ensures EncodeScalar(FromFour(a, b, c, d)) == [a, b, c, d]
  {
    hide FromFour, EncodeScalar;
    DigitsOfFour(a, b, c, d);
    LongForm(FromFour(a, b, c, d));
  }

  lemma DigitsOfFour(a: Byte, b: Byte, c: Byte, d: Byte)
    requires IsTail(b) && IsTail(c) && IsTail(d)
    ensures var u := FromFour(a, b, c, d);
            u / 262144 == a - 0xF0 && u / 4096 % 64 == b - 0x80 && u / 64 % 64 == c - 0x80 && u % 64 == d - 0x80
  {
    Four(a - 0xF0, b - 0x80, c - 0x80, d - 0x80);
  }

  lemma LongForm(c: int)
    requires 0x1_0000 <= c <= 0x10FFFF
    ensures 0 <= c / 262144 < 5
    ensures EncodeScalar(c) == [0xF0 + c / 262144, 0x80 + c / 4096 % 64, 0x80 + c / 64 % 64, 0x80 + c % 64]
  {}

  lemma Three(x: int, y: int, z: int)
    requires 0 <= y < 64 && 0 <= z < 64
    ensures var c := x * 4096 + y * 64 + z; c / 4096 == x && c / 64 % 64 == y && c % 64 == z
  {
    Compose(x, y);
    Compose(x * 64 + y, z);
  }

  lemma Four(w: int, x: int, y: int, z: int)
    requires 0 <= x < 64 && 0 <= y < 64 && 0 <= z < 64
    ensures var c := w * 262144 + x * 4096 + y * 64 + z;
            c / 262144 == w && c / 4096 % 64 == x && c / 64 % 64 == y && c % 64 == z
  {
    Compose(w, x);
    Compose(w * 64 + x, y);
    Compose((w * 64 + x) * 64 + y, z);
  }

  // What the system's strict conversions do.
  function EncodeUtf8(text: seq<Unit>): seq<Byte>
    requires ValidUtf16(text)
    decreases |text|
  {
    if text == [] then []
    else
      var (c, n) := FirstScalar(text);
      EncodeScalar(c) + EncodeUtf8(text[n..])
  }

  function DecodeUtf8(b: seq<Byte>): Option<seq<Unit>>
    decreases |b|
  {
    if b == [] then Some([])
    else match DecodeScalar(b)
      case None => None
      case Some((c, n)) =>
        DecodedIsScalar(b);
        match DecodeUtf8(b[n..])
        case None => None
        case Some(rest) => Some(Units(c) + rest)
  }

  lemma {:induction false} Utf8ReadsBack(text: seq<Unit>)
    requires ValidUtf16(text)
    ensures DecodeUtf8(EncodeUtf8(text)) == Some(text)
    decreases |text|
  {
    hide EncodeScalar, DecodeScalar, Units, FirstScalar;
    if text == [] {
    } else {
      var (c, n) := FirstScalar(text);
      Utf8ReadsBack(text[n..]);
      ScalarReadsBack(c, EncodeUtf8(text[n..]));
      UnitsOfFirst(text);
      assert text == text[..n] + text[n..];
    }
  }

  lemma {:induction false} Utf8WritesBack(b: seq<Byte>)
    requires DecodeUtf8(b).Some?
    ensures ValidUtf16(DecodeUtf8(b).value) && EncodeUtf8(DecodeUtf8(b).value) == b
    decreases |b|
  {
    hide EncodeScalar, DecodeScalar, Units, FirstScalar, ValidUtf16;
    if b == [] {
      assert ValidUtf16([]) by { EmptyIsValid(); }
    } else {
      ScalarWritesBack(b);
      var (c, n) := DecodeScalar(b).value;
      Utf8WritesBack(b[n..]);
      FirstOfUnits(c, DecodeUtf8(b[n..]).value);
      assert b == b[..n] + b[n..];
    }
  }

  lemma {:induction false} Utf8NoLonger(b: seq<Byte>)
    requires DecodeUtf8(b).Some?
    ensures |DecodeUtf8(b).value| <= |b|
    decreases |b|
  {
    if b == [] {
    } else {
      DecodedIsScalar(b);
      Utf8NoLonger(b[DecodeScalar(b).value.1..]);
    }
  }

  lemma EmptyIsValid()
    ensures ValidUtf16([])
  {}

  // ---- the marks ----

  const MARK: Unit := 0xFEFF

  predicate StartsWithMark(b: seq<Byte>) { |b| >= 3 && b[0] == 0xEF && b[1] == 0xBB && b[2] == 0xBF }
  predicate Starts(b: seq<Byte>, x: Byte, y: Byte) { |b| >= 2 && b[0] == x && b[1] == y }

  // UTF-8 never begins like a UTF-16 mark, and begins like its own mark exactly when the text does.
  lemma Utf8Marks(text: seq<Unit>)
    requires ValidUtf16(text)
    ensures var b := EncodeUtf8(text);
            && !Starts(b, 0xFF, 0xFE) && !Starts(b, 0xFE, 0xFF)
            && (StartsWithMark(b) <==> text != [] && text[0] == MARK)
            && (text != [] && text[0] == MARK ==> ValidUtf16(text[1..]) && b == [0xEF, 0xBB, 0xBF] + EncodeUtf8(text[1..]))
  {
    if text != [] {
      var (c, n) := FirstScalar(text);
      var e, b := EncodeScalar(c), EncodeUtf8(text);
      assert b == e + EncodeUtf8(text[n..]);
      assert forall i :: 0 <= i < |e| ==> b[i] == e[i];
      hide EncodeUtf8;
      FirstBytes(c, b);
    }
  }

  lemma FirstBytes(c: int, b: seq<Byte>)
    requires IsScalar(c) && |b| >= |EncodeScalar(c)| && forall i :: 0 <= i < |EncodeScalar(c)| ==> b[i] == EncodeScalar(c)[i]
    ensures b[0] < 0xF5
    ensures StartsWithMark(b) <==> c == 0xFEFF
    ensures EncodeScalar(0xFEFF) == [0xEF, 0xBB, 0xBF]
  {
    if 0x800 <= c < 0x1_0000 {
      Digits3(c);
      assert b[0] == 0xE0 + c / 4096 && b[1] == 0x80 + c / 64 % 64 && b[2] == 0x80 + c % 64;
    } else if 0x80 <= c < 0x800 {
      Digits2(c);
    } else if c >= 0x1_0000 {
      Digits4(c);
    }
  }

  // ---- UTF-16 bytes ----

  function Pair(u: Unit, big: bool): (r: seq<Byte>)
    ensures |r| == 2
  {
    if big then [u / 256, u % 256] else [u % 256, u / 256]
  }

  function UnitOf(first: Byte, second: Byte, big: bool): Unit {
    if big then (first as int) * 256 + second else first as int + (second as int) * 256
  }

  function Pairs(text: seq<Unit>, big: bool): (r: seq<Byte>)
    ensures |r| == 2 * |text|
  {
    if text == [] then [] else Pair(text[0], big) + Pairs(text[1..], big)
  }

  function Unpair(b: seq<Byte>, big: bool): (r: seq<Unit>)
    requires |b| % 2 == 0
    ensures |r| == |b| / 2
    decreases |b|
  {
    if b == [] then [] else [UnitOf(b[0], b[1], big)] + Unpair(b[2..], big)
  }

  lemma {:induction false} PairsReadBack(text: seq<Unit>, big: bool)
    ensures Unpair(Pairs(text, big), big) == text
  {
    if text == [] {
    } else {
      PairsReadBack(text[1..], big);
      assert Pairs(text, big)[2..] == Pairs(text[1..], big);
    }
  }

  lemma {:induction false} PairsWriteBack(b: seq<Byte>, big: bool)
    requires |b| % 2 == 0
    ensures Pairs(Unpair(b, big), big) == b
    decreases |b|
  {
    hide UnitOf, Pair, Pairs;
    if b == [] {
      NoPairs([], big);
    } else {
      PairsWriteBack(b[2..], big);
      FirstPair(UnitOf(b[0], b[1], big), Unpair(b[2..], big), big);
      PairOfUnit(b[0], b[1], big);
      assert b == [b[0], b[1]] + b[2..];
    }
  }

  lemma FirstPair(u: Unit, rest: seq<Unit>, big: bool)
    ensures Pairs([u] + rest, big) == Pair(u, big) + Pairs(rest, big)
  {
    assert ([u] + rest)[1..] == rest;
  }

  lemma PairOfUnit(first: Byte, second: Byte, big: bool)
    ensures Pair(UnitOf(first, second, big), big) == [first, second]
  {}

  lemma PairAt(text: seq<Unit>, i: nat, big: bool)
    requires i < |text|
    ensures Pairs(text[..i + 1], big) == Pairs(text[..i], big) + Pair(text[i], big)
  {
    PairsConcat(text[..i], [text[i]], big);
    assert text[..i + 1] == text[..i] + [text[i]];
    assert [text[i]][1..] == [];
    assert Pairs([text[i]], big) == Pair(text[i], big) + Pairs([], big);
  }

  lemma {:induction false} PairsConcat(a: seq<Unit>, c: seq<Unit>, big: bool)
    ensures Pairs(a + c, big) == Pairs(a, big) + Pairs(c, big)
  {
    if a == [] {
      assert a + c == c;
    } else {
      assert (a + c)[1..] == a[1..] + c;
      PairsConcat(a[1..], c, big);
    }
  }

  // ---- a whole file ----

  predicate IsUtf8(e: Encoding) { e == Utf8 || e == Utf8Bom }

  function Encode(text: seq<Unit>, e: Encoding): Option<seq<Byte>> {
    if !ValidUtf16(text) then None
    else if IsUtf8(e) then
      if |text| > MAX_INT || |EncodeUtf8(text)| > MAX_INT then None
      else Some((if e == Utf8Bom then [0xEF, 0xBB, 0xBF] else []) + EncodeUtf8(text))
    else Some((if e == Utf16Be then [0xFE, 0xFF] else [0xFF, 0xFE]) + Pairs(text, e == Utf16Be))
  }

  function DecodeUtf16(b: seq<Byte>, big: bool): Option<seq<Unit>> {
    if |b| % 2 != 0 then None
    else
      var text := Unpair(b, big);
      if ValidUtf16(text) then Some(text) else None
  }

  function StrictUtf8(b: seq<Byte>): Option<seq<Unit>> { if |b| > MAX_INT then None else DecodeUtf8(b) }

  // The encoding a file is taken to have, and the text in it.
  function Decode(b: seq<Byte>): (Encoding, Option<seq<Unit>>) {
    if Starts(b, 0xFF, 0xFE) then (Utf16Le, DecodeUtf16(b[2..], false))
    else if Starts(b, 0xFE, 0xFF) then (Utf16Be, DecodeUtf16(b[2..], true))
    else if StartsWithMark(b) then (Utf8Bom, StrictUtf8(b[3..]))
    else (Utf8, StrictUtf8(b))
  }

  // Reading what was written gives back text and encoding, except for plain UTF-8 text that itself begins with the mark:
  // that comes back as marked text without it.
  lemma FileReadsBack(text: seq<Unit>, e: Encoding)
    requires Encode(text, e).Some?
    ensures Decode(Encode(text, e).value) ==
            if e == Utf8 && text != [] && text[0] == MARK then (Utf8Bom, Some(text[1..])) else (e, Some(text))
  {
    hide EncodeUtf8, DecodeUtf8, ValidUtf16, Pairs, Unpair;
    var b := Encode(text, e).value;
    if IsUtf8(e) {
      Utf8Marks(text);
      Utf8ReadsBack(text);
      if e == Utf8Bom {
        assert b[3..] == EncodeUtf8(text);
      } else {
        assert b == EncodeUtf8(text);
        if text != [] && text[0] == MARK {
          Utf8ReadsBack(text[1..]);
          assert b[3..] == EncodeUtf8(text[1..]);
        }
      }
    } else {
      assert b[2..] == Pairs(text, e == Utf16Be);
      PairsReadBack(text, e == Utf16Be);
    }
  }

  // So text and encoding come back exactly when the text is not plain UTF-8 beginning with the mark.
  lemma FileReadsBackExactly(text: seq<Unit>, e: Encoding)
    requires Encode(text, e).Some?
    ensures Decode(Encode(text, e).value) == (e, Some(text)) <==> !(e == Utf8 && text != [] && text[0] == MARK)
  {
    FileReadsBack(text, e);
  }

  // Writing back what was read gives the same bytes: a file that is accepted is never altered by saving it unchanged.
  lemma FileWritesBack(b: seq<Byte>)
    requires Decode(b).1.Some?
    ensures var (e, text) := Decode(b);
            Encode(text.value, e) == Some(b)
  {
    hide EncodeUtf8, DecodeUtf8, ValidUtf16, Pairs, Unpair;
    var (e, text) := Decode(b);
    if IsUtf8(e) {
      var body := if e == Utf8Bom then b[3..] else b;
      Utf8WritesBack(body);
      Utf8NoLonger(body);
      if e == Utf8Bom {
        assert b == [0xEF, 0xBB, 0xBF] + b[3..];
      } else {
        assert [] + b == b;
      }
    } else {
      PairsWriteBack(b[2..], e == Utf16Be);
      assert b == b[..2] + b[2..];
      assert b[..2] == if e == Utf16Be then [0xFE, 0xFF] else [0xFF, 0xFE];
    }
  }

  // Ill-formed surrogates are refused both ways.
  lemma IllFormedRefused(text: seq<Unit>, e: Encoding)
    requires !ValidUtf16(text)
    ensures Encode(text, e) == None
    ensures !IsUtf8(e) ==> Decode((if e == Utf16Be then [0xFE, 0xFF] else [0xFF, 0xFE]) + Pairs(text, e == Utf16Be)) == (e, None)
  {
    if !IsUtf8(e) {
      hide Pairs, Unpair, ValidUtf16;
      var big := e == Utf16Be;
      var mark: seq<Byte> := if big then [0xFE, 0xFF] else [0xFF, 0xFE];
      PairsReadBack(text, big);
      assert (mark + Pairs(text, big))[2..] == Pairs(text, big);
    }
  }

  // ---- the routines ----

  method IsValidUtf16(text: seq<Unit>) returns (valid: bool)
    ensures valid == ValidUtf16(text)
  {
    var index := 0;
    while index < |text|
      invariant 0 <= index <= |text|
      invariant ValidUtf16(text) == ValidUtf16(text[index..])
    {
      var value, rest := text[index], text[index..];
      assert rest[1..] == text[index + 1..];
      if 0xD800 <= value <= 0xDBFF {
        index := index + 1;
        if index >= |text| || text[index] < 0xDC00 || text[index] > 0xDFFF { return false; }
        assert rest[2..] == text[index + 1..];
      } else if 0xDC00 <= value <= 0xDFFF {
        return false;
      }
      index := index + 1;
    }
    valid := true;
  }

  lemma UnpairNext(data: seq<Byte>, i: nat, big: bool)
    requires |data| % 2 == 0 && 2 * i + 1 < |data|
    ensures Unpair(data[2 * i..], big) == [UnitOf(data[2 * i], data[2 * i + 1], big)] + Unpair(data[2 * (i + 1)..], big)
  {
    assert data[2 * i..][2..] == data[2 * (i + 1)..];
  }

  lemma UnpairEnds(data: seq<Byte>, big: bool)
    requires |data| % 2 == 0
    ensures data[0..] == data && Unpair(data[|data|..], big) == []
  {}

  method ReadUnits(data: seq<Byte>, big: bool) returns (units: seq<Unit>)
    requires |data| % 2 == 0
    ensures units == Unpair(data, big)
  {
    hide Unpair;
    var output := new Unit[|data| / 2];
    UnpairEnds(data, big);
    for index := 0 to output.Length
      invariant output[..index] + Unpair(data[2 * index..], big) == Unpair(data, big)
    {
      UnpairNext(data, index, big);
      ghost var done := output[..index];
      output[index] := UnitOf(data[index * 2], data[index * 2 + 1], big);
      assert output[..index + 1] == done + [output[index]];
    }
    assert output[..output.Length] == output[..];
    units := output[..];
    assert units + [] == units;
  }

  method DecodeUtf16Bytes(data: seq<Byte>, big: bool) returns (text: Option<seq<Unit>>)
    ensures text == DecodeUtf16(data, big)
  {
    if |data| % 2 != 0 { return None; }
    var units := ReadUnits(data, big);
    var valid := IsValidUtf16(units);
    text := if valid then Some(units) else None;
  }

  method StorePair(output: array<Byte>, at: nat, value: Unit, big: bool)
    requires at + 2 <= output.Length
    modifies output
    ensures output[..at + 2] == old(output[..at]) + Pair(value, big)
  {
    output[at] := if big then value / 256 else value % 256;
    output[at + 1] := if big then value % 256 else value / 256;
    assert output[..at + 2] == output[..at] + [output[at], output[at + 1]];
  }

  method WriteUnits(text: seq<Unit>, big: bool) returns (bytes: seq<Byte>)
    ensures bytes == (if big then [0xFE, 0xFF] else [0xFF, 0xFE]) + Pairs(text, big)
  {
    hide Pairs, Pair;
    var output := new Byte[2 + |text| * 2];
    output[0] := if big then 0xFE else 0xFF;
    output[1] := if big then 0xFF else 0xFE;
    ghost var mark: seq<Byte> := if big then [0xFE, 0xFF] else [0xFF, 0xFE];
    assert output[..2] == mark;
    NoPairs(text, big);
    for index := 0 to |text|
      invariant output[..2 + index * 2] == mark + Pairs(text[..index], big)
    {
      PairAt(text, index, big);
      StorePair(output, 2 + index * 2, text[index], big);
    }
    assert text[..|text|] == text;
    assert output[..2 + |text| * 2] == output[..];
    bytes := output[..];
  }

  lemma NoPairs(text: seq<Unit>, big: bool)
    ensures Pairs(text[..0], big) == []
  {}

  method EncodeText(text: seq<Unit>, e: Encoding) returns (bytes: Option<seq<Byte>>)
    ensures bytes == Encode(text, e)
  {
    hide ValidUtf16, EncodeUtf8, Pairs;
    var valid := IsValidUtf16(text);
    if !valid { return None; }
    if IsUtf8(e) {
      if |text| > MAX_INT { return None; }
      var encoded := EncodeUtf8(text);
      if |encoded| > MAX_INT { return None; }
      var prefix: seq<Byte> := if e == Utf8Bom then [0xEF, 0xBB, 0xBF] else [];
      return Some(prefix + encoded);
    }
    var output := WriteUnits(text, e == Utf16Be);
    bytes := Some(output);
  }

  // The part of reading a file that tells the encoding from the first bytes.
  method DecodeFile(bytes: seq<Byte>) returns (encoding: Encoding, text: Option<seq<Unit>>)
    ensures (encoding, text) == Decode(bytes)
  {
    if |bytes| >= 2 && bytes[0] == 0xFF && bytes[1] == 0xFE {
      encoding := Utf16Le;
      text := DecodeUtf16Bytes(bytes[2..], false);
    } else if |bytes| >= 2 && bytes[0] == 0xFE && bytes[1] == 0xFF {
      encoding := Utf16Be;
      text := DecodeUtf16Bytes(bytes[2..], true);
    } else {
      var bom := |bytes| >= 3 && bytes[0] == 0xEF && bytes[1] == 0xBB && bytes[2] == 0xBF;
      encoding := if bom then Utf8Bom else Utf8;
      text := StrictUtf8(if bom then bytes[3..] else bytes);
    }
  }
}
