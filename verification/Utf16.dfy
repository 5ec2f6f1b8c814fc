// Normalizing file contents to UTF-8 (encoding.rs:24-59): byte order marks are
// stripped and UTF-16 in either byte order is transcoded.
module Utf16 {
  import opened Snapshots

  // Unicode scalar values, and 16-bit code units.
  type Scalar = x: nat | x < 0xD800 || 0xE000 <= x < 0x11_0000
  type Unit = x: nat | x < 0x1_0000

  const REPLACEMENT: Scalar := 0xFFFD

  predicate IsHigh(u: Unit) { 0xD800 <= u < 0xDC00 }

  predicate IsLow(u: Unit) { 0xDC00 <= u < 0xE000 }

  // ---------------------------------------------------------------- UTF-8 (section 3 of RFC 3629)

  function Utf8Char(c: Scalar): seq<Byte> {
    if c < 0x80 then [c]
    else if c < 0x800 then [0xC0 + c / 0x40, 0x80 + c % 0x40]
    else if c < 0x1_0000 then [0xE0 + c / 0x1000, 0x80 + c / 0x40 % 0x40, 0x80 + c % 0x40]
    else [0xF0 + c / 0x4_0000, 0x80 + c / 0x1000 % 0x40, 0x80 + c / 0x40 % 0x40, 0x80 + c % 0x40]
  }

  function Utf8(cs: seq<Scalar>): seq<Byte> { if |cs| == 0 then [] else Utf8Char(cs[0]) + Utf8(cs[1..]) }

  // ---------------------------------------------------------------- UTF-16 (section 2 of RFC 2781)

  // Section 2.1: one unit, or a surrogate pair.
  function UnitsOf(c: Scalar): seq<Unit> {
    if c < 0x1_0000 then [c] else [0xD800 + (c - 0x1_0000) / 0x400, 0xDC00 + (c - 0x1_0000) % 0x400]
  }

  function ToUnits(cs: seq<Scalar>): seq<Unit> { if |cs| == 0 then [] else UnitsOf(cs[0]) + ToUnits(cs[1..]) }

  function UnitBytes(u: Unit, big: bool): seq<Byte> { if big then [u / 256, u % 256] else [u % 256, u / 256] }

  function ToBytes(us: seq<Unit>, big: bool): seq<Byte> {
    if |us| == 0 then [] else UnitBytes(us[0], big) + ToBytes(us[1..], big)
  }

  function Mark(big: bool): seq<Byte> { if big then [0xFE, 0xFF] else [0xFF, 0xFE] }

  // ---------------------------------------------------------------- decoding

  // The complete pairs of bytes; an odd last byte is left over.
  function Units(bytes: seq<Byte>, big: bool): (us: seq<Unit>)
    ensures |us| == |bytes| / 2
  {
    if |bytes| < 2 then []
    else [UnitFrom(bytes[0], bytes[1], big)] + Units(bytes[2..], big)
  }

  function UnitFrom(a: Byte, b: Byte, big: bool): Unit { if big then a * 256 + b else a + b * 256 }

  function Combine(high: Unit, low: Unit): Scalar
    requires IsHigh(high) && IsLow(low)
  {
    0x1_0000 + (high - 0xD800) * 0x400 + (low - 0xDC00)
  }

  // Section 2.2, with a replacement for each surrogate that is not paired.
  function DecodeFrom(us: seq<Unit>, i: nat): seq<Scalar>
    requires i <= |us|
    decreases |us| - i
  {
    if i == |us| then []
    else if IsHigh(us[i]) then
      if i + 1 < |us| && IsLow(us[i + 1]) then [Combine(us[i], us[i + 1])] + DecodeFrom(us, i + 2)
      else [REPLACEMENT] + DecodeFrom(us, i + 1)
    else if IsLow(us[i]) then [REPLACEMENT] + DecodeFrom(us, i + 1)
    else [us[i]] + DecodeFrom(us, i + 1)
  }

  // What is pushed after the last unit for a trailing odd byte.
  function Trailer(bytes: seq<Byte>): seq<Scalar> { if |bytes| % 2 == 1 then [REPLACEMENT] else [] }

  function DecodeUtf16(bytes: seq<Byte>, big: bool): seq<Byte> {
    Utf8(DecodeFrom(Units(bytes, big), 0) + Trailer(bytes))
  }

  predicate HasPrefix(content: seq<Byte>, prefix: seq<Byte>) { |content| >= |prefix| && content[..|prefix|] == prefix }

  function Normalize(content: seq<Byte>): seq<Byte> {
    if HasPrefix(content, [0xEF, 0xBB, 0xBF]) then content[3..]
    else if HasPrefix(content, Mark(false)) then DecodeUtf16(content[2..], false)
    else if HasPrefix(content, Mark(true)) then DecodeUtf16(content[2..], true)
    else content
  }

  // ---------------------------------------------------------------- round trip

  lemma {:induction false} UnitsBack(us: seq<Unit>, big: bool)
    ensures Units(ToBytes(us, big), big) == us && |ToBytes(us, big)| == 2 * |us|
  {
    if |us| != 0 {
      UnitsBack(us[1..], big);
      assert ToBytes(us, big)[2..] == ToBytes(us[1..], big);
    }
  }

  lemma PairBack(c: Scalar)
    requires c >= 0x1_0000
    ensures IsHigh(UnitsOf(c)[0]) && IsLow(UnitsOf(c)[1]) && Combine(UnitsOf(c)[0], UnitsOf(c)[1]) == c
  {
    var d := c - 0x1_0000;
    assert d == d / 0x400 * 0x400 + d % 0x400;
  }

  lemma DecodesOne(us: seq<Unit>, i: nat, c: Scalar)
    requires c < 0x1_0000 && i < |us| && us[i] == c
    ensures DecodeFrom(us, i) == [c] + DecodeFrom(us, i + 1)
  {
  }

  lemma DecodesPair(us: seq<Unit>, i: nat, c: Scalar)
    requires c >= 0x1_0000 && i + 1 < |us| && us[i] == UnitsOf(c)[0] && us[i + 1] == UnitsOf(c)[1]
    ensures DecodeFrom(us, i) == [c] + DecodeFrom(us, i + 2)
  {
    PairBack(c);
  }

  lemma MiddleOf(pre: seq<Unit>, mid: seq<Unit>, rest: seq<Unit>, k: nat)
    requires k < |mid|
    ensures (pre + mid + rest)[|pre| + k] == mid[k]
  {
  }

  lemma CharBack(pre: seq<Unit>, c: Scalar, rest: seq<Unit>)
    ensures var us := pre + UnitsOf(c) + rest; DecodeFrom(us, |pre|) == [c] + DecodeFrom(us, |pre| + |UnitsOf(c)|)
  {
    if c < 0x1_0000 {
      OneInPlace(pre, c, rest);
    } else {
      PairInPlace(pre, c, rest);
    }
  }

  lemma OneInPlace(pre: seq<Unit>, c: Scalar, rest: seq<Unit>)
    requires c < 0x1_0000
    ensures var us := pre + UnitsOf(c) + rest; DecodeFrom(us, |pre|) == [c] + DecodeFrom(us, |pre| + 1)
  {
    MiddleOf(pre, UnitsOf(c), rest, 0);
    DecodesOne(pre + UnitsOf(c) + rest, |pre|, c);
  }

  lemma PairInPlace(pre: seq<Unit>, c: Scalar, rest: seq<Unit>)
    requires c >= 0x1_0000
    ensures var us := pre + UnitsOf(c) + rest; DecodeFrom(us, |pre|) == [c] + DecodeFrom(us, |pre| + 2)
  {
    MiddleOf(pre, UnitsOf(c), rest, 0);
    MiddleOf(pre, UnitsOf(c), rest, 1);
    DecodesPair(pre + UnitsOf(c) + rest, |pre|, c);
  }

  lemma {:induction false} CharsBack(pre: seq<Unit>, cs: seq<Scalar>)
    ensures DecodeFrom(pre + ToUnits(cs), |pre|) == cs
    decreases |cs|
  {
    if |cs| == 0 {
      assert pre + ToUnits(cs) == pre;
    } else {
      var next, rest := pre + UnitsOf(cs[0]), ToUnits(cs[1..]);
      assert pre + ToUnits(cs) == next + rest;
      CharBack(pre, cs[0], rest);
      CharsBack(next, cs[1..]);
    }
  }

  // The mark alone decides how the rest is read.
  lemma MarkDecides(body: seq<Byte>, big: bool)
    ensures Normalize(Mark(big) + body) == DecodeUtf16(body, big)
  {
    var content := Mark(big) + body;
    assert content[..2] == Mark(big) && content[2..] == body;
    assert |content| >= 3 ==> content[..3][0] == content[0] == Mark(big)[0];
    assert Mark(false)[0] != Mark(true)[0];
  }

  // Main theorem: any text, in UTF-16 of either byte order behind its mark,
  // normalizes to its UTF-8 form.
  lemma TranscodesExactly(cs: seq<Scalar>, big: bool)
    ensures Normalize(Mark(big) + ToBytes(ToUnits(cs), big)) == Utf8(cs)
  {
    var body := ToBytes(ToUnits(cs), big);
    MarkDecides(body, big);
    UnitsBack(ToUnits(cs), big);
    CharsBack([], cs);
    assert [] + ToUnits(cs) == ToUnits(cs);
    assert Trailer(body) == [] && cs + [] == cs;
  }

  lemma FirstBytes(c: Scalar)
    ensures Utf8Char(c)[0] < 0xF8
    ensures Utf8Char(c)[0] == 0xEF ==> |Utf8Char(c)| == 3
    ensures Utf8Char(c) == [0xEF, 0xBB, 0xBF] ==> c == 0xFEFF
  {
    if c >= 0x800 && c < 0x1_0000 {
      assert c / 0x40 == c / 0x1000 * 0x40 + c / 0x40 % 0x40;
    }
  }

  // Text without a mark is left alone, and a UTF-8 mark is stripped.
  lemma Utf8Untouched(cs: seq<Scalar>)
    ensures Normalize([0xEF, 0xBB, 0xBF] + Utf8(cs)) == Utf8(cs)
    ensures cs != [] && cs[0] != 0xFEFF ==> Normalize(Utf8(cs)) == Utf8(cs)
  {
    var marked := [0xEF, 0xBB, 0xBF] + Utf8(cs);
    assert marked[..3] == [0xEF, 0xBB, 0xBF] && marked[3..] == Utf8(cs);
    if cs != [] && cs[0] != 0xFEFF {
      FirstBytes(cs[0]);
      Unmarked(Utf8(cs), Utf8Char(cs[0]));
    }
  }

  lemma Unmarked(content: seq<Byte>, first: seq<Byte>)
    requires 0 < |first| <= |content| && content[..|first|] == first
    requires first[0] < 0xF8 && (first[0] == 0xEF ==> |first| == 3) && first != [0xEF, 0xBB, 0xBF]
    ensures Normalize(content) == content
  {
    assert content[0] == first[0];
    assert !HasPrefix(content, Mark(false)) && !HasPrefix(content, Mark(true)) by {
      assert Mark(false)[0] == 0xFF && Mark(true)[0] == 0xFE;
      assert |content| >= 2 ==> content[..2][0] == content[0];
    }
    assert !HasPrefix(content, [0xEF, 0xBB, 0xBF]) by {
      assert |content| >= 3 ==> content[..3][0] == content[0];
    }
  }

  // ---------------------------------------------------------------- replacements

  // A surrogate without its partner: said of positions, not of the decoder.
  predicate LoneAt(us: seq<Unit>, i: nat)
    requires i < |us|
  {
    || (IsHigh(us[i]) && !(i + 1 < |us| && IsLow(us[i + 1])))
    || (IsLow(us[i]) && !(i > 0 && IsHigh(us[i - 1])))
  }

  function LoneCount(us: seq<Unit>, i: nat): nat
    requires i <= |us|
    decreases |us| - i
  {
    if i == |us| then 0 else (if LoneAt(us, i) then 1 else 0) + LoneCount(us, i + 1)
  }

  function WrittenCount(us: seq<Unit>, i: nat): nat
    requires i <= |us|
    decreases |us| - i
  {
    if i == |us| then 0 else (if us[i] == REPLACEMENT then 1 else 0) + WrittenCount(us, i + 1)
  }

  function Replacements(cs: seq<Scalar>): nat {
    if |cs| == 0 then 0 else (if cs[0] == REPLACEMENT then 1 else 0) + Replacements(cs[1..])
  }

  lemma {:induction false} ReplacementsFrom(us: seq<Unit>, i: nat)
    requires i <= |us| && !(0 < i < |us| && IsHigh(us[i - 1]) && IsLow(us[i]))
    ensures Replacements(DecodeFrom(us, i)) == LoneCount(us, i) + WrittenCount(us, i)
    decreases |us| - i
  {
    if i < |us| {
      var out := DecodeFrom(us, i);
      if IsHigh(us[i]) && i + 1 < |us| && IsLow(us[i + 1]) {
        ReplacementsFrom(us, i + 2);
        assert out[1..] == DecodeFrom(us, i + 2);
        assert LoneCount(us, i) == LoneCount(us, i + 1) == LoneCount(us, i + 2);
        assert WrittenCount(us, i) == WrittenCount(us, i + 1) == WrittenCount(us, i + 2);
      } else {
        ReplacementsFrom(us, i + 1);
        assert out[1..] == DecodeFrom(us, i + 1);
      }
    }
  }

  lemma {:induction false} ReplacementsAppend(a: seq<Scalar>, b: seq<Scalar>)
    ensures Replacements(a + b) == Replacements(a) + Replacements(b)
  {
    if |a| == 0 {
      assert a + b == b;
    } else {
      assert (a + b)[1..] == a[1..] + b;
      ReplacementsAppend(a[1..], b);
    }
  }

  // What the unit at `i` contributes: a replacement if it stands alone, the
  // whole character if it is the first half of a pair, nothing if it is the
  // second, and otherwise itself.
  function EmitAt(us: seq<Unit>, i: nat): seq<Scalar>
    requires i < |us|
  {
    if LoneAt(us, i) then [REPLACEMENT]
    else if IsHigh(us[i]) then [Combine(us[i], us[i + 1])]
    else if IsLow(us[i]) then []
    else [us[i]]
  }

  function Emitted(us: seq<Unit>, n: nat): seq<Scalar>
    requires n <= |us|
  {
    if n == 0 then [] else Emitted(us, n - 1) + EmitAt(us, n - 1)
  }

  // The decoder gives each unit its contribution, in order.
  lemma {:induction false} DecodesInPlace(us: seq<Unit>, i: nat)
    requires i <= |us| && !(0 < i < |us| && IsHigh(us[i - 1]) && IsLow(us[i]))
    ensures Emitted(us, i) + DecodeFrom(us, i) == Emitted(us, |us|)
    decreases |us| - i
  {
    if i < |us| {
      if IsHigh(us[i]) && i + 1 < |us| && IsLow(us[i + 1]) {
        assert EmitAt(us, i) == [Combine(us[i], us[i + 1])] && EmitAt(us, i + 1) == [];
        assert Emitted(us, i + 2) == Emitted(us, i) + [Combine(us[i], us[i + 1])] by {
          assert Emitted(us, i + 1) == Emitted(us, i) + EmitAt(us, i);
        }
        DecodesInPlace(us, i + 2);
        SnocCons(Emitted(us, i), Combine(us[i], us[i + 1]), DecodeFrom(us, i + 2));
      } else {
        DecodesInPlace(us, i + 1);
        SnocCons(Emitted(us, i), EmitAt(us, i)[0], DecodeFrom(us, i + 1));
      }
    }
  }

  lemma SnocCons(a: seq<Scalar>, c: Scalar, b: seq<Scalar>)
    ensures (a + [c]) + b == a + ([c] + b)
  {
  }

  lemma {:induction false} EmittedPrefix(us: seq<Unit>, i: nat, n: nat)
    requires i <= n <= |us|
    ensures |Emitted(us, i)| <= |Emitted(us, n)| && Emitted(us, n)[..|Emitted(us, i)|] == Emitted(us, i)
    decreases n
  {
    if i < n {
      EmittedPrefix(us, i, n - 1);
    }
  }

  lemma DecodeIsEmitted(us: seq<Unit>)
    ensures DecodeFrom(us, 0) == Emitted(us, |us|)
  {
    DecodesInPlace(us, 0);
    assert Emitted(us, 0) + DecodeFrom(us, 0) == DecodeFrom(us, 0);
  }

  lemma PlaceOf(us: seq<Unit>, i: nat)
    requires i < |us| && LoneAt(us, i)
    ensures |Emitted(us, i)| < |Emitted(us, |us|)| && Emitted(us, |us|)[|Emitted(us, i)|] == REPLACEMENT
  {
    var upTo, all := Emitted(us, i + 1), Emitted(us, |us|);
    EmittedPrefix(us, i + 1, |us|);
    assert upTo == Emitted(us, i) + [REPLACEMENT];
    assert all[..|upTo|][|upTo| - 1] == REPLACEMENT;
  }

  // Each lone surrogate has its replacement at its own place.
  lemma ReplacedInPlace(us: seq<Unit>, i: nat)
    requires i < |us| && LoneAt(us, i)
    ensures |Emitted(us, i)| < |DecodeFrom(us, 0)| && DecodeFrom(us, 0)[|Emitted(us, i)|] == REPLACEMENT
  {
    DecodeIsEmitted(us);
    PlaceOf(us, i);
  }

  // For arbitrary bytes behind a mark: the UTF-8 form of the contributions of
  // all units, in order, and one more U+FFFD for a trailing odd byte; so with
  // one for each lone surrogate besides those that were written as such.
  lemma ReplacesExactly(bytes: seq<Byte>, big: bool)
    ensures var us := Units(bytes, big);
            var cs := Emitted(us, |us|) + Trailer(bytes);
            && Normalize(Mark(big) + bytes) == Utf8(cs)
            && Replacements(cs) == LoneCount(us, 0) + WrittenCount(us, 0) + |bytes| % 2
  {
    var us := Units(bytes, big);
    MarkDecides(bytes, big);
    DecodeIsEmitted(us);
    ReplacementsFrom(us, 0);
    ReplacementsAppend(Emitted(us, |us|), Trailer(bytes));
    assert Trailer(bytes) != [] ==> Trailer(bytes)[1..] == [];
  }

  // ---------------------------------------------------------------- the two forms, byte by byte

  // The shortest form, with the lead and continuation bytes of the table in
  // section 3 of RFC 3629.
  lemma Utf8Shape(c: Scalar)
    ensures var b := Utf8Char(c);
            && |b| == (if c <= 0x7F then 1 else if c <= 0x7FF then 2 else if c <= 0xFFFF then 3 else 4)
            && (|b| == 1 ==> b[0] == c)
            && (|b| == 2 ==> 0xC2 <= b[0] <= 0xDF) && (|b| == 3 ==> 0xE0 <= b[0] <= 0xEF)
            && (|b| == 4 ==> 0xF0 <= b[0] <= 0xF4)
            && (forall i :: 0 < i < |b| ==> 0x80 <= b[i] <= 0xBF)
  {
  }

  // Two bytes behind a mark, in the order that the mark announces.
  lemma OneUnitExactly(a: Byte, b: Byte)
    requires a + 256 * b < 0xD800 || 0xE000 <= a + 256 * b
    ensures Normalize([0xFF, 0xFE, a, b]) == Utf8Char(a + 256 * b)
    ensures Normalize([0xFE, 0xFF, b, a]) == Utf8Char(a + 256 * b)
  {
    var u: Scalar := a + 256 * b;
    assert [0xFF, 0xFE, a, b] == Mark(false) + [a, b] && [0xFE, 0xFF, b, a] == Mark(true) + [b, a];
    MarkDecides([a, b], false);
    MarkDecides([b, a], true);
    assert Units([a, b], false) == [u] == Units([b, a], true);
    assert DecodeFrom([u], 1) == [] && DecodeFrom([u], 0) == [u];
    assert Utf8([u]) == Utf8Char(u) + Utf8([]) && [u] + [] == [u];
  }

  // A pair of surrogates is one character, by the formula of section 2.1 of
  // RFC 2781.
  lemma PairExactly(high: Unit, low: Unit)
    requires 0xD800 <= high <= 0xDBFF && 0xDC00 <= low <= 0xDFFF
    ensures DecodeFrom([high, low], 0) == [0x1_0000 + (high - 0xD800) * 1024 + (low - 0xDC00)]
  {
    assert DecodeFrom([high, low], 2) == [];
  }

  // ---------------------------------------------------------------- UTF-8 can be read back

  // The character that some bytes start with, from its lead byte and up to
  // three continuation bytes.
  function FirstChar(bytes: seq<Byte>): int {
    if |bytes| == 0 then -1
    else if bytes[0] < 0x80 then bytes[0]
    else if bytes[0] < 0xE0 then bytes[0] as int * 0x40 + Rest(bytes, 1) - 0xC0 * 0x40
    else if bytes[0] < 0xF0 then bytes[0] as int * 0x1000 + Rest(bytes, 1) * 0x40 + Rest(bytes, 2) - 0xE0 * 0x1000
    else
      bytes[0] as int * 0x4_0000 + Rest(bytes, 1) * 0x1000 + Rest(bytes, 2) * 0x40 + Rest(bytes, 3) - 0xF0 * 0x4_0000
  }

  function Rest(bytes: seq<Byte>, k: nat): int { if k < |bytes| then bytes[k] as int - 0x80 else -1 }

  lemma FirstCharBack(c: Scalar, rest: seq<Byte>)
    ensures FirstChar(Utf8Char(c) + rest) == c
  {
    var bytes := Utf8Char(c) + rest;
    assert forall k :: 0 <= k < |Utf8Char(c)| ==> bytes[k] == Utf8Char(c)[k];
    if 0x800 <= c < 0x1_0000 {
      assert c / 0x40 / 0x40 == c / 0x1000;
    } else if c >= 0x1_0000 {
      assert c / 0x40 / 0x40 == c / 0x1000 && c / 0x1000 / 0x40 == c / 0x4_0000;
    }
  }

  // Different texts have different UTF-8 forms, so the theorems above fix the
  // text and not only its bytes.
  lemma {:induction false} Utf8Injective(a: seq<Scalar>, b: seq<Scalar>)
    requires Utf8(a) == Utf8(b)
    ensures a == b
  {
    if |a| == 0 || |b| == 0 {
      Utf8NotEmpty(a);
      Utf8NotEmpty(b);
    } else {
      FirstCharBack(a[0], Utf8(a[1..]));
      FirstCharBack(b[0], Utf8(b[1..]));
      var n := |Utf8Char(a[0])|;
      assert Utf8(a)[n..] == Utf8(a[1..]) && Utf8(b)[n..] == Utf8(b[1..]);
      Utf8Injective(a[1..], b[1..]);
      assert a == [a[0]] + a[1..] && b == [b[0]] + b[1..];
    }
  }

  lemma Utf8NotEmpty(cs: seq<Scalar>)
    ensures |Utf8(cs)| >= |cs|
  {
    if |cs| != 0 {
      Utf8NotEmpty(cs[1..]);
    }
  }
}
