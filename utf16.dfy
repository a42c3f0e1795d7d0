/**
 * UTF-16 decoding as done by Rust's `String::from_utf16`: every high
 * surrogate must be followed by a low surrogate, and a low surrogate may only
 * follow a high one; anything else is a `FromUtf16Error`.
 */
module Utf16 {
  import opened Com

  type CodeUnit = u: int | 0 <= u < 0x1_0000

  predicate IsHigh(u: int) { 0xD800 <= u < 0xDC00 }
  predicate IsLow(u: int) { 0xDC00 <= u < 0xE000 }

  /** No unpaired surrogate anywhere in `w`, stated position by position. */
  ghost predicate WellFormed(w: seq<CodeUnit>) {
    && (forall i :: 0 <= i < |w| && IsHigh(w[i]) ==> i + 1 < |w| && IsLow(w[i + 1]))
    && (forall i :: 0 < i < |w| && IsLow(w[i]) ==> IsHigh(w[i - 1]))
    && (|w| > 0 ==> !IsLow(w[0]))
  }

  /** The scalar value a surrogate pair stands for. */
  function Pair(hi: CodeUnit, lo: CodeUnit): (c: char)
    requires IsHigh(hi) && IsLow(lo)
    ensures 0x1_0000 <= c as int <= 0x10_FFFF
  {
    (0x1_0000 + (hi - 0xD800) * 0x400 + (lo - 0xDC00)) as char
  }

  /**
   * `String::from_utf16`, front to back: each scalar value takes one code
   * unit, or two for a surrogate pair.
   */
  function Decode(w: seq<CodeUnit>): (r: Option<string>)
    decreases |w|
  {
    if w == [] then Some([])
    else if IsHigh(w[0]) then
      if |w| >= 2 && IsLow(w[1]) then
        match Decode(w[2..])
        case None => None
        case Some(rest) => Some([Pair(w[0], w[1])] + rest)
      else None
    else if IsLow(w[0]) then None
    else
      match Decode(w[1..])
      case None => None
      case Some(rest) => Some([w[0] as char] + rest)
  }

  /** The UTF-16 form of one scalar value. */
  function EncodeChar(c: char): (w: seq<CodeUnit>)
    ensures |w| == 1 || |w| == 2
  {
    if c as int < 0x1_0000 then [c as int]
    else
      var v := c as int - 0x1_0000;
      [0xD800 + v / 0x400, 0xDC00 + v % 0x400]
  }

  /** The UTF-16 form of a string: the reference encoder `Decode` inverts. */
  function Encode(s: string): (w: seq<CodeUnit>)
    ensures |w| >= |s|
  {
    if s == [] then [] else EncodeChar(s[0]) + Encode(s[1..])
  }

  /** Decoding succeeds exactly on the well-formed sequences. */
  lemma {:induction false} DecodeSucceedsIffWellFormed(w: seq<CodeUnit>)
    ensures Decode(w).Some? <==> WellFormed(w)
    decreases |w|
  {
    if w == [] {
    } else if IsHigh(w[0]) {
      if |w| >= 2 && IsLow(w[1]) {
        DecodeSucceedsIffWellFormed(w[2..]);
        WellFormedAfterPair(w);
      } else {
        assert !WellFormed(w);
      }
    } else if IsLow(w[0]) {
      assert !WellFormed(w);
    } else {
      DecodeSucceedsIffWellFormed(w[1..]);
      WellFormedAfterUnit(w);
    }
  }

  lemma WellFormedAfterPair(w: seq<CodeUnit>)
    requires |w| >= 2 && IsHigh(w[0]) && IsLow(w[1])
    ensures WellFormed(w) <==> WellFormed(w[2..])
  {
    var t := w[2..];
    if WellFormed(t) {
      forall i | 0 <= i < |w| && IsHigh(w[i]) ensures i + 1 < |w| && IsLow(w[i + 1]) {
        if i >= 2 { assert t[i - 2] == w[i]; }
      }
      forall i | 0 < i < |w| && IsLow(w[i]) ensures IsHigh(w[i - 1]) {
        if i >= 3 { assert t[i - 2] == w[i] && t[i - 3] == w[i - 1]; }
      }
    }
    if WellFormed(w) {
      forall i | 0 <= i < |t| && IsHigh(t[i]) ensures i + 1 < |t| && IsLow(t[i + 1]) {
        assert w[i + 2] == t[i];
      }
      forall i | 0 < i < |t| && IsLow(t[i]) ensures IsHigh(t[i - 1]) {
        assert w[i + 2] == t[i];
      }
      if |t| > 0 { assert w[2] == t[0]; }
    }
  }

  lemma WellFormedAfterUnit(w: seq<CodeUnit>)
    requires |w| >= 1 && !IsHigh(w[0]) && !IsLow(w[0])
    ensures WellFormed(w) <==> WellFormed(w[1..])
  {
    var t := w[1..];
    if WellFormed(t) {
      forall i | 0 <= i < |w| && IsHigh(w[i]) ensures i + 1 < |w| && IsLow(w[i + 1]) {
        if i >= 1 { assert t[i - 1] == w[i]; }
      }
      forall i | 0 < i < |w| && IsLow(w[i]) ensures IsHigh(w[i - 1]) {
        if i >= 2 { assert t[i - 1] == w[i] && t[i - 2] == w[i - 1]; }
      }
    }
    if WellFormed(w) {
      forall i | 0 <= i < |t| && IsHigh(t[i]) ensures i + 1 < |t| && IsLow(t[i + 1]) {
        assert w[i + 1] == t[i];
      }
      forall i | 0 < i < |t| && IsLow(t[i]) ensures IsHigh(t[i - 1]) {
        assert w[i + 1] == t[i];
      }
    }
  }

  /** Every string survives the trip through UTF-16. */
  lemma {:induction false} DecodeEncode(s: string)
    ensures Decode(Encode(s)) == Some(s)
  {
    if s != [] {
      DecodeEncode(s[1..]);
      var c, w, rest := s[0], Encode(s), Encode(s[1..]);
      var u := EncodeChar(c);
      assert w == u + rest;
      if c as int < 0x1_0000 {
        assert w[0] == c as int && w[1..] == rest;
        assert (w[0] as char) == c;
      } else {
        var v := c as int - 0x1_0000;
        assert v == (v / 0x400) * 0x400 + v % 0x400;
        assert w[0] == 0xD800 + v / 0x400 && w[1] == 0xDC00 + v % 0x400;
        assert w[2..] == rest;
        assert Pair(w[0], w[1]) == c;
      }
      assert [c] + s[1..] == s;
    }
  }

  /** Whatever decodes re-encodes to the very same code units. */
  lemma {:induction false} EncodeDecode(w: seq<CodeUnit>)
    requires Decode(w).Some?
    ensures Encode(Decode(w).value) == w
    decreases |w|
  {
    if w != [] {
      var s := Decode(w).value;
      if IsHigh(w[0]) {
        EncodeDecode(w[2..]);
        var c := Pair(w[0], w[1]);
        assert s == [c] + Decode(w[2..]).value;
        assert s[1..] == Decode(w[2..]).value;
        PairEncodes(w[0], w[1]);
        assert EncodeChar(c) == w[..2];
        assert w == w[..2] + w[2..];
      } else {
        EncodeDecode(w[1..]);
        assert s[1..] == Decode(w[1..]).value;
        assert EncodeChar(s[0]) == w[..1];
        assert w == w[..1] + w[1..];
      }
    }
  }

  /** A surrogate pair re-encodes to itself. */
  lemma PairEncodes(hi: CodeUnit, lo: CodeUnit)
    requires IsHigh(hi) && IsLow(lo)
    ensures EncodeChar(Pair(hi, lo)) == [hi, lo]
  {
    var v := Pair(hi, lo) as int - 0x1_0000;
    assert v / 0x400 == hi - 0xD800 && v % 0x400 == lo - 0xDC00;
  }

  /** Each scalar value takes one code unit, or two for a surrogate pair. */
  lemma {:induction false} DecodeLength(w: seq<CodeUnit>)
    requires Decode(w).Some?
    ensures |Decode(w).value| <= |w| <= 2 * |Decode(w).value|
    decreases |w|
  {
    if w != [] {
      if IsHigh(w[0]) { DecodeLength(w[2..]); } else { DecodeLength(w[1..]); }
    }
  }

  /** Decoding is a partial inverse of `Encode`, in both directions. */
  lemma DecodeIsEncodeInverse(w: seq<CodeUnit>, s: string)
    ensures Decode(w) == Some(s) <==> w == Encode(s)
  {
    if Decode(w) == Some(s) { EncodeDecode(w); }
    if w == Encode(s) { DecodeEncode(s); }
  }
}
