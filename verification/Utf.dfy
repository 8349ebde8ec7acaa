/** The Unicode encoding forms (section 3.9 of the Unicode Standard, RFC 3629, RFC 2781) and the six
    converters between them, described one character at a time and then over whole buffers. */
module Utf {
  import opened Transcoding

  const UNI_REPLACEMENT_CHAR: nat := 0xFFFD
  const UNI_MAX_BMP: nat := 0xFFFF
  const UNI_MAX_LEGAL_UTF32: nat := 0x10FFFF
  const SUR_HIGH_START: nat := 0xD800
  const SUR_HIGH_END: nat := 0xDBFF
  const SUR_LOW_START: nat := 0xDC00
  const SUR_LOW_END: nat := 0xDFFF

  predicate IsHigh(u: int) { SUR_HIGH_START <= u <= SUR_HIGH_END }

  predicate IsLow(u: int) { SUR_LOW_START <= u <= SUR_LOW_END }

  predicate IsSurrogate(u: int) { SUR_HIGH_START <= u <= SUR_LOW_END }

  predicate IsScalar(v: int) { 0 <= v <= UNI_MAX_LEGAL_UTF32 && !IsSurrogate(v) }

  type Scalar = v: int | IsScalar(v) witness 0

  // ---------- the encoding forms ----------

  datatype Form = Utf8 | Utf16 | Utf32

  /** Table 3-6. */
  function Enc8(v: int): seq<int>
    requires v <= UNI_MAX_LEGAL_UTF32
  {
    if v < 0x80 then [v]
    else if v < 0x800 then [0xC0 + v / 64, 0x80 + v % 64]
    else if v < 0x10000 then [0xE0 + v / 4096, 0x80 + v / 64 % 64, 0x80 + v % 64]
    else [0xF0 + v / 262144, 0x80 + v / 4096 % 64, 0x80 + v / 64 % 64, 0x80 + v % 64]
  }

  /** Table 3-5. */
  function Enc16(v: int): seq<int>
    requires v <= UNI_MAX_LEGAL_UTF32
  {
    if v < 0x10000 then [v]
    else [SUR_HIGH_START + (v - 0x10000) / 0x400, SUR_LOW_START + (v - 0x10000) % 0x400]
  }

  function Enc(form: Form, v: int): (s: seq<int>)
    requires v <= UNI_MAX_LEGAL_UTF32
    ensures 1 <= |s| <= 4
  {
    match form
    case Utf8 => Enc8(v)
    case Utf16 => Enc16(v)
    case Utf32 => [v]
  }

  function EncAll(form: Form, vs: seq<Scalar>): seq<int> {
    if vs == [] then [] else Enc(form, vs[0]) + EncAll(form, vs[1..])
  }

  // ---------- legality of UTF-8 sequences ----------

  function TrailingBytes(lead: int): nat {
    if lead < 0xC0 then 0
    else if lead < 0xE0 then 1
    else if lead < 0xF0 then 2
    else if lead < 0xF8 then 3
    else if lead < 0xFC then 4
    else 5
  }

  predicate IsTrail(b: int) { 0x80 <= b <= 0xBF }

  /** The library's test. The second byte after ED and F4 has an upper bound only. */
  predicate IsLegalUTF8(s: seq<int>)
    requires s != []
  {
    && 1 <= |s| <= 4
    && (forall i :: 0 <= i < |s| ==> 0 <= s[i])    // bytes are unsigned
    && (|s| == 4 ==> IsTrail(s[3]))
    && (|s| >= 3 ==> IsTrail(s[2]))
    && (|s| >= 2 ==>
        && s[1] <= 0xBF
        && (if s[0] == 0xE0 then s[1] >= 0xA0
            else if s[0] == 0xED then s[1] <= 0x9F
            else if s[0] == 0xF0 then s[1] >= 0x90
            else if s[0] == 0xF4 then s[1] <= 0x8F
            else s[1] >= 0x80))
    && !(0x80 <= s[0] < 0xC2)
    && s[0] <= 0xF4
  }

  /** Table 3-7: the well-formed UTF-8 byte sequences. */
  predicate Table37(s: seq<int>) {
    || (|s| == 1 && s[0] <= 0x7F)
    || (|s| == 2 && 0xC2 <= s[0] <= 0xDF && IsTrail(s[1]))
    || (|s| == 3 && s[0] == 0xE0 && 0xA0 <= s[1] <= 0xBF && IsTrail(s[2]))
    || (|s| == 3 && 0xE1 <= s[0] <= 0xEC && IsTrail(s[1]) && IsTrail(s[2]))
    || (|s| == 3 && s[0] == 0xED && 0x80 <= s[1] <= 0x9F && IsTrail(s[2]))
    || (|s| == 3 && 0xEE <= s[0] <= 0xEF && IsTrail(s[1]) && IsTrail(s[2]))
    || (|s| == 4 && s[0] == 0xF0 && 0x90 <= s[1] <= 0xBF && IsTrail(s[2]) && IsTrail(s[3]))
    || (|s| == 4 && 0xF1 <= s[0] <= 0xF3 && IsTrail(s[1]) && IsTrail(s[2]) && IsTrail(s[3]))
    || (|s| == 4 && s[0] == 0xF4 && 0x80 <= s[1] <= 0x8F && IsTrail(s[2]) && IsTrail(s[3]))
  }

  /** The bytes of a sequence run together, less the tag bits. */
  function Decode8(s: seq<int>): int
    requires 1 <= |s| <= 4
  {
    var lead: int := s[0];
    if |s| == 1 then lead
    else if |s| == 2 then lead * 64 + s[1] - 0x3080
    else if |s| == 3 then (lead * 64 + s[1]) * 64 + s[2] - 0xE2080
    else ((lead * 64 + s[1]) * 64 + s[2]) * 64 + s[3] - 0x3C82080
  }

  /** With the length its lead byte asks for, a sequence is accepted exactly when Table 3-7 has it or
      it is led by ED or F4 and its second byte is too small to be a trailing byte. */
  lemma LegalityIsTable37(s: seq<int>)
    requires s != [] && |s| == TrailingBytes(s[0]) + 1 && forall i :: 0 <= i < |s| ==> 0 <= s[i] < 0x100
    ensures IsLegalUTF8(s) <==>
              Table37(s) || (s[0] in {0xED, 0xF4} && s[1] < 0x80 && forall i :: 2 <= i < |s| ==> IsTrail(s[i]))
  {
  }

  /** Whatever is accepted decodes to a scalar value. */
  lemma LegalDecodesToScalar(s: seq<int>)
    requires s != [] && |s| == TrailingBytes(s[0]) + 1 && IsLegalUTF8(s)
    ensures Decode8(s) >= 0 && IsScalar(Decode8(s))
  {
  }

  // ---------- one character ----------

  datatype Converter = C32to16 | C16to32 | C16to8 | C8to16 | C32to8 | C8to32

  function Source(c: Converter): Form {
    match c
    case C32to16 => Utf32 case C32to8 => Utf32
    case C16to32 => Utf16 case C16to8 => Utf16
    case C8to16 => Utf8 case C8to32 => Utf8
  }

  function Target(c: Converter): Form {
    match c
    case C32to16 => Utf16 case C8to16 => Utf16
    case C16to32 => Utf32 case C8to32 => Utf32
    case C16to8 => Utf8 case C32to8 => Utf8
  }

  datatype Got = Got(ch: int, used: nat) | GotShort | GotIllegal

  /** Reads one character of UTF-16. */
  function Get16(strict: bool, s: seq<int>): (g: Got)
    requires s != []
    ensures g.Got? ==> 1 <= g.used <= |s|
  {
    if IsHigh(s[0]) then
      if |s| == 1 then GotShort
      else if IsLow(s[1]) then Got((s[0] - SUR_HIGH_START) * 0x400 + (s[1] - SUR_LOW_START) + 0x10000, 2)
      else if strict then GotIllegal
      else Got(s[0], 1)
    else if strict && IsLow(s[0]) then GotIllegal
    else Got(s[0], 1)
  }

  /** Reads one character of UTF-8. */
  function Get8(s: seq<int>): (g: Got)
    requires s != []
    ensures g.Got? ==> 1 <= g.used <= |s| && IsScalar(g.ch)
  {
    var n := TrailingBytes(s[0]) + 1;
    if n > |s| then GotShort
    else if !IsLegalUTF8(s[..n]) then GotIllegal
    else
      LegalDecodesToScalar(s[..n]);
      Got(Decode8(s[..n]), n)
  }

  function Put8(g: Got): Item {
    match g
    case GotShort => Short
    case GotIllegal => Illegal(0)
    case Got(ch, used) =>
      var units := Enc8(if ch <= UNI_MAX_LEGAL_UTF32 then ch else UNI_REPLACEMENT_CHAR);
      Chars(units, used, false, |units|)
  }

  function Put32(g: Got): Item {
    match g
    case GotShort => Short
    case GotIllegal => Illegal(0)
    case Got(ch, used) => Chars([ch], used, false, 1)
  }

  /** As Put32 for characters read from UTF-8, with the checks that can only fail for values UTF-8
      does not yield. */
  function Put32Checked(strict: bool, g: Got): Item {
    match g
    case GotShort => Short
    case GotIllegal => Illegal(0)
    case Got(ch, used) =>
      if ch > UNI_MAX_LEGAL_UTF32 then Chars([UNI_REPLACEMENT_CHAR], used, true, 1)
      else if !IsSurrogate(ch) then Chars([ch], used, false, 1)
      else if strict then Illegal(1)
      else Chars([UNI_REPLACEMENT_CHAR], used, false, 1)
  }

  function Put16(strict: bool, g: Got): Item {
    match g
    case GotShort => Short
    case GotIllegal => Illegal(0)
    case Got(ch, used) =>
      if IsSurrogate(ch) || ch > UNI_MAX_LEGAL_UTF32 then
        if strict then Illegal(1) else Chars([UNI_REPLACEMENT_CHAR], used, false, 1)
      else Chars(Enc16(ch), used, false, |Enc16(ch)|)
  }

  function Step(c: Converter, strict: bool, s: seq<int>): (r: Item)
    requires s != []
    ensures WellShaped(r, s)
  {
    match c
    case C16to32 => Put32(Get16(strict, s))
    case C16to8 => Put8(Get16(strict, s))
    case C8to32 => Put32Checked(strict, Get8(s))
    case C8to16 => Put16(strict, Get8(s))
    case C32to8 =>
      if strict && IsSurrogate(s[0]) then Illegal(0)
      else if s[0] > UNI_MAX_LEGAL_UTF32 then Chars(Enc8(UNI_REPLACEMENT_CHAR), 1, true, 3)
      else Chars(Enc8(s[0]), 1, false, |Enc8(s[0])|)
    case C32to16 =>
      // Too large a value is reported but neither written nor stopped at.
      if strict && s[0] > UNI_MAX_LEGAL_UTF32 then Chars([], 1, true, 1)
      else Put16(strict, Got(s[0], 1))
  }

  lemma StepIsStable(c: Converter, strict: bool, s: seq<int>, t: seq<int>)
    requires s != [] && Step(c, strict, s) != Short
    ensures Step(c, strict, s + t) == Step(c, strict, s)
  {
    if Source(c) == Utf8 {
      var n := TrailingBytes(s[0]) + 1;
      assert (s + t)[..n] == s[..n];
    }
  }

  /** The step as a value. */
  function StepOf(c: Converter, strict: bool): Stepper {
    (s: seq<int>) => if s == [] then Short else Step(c, strict, s)
  }

  lemma StepOfIsStable(c: Converter, strict: bool)
    ensures Stable(StepOf(c, strict))
  {
    forall s: seq<int>, t: seq<int> | s != [] && StepOf(c, strict)(s) != Short
      ensures StepOf(c, strict)(s + t) == StepOf(c, strict)(s)
    {
      StepIsStable(c, strict, s, t);
    }
  }

  // ---------- round trips and commutation ----------

  /** The encoding of a scalar value, whatever follows it, is read as that value and written in the
      other form. */
  lemma StepOfEnc(c: Converter, strict: bool, v: int, t: seq<int>)
    requires IsScalar(v)
    ensures var units := Enc(Target(c), v);
            Step(c, strict, Enc(Source(c), v) + t) == Chars(units, |Enc(Source(c), v)|, false, |units|)
  {
    var s := Enc(Source(c), v) + t;
    assert s[..|Enc(Source(c), v)|] == Enc(Source(c), v);
    if Source(c) == Utf8 {
      Get8OfEnc(v, t);
    } else if Source(c) == Utf16 {
      Get16OfEnc(strict, v, t);
    }
  }

  lemma Get8OfEnc(v: int, t: seq<int>)
    requires IsScalar(v)
    ensures Get8(Enc8(v) + t) == Got(v, |Enc8(v)|)
  {
    var e := Enc8(v);
    Enc8IsLegal(v);
    assert (e + t)[..|e|] == e && (e + t)[0] == e[0];
  }

  lemma Enc8IsLegal(v: int)
    requires IsScalar(v)
    ensures var e := Enc8(v);
            |e| == TrailingBytes(e[0]) + 1 && IsLegalUTF8(e) && Decode8(e) == v
  {
    if v >= 0x10000 {
      Enc8OfFour(v);
    } else if v >= 0x800 {
      assert v == v / 4096 * 4096 + v / 64 % 64 * 64 + v % 64;
    }
  }

  lemma Enc8OfFour(v: int)
    requires IsScalar(v) && v >= 0x10000
    ensures var e := Enc8(v);
            |e| == 4 == TrailingBytes(e[0]) + 1 && IsLegalUTF8(e) && Decode8(e) == v
  {
    assert v == v / 262144 * 262144 + v / 4096 % 64 * 4096 + v / 64 % 64 * 64 + v % 64;
  }

  lemma Get16OfEnc(strict: bool, v: int, t: seq<int>)
    requires IsScalar(v)
    ensures Get16(strict, Enc16(v) + t) == Got(v, |Enc16(v)|)
  {
  }

  /** Every converter turns the encoding of a text in one form into its encoding in the other. */
  lemma {:induction false} ConvertersCommute(c: Converter, strict: bool, vs: seq<Scalar>)
    ensures Full(StepOf(c, strict), EncAll(Source(c), vs))
         == Out(ConversionOK, false, |EncAll(Source(c), vs)|, EncAll(Target(c), vs))
    decreases |vs|
  {
    if vs != [] {
      var v, e, t := vs[0], Enc(Source(c), vs[0]), EncAll(Source(c), vs[1..]);
      StepOfEnc(c, strict, v, t);
      assert (e + t)[|e|..] == t;
      ConvertersCommute(c, strict, vs[1..]);
    }
  }

  /** The units one character takes at most. */
  function MaxUnits(form: Form): nat {
    match form
    case Utf8 => 4
    case Utf16 => 2
    case Utf32 => 1
  }

  lemma {:induction false} EncAllLength(form: Form, vs: seq<Scalar>)
    ensures |vs| <= |EncAll(form, vs)| <= MaxUnits(form) * |vs|
    decreases |vs|
  {
    if vs != [] {
      EncAllLength(form, vs[1..]);
    }
  }

  /** A call on an encoded text writes its first character, if there is room for it, and goes on. */
  lemma CallOnEnc(c: Converter, strict: bool, v: int, t: seq<int>, room: nat)
    requires IsScalar(v)
    ensures var f, e, units := StepOf(c, strict), Enc(Source(c), v), Enc(Target(c), v);
            Convert(f, e + t, room) == if room < |units| then Out(TargetExhausted, false, 0, [])
                                       else After(|e|, units, false, Convert(f, t, room - |units|))
  {
    hide Step, Enc, Source, Target;
    var e := Enc(Source(c), v);
    StepOfEnc(c, strict, v, t);
    assert (e + t)[|e|..] == t;
  }

  /** A bounded call on an encoded text writes its encoding in the other form exactly when there is
      room for that; otherwise it says that the target is exhausted. */
  lemma {:induction false} BoundedCall(c: Converter, strict: bool, vs: seq<Scalar>, room: nat)
    ensures var o := Convert(StepOf(c, strict), EncAll(Source(c), vs), room);
            if room >= |EncAll(Target(c), vs)|
            then o == Out(ConversionOK, false, |EncAll(Source(c), vs)|, EncAll(Target(c), vs))
            else o.stop == TargetExhausted
    decreases |vs|
  {
    hide StepOf, Enc, Source, Target;
    if vs != [] {
      CallOnEnc(c, strict, vs[0], EncAll(Source(c), vs[1..]), room);
      var n := |Enc(Target(c), vs[0])|;
      if room >= n {
        BoundedCall(c, strict, vs[1..], room - n);
      }
    }
  }

  /** There and back through another form is the identity on encoded texts, through buffers that are
      large enough. */
  lemma ThereAndBack(c: Converter, back: Converter, strict: bool, strict': bool, vs: seq<Scalar>, room: nat, room': nat)
    requires Source(back) == Target(c) && Target(back) == Source(c)
    requires room >= MaxUnits(Target(c)) * |vs| && room' >= MaxUnits(Source(c)) * |vs|
    ensures var s := EncAll(Source(c), vs);
            var there := Convert(StepOf(c, strict), s, room);
            Convert(StepOf(back, strict'), there.written, room') == Out(ConversionOK, false, |there.written|, s)
  {
    EncAllLength(Target(c), vs);
    EncAllLength(Source(c), vs);
    BoundedCall(c, strict, vs, room);
    BoundedCall(back, strict', vs, room');
  }

  /** Going by way of the third form gives the same as going directly. */
  lemma DetourIsDirect(first: Converter, second: Converter, direct: Converter, strict: bool, vs: seq<Scalar>,
                       room: nat, room': nat)
    requires Source(direct) == Source(first) && Source(second) == Target(first) && Target(second) == Target(direct)
    requires room >= MaxUnits(Target(first)) * |vs| && room' >= MaxUnits(Target(direct)) * |vs|
    ensures var s := EncAll(Source(first), vs);
            var half := Convert(StepOf(first, strict), s, room);
            Convert(StepOf(second, strict), half.written, room').written == Convert(StepOf(direct, strict), s, room').written
  {
    EncAllLength(Target(first), vs);
    EncAllLength(Target(direct), vs);
    BoundedCall(first, strict, vs, room);
    BoundedCall(second, strict, vs, room');
    BoundedCall(direct, strict, vs, room');
  }

  /** Strict and lenient decoding of UTF-8 are the same, on all inputs and in all buffers. */
  lemma StrictIsLenientFrom8(c: Converter, s: seq<int>, room: nat)
    requires Source(c) == Utf8
    ensures Convert(StepOf(c, true), s, room) == Convert(StepOf(c, false), s, room)
  {
    forall t: seq<int> ensures StepOf(c, true)(t) == StepOf(c, false)(t) {
      if t != [] {
        assert Step(c, true, t) == Step(c, false, t);
      }
    }
    SameSteps(StepOf(c, true), StepOf(c, false), s, room);
  }

  function WaitsForPair(c: Converter): int -> bool {
    (u: int) => Source(c) == Utf16 && IsHigh(u)
  }

  /** Only a high surrogate at the end of a UTF-16 source leaves a character undecided. */
  lemma StepIsDecidedByFront(c: Converter, strict: bool)
    ensures DecidedByFront(StepOf(c, strict), WaitsForPair(c))
  {
    var f := StepOf(c, strict);
    forall s: seq<int>, k: nat | s != [] && k <= |s| && f(s).Chars? && f(s).used <= k
      ensures f(s[..k]) == if k == f(s).used && EndsWaiting(WaitsForPair(c), s[..k]) then Short else f(s)
    {
      StepOnPrefix(c, strict, s, k);
    }
  }

  lemma Get8OnPrefix(s: seq<int>, k: nat)
    requires s != [] && k <= |s| && Get8(s).Got? && Get8(s).used <= k
    ensures Get8(s[..k]) == Get8(s)
  {
    var n := TrailingBytes(s[0]) + 1;
    assert s[..k][..n] == s[..n];
  }

  lemma Get16OnPrefix(strict: bool, s: seq<int>, k: nat)
    requires s != [] && 0 < k <= |s| && Get16(strict, s).Got? && Get16(strict, s).used <= k
    ensures Get16(strict, s[..k]) == if k == 1 && IsHigh(s[0]) then GotShort else Get16(strict, s)
  {
  }

  lemma StepOnPrefix(c: Converter, strict: bool, s: seq<int>, k: nat)
    requires s != [] && k <= |s| && Step(c, strict, s).Chars? && Step(c, strict, s).used <= k
    ensures Step(c, strict, s[..k])
         == if k == Step(c, strict, s).used && EndsWaiting(WaitsForPair(c), s[..k]) then Short else Step(c, strict, s)
  {
    if Source(c) == Utf8 {
      Get8OnPrefix(s, k);
    } else if Source(c) == Utf16 {
      Get16OnPrefix(strict, s, k);
    }
  }

  /** What a stopped call wrote is exactly the conversion of what it used. */
  ghost predicate Exact(c: Converter, strict: bool, s: seq<int>, room: nat) {
    var o := Convert(StepOf(c, strict), s, room);
    Full(StepOf(c, strict), s[..o.consumed]) == Out(ConversionOK, o.bad, o.consumed, o.written)
  }

  /** A call is exact unless what it used ends in a high surrogate. */
  lemma ExactUnlessWaiting(c: Converter, strict: bool, s: seq<int>, room: nat)
    ensures Exact(c, strict, s, room)
       <==> !EndsWaiting(WaitsForPair(c), s[..Convert(StepOf(c, strict), s, room).consumed])
  {
    StepIsDecidedByFront(c, strict);
    StopAfterPrefix(StepOf(c, strict), WaitsForPair(c), s, room);
  }

  lemma StrictStepEnds(c: Converter, s: seq<int>)
    requires s != [] && Step(c, true, s).Chars? && Source(c) == Utf16
    ensures !IsHigh(s[Step(c, true, s).used - 1])
  {
  }

  /** Strict conversion never uses up a source that ends in a high surrogate. */
  lemma StrictNeverWaits(c: Converter, s: seq<int>, room: nat)
    ensures !EndsWaiting(WaitsForPair(c), s[..Convert(StepOf(c, true), s, room).consumed])
  {
    var f := StepOf(c, true);
    forall t: seq<int> | t != [] && f(t).Chars? ensures !WaitsForPair(c)(t[f(t).used - 1]) {
      if Source(c) == Utf16 {
        StrictStepEnds(c, t);
      }
    }
    NeverEndsWaiting(f, WaitsForPair(c), s, room);
  }

  /** One call with room for all that is to be written, and one character more, is as good as one with
      unlimited room. */
  lemma FullIsACall(c: Converter, strict: bool, s: seq<int>, room: nat)
    requires room >= |Full(StepOf(c, strict), s).written| + MaxUnits(Target(c))
    ensures Convert(StepOf(c, strict), s, room) == Full(StepOf(c, strict), s)
  {
    RoomForOne(c, strict);
    EnoughRoom(StepOf(c, strict), MaxUnits(Target(c)), s, room);
  }

  /** The number of bytes a lead byte asks for is the number of ones it starts with, read off its top
      bits; FE and FF count as six. */
  lemma LeadingOnes(lead: int)
    requires 0 <= lead < 0x100
    ensures TrailingBytes(lead) == 0 <==> lead / 64 != 3
    ensures TrailingBytes(lead) == 1 <==> lead / 32 == 6
    ensures TrailingBytes(lead) == 2 <==> lead / 16 == 14
    ensures TrailingBytes(lead) == 3 <==> lead / 8 == 30
    ensures TrailingBytes(lead) == 4 <==> lead / 4 == 62
    ensures TrailingBytes(lead) == 5 <==> lead / 4 == 63
  {
  }

  /** What becomes of values that are no scalar values, by value: too large ones are replaced by U+FFFD
      and reported, except that UTF-16 output drops them if strict and only replaces them if not; surrogates
      stop strict conversion, are replaced in UTF-16 output, and are written as they are in UTF-8. */
  lemma IllFormedValues(v: int, t: seq<int>, strict: bool)
    ensures v > 0x10FFFF ==> Step(C32to8, strict, [v] + t) == Chars([0xEF, 0xBF, 0xBD], 1, true, 3)
    ensures v > 0x10FFFF ==>
      Step(C32to16, strict, [v] + t) == if strict then Chars([], 1, true, 1) else Chars([0xFFFD], 1, false, 1)
    ensures 0xD800 <= v <= 0xDFFF ==>
      Step(C32to16, strict, [v] + t) == if strict then Illegal(1) else Chars([0xFFFD], 1, false, 1)
    ensures 0xD800 <= v <= 0xDFFF ==>
      Step(C32to8, strict, [v] + t) == if strict then Illegal(0)
                                       else Chars([0xE0 + v / 4096, 0x80 + v / 64 % 64, 0x80 + v % 64], 1, false, 3)
  {
  }

  // ---------- when every stop is exact ----------

  /** A high surrogate is followed by something other than its partner. */
  predicate HasLoneHigh(s: seq<int>) {
    exists i :: 0 <= i < |s| - 1 && LoneHighAt(s, i)
  }

  predicate LoneHighAt(s: seq<int>, i: nat)
    requires i + 1 < |s|
  {
    IsHigh(s[i]) && !IsLow(s[i + 1])
  }

  /** Lenient reading of UTF-16 takes every unit, or pair, and the room it needs is what it writes. */
  lemma LenientStep(c: Converter, s: seq<int>)
    requires Source(c) == Utf16 && |s| >= 2
    ensures var r := Step(c, false, s);
            r.Chars? && r.need == |r.units| && r.used == if IsHigh(s[0]) && IsLow(s[1]) then 2 else 1
  {
  }

  lemma LonelyUnit(c: Converter, s: seq<int>)
    requires Source(c) == Utf16 && |s| == 1
    ensures IsHigh(s[0]) ==> Step(c, false, s) == Short
  {
  }

  lemma HasLoneHighBehind(s: seq<int>, k: nat)
    requires k <= |s| && !HasLoneHigh(s)
    ensures !HasLoneHigh(s[k..])
  {
    forall i | 0 <= i < |s| - k - 1 ensures !LoneHighAt(s[k..], i) {
      assert !LoneHighAt(s, k + i);
    }
  }

  /** With a partner behind every high surrogate no call stops behind one. */
  lemma {:induction false} NoLoneHighNoWaiting(c: Converter, s: seq<int>, room: nat)
    requires Source(c) == Utf16 && !HasLoneHigh(s)
    ensures !EndsWaiting(WaitsForPair(c), s[..Convert(StepOf(c, false), s, room).consumed])
    decreases |s|
  {
    hide Step, Convert;
    var f := StepOf(c, false);
    if s != [] && f(s).Chars? && f(s).need <= room {
      var r, left := f(s), room - |f(s).units|;
      HasLoneHighBehind(s, r.used);
      NoLoneHighNoWaiting(c, s[r.used..], left);
      ConvertStep(f, s, room);
      LenientStepEnds(c, s);
      LastUnit(WaitsForPair(c), s, r.used, Convert(f, s[r.used..], left).consumed);
    } else {
      StopAtOnce(f, s, room);
    }
  }

  lemma LenientStepEnds(c: Converter, s: seq<int>)
    requires Source(c) == Utf16 && s != [] && Step(c, false, s).Chars? && !HasLoneHigh(s)
    ensures !IsHigh(s[Step(c, false, s).used - 1])
  {
    hide Step;
    if |s| == 1 {
      LonelyUnit(c, s);
    } else {
      LenientStep(c, s);
      assert !LoneHighAt(s, 0);
    }
  }

  /** The room with which a lenient call stops right behind a lone high surrogate. */
  lemma {:induction false} RoomToStop(c: Converter, s: seq<int>, i: nat) returns (room: nat)
    requires Source(c) == Utf16 && i + 1 < |s| && LoneHighAt(s, i)
    ensures Convert(StepOf(c, false), s, room).consumed == i + 1
    decreases i
  {
    hide Step, Convert;
    var f := StepOf(c, false);
    var r := f(s);
    LenientStep(c, s);
    var left := 0;
    if i == 0 {
      StopAtOnce(f, s[1..], 0);
    } else {
      left := RoomToStop(c, s[r.used..], i - r.used);
    }
    room := |r.units| + left;
    ConvertStep(f, s, room);
  }

  /** At every stop, for every room, what was written is exactly the conversion of what was used: this
      holds of a source unless it is UTF-16, conversion is lenient, and a high surrogate in it is
      followed by something other than its partner. */
  lemma WrittenIsConversionOfConsumed(c: Converter, strict: bool, s: seq<int>)
    ensures (forall room: nat :: Exact(c, strict, s, room)) <==> !(Source(c) == Utf16 && !strict && HasLoneHigh(s))
  {
    hide Exact, StepOf, EndsWaiting;
    if Source(c) == Utf16 && !strict && HasLoneHigh(s) {
      var i :| 0 <= i < |s| - 1 && LoneHighAt(s, i);
      var room := RoomToStop(c, s, i);
      ExactUnlessWaiting(c, strict, s, room);
      LoneHighWaits(c, s, i);
    } else {
      forall room: nat ensures Exact(c, strict, s, room) {
        ExactUnlessWaiting(c, strict, s, room);
        if strict {
          StrictNeverWaits(c, s, room);
        } else if Source(c) == Utf16 {
          NoLoneHighNoWaiting(c, s, room);
        } else {
          NobodyWaits(c, s[..Convert(StepOf(c, strict), s, room).consumed]);
        }
      }
    }
  }

  lemma LoneHighWaits(c: Converter, s: seq<int>, i: nat)
    requires Source(c) == Utf16 && i < |s| && IsHigh(s[i])
    ensures EndsWaiting(WaitsForPair(c), s[..i + 1])
  {
  }

  lemma NobodyWaits(c: Converter, p: seq<int>)
    requires Source(c) != Utf16
    ensures !EndsWaiting(WaitsForPair(c), p)
  {
  }

  /** One such source: a lenient call with room for one unit passes the surrogate and writes it, while
      the surrogate alone is an unfinished source. */
  lemma LoneHighPasses()
    ensures var f := StepOf(C16to32, false);
            && Convert(f, [SUR_HIGH_START, 0x41], 1) == Out(TargetExhausted, false, 1, [SUR_HIGH_START])
            && Full(f, [SUR_HIGH_START]).stop == SourceExhausted
  {
    var f, s := StepOf(C16to32, false), [SUR_HIGH_START, 0x41];
    assert s[1..] == [0x41];
    assert f(s) == Chars([SUR_HIGH_START], 1, false, 1) && f([0x41]) == Chars([0x41], 1, false, 1);
    ConvertStep(f, s, 1);
    StopAtOnce(f, [0x41], 0);
    assert f([SUR_HIGH_START]) == Short;
  }

  // ---------- stops on well-formed text ----------

  /** A call on some first part of an encoded text, cut anywhere: it stands behind a whole number of
      characters, has written exactly those, and stops because the target has no room for the next one
      or the source ends inside it. */
  ghost predicate WholeCharacters(c: Converter, vs: seq<Scalar>, s: seq<int>, room: nat, o: Out, k: nat) {
    && k <= |vs| && !o.bad
    && o.consumed == |EncAll(Source(c), vs[..k])| <= |s| && s[..o.consumed] == EncAll(Source(c), vs[..k])
    && o.written == EncAll(Target(c), vs[..k])
    && match o.stop
       case ConversionOK => o.consumed == |s|
       case TargetExhausted => k < |vs| && room < |o.written| + |Enc(Target(c), vs[k])|
       case SourceExhausted => k < |vs| && o.consumed < |s| < o.consumed + |Enc(Source(c), vs[k])|
       case SourceIllegal => false
  }

  lemma {:induction false} StopsAtCharacter(c: Converter, strict: bool, vs: seq<Scalar>, s: seq<int>, room: nat)
    returns (k: nat)
    requires s <= EncAll(Source(c), vs)
    ensures WholeCharacters(c, vs, s, room, Convert(StepOf(c, strict), s, room), k)
    decreases |vs|
  {
    hide StepOf, Enc, Source, Target, Convert, WholeCharacters, EncAll;
    k := 0;
    if s == [] {
      NothingConverted(c, strict, vs, room);
      return;
    }
    TextSplits(Source(c), vs, s);
    var e, units := Enc(Source(c), vs[0]), Enc(Target(c), vs[0]);
    if |s| < |e| {
      CutCharacter(c, strict, vs, s, room);
      return;
    }
    var t := s[|e|..];
    CallOnEnc(c, strict, vs[0], t, room);
    if room < |units| {
      NoRoomForFirst(c, vs, s, room);
    } else {
      var j := StopsAtCharacter(c, strict, vs[1..], t, room - |units|);
      k := j + 1;
      OneMoreCharacter(c, vs, s, room, Convert(StepOf(c, strict), t, room - |units|), j);
    }
  }

  lemma NothingConverted(c: Converter, strict: bool, vs: seq<Scalar>, room: nat)
    ensures WholeCharacters(c, vs, [], room, Convert(StepOf(c, strict), [], room), 0)
  {
    assert vs[..0] == [];
  }

  lemma TextSplits(form: Form, vs: seq<Scalar>, s: seq<int>)
    requires s <= EncAll(form, vs) && s != []
    ensures vs != []
    ensures var e := Enc(form, vs[0]);
            if |s| < |e| then s == e[..|s|] else s == e + s[|e|..] && s[|e|..] <= EncAll(form, vs[1..])
  {
    hide Enc;
    var e, rest := Enc(form, vs[0]), EncAll(form, vs[1..]);
    assert EncAll(form, vs) == e + rest;
    assert forall i :: 0 <= i < |s| ==> s[i] == (e + rest)[i];
    if |s| < |e| {
      assert s == e[..|s|];
    } else {
      assert s[|e|..] == rest[..|s| - |e|];
      assert s == e + s[|e|..];
    }
  }

  /** A character of which only a part is there is waited for. */
  lemma CutStep(c: Converter, strict: bool, v: int, n: nat)
    requires IsScalar(v) && 0 < n < |Enc(Source(c), v)|
    ensures StepOf(c, strict)(Enc(Source(c), v)[..n]) == Short
  {
    var s := Enc(Source(c), v)[..n];
    if Source(c) == Utf8 {
      hide IsLegalUTF8, Decode8, Put8, Put16, Put32, Put32Checked, Enc8;
      Enc8IsLegal(v);
      assert s[0] == Enc8(v)[0];
      assert Get8(s) == GotShort;
    }
  }

  lemma CutCharacter(c: Converter, strict: bool, vs: seq<Scalar>, s: seq<int>, room: nat)
    requires vs != [] && 0 < |s| < |Enc(Source(c), vs[0])| && s == Enc(Source(c), vs[0])[..|s|]
    ensures WholeCharacters(c, vs, s, room, Convert(StepOf(c, strict), s, room), 0)
  {
    hide StepOf, Enc, Source, Target;
    CutStep(c, strict, vs[0], |s|);
    assert vs[..0] == [] && s[..0] == [];
  }

  lemma NoRoomForFirst(c: Converter, vs: seq<Scalar>, s: seq<int>, room: nat)
    requires vs != [] && room < |Enc(Target(c), vs[0])|
    ensures WholeCharacters(c, vs, s, room, Out(TargetExhausted, false, 0, []), 0)
  {
    hide Enc, Source, Target;
    assert vs[..0] == [] && s[..0] == [];
  }

  lemma EncAllFirst(form: Form, vs: seq<Scalar>, k: nat)
    requires 0 < k <= |vs|
    ensures EncAll(form, vs[..k]) == Enc(form, vs[0]) + EncAll(form, vs[1..][..k - 1])
  {
    assert vs[..k][1..] == vs[1..][..k - 1];
  }

  lemma OneMoreCharacter(c: Converter, vs: seq<Scalar>, s: seq<int>, room: nat, o: Out, j: nat)
    requires vs != [] && |Enc(Target(c), vs[0])| <= room && |Enc(Source(c), vs[0])| <= |s|
    requires var e, units := Enc(Source(c), vs[0]), Enc(Target(c), vs[0]);
             s == e + s[|e|..] && WholeCharacters(c, vs[1..], s[|e|..], room - |units|, o, j)
    ensures var e, units := Enc(Source(c), vs[0]), Enc(Target(c), vs[0]);
            WholeCharacters(c, vs, s, room, After(|e|, units, false, o), j + 1)
  {
    hide Enc, EncAll, Source, Target;
    var e, units := Enc(Source(c), vs[0]), Enc(Target(c), vs[0]);
    EncAllFirst(Source(c), vs, j + 1);
    EncAllFirst(Target(c), vs, j + 1);
    var t := s[|e|..];
    assert s[..|e| + o.consumed] == e + t[..o.consumed];
  }

  /** On well-formed text, cut anywhere, every stop of every converter is behind a whole number of
      characters, and what was written is exactly the conversion of what was used. */
  lemma WellFormedStopsAreExact(c: Converter, strict: bool, vs: seq<Scalar>, s: seq<int>, room: nat) returns (k: nat)
    requires s <= EncAll(Source(c), vs)
    ensures WholeCharacters(c, vs, s, room, Convert(StepOf(c, strict), s, room), k)
    ensures Exact(c, strict, s, room)
  {
    hide StepOf, EncAll, Enc, Source, Target, Convert, Full;
    k := StopsAtCharacter(c, strict, vs, s, room);
    ConvertersCommute(c, strict, vs[..k]);
  }

  lemma RoomForOne(c: Converter, strict: bool)
    ensures NeedsAtMost(StepOf(c, strict), MaxUnits(Target(c)))
  {
    forall s: seq<int> | s != [] && StepOf(c, strict)(s).Chars?
      ensures StepOf(c, strict)(s).need <= MaxUnits(Target(c))
    {
      assert Step(c, strict, s).need <= MaxUnits(Target(c));
    }
  }

  /** A source that converts to its end arrives in any chunks, into buffers of any room; calls with
      room for one character then finish it, and all together wrote what one big call writes. */
  lemma AnyBuffers(c: Converter, strict: bool, arriving: seq<Call>, draining: seq<Call>)
    requires var f := StepOf(c, strict);
             && Full(f, Chunks(arriving)).stop == ConversionOK
             && Draining(draining, MaxUnits(Target(c)))
             && |draining| >= |ResumeAll(f, NewTransfer, arriving).pending|
    ensures var x := ResumeAll(StepOf(c, strict), NewTransfer, arriving + draining);
            && x.pending == []
            && Full(StepOf(c, strict), Chunks(arriving)) == Out(ConversionOK, x.bad, |Chunks(arriving)|, x.written)
  {
    StepOfIsStable(c, strict);
    RoomForOne(c, strict);
    AnyBuffersGiveTheSame(StepOf(c, strict), MaxUnits(Target(c)), arriving, draining);
  }

  /** However an encoded text arrives and however often the calls stop for want of room or source,
      together they write the encoding of the text in the other form. */
  lemma ResumedTextIsEncoding(c: Converter, strict: bool, vs: seq<Scalar>, arriving: seq<Call>, draining: seq<Call>)
    requires Chunks(arriving) == EncAll(Source(c), vs) && Draining(draining, MaxUnits(Target(c)))
    requires |draining| >= |ResumeAll(StepOf(c, strict), NewTransfer, arriving).pending|
    ensures var x := ResumeAll(StepOf(c, strict), NewTransfer, arriving + draining);
            x.pending == [] && !x.bad && x.written == EncAll(Target(c), vs)
  {
    ConvertersCommute(c, strict, vs);
    AnyBuffers(c, strict, arriving, draining);
  }
}
