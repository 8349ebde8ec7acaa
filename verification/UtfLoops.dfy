/** The six conversion loops: a source cursor and a target cursor that advance, and back up when the
    target is exhausted. Each does what the character-by-character description says. */
module UtfLoops {
  import opened Bits
  import opened Transcoding
  import opened Utf
  import opened TargetBuffer

  // ---------- bit arithmetic ----------

  lemma TagStep(ch: nat, b: nat, m: nat)
    ensures BitAnd(BitOr(ch, 2 * b), 2 * m + 1) == 2 * BitAnd(BitOr(ch / 2, b), m) + ch % 2
  {
    assert 2 * b / 2 == b && (2 * m + 1) / 2 == m;
    var x := BitOr(ch, 2 * b);
    assert x / 2 == BitOr(ch / 2, b) && x % 2 == ch % 2;
  }

  lemma TagOneMore(ch: nat, m: nat)
    requires m > 0 && BitAnd(BitOr(ch / 2, 2 * m), 3 * m - 1) == 2 * m + ch / 2 % m
    ensures BitAnd(BitOr(ch, 2 * (2 * m)), 3 * (2 * m) - 1) == 2 * (2 * m) + ch % (2 * m)
  {
    hide BitAnd, BitOr;
    TagStep(ch, 2 * m, 3 * m - 1);
    HalveDivMod(ch, m);
    assert 3 * (2 * m) - 1 == 2 * (3 * m - 1) + 1;
  }

  lemma {:induction false} TagBits(ch: nat, k: nat)
    ensures BitAnd(BitOr(ch, 2 * Pow2(k)), 3 * Pow2(k) - 1) == 2 * Pow2(k) + ch % Pow2(k)
    decreases k
  {
    if k == 0 {
      TopTag(ch);
    } else {
      var m := Pow2(k - 1);
      TagBits(ch / 2, k - 1);
      TagOneMore(ch, m);
    }
  }

  /** (ch | 0x80) & 0xBF keeps the six low bits under the tag 10. */
  lemma TrailByte(ch: nat)
    ensures BitAnd(BitOr(ch, 0x80), 0xBF) == 0x80 + ch % 64
  {
    TagBits(ch, 6);
    assert Pow2(6) == 2 * Pow2(5) == 4 * Pow2(4) == 8 * Pow2(3) == 16 * Pow2(2) == 32 * Pow2(1) == 64;
  }

  lemma TopTag(a: nat)
    ensures BitAnd(BitOr(a, 2), 2) == 2
  {
    var y := BitOr(a / 2, 1);
    assert BitOr(a, 2) / 2 == y && BitOr(a, 2) != 0;
    assert y % 2 == 1;
    assert BitAnd(y, 1) == 1;
  }

  lemma {:induction false} OrCommutes(a: nat, b: nat)
    ensures BitOr(a, b) == BitOr(b, a)
    decreases a + b
  {
    if a != 0 || b != 0 {
      OrCommutes(a / 2, b / 2);
    }
  }

  function FirstByteMark(n: nat): nat {
    if n == 2 then 0xC0 else if n == 3 then 0xE0 else if n == 4 then 0xF0 else 0
  }

  /** The lead byte: what is left of the character under the mark for its length. */
  lemma LeadByte(ch: nat, n: nat)
    requires (n == 1 && ch < 0x80) || (n == 2 && ch < 0x20) || (n == 3 && ch < 0x10) || (n == 4 && ch < 8)
    ensures BitOr(ch, FirstByteMark(n)) == ch + FirstByteMark(n)
  {
    if n == 1 {
      OrZero(ch);
    } else {
      OrCommutes(ch, FirstByteMark(n));
      if n == 2 {
        MarkJoins(6, ch, 5, 32);
      } else if n == 3 {
        MarkJoins(14, ch, 4, 16);
      } else {
        MarkJoins(30, ch, 3, 8);
      }
    }
  }

  lemma MarkJoins(a: nat, b: nat, k: nat, p: nat)
    requires k <= 5 && p == Pow2(k) && b < p
    ensures BitOr(a * p, b) == a * p + b
  {
    OrJoins(a, b, k);
  }

  lemma HalfMask(ch: nat)
    ensures BitAnd(ch, 0x3FF) == ch % 0x400 && Shr(ch, 10) == ch / 0x400
  {
    assert Pow2(10) == 2 * Pow2(9) == 4 * Pow2(8) == 8 * Pow2(7) == 16 * Pow2(6) == 32 * Pow2(5);
    assert Pow2(5) == 2 * Pow2(4) == 4 * Pow2(3) == 8 * Pow2(2) == 16 * Pow2(1) == 32;
    AndMask(ch, 10);
    ShrIsDiv(ch, 10);
  }

  /** One case of the fall-through switch: a trailing byte goes in front of what is written already. */
  method WriteTrail(target: array<int>, t: nat, ch: nat) returns (t': nat, rest: nat)
    requires 0 < t <= target.Length
    modifies target
    ensures t' == t - 1 && rest == ch / 64
    ensures target[t'] == 0x80 + ch % 64
    ensures forall i :: 0 <= i < target.Length && i != t' ==> target[i] == old(target[i])
  {
    TrailByte(ch);
    t' := t - 1;
    target[t'] := BitAnd(BitOr(ch, 0x80), 0xBF);
    rest := ch / 64;
  }

  /** The lead byte and then n - 1 trailing bytes, in the order they are written. */
  lemma BackwardsIsEnc8(ch: nat)
    requires ch <= UNI_MAX_LEGAL_UTF32
    ensures var e, n := Enc8(ch), |Enc8(ch)|;
            && (n == 1 ==> ch < 0x80 && e == [ch + FirstByteMark(1)])
            && (n == 2 ==> ch / 64 < 0x20 && e == [ch / 64 + FirstByteMark(2), 0x80 + ch % 64])
            && (n == 3 ==> ch / 64 / 64 < 0x10)
            && (n == 3 ==> e == [ch / 64 / 64 + FirstByteMark(3), 0x80 + ch / 64 % 64, 0x80 + ch % 64])
            && (n == 4 ==> ch / 64 / 64 / 64 < 8)
            && (n == 4 ==> e[..2] == [ch / 64 / 64 / 64 + FirstByteMark(4), 0x80 + ch / 64 / 64 % 64])
            && (n == 4 ==> e[2..] == [0x80 + ch / 64 % 64, 0x80 + ch % 64])
  {
  }

  /** Writes the n bytes of ch from the last to the first, so that they end at position end. */
  method WriteBackwards(target: array<int>, end: nat, ch: nat, n: nat)
    requires ch <= UNI_MAX_LEGAL_UTF32 && n == |Enc8(ch)|
    requires n <= end <= target.Length
    modifies target
    ensures forall i :: 0 <= i < target.Length && !(end - n <= i < end) ==> target[i] == old(target[i])
    ensures forall j :: 0 <= j < n ==> target[end - n + j] == Enc8(ch)[j]
  {
    BackwardsIsEnc8(ch);
    var t, rest := end, ch;
    if n >= 4 {
      t, rest := WriteTrail(target, t, rest);
    }
    if n >= 3 {
      t, rest := WriteTrail(target, t, rest);
    }
    if n >= 2 {
      t, rest := WriteTrail(target, t, rest);
    }
    LeadByte(rest, n);
    t := t - 1;
    target[t] := BitOr(rest, FirstByteMark(n));
  }

  // ---------- one character of each converter ----------

  /** What one turn of a loop decides to do with the character under the cursor. */
  datatype Act =
    | Stop(result: Result)
    | Write(ch: int, used: nat, bad: bool)
    | Pass(used: nat)                         // reported as illegal, but not written

  /** The decision is the right one for the item when there is so much room. */
  predicate Decides(act: Act, form: Form, r: Item, room: nat) {
    match act
    case Stop(result) => Stops(r, room) && result == StopOf(r, room)
    case Write(ch, used, bad) =>
      0 <= ch <= UNI_MAX_LEGAL_UTF32 && |Enc(form, ch)| <= room && r == Chars(Enc(form, ch), used, bad, |Enc(form, ch)|)
    case Pass(used) => 1 <= room && r == Chars([], used, true, 1)
  }

  function Item32to16(strict: bool, ch: int): Item {
    if strict && ch > UNI_MAX_LEGAL_UTF32 then Chars([], 1, true, 1) else Put16(strict, Got(ch, 1))
  }

  // Reading a character. The cursor stays on an unfinished or illegal one and moves behind any other.

  method Read16(source: seq<int>, s1: nat, strict: bool) returns (g: Got)
    requires s1 < |source| && forall i :: 0 <= i < |source| ==> 0 <= source[i] <= 0xFFFF
    ensures g == Get16(strict, source[s1..])
  {
    ghost var s := source[s1..];
    var ch := source[s1];
    if SUR_HIGH_START <= ch <= SUR_HIGH_END {
      if s1 + 1 < |source| {
        var ch2 := source[s1 + 1];
        assert s[1] == ch2;
        if SUR_LOW_START <= ch2 <= SUR_LOW_END {
          HalfShift(ch - SUR_HIGH_START);
          return Got(Shl(ch - SUR_HIGH_START, 10) + (ch2 - SUR_LOW_START) + 0x10000, 2);
        } else if strict {
          return GotIllegal;
        }
      } else {
        return GotShort;
      }
    } else if strict {
      if SUR_LOW_START <= ch <= SUR_LOW_END {
        return GotIllegal;
      }
    }
    return Got(ch, 1);
  }

  lemma HalfShift(a: nat)
    ensures Shl(a, 10) == a * 0x400
  {
    assert Pow2(10) == 2 * Pow2(9) == 4 * Pow2(8) == 8 * Pow2(7) == 16 * Pow2(6) == 32 * Pow2(5);
    assert Pow2(5) == 2 * Pow2(4) == 4 * Pow2(3) == 8 * Pow2(2) == 16 * Pow2(1) == 32;
  }

  /** The fall-through test, from the last byte to the first. */
  method IsLegal(s: seq<int>) returns (legal: bool)
    requires s != [] && forall i :: 0 <= i < |s| ==> 0 <= s[i]
    ensures legal == IsLegalUTF8(s)
  {
    if |s| > 4 {
      return false;
    }
    if |s| >= 4 && (s[3] < 0x80 || s[3] > 0xBF) {
      return false;
    }
    if |s| >= 3 && (s[2] < 0x80 || s[2] > 0xBF) {
      return false;
    }
    if |s| >= 2 {
      var a := s[1];
      if a > 0xBF {
        return false;
      }
      if s[0] == 0xE0 {
        if a < 0xA0 { return false; }
      } else if s[0] == 0xED {
        if a > 0x9F { return false; }
      } else if s[0] == 0xF0 {
        if a < 0x90 { return false; }
      } else if s[0] == 0xF4 {
        if a > 0x8F { return false; }
      } else if a < 0x80 {
        return false;
      }
    }
    if s[0] >= 0x80 && s[0] < 0xC2 {
      return false;
    }
    return s[0] <= 0xF4;
  }

  function OffsetFor(extra: nat): int {
    if extra == 0 then 0 else if extra == 1 then 0x3080 else if extra == 2 then 0xE2080 else 0x3C82080
  }

  /** The exported test: a whole sequence is there and it is accepted. */
  method IsLegalSequence(source: seq<int>, s1: nat) returns (legal: bool)
    requires s1 < |source| && forall i :: 0 <= i < |source| ==> 0 <= source[i]
    ensures legal == Get8(source[s1..]).Got?
  {
    ghost var rest := source[s1..];
    var length := TrailingBytes(source[s1]) + 1;
    if s1 + length > |source| {
      return false;
    }
    assert source[s1..s1 + length] == rest[..length];
    legal := IsLegal(source[s1..s1 + length]);
  }

  method Read8(source: seq<int>, s1: nat) returns (g: Got)
    requires s1 < |source| && forall i :: 0 <= i < |source| ==> 0 <= source[i]
    ensures g == Get8(source[s1..])
  {
    ghost var rest := source[s1..];
    var extra := TrailingBytes(source[s1]);
    if s1 + extra >= |source| {
      return GotShort;
    }
    var s := source[s1..s1 + extra + 1];
    assert s == rest[..extra + 1];
    var legal := IsLegal(s);
    if !legal {
      return GotIllegal;
    }
    var ch, i := s[0], 0;
    while i < extra
      invariant 0 <= i <= extra <= 3
      invariant ch == (if i == 0 then s[0] else if i == 1 then s[0] * 64 + s[1]
                       else if i == 2 then (s[0] * 64 + s[1]) * 64 + s[2]
                       else ((s[0] * 64 + s[1]) * 64 + s[2]) * 64 + s[3])
    {
      i := i + 1;
      ch := ch * 64 + s[i];
    }
    return Got(ch - OffsetFor(extra), extra + 1);
  }

  method Peek32to16(source: seq<int>, s1: nat, room: nat, strict: bool) returns (act: Act)
    requires s1 < |source| && forall i :: 0 <= i < |source| ==> 0 <= source[i]
    ensures Decides(act, Utf16, Item32to16(strict, source[s1]), room)
  {
    if room == 0 {
      return Stop(TargetExhausted);
    }
    var ch := source[s1];
    if ch <= UNI_MAX_BMP {
      if SUR_HIGH_START <= ch <= SUR_LOW_END {
        if strict {
          return Stop(SourceIllegal);
        } else {
          return Write(UNI_REPLACEMENT_CHAR, 1, false);
        }
      } else {
        return Write(ch, 1, false);
      }
    } else if ch > UNI_MAX_LEGAL_UTF32 {
      if strict {
        return Pass(1);
      } else {
        return Write(UNI_REPLACEMENT_CHAR, 1, false);
      }
    } else {
      if room <= 1 {
        return Stop(TargetExhausted);
      }
      return Write(ch, 1, false);
    }
  }

  method Peek16to32(source: seq<int>, s1: nat, room: nat, strict: bool) returns (act: Act)
    requires s1 < |source| && forall i :: 0 <= i < |source| ==> 0 <= source[i] <= 0xFFFF
    ensures Decides(act, Utf32, Put32(Get16(strict, source[s1..])), room)
  {
    var g := Read16(source, s1, strict);
    if g == GotShort {
      return Stop(SourceExhausted);
    }
    if g == GotIllegal {
      return Stop(SourceIllegal);
    }
    if room == 0 {
      return Stop(TargetExhausted);
    }
    return Write(g.ch, g.used, false);
  }

  method Peek16to8(source: seq<int>, s1: nat, room: nat, strict: bool) returns (act: Act)
    requires s1 < |source| && forall i :: 0 <= i < |source| ==> 0 <= source[i] <= 0xFFFF
    ensures Decides(act, Utf8, Put8(Get16(strict, source[s1..])), room)
  {
    var g := Read16(source, s1, strict);
    if g == GotShort {
      return Stop(SourceExhausted);
    }
    if g == GotIllegal {
      return Stop(SourceIllegal);
    }
    var ch, bytesToWrite, bad := g.ch, 0, false;
    if ch < 0x80 {
      bytesToWrite := 1;
    } else if ch < 0x800 {
      bytesToWrite := 2;
    } else if ch < 0x10000 {
      bytesToWrite := 3;
    } else if ch <= UNI_MAX_LEGAL_UTF32 {
      bytesToWrite := 4;
    } else {
      ch, bytesToWrite := UNI_REPLACEMENT_CHAR, 3;
    }
    if bytesToWrite > room {
      return Stop(TargetExhausted);
    }
    return Write(ch, g.used, bad);
  }

  method Decide8to32(g: Got, room: nat, strict: bool) returns (act: Act)
    requires g.Got? ==> 0 <= g.ch
    ensures Decides(act, Utf32, Put32Checked(strict, g), room)
  {
    if g == GotShort {
      return Stop(SourceExhausted);
    }
    if g == GotIllegal {
      return Stop(SourceIllegal);
    }
    if room == 0 {
      return Stop(TargetExhausted);
    }
    if g.ch <= UNI_MAX_LEGAL_UTF32 {
      if SUR_HIGH_START <= g.ch <= SUR_LOW_END {
        if strict {
          return Stop(SourceIllegal);
        } else {
          return Write(UNI_REPLACEMENT_CHAR, g.used, false);
        }
      } else {
        return Write(g.ch, g.used, false);
      }
    } else {
      return Write(UNI_REPLACEMENT_CHAR, g.used, true);
    }
  }

  method Peek8to32(source: seq<int>, s1: nat, room: nat, strict: bool) returns (act: Act)
    requires s1 < |source| && forall i :: 0 <= i < |source| ==> 0 <= source[i]
    ensures Decides(act, Utf32, Put32Checked(strict, Get8(source[s1..])), room)
  {
    var g := Read8(source, s1);
    act := Decide8to32(g, room, strict);
  }

  method Decide8to16(g: Got, room: nat, strict: bool) returns (act: Act)
    requires g.Got? ==> 0 <= g.ch
    ensures Decides(act, Utf16, Put16(strict, g), room)
  {
    if g == GotShort {
      return Stop(SourceExhausted);
    }
    if g == GotIllegal {
      return Stop(SourceIllegal);
    }
    if room == 0 {
      return Stop(TargetExhausted);
    }
    var ch := g.ch;
    if ch <= UNI_MAX_BMP {
      if SUR_HIGH_START <= ch <= SUR_LOW_END {
        if strict {
          return Stop(SourceIllegal);
        } else {
          return Write(UNI_REPLACEMENT_CHAR, g.used, false);
        }
      } else {
        return Write(ch, g.used, false);
      }
    } else if ch > UNI_MAX_LEGAL_UTF32 {
      if strict {
        return Stop(SourceIllegal);
      } else {
        return Write(UNI_REPLACEMENT_CHAR, g.used, false);
      }
    } else {
      if room <= 1 {
        return Stop(TargetExhausted);
      }
      return Write(ch, g.used, false);
    }
  }

  method Peek8to16(source: seq<int>, s1: nat, room: nat, strict: bool) returns (act: Act)
    requires s1 < |source| && forall i :: 0 <= i < |source| ==> 0 <= source[i]
    ensures Decides(act, Utf16, Put16(strict, Get8(source[s1..])), room)
  {
    var g := Read8(source, s1);
    act := Decide8to16(g, room, strict);
  }

  function Item32to8(strict: bool, ch: int): Item {
    if strict && IsSurrogate(ch) then Illegal(0)
    else if ch > UNI_MAX_LEGAL_UTF32 then Chars(Enc8(UNI_REPLACEMENT_CHAR), 1, true, 3)
    else Chars(Enc8(ch), 1, false, |Enc8(ch)|)
  }

  method Peek32to8(source: seq<int>, s1: nat, room: nat, strict: bool) returns (act: Act)
    requires s1 < |source| && forall i :: 0 <= i < |source| ==> 0 <= source[i]
    ensures Decides(act, Utf8, Item32to8(strict, source[s1]), room)
  {
    if strict {
      if SUR_HIGH_START <= source[s1] <= SUR_LOW_END {
        return Stop(SourceIllegal);
      }
    }
    var ch, bytesToWrite, bad := source[s1], 0, false;
    if ch < 0x80 {
      bytesToWrite := 1;
    } else if ch < 0x800 {
      bytesToWrite := 2;
    } else if ch < 0x10000 {
      bytesToWrite := 3;
    } else if ch <= UNI_MAX_LEGAL_UTF32 {
      bytesToWrite := 4;
    } else {
      ch, bytesToWrite, bad := UNI_REPLACEMENT_CHAR, 3, true;
    }
    if bytesToWrite > room {
      return Stop(TargetExhausted);
    }
    return Write(ch, 1, bad);
  }

  // ---------- writing it ----------

  /** Writes a character in the target's form. */
  method WriteChar(form: Form, target: array<int>, t1: nat, ch: nat) returns (t2: nat)
    requires ch <= UNI_MAX_LEGAL_UTF32 && t1 + |Enc(form, ch)| <= target.Length
    modifies target
    ensures t2 == t1 + |Enc(form, ch)| && target[t1..t2] == Enc(form, ch)
    ensures forall i :: 0 <= i < target.Length && !(t1 <= i < t2) ==> target[i] == old(target[i])
  {
    hide Enc8, Enc16;
    match form
    case Utf8 =>
      t2 := t1 + |Enc8(ch)|;
      WriteBackwards(target, t2, ch, |Enc8(ch)|);
    case Utf16 =>
      t2 := WriteUnits16(target, t1, ch);
    case Utf32 =>
      target[t1] := ch;
      t2 := t1 + 1;
  }

  /** One code unit, or a surrogate pair. */
  method WriteUnits16(target: array<int>, t1: nat, ch: nat) returns (t2: nat)
    requires ch <= UNI_MAX_LEGAL_UTF32 && t1 + |Enc16(ch)| <= target.Length
    modifies target
    ensures t2 == t1 + |Enc16(ch)| && target[t1..t2] == Enc16(ch)
    ensures forall i :: 0 <= i < target.Length && !(t1 <= i < t2) ==> target[i] == old(target[i])
  {
    hide BitAnd, Shr;
    if ch <= UNI_MAX_BMP {
      target[t1] := ch;
      t2 := t1 + 1;
    } else {
      HalfMask(ch - 0x10000);
      target[t1] := Shr(ch - 0x10000, 10) + SUR_HIGH_START;
      target[t1 + 1] := BitAnd(ch - 0x10000, 0x3FF) + SUR_LOW_START;
      t2 := t1 + 2;
    }
  }

  /** Carries out a decision. */
  method Perform(act: Act, form: Form, target: array<int>, s1: nat, t1: nat, last: Result, ghost j: Job, ghost r: Item)
    returns (going: bool, result: Result, s2: nat, t2: nat)
    requires ValidJob(j) && s1 < |j.source| && (last == ConversionOK || last == SourceIllegal)
    requires At(j, target[..], s1, t1, last == SourceIllegal)
    requires j.f(j.source[s1..]) == r && Decides(act, form, r, target.Length - t1)
    modifies target
    ensures Turned(j, target[..], going, result, s1, s2, t2)
  {
    hide Rest, Whole, Carried, Turned, Enc, StopOf, Stops;
    match act
    case Stop(why) =>
      TurnedByStop(j, target[..], s1, t1, last == SourceIllegal, r);
      going, result, s2, t2 := false, why, s1, t1;
    case Write(ch, used, bad) =>
      ghost var t := target[..];
      t2 := WriteChar(form, target, t1, ch);
      TurnedByItem(j, t, s1, t1, last, r, target[..]);
      going, result, s2 := true, if bad then SourceIllegal else last, s1 + used;
    case Pass(used) =>
      TurnedByItem(j, target[..], s1, t1, last, r, target[..]);
      going, result, s2, t2 := true, SourceIllegal, s1 + used, t1;
  }

  // ---------- the converters ----------

  lemma StepAt(c: Converter, strict: bool, s: seq<int>)
    requires s != []
    ensures StepOf(c, strict)(s) == match c
                                    case C32to16 => Item32to16(strict, s[0])
                                    case C16to32 => Put32(Get16(strict, s))
                                    case C16to8 => Put8(Get16(strict, s))
                                    case C8to16 => Put16(strict, Get8(s))
                                    case C32to8 => Item32to8(strict, s[0])
                                    case C8to32 => Put32Checked(strict, Get8(s))
  {
  }

  method ConvertUTF32toUTF16(source: seq<int>, s0: nat, target: array<int>, t0: nat, strict: bool)
    returns (result: Result, s1: nat, t1: nat)
    requires s0 <= |source| && t0 <= target.Length && forall i :: 0 <= i < |source| ==> 0 <= source[i]
    modifies target
    ensures Carried(Job(StepOf(C32to16, strict), source, s0, old(target[..]), t0), target[..], result, s1, t1)
  {
    ghost var j := Job(StepOf(C32to16, strict), source, s0, target[..], t0);
    AtStart(j);
    var going := true;
    result, s1, t1 := ConversionOK, s0, t0;
    while going && s1 < |source|
      invariant going ==> (result == ConversionOK || result == SourceIllegal)
      invariant if going then At(j, target[..], s1, t1, result == SourceIllegal) else Carried(j, target[..], result, s1, t1)
      decreases if going then 1 else 0, |source| - s1
    {
      StepAt(C32to16, strict, source[s1..]);
      var act := Peek32to16(source, s1, target.Length - t1, strict);
      going, result, s1, t1 := Perform(act, Utf16, target, s1, t1, result, j, j.f(source[s1..]));
    }
    if going {
      AtEnd(j, target[..], s1, t1, result == SourceIllegal);
    }
  }

  method ConvertUTF16toUTF32(source: seq<int>, s0: nat, target: array<int>, t0: nat, strict: bool)
    returns (result: Result, s1: nat, t1: nat)
    requires s0 <= |source| && t0 <= target.Length && forall i :: 0 <= i < |source| ==> 0 <= source[i] <= 0xFFFF
    modifies target
    ensures Carried(Job(StepOf(C16to32, strict), source, s0, old(target[..]), t0), target[..], result, s1, t1)
  {
    ghost var j := Job(StepOf(C16to32, strict), source, s0, target[..], t0);
    AtStart(j);
    var going := true;
    result, s1, t1 := ConversionOK, s0, t0;
    while going && s1 < |source|
      invariant going ==> (result == ConversionOK || result == SourceIllegal)
      invariant if going then At(j, target[..], s1, t1, result == SourceIllegal) else Carried(j, target[..], result, s1, t1)
      decreases if going then 1 else 0, |source| - s1
    {
      StepAt(C16to32, strict, source[s1..]);
      var act := Peek16to32(source, s1, target.Length - t1, strict);
      going, result, s1, t1 := Perform(act, Utf32, target, s1, t1, result, j, j.f(source[s1..]));
    }
    if going {
      AtEnd(j, target[..], s1, t1, result == SourceIllegal);
    }
  }

  method ConvertUTF16toUTF8(source: seq<int>, s0: nat, target: array<int>, t0: nat, strict: bool)
    returns (result: Result, s1: nat, t1: nat)
    requires s0 <= |source| && t0 <= target.Length && forall i :: 0 <= i < |source| ==> 0 <= source[i] <= 0xFFFF
    modifies target
    ensures Carried(Job(StepOf(C16to8, strict), source, s0, old(target[..]), t0), target[..], result, s1, t1)
  {
    ghost var j := Job(StepOf(C16to8, strict), source, s0, target[..], t0);
    AtStart(j);
    var going := true;
    result, s1, t1 := ConversionOK, s0, t0;
    while going && s1 < |source|
      invariant going ==> (result == ConversionOK || result == SourceIllegal)
      invariant if going then At(j, target[..], s1, t1, result == SourceIllegal) else Carried(j, target[..], result, s1, t1)
      decreases if going then 1 else 0, |source| - s1
    {
      StepAt(C16to8, strict, source[s1..]);
      var act := Peek16to8(source, s1, target.Length - t1, strict);
      going, result, s1, t1 := Perform(act, Utf8, target, s1, t1, result, j, j.f(source[s1..]));
    }
    if going {
      AtEnd(j, target[..], s1, t1, result == SourceIllegal);
    }
  }

  method ConvertUTF8toUTF16(source: seq<int>, s0: nat, target: array<int>, t0: nat, strict: bool)
    returns (result: Result, s1: nat, t1: nat)
    requires s0 <= |source| && t0 <= target.Length && forall i :: 0 <= i < |source| ==> 0 <= source[i]
    modifies target
    ensures Carried(Job(StepOf(C8to16, strict), source, s0, old(target[..]), t0), target[..], result, s1, t1)
  {
    ghost var j := Job(StepOf(C8to16, strict), source, s0, target[..], t0);
    AtStart(j);
    var going := true;
    result, s1, t1 := ConversionOK, s0, t0;
    while going && s1 < |source|
      invariant going ==> (result == ConversionOK || result == SourceIllegal)
      invariant if going then At(j, target[..], s1, t1, result == SourceIllegal) else Carried(j, target[..], result, s1, t1)
      decreases if going then 1 else 0, |source| - s1
    {
      StepAt(C8to16, strict, source[s1..]);
      var act := Peek8to16(source, s1, target.Length - t1, strict);
      going, result, s1, t1 := Perform(act, Utf16, target, s1, t1, result, j, j.f(source[s1..]));
    }
    if going {
      AtEnd(j, target[..], s1, t1, result == SourceIllegal);
    }
  }

  method ConvertUTF32toUTF8(source: seq<int>, s0: nat, target: array<int>, t0: nat, strict: bool)
    returns (result: Result, s1: nat, t1: nat)
    requires s0 <= |source| && t0 <= target.Length && forall i :: 0 <= i < |source| ==> 0 <= source[i]
    modifies target
    ensures Carried(Job(StepOf(C32to8, strict), source, s0, old(target[..]), t0), target[..], result, s1, t1)
  {
    ghost var j := Job(StepOf(C32to8, strict), source, s0, target[..], t0);
    AtStart(j);
    var going := true;
    result, s1, t1 := ConversionOK, s0, t0;
    while going && s1 < |source|
      invariant going ==> (result == ConversionOK || result == SourceIllegal)
      invariant if going then At(j, target[..], s1, t1, result == SourceIllegal) else Carried(j, target[..], result, s1, t1)
      decreases if going then 1 else 0, |source| - s1
    {
      StepAt(C32to8, strict, source[s1..]);
      var act := Peek32to8(source, s1, target.Length - t1, strict);
      going, result, s1, t1 := Perform(act, Utf8, target, s1, t1, result, j, j.f(source[s1..]));
    }
    if going {
      AtEnd(j, target[..], s1, t1, result == SourceIllegal);
    }
  }

  method ConvertUTF8toUTF32(source: seq<int>, s0: nat, target: array<int>, t0: nat, strict: bool)
    returns (result: Result, s1: nat, t1: nat)
    requires s0 <= |source| && t0 <= target.Length && forall i :: 0 <= i < |source| ==> 0 <= source[i]
    modifies target
    ensures Carried(Job(StepOf(C8to32, strict), source, s0, old(target[..]), t0), target[..], result, s1, t1)
  {
    ghost var j := Job(StepOf(C8to32, strict), source, s0, target[..], t0);
    AtStart(j);
    var going := true;
    result, s1, t1 := ConversionOK, s0, t0;
    while going && s1 < |source|
      invariant going ==> (result == ConversionOK || result == SourceIllegal)
      invariant if going then At(j, target[..], s1, t1, result == SourceIllegal) else Carried(j, target[..], result, s1, t1)
      decreases if going then 1 else 0, |source| - s1
    {
      StepAt(C8to32, strict, source[s1..]);
      var act := Peek8to32(source, s1, target.Length - t1, strict);
      going, result, s1, t1 := Perform(act, Utf32, target, s1, t1, result, j, j.f(source[s1..]));
    }
    if going {
      AtEnd(j, target[..], s1, t1, result == SourceIllegal);
    }
  }
}
