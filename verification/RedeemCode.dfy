/** Redeem codes: a function id and a serial number, scrambled, signed and written in base 32. */
module RedeemCode {
  import opened Bits

  const SIGN_XOR_KEY: nat := 0x7f8a1231
  const REDEEM_CODE_LEN: nat := 8
  const REDEEM_CODE_BIT_LEN: nat := 40
  const SIGN_BIT_LEN: nat := 10
  const FUN_ID_BIT_START_IDX: nat := 32
  const UNIQUE_CODE_BIT_START_IDX: nat := 10
  const FUN_ID_MAX: nat := 0xff
  const UNIQUE_CODE_MAX: nat := 0x3fffff
  const SIGN_MAX: nat := 0x3ff

  const ALPHABET := "ABCDEFGHJKLMNPQRSTUVWXYZ23456789"

  /** 999 stands for a character outside the alphabet. */
  function CharToNum(c: char): nat {
    match c
    case 'A' => 0 case 'B' => 1 case 'C' => 2 case 'D' => 3 case 'E' => 4 case 'F' => 5
    case 'G' => 6 case 'H' => 7 case 'J' => 8 case 'K' => 9 case 'L' => 10 case 'M' => 11
    case 'N' => 12 case 'P' => 13 case 'Q' => 14 case 'R' => 15 case 'S' => 16 case 'T' => 17
    case 'U' => 18 case 'V' => 19 case 'W' => 20 case 'X' => 21 case 'Y' => 22 case 'Z' => 23
    case '2' => 24 case '3' => 25 case '4' => 26 case '5' => 27 case '6' => 28 case '7' => 29
    case '8' => 30 case '9' => 31
    case _ => 999
  }

  lemma AlphabetInverts(d: nat, c: char)
    ensures d < 32 ==> CharToNum(ALPHABET[d]) == d
    ensures CharToNum(c) < 32 ==> ALPHABET[CharToNum(c)] == c
    ensures CharToNum(c) < 32 || CharToNum(c) == 999
  {
    if d < 16 {
      LowDigits(d);
    } else if d < 32 {
      HighDigits(d);
    }
  }

  lemma LowDigits(d: nat)
    requires d < 16
    ensures CharToNum(ALPHABET[d]) == d
  {
    assert d in {0, 1, 2, 3, 4, 5, 6, 7, 8, 9, 10, 11, 12, 13, 14, 15};
  }

  lemma HighDigits(d: nat)
    requires 16 <= d < 32
    ensures CharToNum(ALPHABET[d]) == d
  {
    assert d in {16, 17, 18, 19, 20, 21, 22, 23, 24, 25, 26, 27, 28, 29, 30, 31};
  }

  // ---------- base 32 ----------

  predicate Legal(code: string) {
    forall i :: 0 <= i < |code| ==> CharToNum(code[i]) < 32
  }

  /** The number a legal text denotes in base 32. */
  function Value(code: string): nat {
    if code == [] then 0 else Value(code[..|code| - 1]) * 32 + CharToNum(code[|code| - 1])
  }

  /** The n low base-32 digits of v. */
  function Text(v: nat, n: nat): (code: string)
    ensures |code| == n
  {
    if n == 0 then [] else Text(v / 32, n - 1) + [ALPHABET[v % 32]]
  }

  lemma {:induction false} TextThenValue(v: nat, n: nat)
    requires v < Pow2(5 * n)
    ensures Legal(Text(v, n)) && Value(Text(v, n)) == v
    decreases n
  {
    if n > 0 {
      AlphabetInverts(v % 32, 'A');
      assert Pow2(5 * n) == 32 * Pow2(5 * (n - 1)) by { Pow2Step(5 * (n - 1)); }
      TextThenValue(v / 32, n - 1);
    }
  }

  lemma {:induction false} ValueBound(code: string)
    requires Legal(code)
    ensures Value(code) < Pow2(5 * |code|)
    decreases |code|
  {
    hide CharToNum;
    if code != [] {
      var n := |code|;
      ValueBound(code[..n - 1]);
      Pow2Step(5 * (n - 1));
    }
  }

  lemma {:induction false} TextOfValue(code: string)
    requires Legal(code)
    ensures Text(Value(code), |code|) == code
    decreases |code|
  {
    if code != [] {
      hide CharToNum, Text, Value;
      var front, last := code[..|code| - 1], code[|code| - 1];
      TextOfValue(front);
      LastDigit(code);
      LastCharacter(code);
      assert front + [last] == code;
    }
  }

  lemma LastCharacter(code: string)
    requires Legal(code) && code != []
    ensures ALPHABET[CharToNum(code[|code| - 1])] == code[|code| - 1]
  {
    hide CharToNum;
    AlphabetInverts(0, code[|code| - 1]);
  }

  lemma ValueThenText(code: string)
    requires Legal(code)
    ensures Value(code) < Pow2(5 * |code|) && Text(Value(code), |code|) == code
  {
    ValueBound(code);
    TextOfValue(code);
  }

  lemma LastDigit(code: string)
    requires Legal(code) && code != []
    ensures var front, d := code[..|code| - 1], CharToNum(code[|code| - 1]);
            d < 32 && Text(Value(code), |code|) == Text(Value(front), |front|) + [ALPHABET[d]]
  {
    hide CharToNum;
    var front, d := code[..|code| - 1], CharToNum(code[|code| - 1]);
    assert Value(code) / 32 == Value(front) && Value(code) % 32 == d;
  }

  lemma Pow2Step(k: nat)
    ensures Pow2(k + 5) == 32 * Pow2(k)
  {
    assert Pow2(k + 5) == 2 * Pow2(k + 4) == 4 * Pow2(k + 3) == 8 * Pow2(k + 2) == 16 * Pow2(k + 1);
  }

  lemma WidthFacts()
    ensures Pow2(8) == 0x100 && Pow2(10) == 0x400 && Pow2(22) == 0x400000
    ensures Pow2(32) == 0x100000000 && Pow2(40) == 0x10000000000
    ensures Pow2(5) == 32 && Pow2(0) == 1
  {
    Pow2Step(0);
    Pow2Step(5);
    assert Pow2(8) == 2 * Pow2(7) == 4 * Pow2(6) == 8 * Pow2(5);
    Pow2Step(10);
    Pow2Step(15);
    assert Pow2(22) == 2 * Pow2(21) == 4 * Pow2(20);
    Pow2Step(20);
    Pow2Step(25);
    Pow2Step(30);
    Pow2Step(35);
    assert Pow2(32) == 2 * Pow2(31) == 4 * Pow2(30);
  }

  // The instances of the bit laws for the widths in use, free of powers.

  lemma MaskWords(a: nat)
    ensures BitAnd(a, 0x1f) == a % 32 && BitAnd(a, FUN_ID_MAX) == a % 0x100
    ensures BitAnd(a, SIGN_MAX) == a % 0x400 && BitAnd(a, UNIQUE_CODE_MAX) == a % 0x400000
  {
    WidthFacts();
    AndMask(a, 5);
    AndMask(a, 8);
    AndMask(a, 10);
    AndMask(a, 22);
  }

  lemma ShlWords(a: nat)
    ensures Shl(a, 10) == a * 0x400 && Shl(a, 32) == a * 0x100000000
  {
    WidthFacts();
  }

  lemma ShrWords(a: nat)
    ensures Shr(a, 10) == a / 0x400 && Shr(a, 32) == a / 0x100000000 && Shr(a, 40) == a / 0x10000000000
  {
    WidthFacts();
    ShrIsDiv(a, 10);
    ShrIsDiv(a, 32);
    ShrIsDiv(a, 40);
  }

  lemma JoinWords(a: nat, b: nat)
    ensures b < 0x400 ==> BitOr(a * 0x400, b) == a * 0x400 + b
    ensures b < 0x100000000 ==> BitOr(a * 0x100000000, b) == a * 0x100000000 + b
  {
    WidthFacts();
    if b < 0x400 {
      OrJoins(a, b, 10);
    }
    if b < 0x100000000 {
      OrJoins(a, b, 32);
    }
  }

  lemma XorLow8(a: nat, b: nat)
    ensures BitXor(a, b) % 0x100 == BitXor(a % 0x100, b % 0x100)
  {
    WidthFacts();
    XorLowBits(a, b, 8);
  }

  lemma XorLow10(a: nat, b: nat)
    ensures BitXor(a, b) % 0x400 == BitXor(a % 0x400, b % 0x400)
  {
    WidthFacts();
    XorLowBits(a, b, 10);
  }

  lemma XorLow22(a: nat, b: nat)
    ensures BitXor(a, b) % 0x400000 == BitXor(a % 0x400000, b % 0x400000)
  {
    WidthFacts();
    XorLowBits(a, b, 22);
  }

  /** The 40 bits a text stands for: 0 as soon as one character is not in the alphabet. */
  function CodeBits(code: string): nat
    requires |code| >= REDEEM_CODE_LEN
  {
    if Legal(code[..REDEEM_CODE_LEN]) then Value(code[..REDEEM_CODE_LEN]) else 0
  }

  /** Adding one more digit at its place completes one more digit of the number. */
  lemma AddDigit(front: nat, d: nat, k: nat)
    ensures front * Pow2(k + 5) + Shl(d, k) == (front * 32 + d) * Pow2(k)
  {
    Pow2Step(k);
    var m := Pow2(k);
    assert front * (32 * m) == front * 32 * m;
    assert (front * 32 + d) * m == front * 32 * m + d * m;
  }

  /** The sum of the first i digits at their places. */
  ghost function Partial(code: string, i: nat): nat
    requires i <= REDEEM_CODE_LEN <= |code|
  {
    Value(code[..i]) * Pow2(REDEEM_CODE_BIT_LEN - 5 * i)
  }

  /** One turn of the loop: either the prefix stays legal and its number is extended at its place,
      or the text stands for 0. */
  lemma NextPrefix(code: string, i: nat)
    requires i < REDEEM_CODE_LEN <= |code| && Legal(code[..i])
    ensures CharToNum(code[i]) >= 32 ==> CodeBits(code) == 0
    ensures CharToNum(code[i]) < 32 ==>
      Legal(code[..i + 1]) &&
      Partial(code, i) + Shl(CharToNum(code[i]), (REDEEM_CODE_BIT_LEN - 5) - i * 5) == Partial(code, i + 1)
  {
    assert code[..i + 1][..i] == code[..i];
    assert code[..REDEEM_CODE_LEN][i] == code[i];
    AddDigit(Value(code[..i]), CharToNum(code[i]), REDEEM_CODE_BIT_LEN - 5 * (i + 1));
  }

  method CodeToUint64(code: string) returns (src: nat)
    requires |code| >= REDEEM_CODE_LEN
    ensures src == CodeBits(code)
  {
    src := 0;
    var i := 0;
    while i < REDEEM_CODE_LEN
      invariant 0 <= i <= REDEEM_CODE_LEN
      invariant Legal(code[..i])
      invariant src == Partial(code, i)
    {
      NextPrefix(code, i);
      var originNum := CharToNum(code[i]);
      if originNum >= 32 {
        return 0;
      }
      src := src + Shl(originNum, (REDEEM_CODE_BIT_LEN - 5) - i * 5);
      i := i + 1;
    }
    WholeText(code);
  }

  lemma WholeText(code: string)
    requires REDEEM_CODE_LEN <= |code| && Legal(code[..REDEEM_CODE_LEN])
    ensures Partial(code, REDEEM_CODE_LEN) == CodeBits(code)
  {
    assert Pow2(0) == 1;
  }

  lemma NextDigit(value: nat, k: nat)
    ensures BitAnd(Shr(value, k), 0x1f) == Shr(value, k) % 32 && Shr(value, k + 5) == Shr(value, k) / 32
  {
    MaskWords(Shr(value, k));
    ShrFive(value, k);
  }

  method Uint64ToCode(value: nat) returns (code: string)
    requires Shr(value, REDEEM_CODE_BIT_LEN) == 0
    ensures code == Text(value, REDEEM_CODE_LEN)
  {
    code := "";
    var i := 0;
    while i < REDEEM_CODE_LEN
      invariant 0 <= i <= REDEEM_CODE_LEN
      invariant code == Text(Shr(value, REDEEM_CODE_BIT_LEN - 5 * i), i)
    {
      var k := (REDEEM_CODE_BIT_LEN - 5) - i * 5;
      var idx := BitAnd(Shr(value, k), 0x1f);
      NextDigit(value, k);
      code := code + [ALPHABET[idx]];
      i := i + 1;
    }
  }

  // ---------- fields ----------

  function XorKey(i: nat): nat {
    if i == 0 then 0x7f8a4233 else if i == 1 then 0xba563e73 else if i == 2 then 0xaffa32ce else 0x5f8a3dd2
  }

  function GetSign(src: nat): nat {
    BitAnd(BitXor(src % 0x100000000, SIGN_XOR_KEY), SIGN_MAX)
  }

  /** What the serial number becomes. */
  function Scramble(unique: nat): nat {
    BitXor(unique, XorKey(unique % 4)) % 0x400000
  }

  /** What the function id becomes next to the scrambled serial number w. */
  function Mask(w: nat, fun: nat): nat {
    BitXor(w, fun) % 0x100
  }

  /** The check field that belongs to the scrambled serial number w. */
  function CheckField(w: nat): nat {
    BitXor(w % 0x400, SIGN_XOR_KEY % 0x400)
  }

  function Pack(g: nat, w: nat, sign: nat): nat {
    g * 0x100000000 + w * 0x400 + sign
  }

  /** The code of a function id and a serial number. */
  function Code(fun: nat, unique: nat): string {
    var w := Scramble(unique);
    Text(Pack(Mask(w, fun), w, CheckField(w)), REDEEM_CODE_LEN)
  }

  lemma SignOf(src: nat)
    requires src < 0x100000000
    ensures GetSign(src) == BitXor(src % 0x400, SIGN_XOR_KEY % 0x400) < 0x400
  {
    assert src % 0x100000000 == src;
    MaskWords(BitXor(src, SIGN_XOR_KEY));
    XorLow10(src, SIGN_XOR_KEY);
  }

  lemma CheckFieldIsSign(g: nat, w: nat)
    requires w < 0x400000 && g < 0x100
    ensures GetSign(g * 0x400000 + w) == CheckField(w) < 0x400
  {
    SignOf(g * 0x400000 + w);
    DivModUnique(g * 0x400000 + w, 0x400, g * 0x1000 + w / 0x400, w % 0x400);
  }

  method CreateRedeemCode(fun_id: nat, unique_code: nat) returns (code: string)
    ensures code == if fun_id <= FUN_ID_MAX && unique_code <= UNIQUE_CODE_MAX then Code(fun_id, unique_code) else ""
  {
    if fun_id > FUN_ID_MAX {
      return "";
    }
    if unique_code > UNIQUE_CODE_MAX {
      return "";
    }
    var unique := BitXor(unique_code, XorKey(unique_code % 4));
    MaskWords(unique);
    unique := BitAnd(unique, UNIQUE_CODE_MAX);
    assert unique == Scramble(unique_code);

    var fun := BitXor(unique, fun_id);
    MaskWords(fun);
    fun := BitAnd(fun, FUN_ID_MAX);
    assert fun == Mask(unique, fun_id);

    var bits := JoinFields(fun, unique);
    ShrWords(bits);
    code := Uint64ToCode(bits);
  }

  /** Puts the two fields at their places and adds the check field. */
  method JoinFields(fun: nat, unique: nat) returns (bits: nat)
    requires fun < 0x100 && unique < 0x400000
    ensures bits == Pack(fun, unique, CheckField(unique)) < 0x10000000000
  {
    hide BitOr, Shl, Shr, GetSign, CheckField;
    ShlWords(fun);
    ShlWords(unique);
    var fun_id_seg := Shl(fun, FUN_ID_BIT_START_IDX);
    var unique_code_seg := Shl(unique, UNIQUE_CODE_BIT_START_IDX);
    var sign_src_seg := BitOr(fun_id_seg, unique_code_seg);
    ghost var q := fun * 0x400000 + unique;
    assert sign_src_seg == q * 0x400 by {
      JoinWords(fun, unique_code_seg);
    }
    var sign_src := Shr(sign_src_seg, SIGN_BIT_LEN);
    assert sign_src == q by {
      ShrWords(sign_src_seg);
    }
    CheckFieldIsSign(fun, unique);
    var sign := GetSign(sign_src);
    JoinWords(q, sign);
    bits := BitOr(sign_src_seg, sign);
  }

  /** The text is well formed and its check field matches. */
  predicate ValidCode(code: string) {
    && |code| == REDEEM_CODE_LEN
    && CodeBits(code) % 0x400 == GetSign(CodeBits(code) / 0x400)
  }

  method CheckCodeValid(code: string) returns (valid: bool)
    ensures valid == ValidCode(code)
  {
    if |code| != REDEEM_CODE_LEN {
      return false;
    }
    var src := CodeToUint64(code);
    ShrWords(src);
    MaskWords(src);
    var sign_src := Shr(src, SIGN_BIT_LEN);
    var sign := BitAnd(src, SIGN_MAX);
    return sign == GetSign(sign_src);
  }

  /** The function id stored in a text. */
  function FunIdOf(code: string): nat
    requires |code| >= REDEEM_CODE_LEN
  {
    var w := CodeBits(code) / 0x400 % 0x400000;
    Mask(w, CodeBits(code) / 0x100000000)
  }

  method StoredUniqueCode(src: nat) returns (unique_code: nat)
    ensures unique_code == src / 0x400 % 0x400000
  {
    ShrWords(src);
    unique_code := Shr(src, UNIQUE_CODE_BIT_START_IDX);
    MaskWords(unique_code);
    unique_code := BitAnd(unique_code, UNIQUE_CODE_MAX);
  }

  method StoredFunId(src: nat) returns (fun_id: nat)
    ensures fun_id == src / 0x100000000 % 0x100
  {
    ShrWords(src);
    fun_id := Shr(src, FUN_ID_BIT_START_IDX);
    MaskWords(fun_id);
    fun_id := BitAnd(fun_id, FUN_ID_MAX);
  }

  method GetFunId(code: string) returns (fun_id: nat)
    requires |code| >= REDEEM_CODE_LEN
    ensures fun_id == FunIdOf(code)
  {
    hide BitXor, BitAnd, Value;
    var src := CodeToUint64(code);
    CodeBitsBound(code);
    var unique_code := StoredUniqueCode(src);
    fun_id := StoredFunId(src);
    fun_id := BitXor(unique_code, fun_id);
    MaskWords(fun_id);
    fun_id := BitAnd(fun_id, FUN_ID_MAX);
  }

  lemma CodeBitsBound(code: string)
    requires |code| >= REDEEM_CODE_LEN
    ensures CodeBits(code) < 0x10000000000 && CodeBits(code) / 0x100000000 < 0x100
  {
    WidthFacts();
    if Legal(code[..REDEEM_CODE_LEN]) {
      ValueThenText(code[..REDEEM_CODE_LEN]);
    }
  }

  // ---------- the bijection ----------

  predicate InRange(fun: nat, unique: nat) {
    fun <= FUN_ID_MAX && unique <= UNIQUE_CODE_MAX
  }

  /** The low two bits of the keys permute the remainders modulo 4: the key in use can be read off
      the scrambled number. */
  function KeyUsed(w: nat): nat {
    if w % 4 == 3 then 0 else if w % 4 == 2 then 1 else if w % 4 == 0 then 2 else 3
  }

  function Unscramble(w: nat): nat {
    BitXor(w, XorKey(KeyUsed(w)) % 0x400000)
  }

  lemma XorMod4(a: nat, b: nat)
    ensures BitXor(a, b) % 4 == BitXor(a % 4, b % 4)
  {
    assert Pow2(2) == 2 * Pow2(1) == 4;
    XorLowBits(a, b, 2);
  }

  lemma SmallXor()
    ensures BitXor(0, 3) == 3 && BitXor(1, 3) == 2 && BitXor(2, 2) == 0 && BitXor(3, 2) == 1
    ensures BitXor(2, 3) == 1 && BitXor(0, 2) == 2 && BitXor(3, 3) == 0 && BitXor(1, 2) == 3
  {
  }

  /** The key of a remainder, cut to the width of a serial number, and its low two bits. */
  lemma LowKey(i: nat)
    requires i < 4
    ensures XorKey(i) % 0x400000 % 4 == if i < 2 then 3 else 2
  {
  }

  lemma ScrambleIsXor(unique: nat, key: nat)
    requires unique <= UNIQUE_CODE_MAX && key == XorKey(unique % 4) % 0x400000
    ensures Scramble(unique) == BitXor(unique, key) <= UNIQUE_CODE_MAX
  {
    hide BitXor;
    XorLow22(unique, XorKey(unique % 4));
    assert unique % 0x400000 == unique;
  }

  lemma ScrambleTellsKey(unique: nat, key: nat)
    requires key == XorKey(unique % 4) % 0x400000
    ensures KeyUsed(BitXor(unique, key)) == unique % 4
  {
    hide BitXor, XorKey;
    XorMod4(unique, key);
    LowKey(unique % 4);
    SmallXor();
  }

  lemma ScrambleInverts(unique: nat)
    requires unique <= UNIQUE_CODE_MAX
    ensures Scramble(unique) <= UNIQUE_CODE_MAX && Unscramble(Scramble(unique)) == unique
  {
    hide BitXor, XorKey;
    var key := XorKey(unique % 4) % 0x400000;
    ScrambleIsXor(unique, key);
    ScrambleTellsKey(unique, key);
    XorCancels(unique, key);
  }

  lemma UnscrambleRemainder(w: nat)
    requires w <= UNIQUE_CODE_MAX
    ensures Unscramble(w) <= UNIQUE_CODE_MAX && Unscramble(w) % 4 == KeyUsed(w)
  {
    hide BitXor;
    var i := KeyUsed(w);
    var key := XorKey(i) % 0x400000;
    XorMod4(w, key);
    LowKey(i);
    SmallXor();
    XorLow22(w, key);
    assert w % 0x400000 == w && key % 0x400000 == key;
  }

  lemma UnscrambleInverts(w: nat)
    requires w <= UNIQUE_CODE_MAX
    ensures Unscramble(w) <= UNIQUE_CODE_MAX && Scramble(Unscramble(w)) == w
  {
    UnscrambleRemainder(w);
    ScrambleWith(Unscramble(w), w, KeyUsed(w));
  }

  lemma SmallWithKey(u: nat, q: nat, r: nat)
    requires u < 4 && r < 4
    ensures BitXor(u, 4 * q + r) == 4 * q + BitXor(u, r)
  {
    ZeroXor(q);
    assert (4 * q + r) / 2 == 2 * q + r / 2 && (4 * q + r) % 2 == r % 2;
    assert (2 * q + r / 2) / 2 == q && (2 * q + r / 2) % 2 == r / 2;
    assert BitXor(u / 2, 2 * q + r / 2) == 2 * q + BitXor(u / 2, r / 2);
  }

  /** The first serial numbers scrambled, one for each key. */
  lemma FirstScrambled()
    ensures Scramble(0) == 0xa4233 && Scramble(1) == 0x163e72 && Scramble(2) == 0x3a32cc && Scramble(3) == 0xa3dd1
  {
    hide BitXor;
    SmallXor();
    SmallWithKey(0, 0x7f8a4233 / 4, 3);
    SmallWithKey(1, 0xba563e73 / 4, 3);
    SmallWithKey(2, 0xaffa32ce / 4, 2);
    SmallWithKey(3, 0x5f8a3dd2 / 4, 2);
  }

  lemma ScrambleWith(u: nat, w: nat, i: nat)
    requires i < 4 && u <= UNIQUE_CODE_MAX && u % 4 == i && u == BitXor(w, XorKey(i) % 0x400000)
    ensures Scramble(u) == w
  {
    hide BitXor, XorKey;
    XorLow22(u, XorKey(i));
    XorCancels(w, XorKey(i) % 0x400000);
    assert u % 0x400000 == u;
  }

  lemma MaskIsXor(w: nat, fun: nat)
    requires fun < 0x100
    ensures Mask(w, fun) == BitXor(w % 0x100, fun) < 0x100
  {
    hide BitXor;
    XorLow8(w, fun);
    assert fun % 0x100 == fun;
  }

  lemma MaskInverts(w: nat, fun: nat)
    requires fun < 0x100
    ensures Mask(w, fun) < 0x100 && Mask(w, Mask(w, fun)) == fun
  {
    MaskIsXor(w, fun);
    MaskIsXor(w, Mask(w, fun));
    XorBack(w % 0x100, fun);
  }

  lemma XorBack(a: nat, b: nat)
    ensures BitXor(a, BitXor(a, b)) == b
  {
    XorCommutes(a, b);
    XorCommutes(a, BitXor(b, a));
    XorCancels(b, a);
  }

  lemma {:induction false} XorCommutes(a: nat, b: nat)
    ensures BitXor(a, b) == BitXor(b, a)
    decreases a + b
  {
    if a != 0 || b != 0 {
      XorCommutes(a / 2, b / 2);
    }
  }

  lemma Unpack(g: nat, w: nat, sign: nat)
    requires g < 0x100 && w < 0x400000 && sign < 0x400
    ensures var p := Pack(g, w, sign);
            && p < 0x10000000000
            && p % 0x400 == sign && p / 0x400 == g * 0x400000 + w
            && p / 0x400 % 0x400000 == w && p / 0x100000000 == g
  {
    var p := Pack(g, w, sign);
    DivModUnique(p, 0x400, g * 0x400000 + w, sign);
    DivModUnique(g * 0x400000 + w, 0x400000, g, w);
    DivModUnique(p, 0x100000000, g, w * 0x400 + sign);
  }

  lemma BitsOfText(p: nat)
    requires p < 0x10000000000
    ensures CodeBits(Text(p, REDEEM_CODE_LEN)) == p
  {
    WidthFacts();
    TextThenValue(p, REDEEM_CODE_LEN);
    var s := Text(p, REDEEM_CODE_LEN);
    assert s[..REDEEM_CODE_LEN] == s;
  }

  /** The bits a text stands for, from the fields they pack. */
  lemma FieldsOfText(s: string, p: nat, g: nat, w: nat)
    requires g < 0x100 && w < 0x400000 && p == Pack(g, w, CheckField(w)) && s == Text(p, REDEEM_CODE_LEN)
    ensures CodeBits(s) == p && p % 0x400 == GetSign(p / 0x400)
    ensures p / 0x400 % 0x400000 == w && p / 0x100000000 == g
  {
    hide CodeBits, GetSign, CheckField, Text;
    CheckFieldIsSign(g, w);
    Unpack(g, w, CheckField(w));
    BitsOfText(p);
  }

  /** A created code is accepted and gives back the function id and the serial number it was made from. */
  lemma CreatedCodeIsValid(fun: nat, unique: nat)
    requires InRange(fun, unique)
    ensures var s := Code(fun, unique);
            && ValidCode(s) && FunIdOf(s) == fun
            && Unscramble(CodeBits(s) / 0x400 % 0x400000) == unique
  {
    var w := Scramble(unique);
    var g := Mask(w, fun);
    var p := Pack(g, w, CheckField(w));
    assert w < 0x400000 && Unscramble(w) == unique by { ScrambleInverts(unique); }
    assert g < 0x100 && Mask(w, g) == fun by { MaskInverts(w, fun); }
    FieldsOfText(Code(fun, unique), p, g, w);
  }

  /** Every accepted text is the code of some function id and serial number in range. */
  lemma ValidCodeWasCreated(s: string)
    requires ValidCode(s)
    ensures var unique := Unscramble(CodeBits(s) / 0x400 % 0x400000);
            InRange(FunIdOf(s), unique) && Code(FunIdOf(s), unique) == s
  {
    ValidCodeIsLegal(s);
    CodeBitsBound(s);
    SignedBits(CodeBits(s));
  }

  /** An accepted text has legal characters only, so it is the text of its bits. */
  lemma ValidCodeIsLegal(s: string)
    requires ValidCode(s)
    ensures Legal(s) && Text(CodeBits(s), REDEEM_CODE_LEN) == s
  {
    hide GetSign, Value, Text;
    assert s[..REDEEM_CODE_LEN] == s;
    ZeroHasNoSign();
    assert Legal(s);
    ValueThenText(s);
  }

  /** Forty bits with a matching check field are the packed fields of a pair in range. */
  lemma SignedBits(p: nat)
    requires p < 0x10000000000 && p / 0x100000000 < 0x100 && p % 0x400 == GetSign(p / 0x400)
    ensures var w := p / 0x400 % 0x400000;
            var fun, unique := Mask(w, p / 0x100000000), Unscramble(w);
            InRange(fun, unique) && Code(fun, unique) == Text(p, REDEEM_CODE_LEN)
  {
    var g, w := p / 0x100000000, p / 0x400 % 0x400000;
    FieldsOf(p);
    SignedPack(p, p / 0x400, g, w);
    PackedCode(p, g, w);
  }

  lemma SignedPack(p: nat, q: nat, g: nat, w: nat)
    requires g < 0x100 && w < 0x400000 && q == g * 0x400000 + w && p == q * 0x400 + GetSign(q)
    ensures p == Pack(g, w, CheckField(w))
  {
    CheckFieldIsSign(g, w);
  }

  lemma PackedCode(p: nat, g: nat, w: nat)
    requires g < 0x100 && w < 0x400000 && p == Pack(g, w, CheckField(w))
    ensures InRange(Mask(w, g), Unscramble(w))
    ensures Code(Mask(w, g), Unscramble(w)) == Text(p, REDEEM_CODE_LEN)
  {
    UnscrambleInverts(w);
    MaskInverts(w, g);
  }

  lemma FieldsOf(p: nat)
    requires p < 0x10000000000
    ensures p / 0x100000000 < 0x100
    ensures p == Pack(p / 0x100000000, p / 0x400 % 0x400000, p % 0x400)
    ensures p / 0x400 == p / 0x100000000 * 0x400000 + p / 0x400 % 0x400000
  {
  }

  /** The check field of 0 is not 0, so a text with an illegal character is refused. */
  lemma ZeroHasNoSign()
    ensures GetSign(0) != 0
  {
    hide GetSign, BitXor;
    SignOf(0);
    ZeroXor(0x231);
  }

  lemma {:induction false} ZeroXor(b: nat)
    ensures BitXor(0, b) == b
    decreases b
  {
    if b > 0 {
      ZeroXor(b / 2);
    }
  }

  /** A text is accepted exactly when one and only one pair in range has it as its code. */
  lemma CodesAreABijection(s: string)
    ensures ValidCode(s) <==> exists fun: nat, unique: nat :: InRange(fun, unique) && Code(fun, unique) == s
    ensures forall fun: nat, unique: nat, fun': nat, unique': nat ::
              InRange(fun, unique) && InRange(fun', unique') && Code(fun, unique) == s == Code(fun', unique')
              ==> fun == fun' && unique == unique'
    ensures forall fun: nat, unique: nat :: InRange(fun, unique) && Code(fun, unique) == s ==> FunIdOf(s) == fun
  {
    forall fun: nat, unique: nat | InRange(fun, unique) && Code(fun, unique) == s
      ensures ValidCode(s) && FunIdOf(s) == fun
      ensures Unscramble(CodeBits(s) / 0x400 % 0x400000) == unique
    {
      CreatedCodeIsValid(fun, unique);
    }
    if ValidCode(s) {
      ValidCodeWasCreated(s);
    }
  }
}
