/** Printing a reply tree and parsing it again, with the exact depth limit of the nine-slot stack. */
module RoundTrip {
  import opened Bytes
  import opened Resp

  /** The wire form of a reply. */
  function Encode(r: Reply): (s: seq<Byte>)
    ensures |s| >= 1
    decreases r
  {
    match r
    case Status(text) => [PLUS] + text + CRLF
    case Error(text) => [MINUS] + text + CRLF
    case Integer(v) => [58] + SignedDecimal(v) + CRLF
    case Bulk(text) => [36] + (Decimal(|text|) + CRLF + text + CRLF)
    case Nil => [36] + SignedDecimal(-1) + CRLF
    case Array(n, elements) => [42] + (SignedDecimal(n) + CRLF + EncodeAll(elements))
  }

  function EncodeAll(rs: seq<Reply>): seq<Byte>
    decreases rs
  {
    if rs == [] then [] else Encode(rs[0]) + EncodeAll(rs[1..])
  }

  /** A line text must hold no CR LF; an array must have as many elements as its count says. */
  predicate Encodable(r: Reply)
    decreases r
  {
    match r
    case Status(text) => FindNewline(text) == None
    case Error(text) => FindNewline(text) == None
    case Array(n, elements) =>
      (if elements == [] then n == 0 || n < -1 else n == |elements|) && AllEncodable(elements)
    case _ => true
  }

  predicate AllEncodable(rs: seq<Reply>)
    decreases rs
  {
    rs == [] || (Encodable(rs[0]) && AllEncodable(rs[1..]))
  }

  /** How many arrays are nested in each other. */
  function Height(r: Reply): nat
    decreases r
  {
    if r.Array? then 1 + MaxHeight(r.elements) else 0
  }

  function MaxHeight(rs: seq<Reply>): nat
    decreases rs
  {
    if rs == [] then 0
    else
      var h, more := Height(rs[0]), MaxHeight(rs[1..]);
      if h > more then h else more
  }

  lemma {:induction false} DigitsAppend(a: seq<Byte>, d: Byte, v: int)
    requires IsDigit(d) && forall b :: b in a ==> IsDigit(b)
    ensures Digits(a, v).Some?
    ensures Digits(a + [d], v) == Some(Digits(a, v).value * 10 + (d - ZERO))
    decreases |a|
  {
    if a == [] {
      assert a + [d] == [d] && [d][1..] == [];
      assert Digits([d], v) == Digits([], v * 10 + (d - ZERO));
    } else {
      assert IsDigit(a[0]) by { assert a[0] in a; }
      assert forall b :: b in a[1..] ==> b in a;
      DigitsAppend(a[1..], d, v * 10 + (a[0] - ZERO));
      assert (a + [d])[1..] == a[1..] + [d];
    }
  }

  lemma {:induction false} DigitsDecimal(n: nat)
    ensures Digits(Decimal(n), 0) == Some(n)
  {
    if n < 10 {
      DigitsAppend([], ZERO + n, 0);
      assert [] + [ZERO + n] == [ZERO + n] == Decimal(n);
    } else {
      DigitsDecimal(n / 10);
      DigitsAppend(Decimal(n / 10), ZERO + n % 10, 0);
      assert n / 10 * 10 + n % 10 == n;
    }
  }

  /** Reading a printed number gives it back. */
  lemma LongLongOfSignedDecimal(n: int)
    ensures LongLong(SignedDecimal(n)) == n
  {
    if n < 0 {
      DigitsDecimal(-n);
      assert SignedDecimal(n)[1..] == Decimal(-n);
    } else {
      DigitsDecimal(n);
    }
  }

  lemma NewlineAfter(line: seq<Byte>, t: seq<Byte>)
    requires FindNewline(line) == None
    ensures FindNewline(line + CRLF + t) == Some(|line|)
    ensures (line + CRLF + t)[..|line|] == line
    ensures (line + CRLF + t)[|line| + 2..] == t
  {
    var s := line + CRLF + t;
    forall j | 0 <= j < |line| ensures !(s[j] == CR && s[j + 1] == LF) {
      if j + 1 < |line| {
        assert s[j] == line[j] && s[j + 1] == line[j + 1];
      }
    }
    FindNewlineIs(s, |line|);
  }

  lemma NumberHasNoNewline(n: int)
    ensures FindNewline(SignedDecimal(n)) == None
  {
    assert CR !in SignedDecimal(n);
  }

  /** Parsing the encoding of a tree, whatever follows it, returns the tree and consumes exactly the
      encoding if every array in it starts at depth 0 to 7; otherwise it is a protocol error. */
  lemma {:induction false} ParseOfEncode(r: Reply, t: seq<Byte>, d: nat)
    requires d <= MAX_DEPTH && Encodable(r)
    ensures ParseOne(Encode(r) + t, d) == if d + Height(r) <= MAX_DEPTH then Done(r, t) else Fail
    decreases r
  {
    match r
    case Status(text) => LineRoundTrip(PLUS, text, t, d);
    case Error(text) => LineRoundTrip(MINUS, text, t, d);
    case Integer(v) =>
      NumberHasNoNewline(v);
      LongLongOfSignedDecimal(v);
      LineRoundTrip(58, SignedDecimal(v), t, d);
    case Nil => NilRoundTrip(t, d);
    case Bulk(text) => BulkRoundTrip(text, t, d);
    case Array(n, elements) =>
      if elements != [] && d < MAX_DEPTH {
        ParseOfEncodeAll(elements, t, d + 1);
      }
      ArrayRoundTrip(n, elements, t, d);
  }

  lemma NilRoundTrip(t: seq<Byte>, d: nat)
    requires d <= MAX_DEPTH
    ensures ParseOne(Encode(Nil) + t, d) == Done(Nil, t)
  {
    var line := SignedDecimal(-1);
    NumberHasNoNewline(-1);
    LongLongOfSignedDecimal(-1);
    NewlineAfter(line, t);
    assert (Encode(Nil) + t)[1..] == line + CRLF + t;
  }

  lemma ArrayRoundTrip(n: int, elements: seq<Reply>, t: seq<Byte>, d: nat)
    requires d <= MAX_DEPTH && Encodable(Array(n, elements))
    requires (elements != [] && d < MAX_DEPTH) ==>
               (ParseMany(EncodeAll(elements) + t, n, d + 1)
             == if d + 1 + MaxHeight(elements) <= MAX_DEPTH then Done(elements, t) else Fail)
    ensures ParseOne(Encode(Array(n, elements)) + t, d)
         == if d + 1 + MaxHeight(elements) <= MAX_DEPTH then Done(Array(n, elements), t) else Fail
  {
    hide LongLong, FindNewline, ParseMany, ParseOne;
    var line := SignedDecimal(n);
    var more := EncodeAll(elements) + t;
    NumberHasNoNewline(n);
    LongLongOfSignedDecimal(n);
    assert Encode(Array(n, elements)) + t == [42] + (line + CRLF + more);
    ArrayHeader(line, more, d);
    if elements == [] {
      assert more == t;
    }
  }

  function ArrayOf(n: int, vs: Parsed<seq<Reply>>): Parsed<Reply> {
    match vs
    case Done(elements, rest) => Done(Array(n, elements), rest)
    case NeedMore => NeedMore
    case Fail => Fail
  }

  /** An array of n elements read from more. */
  function ArrayFrom(n: int, more: seq<Byte>, d: nat): Parsed<Reply>
    requires d <= MAX_DEPTH
  {
    if d == MAX_DEPTH then Fail
    else if n == -1 then Done(Nil, more)
    else if n <= 0 then Done(Array(n, []), more)
    else ArrayOf(n, ParseMany(more, n, d + 1))
  }

  /** An array header in front of more. */
  lemma ArrayHeader(line: seq<Byte>, more: seq<Byte>, d: nat)
    requires d <= MAX_DEPTH && FindNewline(line) == None
    ensures ParseOne([42] + (line + CRLF + more), d) == ArrayFrom(LongLong(line), more, d)
  {
    hide LongLong, FindNewline;
    NewlineAfter(line, more);
    assert ([42] + (line + CRLF + more))[1..] == line + CRLF + more;
  }

  /** A bulk string of n bytes read from body. */
  function BulkFrom(n: nat, body: seq<Byte>): Parsed<Reply> {
    if n + 2 <= |body| then Done(Bulk(body[..n]), body[n + 2..]) else NeedMore
  }

  /** A bulk header in front of its body. */
  lemma BulkHeader(line: seq<Byte>, body: seq<Byte>, d: nat)
    requires d <= MAX_DEPTH && FindNewline(line) == None && LongLong(line) >= 0
    ensures ParseOne([36] + (line + CRLF + body), d) == BulkFrom(LongLong(line), body)
  {
    hide LongLong, FindNewline;
    NewlineAfter(line, body);
    var s, m, n := line + CRLF + body, |line| + 2, LongLong(line);
    assert ([36] + (line + CRLF + body))[1..] == s;
    if n + 2 <= |body| {
      assert s[m..m + n] == body[..n] && s[m + n + 2..] == body[n + 2..];
    }
  }

  lemma LineRoundTrip(b: Byte, line: seq<Byte>, t: seq<Byte>, d: nat)
    requires b == PLUS || b == MINUS || b == 58
    requires d <= MAX_DEPTH && FindNewline(line) == None
    ensures ParseOne([b] + line + CRLF + t, d) == Done(LineReply(KindOf(b).value, line), t)
  {
    NewlineAfter(line, t);
    assert ([b] + line + CRLF + t)[1..] == line + CRLF + t;
  }

  lemma BulkRoundTrip(text: seq<Byte>, t: seq<Byte>, d: nat)
    requires d <= MAX_DEPTH
    ensures ParseOne(Encode(Bulk(text)) + t, d) == Done(Bulk(text), t)
  {
    var n := |text|;
    var line, body := SignedDecimal(n), text + CRLF + t;
    NumberHasNoNewline(n);
    LongLongOfSignedDecimal(n);
    assert Encode(Bulk(text)) + t == [36] + (line + CRLF + body);
    BulkHeader(line, body, d);
    assert body[..n] == text && body[n + 2..] == t;
  }

  lemma {:induction false} ParseOfEncodeAll(rs: seq<Reply>, t: seq<Byte>, d: nat)
    requires d <= MAX_DEPTH && AllEncodable(rs)
    ensures ParseMany(EncodeAll(rs) + t, |rs|, d)
         == if d + MaxHeight(rs) <= MAX_DEPTH then Done(rs, t) else Fail
    decreases rs
  {
    if rs == [] {
      assert EncodeAll(rs) + t == t;
    } else {
      var more := EncodeAll(rs[1..]) + t;
      assert EncodeAll(rs) + t == Encode(rs[0]) + more;
      ParseOfEncode(rs[0], more, d);
      ParseOfEncodeAll(rs[1..], t, d);
      assert [rs[0]] + rs[1..] == rs;
    }
  }

  /** Distinct encodable trees never share a prefix of their wire forms. */
  lemma EncodeIsPrefixFree(r: Reply, r': Reply, t: seq<Byte>, t': seq<Byte>)
    requires Encodable(r) && Encodable(r')
    requires Height(r) <= MAX_DEPTH && Height(r') <= MAX_DEPTH
    requires Encode(r) + t == Encode(r') + t'
    ensures r == r' && t == t'
  {
    ParseOfEncode(r, t, 0);
    ParseOfEncode(r', t', 0);
  }

  /** A pipeline of replies, however it is delivered, parses back to the replies sent. */
  lemma {:induction false} ParseOfPipeline(rs: seq<Reply>)
    requires AllEncodable(rs) && MaxHeight(rs) <= MAX_DEPTH
    ensures ParseStream(EncodeAll(rs)) == Stream(rs, false)
    decreases rs
  {
    if rs != [] {
      ParseOfEncode(rs[0], EncodeAll(rs[1..]), 0);
      ParseOfPipeline(rs[1..]);
      assert [rs[0]] + rs[1..] == rs;
    }
  }
}
