/** The reply grammar of the Redis serialization protocol, as a recursive-descent reference parser
    that says nothing about buffers, stacks or chunks. */
module Resp {
  import opened Bytes

  datatype Kind = ErrorKind | StatusKind | IntegerKind | BulkKind | ArrayKind

  /** A reply object. An array keeps the element count it was created with, because a
      count below -1 still creates an array object, one without elements. */
  datatype Reply =
    | Status(text: seq<Byte>)
    | Error(text: seq<Byte>)
    | Integer(value: int)
    | Bulk(text: seq<Byte>)
    | Nil
    | Array(count: int, elements: seq<Reply>)

  /** The reader has nine task slots, so an array may start at depths 0 to 7. */
  const MAX_DEPTH: nat := 8

  function KindOf(b: Byte): Option<Kind> {
    if b == MINUS then Some(ErrorKind)
    else if b == PLUS then Some(StatusKind)
    else if b == 58 then Some(IntegerKind)
    else if b == 36 then Some(BulkKind)
    else if b == 42 then Some(ArrayKind)
    else None
  }

  /** The index of the first CR LF pair. */
  function FindNewline(s: seq<Byte>): (r: Option<nat>)
    ensures r.Some? ==> r.value + 1 < |s| && s[r.value] == CR && s[r.value + 1] == LF
    ensures r.Some? ==> forall j :: 0 <= j < r.value ==> !(s[j] == CR && s[j + 1] == LF)
    ensures r.None? ==> forall j :: 0 <= j < |s| - 1 ==> !(s[j] == CR && s[j + 1] == LF)
  {
    if |s| < 2 then None
    else if s[0] == CR && s[1] == LF then Some(0)
    else
      match FindNewline(s[1..])
      case None =>
        assert forall j :: 0 < j < |s| - 1 ==> s[j] == s[1..][j - 1] && s[j + 1] == s[1..][j];
        None
      case Some(k) =>
        assert forall j :: 0 < j < |s| - 1 ==> s[j] == s[1..][j - 1] && s[j + 1] == s[1..][j];
        Some(k + 1)
  }

  /** Accumulates digits up to the first CR, or the end of the line. None for any other byte. */
  function Digits(line: seq<Byte>, v: int): Option<int> {
    if line == [] || line[0] == CR then Some(v)
    else if IsDigit(line[0]) then Digits(line[1..], v * 10 + (line[0] - ZERO))
    else None
  }

  /** The number a line holds: an optional sign, then digits. Unexpected bytes read as -1. */
  function LongLong(line: seq<Byte>): int {
    if line != [] && line[0] == MINUS then
      match Digits(line[1..], 0) case None => -1 case Some(v) => -v
    else
      var digits := if line != [] && line[0] == PLUS then line[1..] else line;
      match Digits(digits, 0) case None => -1 case Some(v) => v
  }

  datatype Parsed<+T> =
    | Done(value: T, rest: seq<Byte>)
    | NeedMore
    | Fail

  function LineReply(kind: Kind, line: seq<Byte>): Reply {
    match kind
    case IntegerKind => Integer(LongLong(line))
    case ErrorKind => Error(line)
    case _ => Status(line)
  }

  /** One item at array depth d: a type byte and then its body. */
  function ParseOne(s: seq<Byte>, d: nat): (r: Parsed<Reply>)
    requires d <= MAX_DEPTH
    ensures r.Done? ==> |r.rest| < |s|
    decreases |s|, 0
  {
    if s == [] then NeedMore
    else
      match KindOf(s[0])
      case None => Fail
      case Some(kind) => ParseBody(kind, s[1..], d)
  }

  function ParseBody(kind: Kind, s: seq<Byte>, d: nat): (r: Parsed<Reply>)
    requires d <= MAX_DEPTH
    ensures r.Done? ==> |r.rest| < |s|
    decreases |s|, 0
  {
    if kind == ArrayKind && d == MAX_DEPTH then Fail
    else
      match FindNewline(s)
      case None => NeedMore
      case Some(k) =>
        var n := LongLong(s[..k]);
        if kind == BulkKind then
          if n < 0 then Done(Nil, s[k + 2..])
          else if k + 2 + n + 2 <= |s| then Done(Bulk(s[k + 2..k + 2 + n]), s[k + 2 + n + 2..])
          else NeedMore
        else if kind == ArrayKind then
          if n == -1 then Done(Nil, s[k + 2..])
          else if n <= 0 then Done(Array(n, []), s[k + 2..])
          else
            match ParseMany(s[k + 2..], n, d + 1)
            case Done(vs, rest) => Done(Array(n, vs), rest)
            case NeedMore => NeedMore
            case Fail => Fail
        else Done(LineReply(kind, s[..k]), s[k + 2..])
  }

  /** n items in a row. */
  function ParseMany(s: seq<Byte>, n: nat, d: nat): (r: Parsed<seq<Reply>>)
    requires d <= MAX_DEPTH
    ensures r.Done? ==> |r.rest| <= |s| && |r.value| == n
    decreases |s|, 1
  {
    if n == 0 then Done([], s)
    else
      match ParseOne(s, d)
      case NeedMore => NeedMore
      case Fail => Fail
      case Done(v, rest) =>
        match ParseMany(rest, n - 1, d)
        case Done(vs, rest') => Done([v] + vs, rest')
        case NeedMore => NeedMore
        case Fail => Fail
  }

  datatype Stream = Stream(replies: seq<Reply>, failed: bool)

  /** All the replies a byte stream holds, and whether it breaks the protocol after them. */
  function ParseStream(s: seq<Byte>): Stream
    decreases |s|
  {
    match ParseOne(s, 0)
    case NeedMore => Stream([], false)
    case Fail => Stream([], true)
    case Done(v, rest) =>
      var more := ParseStream(rest);
      Stream([v] + more.replies, more.failed)
  }

  // ---------- a verdict reached early never changes when more bytes follow ----------

  function Extend<T>(r: Parsed<T>, t: seq<Byte>): Parsed<T> {
    match r
    case Done(v, rest) => Done(v, rest + t)
    case _ => r
  }

  lemma FindNewlineExtends(s: seq<Byte>, t: seq<Byte>)
    requires FindNewline(s).Some?
    ensures FindNewline(s + t) == FindNewline(s)
  {
    var k := FindNewline(s).value;
    FindNewlineIs(s + t, k);
  }

  lemma FindNewlineIs(s: seq<Byte>, k: nat)
    requires k + 1 < |s| && s[k] == CR && s[k + 1] == LF
    requires forall j :: 0 <= j < k ==> !(s[j] == CR && s[j + 1] == LF)
    ensures FindNewline(s) == Some(k)
  {
  }

  lemma {:induction false} ParseOneExtends(s: seq<Byte>, t: seq<Byte>, d: nat)
    requires d <= MAX_DEPTH
    requires !ParseOne(s, d).NeedMore?
    ensures ParseOne(s + t, d) == Extend(ParseOne(s, d), t)
    decreases |s|, 0
  {
    if KindOf(s[0]).Some? {
      ParseBodyExtends(KindOf(s[0]).value, s[1..], t, d);
      assert (s + t)[1..] == s[1..] + t;
    }
  }

  lemma {:induction false} ParseBodyExtends(kind: Kind, s: seq<Byte>, t: seq<Byte>, d: nat)
    requires d <= MAX_DEPTH
    requires !ParseBody(kind, s, d).NeedMore?
    ensures ParseBody(kind, s + t, d) == Extend(ParseBody(kind, s, d), t)
    decreases |s|, 0
  {
    hide FindNewline, LongLong, ParseMany;
    if !(kind == ArrayKind && d == MAX_DEPTH) {
      FindNewlineExtends(s, t);
      var k := FindNewline(s).value;
      var n := LongLong(s[..k]);
      assert (s + t)[..k] == s[..k];
      assert (s + t)[k + 2..] == s[k + 2..] + t;
      if kind == BulkKind && n >= 0 {
        assert (s + t)[k + 2..k + 2 + n] == s[k + 2..k + 2 + n];
        assert (s + t)[k + 2 + n + 2..] == s[k + 2 + n + 2..] + t;
      }
      if kind == ArrayKind && n > 0 {
        ParseManyExtends(s[k + 2..], t, n, d + 1);
      }
    }
  }

  lemma {:induction false} ParseManyExtends(s: seq<Byte>, t: seq<Byte>, n: nat, d: nat)
    requires d <= MAX_DEPTH
    requires !ParseMany(s, n, d).NeedMore?
    ensures ParseMany(s + t, n, d) == Extend(ParseMany(s, n, d), t)
    decreases |s|, 1
  {
    if n > 0 {
      ParseOneExtends(s, t, d);
      if ParseOne(s, d).Done? {
        ParseManyExtends(ParseOne(s, d).rest, t, n - 1, d);
      }
    }
  }
}
