/** Quoting an argument and splitting a line into arguments: a printer and its parser. */
module Quoting {
  import opened Bytes

  const BACKSLASH: Byte := 92
  const QUOTE: Byte := 34
  const APOSTROPHE: Byte := 39
  const BLANK: Byte := 32

  predicate IsPrint(b: Byte) {
    32 <= b < 127
  }

  predicate IsSpace(b: Byte) {
    b == BLANK || 9 <= b <= 13
  }

  /** The letter that stands for a control byte after a backslash. */
  function Letter(b: Byte): Option<Byte> {
    if b == 10 then Some(110)          // n
    else if b == 13 then Some(114)     // r
    else if b == 9 then Some(116)      // t
    else if b == 7 then Some(97)       // a
    else if b == 8 then Some(98)       // b
    else None
  }

  /** What a backslash and c stand for; every other byte stands for itself. */
  function Unletter(c: Byte): Byte {
    if c == 110 then 10
    else if c == 114 then 13
    else if c == 116 then 9
    else if c == 98 then 8
    else if c == 97 then 7
    else c
  }

  function HexDigit(d: int): Byte
    requires 0 <= d < 16
  {
    if d < 10 then 48 + d else 87 + d
  }

  predicate IsHexDigit(c: Byte) {
    48 <= c <= 57 || 97 <= c <= 102 || 65 <= c <= 70
  }

  function HexValue(c: Byte): (d: int)
    ensures 0 <= d < 16
  {
    if 48 <= c <= 57 then c - 48
    else if 97 <= c <= 102 then c - 87
    else if 65 <= c <= 70 then c - 55
    else 0
  }

  function EscapeByte(b: Byte): seq<Byte> {
    if b == BACKSLASH || b == QUOTE then [BACKSLASH, b]
    else if Letter(b).Some? then [BACKSLASH, Letter(b).value]
    else if IsPrint(b) then [b]
    else [BACKSLASH, 120, HexDigit(b / 16), HexDigit(b % 16)]
  }

  function Escape(s: seq<Byte>): seq<Byte> {
    if s == [] then [] else EscapeByte(s[0]) + Escape(s[1..])
  }

  /** The quoted form of a byte string. */
  function Repr(s: seq<Byte>): seq<Byte> {
    [QUOTE] + Escape(s) + [QUOTE]
  }

  /** Appends one byte in its quoted form. */
  method CatByte(s: seq<Byte>, b: Byte) returns (r: seq<Byte>)
    ensures r == s + EscapeByte(b)
  {
    if b == BACKSLASH || b == QUOTE {
      r := s + [BACKSLASH, b];
    } else if Letter(b).Some? {
      r := s + [BACKSLASH, Letter(b).value];
    } else if IsPrint(b) {
      r := s + [b];
    } else {
      r := s + [BACKSLASH, 120, HexDigit(b / 16), HexDigit(b % 16)];
    }
  }

  lemma {:induction false} EscapeAppend(s: seq<Byte>, b: Byte)
    ensures Escape(s + [b]) == Escape(s) + EscapeByte(b)
    decreases |s|
  {
    if s == [] {
      assert s + [b] == [b] && [b][1..] == [];
      assert EscapeByte(b) + [] == EscapeByte(b) == [] + EscapeByte(b);
    } else {
      assert (s + [b])[1..] == s[1..] + [b];
      EscapeAppend(s[1..], b);
    }
  }

  /** Appends the quoted form of p to s. */
  method CatRepr(s: seq<Byte>, p: seq<Byte>) returns (r: seq<Byte>)
    ensures r == s + Repr(p)
  {
    hide EscapeByte;
    r := s + [QUOTE];
    for i := 0 to |p|
      invariant r == s + [QUOTE] + Escape(p[..i])
    {
      EscapeAppend(p[..i], p[i]);
      assert p[..i + 1] == p[..i] + [p[i]];
      r := CatByte(r, p[i]);
    }
    assert p[..|p|] == p;
    r := r + [QUOTE];
  }

  // ---------- splitting ----------

  datatype Mode = Plain | Double | Single

  /** A finished token and the text behind it, or unbalanced quotes. */
  datatype Token = Token(text: seq<Byte>, rest: seq<Byte>) | Unbalanced

  predicate HexEscape(s: seq<Byte>) {
    |s| >= 4 && s[0] == BACKSLASH && s[1] == 120 && IsHexDigit(s[2]) && IsHexDigit(s[3])
  }

  /** Whether a quote at the front ends the token: only blank space or the end may come next. */
  predicate Closes(s: seq<Byte>) {
    |s| < 2 || IsSpace(s[1])
  }

  /** The rest of a token whose text so far is cur. */
  function Scan(mode: Mode, s: seq<Byte>, cur: seq<Byte>): (t: Token)
    ensures t.Token? ==> |t.rest| <= |s|
    ensures t.Token? && s != [] ==> |t.rest| < |s|
    decreases |s|
  {
    match mode
    case Double =>
      if HexEscape(s) then Scan(Double, s[4..], cur + [HexValue(s[2]) * 16 + HexValue(s[3])])
      else if |s| >= 2 && s[0] == BACKSLASH then Scan(Double, s[2..], cur + [Unletter(s[1])])
      else if s == [] then Unbalanced
      else if s[0] == QUOTE then if Closes(s) then Token(cur, s[1..]) else Unbalanced
      else Scan(Double, s[1..], cur + [s[0]])
    case Single =>
      if |s| >= 2 && s[0] == BACKSLASH && s[1] == APOSTROPHE then Scan(Single, s[2..], cur + [APOSTROPHE])
      else if s == [] then Unbalanced
      else if s[0] == APOSTROPHE then if Closes(s) then Token(cur, s[1..]) else Unbalanced
      else Scan(Single, s[1..], cur + [s[0]])
    case Plain =>
      if s == [] then Token(cur, [])
      else if s[0] in {BLANK, LF, CR, 9} then Token(cur, s[1..])
      else if s[0] == QUOTE then Scan(Double, s[1..], cur)
      else if s[0] == APOSTROPHE then Scan(Single, s[1..], cur)
      else Scan(Plain, s[1..], cur + [s[0]])
  }

  function SkipBlanks(s: seq<Byte>): (r: seq<Byte>)
    ensures |r| <= |s|
    ensures r != [] ==> !IsSpace(r[0])
  {
    if s != [] && IsSpace(s[0]) then SkipBlanks(s[1..]) else s
  }

  /** The arguments of a line, or None if its quotes are unbalanced. */
  function Split(s: seq<Byte>): Option<seq<seq<Byte>>>
    decreases |s|
  {
    var t := SkipBlanks(s);
    if t == [] then Some([])
    else
      match Scan(Plain, t, [])
      case Unbalanced => None
      case Token(text, rest) =>
        match Split(rest)
        case None => None
        case Some(more) => Some([text] + more)
  }

  /** One turn of the scanning loop inside a token: the text and the place it leaves, whether the
      token is complete, and whether the quotes are still balanced. */
  ghost predicate Turned(mode: Mode, line: seq<Byte>, p: nat, text: seq<Byte>,
                         ok: bool, done: bool, mode': Mode, p': nat, text': seq<Byte>) {
    && p <= p' <= |line|
    && if !ok then Scan(mode, line[p..], text) == Unbalanced
       else if done then Scan(mode, line[p..], text) == Token(text', line[p'..]) && (p < p' || p == |line|)
       else p < p' && Scan(mode, line[p..], text) == Scan(mode', line[p'..], text')
  }

  /** Inside double quotes. */
  method DoubleTurn(line: seq<Byte>, start: nat, text0: seq<Byte>)
    returns (ok: bool, done: bool, p: nat, text: seq<Byte>)
    requires start <= |line|
    ensures Turned(Double, line, start, text0, ok, done, Double, p, text)
  {
    ok, done, p, text := true, false, start, text0;
    ghost var s := line[start..];
    if p + 3 < |line| && line[p] == BACKSLASH && line[p + 1] == 120
       && IsHexDigit(line[p + 2]) && IsHexDigit(line[p + 3]) {
      text := text + [HexValue(line[p + 2]) * 16 + HexValue(line[p + 3])];
      p := p + 3;
    } else if p + 1 < |line| && line[p] == BACKSLASH {
      p := p + 1;
      text := text + [Unletter(line[p])];
    } else if p < |line| && line[p] == QUOTE {
      ok := !(p + 1 < |line| && !IsSpace(line[p + 1]));
      done := true;
    } else if p == |line| {
      ok := false;
    } else {
      text := text + [line[p]];
    }
    if p < |line| {
      p := p + 1;
    }
    assert line[p..] == s[p - start..];
  }

  /** Inside single quotes. */
  method SingleTurn(line: seq<Byte>, start: nat, text0: seq<Byte>)
    returns (ok: bool, done: bool, p: nat, text: seq<Byte>)
    requires start <= |line|
    ensures Turned(Single, line, start, text0, ok, done, Single, p, text)
  {
    ok, done, p, text := true, false, start, text0;
    ghost var s := line[start..];
    if p + 1 < |line| && line[p] == BACKSLASH && line[p + 1] == APOSTROPHE {
      p := p + 1;
      text := text + [APOSTROPHE];
    } else if p < |line| && line[p] == APOSTROPHE {
      ok := !(p + 1 < |line| && !IsSpace(line[p + 1]));
      done := true;
    } else if p == |line| {
      ok := false;
    } else {
      text := text + [line[p]];
    }
    if p < |line| {
      p := p + 1;
    }
    assert line[p..] == s[p - start..];
  }

  /** Outside quotes. */
  method PlainTurn(line: seq<Byte>, start: nat, text0: seq<Byte>)
    returns (done: bool, mode: Mode, p: nat, text: seq<Byte>)
    requires start <= |line|
    ensures Turned(Plain, line, start, text0, true, done, mode, p, text)
  {
    done, mode, p, text := false, Plain, start, text0;
    ghost var s := line[start..];
    if p == |line| || line[p] in {BLANK, LF, CR, 9} {
      done := true;
    } else if line[p] == QUOTE {
      mode := Double;
    } else if line[p] == APOSTROPHE {
      mode := Single;
    } else {
      text := text + [line[p]];
    }
    if p < |line| {
      p := p + 1;
    }
    assert line[p..] == s[p - start..];
  }

  /** Scans one token of a NUL-terminated line from index start on. */
  method ScanToken(line: seq<Byte>, start: nat) returns (ok: bool, text: seq<Byte>, end: nat)
    requires start < |line|
    ensures start <= end <= |line|
    ensures ok ==> Scan(Plain, line[start..], []) == Token(text, line[end..]) && start < end
    ensures !ok ==> Scan(Plain, line[start..], []) == Unbalanced
  {
    hide Scan;
    var mode, done := Plain, false;
    ok, text, end := true, [], start;
    while ok && !done
      invariant start <= end <= |line|
      invariant ok && !done ==> Scan(mode, line[end..], text) == Scan(Plain, line[start..], [])
      invariant ok && done ==> Scan(Plain, line[start..], []) == Token(text, line[end..]) && start < end
      invariant !ok ==> Scan(Plain, line[start..], []) == Unbalanced
      decreases ok && !done, |line| - end
    {
      match mode
      case Double =>
        ok, done, end, text := DoubleTurn(line, end, text);
      case Single =>
        ok, done, end, text := SingleTurn(line, end, text);
      case Plain =>
        done, mode, end, text := PlainTurn(line, end, text);
    }
  }

  function Prepend(front: seq<seq<Byte>>, more: Option<seq<seq<Byte>>>): Option<seq<seq<Byte>>> {
    match more
    case None => None
    case Some(back) => Some(front + back)
  }

  /** Splits a NUL-terminated line; the line given here is the text before the NUL. Reading the
      terminator never counts as an escape or a quote, and nothing behind it is read. */
  method SplitArgs(line: seq<Byte>) returns (argv: Option<seq<seq<Byte>>>)
    ensures argv == Split(line)
  {
    var p := 0;
    var vector: seq<seq<Byte>> := [];
    assert line[0..] == line;
    assert Split(line).Some? ==> vector + Split(line).value == Split(line).value;
    while true
      invariant p <= |line|
      invariant Split(line) == Prepend(vector, Split(line[p..]))
      decreases |line| - p
    {
      ghost var q := p;
      while p < |line| && IsSpace(line[p])
        invariant q <= p <= |line|
        invariant SkipBlanks(line[p..]) == SkipBlanks(line[q..])
      {
        assert line[p..][1..] == line[p + 1..];
        p := p + 1;
      }
      if p == |line| {
        assert vector + [] == vector;
        return Some(vector);
      }
      var ok, text, end := ScanToken(line, p);
      if !ok {
        return None;
      }
      ghost var rest := Split(line[end..]);
      assert rest.Some? ==> vector + ([text] + rest.value) == vector + [text] + rest.value;
      vector := vector + [text];
      p := end;
    }
  }

  // ---------- the parser undoes the printer ----------

  lemma EscapeByteScans(b: Byte, t: seq<Byte>, cur: seq<Byte>)
    ensures Scan(Double, EscapeByte(b) + t, cur) == Scan(Double, t, cur + [b])
  {
    var s := EscapeByte(b) + t;
    assert s[|EscapeByte(b)|..] == t;
    if |EscapeByte(b)| == 4 {
      HexRoundTrip(b / 16);
      HexRoundTrip(b % 16);
      assert b / 16 * 16 + b % 16 == b;
    }
  }

  lemma HexRoundTrip(d: int)
    requires 0 <= d < 16
    ensures IsHexDigit(HexDigit(d)) && HexValue(HexDigit(d)) == d
  {
  }

  lemma {:induction false} EscapeScans(a: seq<Byte>, t: seq<Byte>, cur: seq<Byte>)
    ensures Scan(Double, Escape(a) + t, cur) == Scan(Double, t, cur + a)
    decreases |a|
  {
    if a == [] {
      assert Escape(a) + t == t && cur + a == cur;
    } else {
      assert Escape(a) + t == EscapeByte(a[0]) + (Escape(a[1..]) + t);
      EscapeByteScans(a[0], Escape(a[1..]) + t, cur);
      EscapeScans(a[1..], t, cur + [a[0]]);
      assert cur + [a[0]] + a[1..] == cur + a;
    }
  }

  lemma Quoted(e: seq<Byte>, t: seq<Byte>)
    ensures ([QUOTE] + e + [QUOTE] + t)[0] == QUOTE && ([QUOTE] + e + [QUOTE] + t)[1..] == e + ([QUOTE] + t)
    ensures ([QUOTE] + t)[1..] == t
  {
  }

  /** A quoted argument followed by a space or nothing is one token, the argument. */
  lemma ReprScans(a: seq<Byte>, t: seq<Byte>)
    requires t == [] || IsSpace(t[0])
    ensures Scan(Plain, Repr(a) + t, []) == Token(a, t)
  {
    hide Escape;
    Quoted(Escape(a), t);
    EscapeScans(a, [QUOTE] + t, []);
    assert [] + a == a;
  }

  /** The quoted arguments with single spaces between them. */
  function JoinReprs(args: seq<seq<Byte>>): seq<Byte> {
    if args == [] then []
    else if |args| == 1 then Repr(args[0])
    else Repr(args[0]) + [BLANK] + JoinReprs(args[1..])
  }

  lemma {:induction false} EscapeHasNoNul(a: seq<Byte>)
    ensures 0 !in Escape(a)
    decreases |a|
  {
    if a != [] {
      ByteHasNoNul(a[0]);
      EscapeHasNoNul(a[1..]);
    }
  }

  lemma ByteHasNoNul(b: Byte)
    ensures 0 !in EscapeByte(b)
  {
  }

  /** The line holds no NUL, whatever the arguments hold, so the scanner sees all of it. */
  lemma {:induction false} LineHasNoNul(args: seq<seq<Byte>>)
    ensures 0 !in JoinReprs(args)
    decreases |args|
  {
    if args != [] {
      EscapeHasNoNul(args[0]);
      LineHasNoNul(args[1..]);
    }
  }

  /** Splitting the joined quoted forms of any byte strings returns exactly those byte strings. The line
      holds no NUL, whatever they hold, so the scanner sees all of it. */
  lemma {:induction false} SplitOfReprs(args: seq<seq<Byte>>)
    ensures Split(JoinReprs(args)) == Some(args) && 0 !in JoinReprs(args)
    decreases |args|
  {
    hide Repr, Escape, Scan, Split, SkipBlanks;
    LineHasNoNul(args);
    if args == [] {
      SplitNothing();
    } else if |args| == 1 {
      SplitFirst(args[0], []);
      SplitNothing();
      assert Repr(args[0]) + [] == Repr(args[0]) && [args[0]] + [] == args;
    } else {
      var t := JoinReprs(args[1..]);
      SplitOfReprs(args[1..]);
      SplitFirst(args[0], [BLANK] + t);
      SplitBlank(t);
      assert Repr(args[0]) + [BLANK] + t == Repr(args[0]) + ([BLANK] + t);
      assert [args[0]] + args[1..] == args;
    }
  }

  lemma SplitNothing()
    ensures Split([]) == Some([])
  {
  }

  lemma SplitBlank(t: seq<Byte>)
    ensures Split([BLANK] + t) == Split(t)
  {
    hide Scan;
    assert ([BLANK] + t)[1..] == t;
    assert SkipBlanks([BLANK] + t) == SkipBlanks(t);
  }

  /** The first quoted argument is split off, and then the rest. */
  lemma SplitFirst(a: seq<Byte>, t: seq<Byte>)
    requires t == [] || IsSpace(t[0])
    ensures Split(Repr(a) + t) == if Split(t) == None then None else Some([a] + Split(t).value)
  {
    hide Escape, Scan;
    var s := Repr(a) + t;
    assert s[0] == QUOTE && SkipBlanks(s) == s;
    ReprScans(a, t);
  }

  /** What of the line is still to be written from argument i on. */
  function LineFrom(args: seq<seq<Byte>>, i: nat): seq<Byte>
    requires i <= |args|
  {
    if i == |args| then [] else Gap(i) + JoinReprs(args[i..])
  }

  function Gap(i: nat): seq<Byte> {
    if i > 0 then [BLANK] else []
  }

  lemma LineStep(line: seq<Byte>, args: seq<seq<Byte>>, i: nat)
    requires i < |args|
    ensures line + LineFrom(args, i) == line + Gap(i) + Repr(args[i]) + LineFrom(args, i + 1)
  {
    hide Repr;
    assert args[i..][0] == args[i] && args[i..][1..] == args[i + 1..];
    var more := LineFrom(args, i + 1);
    assert JoinReprs(args[i..]) == Repr(args[i]) + more;
  }

  /** The library's printer and its parser, one after the other. */
  method QuoteAndSplit(args: seq<seq<Byte>>) returns (line: seq<Byte>, argv: Option<seq<seq<Byte>>>)
    ensures 0 !in line && argv == Some(args)
  {
    hide Repr, Split, JoinReprs, LineFrom;
    line := [];
    LineStart(args);
    for i := 0 to |args|
      invariant line + LineFrom(args, i) == JoinReprs(args)
    {
      LineStep(line, args, i);
      if i > 0 {
        line := line + [BLANK];
      }
      line := CatRepr(line, args[i]);
    }
    LineEnds(line, args);
    SplitOfReprs(args);
    argv := SplitArgs(line);
  }

  lemma LineStart(args: seq<seq<Byte>>)
    ensures [] + LineFrom(args, 0) == JoinReprs(args)
  {
    assert args[0..] == args;
  }

  lemma LineEnds(line: seq<Byte>, args: seq<seq<Byte>>)
    ensures line + LineFrom(args, |args|) == line
  {
  }

  /** Different argument lists never share a quoted line. */
  lemma ReprsAreInjective(args: seq<seq<Byte>>, args': seq<seq<Byte>>)
    requires JoinReprs(args) == JoinReprs(args')
    ensures args == args'
  {
    SplitOfReprs(args);
    SplitOfReprs(args');
  }
}
