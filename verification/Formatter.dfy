/** Commands on the wire: the two formatters, which fill a buffer of a length computed beforehand,
    and the scanner that finds the arguments of a formatted command again. */
module Formatter {
  import opened Bytes
  import opened Resp
  import opened RoundTrip

  const STAR: Byte := 42
  const DOLLAR: Byte := 36
  const SPACE: Byte := 32
  const PERCENT: Byte := 37

  function Argument(arg: seq<Byte>): seq<Byte> {
    [DOLLAR] + Decimal(|arg|) + CRLF + arg + CRLF
  }

  function Arguments(argv: seq<seq<Byte>>): seq<Byte> {
    if argv == [] then [] else Arguments(argv[..|argv| - 1]) + Argument(argv[|argv| - 1])
  }

  /** A command: the number of arguments, then each argument with its length. */
  function Command(argv: seq<seq<Byte>>): seq<Byte> {
    [STAR] + Decimal(|argv|) + CRLF + Arguments(argv)
  }

  // ---------- sizes ----------

  /** The number of characters the decimal form of i takes. */
  method IntLen(i: int) returns (len: nat)
    ensures len == |SignedDecimal(i)|
  {
    len := 0;
    var rest := i;
    if rest < 0 {
      len := len + 1;
      rest := -rest;
    }
    ghost var n: nat := rest;
    len, rest := len + 1, rest / 10;
    while rest != 0
      invariant rest >= 0
      invariant len + (if rest == 0 then 0 else |Decimal(rest)|) == |SignedDecimal(i)|
    {
      len, rest := len + 1, rest / 10;
    }
  }

  method BulkLen(len: nat) returns (n: nat)
    ensures forall arg: seq<Byte> :: |arg| == len ==> n == |Argument(arg)|
  {
    var digits := IntLen(len);
    n := 1 + digits + 2 + len + 2;
  }

  // ---------- redisFormatCommandArgv ----------

  /** Copies text into cmd at pos. */
  method CopyAt(cmd: array<Byte>, pos: nat, text: seq<Byte>) returns (end: nat)
    requires pos + |text| <= cmd.Length
    modifies cmd
    ensures end == pos + |text|
    ensures cmd[..end] == old(cmd[..pos]) + text
  {
    var i := 0;
    while i < |text|
      invariant 0 <= i <= |text|
      invariant cmd[..pos + i] == old(cmd[..pos]) + text[..i]
    {
      cmd[pos + i] := text[i];
      i := i + 1;
      assert cmd[..pos + i] == cmd[..pos + i - 1] + [text[i - 1]];
    }
    assert text[..i] == text;
    end := pos + i;
  }

  /** As CopyAt, and then terminates the text the way sprintf does. */
  method PrintAt(cmd: array<Byte>, pos: nat, text: seq<Byte>) returns (end: nat)
    requires pos + |text| < cmd.Length
    modifies cmd
    ensures end == pos + |text|
    ensures cmd[..end] == old(cmd[..pos]) + text && cmd[end] == NUL
  {
    end := CopyAt(cmd, pos, text);
    cmd[end] := NUL;
  }

  lemma {:induction false} ArgumentsPrefix(argv: seq<seq<Byte>>, j: nat)
    requires j < |argv|
    ensures Arguments(argv[..j + 1]) == Arguments(argv[..j]) + Argument(argv[j])
  {
    assert argv[..j + 1][..j] == argv[..j];
  }

  lemma {:induction false} ArgumentsGrow(argv: seq<seq<Byte>>, j: nat)
    requires j <= |argv|
    ensures |Arguments(argv[..j])| <= |Arguments(argv)|
    decreases |argv| - j
  {
    if j < |argv| {
      ArgumentsPrefix(argv, j);
      ArgumentsGrow(argv, j + 1);
    } else {
      assert argv[..j] == argv;
    }
  }

  /** The number of bytes the command will take. */
  method CommandLength(argv: seq<seq<Byte>>) returns (totlen: nat)
    ensures totlen == |Command(argv)|
  {
    var argc := |argv|;
    var digits := IntLen(argc);
    totlen := 1 + digits + 2;
    for j := 0 to argc
      invariant totlen == 1 + |Decimal(argc)| + 2 + |Arguments(argv[..j])|
    {
      ArgumentsPrefix(argv, j);
      var n := BulkLen(|argv[j]|);
      totlen := totlen + n;
    }
    assert argv[..argc] == argv;
  }

  method PrintArgument(cmd: array<Byte>, pos: nat, arg: seq<Byte>) returns (end: nat)
    requires pos + |Argument(arg)| <= cmd.Length
    modifies cmd
    ensures end == pos + |Argument(arg)|
    ensures cmd[..end] == old(cmd[..pos]) + Argument(arg)
  {
    end := PrintAt(cmd, pos, [DOLLAR] + Decimal(|arg|) + CRLF);
    end := CopyAt(cmd, end, arg);
    cmd[end], cmd[end + 1] := CR, LF;
    end := end + 2;
    assert cmd[..end] == cmd[..end - 2] + CRLF;
  }

  /** The computed length is exactly what gets written, and what gets written is the command. */
  method FormatCommandArgv(argv: seq<seq<Byte>>) returns (cmd: array<Byte>, totlen: nat)
    ensures fresh(cmd) && cmd.Length == totlen + 1
    ensures cmd[..totlen] == Command(argv) && cmd[totlen] == NUL
  {
    hide Argument;
    var argc := |argv|;
    totlen := CommandLength(argv);
    cmd := new Byte[totlen + 1](_ => NUL);
    var header := [STAR] + Decimal(argc) + CRLF;
    var pos := PrintAt(cmd, 0, header);
    for j := 0 to argc
      invariant pos == |header| + |Arguments(argv[..j])|
      invariant pos <= totlen
      invariant cmd[..pos] == header + Arguments(argv[..j])
    {
      ArgumentsPrefix(argv, j);
      ArgumentsGrow(argv, j + 1);
      pos := PrintArgument(cmd, pos, argv[j]);
    }
    assert argv[..argc] == argv;
    assert pos == totlen;
    cmd[pos] := NUL;
  }

  // ---------- the reader reads commands back ----------

  function BulkReplies(argv: seq<seq<Byte>>): (rs: seq<Reply>)
    ensures |rs| == |argv|
  {
    seq(|argv|, i requires 0 <= i < |argv| => Bulk(argv[i]))
  }

  function CommandTree(argv: seq<seq<Byte>>): Reply {
    Array(|argv|, BulkReplies(argv))
  }

  lemma {:induction false} EncodeAllAppend(rs: seq<Reply>, r: Reply)
    ensures EncodeAll(rs + [r]) == EncodeAll(rs) + Encode(r)
    ensures AllEncodable(rs + [r]) == (AllEncodable(rs) && Encodable(r))
    ensures MaxHeight(rs + [r]) == if MaxHeight(rs) > Height(r) then MaxHeight(rs) else Height(r)
    decreases |rs|
  {
    hide Encode, Encodable, Height;
    if rs == [] {
      assert [r][1..] == [] && EncodeAll([r]) == Encode(r) + EncodeAll([]);
      assert Encode(r) + [] == Encode(r);
      assert rs + [r] == [r];
    } else {
      EncodeAllAppend(rs[1..], r);
      assert (rs + [r])[1..] == rs[1..] + [r];
    }
  }

  lemma {:induction false} CommandIsEncoding(argv: seq<seq<Byte>>)
    ensures Arguments(argv) == EncodeAll(BulkReplies(argv))
    ensures AllEncodable(BulkReplies(argv)) && MaxHeight(BulkReplies(argv)) == 0
    decreases |argv|
  {
    if argv != [] {
      var front, last := argv[..|argv| - 1], argv[|argv| - 1];
      CommandIsEncoding(front);
      assert BulkReplies(argv) == BulkReplies(front) + [Bulk(last)];
      EncodeAllAppend(BulkReplies(front), Bulk(last));
      assert Encode(Bulk(last)) == Argument(last);
    }
  }

  /** A formatted command is a well-formed array of bulk strings: it parses back to its arguments,
      whatever bytes they hold and whatever follows. */
  lemma CommandParsesBack(argv: seq<seq<Byte>>, t: seq<Byte>)
    ensures ParseOne(Command(argv) + t, 0) == Done(CommandTree(argv), t)
  {
    CommandIsEncoding(argv);
    assert Encode(CommandTree(argv)) == Command(argv);
    ParseOfEncode(CommandTree(argv), t, 0);
  }

  lemma CommandIsInjective(argv: seq<seq<Byte>>, argv': seq<seq<Byte>>)
    requires Command(argv) == Command(argv')
    ensures argv == argv'
  {
    CommandParsesBack(argv, []);
    CommandParsesBack(argv', []);
    var rs, rs' := BulkReplies(argv), BulkReplies(argv');
    assert |argv| == |rs| == |rs'| == |argv'|;
    forall i | 0 <= i < |argv| ensures argv[i] == argv'[i] {
      assert rs[i] == Bulk(argv[i]) && rs'[i] == Bulk(argv'[i]);
    }
  }

  // ---------- nextArgument ----------

  datatype Scan =
    | NoArgument
    | Found(arg: seq<Byte>, rest: seq<Byte>)
    | Malformed                              // the assertion fails or the scan leaves the buffer

  /** strchr: the first c, unless a NUL comes first. */
  function StrChr(s: seq<Byte>, c: Byte): (r: Option<nat>)
    ensures r.Some? ==> r.value < |s| && s[r.value] == c
  {
    if s == [] then None
    else if s[0] == c then Some(0)
    else if s[0] == NUL then None
    else match StrChr(s[1..], c) case None => None case Some(k) => Some(k + 1)
  }

  /** strtol on text that starts with a digit. */
  function LeadingNumber(s: seq<Byte>, v: nat): nat {
    if s == [] || !IsDigit(s[0]) then v else LeadingNumber(s[1..], v * 10 + (s[0] - ZERO))
  }

  /** An argument of a NUL-terminated command, read from its dollar sign on. */
  function ArgumentAt(s: seq<Byte>): (r: Scan)
    requires s != []
    ensures r.Found? ==> |r.rest| < |s|
  {
    var len := LeadingNumber(s[1..], 0);
    match StrChr(s, CR)
    case None => Malformed
    case Some(q) =>
      if q + 2 + len + 2 > |s| then Malformed
      else Found(s[q + 2..q + 2 + len], s[q + 2 + len + 2..])
  }

  /** s is the rest of a NUL-terminated command, terminator included. */
  function NextArgument(s: seq<Byte>): (r: Scan)
    ensures r.Found? ==> |r.rest| < |s|
  {
    if s == [] then Malformed
    else
      match if s[0] == DOLLAR then Some(0) else StrChr(s, DOLLAR)
      case None => NoArgument
      case Some(p) => ArgumentAt(s[p..])
  }

  /** The arguments found by calling NextArgument until there is none. */
  function AllArguments(s: seq<Byte>): Option<seq<seq<Byte>>>
    decreases |s|
  {
    match NextArgument(s)
    case NoArgument => Some([])
    case Malformed => None
    case Found(arg, rest) =>
      match AllArguments(rest)
      case None => None
      case Some(more) => Some([arg] + more)
  }

  lemma {:induction false} StrChrSkips(a: seq<Byte>, s: seq<Byte>, c: Byte)
    requires s != [] && s[0] == c
    requires forall b :: b in a ==> b != c && b != NUL
    ensures StrChr(a + s, c) == Some(|a|)
    decreases |a|
  {
    if a == [] {
      assert a + s == s;
    } else {
      assert (a + s)[1..] == a[1..] + s && a[0] in a;
      assert forall b :: b in a[1..] ==> b in a;
      StrChrSkips(a[1..], s, c);
    }
  }

  lemma {:induction false} LeadingNumberOf(a: seq<Byte>, s: seq<Byte>, v: nat)
    requires forall b :: b in a ==> IsDigit(b)
    requires s != [] && !IsDigit(s[0])
    ensures Digits(a, v) == Some(LeadingNumber(a + s, v))
    decreases |a|
  {
    if a == [] {
      assert a + s == s;
    } else {
      assert (a + s)[1..] == a[1..] + s && a[0] in a;
      assert forall b :: b in a[1..] ==> b in a;
      LeadingNumberOf(a[1..], s, v * 10 + (a[0] - ZERO));
    }
  }

  lemma ScanNumber(number: seq<Byte>, s: seq<Byte>)
    requires forall b :: b in number ==> IsDigit(b)
    requires 1 + |number| < |s| && s[0] == DOLLAR && s[1..][..|number|] == number && s[1 + |number|] == CR
    ensures Digits(number, 0) == Some(LeadingNumber(s[1..], 0))
    ensures StrChr(s, CR) == Some(1 + |number|)
  {
    var tail := s[1 + |number|..];
    assert s[1..] == number + tail;
    LeadingNumberOf(number, tail, 0);
    var head := [DOLLAR] + number;
    assert s == head + tail;
    StrChrSkips(head, tail, CR);
  }

  lemma ScanFromDollar(arg: seq<Byte>, t: seq<Byte>)
    ensures ArgumentAt(Argument(arg) + t) == Found(arg, t)
  {
    var number := Decimal(|arg|);
    var body := arg + CRLF + t;
    var s := Argument(arg) + t;
    assert s == [DOLLAR] + number + (CRLF + body);
    assert s[1..][..|number|] == number;
    ScanNumber(number, s);
    DigitsDecimal(|arg|);
    var start := 1 + |number| + 2;
    assert s[start..start + |arg|] == body[..|arg|] == arg;
    assert s[start + |arg| + 2..] == body[|arg| + 2..] == t;
  }

  /** The scanner skips whatever the argument holds, dollar signs, line ends and NULs included. */
  lemma ScanOneArgument(pre: seq<Byte>, arg: seq<Byte>, t: seq<Byte>)
    requires forall b :: b in pre ==> b != DOLLAR && b != NUL
    ensures NextArgument(pre + Argument(arg) + t) == Found(arg, t)
  {
    var fromDollar := Argument(arg) + t;
    var s := pre + fromDollar;
    assert pre + Argument(arg) + t == s;
    StrChrSkips(pre, fromDollar, DOLLAR);
    assert s[|pre|..] == fromDollar;
    if pre != [] {
      assert s[0] == pre[0] && pre[0] in pre;
    }
    ScanFromDollar(arg, t);
  }

  function ArgumentsInOrder(argv: seq<seq<Byte>>): seq<Byte> {
    if argv == [] then [] else Argument(argv[0]) + ArgumentsInOrder(argv[1..])
  }

  lemma {:induction false} ArgumentsOrder(argv: seq<seq<Byte>>)
    ensures Arguments(argv) == ArgumentsInOrder(argv)
    decreases |argv|
  {
    hide Argument;
    if argv != [] {
      var front, last := argv[..|argv| - 1], argv[|argv| - 1];
      ArgumentsOrder(front);
      InOrderAppend(front, last);
      assert front + [last] == argv;
    }
  }

  lemma {:induction false} InOrderAppend(argv: seq<seq<Byte>>, arg: seq<Byte>)
    ensures ArgumentsInOrder(argv + [arg]) == ArgumentsInOrder(argv) + Argument(arg)
    decreases |argv|
  {
    hide Argument;
    if argv == [] {
      assert argv + [arg] == [arg] && [arg][1..] == [];
      assert Argument(arg) + [] == [] + Argument(arg);
    } else {
      assert (argv + [arg])[0] == argv[0] && (argv + [arg])[1..] == argv[1..] + [arg];
      InOrderAppend(argv[1..], arg);
    }
  }

  lemma {:induction false} ScanArguments(argv: seq<seq<Byte>>)
    ensures AllArguments(ArgumentsInOrder(argv) + [NUL]) == Some(argv)
    decreases |argv|
  {
    if argv != [] {
      hide NextArgument, Argument, AllArguments;
      var t := ArgumentsInOrder(argv[1..]) + [NUL];
      ScanOneArgument([], argv[0], t);
      assert [] + Argument(argv[0]) + t == ArgumentsInOrder(argv) + [NUL];
      ScanArguments(argv[1..]);
      AllAfterFirst(ArgumentsInOrder(argv) + [NUL], argv[0], t);
      assert [argv[0]] + argv[1..] == argv;
    } else {
      AllOfNothing();
    }
  }

  lemma AllOfNothing()
    ensures AllArguments(ArgumentsInOrder([]) + [NUL]) == Some([])
  {
  }

  lemma AllAfterFirst(s: seq<Byte>, arg: seq<Byte>, t: seq<Byte>)
    requires NextArgument(s) == Found(arg, t)
    ensures AllArguments(s) == match AllArguments(t) case None => None case Some(more) => Some([arg] + more)
  {
    hide NextArgument;
  }

  /** Iterating the scanner over a formatted command yields its arguments and then none. */
  lemma ScanCommand(argv: seq<seq<Byte>>)
    ensures AllArguments(Command(argv) + [NUL]) == Some(argv)
  {
    if argv == [] {
      var header := [STAR] + Decimal(|argv|) + CRLF;
      assert Command(argv) + [NUL] == header + [NUL];
      NoDollar(header);
    } else {
      FirstArgument(argv);
      ScanArguments(argv[1..]);
      assert [argv[0]] + argv[1..] == argv;
    }
  }

  /** The scanner skips the header of a command and finds the name of the command first. */
  lemma FirstArgument(argv: seq<seq<Byte>>)
    requires argv != []
    ensures NextArgument(Command(argv) + [NUL]) == Found(argv[0], ArgumentsInOrder(argv[1..]) + [NUL])
  {
    ArgumentsOrder(argv);
    var header := [STAR] + Decimal(|argv|) + CRLF;
    var t := ArgumentsInOrder(argv[1..]) + [NUL];
    assert Command(argv) + [NUL] == header + Argument(argv[0]) + t;
    ScanOneArgument(header, argv[0], t);
  }

  lemma {:induction false} NoDollar(a: seq<Byte>)
    requires forall b :: b in a ==> b != DOLLAR
    ensures StrChr(a + [NUL], DOLLAR) == None
    decreases |a|
  {
    if a == [] {
      assert a + [NUL] == [NUL];
    } else {
      assert (a + [NUL])[1..] == a[1..] + [NUL] && a[0] in a;
      assert forall b :: b in a[1..] ==> b in a;
      NoDollar(a[1..]);
    }
  }
}
