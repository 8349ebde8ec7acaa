/** Commands from a format string: splitting the format at its own spaces and filling the words in
    afterwards gives what the one-pass loop gives, so an argument is never split. */
module FormatString {
  import opened Bytes
  import F = Formatter

  /** A format is a run of literal bytes, spaces and conversions. CText stops at the first NUL of its
      argument, Binary takes all of it. */
  datatype Token = Space | Literal(b: Byte) | CText | Binary

  /** None for the printf-style conversions, which are not part of this model. */
  function Tokens(f: seq<Byte>): Option<seq<Token>>
    decreases |f|
  {
    if f == [] then Some([])
    else if f[0] != F.PERCENT || |f| == 1 then
      match Tokens(f[1..])
      case None => None
      case Some(ts) => Some([if f[0] == F.SPACE then Space else Literal(f[0])] + ts)
    else if f[1] !in {115, 98, F.PERCENT} then None
    else
      match Tokens(f[2..])
      case None => None
      case Some(ts) =>
        Some([if f[1] == 115 then CText else if f[1] == 98 then Binary else Literal(F.PERCENT)] + ts)
  }

  function Takes(t: Token): nat {
    if t == CText || t == Binary then 1 else 0
  }

  function Needed(ts: seq<Token>): nat {
    if ts == [] then 0 else Takes(ts[0]) + Needed(ts[1..])
  }

  function CString(a: seq<Byte>): seq<Byte> {
    if a == [] || a[0] == NUL then [] else [a[0]] + CString(a[1..])
  }

  /** The tokens up to the next space. */
  function Word(ts: seq<Token>): (w: seq<Token>)
    ensures |w| <= |ts| && w == ts[..|w|]
    ensures ts != [] && ts[0] != Space ==> |w| > 0
  {
    if ts == [] || ts[0] == Space then [] else [ts[0]] + Word(ts[1..])
  }

  /** The non-empty words between spaces. */
  function Split(ts: seq<Token>): seq<seq<Token>>
    decreases |ts|
  {
    if ts == [] then []
    else if ts[0] == Space then Split(ts[1..])
    else [Word(ts)] + Split(ts[|Word(ts)|..])
  }

  /** What a token turns into, given the arguments not yet used. */
  function Piece(t: Token, args: seq<seq<Byte>>): seq<Byte>
    requires Takes(t) <= |args|
  {
    match t
    case Space => []
    case Literal(b) => [b]
    case CText => CString(args[0])
    case Binary => args[0]
  }

  /** A word with its conversions replaced by the next arguments. */
  function Fill(w: seq<Token>, args: seq<seq<Byte>>): seq<Byte>
    requires Needed(w) <= |args|
  {
    if w == [] then [] else Piece(w[0], args) + Fill(w[1..], args[Takes(w[0])..])
  }

  ghost predicate Enough(ws: seq<seq<Token>>, n: nat) {
    ws == [] || (Needed(ws[0]) <= n && Enough(ws[1..], n - Needed(ws[0])))
  }

  function FillAll(ws: seq<seq<Token>>, args: seq<seq<Byte>>): (argv: seq<seq<Byte>>)
    requires Enough(ws, |args|)
    ensures |argv| == |ws|
  {
    if ws == [] then [] else [Fill(ws[0], args)] + FillAll(ws[1..], args[Needed(ws[0])..])
  }

  lemma {:induction false} NeededSplits(ts: seq<Token>, k: nat)
    requires k <= |ts|
    ensures Needed(ts) == Needed(ts[..k]) + Needed(ts[k..])
    decreases k
  {
    if k > 0 {
      NeededSplits(ts[1..], k - 1);
      assert ts[..k][1..] == ts[1..][..k - 1];
      assert ts[k..] == ts[1..][k - 1..];
    } else {
      assert ts[k..] == ts;
    }
  }

  lemma {:induction false} SplitNeedsNoMore(ts: seq<Token>, n: nat)
    requires Needed(ts) <= n
    ensures Enough(Split(ts), n)
    decreases |ts|
  {
    if ts != [] {
      if ts[0] == Space {
        SplitNeedsNoMore(ts[1..], n);
      } else {
        var k := |Word(ts)|;
        NeededSplits(ts, k);
        SplitNeedsNoMore(ts[k..], n - Needed(Word(ts)));
      }
    }
  }

  /** The command a format stands for. */
  ghost function Argv(ts: seq<Token>, args: seq<seq<Byte>>): seq<seq<Byte>>
    requires Needed(ts) <= |args|
  {
    SplitNeedsNoMore(ts, |args|);
    FillAll(Split(ts), args)
  }

  /** What the loop still has to produce: the word in progress, if any, is continued first. */
  ghost function Remaining(touched: bool, cur: seq<Byte>, ts: seq<Token>, args: seq<seq<Byte>>): seq<seq<Byte>>
    requires Needed(ts) <= |args|
  {
    if !touched then Argv(ts, args)
    else
      var w := Word(ts);
      NeededSplits(ts, |w|);
      [cur + Fill(w, args)] + Argv(ts[|w|..], args[Needed(w)..])
  }

  lemma RemainingAtSpace(touched: bool, cur: seq<Byte>, ts: seq<Token>, args: seq<seq<Byte>>)
    requires Needed(ts) <= |args| && ts != [] && ts[0] == Space
    ensures Remaining(touched, cur, ts, args)
         == (if touched then [cur] else []) + Remaining(false, [], ts[1..], args)
  {
    if touched {
      assert Word(ts) == [] && ts[0..] == ts && args[0..] == args;
      assert cur + [] == cur;
    }
  }

  lemma RemainingAtPiece(touched: bool, cur: seq<Byte>, ts: seq<Token>, args: seq<seq<Byte>>)
    requires Needed(ts) <= |args| && ts != [] && ts[0] != Space
    requires !touched ==> cur == []
    ensures Remaining(touched, cur, ts, args)
         == Remaining(true, cur + Piece(ts[0], args), ts[1..], args[Takes(ts[0])..])
  {
    hide Fill, Argv, Piece;
    if !touched {
      ArgvAtWord(ts, args);
    }
    var w, w' := Word(ts), Word(ts[1..]);
    var rest := args[Takes(ts[0])..];
    NeededSplits(ts, |w|);
    NeededSplits(ts[1..], |w'|);
    FillWord(cur, ts, args);
    assert ts[|w|..] == ts[1..][|w'|..];
    assert args[Needed(w)..] == rest[Needed(w')..];
    if !touched {
      assert cur + Fill(w, args) == Fill(w, args);
    }
  }

  lemma ArgvAtWord(ts: seq<Token>, args: seq<seq<Byte>>)
    requires Needed(ts) <= |args| && ts != [] && ts[0] != Space
    ensures Needed(ts[|Word(ts)|..]) + Needed(Word(ts)) <= |args|
    ensures Argv(ts, args) == [Fill(Word(ts), args)] + Argv(ts[|Word(ts)|..], args[Needed(Word(ts))..])
  {
    hide Fill;
    NeededSplits(ts, |Word(ts)|);
    SplitNeedsNoMore(ts, |args|);
  }

  lemma FillWord(cur: seq<Byte>, ts: seq<Token>, args: seq<seq<Byte>>)
    requires Needed(ts) <= |args| && ts != [] && ts[0] != Space
    ensures var w, w' := Word(ts), Word(ts[1..]);
            && w[1..] == w' && |w| == |w'| + 1
            && Needed(w) == Takes(ts[0]) + Needed(w') <= |args|
            && cur + Fill(w, args) == cur + Piece(ts[0], args) + Fill(w', args[Takes(ts[0])..])
  {
    hide Fill, Piece;
    var w, w' := Word(ts), Word(ts[1..]);
    assert w == [ts[0]] + w' && w[1..] == w';
    NeededSplits(ts, |w|);
    FillFirst(w, args);
    assert cur + (Piece(ts[0], args) + Fill(w', args[Takes(ts[0])..]))
        == cur + Piece(ts[0], args) + Fill(w', args[Takes(ts[0])..]);
  }

  lemma FillFirst(w: seq<Token>, args: seq<seq<Byte>>)
    requires w != [] && Needed(w) <= |args|
    ensures Needed(w) == Takes(w[0]) + Needed(w[1..])
    ensures Fill(w, args) == Piece(w[0], args) + Fill(w[1..], args[Takes(w[0])..])
  {
    hide Piece;
  }

  lemma RemainingAtEnd(touched: bool, cur: seq<Byte>, args: seq<seq<Byte>>)
    ensures Remaining(touched, cur, [], args) == if touched then [cur] else []
  {
    assert cur + [] == cur && args[0..] == args;
  }

  /** One pass over the format, building one argument at a time. */
  method FormatCommand(f: seq<Byte>, args: seq<seq<Byte>>) returns (cmd: array<Byte>, totlen: nat)
    requires Tokens(f).Some? && Needed(Tokens(f).value) <= |args|
    ensures cmd.Length == totlen + 1
    ensures cmd[..totlen] == F.Command(Argv(Tokens(f).value, args)) && cmd[totlen] == NUL
  {
    var argv := SplitFormat(f, args);
    cmd, totlen := F.FormatCommandArgv(argv);
  }

  /** The text a conversion at the front of c stands for, and the arguments left. */
  method Convert(c: seq<Byte>, ap: seq<seq<Byte>>) returns (piece: seq<Byte>, rest: seq<seq<Byte>>)
    requires |c| > 1 && c[0] == F.PERCENT
    requires Tokens(c).Some? && Needed(Tokens(c).value) <= |ap|
    ensures piece == Piece(Tokens(c).value[0], ap)
    ensures rest == ap[Takes(Tokens(c).value[0])..]
  {
    if c[1] == 115 {
      piece, rest := CString(ap[0]), ap[1..];
    } else if c[1] == 98 {
      piece, rest := ap[0], ap[1..];
    } else {
      piece, rest := [F.PERCENT], ap;
    }
  }

  lemma TokensStep(c: seq<Byte>)
    requires c != [] && Tokens(c).Some?
    ensures var n := if c[0] != F.PERCENT || |c| == 1 then 1 else 2;
            && Tokens(c[n..]).Some? && Tokens(c).value != [] && Tokens(c[n..]).value == Tokens(c).value[1..]
            && Tokens(c).value[0] == (if n == 2 then (if c[1] == 115 then CText else if c[1] == 98 then Binary
                                                      else Literal(F.PERCENT))
                                      else if c[0] == F.SPACE then Space else Literal(c[0]))
  {
  }

  /** Where the loop stands: the arguments finished, the one in progress, and what is left to read. */
  datatype Pass = Pass(argv: seq<seq<Byte>>, touched: bool, cur: seq<Byte>, c: seq<Byte>, ap: seq<seq<Byte>>)

  /** All the arguments the pass will have made in the end. */
  ghost predicate Yields(p: Pass, argv: seq<seq<Byte>>) {
    && Tokens(p.c).Some? && Needed(Tokens(p.c).value) <= |p.ap|
    && (!p.touched ==> p.cur == [])
    && p.argv + Remaining(p.touched, p.cur, Tokens(p.c).value, p.ap) == argv
  }

  lemma YieldsAtSpace(p: Pass, argv: seq<seq<Byte>>)
    requires Yields(p, argv) && p.c != [] && p.c[0] == F.SPACE
    ensures Yields(Pass(if p.touched then p.argv + [p.cur] else p.argv, false, [], p.c[1..], p.ap), argv)
  {
    TokensStep(p.c);
    var ts := Tokens(p.c).value;
    RemainingAtSpace(p.touched, p.cur, ts, p.ap);
    var more := Remaining(false, [], ts[1..], p.ap);
    assert p.argv + ([p.cur] + more) == (p.argv + [p.cur]) + more;
    assert [] + more == more;
  }

  lemma YieldsAtPiece(p: Pass, argv: seq<seq<Byte>>, piece: seq<Byte>, rest: seq<seq<Byte>>, n: nat)
    requires Yields(p, argv) && p.c != [] && p.c[0] != F.SPACE
    requires n == if p.c[0] != F.PERCENT || |p.c| == 1 then 1 else 2
    requires piece == Piece(Tokens(p.c).value[0], p.ap) && rest == p.ap[Takes(Tokens(p.c).value[0])..]
    ensures Yields(Pass(p.argv, true, p.cur + piece, p.c[n..], rest), argv)
  {
    TokensStep(p.c);
    RemainingAtPiece(p.touched, p.cur, Tokens(p.c).value, p.ap);
  }

  method SplitFormat(f: seq<Byte>, args: seq<seq<Byte>>) returns (argv: seq<seq<Byte>>)
    requires Tokens(f).Some? && Needed(Tokens(f).value) <= |args|
    ensures argv == Argv(Tokens(f).value, args)
  {
    argv := [];
    var c, ap, touched, curarg := f, args, false, [];
    ghost var goal := Argv(Tokens(f).value, args);
    assert [] + goal == goal;
    while c != []
      invariant Yields(Pass(argv, touched, curarg, c, ap), goal)
      decreases |c|
    {
      TokensStep(c);
      ghost var p := Pass(argv, touched, curarg, c, ap);
      if c[0] != F.PERCENT || |c| == 1 {
        if c[0] == F.SPACE {
          YieldsAtSpace(p, goal);
          if touched {
            argv := argv + [curarg];
            curarg, touched := [], false;
          }
        } else {
          YieldsAtPiece(p, goal, [c[0]], ap, 1);
          curarg, touched := curarg + [c[0]], true;
        }
        c := c[1..];
      } else {
        var piece, rest := Convert(c, ap);
        YieldsAtPiece(p, goal, piece, rest, 2);
        curarg, touched, ap, c := curarg + piece, true, rest, c[2..];
      }
    }
    RemainingAtEnd(touched, curarg, ap);
    if touched {
      argv := argv + [curarg];
    }
  }

  /** How many arguments a command gets depends on its format alone, never on the values filled in. */
  lemma ArgcFixedByFormat(ts: seq<Token>, args: seq<seq<Byte>>, args': seq<seq<Byte>>)
    requires Needed(ts) <= |args| && Needed(ts) <= |args'|
    ensures |Argv(ts, args)| == |Argv(ts, args')| == |Split(ts)|
  {
    SplitNeedsNoMore(ts, |args|);
    SplitNeedsNoMore(ts, |args'|);
  }

  // ---------- what a format says ----------

  /** A part of a word: text, which stands in the format with its percent signs doubled; a value for %s,
      whose argument may go on behind a NUL; or a value for %b. */
  datatype Part = Text(bytes: seq<Byte>) | Str(value: seq<Byte>, tail: seq<Byte>) | Bin(value: seq<Byte>)

  /** A word of a format, with the number of spaces in front of it. */
  datatype Spaced = Spaced(gap: nat, word: seq<Part>)

  predicate PartOk(p: Part) {
    match p
    case Text(bytes) => bytes != [] && 32 !in bytes
    case Str(value, tail) => 0 !in value && (tail == [] || tail[0] == 0)
    case Bin(_) => true
  }

  predicate WordOk(w: seq<Part>) {
    forall i :: 0 <= i < |w| ==> PartOk(w[i])
  }

  /** Words are not empty, and spaces separate them. */
  predicate WordsOk(ws: seq<Spaced>) {
    forall i :: 0 <= i < |ws| ==> ws[i].word != [] && WordOk(ws[i].word) && (i > 0 ==> ws[i].gap > 0)
  }

  function Doubled(bytes: seq<Byte>): seq<Byte> {
    if bytes == [] then [] else ByteFormat(bytes[0]) + Doubled(bytes[1..])
  }

  function ByteFormat(b: Byte): seq<Byte> {
    if b == 37 then [37, 37] else [b]
  }

  function PartFormat(p: Part): seq<Byte> {
    match p
    case Text(bytes) => Doubled(bytes)
    case Str(_, _) => [37, 115]
    case Bin(_) => [37, 98]
  }

  function PartArgs(p: Part): seq<seq<Byte>> {
    match p
    case Text(_) => []
    case Str(value, tail) => [value + tail]
    case Bin(value) => [value]
  }

  function PartValue(p: Part): seq<Byte> {
    match p
    case Text(bytes) => bytes
    case Str(value, _) => value
    case Bin(value) => value
  }

  function WordFormat(w: seq<Part>): seq<Byte> {
    if w == [] then [] else PartFormat(w[0]) + WordFormat(w[1..])
  }

  function WordArgs(w: seq<Part>): seq<seq<Byte>> {
    if w == [] then [] else PartArgs(w[0]) + WordArgs(w[1..])
  }

  function WordValue(w: seq<Part>): seq<Byte> {
    if w == [] then [] else PartValue(w[0]) + WordValue(w[1..])
  }

  function Spaces(n: nat): seq<Byte> {
    if n == 0 then [] else [32] + Spaces(n - 1)
  }

  function FormatOf(ws: seq<Spaced>, trailing: nat): seq<Byte> {
    if ws == [] then Spaces(trailing)
    else Spaces(ws[0].gap) + (WordFormat(ws[0].word) + FormatOf(ws[1..], trailing))
  }

  function ArgsOf(ws: seq<Spaced>): seq<seq<Byte>> {
    if ws == [] then [] else WordArgs(ws[0].word) + ArgsOf(ws[1..])
  }

  function ValuesOf(ws: seq<Spaced>): seq<seq<Byte>> {
    if ws == [] then [] else [WordValue(ws[0].word)] + ValuesOf(ws[1..])
  }

  // The tokens of all these.

  function Literals(bytes: seq<Byte>): seq<Token> {
    if bytes == [] then [] else [Literal(bytes[0])] + Literals(bytes[1..])
  }

  function PartTokens(p: Part): seq<Token> {
    match p
    case Text(bytes) => Literals(bytes)
    case Str(_, _) => [CText]
    case Bin(_) => [Binary]
  }

  function WordTokens(w: seq<Part>): seq<Token> {
    if w == [] then [] else PartTokens(w[0]) + WordTokens(w[1..])
  }

  function Blank(n: nat): seq<Token> {
    if n == 0 then [] else [Space] + Blank(n - 1)
  }

  function AllTokens(ws: seq<Spaced>, trailing: nat): seq<Token> {
    if ws == [] then Blank(trailing)
    else Blank(ws[0].gap) + (WordTokens(ws[0].word) + AllTokens(ws[1..], trailing))
  }

  lemma {:induction false} TokensOfText(bytes: seq<Byte>, t: seq<Byte>)
    requires 32 !in bytes && Tokens(t).Some?
    ensures Tokens(Doubled(bytes) + t) == Some(Literals(bytes) + Tokens(t).value)
    decreases |bytes|
  {
    hide Tokens, ByteFormat;
    if bytes == [] {
      assert [] + t == t && [] + Tokens(t).value == Tokens(t).value;
    } else {
      TokensOfText(bytes[1..], t);
      assert bytes[0] in bytes;
      TokensOfByte(bytes[0], Doubled(bytes[1..]) + t);
      Assoc(ByteFormat(bytes[0]), Doubled(bytes[1..]), t);
      Assoc([Literal(bytes[0])], Literals(bytes[1..]), Tokens(t).value);
    }
  }

  lemma Assoc<T>(a: seq<T>, b: seq<T>, c: seq<T>)
    ensures a + b + c == a + (b + c)
  {
  }

  lemma TokensOfByte(b: Byte, rest: seq<Byte>)
    requires Tokens(rest).Some? && b != 32
    ensures Tokens(ByteFormat(b) + rest) == Some([Literal(b)] + Tokens(rest).value)
  {
    if b == 37 {
      TokensOfPercent(rest);
    } else {
      assert ([b] + rest)[1..] == rest;
    }
  }

  lemma TokensOfPercent(rest: seq<Byte>)
    requires Tokens(rest).Some?
    ensures Tokens([37, 37] + rest) == Some([Literal(37)] + Tokens(rest).value)
    ensures Tokens([37, 115] + rest) == Some([CText] + Tokens(rest).value)
    ensures Tokens([37, 98] + rest) == Some([Binary] + Tokens(rest).value)
  {
    assert ([37, 37] + rest)[2..] == ([37, 115] + rest)[2..] == ([37, 98] + rest)[2..] == rest;
  }

  lemma TokensOfPart(p: Part, t: seq<Byte>)
    requires PartOk(p) && Tokens(t).Some?
    ensures Tokens(PartFormat(p) + t) == Some(PartTokens(p) + Tokens(t).value)
  {
    hide Tokens;
    TokensOfPercent(t);
    if p.Text? {
      TokensOfText(p.bytes, t);
    }
  }

  lemma {:induction false} TokensOfWord(w: seq<Part>, t: seq<Byte>)
    requires WordOk(w) && Tokens(t).Some?
    ensures Tokens(WordFormat(w) + t) == Some(WordTokens(w) + Tokens(t).value)
    decreases |w|
  {
    hide Tokens, PartFormat, PartTokens, PartOk;
    if w == [] {
      assert [] + t == t && [] + Tokens(t).value == Tokens(t).value;
    } else {
      var rest := WordFormat(w[1..]) + t;
      TokensOfWord(w[1..], t);
      TokensOfPart(w[0], rest);
      assert WordFormat(w) + t == PartFormat(w[0]) + rest;
      assert PartTokens(w[0]) + (WordTokens(w[1..]) + Tokens(t).value) == WordTokens(w) + Tokens(t).value;
    }
  }

  lemma {:induction false} TokensOfSpaces(n: nat, t: seq<Byte>)
    requires Tokens(t).Some?
    ensures Tokens(Spaces(n) + t) == Some(Blank(n) + Tokens(t).value)
    decreases n
  {
    if n == 0 {
      assert [] + t == t && [] + Tokens(t).value == Tokens(t).value;
    } else {
      var rest := Spaces(n - 1) + t;
      TokensOfSpaces(n - 1, t);
      assert Spaces(n) + t == [32] + rest && ([32] + rest)[1..] == rest;
      assert [Space] + (Blank(n - 1) + Tokens(t).value) == Blank(n) + Tokens(t).value;
    }
  }

  lemma {:induction false} TokensOfFormat(ws: seq<Spaced>, trailing: nat)
    requires WordsOk(ws)
    ensures Tokens(FormatOf(ws, trailing)) == Some(AllTokens(ws, trailing))
    decreases |ws|
  {
    hide Tokens, WordFormat, WordTokens, WordOk;
    if ws == [] {
      TokensOfNothing();
      TokensOfSpaces(trailing, []);
      assert Spaces(trailing) + [] == Spaces(trailing) && Blank(trailing) + [] == Blank(trailing);
    } else {
      TokensOfFormat(ws[1..], trailing);
      TokensOfWord(ws[0].word, FormatOf(ws[1..], trailing));
      TokensOfSpaces(ws[0].gap, WordFormat(ws[0].word) + FormatOf(ws[1..], trailing));
    }
  }

  lemma TokensOfNothing()
    ensures Tokens([]) == Some([])
  {
  }

  // Splitting and filling.

  predicate NoSpace(ts: seq<Token>) {
    forall i :: 0 <= i < |ts| ==> ts[i] != Space
  }

  lemma {:induction false} LiteralsHaveNoSpace(bytes: seq<Byte>)
    ensures NoSpace(Literals(bytes)) && |Literals(bytes)| == |bytes|
    decreases |bytes|
  {
    if bytes != [] {
      LiteralsHaveNoSpace(bytes[1..]);
    }
  }

  lemma {:induction false} WordTokensHaveNoSpace(w: seq<Part>)
    requires WordOk(w)
    ensures NoSpace(WordTokens(w)) && (w != [] ==> WordTokens(w) != [])
    decreases |w|
  {
    if w != [] {
      assert PartOk(w[0]);
      if w[0].Text? {
        LiteralsHaveNoSpace(w[0].bytes);
      }
      WordTokensHaveNoSpace(w[1..]);
    }
  }

  lemma {:induction false} WordIs(wt: seq<Token>, rest: seq<Token>)
    requires NoSpace(wt) && (rest == [] || rest[0] == Space)
    ensures Word(wt + rest) == wt
    decreases |wt|
  {
    if wt == [] {
      assert [] + rest == rest;
    } else {
      assert (wt + rest)[1..] == wt[1..] + rest;
      WordIs(wt[1..], rest);
      assert [wt[0]] + wt[1..] == wt;
    }
  }

  lemma {:induction false} SplitIs(n: nat, wt: seq<Token>, rest: seq<Token>)
    requires NoSpace(wt) && wt != [] && (rest == [] || rest[0] == Space)
    ensures Split(Blank(n) + (wt + rest)) == [wt] + Split(rest)
    decreases n
  {
    hide Word;
    if n == 0 {
      assert Blank(0) + (wt + rest) == wt + rest;
      WordIs(wt, rest);
      assert (wt + rest)[|wt|..] == rest;
    } else {
      var ts := Blank(n) + (wt + rest);
      assert ts[1..] == Blank(n - 1) + (wt + rest);
      SplitIs(n - 1, wt, rest);
    }
  }

  lemma {:induction false} SplitBlank(n: nat)
    ensures Split(Blank(n)) == []
    decreases n
  {
    if n > 0 {
      assert Blank(n)[1..] == Blank(n - 1);
      SplitBlank(n - 1);
    }
  }

  lemma {:induction false} CStringIs(value: seq<Byte>, tail: seq<Byte>)
    requires 0 !in value && (tail == [] || tail[0] == 0)
    ensures CString(value + tail) == value
    decreases |value|
  {
    if value == [] {
      assert [] + tail == tail;
    } else {
      assert value[0] in value && (value + tail)[1..] == value[1..] + tail;
      CStringIs(value[1..], tail);
      assert [value[0]] + value[1..] == value;
    }
  }

  lemma {:induction false} FillText(bytes: seq<Byte>, ts: seq<Token>, args: seq<seq<Byte>>)
    requires Needed(ts) <= |args|
    ensures Needed(Literals(bytes) + ts) == Needed(ts) && Fill(Literals(bytes) + ts, args) == bytes + Fill(ts, args)
    decreases |bytes|
  {
    hide Fill;
    var all := Literals(bytes) + ts;
    if bytes == [] {
      assert all == ts && [] + Fill(ts, args) == Fill(ts, args);
    } else {
      assert all[1..] == Literals(bytes[1..]) + ts && all[0] == Literal(bytes[0]);
      FillText(bytes[1..], ts, args);
      FillFirst(all, args);
      assert args[0..] == args && [bytes[0]] + bytes[1..] == bytes;
      Assoc([bytes[0]], bytes[1..], Fill(ts, args));
    }
  }

  lemma FillPart(p: Part, ts: seq<Token>, args: seq<seq<Byte>>)
    requires PartOk(p) && Needed(ts) <= |args|
    ensures Needed(PartTokens(p) + ts) == |PartArgs(p)| + Needed(ts)
    ensures Fill(PartTokens(p) + ts, PartArgs(p) + args) == PartValue(p) + Fill(ts, args)
  {
    match p
    case Text(bytes) =>
      FillText(bytes, ts, args);
      assert [] + args == args;
    case Str(value, tail) =>
      CStringIs(value, tail);
      assert ([CText] + ts)[1..] == ts && ([value + tail] + args)[1..] == args;
    case Bin(value) =>
      assert ([Binary] + ts)[1..] == ts && ([value] + args)[1..] == args;
  }

  lemma {:induction false} FillParts(w: seq<Part>, args: seq<seq<Byte>>)
    requires WordOk(w)
    ensures Needed(WordTokens(w)) == |WordArgs(w)| && Fill(WordTokens(w), WordArgs(w) + args) == WordValue(w)
    decreases |w|
  {
    hide PartTokens, PartArgs, PartValue, PartOk;
    if w != [] {
      FillParts(w[1..], args);
      FillPart(w[0], WordTokens(w[1..]), WordArgs(w[1..]) + args);
      assert WordArgs(w) + args == PartArgs(w[0]) + (WordArgs(w[1..]) + args);
    }
  }

  lemma {:induction false} FillWords(ws: seq<Spaced>, trailing: nat)
    requires WordsOk(ws)
    ensures Enough(Split(AllTokens(ws, trailing)), |ArgsOf(ws)|)
    ensures FillAll(Split(AllTokens(ws, trailing)), ArgsOf(ws)) == ValuesOf(ws)
    ensures Needed(AllTokens(ws, trailing)) == |ArgsOf(ws)|
    decreases |ws|
  {
    hide WordTokens, WordArgs, WordValue, Word, Split, Fill, Needed, WordOk;
    if ws == [] {
      SplitBlank(trailing);
      NeededBlank(trailing);
    } else {
      var w, rest := ws[0].word, AllTokens(ws[1..], trailing);
      FillWords(ws[1..], trailing);
      WordTokensHaveNoSpace(w);
      FirstIsSpace(ws[1..], trailing);
      SplitIs(ws[0].gap, WordTokens(w), rest);
      FillParts(w, ArgsOf(ws[1..]));
      NeededBlank(ws[0].gap);
      NeededBoth(Blank(ws[0].gap), WordTokens(w) + rest);
      NeededBoth(WordTokens(w), rest);
      assert ArgsOf(ws)[|WordArgs(w)|..] == ArgsOf(ws[1..]);
      assert Split(AllTokens(ws, trailing))[1..] == Split(rest);
    }
  }

  lemma NeededBoth(a: seq<Token>, b: seq<Token>)
    ensures Needed(a + b) == Needed(a) + Needed(b)
  {
    NeededSplits(a + b, |a|);
    assert (a + b)[..|a|] == a && (a + b)[|a|..] == b;
  }

  lemma {:induction false} NeededBlank(n: nat)
    ensures Needed(Blank(n)) == 0
    decreases n
  {
    if n > 0 {
      assert Blank(n)[1..] == Blank(n - 1);
      NeededBlank(n - 1);
    }
  }

  lemma FirstIsSpace(ws: seq<Spaced>, trailing: nat)
    requires ws == [] || ws[0].gap > 0
    ensures var ts := AllTokens(ws, trailing); ts == [] || ts[0] == Space
  {
  }

  /** Whatever the words of a format: it is a format, takes as many arguments as its words hold, and
      stands for the command of exactly their values. */
  lemma FormatSays(ws: seq<Spaced>, trailing: nat)
    requires WordsOk(ws)
    ensures var f := FormatOf(ws, trailing);
            && Tokens(f).Some? && Needed(Tokens(f).value) == |ArgsOf(ws)|
            && Argv(Tokens(f).value, ArgsOf(ws)) == ValuesOf(ws)
  {
    hide Tokens, Split, Needed, FillAll, WordsOk, FormatOf, AllTokens, ArgsOf, ValuesOf;
    TokensOfFormat(ws, trailing);
    FillWords(ws, trailing);
  }

  /** The formatter on such a format. */
  method FormatWords(ws: seq<Spaced>, trailing: nat) returns (cmd: array<Byte>, totlen: nat)
    requires WordsOk(ws)
    ensures cmd.Length == totlen + 1 && cmd[..totlen] == F.Command(ValuesOf(ws)) && cmd[totlen] == NUL
  {
    hide Tokens, Argv, WordsOk;
    FormatSays(ws, trailing);
    cmd, totlen := FormatCommand(FormatOf(ws, trailing), ArgsOf(ws));
  }
}
