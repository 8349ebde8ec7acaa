/** INI texts with comments and blank lines: they change nothing about what is loaded. */
module IniComments {
  import opened Bytes
  import opened IniText
  import opened IniRoundTrip

  /** A line that holds no entry, a section header, or a key with its value. */
  datatype Piece = Remark(line: string) | HeaderOf(name: string) | KeyOf(key: string, val: string)

  /** The line is blank, or starts with a semicolon or a hash sign. */
  predicate RemarkOk(line: string) {
    && '\n' !in line && '\r' !in line
    && ((line != "" && (line[0] == ';' || line[0] == '#'))
        || forall i :: 0 <= i < |line| ==> line[i] == ' ' || line[i] == '\t')
  }

  function PieceText(y: Style, p: Piece): string {
    match p
    case Remark(line) => line + y.newline
    case HeaderOf(name) => "[" + name + "]" + y.newline
    case KeyOf(key, val) => key + Separator(y) + PrintValue(y, val)
  }

  function Text(y: Style, ps: seq<Piece>): string {
    if ps == [] then "" else PieceText(y, ps[0]) + Text(y, ps[1..])
  }

  /** The pieces without the remarks. */
  function Kept(ps: seq<Piece>): seq<Piece> {
    if ps == [] then [] else (if ps[0].Remark? then [] else [ps[0]]) + Kept(ps[1..])
  }

  function KeyPieces(ks: seq<KeyVal>): seq<Piece> {
    if ks == [] then [] else [KeyOf(ks[0].key, ks[0].val)] + KeyPieces(ks[1..])
  }

  /** The pieces of a store: the headers, but for the section without a name, and the keys. */
  function Pieces(d: Store): seq<Piece> {
    if d == [] then []
    else (if d[0].name != "" then [HeaderOf(d[0].name)] else []) + KeyPieces(d[0].keys) + Pieces(d[1..])
  }

  /** A piece is read as it was written. */
  predicate PieceOk(o: Options, p: Piece) {
    match p
    case Remark(line) => RemarkOk(line)
    case HeaderOf(name) => NameOk(name) && name != ""
    case KeyOf(key, val) => KeyOk(key) && ValueOk(o, val)
  }

  predicate PiecesOk(o: Options, ps: seq<Piece>) {
    forall i :: 0 <= i < |ps| ==> PieceOk(o, ps[i])
  }

  predicate RemarksOk(ps: seq<Piece>) {
    forall i :: 0 <= i < |ps| && ps[i].Remark? ==> RemarkOk(ps[i].line)
  }

  /** What the pieces add to a store, in section sec. */
  function AddPieces(noCase: bool, d: Store, sec: string, ps: seq<Piece>): Store
    decreases |ps|
  {
    if ps == [] then d
    else
      match ps[0]
      case Remark(_) => AddPieces(noCase, d, sec, ps[1..])
      case HeaderOf(name) => AddPieces(noCase, AddSection(noCase, d, name), name, ps[1..])
      case KeyOf(key, val) => AddPieces(noCase, AddEntry(noCase, d, sec, key, val), sec, ps[1..])
  }

  // ---------- one remark ----------

  /** A comment ahead, with the blank lines before it, changes nothing. */
  lemma CommentAhead(o: Options, t: string, u: bool)
    ensures NextEntry(o, CommentEnd(t, true), u) == NextEntry(o, t, u)
  {
    hide ValueOf, Until, TrimRight, LineLen, SkipBlanks;
    if t != "" && !IsComment(t[0]) {
      assert SkipSpaces(SkipSpaces(t)) == SkipSpaces(t);
    }
  }

  /** Nor does a line that is one. */
  lemma CommentLine(o: Options, s: string, u: bool)
    requires s != "" && IsComment(s[0])
    ensures NextEntry(o, s, u) == NextEntry(o, AfterLine(s), u)
  {
    hide NextEntry, AfterLine;
    CommentAhead(o, s, u);
    CommentAhead(o, AfterLine(s), u);
  }

  lemma ScanRemark(o: Options, line: string, nl: string, t: string, u: bool)
    requires RemarkOk(line) && IsNewLineText(nl)
    ensures NextEntry(o, line + nl + t, u) == NextEntry(o, t, u)
  {
    hide NextEntry, LineLen, AfterLine;
    if line != "" && (line[0] == ';' || line[0] == '#') {
      AfterLineIs(line, nl, t);
      assert (line + nl + t)[0] == line[0];
      CommentLine(o, line + nl + t, u);
    } else {
      assert forall i :: 0 <= i < |line + nl| ==> IsSpace((line + nl)[i]);
      ScanSkips(o, line + nl, t, u);
    }
  }

  /** The comment of a file needs no treatment of its own. */
  lemma {:induction false} FileComment(o: Options, s: string)
    ensures NextEntry(o, CommentEnd(s, false), false) == NextEntry(o, s, false)
    decreases |s|
  {
    hide NextEntry, AfterLine;
    if s != "" && IsComment(s[0]) {
      CommentLine(o, s, false);
      FileComment(o, AfterLine(s));
    }
  }

  lemma LoadIgnoresFileComment(o: Options, s: string)
    ensures Load(o, s) == LoadFrom(o, [], "", s)
  {
    hide NextEntry, CommentEnd, AddEntry, AddSection;
    FileComment(o, s);
  }

  // ---------- whole texts ----------

  /** A text is loaded as its pieces say, whatever remarks stand between them. */
  lemma {:induction false} LoadPieces(o: Options, y: Style, d: Store, sec: string, ps: seq<Piece>)
    requires Matches(y, o) && PiecesOk(o, ps)
    ensures LoadFrom(o, d, sec, Text(y, ps)) == Some(AddPieces(o.noCase, d, sec, ps))
    decreases |ps|
  {
    hide NextEntry, AddEntry, AddSection, PrintValue, KeyOk, ValueOk, NameOk, RemarkOk;
    if ps == [] {
      EmptyText(o);
    } else {
      var t := Text(y, ps[1..]);
      assert PieceOk(o, ps[0]);
      match ps[0]
      case Remark(line) =>
        ScanRemark(o, line, y.newline, t, false);
        LoadPieces(o, y, d, sec, ps[1..]);
      case HeaderOf(name) =>
        ScanHeader(o, name, y.newline, t);
        LoadSkips(o, AddSection(o.noCase, d, name), name, y.newline, t);
        LoadPieces(o, y, AddSection(o.noCase, d, name), name, ps[1..]);
      case KeyOf(key, val) =>
        ScanPair(o, y, key, val, t);
        LoadPieces(o, y, AddEntry(o.noCase, d, sec, key, val), sec, ps[1..]);
    }
  }

  lemma EmptyText(o: Options)
    ensures NextEntry(o, "", false) == Nothing
  {
  }

  lemma {:induction false} RemarksAddNothing(noCase: bool, d: Store, sec: string, ps: seq<Piece>)
    ensures AddPieces(noCase, d, sec, Kept(ps)) == AddPieces(noCase, d, sec, ps)
    decreases |ps|
  {
    hide AddEntry, AddSection;
    if ps != [] {
      var more := Kept(ps[1..]);
      match ps[0]
      case Remark(_) =>
        assert [] + more == more;
        RemarksAddNothing(noCase, d, sec, ps[1..]);
      case HeaderOf(name) =>
        assert ([ps[0]] + more)[1..] == more;
        RemarksAddNothing(noCase, AddSection(noCase, d, name), name, ps[1..]);
      case KeyOf(key, val) =>
        assert ([ps[0]] + more)[1..] == more;
        RemarksAddNothing(noCase, AddEntry(noCase, d, sec, key, val), sec, ps[1..]);
    }
  }

  /** The printed text of a store is that of its pieces, with two blank lines in front of each section
      but the first. */
  function Printed(d: Store, more: bool): seq<Piece> {
    if d == [] then []
    else (if more then [Remark(""), Remark("")] else [])
         + ((if d[0].name != "" then [HeaderOf(d[0].name)] else []) + KeyPieces(d[0].keys) + Printed(d[1..], true))
  }

  lemma {:induction false} TextAppend(y: Style, ps: seq<Piece>, qs: seq<Piece>)
    ensures Text(y, ps + qs) == Text(y, ps) + Text(y, qs)
    ensures Kept(ps + qs) == Kept(ps) + Kept(qs)
    decreases |ps|
  {
    hide PieceText;
    if ps == [] {
      assert ps + qs == qs;
    } else {
      assert (ps + qs)[0] == ps[0] && (ps + qs)[1..] == ps[1..] + qs;
      TextAppend(y, ps[1..], qs);
      Assoc(PieceText(y, ps[0]), Text(y, ps[1..]), Text(y, qs));
      Assoc(if ps[0].Remark? then [] else [ps[0]], Kept(ps[1..]), Kept(qs));
    }
  }

  lemma Assoc<T>(a: seq<T>, b: seq<T>, c: seq<T>)
    ensures a + b + c == a + (b + c)
  {
  }

  lemma {:induction false} TextOfKeys(y: Style, ks: seq<KeyVal>)
    ensures Text(y, KeyPieces(ks)) == PrintKeys(y, ks) && Kept(KeyPieces(ks)) == KeyPieces(ks)
    decreases |ks|
  {
    hide PrintValue;
    if ks != [] {
      TextOfKeys(y, ks[1..]);
      assert KeyPieces(ks)[1..] == KeyPieces(ks[1..]);
    }
  }

  lemma {:induction false} TextOfPrinted(y: Style, d: Store, more: bool)
    ensures Text(y, Printed(d, more)) == PrintSections(y, d, more)
    ensures Kept(Printed(d, more)) == Pieces(d)
    decreases |d|
  {
    hide PrintKeys, KeyPieces, Text, Kept;
    if d == [] {
      TextOfNothing(y);
    } else {
      var gap := if more then [Remark(""), Remark("")] else [];
      var head := if d[0].name != "" then [HeaderOf(d[0].name)] else [];
      var keys, rest := KeyPieces(d[0].keys), Printed(d[1..], true);
      TextOfPrinted(y, d[1..], true);
      TextAppend(y, gap, head + keys + rest);
      TextAppend(y, head + keys, rest);
      TextAppend(y, head, keys);
      TextOfKeys(y, d[0].keys);
      TextOfGap(y, more);
      TextOfHead(y, d[0].name);
      var g, h := if more then y.newline + y.newline else "", if d[0].name != "" then "[" + d[0].name + "]" + y.newline else "";
      Regrouped(g, h, PrintKeys(y, d[0].keys), PrintSections(y, d[1..], true));
      assert [] + (head + keys + Pieces(d[1..])) == head + keys + Pieces(d[1..]);
    }
  }

  lemma Regrouped(a: string, b: string, c: string, d: string)
    ensures a + (b + c + d) == a + b + c + d
  {
  }

  lemma TextOfNothing(y: Style)
    ensures Text(y, []) == "" && Kept([]) == []
  {
  }

  lemma TextOfGap(y: Style, more: bool)
    ensures Text(y, if more then [Remark(""), Remark("")] else []) == if more then y.newline + y.newline else ""
    ensures Kept(if more then [Remark(""), Remark("")] else []) == []
  {
    var one, two := [Remark("")], [Remark(""), Remark("")];
    assert two[1..] == one && one[1..] == [];
    assert Text(y, one) == y.newline && Text(y, two) == y.newline + y.newline;
    assert Kept(one) == [] && Kept(two) == [];
  }

  lemma TextOfHead(y: Style, name: string)
    ensures Text(y, if name != "" then [HeaderOf(name)] else []) == if name != "" then "[" + name + "]" + y.newline else ""
    ensures var ps := if name != "" then [HeaderOf(name)] else []; Kept(ps) == ps
  {
    if name != "" {
      var s := "[" + name + "]" + y.newline;
      assert [HeaderOf(name)][1..] == [] && s + "" == s;
    }
  }

  lemma {:induction false} KeptOk(o: Options, ps: seq<Piece>)
    requires RemarksOk(ps) && PiecesOk(o, Kept(ps))
    ensures PiecesOk(o, ps)
    decreases |ps|
  {
    hide PieceOk, RemarkOk;
    if ps != [] {
      var more := Kept(ps[1..]);
      if ps[0].Remark? {
        assert Kept(ps) == more;
        RemarkIsOk(o, ps[0]);
      } else {
        assert Kept(ps)[0] == ps[0];
        assert forall i :: 0 <= i < |more| ==> more[i] == Kept(ps)[i + 1];
      }
      assert forall i :: 0 <= i < |ps| - 1 ==> ps[1..][i] == ps[i + 1];
      KeptOk(o, ps[1..]);
      assert forall i :: 1 <= i < |ps| ==> ps[i] == ps[1..][i - 1];
    }
  }

  lemma RemarkIsOk(o: Options, p: Piece)
    requires p.Remark?
    ensures PieceOk(o, p) <==> RemarkOk(p.line)
  {
  }

  lemma {:induction false} PiecesAreOk(o: Options, d: Store)
    requires forall i :: 0 <= i < |d| ==> NameOk(d[i].name) && KeysOk(o, d[i].keys)
    ensures PiecesOk(o, Pieces(d))
    decreases |d|
  {
    hide NameOk, KeysOk, KeyPieces;
    if d != [] {
      PiecesAreOk(o, d[1..]);
      KeyPiecesAreOk(o, d[0].keys);
    }
  }

  lemma {:induction false} KeyPiecesAreOk(o: Options, ks: seq<KeyVal>)
    requires KeysOk(o, ks)
    ensures PiecesOk(o, KeyPieces(ks))
    decreases |ks|
  {
    hide KeyOk, ValueOk, Same;
    if ks != [] {
      assert forall i :: 0 <= i < |ks| - 1 ==> ks[1..][i] == ks[i + 1];
      KeyPiecesAreOk(o, ks[1..]);
    }
  }

  lemma {:induction false} NoRemarks(d: Store)
    ensures forall i :: 0 <= i < |Printed(d, false)| && Printed(d, false)[i].Remark? ==> Printed(d, false)[i].line == ""
    ensures forall i :: 0 <= i < |Printed(d, true)| && Printed(d, true)[i].Remark? ==> Printed(d, true)[i].line == ""
    decreases |d|
  {
    hide KeyPieces;
    if d != [] {
      NoRemarks(d[1..]);
      NoKeyRemarks(d[0].keys);
    }
  }

  lemma {:induction false} NoKeyRemarks(ks: seq<KeyVal>)
    ensures forall i :: 0 <= i < |KeyPieces(ks)| ==> !KeyPieces(ks)[i].Remark?
    decreases |ks|
  {
    if ks != [] {
      NoKeyRemarks(ks[1..]);
    }
  }

  /** A store is loaded from any text that has its headers, keys and values, in order, and whatever
      comments and blank lines before, between and behind them. */
  lemma CommentsDoNotMatter(o: Options, y: Style, d: Store, ps: seq<Piece>)
    requires Matches(y, o) && Printable(o, d) && Kept(ps) == Pieces(d) && RemarksOk(ps)
    ensures Load(o, Text(y, ps)) == Some(d)
  {
    hide Load, LoadFrom, Text, Kept, PieceOk, AddPieces, Print, PrintSections, Matches, KeysOk, NameOk, Printed, Pieces;
    var printed := Printed(d, false);
    PiecesAreOk(o, d);
    KeptOk(o, ps);
    NoRemarks(d);
    TextOfPrinted(y, d, false);
    KeptOk(o, printed);
    PrintIsPrinted(y, d);
    LoadOfPrint(o, y, d);
    LoadIgnoresFileComment(o, Text(y, printed));
    LoadIgnoresFileComment(o, Text(y, ps));
    LoadPieces(o, y, [], "", printed);
    LoadPieces(o, y, [], "", ps);
    RemarksAddNothing(o.noCase, [], "", printed);
    RemarksAddNothing(o.noCase, [], "", ps);
  }

  lemma PrintIsPrinted(y: Style, d: Store)
    ensures Print(y, d) == PrintSections(y, d, false)
  {
    hide PrintSections;
  }

  // ---------- the text of a comment ----------

  predicate StartsComment(line: string) {
    line != "" && (line[0] == ';' || line[0] == '#')
  }

  /** Blank lines lose their blanks. */
  function Tidy(lines: seq<string>): seq<string> {
    if lines == [] then [] else [if StartsComment(lines[0]) then lines[0] else ""] + Tidy(lines[1..])
  }

  predicate CommentIsAhead(s: string) {
    SkipSpaces(s) != "" && IsComment(SkipSpaces(s)[0])
  }

  lemma {:induction false} BlankLineAhead(w: string, nl: string, t: string)
    requires IsNewLineText(nl) && forall i :: 0 <= i < |w| ==> w[i] == ' ' || w[i] == '\t'
    ensures BlankLineEnds(w + nl + t) == 1 + BlankLineEnds(t) && SkipSpaces(w + nl + t) == SkipSpaces(t)
    decreases |w|
  {
    var s := w + nl + t;
    if w == "" {
      assert s == nl + t;
      if nl == "\n" {
        assert s[1..] == t;
      } else {
        assert s[2..] == t && s[1..][1..] == t && s[1..][0] == '\n';
      }
    } else {
      assert s[1..] == w[1..] + nl + t;
      BlankLineAhead(w[1..], nl, t);
    }
  }

  lemma TextOfBlankLine(w: string, nl: string, t: string)
    requires IsNewLineText(nl) && CommentIsAhead(t) && forall i :: 0 <= i < |w| ==> w[i] == ' ' || w[i] == '\t'
    ensures CommentText(w + nl + t, true) == "\n" + CommentText(t, true) && CommentIsAhead(w + nl + t)
  {
    hide SkipSpaces, BlankLineEnds, LineLen, AfterLine;
    var s, n := w + nl + t, BlankLineEnds(t);
    BlankLineAhead(w, nl, t);
    assert s[0] == (w + nl)[0];
    NewLinesAhead(t);
    Assoc("\n", NewLines(n), CommentText(SkipSpaces(t), true));
  }

  lemma NewLinesAhead(t: string)
    requires CommentIsAhead(t)
    ensures CommentText(t, true) == NewLines(BlankLineEnds(t)) + CommentText(SkipSpaces(t), true)
  {
    hide LineLen, AfterLine;
    if IsComment(t[0]) {
      assert SkipSpaces(t) == t && BlankLineEnds(t) == 0;
      assert "" + CommentText(t, true) == CommentText(t, true);
    }
  }

  lemma TextOfCommentLine(line: string, nl: string, t: string, blankLines: bool)
    requires IsNewLineText(nl) && RemarkOk(line) && StartsComment(line)
    ensures CommentText(line + nl + t, blankLines) == line + "\n" + CommentText(t, blankLines)
    ensures CommentIsAhead(line + nl + t)
  {
    hide LineLen, AfterLine;
    AfterLineIs(line, nl, t);
    assert (line + nl + t)[0] == line[0];
  }

  /** The text of a comment is its lines, blank lines before its last line included if they are allowed,
      each with a single newline. */
  lemma {:induction false} CommentTextIs(lines: seq<string>, nl: string, t: string, blankLines: bool)
    requires IsNewLineText(nl) && (lines != [] ==> StartsComment(lines[|lines| - 1]))
    requires forall i :: 0 <= i < |lines| ==> RemarkOk(lines[i]) && (blankLines || StartsComment(lines[i]))
    requires !StartsComment(t) && (blankLines ==> !CommentIsAhead(t))
    ensures CommentText(PrintLines(nl, lines) + t, blankLines) == PrintLines("\n", Tidy(lines))
    ensures lines != [] ==> CommentIsAhead(PrintLines(nl, lines) + t)
    decreases |lines|
  {
    hide RemarkOk, CommentText, CommentIsAhead;
    if lines == [] {
      assert PrintLines(nl, []) + t == t;
      NoText(t, blankLines);
    } else {
      var rest := PrintLines(nl, lines[1..]) + t;
      assert PrintLines(nl, lines) + t == lines[0] + nl + rest;
      CommentTextIs(lines[1..], nl, t, blankLines);
      if StartsComment(lines[0]) {
        TextOfCommentLine(lines[0], nl, rest, blankLines);
      } else {
        BlankRemark(lines[0]);
        TextOfBlankLine(lines[0], nl, rest);
        assert "" + "\n" == "\n";
      }
    }
  }

  lemma BlankRemark(line: string)
    requires RemarkOk(line) && !StartsComment(line)
    ensures forall i :: 0 <= i < |line| ==> line[i] == ' ' || line[i] == '\t'
  {
  }

  lemma NoText(t: string, blankLines: bool)
    requires !StartsComment(t) && (blankLines ==> !CommentIsAhead(t))
    ensures CommentText(t, blankLines) == ""
  {
    hide SkipSpaces, BlankLineEnds, LineLen, AfterLine;
  }
}
