/** INI text: what one scan for an entry finds, loading a whole text into sections, keys and values,
    and printing them again. */
module IniText {
  import opened Bytes

  // ---------- characters and lines ----------

  predicate IsSpace(c: char) {
    c == ' ' || c == '\t' || c == '\r' || c == '\n'
  }

  predicate IsNewLine(c: char) {
    c == '\n' || c == '\r'
  }

  predicate IsComment(c: char) {
    c == ';' || c == '#'
  }

  /** The length of the first line, without its end. */
  function LineLen(s: string): (n: nat)
    ensures n <= |s| && (n < |s| ==> IsNewLine(s[n]))
    ensures forall i :: 0 <= i < n ==> !IsNewLine(s[i])
  {
    if s == "" || IsNewLine(s[0]) then 0 else 1 + LineLen(s[1..])
  }

  /** Behind the end of a line, which is one character or CR LF. */
  function SkipNewLine(s: string): (t: string)
    requires s != ""
    ensures |t| < |s|
  {
    if s[0] == '\r' && |s| > 1 && s[1] == '\n' then s[2..] else s[1..]
  }

  function SkipSpaces(s: string): (t: string)
    ensures |t| <= |s| && (t != "" ==> !IsSpace(t[0]))
  {
    if s != "" && IsSpace(s[0]) then SkipSpaces(s[1..]) else s
  }

  /** Spaces up to the end of the line. */
  function SkipBlanks(s: string): (t: string)
    ensures |t| <= |s|
  {
    if s != "" && IsSpace(s[0]) && !IsNewLine(s[0]) then SkipBlanks(s[1..]) else s
  }

  function TrimRight(s: string): (t: string)
    ensures |t| <= |s| && t == s[..|t|]
  {
    if s != "" && IsSpace(s[|s| - 1]) then TrimRight(s[..|s| - 1]) else s
  }

  /** The place of the first c, of the end of the line, or of the end. */
  function Until(s: string, c: char): (n: nat)
    ensures n <= |s|
  {
    if s == "" || s[0] == c || IsNewLine(s[0]) then 0 else 1 + Until(s[1..], c)
  }

  predicate StartsWith(s: string, p: string) {
    |p| <= |s| && s[..|p|] == p
  }

  // ---------- names ----------

  /** Names are compared as they are or without regard to ASCII case. */
  function Fold(noCase: bool, s: string): string {
    if !noCase then s else seq(|s|, i requires 0 <= i < |s| => Lower(s[i]))
  }

  function Lower(c: char): char {
    if 'A' <= c <= 'Z' then c - 'A' + 'a' else c
  }

  predicate Same(noCase: bool, a: string, b: string) {
    Fold(noCase, a) == Fold(noCase, b)
  }

  /** The names differ in the case of ASCII letters only, which is 32 code points. */
  predicate SameLetters(a: string, b: string) {
    |a| == |b| && forall i :: 0 <= i < |a| ==>
      || a[i] == b[i]
      || ('A' <= a[i] <= 'Z' && b[i] as int == a[i] as int + 32)
      || ('A' <= b[i] <= 'Z' && a[i] as int == b[i] as int + 32)
  }

  lemma SameIsSameLetters(a: string, b: string)
    ensures Same(true, a, b) <==> SameLetters(a, b)
    ensures Same(false, a, b) <==> a == b
  {
    if Same(true, a, b) {
      assert |a| == |Fold(true, a)| == |Fold(true, b)| == |b|;
      forall i | 0 <= i < |a| ensures Lower(a[i]) == Lower(b[i]) {
        assert Fold(true, a)[i] == Fold(true, b)[i];
      }
    }
  }

  /** The comparison of the library, on the folded names. */
  predicate IsLess(a: string, b: string) {
    if a == "" || b == "" then b != ""
    else if a[0] != b[0] then a[0] < b[0]
    else IsLess(a[1..], b[1..])
  }

  /** Two names are the same exactly when neither is less. */
  lemma {:induction false} NeitherLess(a: string, b: string)
    ensures !IsLess(a, b) && !IsLess(b, a) <==> a == b
    decreases |a|
  {
    if a != "" && b != "" && a[0] == b[0] {
      NeitherLess(a[1..], b[1..]);
      assert a == [a[0]] + a[1..] && b == [b[0]] + b[1..];
    }
  }

  // ---------- multi-line text ----------

  /** The lines up to the end tag, the text behind the tag line, and whether there was one. */
  datatype Block = Block(lines: seq<string>, rest: string, tagged: bool)

  /** The text behind the first line. */
  function AfterLine(s: string): (t: string)
    ensures |t| <= |s| && (s != "" ==> |t| < |s|)
  {
    if LineLen(s) == |s| then "" else SkipNewLine(s[LineLen(s)..])
  }

  function TakeBlock(noCase: bool, tag: string, s: string): (b: Block)
    ensures |b.rest| <= |s| && (!b.tagged ==> b.lines != [] && b.rest == "")
    decreases |s|
  {
    var line := s[..LineLen(s)];
    if Same(noCase, line, tag) then Block([], AfterLine(s), true)
    else if LineLen(s) == |s| then Block([line], "", false)
    else
      var more := TakeBlock(noCase, tag, AfterLine(s));
      Block([line] + more.lines, more.rest, more.tagged)
  }

  /** The lines with single newlines between them. */
  function Join(lines: seq<string>): string {
    if lines == [] then ""
    else if |lines| == 1 then lines[0]
    else lines[0] + "\n" + Join(lines[1..])
  }

  /** The lines between single newlines. */
  function Split(v: string): (lines: seq<string>)
    ensures lines != []
  {
    if v == "" then [""]
    else if v[0] == '\n' then [""] + Split(v[1..])
    else
      var more := Split(v[1..]);
      [[v[0]] + more[0]] + more[1..]
  }

  lemma {:induction false} JoinOfSplit(v: string)
    ensures Join(Split(v)) == v
    decreases |v|
  {
    if v != "" {
      JoinOfSplit(v[1..]);
      var more := Split(v[1..]);
      if v[0] == '\n' {
        assert Split(v)[1..] == more;
      } else if |more| > 1 {
        assert Split(v)[1..] == more[1..];
      }
      assert v == [v[0]] + v[1..];
    }
  }

  lemma {:induction false} SplitHasLines(v: string)
    requires '\r' !in v
    ensures forall i :: 0 <= i < |Split(v)| ==> forall c :: c in Split(v)[i] ==> !IsNewLine(c) && c in v
    decreases |v|
  {
    if v != "" {
      SplitHasLines(v[1..]);
    }
  }

  // ---------- finding the next entry ----------

  datatype Options = Options(noCase: bool, multiLine: bool)

  /** Behind a comment. Blank lines belong to it, if allowed, when more comment follows. */
  function CommentEnd(s: string, blankLines: bool): (t: string)
    ensures |t| <= |s|
    ensures s != "" && IsComment(s[0]) ==> |t| < |s|
    decreases |s|, 1
  {
    if s == "" || !IsComment(s[0]) then
      if blankLines && s != "" && IsSpace(s[0]) && SkipSpaces(s) != "" && IsComment(SkipSpaces(s)[0])
        then SpacesShrink(s); CommentEnd(SkipSpaces(s), blankLines)
      else s
    else CommentEnd(AfterLine(s), blankLines)
  }

  /** How many lines end in the blank space ahead. */
  function BlankLineEnds(s: string): (n: nat)
    decreases |s|
  {
    if s == "" || !IsSpace(s[0]) then 0
    else if IsNewLine(s[0]) then 1 + BlankLineEnds(SkipNewLine(s))
    else BlankLineEnds(s[1..])
  }

  function NewLines(n: nat): string {
    if n == 0 then "" else "\n" + NewLines(n - 1)
  }

  /** The text of a comment, each line with a newline behind it, and a newline for each blank line kept. */
  function CommentText(s: string, blankLines: bool): (t: string)
    decreases |s|, 1
  {
    if s == "" || !IsComment(s[0]) then
      if blankLines && s != "" && IsSpace(s[0]) && SkipSpaces(s) != "" && IsComment(SkipSpaces(s)[0])
        then SpacesShrink(s); NewLines(BlankLineEnds(s)) + CommentText(SkipSpaces(s), blankLines)
      else ""
    else s[..LineLen(s)] + "\n" + CommentText(AfterLine(s), blankLines)
  }

  lemma SpacesShrink(s: string)
    requires s != "" && IsSpace(s[0])
    ensures |SkipSpaces(s)| < |s|
  {
  }

  /** What a scan finds: nothing more; a section; or a key with its value, and whether a section header
      without a closing bracket was skipped on the way. */
  datatype Entry =
    | Nothing
    | Header(name: string, rest: string)
    | Pair(key: string, val: Value, rest: string, unclosed: bool)

  /** A value; or, when the end tag stands on its first line, all the text behind the line of the key. */
  datatype Value = Exact(text: string) | RunsOn(text: string)

  function NextEntry(o: Options, s: string, unclosed: bool): (e: Entry)
    ensures e != Nothing ==> |e.rest| < |s|
    decreases |s|
  {
    var t := SkipSpaces(s);
    if t == "" then Nothing
    else if IsComment(t[0]) then NextEntry(o, CommentEnd(t, true), unclosed)
    else if t[0] == '[' then
      var u := SkipSpaces(t[1..]);
      var n := Until(u, ']');
      if n == |u| || u[n] != ']' then NextEntry(o, u[n..], true)
      else Header(TrimRight(u[..n]), u[n + 1..][LineLen(u[n + 1..])..])
    else
      var n := Until(t, '=');
      if n == |t| || t[n] != '=' then NextEntry(o, t[n..], unclosed)
      else if n == 0 then NextEntry(o, t[LineLen(t)..], unclosed)
      else ValueOf(o, TrimRight(t[..n]), SkipBlanks(t[n + 1..]), unclosed)
  }

  /** Everything scans find, one after the other. */
  function Scan(o: Options, s: string): seq<Entry>
    decreases |s|
  {
    var e := NextEntry(o, s, false);
    if e == Nothing then [] else [e] + Scan(o, e.rest)
  }

  /** The value that starts at v, for a key. */
  function ValueOf(o: Options, key: string, v: string, unclosed: bool): (e: Entry)
    ensures e != Nothing ==> |e.rest| <= |v|
  {
    var val := TrimRight(v[..LineLen(v)]);
    if o.multiLine && StartsWith(val, "<<<") then
      var b := TakeBlock(o.noCase, val[3..], AfterLine(v));
      if b.tagged && b.lines == [] then
        if val == "<<<" then Nothing else Pair(key, RunsOn(AfterLine(v)), b.rest, unclosed)
      else Pair(key, Exact(Join(b.lines)), b.rest, unclosed)
    else Pair(key, Exact(val), AfterLine(v), unclosed)
  }

  // ---------- the store ----------

  datatype KeyVal = KeyVal(key: string, val: string)

  datatype Section = Section(name: string, keys: seq<KeyVal>)

  /** Sections and their keys in load order. */
  type Store = seq<Section>

  function FindSection(noCase: bool, d: Store, name: string): (i: nat)
    ensures i <= |d|
  {
    if d == [] then 0 else if Same(noCase, d[0].name, name) then 0 else 1 + FindSection(noCase, d[1..], name)
  }

  function FindKey(noCase: bool, ks: seq<KeyVal>, key: string): (i: nat)
    ensures i <= |ks|
  {
    if ks == [] then 0 else if Same(noCase, ks[0].key, key) then 0 else 1 + FindKey(noCase, ks[1..], key)
  }

  function AddSection(noCase: bool, d: Store, name: string): Store {
    if FindSection(noCase, d, name) < |d| then d else d + [Section(name, [])]
  }

  function PutKey(noCase: bool, ks: seq<KeyVal>, key: string, val: string): seq<KeyVal> {
    var i := FindKey(noCase, ks, key);
    if i < |ks| then ks[i := KeyVal(ks[i].key, val)] else ks + [KeyVal(key, val)]
  }

  /** The section is created if necessary; an existing key keeps its place and its name. */
  function AddEntry(noCase: bool, d: Store, section: string, key: string, val: string): Store {
    var d' := AddSection(noCase, d, section);
    var i := FindSection(noCase, d', section);
    if i < |d'| then d'[i := Section(d'[i].name, PutKey(noCase, d'[i].keys, key, val))] else d'
  }

  /** Loads the text s into the store, in section sec. Nothing is promised for a text in which an
      end tag stands on the first line of its value, or a key follows an unclosed section header. */
  function LoadFrom(o: Options, d: Store, sec: string, s: string): Option<Store>
    decreases |s|
  {
    match NextEntry(o, s, false)
    case Nothing => Some(d)
    case Header(name, rest) => LoadFrom(o, AddSection(o.noCase, d, name), name, rest)
    case Pair(key, val, rest, unclosed) =>
      if val.RunsOn? || unclosed then None
      else LoadFrom(o, AddEntry(o.noCase, d, sec, key, val.text), sec, rest)
  }

  /** Loading starts behind the comment of the file. */
  function Load(o: Options, s: string): Option<Store> {
    LoadMore(o, [], false, s)
  }

  /** Loading on top of a store d; once a comment of a file is kept no other is looked for. */
  function LoadMore(o: Options, d: Store, commented: bool, s: string): Option<Store> {
    LoadFrom(o, d, "", if commented then s else CommentEnd(s, false))
  }

  // ---------- printing ----------

  const END_OF_TEXT := "END_OF_TEXT"

  /** The text needs the multi-line form: space at either end, or a line end inside. */
  predicate IsMultiLineData(v: string) {
    v != "" && (IsSpace(v[0]) || IsSpace(v[|v| - 1]) || exists i :: 0 <= i < |v| && IsNewLine(v[i]))
  }

  datatype Style = Style(newline: string, spaces: bool, multiLine: bool)

  function PrintLines(nl: string, lines: seq<string>): string {
    if lines == [] then "" else lines[0] + nl + PrintLines(nl, lines[1..])
  }

  function PrintValue(y: Style, v: string): string {
    if y.multiLine && IsMultiLineData(v)
      then "<<<" + END_OF_TEXT + y.newline + PrintLines(y.newline, Split(v)) + END_OF_TEXT + y.newline
    else v + y.newline
  }

  function PrintKeys(y: Style, ks: seq<KeyVal>): string {
    if ks == [] then ""
    else ks[0].key + (if y.spaces then " = " else "=") + PrintValue(y, ks[0].val) + PrintKeys(y, ks[1..])
  }

  function PrintSections(y: Style, d: Store, more: bool): string {
    if d == [] then ""
    else
      (if more then y.newline + y.newline else "")
      + (if d[0].name != "" then "[" + d[0].name + "]" + y.newline else "")
      + PrintKeys(y, d[0].keys) + PrintSections(y, d[1..], true)
  }

  function Print(y: Style, d: Store): string {
    PrintSections(y, d, false)
  }
}
