/** Printing a store and loading the text again. */
module IniRoundTrip {
  import opened Bytes
  import opened IniText

  // ---------- what can be written so that it can be read ----------

  predicate Trimmed(s: string) {
    s != "" ==> !IsSpace(s[0]) && !IsSpace(s[|s| - 1])
  }

  predicate OneLine(s: string) {
    forall i :: 0 <= i < |s| ==> !IsNewLine(s[i])
  }

  predicate NameOk(name: string) {
    Trimmed(name) && OneLine(name) && ']' !in name
  }

  predicate KeyOk(key: string) {
    key != "" && Trimmed(key) && OneLine(key) && '=' !in key && key[0] != ';' && key[0] != '#' && key[0] != '['
  }

  predicate ValueOk(o: Options, v: string) {
    if o.multiLine && IsMultiLineData(v) then
      '\r' !in v && forall i :: 0 <= i < |Split(v)| ==> !Same(o.noCase, Split(v)[i], END_OF_TEXT)
    else Trimmed(v) && OneLine(v) && (o.multiLine ==> !StartsWith(v, "<<<"))
  }

  predicate KeysOk(o: Options, ks: seq<KeyVal>) {
    && (forall i :: 0 <= i < |ks| ==> KeyOk(ks[i].key) && ValueOk(o, ks[i].val))
    && (forall i, j :: 0 <= i < j < |ks| ==> !Same(o.noCase, ks[i].key, ks[j].key))
  }

  /** Sections and keys are distinct, and a section without a name comes first and is not empty. */
  predicate Printable(o: Options, d: Store) {
    && (forall i :: 0 <= i < |d| ==> NameOk(d[i].name) && KeysOk(o, d[i].keys))
    && (forall i, j :: 0 <= i < j < |d| ==> !Same(o.noCase, d[i].name, d[j].name))
    && (forall i :: 0 <= i < |d| && d[i].name == "" ==> i == 0 && d[i].keys != [])
  }

  predicate IsNewLineText(nl: string) {
    nl == "\n" || nl == "\r\n"
  }

  predicate Matches(y: Style, o: Options) {
    IsNewLineText(y.newline) && y.multiLine == o.multiLine
  }

  // ---------- scanning a known piece of text ----------

  lemma {:induction false} LineLenIs(a: string, t: string)
    requires OneLine(a) && t != "" && IsNewLine(t[0])
    ensures LineLen(a + t) == |a| && (a + t)[..|a|] == a && (a + t)[|a|..] == t
    decreases |a|
  {
    if a == "" {
      assert a + t == t;
    } else {
      assert (a + t)[1..] == a[1..] + t;
      LineLenIs(a[1..], t);
    }
  }

  lemma {:induction false} UntilIs(a: string, c: char, t: string)
    requires OneLine(a) && c !in a && t != "" && t[0] == c
    ensures Until(a + t, c) == |a| && (a + t)[..|a|] == a && (a + t)[|a|..] == t
    decreases |a|
  {
    if a == "" {
      assert a + t == t;
    } else {
      assert a[0] in a && (a + t)[1..] == a[1..] + t;
      UntilIs(a[1..], c, t);
    }
  }

  lemma AfterLineIs(a: string, nl: string, t: string)
    requires OneLine(a) && IsNewLineText(nl)
    ensures LineLen(a + nl + t) == |a| && (a + nl + t)[..|a|] == a && AfterLine(a + nl + t) == t
  {
    var rest := nl + t;
    assert a + nl + t == a + rest;
    LineLenIs(a, rest);
    if nl == "\n" {
      assert rest[0] == '\n' && rest[1..] == t;
    } else {
      assert rest[0] == '\r' && rest[1] == '\n' && rest[2..] == t;
    }
  }

  lemma TrimmedStays(s: string)
    requires Trimmed(s)
    ensures TrimRight(s) == s && TrimRight(s + " ") == s
  {
    assert (s + " ")[..|s|] == s;
  }

  lemma {:induction false} SkipAll(w: string, t: string)
    requires forall i :: 0 <= i < |w| ==> IsSpace(w[i])
    ensures SkipSpaces(w + t) == SkipSpaces(t)
    decreases |w|
  {
    if w == "" {
      assert w + t == t;
    } else {
      assert (w + t)[1..] == w[1..] + t;
      SkipAll(w[1..], t);
    }
  }

  /** Space in front changes nothing. */
  lemma ScanSkips(o: Options, w: string, t: string, unclosed: bool)
    requires forall i :: 0 <= i < |w| ==> IsSpace(w[i])
    ensures NextEntry(o, w + t, unclosed) == NextEntry(o, t, unclosed)
  {
    SkipAll(w, t);
  }

  // ---------- headers ----------

  lemma ScanHeader(o: Options, name: string, nl: string, t: string)
    requires NameOk(name) && name != "" && IsNewLineText(nl)
    ensures NextEntry(o, "[" + name + "]" + nl + t, false) == Header(name, nl + t)
  {
    hide TrimRight, Until, LineLen, CommentEnd, ValueOf;
    var s := "[" + name + "]" + nl + t;
    var u, rest := s[1..], nl + t;
    assert SkipSpaces(s) == s && s[0] == '[';
    assert u == name + ("]" + rest) && SkipSpaces(u) == u;
    UntilIs(name, ']', "]" + rest);
    assert u[|name| + 1..] == rest;
    LineLenIs("", rest);
    assert "" + rest == rest;
    TrimmedStays(name);
  }

  // ---------- keys and values ----------

  function Separator(y: Style): string {
    if y.spaces then " = " else "="
  }

  lemma ScanKey(o: Options, y: Style, key: string, v: string)
    requires KeyOk(key) && v != "" && (IsSpace(v[0]) ==> IsNewLine(v[0]))
    ensures NextEntry(o, key + Separator(y) + v, false) == ValueOf(o, key, v, false)
  {
    hide NextEntry, TrimRight, SkipBlanks;
    TrimmedStays(key);
    BlankSkipped(v);
    if y.spaces {
      assert key + Separator(y) + v == key + " " + ("=" + (" " + v));
      ScanAssignment(o, key + " ", " " + v);
    } else {
      assert key + Separator(y) + v == key + ("=" + v);
      ScanAssignment(o, key, v);
    }
  }

  lemma BlankSkipped(v: string)
    requires v != "" && (IsSpace(v[0]) ==> IsNewLine(v[0]))
    ensures SkipBlanks(v) == v && SkipBlanks(" " + v) == v
  {
    assert (" " + v)[0] == ' ' && (" " + v)[1..] == v;
  }

  /** A line with a key in front of the first equals sign. */
  lemma ScanAssignment(o: Options, key: string, v: string)
    requires key != "" && OneLine(key) && '=' !in key
    requires !IsSpace(key[0]) && !IsComment(key[0]) && key[0] != '['
    ensures NextEntry(o, key + ("=" + v), false) == ValueOf(o, TrimRight(key), SkipBlanks(v), false)
  {
    hide TrimRight, SkipBlanks, Until, ValueOf, CommentEnd, LineLen;
    var s, rest := key + ("=" + v), "=" + v;
    assert s[0] == key[0] && SkipSpaces(s) == s;
    UntilIs(key, '=', rest);
    assert s[|key| + 1..] == s[|key|..][1..] == v;
  }

  lemma ScanSingle(o: Options, key: string, v: string, nl: string, t: string)
    requires IsNewLineText(nl) && Trimmed(v) && OneLine(v) && (o.multiLine ==> !StartsWith(v, "<<<"))
    ensures ValueOf(o, key, v + nl + t, false) == Pair(key, Exact(v), t, false)
  {
    AfterLineIs(v, nl, t);
    TrimmedStays(v);
  }

  lemma {:induction false} TakeLines(noCase: bool, lines: seq<string>, tag: string, nl: string, t: string)
    requires IsNewLineText(nl) && OneLine(tag)
    requires forall i :: 0 <= i < |lines| ==> OneLine(lines[i]) && !Same(noCase, lines[i], tag)
    ensures TakeBlock(noCase, tag, PrintLines(nl, lines) + tag + nl + t) == Block(lines, t, true)
    decreases |lines|
  {
    hide LineLen, AfterLine, Fold;
    var s := PrintLines(nl, lines) + tag + nl + t;
    if lines == [] {
      assert s == tag + nl + t;
      AfterLineIs(tag, nl, t);
    } else {
      var rest := PrintLines(nl, lines[1..]) + tag + nl + t;
      assert s == lines[0] + nl + rest;
      AfterLineIs(lines[0], nl, rest);
      TakeLines(noCase, lines[1..], tag, nl, t);
      assert [lines[0]] + lines[1..] == lines;
    }
  }

  lemma ScanMulti(o: Options, key: string, v: string, nl: string, t: string)
    requires IsNewLineText(nl) && o.multiLine && IsMultiLineData(v) && ValueOk(o, v)
    ensures ValueOf(o, key, "<<<" + END_OF_TEXT + nl + PrintLines(nl, Split(v)) + END_OF_TEXT + nl + t, false)
         == Pair(key, Exact(v), t, false)
  {
    hide LineLen, AfterLine, TrimRight, PrintLines, TakeBlock, Split, Join, Same;
    var first, rest := "<<<" + END_OF_TEXT, PrintLines(nl, Split(v)) + END_OF_TEXT + nl + t;
    assert "<<<" + END_OF_TEXT + nl + PrintLines(nl, Split(v)) + END_OF_TEXT + nl + t == first + nl + rest;
    AfterLineIs(first, nl, rest);
    TrimmedStays(first);
    assert first[3..] == END_OF_TEXT && first[..3] == "<<<";
    SplitHasLines(v);
    TakeLines(o.noCase, Split(v), END_OF_TEXT, nl, t);
    JoinOfSplit(v);
  }

  /** A printed key and value are found again, whatever follows. */
  lemma ScanPair(o: Options, y: Style, key: string, v: string, t: string)
    requires Matches(y, o) && KeyOk(key) && ValueOk(o, v)
    ensures NextEntry(o, key + Separator(y) + PrintValue(y, v) + t, false) == Pair(key, Exact(v), t, false)
  {
    var text := PrintValue(y, v) + t;
    assert key + Separator(y) + PrintValue(y, v) + t == key + Separator(y) + text;
    if y.multiLine && IsMultiLineData(v) {
      assert text == "<<<" + END_OF_TEXT + y.newline + PrintLines(y.newline, Split(v)) + END_OF_TEXT + y.newline + t;
      ScanMulti(o, key, v, y.newline, t);
    } else {
      assert text == v + y.newline + t;
      ScanSingle(o, key, v, y.newline, t);
    }
    ScanKey(o, y, key, text);
  }

  /** A value between a tag and its end: the lines before the end tag, exactly if there are any. With the
      end tag on the first line the value is all the text behind the line of the key. */
  lemma ScanTagged(o: Options, y: Style, key: string, tag: string, lines: seq<string>, t: string)
    requires o.multiLine && KeyOk(key) && tag != "" && OneLine(tag) && Trimmed(tag) && IsNewLineText(y.newline)
    requires forall i :: 0 <= i < |lines| ==> OneLine(lines[i]) && !Same(o.noCase, lines[i], tag)
    ensures var rest := PrintLines(y.newline, lines) + tag + y.newline + t;
            NextEntry(o, key + Separator(y) + ("<<<" + tag + y.newline + rest), false)
            == Pair(key, if lines == [] then RunsOn(rest) else Exact(Join(lines)), t, false)
  {
    hide LineLen, AfterLine, TrimRight, PrintLines, TakeBlock, Join, Same, NextEntry;
    var rest := PrintLines(y.newline, lines) + tag + y.newline + t;
    var first := "<<<" + tag;
    AfterLineIs(first, y.newline, rest);
    TrimmedStays(first);
    assert first[3..] == tag && first[..3] == "<<<";
    TakeLines(o.noCase, lines, tag, y.newline, t);
    ScanKey(o, y, key, first + y.newline + rest);
  }

  // ---------- whole texts ----------

  lemma LoadSkips(o: Options, d: Store, sec: string, w: string, t: string)
    requires forall i :: 0 <= i < |w| ==> IsSpace(w[i])
    ensures LoadFrom(o, d, sec, w + t) == LoadFrom(o, d, sec, t)
  {
    ScanSkips(o, w, t, false);
  }

  lemma {:induction false} NotFound(noCase: bool, d: Store, name: string)
    requires forall i :: 0 <= i < |d| ==> !Same(noCase, d[i].name, name)
    ensures FindSection(noCase, d, name) == |d|
    decreases |d|
  {
    if d != [] {
      NotFound(noCase, d[1..], name);
    }
  }

  lemma {:induction false} FoundLast(noCase: bool, d: Store, x: Section)
    requires forall i :: 0 <= i < |d| ==> !Same(noCase, d[i].name, x.name)
    ensures FindSection(noCase, d + [x], x.name) == |d|
    decreases |d|
  {
    if d != [] {
      assert (d + [x])[1..] == d[1..] + [x];
      FoundLast(noCase, d[1..], x);
    }
  }

  lemma {:induction false} KeyNotFound(noCase: bool, ks: seq<KeyVal>, key: string)
    requires forall i :: 0 <= i < |ks| ==> !Same(noCase, ks[i].key, key)
    ensures FindKey(noCase, ks, key) == |ks|
    decreases |ks|
  {
    if ks != [] {
      KeyNotFound(noCase, ks[1..], key);
    }
  }

  /** Adding a new key to the last section. */
  lemma AddToLast(noCase: bool, d: Store, name: string, ks: seq<KeyVal>, kv: KeyVal)
    requires forall i :: 0 <= i < |d| ==> !Same(noCase, d[i].name, name)
    requires forall i :: 0 <= i < |ks| ==> !Same(noCase, ks[i].key, kv.key)
    ensures AddEntry(noCase, d + [Section(name, ks)], name, kv.key, kv.val) == d + [Section(name, ks + [kv])]
  {
    var d' := d + [Section(name, ks)];
    FoundLast(noCase, d, Section(name, ks));
    KeyNotFound(noCase, ks, kv.key);
    assert d'[|d| := Section(name, ks + [kv])] == d + [Section(name, ks + [kv])];
  }

  /** One key of the last section. */
  lemma LoadPair(o: Options, y: Style, d: Store, name: string, done: seq<KeyVal>, kv: KeyVal, t: string)
    requires Matches(y, o) && KeyOk(kv.key) && ValueOk(o, kv.val)
    requires forall i :: 0 <= i < |d| ==> !Same(o.noCase, d[i].name, name)
    requires forall i :: 0 <= i < |done| ==> !Same(o.noCase, done[i].key, kv.key)
    ensures LoadFrom(o, d + [Section(name, done)], name, kv.key + Separator(y) + PrintValue(y, kv.val) + t)
         == LoadFrom(o, d + [Section(name, done + [kv])], name, t)
  {
    hide NextEntry, AddEntry, KeyOk, ValueOk, PrintValue, Same;
    ScanPair(o, y, kv.key, kv.val, t);
    AddToLast(o.noCase, d, name, done, kv);
  }

  /** The keys of the last section are loaded one after the other. */
  lemma {:induction false} LoadKeys(o: Options, y: Style, d: Store, name: string, done: seq<KeyVal>, ks: seq<KeyVal>, t: string)
    requires Matches(y, o) && KeysOk(o, done + ks)
    requires forall i :: 0 <= i < |d| ==> !Same(o.noCase, d[i].name, name)
    ensures LoadFrom(o, d + [Section(name, done)], name, PrintKeys(y, ks) + t)
         == LoadFrom(o, d + [Section(name, done + ks)], name, t)
    decreases |ks|
  {
    hide LoadFrom, KeyOk, ValueOk, PrintValue, Same;
    if ks == [] {
      assert PrintKeys(y, ks) + t == t && done + ks == done;
    } else {
      var kv, more := ks[0], PrintKeys(y, ks[1..]) + t;
      assert (done + ks)[|done|] == kv;
      assert PrintKeys(y, ks) + t == kv.key + Separator(y) + PrintValue(y, kv.val) + more;
      forall i | 0 <= i < |done| ensures !Same(o.noCase, done[i].key, kv.key) {
        assert (done + ks)[i] == done[i];
      }
      LoadPair(o, y, d, name, done, kv, more);
      assert done + [kv] + ks[1..] == done + ks;
      LoadKeys(o, y, d, name, done + [kv], ks[1..], t);
    }
  }

  /** The sections are loaded one after the other. */
  lemma {:induction false} LoadSections(o: Options, y: Style, done: Store, d: Store, sec: string)
    requires Matches(y, o) && Printable(o, done + d)
    requires done == [] ==> sec == ""
    ensures LoadFrom(o, done, sec, PrintSections(y, d, done != [])) == Some(done + d)
    decreases |d|
  {
    if d == [] {
      assert done + d == done;
    } else {
      var x := d[0];
      assert (done + d)[|done|] == x;
      forall i | 0 <= i < |done| ensures !Same(o.noCase, done[i].name, x.name) {
        assert (done + d)[i] == done[i];
      }
      assert done + [x] + d[1..] == done + d;
      LoadSections(o, y, done + [x], d[1..], x.name);
      LoadSection(o, y, done, x, d[1..], sec);
    }
  }

  /** A header creates its section. */
  lemma LoadHeader(o: Options, d: Store, sec: string, name: string, nl: string, t: string)
    requires NameOk(name) && name != "" && IsNewLineText(nl)
    requires forall i :: 0 <= i < |d| ==> !Same(o.noCase, d[i].name, name)
    ensures LoadFrom(o, d, sec, "[" + name + "]" + nl + t) == LoadFrom(o, d + [Section(name, [])], name, t)
  {
    hide NextEntry, Same;
    ScanHeader(o, name, nl, t);
    NotFound(o.noCase, d, name);
    LoadSkips(o, d + [Section(name, [])], name, nl, t);
  }

  /** One section in front of the others. */
  lemma LoadSection(o: Options, y: Style, done: Store, x: Section, others: Store, sec: string)
    requires Matches(y, o) && NameOk(x.name) && KeysOk(o, x.keys)
    requires forall i :: 0 <= i < |done| ==> !Same(o.noCase, done[i].name, x.name)
    requires if x.name == "" then done == [] && x.keys != [] && sec == "" else true
    ensures LoadFrom(o, done, sec, PrintSections(y, [x] + others, done != []))
         == LoadFrom(o, done + [x], x.name, PrintSections(y, others, true))
  {
    hide LoadFrom, KeysOk, NameOk, Same, PrintKeys;
    var t := PrintSections(y, others, true);
    var body := PrintKeys(y, x.keys) + t;
    assert ([x] + others)[1..] == others;
    if x.name != "" {
      var w := if done != [] then y.newline + y.newline else "";
      var head := "[" + x.name + "]" + y.newline + body;
      assert PrintSections(y, [x] + others, done != []) == w + head;
      LoadSkips(o, done, sec, w, head);
      LoadHeader(o, done, sec, x.name, y.newline, body);
      assert [] + x.keys == x.keys;
      LoadKeys(o, y, done, x.name, [], x.keys, t);
    } else {
      assert PrintSections(y, [x] + others, false) == body && done + [x] == [x];
      LoadNameless(o, y, x, t);
    }
  }

  /** The first key of a section without a name creates the section. */
  lemma LoadNameless(o: Options, y: Style, x: Section, t: string)
    requires Matches(y, o) && x.name == "" && KeysOk(o, x.keys) && x.keys != []
    ensures LoadFrom(o, [], "", PrintKeys(y, x.keys) + t) == LoadFrom(o, [x], "", t)
  {
    var kv, more := x.keys[0], PrintKeys(y, x.keys[1..]) + t;
    assert PrintKeys(y, x.keys) + t == kv.key + Separator(y) + PrintValue(y, kv.val) + more;
    ScanPair(o, y, kv.key, kv.val, more);
    AddToLast(o.noCase, [], "", [], kv);
    assert [] + [Section("", [])] == [Section("", [])] && [] + [kv] == [kv];
    assert AddEntry(o.noCase, [], "", kv.key, kv.val) == [Section("", [kv])];
    assert [kv] + x.keys[1..] == x.keys;
    LoadKeys(o, y, [], "", [kv], x.keys[1..], t);
    assert [] + [Section("", [kv])] == [Section("", [kv])] && [] + [Section("", x.keys)] == [x];
  }

  /** Loading the printed text of a store gives the same sections, keys and values in the same order. */
  lemma LoadOfPrint(o: Options, y: Style, d: Store)
    requires Matches(y, o) && Printable(o, d)
    ensures Load(o, Print(y, d)) == Some(d)
  {
    assert [] + d == d;
    LoadSections(o, y, [], d, "");
    FirstIsNoComment(o, y, d);
  }

  lemma FirstIsNoComment(o: Options, y: Style, d: Store)
    requires Printable(o, d)
    ensures CommentEnd(Print(y, d), false) == Print(y, d)
  {
    var s := Print(y, d);
    if d != [] && d[0].name == "" {
      assert s[0] == d[0].keys[0].key[0];
    } else if d != [] {
      assert s[0] == '[';
    }
  }

  /** Printing again after loading gives the identical text. */
  lemma PrintIsStable(o: Options, y: Style, d: Store)
    requires Matches(y, o) && Printable(o, d)
    ensures Load(o, Print(y, d)).Some? && Print(y, Load(o, Print(y, d)).value) == Print(y, d)
  {
    LoadOfPrint(o, y, d);
  }
}
