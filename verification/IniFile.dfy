/** The INI store: loading a text through the in-place parser, and saving. */
module IniFile {
  import opened Bytes
  import opened IniText
  import opened IniBuffer
  import opened IniStore
  import opened IniRoundTrip

  /** The text starts with a comment. */
  predicate HasFileComment(s: string) {
    |CommentEnd(s, false)| < |s|
  }

  /** A text ends at its first NUL. */
  function BeforeNil(s: string): (t: string)
    ensures t <= s && NIL !in t && (|t| < |s| ==> s[|t|] == NIL)
  {
    if s == "" || s[0] == NIL then "" else [s[0]] + BeforeNil(s[1..])
  }

  class SimpleIni {
    var data: Entries<Keys>
    var nOrder: nat
    var commented: bool            // a comment of a file is kept
    ghost var listing: Listing
    const o: Options
    const y: Style

    ghost predicate Valid()
      reads this`data, this`nOrder, this`listing
    {
      Describes(o.noCase, data, nOrder, listing)
    }

    /** Sections, keys and values in load order. */
    ghost function Contents(): Store
      requires Valid()
      reads this`data, this`nOrder, this`listing
    {
      Ordered(listing)
    }

    constructor (noCase: bool, multiLine: bool, newline: string, spaces: bool)
      requires IsNewLineText(newline)
      ensures Valid() && Contents() == [] && !commented && nOrder == 0 && o == Options(noCase, multiLine) && y == Style(newline, spaces, multiLine)
    {
      data, nOrder, listing, commented := map[], 0, Listing([], []), false;
      o, y := Options(noCase, multiLine), Style(newline, spaces, multiLine);
    }

    /** Adds a section if it is new, and a key with its value if there is one. */
    method Add(section: string, item: Option<KeyVal>) returns (inserted: bool)
      requires Valid()
      modifies this
      ensures Valid() && commented == old(commented)
      ensures Contents() == if item == None then AddSection(o.noCase, old(Contents()), section)
                            else AddEntry(o.noCase, old(Contents()), section, item.value.key, item.value.val)
      ensures var d := old(Contents());
              var i := FindSection(o.noCase, d, section);
              inserted <==> i == |d|
                            || (item.Some? && FindKey(o.noCase, d[i].keys, item.value.key) == |d[i].keys|)
    {
      hide FindSection, FindKey, AddSection, PutKey, Describes, Ordered, Fold;
      inserted := AddSectionEntry(section);
      AddedSection(o.noCase, old(Contents()), section);
      if item.Some? {
        var newKey := AddKeyEntry(section, item.value.key, item.value.val);
        inserted := inserted || newKey;
      }
    }

    /** Creates the section if necessary. */
    method AddSectionEntry(section: string) returns (inserted: bool)
      requires Valid()
      modifies this
      ensures Valid() && commented == old(commented) && Contents() == AddSection(o.noCase, old(Contents()), section)
      ensures inserted <==> FindSection(o.noCase, old(Contents()), section) == |old(Contents())|
      ensures Fold(o.noCase, section) in data
    {
      hide Describes, Ordered, Fold;
      ghost var i := LookUp(o.noCase, data, nOrder, listing, section);
      var k := Fold(o.noCase, section);
      inserted := k !in data;
      SameLength(o.noCase, data, nOrder, listing);
      if inserted {
        listing := NewSection(o.noCase, data, nOrder, listing, section);
        nOrder := nOrder + 1;
        data := data[k := Item(section, nOrder, map[])];
      }
    }

    /** Sets a key of a section that is there. */
    method AddKeyEntry(section: string, key: string, val: string) returns (inserted: bool)
      requires Valid() && Fold(o.noCase, section) in data
      modifies this
      ensures Valid() && commented == old(commented) && Contents() == AddEntry(o.noCase, old(Contents()), section, key, val)
      ensures inserted <==> IsNewKey(o.noCase, old(Contents()), section, key)
    {
      hide Describes, Ordered, Fold, AddEntry, IsNewKey;
      var keys := data[Fold(o.noCase, section)].held;
      NewKeyOf(o.noCase, data, nOrder, listing, section, key);
      listing := NewEntry(o.noCase, data, nOrder, listing, section, key, val);
      nOrder := nOrder + 1;
      var k := Fold(o.noCase, key);
      inserted := k !in keys;
      if inserted {
        keys := keys[k := Item(key, nOrder, "")];
      }
      ghost var was := data[Fold(o.noCase, section)].held;
      keys := keys[k := keys[k].(held := val)];
      assert keys == SetKey(o.noCase, was, nOrder, key, val);
      data := data[Fold(o.noCase, section) := data[Fold(o.noCase, section)].(held := keys)];
    }

    /** The value of a key in a section, if there is one. */
    method GetValue(section: string, key: string) returns (r: Option<string>)
      requires Valid()
      ensures r == ValueIn(o.noCase, Contents(), section, key)
    {
      hide Fold, Lists;
      ghost var i := LookUp(o.noCase, data, nOrder, listing, section);
      if Fold(o.noCase, section) !in data {
        return None;
      }
      var keys := data[Fold(o.noCase, section)].held;
      ghost var j := LookUpKey(o.noCase, keys, listing.keys[i], key);
      if Fold(o.noCase, key) !in keys {
        return None;
      }
      return Some(keys[Fold(o.noCase, key)].held);
    }

    /** Copies the text into a buffer of its own and parses it there, adding what is found to what is
        stored. At the end the strings added still stand in the buffer, at the places where they were
        found, but for values that ran on. */
    method LoadData(text: string) returns (ghost b: seq<char>, ghost adds: seq<Added>)
      requires Valid()
      modifies this
      ensures Valid() && (commented <==> old(commented) || HasFileComment(BeforeNil(text)))
      ensures var t := BeforeNil(text);
              var s := if old(commented) then t else CommentEnd(t, false);
              Fits(None, Scan(o, s), adds) && Contents() == AddAll(o.noCase, old(Contents()), adds)
      ensures var r := LoadMore(o, old(Contents()), old(commented), BeforeNil(text));
              r.Some? ==> Contents() == r.value && AllWhole(adds)
      ensures |b| == |text| + 1 && Stand(b, adds)
    {
      hide Contents, CommentEnd, LoadFrom, Scan, AddAll, Fits, Stand;
      var buf := new char[|text| + 1](i requires 0 <= i < |text| + 1 => if i < |text| then text[i] else NIL);
      ghost var t := BeforeNil(text);
      ghost var end := |t|;
      assert buf[..][0..end] == t;
      var p := 0;
      if !commented {
        commented, p := LoadComment(o, buf, 0, end, false);
      }
      ghost var s := buf[p..end];
      adds := LoadEntries(buf, p, end);
      LoadIsAddAll(o, old(Contents()), None, s, adds);
      b := buf[..];
    }

    method LoadEntries(buf: array<char>, p0: nat, ghost end: nat) returns (ghost adds: seq<Added>)
      requires Valid()
      requires p0 <= end < buf.Length && Unread(buf[..], p0, end, buf[p0..end])
      modifies this, buf
      ensures Valid() && commented == old(commented)
      ensures Fits(None, Scan(o, old(buf[p0..end])), adds) && Contents() == AddAll(o.noCase, old(Contents()), adds)
      ensures Stand(buf[..], adds)
    {
      hide NextEntry, AddEntry, AddSection, Reports, Describes, Ordered, Unread, StringAt, AllStand, Scan;
      var section: Option<nat>, p, more := None, p0, true;
      ghost var all, done := Scan(o, buf[p0..end]), [];
      adds := [];
      NothingStands(buf[..], p0, end);
      assert [] + all == all;
      while more
        invariant Valid() && commented == old(commented)
        invariant 0 <= p <= end && (more ==> Unread(buf[..], p, end, buf[p..end]))
        invariant all == if more then done + Scan(o, buf[p..end]) else done
        invariant Fits(None, done, adds) && Contents() == AddAll(o.noCase, old(Contents()), adds)
        invariant AllStand(buf[..], adds, p, end) && section == PlaceIn(SectionAfter(None, adds))
        decreases more, end - p
      {
        ghost var e := NextEntry(o, buf[p..end], false);
        ScanStep(o, buf[p..end]);
        ghost var a;
        more, section, p, a := LoadNext(buf, section, SectionAfter(None, adds), p, end, adds);
        if more {
          assert done + ([e] + Scan(o, e.rest)) == done + [e] + Scan(o, e.rest);
          AddAllSnoc(o.noCase, old(Contents()), adds, a);
          FitsSnoc(None, done, adds, e, a);
          adds, done := adds + [a], done + [e];
        } else {
          assert done + [] == done;
        }
      }
      StandAtLast(buf[..], adds, p, end);
    }

    /** One entry. */
    method LoadNext(buf: array<char>, sec: Option<nat>, ghost before: Option<Placed>, p0: nat, ghost end: nat, ghost adds: seq<Added>)
      returns (more: bool, section: Option<nat>, p: nat, ghost a: Added)
      requires p0 <= end < buf.Length && Unread(buf[..], p0, end, buf[p0..end])
      requires Valid() && AllStand(buf[..], adds, p0, end) && before == SectionAfter(None, adds) && sec == PlaceIn(before)
      modifies this, buf
      ensures Valid() && commented == old(commented)
      ensures var e := NextEntry(o, old(buf[p0..end]), false);
              && (more <==> e != Nothing)
              && (more ==>
                    && p0 < p <= end && Unread(buf[..], p, end, buf[p..end]) && buf[p..end] == e.rest
                    && FitsOne(before, e, a) && Contents() == AddOne(o.noCase, old(Contents()), a)
                    && section == PlaceIn(SectionOf(a)) && AllStand(buf[..], adds + [a], p, end))
              && (!more ==>
                    p == p0 && section == sec && Contents() == old(Contents()) && AllStand(buf[..], adds, p, end))
    {
      hide NextEntry, AddEntry, AddSection, Describes, Ordered, AllStand;
      ghost var b, t := buf[..], buf[p0..end];
      ghost var e := NextEntry(o, t, false);
      SectionStands(b, adds, p0, end);
      var f, header;
      f, p, header := FindEntry(o, buf, p0, end);
      more, section, a := f != NoEntry, sec, SectionAdded(Placed(0, ""));
      match f {
        case NoEntry =>
          p := p0;
          StandOn(b, buf[..], p0, p0, end, adds);
        case SectionAt(at) =>
          StandOn(b, buf[..], p0, p, end, adds);
          var name := ReadString(buf, at, e.name);
          section := Some(at);
          a := SectionAdded(Placed(at, name));
          StandOne(buf[..], adds, a, p, end);
          var _ := Add(name, None);
        case PairAt(k, v) =>
          StandOn(b, buf[..], p0, p, end, adds);
          section, a := LoadPair(buf, sec, before, header, k, v, e, b, p0, p, end);
          StandOne(buf[..], adds, a, p, end);
      }
    }

    /** A key with its value, both in their places. */
    method LoadPair(buf: array<char>, sec: Option<nat>, ghost before: Option<Placed>, header: Option<nat>, k: nat, v: nat,
                    ghost e: Entry, ghost b: seq<char>, ghost p0: nat, ghost p: nat, ghost end: nat)
      returns (section: Option<nat>, ghost a: Added)
      requires Valid() && sec == PlaceIn(before) && OnlyWithin(b, buf[..], p0, end) && p0 <= p <= end < buf.Length
      requires e.Pair? && Reports(e, PairAt(k, v), buf[..], p0, p, end)
      requires (header.Some? <==> e.unclosed) && (header.Some? ==> header.value <= k)
      requires before.Some? ==> StandsAt(b, before.value) && Passed(before.value.at, before.value.text, p0, end)
      modifies this
      ensures Valid() && commented == old(commented)
      ensures FitsOne(before, e, a) && Contents() == AddOne(o.noCase, old(Contents()), a)
      ensures section == PlaceIn(SectionOf(a)) && Stands(buf[..], a) && PassedAll(a, p, end)
    {
      hide AddEntry, AddSection, Describes, Ordered, StringAt, OnlyWithin;
      assert buf[end] == NIL by {
        EndOfText(buf[..], p, end, e.rest);
      }
      var key := ReadString(buf, k, e.key);
      var val := ReadToNul(buf, v, end);
      StringIsUnique(buf[..], v, val, e.val.text);
      section := if header.Some? then header else sec;
      var name := "";
      if section.Some? {
        name := ReadToNul(buf, section.value, end);
      }
      ghost var s := SectionRead(b, buf[..], p0, p, end, before, header, section, name, k, key);
      a := PairAdded(s, Placed(k, key), Placed(v, val), e.val.Exact?);
      var _ := Add(name, Some(KeyVal(key, val)));
    }

    // ---------- saving ----------

    /** Space at either end, or a line end inside. */
    method IsMultiLine(v: string) returns (r: bool)
      ensures r == IsMultiLineData(v)
    {
      if v == "" {
        return false;
      }
      if IsSpace(v[0]) {
        return true;
      }
      var i := 0;
      while i < |v|
        invariant i <= |v| && forall j :: 0 <= j < i ==> !IsNewLine(v[j])
      {
        if IsNewLine(v[i]) {
          return true;
        }
        i := i + 1;
      }
      return IsSpace(v[i - 1]);
    }

    /** Writes a text line by line, with the line ends of the system. */
    method OutputMultiLineText(text: string) returns (out: string)
      ensures out == if text == "" then "" else PrintLines(y.newline, Split(text))
    {
      hide PrintLines, Split;
      out := "";
      var i, more := 0, text != "";
      ghost var done: seq<string> := [];
      PrintNothing(y.newline);
      assert text[0..] == text && [] + Split(text) == Split(text);
      while more
        invariant i <= |text| && out == PrintLines(y.newline, done)
        invariant text != "" ==> Split(text) == if more then done + Split(text[i..]) else done
        invariant text == "" ==> !more && out == ""
        decreases more, |text| - i
      {
        var j := LineFrom(text, i);
        ghost var line := text[i..j];
        FirstLineOf(text, i, j);
        PrintAppend(y.newline, done, line);
        out := out + text[i..j] + y.newline;
        more := j < |text|;
        assert done + ([line] + Split(text[(if more then j + 1 else j)..])) == done + [line] + Split(text[(if more then j + 1 else j)..]);
        done := done + [line];
        i := if more then j + 1 else j;
      }
    }

    /** The place of the next newline, or of the end. */
    method LineFrom(text: string, i: nat) returns (j: nat)
      requires i <= |text|
      ensures i <= j <= |text| && '\n' !in text[i..j] && (j < |text| ==> text[j] == '\n')
    {
      j := i;
      while j < |text| && text[j] != '\n'
        invariant i <= j <= |text| && '\n' !in text[i..j]
      {
        assert text[i..j + 1] == text[i..j] + [text[j]];
        j := j + 1;
      }
    }

    /** Writes the keys of a section in load order. */
    method SaveKeys(keys: Keys, ghost listed: seq<Item<string>>) returns (out: string)
      requires Lists(o.noCase, keys, listed)
      ensures out == PrintKeys(y, KeyVals(listed))
    {
      hide Lists;
      var l := SortByOrder(o.noCase, keys, listed);
      ghost var ks := KeyVals(l);
      out := "";
      assert ks[0..] == ks && "" + PrintKeys(y, ks) == PrintKeys(y, ks);
      for j := 0 to |l|
        invariant out + PrintKeys(y, ks[j..]) == PrintKeys(y, ks)
      {
        assert ks[j..][0] == ks[j] && ks[j..][1..] == ks[j + 1..];
        ghost var before := out;
        out := out + l[j].name;
        out := out + (if y.spaces then " = " else "=");
        var value := SaveValue(l[j].held);
        out := out + value;
        Regroup(before, l[j].name, Separator(y), value, PrintKeys(y, ks[j + 1..]));
      }
      assert out + "" == out;
    }

    method SaveValue(v: string) returns (out: string)
      ensures out == PrintValue(y, v)
    {
      hide PrintLines, Split;
      var multi := IsMultiLine(v);
      if y.multiLine && multi {
        var text := OutputMultiLineText(v);
        out := "<<<" + END_OF_TEXT + y.newline;
        out := out + text + END_OF_TEXT + y.newline;
      } else {
        out := v + y.newline;
      }
    }

    /** Writes a section, with its header unless it has no name. */
    method SaveSection(s: Item<Keys>, ghost listed: seq<Item<string>>) returns (out: string)
      requires Lists(o.noCase, s.held, listed)
      ensures out == PrintHead(y, s.name) + PrintKeys(y, KeyVals(listed))
    {
      hide PrintKeys, Lists, KeyVals;
      out := "";
      if s.name != "" {
        out := out + "[";
        out := out + s.name;
        out := out + "]";
        out := out + y.newline;
      }
      assert out == PrintHead(y, s.name);
      var keys := SaveKeys(s.held, listed);
      out := out + keys;
    }

    /** Writes all sections in load order. */
    method Save() returns (out: string)
      requires Valid()
      ensures out == Print(y, Contents())
    {
      hide PrintKeys, Lists, KeyVals, PrintHead;
      var l := SortByOrder(o.noCase, data, listing.sections);
      ghost var d := Contents();
      out := "";
      var needNewLine := false;
      assert d[0..] == d && "" + Print(y, d) == Print(y, d);
      for i := 0 to |l|
        invariant needNewLine == (i > 0)
        invariant out + PrintSections(y, d[i..], i > 0) == Print(y, d)
      {
        PrintFirst(y, d[i..], i > 0);
        assert d[i..][0] == d[i] && d[i..][1..] == d[i + 1..];
        ghost var before := out;
        if needNewLine {
          out := out + y.newline;
          out := out + y.newline;
        }
        ghost var gap := if needNewLine then y.newline + y.newline else "";
        assert out == before + gap;
        var section := SaveSection(l[i], listing.keys[i]);
        out := out + section;
        RegroupThree(before, gap, section, PrintSections(y, d[i + 1..], true));
        needNewLine := true;
      }
      assert out + "" == out;
    }

    /** What is saved loads into the same sections, keys and values, and saves as the same text. */
    method Reload() returns (again: SimpleIni, text: string, text': string)
      requires Valid() && Printable(o, Contents()) && NilFree(Contents())
      requires y.multiLine == o.multiLine && IsNewLineText(y.newline)
      ensures again.Valid() && again.Contents() == Contents() && text' == text
    {
      hide *;
      text := Save();
      again := new SimpleIni(o.noCase, o.multiLine, y.newline, y.spaces);
      LikeOptions(o, y);
      LoadOfPrint(o, y, Contents());
      PrintIsNilFree(y, Contents(), false);
      PrintIsSections(y, Contents());
      NilFreeText(text);
      LoadsFirst(o, text);
      ghost var _, _ := again.LoadData(text);
      text' := again.Save();
    }
  }

  /** The section has no such key. */
  predicate IsNewKey(noCase: bool, d: Store, section: string, key: string) {
    var i := FindSection(noCase, d, section);
    i == |d| || FindKey(noCase, d[i].keys, key) == |d[i].keys|
  }

  lemma SameLength(noCase: bool, data: Entries<Keys>, n: nat, g: Listing)
    requires Describes(noCase, data, n, g)
    ensures |g.keys| == |g.sections| && |Ordered(g)| == |g.sections|
  {
  }

  /** Adding a section leaves the place of one that is there, and puts a new one last, without keys. */
  lemma {:induction false} AddedSection(noCase: bool, d: Store, section: string)
    ensures var i := FindSection(noCase, d, section);
            var d' := AddSection(noCase, d, section);
            FindSection(noCase, d', section) == i && i < |d'| && AddSection(noCase, d', section) == d'
            && (i < |d| ==> d' == d)
    decreases |d|
  {
    hide Same;
    if d == [] {
      SameItself(noCase, section);
    } else {
      AddedSection(noCase, d[1..], section);
      assert (d + [Section(section, [])])[1..] == d[1..] + [Section(section, [])];
    }
  }

  lemma SameItself(noCase: bool, s: string)
    ensures Same(noCase, s, s)
  {
  }

  lemma NewKeyOf(noCase: bool, data: Entries<Keys>, n: nat, g: Listing, section: string, key: string)
    requires Describes(noCase, data, n, g) && Fold(noCase, section) in data
    ensures Fold(noCase, key) !in data[Fold(noCase, section)].held <==> IsNewKey(noCase, Ordered(g), section, key)
  {
    hide Fold, Lists;
    var i := LookUp(noCase, data, n, g, section);
    var j := LookUpKey(noCase, g.sections[i].held, g.keys[i], key);
  }

  function PrintHead(y: Style, name: string): string {
    if name != "" then "[" + name + "]" + y.newline else ""
  }

  lemma PrintFirst(y: Style, d: Store, more: bool)
    requires d != []
    ensures PrintSections(y, d, more)
         == (if more then y.newline + y.newline else "") + (PrintHead(y, d[0].name) + PrintKeys(y, d[0].keys))
            + PrintSections(y, d[1..], true)
  {
    hide PrintKeys;
    var gap := if more then y.newline + y.newline else "";
    Pairing(gap, PrintHead(y, d[0].name), PrintKeys(y, d[0].keys), PrintSections(y, d[1..], true));
  }

  lemma Pairing(a: string, b: string, c: string, d: string)
    ensures a + b + c + d == a + (b + c) + d
  {
  }

  lemma RegroupThree(a: string, b: string, c: string, d: string)
    ensures a + b + c + d == a + (b + c + d)
  {
  }

  lemma Regroup(a: string, b: string, c: string, d: string, e: string)
    ensures a + b + c + d + e == a + (b + c + d + e)
  {
  }

  lemma FirstLineOf(text: string, i: nat, j: nat)
    requires i <= j <= |text| && '\n' !in text[i..j] && (j < |text| ==> text[j] == '\n')
    ensures Split(text[i..]) == if j < |text| then [text[i..j]] + Split(text[j + 1..]) else [text[i..j]]
  {
    hide Split;
    assert text[i..][..j - i] == text[i..j];
    SplitFirst(text[i..], j - i);
    if j < |text| {
      assert text[i..][j - i + 1..] == text[j + 1..];
    }
  }

  lemma PrintNothing(nl: string)
    ensures PrintLines(nl, []) == ""
  {
  }

  lemma {:induction false} PrintAppend(nl: string, lines: seq<string>, line: string)
    ensures PrintLines(nl, lines + [line]) == PrintLines(nl, lines) + line + nl
    decreases |lines|
  {
    if lines == [] {
      assert lines + [line] == [line] && [line][1..] == [];
      assert line + nl + "" == line + nl == "" + line + nl;
    } else {
      assert (lines + [line])[1..] == lines[1..] + [line];
      PrintAppend(nl, lines[1..], line);
    }
  }

  lemma PrintIsSections(y: Style, d: Store)
    ensures Print(y, d) == PrintSections(y, d, false)
  {
  }

  lemma LikeOptions(o: Options, y: Style)
    requires y.multiLine == o.multiLine && IsNewLineText(y.newline)
    ensures Options(o.noCase, o.multiLine) == o && Style(y.newline, y.spaces, o.multiLine) == y && Matches(y, o)
  {
  }

  lemma LoadsFirst(o: Options, s: string)
    ensures Load(o, s) == LoadMore(o, [], false, s)
  {
    hide LoadMore;
  }

  lemma NilFreeText(s: string)
    requires NIL !in s
    ensures BeforeNil(s) == s
  {
    hide BeforeNil;
    var t := BeforeNil(s);
    assert forall i :: 0 <= i < |s| ==> s[i] in s;
  }

  /** The first line of a text. */
  lemma {:induction false} SplitFirst(s: string, j: nat)
    requires j <= |s| && '\n' !in s[..j] && (j < |s| ==> s[j] == '\n')
    ensures Split(s) == if j < |s| then [s[..j]] + Split(s[j + 1..]) else [s[..j]]
    decreases j
  {
    if j > 0 {
      assert s[..j][0] == s[0] && s[0] in s[..j];
      assert s[1..][..j - 1] == s[..j][1..];
      assert forall x :: x in s[..j][1..] ==> x in s[..j];
      SplitFirst(s[1..], j - 1);
      assert s[..j] == [s[0]] + s[1..][..j - 1];
      if j < |s| {
        assert s[1..][j..] == s[j + 1..];
      }
    } else if s != "" {
      assert s[..0] == "";
    }
  }

  predicate NilFree(d: Store) {
    forall i :: 0 <= i < |d| ==>
      NIL !in d[i].name && forall j :: 0 <= j < |d[i].keys| ==> NIL !in d[i].keys[j].key && NIL !in d[i].keys[j].val
  }

  lemma {:induction false} LinesAreNilFree(nl: string, lines: seq<string>)
    requires NIL !in nl && forall i :: 0 <= i < |lines| ==> NIL !in lines[i]
    ensures NIL !in PrintLines(nl, lines)
    decreases |lines|
  {
    if lines != [] {
      LinesAreNilFree(nl, lines[1..]);
    }
  }

  lemma {:induction false} SplitIsNilFree(v: string)
    requires NIL !in v
    ensures forall i :: 0 <= i < |Split(v)| ==> NIL !in Split(v)[i]
    decreases |v|
  {
    if v != "" {
      SplitIsNilFree(v[1..]);
    }
  }

  lemma {:induction false} KeysAreNilFree(y: Style, ks: seq<KeyVal>)
    requires IsNewLineText(y.newline)
    requires forall j :: 0 <= j < |ks| ==> NIL !in ks[j].key && NIL !in ks[j].val
    ensures NIL !in PrintKeys(y, ks)
    decreases |ks|
  {
    if ks != [] {
      SplitIsNilFree(ks[0].val);
      LinesAreNilFree(y.newline, Split(ks[0].val));
      assert NIL !in PrintValue(y, ks[0].val);
      KeysAreNilFree(y, ks[1..]);
    }
  }

  lemma {:induction false} PrintIsNilFree(y: Style, d: Store, more: bool)
    requires IsNewLineText(y.newline) && NilFree(d)
    ensures NIL !in PrintSections(y, d, more)
    decreases |d|
  {
    if d != [] {
      KeysAreNilFree(y, d[0].keys);
      PrintIsNilFree(y, d[1..], true);
    }
  }

  method ReadToNul(buf: array<char>, p: nat, ghost end: nat) returns (r: string)
    requires p <= end < buf.Length && buf[end] == NIL
    ensures StringAt(buf[..], p, r)
  {
    var i := p;
    while buf[i] != NIL
      invariant p <= i <= end && NIL !in buf[p..i]
      decreases end - i
    {
      assert buf[p..i + 1] == buf[p..i] + [buf[i]];
      i := i + 1;
    }
    r := buf[p..i];
  }

  lemma StringIsUnique(b: seq<char>, p: nat, s: string, t: string)
    requires StringAt(b, p, s) && StringAt(b, p, t)
    ensures s == t
  {
    assert forall i :: 0 <= i < |s| ==> s[i] == b[p + i] && s[i] in s;
    assert forall i :: 0 <= i < |t| ==> t[i] == b[p + i] && t[i] in t;
  }

  // ---------- what is stored stays where it was found ----------

  /** A string handed to the store, and its place in the buffer. */
  datatype Placed = Placed(at: nat, text: string)

  /** What is added for an entry. The section is None as long as there was no header. A value that is
      not whole ran on. */
  datatype Added =
    | SectionAdded(name: Placed)
    | PairAdded(section: Option<Placed>, key: Placed, val: Placed, whole: bool)

  function PlaceIn(s: Option<Placed>): Option<nat> {
    if s == None then None else Some(s.value.at)
  }

  function NameOf(s: Option<Placed>): string {
    if s == None then "" else s.value.text
  }

  /** The section that a key without a header of its own goes to afterwards. */
  function SectionOf(a: Added): Option<Placed> {
    match a
    case SectionAdded(name) => Some(name)
    case PairAdded(section, _, _, _) => section
  }

  function SectionAfter(sec: Option<Placed>, adds: seq<Added>): Option<Placed> {
    if adds == [] then sec else SectionOf(adds[|adds| - 1])
  }

  function AddOne(noCase: bool, d: Store, a: Added): Store {
    match a
    case SectionAdded(name) => AddSection(noCase, d, name.text)
    case PairAdded(section, key, val, _) => AddEntry(noCase, d, NameOf(section), key.text, val.text)
  }

  function AddAll(noCase: bool, d: Store, adds: seq<Added>): Store
    decreases |adds|
  {
    if adds == [] then d else AddAll(noCase, AddOne(noCase, d, adds[0]), adds[1..])
  }

  /** What is added is what the scan found. A key goes to the section before it, unless a header without
      a closing bracket stood in between: then to whatever string stands at that header. */
  predicate FitsOne(sec: Option<Placed>, e: Entry, a: Added) {
    match e
    case Nothing => false
    case Header(name, _) => a.SectionAdded? && a.name.text == name
    case Pair(key, val, _, unclosed) =>
      && a.PairAdded? && a.key.text == key && a.val.text == val.text && a.whole == val.Exact?
      && (if unclosed then a.section.Some? else a.section == sec)
  }

  predicate Fits(sec: Option<Placed>, es: seq<Entry>, adds: seq<Added>)
    decreases |es|
  {
    if es == [] || adds == [] then es == [] && adds == []
    else FitsOne(sec, es[0], adds[0]) && Fits(SectionOf(adds[0]), es[1..], adds[1..])
  }

  predicate IsWhole(a: Added) {
    a.PairAdded? ==> a.whole
  }

  predicate AllWhole(adds: seq<Added>) {
    forall i :: 0 <= i < |adds| ==> IsWhole(adds[i])
  }

  ghost predicate StandsAt(b: seq<char>, x: Placed) {
    StringAt(b, x.at, x.text)
  }

  ghost predicate Stands(b: seq<char>, a: Added) {
    match a
    case SectionAdded(name) => StandsAt(b, name)
    case PairAdded(section, key, val, whole) =>
      (section.Some? ==> StandsAt(b, section.value)) && StandsAt(b, key) && (whole ==> StandsAt(b, val))
  }

  /** Every string added stands at its place, values that ran on aside. */
  ghost predicate Stand(b: seq<char>, adds: seq<Added>) {
    forall i :: 0 <= i < |adds| ==> Stands(b, adds[i])
  }

  /** The same, and the cursor has passed them all. */
  ghost predicate AllStand(b: seq<char>, adds: seq<Added>, p: nat, end: nat) {
    Stand(b, adds) && forall i :: 0 <= i < |adds| ==> PassedAll(adds[i], p, end)
  }

  ghost predicate PassedAll(a: Added, p: nat, end: nat) {
    match a
    case SectionAdded(name) => Passed(name.at, name.text, p, end)
    case PairAdded(section, key, val, whole) =>
      && (section.Some? ==> Passed(section.value.at, section.value.text, p, end))
      && Passed(key.at, key.text, p, end) && (whole ==> Passed(val.at, val.text, p, end))
  }

  lemma NothingStands(b: seq<char>, p: nat, end: nat)
    ensures AllStand(b, [], p, end)
  {
  }

  lemma StandAtLast(b: seq<char>, adds: seq<Added>, p: nat, end: nat)
    requires AllStand(b, adds, p, end)
    ensures Stand(b, adds)
  {
  }

  /** Writing between the cursor and the end leaves what was passed. */
  lemma StandOn(b: seq<char>, b': seq<char>, p: nat, p': nat, end: nat, adds: seq<Added>)
    requires AllStand(b, adds, p, end) && OnlyWithin(b, b', p, end) && p <= p' <= end
    ensures AllStand(b', adds, p', end)
  {
    hide StandsAt, Passed;
    forall i | 0 <= i < |adds| ensures Stands(b', adds[i]) && PassedAll(adds[i], p', end) {
      assert Stands(b, adds[i]) && PassedAll(adds[i], p, end);
      match adds[i]
      case SectionAdded(name) =>
        StandsOn(b, b', p, p', end, name);
      case PairAdded(section, key, val, whole) =>
        if section.Some? {
          StandsOn(b, b', p, p', end, section.value);
        }
        StandsOn(b, b', p, p', end, key);
        if whole {
          StandsOn(b, b', p, p', end, val);
        }
    }
  }

  lemma StandsOn(b: seq<char>, b': seq<char>, p: nat, p': nat, end: nat, x: Placed)
    requires StandsAt(b, x) && Passed(x.at, x.text, p, end) && OnlyWithin(b, b', p, end) && p <= p' <= end
    ensures StandsAt(b', x) && Passed(x.at, x.text, p', end)
  {
    if p == end {
      WholeBuffer(b, b', end);
    } else {
      StringKept(b, b', x.at, x.text, p, end);
    }
  }

  lemma StandOne(b: seq<char>, adds: seq<Added>, a: Added, p: nat, end: nat)
    requires AllStand(b, adds, p, end) && Stands(b, a) && PassedAll(a, p, end)
    ensures AllStand(b, adds + [a], p, end)
  {
    hide Stands, PassedAll;
  }

  /** The section in force was added with the last entry, so it stands too. */
  lemma SectionStands(b: seq<char>, adds: seq<Added>, p: nat, end: nat)
    requires AllStand(b, adds, p, end)
    ensures var s := SectionAfter(None, adds);
            s.Some? ==> StandsAt(b, s.value) && Passed(s.value.at, s.value.text, p, end)
  {
    hide StandsAt, Passed;
    if adds != [] {
      var a := adds[|adds| - 1];
      assert Stands(b, a) && PassedAll(a, p, end);
    }
  }

  /** The name read for a key is that of the section in force, or the string at the unclosed header,
      which ends with the key at the latest. */
  lemma SectionRead(b: seq<char>, b': seq<char>, p0: nat, p: nat, end: nat, before: Option<Placed>, header: Option<nat>,
                    section: Option<nat>, name: string, k: nat, key: string)
    returns (s: Option<Placed>)
    requires OnlyWithin(b, b', p0, end) && p0 <= p <= end
    requires before.Some? ==> StandsAt(b, before.value) && Passed(before.value.at, before.value.text, p0, end)
    requires section == if header.Some? then header else PlaceIn(before)
    requires if section.Some? then StringAt(b', section.value, name) else name == ""
    requires StringAt(b', k, key) && k + |key| < p && (header.Some? ==> header.value <= k)
    ensures header == None ==> s == before
    ensures header.Some? ==> s.Some?
    ensures NameOf(s) == name && PlaceIn(s) == section
    ensures s.Some? ==> StandsAt(b', s.value) && Passed(s.value.at, s.value.text, p, end)
  {
    s := before;
    if header.Some? {
      s := Some(Placed(header.value, name));
      EndsBefore(b', header.value, name, k + |key|);
    } else if before.Some? {
      StandsOn(b, b', p0, p, end, before.value);
      StringIsUnique(b', before.value.at, name, before.value.text);
    }
  }

  lemma EndOfText(b: seq<char>, p: nat, end: nat, t: string)
    requires Unread(b, p, end, t)
    ensures b[end] == NIL
  {
  }

  lemma EndsBefore(b: seq<char>, at: nat, s: string, q: nat)
    requires StringAt(b, at, s) && at <= q < |b| && b[q] == NIL
    ensures at + |s| <= q
  {
    assert forall i :: 0 <= i < |s| ==> s[i] == b[at + i] && s[i] in s;
  }

  // ---------- one entry after the other ----------

  lemma ScanStep(o: Options, s: string)
    ensures var e := NextEntry(o, s, false); Scan(o, s) == if e == Nothing then [] else [e] + Scan(o, e.rest)
  {
    hide NextEntry;
  }

  lemma {:induction false} AddAllSnoc(noCase: bool, d: Store, adds: seq<Added>, a: Added)
    ensures AddAll(noCase, d, adds + [a]) == AddOne(noCase, AddAll(noCase, d, adds), a)
    decreases |adds|
  {
    hide AddOne;
    if adds == [] {
      assert adds + [a] == [a] && [a][1..] == [];
    } else {
      assert (adds + [a])[1..] == adds[1..] + [a];
      AddAllSnoc(noCase, AddOne(noCase, d, adds[0]), adds[1..], a);
    }
  }

  lemma {:induction false} FitsSnoc(sec: Option<Placed>, es: seq<Entry>, adds: seq<Added>, e: Entry, a: Added)
    requires Fits(sec, es, adds) && FitsOne(SectionAfter(sec, adds), e, a)
    ensures Fits(sec, es + [e], adds + [a])
    decreases |es|
  {
    hide FitsOne;
    if es == [] {
      assert es + [e] == [e] && adds + [a] == [a] && [e][1..] == [] && [a][1..] == [];
    } else {
      assert (es + [e])[1..] == es[1..] + [e] && (adds + [a])[1..] == adds[1..] + [a];
      FitsSnoc(SectionOf(adds[0]), es[1..], adds[1..], e, a);
    }
  }

  /** A text in which no header is unclosed and no value runs on is loaded as its entries say. */
  lemma {:induction false} LoadIsAddAll(o: Options, d: Store, sec: Option<Placed>, s: string, adds: seq<Added>)
    requires Fits(sec, Scan(o, s), adds)
    ensures var r := LoadFrom(o, d, NameOf(sec), s); r.Some? ==> r.value == AddAll(o.noCase, d, adds) && AllWhole(adds)
    decreases |s|
  {
    hide NextEntry, AddEntry, AddSection;
    var e := NextEntry(o, s, false);
    ScanStep(o, s);
    if e != Nothing {
      assert ([e] + Scan(o, e.rest))[1..] == Scan(o, e.rest);
      LoadIsAddAll(o, AddOne(o.noCase, d, adds[0]), SectionOf(adds[0]), e.rest, adds[1..]);
      AllWholeFrom(adds);
    }
  }

  lemma AllWholeFrom(adds: seq<Added>)
    requires adds != []
    ensures AllWhole(adds) <==> IsWhole(adds[0]) && AllWhole(adds[1..])
  {
    hide IsWhole;
    assert forall i :: 1 <= i < |adds| ==> adds[i] == adds[1..][i - 1];
  }

  // ---------- an end tag on the first line ----------

  /** One such text: the value should be empty, and runs on into the next key although the cursor is
      behind the tag line. */
  method FirstLineTagRunsOn() returns (b: seq<char>, key: nat, val: nat, p: nat)
    ensures StringAt(b, key, "k") && StringAt(b, val, "A\nx=1") && Unread(b, p, 12, "x=1")
    ensures !StringAt(b, val, Join([]))
  {
    hide NextEntry, StringAt, Unread;
    var text := "k=<<<A\nA\nx=1";
    var buf := new char[13](i requires 0 <= i < 13 => if i < 12 then text[i] else NIL);
    assert buf[0..12] == text;
    WholeTextUnread(buf[..], text);
    TagFirst();
    var f, q, _ := FindEntry(Options(false, true), buf, 0, 12);
    p := q;
    b, key, val := buf[..], f.key, f.val;
    if StringAt(b, val, "") {
      StringIsUnique(b, val, "", "A\nx=1");
    }
  }

  lemma WholeTextUnread(b: seq<char>, text: string)
    requires |b| == |text| + 1 && b[0..|text|] == text && b[|text|] == NIL && NIL !in text
    ensures Unread(b, 0, |text|, text)
  {
  }

  lemma TagFirst()
    ensures NextEntry(Options(false, true), "k=<<<A\nA\nx=1", false) == Pair("k", RunsOn("A\nx=1"), "x=1", false)
  {
    hide NextEntry, Join;
    var y := Style("\n", false, true);
    ScanTagged(Options(false, true), y, "k", "A", [], "x=1");
    assert PrintLines("\n", []) + "A" + "\n" + "x=1" == "A\nx=1";
    assert "k" + Separator(y) + ("<<<" + "A" + "\n" + "A\nx=1") == "k=<<<A\nA\nx=1";
  }
}
