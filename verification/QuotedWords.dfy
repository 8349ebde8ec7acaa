/** What a line of words says, written without reference to the scanner: plain words, words that end in
    double quotes with escapes, and words that end in single quotes. */
module QuotedWords {
  import opened Bytes
  import opened Quoting

  /** Inside double quotes: a byte, two hexadecimal digits behind \x, a byte behind a backslash, or \x with
      two bytes that are no such digits. */
  datatype DBit = DRaw(b: Byte) | Hex(hi: Byte, lo: Byte) | Esc(c: Byte) | NoHex(c: Byte, d: Byte)

  /** Inside single quotes: a byte, a quoted apostrophe, or a backslash that quotes nothing. */
  datatype SBit = SRaw(b: Byte) | Apostrophe | Slash(b: Byte)

  datatype Tail = NoTail | DoubleQuoted(ds: seq<DBit>) | SingleQuoted(ss: seq<SBit>)

  /** A word with the blanks in front of it. */
  datatype Word = Word(gap: seq<Byte>, plain: seq<Byte>, tail: Tail)

  predicate IsBlank(b: Byte) {
    b == 32 || b == 9 || b == 10 || b == 13
  }

  predicate IsHex(c: Byte) {
    48 <= c <= 57 || 97 <= c <= 102 || 65 <= c <= 70
  }

  function HexOf(c: Byte): int {
    if c <= 57 then c - 48 else if c >= 97 then c - 97 + 10 else c - 65 + 10
  }

  predicate PlainOk(b: Byte) {
    b != 0 && b != 32 && !(9 <= b <= 13) && b != 34 && b != 39
  }

  predicate RawOk(b: Byte) {
    b != 0 && b != 34 && b != 92
  }

  predicate DOk(d: DBit) {
    match d
    case DRaw(b) => RawOk(b)
    case Hex(hi, lo) => IsHex(hi) && IsHex(lo)
    case Esc(c) => c != 0 && c != 120
    case NoHex(c, d) => RawOk(c) && RawOk(d) && !(IsHex(c) && IsHex(d))
  }

  predicate SOk(s: SBit) {
    match s
    case SRaw(b) => b != 0 && b != 39 && b != 92
    case Apostrophe => true
    case Slash(b) => b != 0 && b != 39 && b != 92
  }

  function DText(d: DBit): seq<Byte> {
    match d
    case DRaw(b) => [b]
    case Hex(hi, lo) => [92, 120, hi, lo]
    case Esc(c) => [92, c]
    case NoHex(c, d) => [92, 120, c, d]
  }

  function SText(s: SBit): seq<Byte> {
    match s
    case SRaw(b) => [b]
    case Apostrophe => [92, 39]
    case Slash(b) => [92, b]
  }

  /** The control characters n, r, t, b and a stand for; any other byte stands for itself. */
  function DValue(d: DBit): seq<Byte>
    requires DOk(d)
  {
    match d
    case DRaw(b) => [b]
    case Hex(hi, lo) => [HexOf(hi) * 16 + HexOf(lo)]
    case Esc(c) => [if c == 110 then 10 else if c == 114 then 13 else if c == 116 then 9
                    else if c == 98 then 8 else if c == 97 then 7 else c]
    case NoHex(c, d) => [120, c, d]
  }

  function SValue(s: SBit): seq<Byte> {
    match s
    case SRaw(b) => [b]
    case Apostrophe => [39]
    case Slash(b) => [92, b]
  }

  predicate DsOk(ds: seq<DBit>) {
    forall i :: 0 <= i < |ds| ==> DOk(ds[i])
  }

  predicate SsOk(ss: seq<SBit>) {
    forall i :: 0 <= i < |ss| ==> SOk(ss[i])
  }

  function DTexts(ds: seq<DBit>): seq<Byte> {
    if ds == [] then [] else DText(ds[0]) + DTexts(ds[1..])
  }

  function DValues(ds: seq<DBit>): seq<Byte>
    requires DsOk(ds)
  {
    if ds == [] then [] else DValue(ds[0]) + DValues(ds[1..])
  }

  function STexts(ss: seq<SBit>): seq<Byte> {
    if ss == [] then [] else SText(ss[0]) + STexts(ss[1..])
  }

  function SValues(ss: seq<SBit>): seq<Byte> {
    if ss == [] then [] else SValue(ss[0]) + SValues(ss[1..])
  }

  predicate WordOk(w: Word) {
    && (forall i :: 0 <= i < |w.gap| ==> IsBlank(w.gap[i]))
    && (forall i :: 0 <= i < |w.plain| ==> PlainOk(w.plain[i]))
    && match w.tail
       case NoTail => w.plain != []
       case DoubleQuoted(ds) => DsOk(ds)
       case SingleQuoted(ss) => SsOk(ss)
  }

  /** Blanks separate the words. */
  predicate WordsOk(ws: seq<Word>) {
    forall i :: 0 <= i < |ws| ==> WordOk(ws[i]) && (i > 0 ==> ws[i].gap != [])
  }

  function TailText(t: Tail): seq<Byte> {
    match t
    case NoTail => []
    case DoubleQuoted(ds) => [34] + DTexts(ds) + [34]
    case SingleQuoted(ss) => [39] + STexts(ss) + [39]
  }

  function WordValue(w: Word): seq<Byte>
    requires WordOk(w)
  {
    w.plain + match w.tail
              case NoTail => []
              case DoubleQuoted(ds) => DValues(ds)
              case SingleQuoted(ss) => SValues(ss)
  }

  function Line(ws: seq<Word>, trailing: seq<Byte>): seq<Byte> {
    if ws == [] then trailing
    else ws[0].gap + (ws[0].plain + (TailText(ws[0].tail) + Line(ws[1..], trailing)))
  }

  function Values(ws: seq<Word>): seq<seq<Byte>>
    requires WordsOk(ws)
  {
    if ws == [] then [] else [WordValue(ws[0])] + Values(ws[1..])
  }

  // ---------- the scanner reads them so ----------

  predicate EndsWord(t: seq<Byte>) {
    t == [] || IsBlank(t[0])
  }

  lemma {:induction false} BlanksSkipped(gap: seq<Byte>, t: seq<Byte>)
    requires forall i :: 0 <= i < |gap| ==> IsBlank(gap[i])
    ensures SkipBlanks(gap + t) == SkipBlanks(t)
    decreases |gap|
  {
    if gap == [] {
      assert gap + t == t;
    } else {
      assert (gap + t)[1..] == gap[1..] + t;
      BlanksSkipped(gap[1..], t);
    }
  }

  lemma {:induction false} PlainScans(plain: seq<Byte>, t: seq<Byte>, cur: seq<Byte>)
    requires forall i :: 0 <= i < |plain| ==> PlainOk(plain[i])
    ensures Scan(Plain, plain + t, cur) == Scan(Plain, t, cur + plain)
    decreases |plain|
  {
    if plain == [] {
      assert plain + t == t && cur + plain == cur;
    } else {
      assert (plain + t)[1..] == plain[1..] + t && (plain + t)[0] == plain[0];
      PlainScans(plain[1..], t, cur + [plain[0]]);
      assert cur + [plain[0]] + plain[1..] == cur + plain;
    }
  }

  lemma DBitScans(d: DBit, t: seq<Byte>, cur: seq<Byte>)
    requires DOk(d)
    ensures Scan(Double, DText(d) + t, cur) == Scan(Double, t, cur + DValue(d))
  {
    var s := DText(d) + t;
    assert s[|DText(d)|..] == t;
    if d.NoHex? {
      assert s[2..] == [d.c] + ([d.d] + t);
      DRawScans(d.c, [d.d] + t, cur + [120]);
      DRawScans(d.d, t, cur + [120] + [d.c]);
      assert cur + [120] + [d.c] + [d.d] == cur + [120, d.c, d.d];
    }
  }

  lemma DRawScans(b: Byte, t: seq<Byte>, cur: seq<Byte>)
    requires RawOk(b)
    ensures Scan(Double, [b] + t, cur) == Scan(Double, t, cur + [b])
  {
    assert ([b] + t)[1..] == t;
  }

  lemma {:induction false} DoubleScans(ds: seq<DBit>, t: seq<Byte>, cur: seq<Byte>)
    requires DsOk(ds)
    ensures Scan(Double, DTexts(ds) + t, cur) == Scan(Double, t, cur + DValues(ds))
    decreases |ds|
  {
    hide Scan, DText, DValue, DOk;
    if ds == [] {
      assert [] + t == t && cur + [] == cur;
    } else {
      Assoc(DText(ds[0]), DTexts(ds[1..]), t);
      DBitScans(ds[0], DTexts(ds[1..]) + t, cur);
      DoubleScans(ds[1..], t, cur + DValue(ds[0]));
      Assoc(cur, DValue(ds[0]), DValues(ds[1..]));
    }
  }

  lemma Assoc<T>(a: seq<T>, b: seq<T>, c: seq<T>)
    ensures a + b + c == a + (b + c)
  {
  }

  lemma SBitScans(b: SBit, t: seq<Byte>, cur: seq<Byte>)
    requires SOk(b)
    ensures Scan(Single, SText(b) + t, cur) == Scan(Single, t, cur + SValue(b))
  {
    var s := SText(b) + t;
    assert s[|SText(b)|..] == t;
    if b.Slash? {
      assert s[1..][0] == b.b && s[1..][1..] == t;
      assert cur + [92] + [b.b] == cur + [92, b.b];
    }
  }

  lemma {:induction false} SingleScans(ss: seq<SBit>, t: seq<Byte>, cur: seq<Byte>)
    requires SsOk(ss)
    ensures Scan(Single, STexts(ss) + t, cur) == Scan(Single, t, cur + SValues(ss))
    decreases |ss|
  {
    hide Scan, SText, SValue, SOk;
    if ss == [] {
      assert [] + t == t && cur + [] == cur;
    } else {
      Assoc(SText(ss[0]), STexts(ss[1..]), t);
      SBitScans(ss[0], STexts(ss[1..]) + t, cur);
      SingleScans(ss[1..], t, cur + SValue(ss[0]));
      Assoc(cur, SValue(ss[0]), SValues(ss[1..]));
    }
  }

  /** What is left behind a word: its end is taken along if it is a blank behind a plain word. */
  function Behind(tail: Tail, t: seq<Byte>): seq<Byte> {
    if tail == NoTail && t != [] then t[1..] else t
  }

  lemma QuoteOpens(q: Byte, t: seq<Byte>, cur: seq<Byte>)
    requires q == 34 || q == 39
    ensures Scan(Plain, [q] + t, cur) == Scan(if q == 34 then Double else Single, t, cur)
  {
    assert ([q] + t)[1..] == t;
  }

  lemma QuoteCloses(t: seq<Byte>, cur: seq<Byte>)
    ensures Scan(Double, [34] + t, cur) == if t == [] || Quoting.IsSpace(t[0]) then Token(cur, t) else Unbalanced
    ensures Scan(Single, [39] + t, cur) == if t == [] || Quoting.IsSpace(t[0]) then Token(cur, t) else Unbalanced
  {
    assert ([34] + t)[1..] == t && ([39] + t)[1..] == t;
  }

  lemma PlainEnds(t: seq<Byte>, cur: seq<Byte>)
    requires EndsWord(t)
    ensures Scan(Plain, t, cur) == Token(cur, Behind(NoTail, t))
  {
  }

  /** One word. */
  lemma WordScans(w: Word, t: seq<Byte>)
    requires WordOk(w) && EndsWord(t)
    ensures Scan(Plain, w.plain + (TailText(w.tail) + t), []) == Token(WordValue(w), Behind(w.tail, t))
  {
    hide Scan, DTexts, STexts, DValues, SValues;
    PlainScans(w.plain, TailText(w.tail) + t, []);
    assert [] + w.plain == w.plain;
    match w.tail
    case NoTail =>
      assert [] + t == t && w.plain + [] == w.plain;
      PlainEnds(t, w.plain);
    case DoubleQuoted(ds) =>
      assert [34] + DTexts(ds) + [34] + t == [34] + (DTexts(ds) + ([34] + t));
      QuoteOpens(34, DTexts(ds) + ([34] + t), w.plain);
      DoubleScans(ds, [34] + t, w.plain);
      QuoteCloses(t, w.plain + DValues(ds));
    case SingleQuoted(ss) =>
      assert [39] + STexts(ss) + [39] + t == [39] + (STexts(ss) + ([39] + t));
      QuoteOpens(39, STexts(ss) + ([39] + t), w.plain);
      SingleScans(ss, [39] + t, w.plain);
      QuoteCloses(t, w.plain + SValues(ss));
  }

  lemma SplitAtWord(w: Word, t: seq<Byte>)
    requires WordOk(w) && EndsWord(t)
    ensures Split(w.gap + (w.plain + (TailText(w.tail) + t)))
         == if Split(t) == None then None else Some([WordValue(w)] + Split(t).value)
  {
    hide Scan, WordValue;
    var s := w.plain + (TailText(w.tail) + t);
    BlanksSkipped(w.gap, s);
    WordStarts(w, t);
    WordScans(w, t);
    SplitBehind(w.tail, t);
  }

  lemma WordStarts(w: Word, t: seq<Byte>)
    requires WordOk(w)
    ensures var s := w.plain + (TailText(w.tail) + t); s != [] && SkipBlanks(s) == s
  {
    var s := w.plain + (TailText(w.tail) + t);
    if w.plain != [] {
      assert s[0] == w.plain[0] && PlainOk(w.plain[0]);
    }
  }

  lemma SplitBehind(tail: Tail, t: seq<Byte>)
    requires EndsWord(t)
    ensures Split(Behind(tail, t)) == Split(t)
  {
    hide Scan;
    if t != [] {
      assert SkipBlanks(t) == SkipBlanks(t[1..]);
    }
  }

  lemma {:induction false} OnlyBlanks(gap: seq<Byte>)
    requires forall i :: 0 <= i < |gap| ==> IsBlank(gap[i])
    ensures Split(gap) == Some([])
    decreases |gap|
  {
    hide Scan;
    BlanksSkipped(gap, []);
    assert gap + [] == gap;
  }

  /** A line of words is split into exactly the values of its words. */
  lemma {:induction false} LineSays(ws: seq<Word>, trailing: seq<Byte>)
    requires WordsOk(ws) && forall i :: 0 <= i < |trailing| ==> IsBlank(trailing[i])
    ensures Split(Line(ws, trailing)) == Some(Values(ws))
    decreases |ws|
  {
    hide Split, WordValue, TailText;
    if ws == [] {
      OnlyBlanks(trailing);
    } else {
      LineSays(ws[1..], trailing);
      LineStarts(ws[1..], trailing);
      SplitAtWord(ws[0], Line(ws[1..], trailing));
    }
  }

  lemma LineStarts(ws: seq<Word>, trailing: seq<Byte>)
    requires WordsOk(ws) && (ws == [] || ws[0].gap != []) && forall i :: 0 <= i < |trailing| ==> IsBlank(trailing[i])
    ensures EndsWord(Line(ws, trailing))
  {
    hide TailText;
    if ws != [] {
      assert Line(ws, trailing)[0] == ws[0].gap[0];
    }
  }

  /** The splitter on such a line. */
  method SplitLine(ws: seq<Word>, trailing: seq<Byte>) returns (argv: Option<seq<seq<Byte>>>)
    requires WordsOk(ws) && forall i :: 0 <= i < |trailing| ==> IsBlank(trailing[i])
    ensures argv == Some(Values(ws))
  {
    LineSays(ws, trailing);
    argv := SplitArgs(Line(ws, trailing));
  }

  // ---------- unbalanced quotes ----------

  /** Quotes that are not closed, or closed in the middle of a word. */
  function BadTail(tail: Tail, glued: seq<Byte>): seq<Byte>
    requires tail != NoTail
  {
    var open := if tail.DoubleQuoted? then [34] + DTexts(tail.ds) else [39] + STexts(tail.ss);
    if glued == [] then open else TailText(tail) + glued
  }

  predicate GluedOk(glued: seq<Byte>) {
    glued != [] ==> glued[0] != 32 && !(9 <= glued[0] <= 13)
  }

  /** A line is refused when its last quotes are not closed, or are closed in the middle of a word. */
  lemma {:induction false} UnbalancedIsRefused(ws: seq<Word>, last: Word, glued: seq<Byte>)
    requires WordsOk(ws + [last]) && last.tail != NoTail && GluedOk(glued)
    ensures Split(Line(ws, last.gap + (last.plain + BadTail(last.tail, glued)))) == None
    decreases |ws|
  {
    hide Split, WordValue, TailText, WordOk, BadTail;
    var s := last.plain + BadTail(last.tail, glued);
    assert (ws + [last])[|ws|] == last;
    if ws == [] {
      LastIsRefused(last, glued);
    } else {
      assert (ws + [last])[1..] == ws[1..] + [last];
      WordsRest(ws + [last]);
      UnbalancedIsRefused(ws[1..], last, glued);
      LastGap(last);
      NextStarts(ws[1..], last, s);
      assert (ws + [last])[0] == ws[0];
      SplitAtWord(ws[0], Line(ws[1..], last.gap + s));
    }
  }

  lemma WordsRest(ws: seq<Word>)
    requires WordsOk(ws) && ws != []
    ensures WordsOk(ws[1..]) && (|ws| > 1 ==> ws[1].gap != [])
  {
    hide WordOk;
    assert forall i :: 0 <= i < |ws| - 1 ==> ws[1..][i] == ws[i + 1];
  }

  lemma LastGap(w: Word)
    requires WordOk(w)
    ensures w.gap != [] ==> IsBlank(w.gap[0])
  {
  }

  lemma NextStarts(ws: seq<Word>, last: Word, s: seq<Byte>)
    requires WordsOk(ws + [last]) && last.gap != [] && IsBlank(last.gap[0])
    requires ws != [] ==> ws[0].gap != []
    ensures EndsWord(Line(ws, last.gap + s))
  {
    hide TailText;
    if ws != [] {
      assert (ws + [last])[0] == ws[0];
      assert Line(ws, last.gap + s)[0] == ws[0].gap[0];
    } else {
      assert (last.gap + s)[0] == last.gap[0];
    }
  }

  lemma LastIsRefused(w: Word, glued: seq<Byte>)
    requires WordOk(w) && w.tail != NoTail && GluedOk(glued)
    ensures Split(w.gap + (w.plain + BadTail(w.tail, glued))) == None
  {
    hide Scan, DTexts, STexts, DValues, SValues;
    var s := BadTail(w.tail, glued);
    BlanksSkipped(w.gap, w.plain + s);
    if w.plain != [] {
      assert (w.plain + s)[0] == w.plain[0] && PlainOk(w.plain[0]);
    }
    PlainScans(w.plain, s, []);
    assert [] + w.plain == w.plain;
    match w.tail
    case DoubleQuoted(ds) => BadDouble(ds, w.plain, glued);
    case SingleQuoted(ss) => BadSingle(ss, w.plain, glued);
  }

  lemma BadDouble(ds: seq<DBit>, cur: seq<Byte>, glued: seq<Byte>)
    requires DsOk(ds) && GluedOk(glued)
    ensures Scan(Plain, BadTail(DoubleQuoted(ds), glued), cur) == Unbalanced
  {
    hide Scan, DTexts, DValues;
    var close := if glued == [] then [] else [34] + glued;
    assert BadTail(DoubleQuoted(ds), glued) == [34] + (DTexts(ds) + close);
    QuoteOpens(34, DTexts(ds) + close, cur);
    DoubleScans(ds, close, cur);
    NeverClosed(cur + DValues(ds));
    QuoteCloses(glued, cur + DValues(ds));
  }

  lemma BadSingle(ss: seq<SBit>, cur: seq<Byte>, glued: seq<Byte>)
    requires SsOk(ss) && GluedOk(glued)
    ensures Scan(Plain, BadTail(SingleQuoted(ss), glued), cur) == Unbalanced
  {
    hide Scan, STexts, SValues;
    var close := if glued == [] then [] else [39] + glued;
    assert BadTail(SingleQuoted(ss), glued) == [39] + (STexts(ss) + close);
    QuoteOpens(39, STexts(ss) + close, cur);
    SingleScans(ss, close, cur);
    NeverClosed(cur + SValues(ss));
    QuoteCloses(glued, cur + SValues(ss));
  }

  lemma NeverClosed(cur: seq<Byte>)
    ensures Scan(Double, [], cur) == Unbalanced && Scan(Single, [], cur) == Unbalanced
  {
  }

  // ---------- what the printer writes ----------

  /** The quoted form is printable ASCII: bytes that are printable stand for themselves, but for the quote
      and the backslash; these and five control characters take two bytes, all others four, with lower
      case digits. With the scanner reading it back, this leaves one form only. */
  lemma PrintedForm(b: Byte)
    ensures var e := EscapeByte(b);
            && (forall i :: 0 <= i < |e| ==> 32 <= e[i] <= 126)
            && (32 <= b <= 126 && b != 34 && b != 92 ==> e == [b])
            && |e| == (if 32 <= b <= 126 && b != 34 && b != 92 then 1
                       else if b in {34, 92, 7, 8, 9, 10, 13} then 2 else 4)
            && (|e| == 4 ==> e[..2] == [92, 120] && forall i :: 2 <= i < 4 ==> 48 <= e[i] <= 57 || 97 <= e[i] <= 102)
  {
  }
}
