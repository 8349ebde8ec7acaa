/** The parser at work in its buffer: it cuts names and values out of the text in place, and pulls the
    lines of multi-line values together, one cursor writing behind the other that reads. */
module IniBuffer {
  import opened Bytes
  import opened IniText

  const NIL := '\0'

  /** From p to end the buffer holds the text t, which a NUL ends. */
  ghost predicate Unread(b: seq<char>, p: nat, end: nat, t: string) {
    p <= end < |b| && b[end] == NIL && t == b[p..end] && NIL !in t
  }

  /** The string at p is s. */
  ghost predicate StringAt(b: seq<char>, p: nat, s: string) {
    p + |s| < |b| && b[p..p + |s|] == s && b[p + |s|] == NIL && NIL !in s
  }

  /** Nothing outside from .. to was written. */
  ghost predicate OnlyWithin(a: seq<char>, b: seq<char>, from: int, to: int) {
    |a| == |b| && forall i :: 0 <= i < |a| && !(from <= i < to) ==> a[i] == b[i]
  }

  method ReadString(buf: array<char>, p: nat, ghost s: string) returns (r: string)
    requires StringAt(buf[..], p, s)
    ensures r == s
  {
    assert forall j :: 0 <= j < |s| ==> buf[p + j] == s[j] && s[j] != NIL;
    var i := p;
    while buf[i] != NIL
      invariant p <= i <= p + |s|
      decreases p + |s| - i
    {
      i := i + 1;
    }
    r := buf[p..i];
  }

  /** The cursor at the end of the line. */
  method EndOfLine(buf: array<char>, p: nat, ghost end: nat, ghost t: string) returns (q: nat)
    requires Unread(buf[..], p, end, t)
    ensures q == p + LineLen(t)
  {
    q := p;
    while buf[q] != NIL && !IsNewLine(buf[q])
      invariant p <= q <= end
      invariant p + LineLen(t) == q + LineLen(t[q - p..])
      decreases end - q
    {
      assert t[q - p..][0] == buf[q] && t[q - p..][1..] == t[q + 1 - p..];
      q := q + 1;
    }
    assert q < end ==> t[q - p..][0] == t[q - p] == buf[q];
  }

  method SkipEnd(buf: array<char>, q: nat, ghost end: nat, ghost t: string) returns (r: nat)
    requires Unread(buf[..], q, end, t) && t != ""
    ensures q < r <= end && Unread(buf[..], r, end, SkipNewLine(t))
  {
    r := q + (if buf[q] == '\r' && buf[q + 1] == '\n' then 2 else 1);
    assert t[0] == buf[q] && (|t| > 1 ==> t[1] == buf[q + 1]);
    assert SkipNewLine(t) == t[r - q..];
  }

  // ---------- multi-line values ----------

  /** The lines, each with a newline behind it. */
  function Ended(lines: seq<string>): string {
    if lines == [] then "" else Ended(lines[..|lines| - 1]) + lines[|lines| - 1] + "\n"
  }

  lemma {:induction false} EndedIsJoin(lines: seq<string>)
    requires lines != []
    ensures Ended(lines) == Join(lines) + "\n"
    decreases |lines|
  {
    var front, last := lines[..|lines| - 1], lines[|lines| - 1];
    if front != [] {
      EndedIsJoin(front);
      JoinAppend(front, last);
      assert front + [last] == lines;
    }
  }

  lemma {:induction false} JoinAppend(lines: seq<string>, last: string)
    requires lines != []
    ensures Join(lines + [last]) == Join(lines) + "\n" + last
    decreases |lines|
  {
    if |lines| > 1 {
      assert (lines + [last])[1..] == lines[1..] + [last];
      JoinAppend(lines[1..], last);
    }
  }

  function Prepend(done: seq<string>, b: Block): Block {
    Block(done + b.lines, b.rest, b.tagged)
  }

  /** The lines done so far stand together from v to w, and from p on the text is as it was: what is left
      to do, behind what is done, is the whole block. */
  ghost predicate Compacting(o: Options, tag: string, b0: seq<char>, b: seq<char>, v: nat, w: nat, p: nat, end: nat,
                             done: seq<string>) {
    && v <= w <= p <= end < |b0| && OnlyWithin(b0, b, v, p)
    && b[v..w] == Ended(done) && NIL !in Ended(done)
    && Unread(b0, v, end, b0[v..end])
    && TakeBlock(o.noCase, tag, b0[v..end]) == Prepend(done, TakeBlock(o.noCase, tag, b0[p..end]))
  }

  /** Cuts off the line at p and moves it down to w; c is the character that ended it. */
  method MoveLine(buf: array<char>, w: nat, p: nat, ghost end: nat, ghost t: string) returns (q: nat, c: char)
    requires w <= p && Unread(buf[..], p, end, t)
    modifies buf
    ensures q == p + LineLen(t) && c == old(buf[q])
    ensures StringAt(buf[..], w, t[..LineLen(t)]) && buf[q] == NIL
    ensures OnlyWithin(old(buf[..]), buf[..], w, q + 1)
    ensures w == p ==> buf[..] == old(buf[..])[q := NIL]
  {
    hide LineLen;
    q := EndOfLine(buf, p, end, t);
    var n := q - p;
    assert forall k :: 0 <= k < n ==> t[k] == buf[p + k];
    if w < p {
      forall k | 0 <= k < n {
        buf[w + k] := buf[p + k];
      }
      buf[w + n] := NIL;
    }
    c := buf[q];
    buf[q] := NIL;
    FrontAt(buf[..], w, t, n);
  }

  lemma FrontAt(b: seq<char>, w: nat, t: string, n: nat)
    requires n <= |t| && NIL !in t && w + n < |b| && b[w + n] == NIL && forall k :: 0 <= k < n ==> b[w + k] == t[k]
    ensures StringAt(b, w, t[..n])
  {
    assert b[w..w + n] == t[..n];
    assert forall x :: x in t[..n] ==> x in t;
  }

  /** One more line, other than the tag, is in its place behind the lines done. */
  lemma LineDone(o: Options, tag: string, b0: seq<char>, b: seq<char>, v: nat, w: nat, p: nat, end: nat,
                 done: seq<string>, b': seq<char>, p': nat)
    requires Compacting(o, tag, b0, b, v, w, p, end, done)
    requires var n := LineLen(b0[p..end]);
             && n < end - p && !Same(o.noCase, b0[p..end][..n], tag)
             && p + n < p' <= end && b0[p'..end] == AfterLine(b0[p..end])
             && OnlyWithin(b0, b', v, p') && b'[v..w + n + 1] == b[v..w] + b0[p..end][..n] + "\n"
    ensures Compacting(o, tag, b0, b', v, w + LineLen(b0[p..end]) + 1, p', end, done + [b0[p..end][..LineLen(b0[p..end])]])
  {
    hide AfterLine, LineLen, Same;
    var t := b0[p..end];
    var line := t[..LineLen(t)];
    EndedAppend(done, line);
    assert NIL !in line by {
      assert t == b0[v..end][p - v..];
    }
    BlockAppend(o, tag, done, t, line, b0[p'..end]);
  }

  lemma EndedAppend(done: seq<string>, line: string)
    ensures Ended(done + [line]) == Ended(done) + line + "\n"
  {
    assert (done + [line])[..|done|] == done;
  }

  lemma BlockAppend(o: Options, tag: string, done: seq<string>, t: string, line: string, rest: string)
    requires line == t[..LineLen(t)] && LineLen(t) < |t| && !Same(o.noCase, line, tag) && rest == AfterLine(t)
    ensures Prepend(done, TakeBlock(o.noCase, tag, t)) == Prepend(done + [line], TakeBlock(o.noCase, tag, rest))
  {
    hide AfterLine, LineLen, Same;
    var more := TakeBlock(o.noCase, tag, rest);
    assert TakeBlock(o.noCase, tag, t) == Block([line] + more.lines, more.rest, more.tagged);
    assert done + ([line] + more.lines) == done + [line] + more.lines;
  }

  /** What has to be there when the tag or the end of the text is found. */
  lemma BlockDone(o: Options, tag: string, b0: seq<char>, b: seq<char>, v: nat, w: nat, p: nat, end: nat, done: seq<string>)
    requires Compacting(o, tag, b0, b, v, w, p, end, done)
    ensures var t := b0[p..end];
            var line := t[..LineLen(t)];
            && (Same(o.noCase, line, tag) ==> TakeBlock(o.noCase, tag, b0[v..end]) == Block(done, AfterLine(t), true))
            && (!Same(o.noCase, line, tag) && LineLen(t) == |t| ==>
                  TakeBlock(o.noCase, tag, b0[v..end]) == Block(done + [line], "", false))
  {
    hide AfterLine, LineLen, Same;
    assert done + [] == done;
  }

  lemma StringKept(a: seq<char>, b: seq<char>, p: nat, s: string, from: int, to: int)
    requires StringAt(a, p, s) && OnlyWithin(a, b, from, to) && (p + |s| < from || to <= p)
    ensures StringAt(b, p, s)
  {
  }

  /** The tag name stands before the value, or its end is the end of the text. */
  lemma TagKept(b0: seq<char>, b: seq<char>, tagStart: nat, tag: string, v: nat, q: nat, end: nat)
    requires StringAt(b0, tagStart, tag) && OnlyWithin(b0, b, v, q + 1) && v <= q <= end < |b| && b[q] == NIL
    requires tagStart + |tag| < v || tagStart + |tag| == v == end
    ensures StringAt(b, tagStart, tag)
  {
  }

  lemma CompactingText(o: Options, tag: string, b0: seq<char>, b: seq<char>, v: nat, w: nat, p: nat, end: nat,
                       done: seq<string>)
    requires Compacting(o, tag, b0, b, v, w, p, end, done)
    ensures v <= w <= p <= end < |b| == |b0| && Unread(b, p, end, b0[p..end]) && OnlyWithin(b0, b, v, p)
    ensures b[v..w] == Ended(done) && NIL !in Ended(done)
  {
    hide Ended, TakeBlock;
    assert forall i :: p <= i < end ==> b0[i] in b0[v..end] by {
      assert forall i :: p <= i < end ==> b0[i] == b0[v..end][i - v];
    }
    assert b[p..end] == b0[p..end];
  }

  /** After the move the line stands behind the lines done. */
  lemma LineMoved(b0: seq<char>, b: seq<char>, b': seq<char>, v: nat, w: nat, p: nat, q: nat, line: string, head: string)
    requires v <= w <= p <= q < |b0| && |line| == q - p && OnlyWithin(b0, b, v, p) && b[v..w] == head
    requires OnlyWithin(b, b', w, q + 1) && StringAt(b', w, line)
    ensures OnlyWithin(b0, b', v, q + 1) && b'[v..w] == head && b'[v..w + |line|] == head + line
    ensures b0[q] == b[q] && forall i :: q < i < |b0| ==> b'[i] == b0[i]
  {
    assert b'[v..w] == b[v..w];
    assert b'[v..w + |line|] == b'[v..w] + b'[w..w + |line|];
  }

  /** Neither text is less than the other. */
  method SameText(o: Options, a: string, b: string) returns (same: bool)
    ensures same == Same(o.noCase, a, b)
  {
    hide Fold, IsLess;
    var x, y := Fold(o.noCase, a), Fold(o.noCase, b);
    NeitherLess(x, y);
    same := !IsLess(x, y) && !IsLess(y, x);
  }

  datatype Turn = GoOn | TagFound | TextEnds

  /** One turn of the loop: the next line goes to its place, unless it is the tag. */
  method CompactLine(o: Options, buf: array<char>, ghost v: nat, w: nat, p: nat, ghost end: nat, tagStart: nat,
                     ghost tag: string, ghost b0: seq<char>, ghost done: seq<string>)
    returns (turn: Turn, w': nat, p': nat, q: nat, c: char)
    requires v <= w <= p <= end < |b0| && Compacting(o, tag, b0, buf[..], v, w, p, end, done)
    requires StringAt(b0, tagStart, tag) && (tagStart + |tag| < v || tagStart + |tag| == v == end)
    modifies buf
    ensures q == p + LineLen(b0[p..end]) && c == b0[q]
    ensures var line := b0[p..end][..LineLen(b0[p..end])];
            match turn
            case GoOn => v <= w' <= p' <= end && p < p' && Compacting(o, tag, b0, buf[..], v, w', p', end, done + [line])
            case TagFound =>
              && Same(o.noCase, line, tag) && buf[v..w] == Ended(done) && buf[q] == NIL
              && OnlyWithin(b0, buf[..], v, q + 1) && (w == p ==> buf[..] == old(buf[..])[q := NIL])
            case TextEnds =>
              && !Same(o.noCase, line, tag) && q == end && OnlyWithin(b0, buf[..], v, end)
              && w + |line| <= end && buf[v..w + |line|] == Ended(done) + line && buf[w + |line|] == NIL && NIL !in line
  {
    hide Same, AfterLine, TakeBlock, Ended, LineLen, Compacting, Join, SkipNewLine;
    ghost var t := b0[p..end];
    ghost var line, before := t[..LineLen(t)], buf[..];
    CompactingText(o, tag, b0, before, v, w, p, end, done);
    q, c := MoveLine(buf, w, p, end, t);
    w', p' := w + (q - p), p;
    LineMoved(b0, before, buf[..], v, w, p, q, line, Ended(done));
    TagKept(b0, buf[..], tagStart, tag, v, q, end);
    var text := ReadString(buf, w, line);
    var name := ReadString(buf, tagStart, tag);
    var same := SameText(o, text, name);
    if same {
      return TagFound, w', p', q, c;
    }
    if c == NIL {
      EndsAtNul(b0, p, end, q, t);
      return TextEnds, w', p', q, c;
    }
    p' := NextLine(o, buf, v, w', p, q, c, end, tag, b0, before, done, t, line);
    w' := w' + 1;
    turn := GoOn;
  }

  /** The line is no tag and not the last: both cursors go on behind it. */
  method NextLine(o: Options, buf: array<char>, ghost v: nat, w: nat, p: nat, q: nat, c: char, ghost end: nat, ghost tag: string,
                  ghost b0: seq<char>, ghost before: seq<char>, ghost done: seq<string>, ghost t: string, ghost line: string)
    returns (p': nat)
    requires v <= w <= q < end < buf.Length && p <= q && c != NIL && |line| <= w
    requires Unread(b0, p, end, t) && t == b0[p..end] && q == p + LineLen(t) && line == t[..LineLen(t)] && c == b0[q]
    requires |before| == buf.Length && v <= w - |line| <= p && Compacting(o, tag, b0, before, v, w - |line|, p, end, done)
    requires !Same(o.noCase, line, tag)
    requires OnlyWithin(b0, buf[..], v, q + 1) && buf[v..w] == before[v..w - |line|] + line
    modifies buf
    ensures w < p' <= end && p < p' && Compacting(o, tag, b0, buf[..], v, w + 1, p', end, done + [line])
  {
    hide Same, AfterLine, TakeBlock, Ended, LineLen, Compacting, Join, SkipNewLine;
    ghost var moved := buf[..];
    RestOfText(b0, moved, p, end, q, t);
    p' := RestoreEnd(buf, w, q, c, end, t[q - p..]);
    LineFinished(b0, moved, buf[..], v, w, p', q, before[v..w - |line|] + line);
    AfterLineAt(b0, buf[..], p, end, q, p', t);
    LineDone(o, tag, b0, before, v, w - |line|, p, end, done, buf[..], p');
  }

  /** A NUL behind the line is the end of the text. */
  lemma EndsAtNul(b0: seq<char>, p: nat, end: nat, q: nat, t: string)
    requires Unread(b0, p, end, t) && p <= q <= end && b0[q] == NIL
    ensures q == end
  {
    assert forall i :: p <= i < end ==> b0[i] == t[i - p] && t[i - p] in t;
  }

  /** What follows the line is still there. */
  lemma RestOfText(b0: seq<char>, b: seq<char>, p: nat, end: nat, q: nat, t: string)
    requires Unread(b0, p, end, t) && |b| == |b0| && p <= q < end && forall i :: q < i < |b0| ==> b[i] == b0[i]
    ensures Unread(b[q := b0[q]], q, end, t[q - p..])
  {
    assert forall x :: x in t[q - p..] ==> x in t;
    assert b[q := b0[q]][q..end] == t[q - p..];
  }

  lemma LineFinished(b0: seq<char>, b: seq<char>, b': seq<char>, v: nat, w: nat, p: nat, q: nat, head: string)
    requires v <= w <= q < p && q < |b0| && OnlyWithin(b0, b, v, q + 1) && b[v..w] == head && OnlyWithin(b, b', w, p)
    requires w < |b'| && b'[w] == '\n'
    ensures OnlyWithin(b0, b', v, p) && b'[v..w + 1] == head + "\n"
  {
    assert b'[v..w] == b[v..w];
    assert b'[v..w + 1] == b'[v..w] + [b'[w]];
  }

  lemma AfterLineAt(b0: seq<char>, b: seq<char>, p: nat, end: nat, q: nat, p': nat, t: string)
    requires Unread(b0, p, end, t) && q == p + LineLen(t) && q < p' <= end && q < end
    requires Unread(b, p', end, SkipNewLine(t[q - p..])) && |b| == |b0| && forall i :: p' <= i < end ==> b[i] == b0[i]
    ensures b0[p'..end] == AfterLine(t)
  {
    assert b0[p'..end] == b[p'..end];
  }

  /** Puts the end of the line back, moves the reading cursor behind it and writes a single newline. */
  method RestoreEnd(buf: array<char>, w: nat, q: nat, c: char, ghost end: nat, ghost t: string) returns (p: nat)
    requires w <= q < end < buf.Length && c != NIL
    requires Unread(buf[..][q := c], q, end, t)
    modifies buf
    ensures q < p <= end && Unread(buf[..], p, end, SkipNewLine(t))
    ensures OnlyWithin(old(buf[..]), buf[..], w, p) && buf[w] == '\n'
    ensures forall i :: q < i < end ==> buf[i] == old(buf[i])
  {
    buf[q] := c;
    assert buf[..] == old(buf[..])[q := c];
    p := SkipEnd(buf, q, end, t);
    buf[w] := '\n';
  }

  /** Ends the value before its last newline, and moves the reading cursor behind the tag line. */
  method CloseBlock(buf: array<char>, v: nat, w: nat, q: nat, c: char, ghost end: nat,
                    ghost b0: seq<char>, ghost p0: nat, ghost t: string, ghost done: seq<string>)
    returns (ok: bool, p: nat)
    requires 0 < v <= w <= q <= end < buf.Length && buf[v..w] == Ended(done) && NIL !in Ended(done)
    requires Unread(b0, p0, end, t) && q == p0 + LineLen(t) && c == b0[q] && buf[q] == NIL
    requires OnlyWithin(b0, buf[..], v, q + 1) && (done == [] ==> buf[..] == b0[q := NIL])
    modifies buf
    ensures ok && done == [] ==> buf[..] == b0[v - 1 := NIL]
    ensures (ok <==> v != q) && q <= p <= end && OnlyWithin(b0, buf[..], v - 1, end)
    ensures ok ==> Unread(buf[..], p, end, AfterLine(t))
    ensures ok ==> OnlyWithin(b0, buf[..], if done == [] then v - 1 else v, p)
    ensures done != [] ==> ok && StringAt(buf[..], v, Join(done)) && v + |Join(done)| < p
  {
    hide AfterLine, LineLen, Ended, Join, SkipNewLine;
    EndedLength(done);
    if v == q {
      return false, q;
    }
    buf[w - 1] := NIL;
    ghost var closed := buf[..];
    if done != [] {
      ClosedString(closed, v, w, done);
    }
    p := PassTagLine(buf, q, c, end, b0, p0, t);
    ok := true;
    if done != [] {
      StringKept(closed, buf[..], v, Join(done), q, q + 1);
    } else {
      EndPutBack(b0, q, v - 1);
    }
  }

  /** Puts the end of the tag line back and goes behind it. */
  method PassTagLine(buf: array<char>, q: nat, c: char, ghost end: nat, ghost b0: seq<char>, ghost p0: nat, ghost t: string)
    returns (p: nat)
    requires Unread(b0, p0, end, t) && q == p0 + LineLen(t) && buf.Length == |b0| && c == b0[q] && buf[q] == NIL
    requires forall i :: q < i < |b0| ==> buf[i] == b0[i]
    modifies buf
    ensures q <= p <= end && (q == p ==> q == end) && Unread(buf[..], p, end, AfterLine(t))
    ensures buf[..] == old(buf[..])[q := c]
  {
    hide AfterLine, LineLen, SkipNewLine;
    ghost var closed := buf[..];
    TextAfter(t);
    if c != NIL {
      RestOfText(b0, closed, p0, end, q, t);
      buf[q] := c;
      assert buf[..] == closed[q := c];
      p := SkipEnd(buf, q, end, t[q - p0..]);
    } else {
      NoNil(b0, p0, end, q, t);
      p := q;
    }
  }

  lemma EndPutBack(b: seq<char>, q: nat, i: nat)
    requires i < q < |b|
    ensures b[q := NIL][i := NIL][q := b[q]] == b[i := NIL]
    ensures b[q] == NIL ==> b[q := NIL][i := NIL] == b[i := NIL]
  {
  }

  lemma EndedLength(lines: seq<string>)
    ensures lines == [] <==> Ended(lines) == ""
  {
  }

  lemma ClosedString(b: seq<char>, v: nat, w: nat, done: seq<string>)
    requires done != [] && NIL !in Ended(done) && v < w <= |b| && |Ended(done)| == w - v
    requires b[v..w - 1] == Ended(done)[..w - v - 1] && b[w - 1] == NIL
    ensures StringAt(b, v, Join(done)) && v + |Join(done)| == w - 1
  {
    hide Ended, Join;
    EndedIsJoin(done);
    ClosedText(b, v, w, Join(done), Ended(done));
  }

  lemma ClosedText(b: seq<char>, v: nat, w: nat, j: string, e: string)
    requires e == j + "\n" && NIL !in e && v < w <= |b| && |e| == w - v && b[v..w - 1] == e[..w - v - 1]
    requires b[w - 1] == NIL
    ensures StringAt(b, v, j) && v + |j| == w - 1
  {
    assert e[..w - v - 1] == j;
    assert forall i :: 0 <= i < |j| ==> j[i] == e[i] && e[i] in e;
  }

  lemma TextAfter(t: string)
    ensures AfterLine(t) == if LineLen(t) == |t| then "" else SkipNewLine(t[LineLen(t)..])
  {
  }

  /** Pulls the lines of a value together, up to the end tag, whose name stands at tagStart. The value is
      the lines before the tag joined by single newlines, whatever ended them; the tag and the text ahead
      are not touched, and the cursor ends behind the tag line. If the tag is on the first line there is
      no place to end the value, and the string at v is all the text from there on. */
  method LoadMultiLineText(o: Options, buf: array<char>, v: nat, ghost end: nat, tagStart: nat, ghost tag: string)
    returns (ok: bool, p: nat)
    requires v <= end < buf.Length && Unread(buf[..], v, end, buf[v..end])
    requires StringAt(buf[..], tagStart, tag) && 0 < v && (tagStart + |tag| < v || tagStart + |tag| == v == end)
    modifies buf
    ensures var b := TakeBlock(o.noCase, tag, old(buf[v..end]));
            && (ok <==> !(b.tagged && b.lines == [] && LineLen(old(buf[v..end])) == 0))
            && OnlyWithin(old(buf[..]), buf[..], v - 1, end) && v <= p <= end
            && (ok ==> Unread(buf[..], p, end, b.rest))
            && (b.tagged && b.lines == [] ==> ok ==>
                  buf[..] == old(buf[..])[v - 1 := NIL] && StringAt(buf[..], v, old(buf[v..end])))
            && (ok ==> (StringAt(buf[..], v, Join(b.lines)) <==> !(b.tagged && b.lines == [])))
            && (!(b.tagged && b.lines == []) ==>
                  && StringAt(buf[..], v, Join(b.lines)) && OnlyWithin(old(buf[..]), buf[..], v, p)
                  && (if b.tagged then v + |Join(b.lines)| < p else v + |Join(b.lines)| <= p == end))
  {
    hide Fold, LineLen, AfterLine, Same, TakeBlock, Compacting, Ended, Join;
    var w := v;
    p := v;
    ghost var b0, done := buf[..], [];
    NothingDone(o, tag, b0, v, end);
    while true
      invariant v <= w <= p <= end && Compacting(o, tag, b0, buf[..], v, w, p, end, done) && (done == [] ==> p == v)
      decreases end - p
    {
      ghost var t, before := b0[p..end], buf[..];
      CompactingText(o, tag, b0, buf[..], v, w, p, end, done);
      UnreadStays(b0, buf[..], p, end, t);
      BlockDone(o, tag, b0, buf[..], v, w, p, end, done);
      var turn, w', p', q, c := CompactLine(o, buf, v, w, p, end, tagStart, tag, b0, done);
      if turn == TextEnds {
        JoinedLines(done, t[..LineLen(t)]);
        assert buf[end] == NIL;
        return true, q;
      }
      if turn == TagFound {
        if done == [] {
          WholeBuffer(b0, before, v);
        }
        ok, p := CloseBlock(buf, v, w, q, c, end, b0, p, t, done);
        if ok && done == [] {
          NotEmptyString(b0, v, end, q, t);
          WholeRest(b0, v, end);
        }
        return;
      }
      done := done + [t[..LineLen(t)]];
      w, p := w', p';
    }
  }

  lemma WholeBuffer(a: seq<char>, b: seq<char>, v: nat)
    requires OnlyWithin(a, b, v, v)
    ensures a == b
  {
  }

  lemma NotEmptyString(b0: seq<char>, v: nat, end: nat, q: nat, t: string)
    requires 0 < v < q <= end && Unread(b0, v, end, t)
    ensures !StringAt(b0[v - 1 := NIL], v, Join([]))
  {
    assert b0[v] == t[0] && t[0] in t;
  }

  lemma WholeRest(b0: seq<char>, v: nat, end: nat)
    requires 0 < v <= end < |b0| && Unread(b0, v, end, b0[v..end])
    ensures StringAt(b0[v - 1 := NIL], v, b0[v..end])
  {
  }

  lemma UnreadStays(b0: seq<char>, b: seq<char>, p: nat, end: nat, t: string)
    requires Unread(b, p, end, t) && |b0| == |b| && forall i :: p <= i < |b| ==> b0[i] == b[i]
    ensures Unread(b0, p, end, t)
  {
    assert b0[p..end] == b[p..end];
  }

  lemma JoinedLines(done: seq<string>, line: string)
    ensures Ended(done) + line == Join(done + [line])
  {
    if done == [] {
      assert done + [line] == [line];
    } else {
      EndedIsJoin(done);
      JoinAppend(done, line);
    }
  }

  lemma NothingDone(o: Options, tag: string, b: seq<char>, v: nat, end: nat)
    requires v <= end < |b| && Unread(b, v, end, b[v..end])
    ensures Compacting(o, tag, b, b, v, v, v, end, [])
  {
    hide TakeBlock;
    var k := TakeBlock(o.noCase, tag, b[v..end]);
    assert [] + k.lines == k.lines;
  }

  // ---------- comments ----------

  method SkipSpacesAt(buf: array<char>, p: nat, ghost end: nat, ghost t: string) returns (r: nat)
    requires Unread(buf[..], p, end, t)
    ensures p <= r <= end && Unread(buf[..], r, end, SkipSpaces(t))
  {
    r := p;
    while IsSpace(buf[r])
      invariant p <= r <= end && Unread(buf[..], r, end, t[r - p..])
      invariant SkipSpaces(t[r - p..]) == SkipSpaces(t)
      decreases end - r
    {
      assert t[r - p..][0] == buf[r] && t[r - p..][1..] == t[r + 1 - p..];
      r := r + 1;
    }
    assert r < end ==> t[r - p..][0] == buf[r];
  }

  /** As SkipSpacesAt, counting the lines. */
  method SkipLinesAt(buf: array<char>, p: nat, ghost end: nat, ghost t: string) returns (r: nat, lines: nat)
    requires Unread(buf[..], p, end, t)
    ensures p + lines <= r <= end && Unread(buf[..], r, end, SkipSpaces(t)) && lines == BlankLineEnds(t)
    ensures r > p <==> IsSpace(buf[p])
  {
    r, lines := p, 0;
    while IsSpace(buf[r])
      invariant p + lines <= r <= end && Unread(buf[..], r, end, t[r - p..])
      invariant SkipSpaces(t[r - p..]) == SkipSpaces(t) && lines + BlankLineEnds(t[r - p..]) == BlankLineEnds(t)
      invariant r > p ==> IsSpace(buf[p])
      decreases end - r
    {
      ghost var u := t[r - p..];
      assert u[0] == buf[r] && u[1..] == t[r + 1 - p..];
      if IsNewLine(buf[r]) {
        lines := lines + 1;
        SpacesOverLineEnd(u);
        var next := SkipEnd(buf, r, end, u);
        assert SkipNewLine(u) == t[next - p..];
        r := next;
      } else {
        r := r + 1;
      }
    }
    assert r < end ==> t[r - p..][0] == buf[r];
  }

  lemma SpacesOverLineEnd(u: string)
    requires u != "" && IsNewLine(u[0])
    ensures SkipSpaces(SkipNewLine(u)) == SkipSpaces(u)
  {
    if u[0] == '\r' && |u| > 1 && u[1] == '\n' {
      assert u[1..][1..] == u[2..];
    }
  }

  /** The comment from v on is done up to p, its text standing from v to w. */
  ghost predicate Commented(b0: seq<char>, b: seq<char>, v: nat, w: nat, p: nat, end: nat, blankLines: bool, done: string) {
    && v <= w <= p <= end < |b0| && OnlyWithin(b0, b, v, p) && Unread(b0, p, end, b0[p..end])
    && CommentEnd(b0[p..end], blankLines) == CommentEnd(b0[v..end], blankLines)
    && CommentText(b0[v..end], blankLines) == done + CommentText(b0[p..end], blankLines)
    && b[v..w] == done && NIL !in done
  }

  /** Pulls the lines of a comment together, up to the first line that is none, with single newlines
      between them. */
  method LoadComment(o: Options, buf: array<char>, v: nat, ghost end: nat, blankLines: bool) returns (ok: bool, p: nat)
    requires v <= end < buf.Length && Unread(buf[..], v, end, buf[v..end])
    modifies buf
    ensures v <= p && Unread(buf[..], p, end, CommentEnd(old(buf[v..end]), blankLines))
    ensures OnlyWithin(old(buf[..]), buf[..], v, p) && ok == (p != v)
    ensures ok ==> var text := CommentText(old(buf[v..end]), blankLines);
                   text != "" && StringAt(buf[..], v, text[..|text| - 1])
  {
    hide CommentEnd, CommentText, Unread, Commented, StringAt;
    var w := v;
    p := v;
    ghost var b0, done := buf[..], "";
    CommentBegins(b0, v, end, blankLines);
    while true
      invariant v <= w <= p <= end && Commented(b0, buf[..], v, w, p, end, blankLines, done)
      invariant p == v || w > v || (p < end && IsComment(buf[p]))
      decreases end - p
    {
      AtCursor(b0, buf[..], v, w, p, end, blankLines, done);
      if !IsComment(buf[p]) {
        NoCommentHere(b0[p..end]);
        if !blankLines {
          break;
        }
        var go;
        go, w, p, done := BlanksTurn(buf, v, w, p, end, b0, done);
        if !go {
          break;
        }
      } else {
        var ended;
        ended, w, p, done := LineTurn(buf, v, w, p, end, blankLines, b0, done);
        if ended {
          return true, p;
        }
      }
    }
    if v == p {
      NothingCommented(b0, buf[..], v, w, end, blankLines, done);
      return false, p;
    }
    CommentCloses(b0, buf[..], v, w, p, end, blankLines, done);
    buf[w - 1] := NIL;
    return true, p;
  }

  lemma CommentBegins(b: seq<char>, v: nat, end: nat, blankLines: bool)
    requires v <= end < |b| && Unread(b, v, end, b[v..end])
    ensures Commented(b, b, v, v, v, end, blankLines, "")
  {
    hide CommentEnd, CommentText;
    var t := CommentText(b[v..end], blankLines);
    assert "" + t == t && b[v..v] == "";
  }

  lemma AtCursor(b0: seq<char>, b: seq<char>, v: nat, w: nat, p: nat, end: nat, blankLines: bool, done: string)
    requires Commented(b0, b, v, w, p, end, blankLines, done)
    ensures |b| == |b0| && Unread(b, p, end, b0[p..end]) && (b0[p..end] != "" ==> b0[p..end][0] == b[p])
    ensures b0[p..end] == "" ==> b[p] == NIL
  {
    hide CommentEnd, CommentText;
    assert b[p..end] == b0[p..end];
  }

  lemma NoCommentHere(t: string)
    requires t == "" || !IsComment(t[0])
    ensures CommentEnd(t, false) == t && CommentText(t, false) == ""
  {
  }

  lemma NothingCommented(b0: seq<char>, b: seq<char>, v: nat, w: nat, end: nat, blankLines: bool, done: string)
    requires Commented(b0, b, v, w, v, end, blankLines, done) && CommentEnd(b0[v..end], blankLines) == b0[v..end]
    ensures Unread(b, v, end, CommentEnd(b0[v..end], blankLines)) && OnlyWithin(b0, b, v, v)
  {
    hide CommentEnd, CommentText;
    WholeBuffer(b0, b, v);
  }

  /** At the end the last newline is cut off. */
  lemma CommentCloses(b0: seq<char>, b: seq<char>, v: nat, w: nat, p: nat, end: nat, blankLines: bool, done: string)
    requires Commented(b0, b, v, w, p, end, blankLines, done) && v < w
    requires CommentEnd(b0[p..end], blankLines) == b0[p..end] && CommentText(b0[p..end], blankLines) == ""
    ensures var text, b' := CommentText(b0[v..end], blankLines), b[w - 1 := NIL];
            && text != "" && StringAt(b', v, text[..|text| - 1])
            && Unread(b', p, end, CommentEnd(b0[v..end], blankLines)) && OnlyWithin(b0, b', v, p)
  {
    hide CommentEnd, CommentText;
    assert done + "" == done;
    CloseText(b, v, w, done);
    assert b[w - 1 := NIL][p..end] == b0[p..end];
  }

  /** Blank lines are taken along if another comment follows. */
  method BlanksTurn(buf: array<char>, ghost v: nat, w: nat, p: nat, ghost end: nat, ghost b0: seq<char>, ghost done: string)
    returns (go: bool, w': nat, p': nat, ghost done': string)
    requires Commented(b0, buf[..], v, w, p, end, true, done) && buf.Length == |b0|
    requires Unread(buf[..], p, end, b0[p..end]) && !IsComment(buf[p]) && (b0[p..end] != "" ==> b0[p..end][0] == buf[p])
    modifies buf
    ensures v <= w' <= p' <= end && Commented(b0, buf[..], v, w', p', end, true, done')
    ensures if go then p < p' < end && IsComment(buf[p'])
            else w' == w && p' == p && CommentEnd(b0[p..end], true) == b0[p..end] && CommentText(b0[p..end], true) == ""
  {
    hide CommentEnd, SkipSpaces, CommentText, BlankLineEnds, NewLines;
    ghost var t := b0[p..end];
    CommentStops(t, true);
    var r, lines := SkipLinesAt(buf, p, end, t);
    if !IsComment(buf[r]) {
      return false, w, p, done;
    }
    assert r < end && IsComment(buf[r]);
    BlankLines(buf, w, lines, p);
    assert r < end && IsComment(buf[r]);
    SameSuffix(b0, p, end, r, SkipSpaces(t));
    MoreText(CommentText(b0[v..end], true), done, NewLines(lines), CommentText(SkipSpaces(t), true));
    NewLinesAreText(lines);
    assert buf[v..w + lines] == done + NewLines(lines);
    return true, w + lines, r, done + NewLines(lines);
  }

  /** One line of the comment goes behind those before. */
  method LineTurn(buf: array<char>, ghost v: nat, w: nat, p: nat, ghost end: nat, blankLines: bool,
                  ghost b0: seq<char>, ghost done: string)
    returns (ended: bool, w': nat, p': nat, ghost done': string)
    requires w <= p < end < buf.Length == |b0| && Commented(b0, buf[..], v, w, p, end, blankLines, done)
    requires Unread(buf[..], p, end, b0[p..end]) && IsComment(buf[p])
    modifies buf
    ensures w < w' <= p' <= end && p < p'
    ensures if ended then
              var text := CommentText(b0[v..end], blankLines);
              && text != "" && StringAt(buf[..], v, text[..|text| - 1])
              && Unread(buf[..], p', end, CommentEnd(b0[v..end], blankLines)) && OnlyWithin(b0, buf[..], v, p')
            else Commented(b0, buf[..], v, w', p', end, blankLines, done')
  {
    hide CommentEnd, LineLen, AfterLine, CommentText, Unread, StringAt, Commented;
    ghost var t, before := b0[p..end], buf[..];
    AtCursor(b0, before, v, w, p, end, blankLines, done);
    ended, w', p' := CommentLine(buf, w, p, end, blankLines, t);
    done' := done + (t[..LineLen(t)] + "\n");
    if ended {
      LastLineTaken(b0, before, buf[..], v, w, p, p', end, blankLines, done, t);
    } else {
      LineTaken(b0, before, buf[..], v, w, w', p, p', end, blankLines, done, t);
    }
  }

  lemma LineTaken(b0: seq<char>, b: seq<char>, b': seq<char>, v: nat, w: nat, w': nat, p: nat, p': nat, end: nat,
                  blankLines: bool, done: string, t: string)
    requires Commented(b0, b, v, w, p, end, blankLines, done) && t == b0[p..end] && p < p' <= end && w' <= p'
    requires OnlyWithin(b, b', w, p') && Unread(b', p', end, AfterLine(t))
    requires CommentEnd(t, blankLines) == CommentEnd(AfterLine(t), blankLines)
    requires CommentText(t, blankLines) == t[..LineLen(t)] + "\n" + CommentText(AfterLine(t), blankLines)
    requires w' == w + LineLen(t) + 1 && b'[w..w'] == t[..LineLen(t)] + "\n"
    ensures Commented(b0, b', v, w', p', end, blankLines, done + (t[..LineLen(t)] + "\n"))
  {
    hide CommentEnd, LineLen, AfterLine, CommentText;
    var line := t[..LineLen(t)];
    LineIsText(t);
    assert b0[p'..end] == b'[p'..end] == AfterLine(t);
    MoreText(CommentText(b0[v..end], blankLines), done, line + "\n", CommentText(AfterLine(t), blankLines));
    assert b'[v..w] == b[v..w] && b'[v..w'] == b'[v..w] + b'[w..w'];
  }

  lemma LastLineTaken(b0: seq<char>, b: seq<char>, b': seq<char>, v: nat, w: nat, p: nat, p': nat, end: nat,
                      blankLines: bool, done: string, t: string)
    requires Commented(b0, b, v, w, p, end, blankLines, done) && t == b0[p..end] && p < p' <= end
    requires OnlyWithin(b, b', w, p') && Unread(b', p', end, AfterLine(t)) && AfterLine(t) == ""
    requires CommentEnd(t, blankLines) == CommentEnd("", blankLines) == ""
    requires CommentText(t, blankLines) == t[..LineLen(t)] + "\n" + CommentText("", blankLines)
    requires StringAt(b', w, t[..LineLen(t)])
    ensures var text := CommentText(b0[v..end], blankLines);
            && text != "" && StringAt(b', v, text[..|text| - 1])
            && Unread(b', p', end, CommentEnd(b0[v..end], blankLines)) && OnlyWithin(b0, b', v, p')
  {
    hide CommentEnd, LineLen, AfterLine, CommentText;
    var line := t[..LineLen(t)];
    TextAtEnd(blankLines, done + line);
    assert CommentText(b0[v..end], blankLines) == done + line + "\n";
    assert b'[v..w] == b[v..w];
    JoinText(b', v, done, line);
  }

  lemma MoreText(all: string, done: string, more: string, rest: string)
    requires all == done + (more + rest)
    ensures all == done + more + rest
  {
  }

  lemma {:induction false} NewLinesAreText(n: nat)
    ensures |NewLines(n)| == n && forall i :: 0 <= i < n ==> NewLines(n)[i] == '\n'
    decreases n
  {
    if n > 0 {
      NewLinesAreText(n - 1);
    }
  }

  lemma LineIsText(t: string)
    requires NIL !in t
    ensures NIL !in t[..LineLen(t)]
  {
    hide LineLen;
    assert forall x :: x in t[..LineLen(t)] ==> x in t;
  }

  lemma TextAtEnd(blankLines: bool, s: string)
    ensures CommentText("", blankLines) == "" && s + "\n" + "" == s + "\n" && (s + "\n")[..|s|] == s
  {
  }

  lemma JoinText(b: seq<char>, v: nat, s: string, t: string)
    requires v + |s| <= |b| && b[v..v + |s|] == s && NIL !in s && StringAt(b, v + |s|, t)
    ensures StringAt(b, v, s + t)
  {
    assert b[v..v + |s| + |t|] == s + t;
  }

  lemma CloseText(b: seq<char>, v: nat, w: nat, s: string)
    requires v < w <= |b| && b[v..w] == s && NIL !in s
    ensures StringAt(b[w - 1 := NIL], v, s[..|s| - 1])
  {
    assert b[w - 1 := NIL][v..w - 1] == s[..|s| - 1];
    assert forall x :: x in s[..|s| - 1] ==> x in s;
  }

  /** One line of a comment. */
  method CommentLine(buf: array<char>, w: nat, p: nat, ghost end: nat, blankLines: bool, ghost t: string)
    returns (ended: bool, w': nat, p': nat)
    requires w <= p < end < buf.Length && Unread(buf[..], p, end, t) && IsComment(buf[p])
    modifies buf
    ensures w < w' <= p' <= end && p < p' && OnlyWithin(old(buf[..]), buf[..], w, p')
    ensures Unread(buf[..], p', end, AfterLine(t)) && CommentEnd(t, blankLines) == CommentEnd(AfterLine(t), blankLines)
    ensures CommentText(t, blankLines) == t[..LineLen(t)] + "\n" + CommentText(AfterLine(t), blankLines)
    ensures ended ==> AfterLine(t) == "" && CommentEnd(AfterLine(t), blankLines) == ""
    ensures if ended then StringAt(buf[..], w, t[..LineLen(t)])
            else w' == w + LineLen(t) + 1 && buf[w..w'] == t[..LineLen(t)] + "\n"
  {
    hide CommentEnd, LineLen, AfterLine, SkipNewLine, CommentText;
    ghost var b0 := buf[..];
    assert t[0] == buf[p];
    CommentGoesOn(t, blankLines);
    TextAfter(t);
    CommentAtEnd(blankLines);
    var q, c := MoveLine(buf, w, p, end, t);
    CommentLineLen(t);
    if c == NIL {
      EndsAtNul(b0, p, end, q, t);
      assert buf[q..end] == "";
      return true, q - p + w, q;
    }
    RestOfText(b0, buf[..], p, end, q, t);
    w' := w + (q - p);
    p' := RestoreEnd(buf, w', q, c, end, t[q - p..]);
    w', ended := w' + 1, false;
  }

  lemma CommentLineLen(t: string)
    requires t != "" && IsComment(t[0])
    ensures LineLen(t) > 0
  {
  }

  /** What is unread after some writing behind it was there before. */
  lemma UnreadBack(b0: seq<char>, b: seq<char>, v: nat, p: nat, end: nat)
    requires OnlyWithin(b0, b, v, p) && p <= end < |b| && b[end] == NIL && NIL !in b[p..end]
    ensures Unread(b0, p, end, b0[p..end]) && b0[p..end] == b[p..end]
  {
  }

  /** A line that is no comment ends it, unless blank lines with another comment behind them are allowed. */
  lemma CommentStops(t: string, blankLines: bool)
    requires t == "" || !IsComment(t[0])
    ensures CommentEnd(t, blankLines)
         == if blankLines && t != "" && IsSpace(t[0]) && SkipSpaces(t) != "" && IsComment(SkipSpaces(t)[0])
              then CommentEnd(SkipSpaces(t), blankLines) else t
    ensures CommentText(t, blankLines)
         == if blankLines && t != "" && IsSpace(t[0]) && SkipSpaces(t) != "" && IsComment(SkipSpaces(t)[0])
              then NewLines(BlankLineEnds(t)) + CommentText(SkipSpaces(t), blankLines) else ""
  {
  }

  lemma CommentGoesOn(t: string, blankLines: bool)
    requires t != "" && IsComment(t[0])
    ensures CommentEnd(t, blankLines) == CommentEnd(AfterLine(t), blankLines)
    ensures CommentText(t, blankLines) == t[..LineLen(t)] + "\n" + CommentText(AfterLine(t), blankLines)
  {
  }

  lemma CommentAtEnd(blankLines: bool)
    ensures CommentEnd("", blankLines) == ""
  {
  }

  lemma SameSuffix(b0: seq<char>, p: nat, end: nat, r: nat, u: string)
    requires p <= r <= end < |b0| && Unread(b0, p, end, b0[p..end]) && u == b0[r..end]
    ensures Unread(b0, r, end, u)
  {
    assert u == b0[p..end][r - p..];
  }

  /** Writes newlines at w. */
  method BlankLines(buf: array<char>, w: nat, lines: nat, p: nat)
    requires w <= p && p + lines <= buf.Length
    modifies buf
    ensures OnlyWithin(old(buf[..]), buf[..], w, w + lines)
    ensures forall i :: w <= i < w + lines ==> buf[i] == '\n'
  {
    for i := 0 to lines
      invariant OnlyWithin(old(buf[..]), buf[..], w, w + lines)
      invariant forall j :: w <= j < w + i ==> buf[j] == '\n'
    {
      buf[w + i] := '\n';
    }
  }

  // ---------- entries ----------

  method UntilAt(buf: array<char>, p: nat, ghost end: nat, c: char, ghost t: string) returns (q: nat)
    requires Unread(buf[..], p, end, t)
    ensures q == p + Until(t, c) && Unread(buf[..], q, end, t[Until(t, c)..])
  {
    q := p;
    while buf[q] != NIL && buf[q] != c && !IsNewLine(buf[q])
      invariant p <= q <= end
      invariant p + Until(t, c) == q + Until(t[q - p..], c)
      decreases end - q
    {
      assert t[q - p..][0] == buf[q] && t[q - p..][1..] == t[q + 1 - p..];
      q := q + 1;
    }
    UntilStops(t[q - p..], c);
    assert q < end ==> t[q - p..][0] == t[q - p] == buf[q];
    SameSuffix(buf[..], p, end, q, t[q - p..]);
  }

  lemma UntilStops(u: string, c: char)
    ensures u == "" || u[0] == c || IsNewLine(u[0]) ==> Until(u, c) == 0
  {
  }

  method SkipBlanksAt(buf: array<char>, p: nat, ghost end: nat, ghost t: string) returns (r: nat)
    requires Unread(buf[..], p, end, t)
    ensures p <= r <= end && Unread(buf[..], r, end, SkipBlanks(t))
  {
    r := p;
    while buf[r] != NIL && !IsNewLine(buf[r]) && IsSpace(buf[r])
      invariant p <= r <= end && Unread(buf[..], r, end, t[r - p..])
      invariant SkipBlanks(t[r - p..]) == SkipBlanks(t)
      decreases end - r
    {
      assert t[r - p..][0] == buf[r] && t[r - p..][1..] == t[r + 1 - p..];
      r := r + 1;
    }
    assert r < end ==> t[r - p..][0] == buf[r];
  }

  /** Cuts the text s, which stands from from to to, behind its last character that is no space. */
  method CutAt(buf: array<char>, from: nat, to: nat, ghost s: string)
    requires from <= to < buf.Length && s == buf[from..to] && NIL !in s
    modifies buf
    ensures StringAt(buf[..], from, TrimRight(s)) && OnlyWithin(old(buf[..]), buf[..], from, to + 1)
    ensures buf[..] == old(buf[..])[from + |TrimRight(s)| := NIL]
  {
    hide TrimRight;
    var trail := to;
    assert s[..to - from] == s;
    assert forall i :: 0 <= i < |s| ==> s[i] == buf[from + i];
    while trail > from && IsSpace(buf[trail - 1])
      invariant from <= trail <= to && buf[..] == old(buf[..])
      invariant TrimRight(s[..trail - from]) == TrimRight(s)
    {
      assert s[trail - from - 1] == buf[from..to][trail - from - 1];
      TrimStep(s, trail - from);
      trail := trail - 1;
    }
    assert trail > from ==> s[trail - from - 1] == buf[from..to][trail - from - 1] == buf[trail - 1];
    TrimStop(s, trail - from);
    ghost var b := buf[..];
    buf[trail] := NIL;
    assert forall i :: 0 <= i < |s| ==> s[i] == b[from..to][i] == b[from + i];
    FrontAt(buf[..], from, s, trail - from);
  }

  lemma TrimStep(s: string, k: nat)
    requires 0 < k <= |s| && IsSpace(s[k - 1])
    ensures TrimRight(s[..k]) == TrimRight(s[..k - 1])
  {
    assert s[..k][..k - 1] == s[..k - 1];
  }

  lemma TrimStop(s: string, k: nat)
    requires k <= |s| && (k > 0 ==> !IsSpace(s[k - 1]))
    ensures TrimRight(s[..k]) == s[..k]
  {
  }

  /** The text before and behind a place in it. */
  lemma Part(b: seq<char>, p: nat, q: nat, end: nat, t: string)
    requires Unread(b, p, end, t) && p <= q <= end
    ensures t[..q - p] == b[p..q] && NIL !in t[..q - p] && Unread(b, q, end, t[q - p..])
  {
    assert t[q - p..] == b[q..end];
    assert forall x :: x in t[..q - p] ==> x in t;
    assert forall x :: x in t[q - p..] ==> x in t;
  }

  lemma AtPart(b: seq<char>, p: nat, q: nat, end: nat, t: string)
    requires Unread(b, p, end, t) && p <= q <= end
    ensures b[q] == if q == end then NIL else t[q - p]
  {
  }

  lemma UntilMoves(t: string, c: char)
    requires t != "" && !IsNewLine(t[0]) && (Until(t, c) < |t| ==> t[Until(t, c)] != c)
    ensures Until(t, c) > 0
  {
  }

  lemma LineMoves(t: string)
    requires t != "" && !IsNewLine(t[0])
    ensures LineLen(t) > 0
  {
  }

  /** A line that starts with a bracket. */
  method SectionLine(buf: array<char>, p: nat, ghost end: nat, ghost t: string) returns (ok: bool, name: nat, p': nat)
    requires Unread(buf[..], p, end, t) && t != "" && t[0] == '['
    modifies buf
    ensures var u := SkipSpaces(t[1..]);
            var n := Until(u, ']');
            && p < p' && ok == (n < |u| && u[n] == ']')
            && (if ok then
                  && p < name && StringAt(buf[..], name, TrimRight(u[..n])) && name + |TrimRight(u[..n])| < p'
                  && OnlyWithin(old(buf[..]), buf[..], p, p')
                  && Unread(buf[..], p', end, u[n + 1..][LineLen(u[n + 1..])..])
                else buf[..] == old(buf[..]) && Unread(buf[..], p', end, u[n..]) && p < name <= p')
  {
    hide SkipSpaces, Until, TrimRight, LineLen;
    ghost var b := buf[..];
    Part(b, p, p + 1, end, t);
    name := SkipSpacesAt(buf, p + 1, end, t[1..]);
    ghost var u := SkipSpaces(t[1..]);
    ghost var n := Until(u, ']');
    var q := UntilAt(buf, name, end, ']', u);
    AtPart(b, name, q, end, u);
    if buf[q] != ']' {
      return false, name, q;
    }
    p' := CloseName(buf, name, q, end, u);
    ok := true;
  }

  /** Cuts the name off at its bracket and goes on to the end of the line. */
  method CloseName(buf: array<char>, name: nat, q: nat, ghost end: nat, ghost u: string) returns (p: nat)
    requires Unread(buf[..], name, end, u) && name <= q < end
    modifies buf
    ensures q < p && OnlyWithin(old(buf[..]), buf[..], name, q + 1)
    ensures StringAt(buf[..], name, TrimRight(u[..q - name])) && name + |TrimRight(u[..q - name])| <= q
    ensures Unread(buf[..], p, end, u[q - name + 1..][LineLen(u[q - name + 1..])..])
  {
    hide TrimRight, LineLen;
    ghost var b, n := buf[..], q - name;
    Part(b, name, q, end, u);
    Part(b, name, q + 1, end, u);
    CutAt(buf, name, q, u[..n]);
    UnreadStays(buf[..], b, q + 1, end, u[n + 1..]);
    ghost var w := u[n + 1..];
    p := EndOfLine(buf, q + 1, end, w);
    Part(buf[..], q + 1, p, end, w);
  }

  /** The key of a line and the place where its value starts. */
  method KeyPart(buf: array<char>, p: nat, ghost end: nat, ghost t: string) returns (ok: bool, p': nat)
    requires Unread(buf[..], p, end, t) && t != "" && t[0] != '\n' && t[0] != '\r'
    modifies buf
    ensures var n := Until(t, '=');
            && p < p' && ok == (0 < n < |t| && t[n] == '=')
            && (if ok then
                  && StringAt(buf[..], p, TrimRight(t[..n])) && p + |TrimRight(t[..n])| < p'
                  && OnlyWithin(old(buf[..]), buf[..], p, p') && Unread(buf[..], p', end, SkipBlanks(t[n + 1..]))
                else
                  && buf[..] == old(buf[..])
                  && Unread(buf[..], p', end, if n < |t| && t[n] == '=' then t[LineLen(t)..] else t[n..]))
  {
    hide TrimRight, LineLen, SkipBlanks;
    ghost var b := buf[..];
    ghost var n := Until(t, '=');
    var q := UntilAt(buf, p, end, '=', t);
    AtPart(b, p, q, end, t);
    AtPart(b, p, p, end, t);
    if buf[q] != '=' {
      UntilMoves(t, '=');
      return false, q;
    }
    if q == p {
      LineMoves(t);
      p' := EndOfLine(buf, p, end, t);
      Part(b, p, p', end, t);
      return false, p';
    }
    Part(b, p, q, end, t);
    Part(b, p, q + 1, end, t);
    CutAt(buf, p, q, t[..n]);
    UnreadStays(buf[..], b, q + 1, end, t[n + 1..]);
    p' := SkipBlanksAt(buf, q + 1, end, t[n + 1..]);
    ok := true;
  }

  method IsMultiLineTag(buf: array<char>, p: nat, ghost val: string) returns (tag: bool)
    requires StringAt(buf[..], p, val)
    ensures tag == StartsWith(val, "<<<")
  {
    assert forall i :: 0 <= i < |val| ==> buf[p + i] == val[i] && val[i] != NIL;
    assert buf[p + |val|] == NIL;
    tag := buf[p] == '<' && buf[p + 1] == '<' && buf[p + 2] == '<';
    assert tag ==> |val| >= 3 && val[..3] == "<<<";
  }

  /** The cursor p is behind the end of the text at v, which may be the end of the buffer. */
  ghost predicate Passed(v: nat, text: string, p: nat, end: nat) {
    v + |text| < p || v + |text| == p == end
  }

  /** The value of a key: the rest of the line, or the lines up to an end tag. */
  method ValuePart(o: Options, buf: array<char>, p: nat, ghost end: nat, ghost key: string, ghost v: string, ghost unclosed: bool)
    returns (found: bool, val: nat, p': nat)
    requires 0 < p && Unread(buf[..], p, end, v)
    modifies buf
    ensures p <= p' <= end && OnlyWithin(old(buf[..]), buf[..], p, end)
    ensures var e := ValueOf(o, key, v, unclosed);
            && found == (e != Nothing) && val <= end
            && (found ==> Unread(buf[..], p', end, e.rest))
            && (found ==> p <= val <= p' && StringAt(buf[..], val, e.val.text))
            && (found && e.val.Exact? ==> Passed(val, e.val.text, p', end))
  {
    hide TrimRight, LineLen, AfterLine, TakeBlock, Join, SkipNewLine, StartsWith;
    ghost var b, n := buf[..], LineLen(v);
    ghost var text := TrimRight(v[..n]);
    var q;
    q, p' := CutValue(buf, p, end, v);
    val := p;
    var tag := false;
    if o.multiLine {
      tag := IsMultiLineTag(buf, p, text);
    }
    if tag {
      val := p';
      found, p' := TaggedValue(o, buf, p, q, val, end, text, AfterLine(v));
    } else {
      found := true;
    }
  }

  /** Cuts off the value at p; the cursor goes on to the next line first. */
  method CutValue(buf: array<char>, p: nat, ghost end: nat, ghost v: string) returns (q: nat, p': nat)
    requires Unread(buf[..], p, end, v)
    modifies buf
    ensures p <= q <= p' <= end && (q < p' || q == p' == end) && Unread(buf[..], p', end, AfterLine(v))
    ensures StringAt(buf[..], p, TrimRight(v[..LineLen(v)])) && p + |TrimRight(v[..LineLen(v)])| <= q
    ensures OnlyWithin(old(buf[..]), buf[..], p, end)
  {
    hide TrimRight, LineLen, AfterLine, SkipNewLine;
    ghost var b, n := buf[..], LineLen(v);
    q := EndOfLine(buf, p, end, v);
    TextAfter(v);
    Part(b, p, q, end, v);
    AtPart(b, p, q, end, v);
    p' := q;
    if buf[q] != NIL {
      p' := SkipEnd(buf, q, end, v[n..]);
    } else {
      NoNil(b, p, end, q, v);
    }
    CutAt(buf, p, q, v[..n]);
    UnreadStays(buf[..], b, p', end, AfterLine(v));
  }

  lemma NoNil(b: seq<char>, p: nat, end: nat, q: nat, t: string)
    requires Unread(b, p, end, t) && p <= q <= end && b[q] == NIL
    ensures q == end && t[q - p..] == ""
  {
    EndsAtNul(b, p, end, q, t);
  }

  /** The lines up to the tag named on the line of the key. */
  method TaggedValue(o: Options, buf: array<char>, p: nat, q: nat, next: nat, ghost end: nat, ghost text: string, ghost rest: string)
    returns (found: bool, p': nat)
    requires 0 < p && p + |text| <= q <= next <= end < buf.Length && (q < next || q == next == end)
    requires StringAt(buf[..], p, text) && StartsWith(text, "<<<") && Unread(buf[..], next, end, rest)
    modifies buf
    ensures next <= p' <= end && OnlyWithin(old(buf[..]), buf[..], p, end)
    ensures var b := TakeBlock(o.noCase, text[3..], rest);
            && found == !(b.tagged && b.lines == [] && text == "<<<")
            && (found ==> Unread(buf[..], p', end, b.rest))
            && (!(b.tagged && b.lines == []) ==> StringAt(buf[..], next, Join(b.lines)) && Passed(next, Join(b.lines), p', end))
            && (found && b.tagged && b.lines == [] ==> StringAt(buf[..], next, rest))
  {
    hide LineLen, AfterLine, TakeBlock, Join;
    StringTail(buf[..], p, text);
    if TakeBlock(o.noCase, text[3..], rest).tagged && TakeBlock(o.noCase, text[3..], rest).lines == [] {
      FirstLineTag(o, text[3..], rest);
    }
    found, p' := LoadMultiLineText(o, buf, next, end, p + 3, text[3..]);
    assert text == text[..3] + text[3..];
  }

  lemma StringTail(b: seq<char>, p: nat, text: string)
    requires StringAt(b, p, text) && |text| >= 3
    ensures StringAt(b, p + 3, text[3..])
  {
    assert text[3..] == b[p + 3..p + |text|];
    assert forall x :: x in text[3..] ==> x in text;
  }

  /** A tag on the first line is empty exactly when the line is. */
  lemma FirstLineTag(o: Options, tag: string, t: string)
    requires TakeBlock(o.noCase, tag, t).tagged && TakeBlock(o.noCase, tag, t).lines == []
    ensures LineLen(t) == 0 <==> tag == ""
  {
    assert |Fold(o.noCase, tag)| == |tag| && |Fold(o.noCase, t[..LineLen(t)])| == LineLen(t);
  }

  // ---------- the scan ----------

  /** What FindEntry returns: places in the buffer. */
  datatype Found = NoEntry | SectionAt(name: nat) | PairAt(key: nat, val: nat)

  /** The places found hold what a scan of the text finds, behind the old cursor and before the new one. */
  ghost predicate Reports(e: Entry, f: Found, b: seq<char>, p0: nat, p: nat, end: nat) {
    match e
    case Nothing => f == NoEntry
    case Header(name, rest) =>
      f.SectionAt? && p0 <= f.name && StringAt(b, f.name, name) && f.name + |name| < p && Unread(b, p, end, rest)
    case Pair(key, val, rest, _) =>
      && f.PairAt? && p0 <= f.key && StringAt(b, f.key, key) && f.key + |key| < p && Unread(b, p, end, rest)
      && p0 <= f.val <= end && StringAt(b, f.val, val.text) && (val.Exact? ==> Passed(f.val, val.text, p, end))
  }

  lemma NextAfterSpaces(o: Options, t: string, u: bool)
    ensures NextEntry(o, t, u) == NextEntry(o, SkipSpaces(t), u)
    ensures SkipSpaces(t) == "" ==> NextEntry(o, t, u) == Nothing
  {
    hide ValueOf, CommentEnd, Until, TrimRight, LineLen, SkipBlanks;
    assert SkipSpaces(SkipSpaces(t)) == SkipSpaces(t);
  }

  lemma NextAfterComment(o: Options, t: string, u: bool)
    requires t != "" && IsComment(t[0])
    ensures NextEntry(o, t, u) == NextEntry(o, CommentEnd(t, true), u)
  {
    hide ValueOf, CommentEnd;
  }

  lemma NextAtBracket(o: Options, t: string, unclosed: bool)
    requires t != "" && t[0] == '['
    ensures var u := SkipSpaces(t[1..]);
            var n := Until(u, ']');
            NextEntry(o, t, unclosed) == if n == |u| || u[n] != ']' then NextEntry(o, u[n..], true)
                                         else Header(TrimRight(u[..n]), u[n + 1..][LineLen(u[n + 1..])..])
  {
    hide ValueOf, CommentEnd, Until, TrimRight, LineLen;
  }

  lemma NextAtKey(o: Options, t: string, unclosed: bool)
    requires t != "" && !IsSpace(t[0]) && !IsComment(t[0]) && t[0] != '['
    ensures var n := Until(t, '=');
            NextEntry(o, t, unclosed) == if n == |t| || t[n] != '=' then NextEntry(o, t[n..], unclosed)
                                         else if n == 0 then NextEntry(o, t[LineLen(t)..], unclosed)
                                         else ValueOf(o, TrimRight(t[..n]), SkipBlanks(t[n + 1..]), unclosed)
  {
    hide ValueOf, CommentEnd, Until, TrimRight, LineLen, SkipBlanks;
  }

  /** Scans for the next section or key from the cursor p0 on. Nothing before the cursor is written, so
      the strings found earlier stay. A section header without a closing bracket that is skipped on the
      way to a key becomes its section all the same, by its place. */
  method FindEntry(o: Options, buf: array<char>, p0: nat, ghost end: nat) returns (f: Found, p: nat, header: Option<nat>)
    requires p0 <= end < buf.Length && Unread(buf[..], p0, end, buf[p0..end])
    modifies buf
    ensures OnlyWithin(old(buf[..]), buf[..], p0, end)
    ensures var e := NextEntry(o, old(buf[p0..end]), false);
            && Reports(e, f, buf[..], p0, p, end)
            && (e.Pair? ==> (header.Some? <==> e.unclosed) && (header.Some? ==> p0 < header.value <= f.key))
  {
    hide NextEntry, Reports, CommentEnd, SkipSpaces, Until, TrimRight, LineLen, StringAt;
    p, header := p0, None;
    ghost var b0, unclosed := buf[..], false;
    ghost var e := NextEntry(o, b0[p0..end], false);
    while true
      invariant p0 <= p <= end && OnlyWithin(b0, buf[..], p0, end)
      invariant (header.Some? <==> unclosed) && (header.Some? ==> p0 < header.value <= p)
      invariant Unread(buf[..], p, end, buf[p..end]) && NextEntry(o, buf[p..end], unclosed) == e
      decreases end - p
    {
      ghost var s := buf[p..end];
      NextAfterSpaces(o, s, unclosed);
      var r := SkipSpacesAt(buf, p, end, s);
      ghost var t := SkipSpaces(s);
      AtPart(buf[..], r, r, end, t);
      if buf[r] == NIL {
        NoNil(buf[..], r, end, r, t);
        ReportsNothing(buf[..], p0, r, end);
        return NoEntry, r, header;
      }
      if IsComment(buf[r]) {
        NextAfterComment(o, t, unclosed);
        ghost var before := buf[..];
        var _, next := LoadComment(o, buf, r, end, true);
        OnlyWithinTrans(b0, before, buf[..], p0, end, r, next);
        CommentShrinks(t);
        p := next;
      } else if buf[r] == '[' {
        NextAtBracket(o, t, unclosed);
        ghost var before := buf[..];
        var ok, name, next := SectionLine(buf, r, end, t);
        OnlyWithinTrans(b0, before, buf[..], p0, end, r, next);
        if ok {
          ReportsSection(e, buf[..], p0, next, end, name);
          return SectionAt(name), next, header;
        }
        p, header, unclosed := next, Some(name), true;
      } else {
        ghost var before := buf[..];
        var ok, g, next := KeyEntry(o, buf, p0, r, end, t, unclosed);
        OnlyWithinTrans(b0, before, buf[..], p0, end, r, end);
        if ok {
          return g, next, header;
        }
        p := next;
      }
    }
  }

  /** A line with a key, if it is one. */
  method KeyEntry(o: Options, buf: array<char>, ghost p0: nat, r: nat, ghost end: nat, ghost t: string, ghost unclosed: bool)
    returns (ok: bool, f: Found, p: nat)
    requires p0 <= r && Unread(buf[..], r, end, t)
    requires t != "" && !IsSpace(t[0]) && !IsComment(t[0]) && t[0] != '['
    modifies buf
    ensures OnlyWithin(old(buf[..]), buf[..], r, end) && r < p <= end
    ensures if ok then Reports(NextEntry(o, t, unclosed), f, buf[..], p0, p, end)
                       && (NextEntry(o, t, unclosed).Pair? ==> NextEntry(o, t, unclosed).unclosed == unclosed && f.key == r)
            else Unread(buf[..], p, end, buf[p..end]) && NextEntry(o, buf[p..end], unclosed) == NextEntry(o, t, unclosed)
  {
    hide NextEntry, Reports, CommentEnd, SkipSpaces, TrimRight, LineLen, SkipBlanks, ValueOf;
    NextAtKey(o, t, unclosed);
    ok, p := KeyPart(buf, r, end, t);
    f := NoEntry;
    if ok {
      ghost var key, v := TrimRight(t[..Until(t, '=')]), SkipBlanks(t[Until(t, '=') + 1..]);
      ghost var cut := buf[..];
      ghost var next := p;
      var found, val;
      found, val, p := ValuePart(o, buf, p, end, key, v, unclosed);
      OnlyWithinTrans(old(buf[..]), cut, buf[..], r, end, next, end);
      StringKept(cut, buf[..], r, key, next, end);
      KeyOfValue(o, key, v, unclosed);
      ReportsPair(ValueOf(o, key, v, unclosed), buf[..], p0, p, end, r, key, val, found);
      if found {
        f := PairAt(r, val);
      }
    }
  }

  lemma KeyOfValue(o: Options, key: string, v: string, unclosed: bool)
    ensures !ValueOf(o, key, v, unclosed).Header?
    ensures ValueOf(o, key, v, unclosed).Pair? ==>
      ValueOf(o, key, v, unclosed).key == key && ValueOf(o, key, v, unclosed).unclosed == unclosed
  {
  }

  lemma CommentShrinks(t: string)
    requires t != "" && IsComment(t[0])
    ensures |CommentEnd(t, true)| < |t|
  {
  }

  lemma ReportsSection(e: Entry, b: seq<char>, p0: nat, p: nat, end: nat, name: nat)
    requires e.Header? && p0 <= name && StringAt(b, name, e.name) && name + |e.name| < p && Unread(b, p, end, e.rest)
    ensures Reports(e, SectionAt(name), b, p0, p, end)
  {
  }

  lemma ReportsPair(e: Entry, b: seq<char>, p0: nat, p: nat, end: nat, key: nat, k: string, val: nat, found: bool)
    requires !e.Header? && found == (e != Nothing) && (found ==> e.key == k)
    requires p0 <= key && StringAt(b, key, k) && (found ==> key + |k| < p && Unread(b, p, end, e.rest))
    requires found ==> p0 <= val <= end && StringAt(b, val, e.val.text)
    requires found && e.val.Exact? ==> Passed(val, e.val.text, p, end)
    ensures Reports(e, if found then PairAt(key, val) else NoEntry, b, p0, p, end)
  {
  }

  lemma OnlyWithinTrans(a: seq<char>, b: seq<char>, c: seq<char>, from: int, to: int, from': int, to': int)
    requires OnlyWithin(a, b, from, to) && OnlyWithin(b, c, from', to') && from <= from' && to' <= to
    ensures OnlyWithin(a, c, from, to)
  {
  }

  lemma ReportsNothing(b: seq<char>, p0: nat, p: nat, end: nat)
    ensures Reports(Nothing, NoEntry, b, p0, p, end)
  {
  }
}
