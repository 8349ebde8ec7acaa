/** Which command names open or close a subscription or start the monitor, spelt out. */
module CommandNames {
  import opened Bytes
  import opened AsyncWorld

  /** The bytes spell the word, in letters of either case. */
  predicate Spells(name: seq<Byte>, word: string) {
    |name| == |word| && forall i :: 0 <= i < |word| ==> name[i] == word[i] as int || name[i] == word[i] as int - 32
  }

  predicate IsLowerWord(word: string) {
    forall i :: 0 <= i < |word| ==> 'a' <= word[i] <= 'z'
  }

  function WordBytes(word: string): (s: seq<Byte>)
    requires IsLowerWord(word)
    ensures |s| == |word| && forall i :: 0 <= i < |word| ==> s[i] == word[i] as int
  {
    seq(|word|, i requires 0 <= i < |word| => assert 'a' <= word[i] <= 'z'; word[i] as int)
  }

  /** A name without a carriage return starts, with its line end, with a word and a line end exactly if it
      spells the word. */
  lemma StartsIsSpells(name: seq<Byte>, word: string)
    requires CR !in name && IsLowerWord(word)
    ensures StartsWith(name + CRLF, WordBytes(word) + CRLF) <==> Spells(name, word)
  {
    var text, w := name + CRLF, WordBytes(word) + CRLF;
    assert forall i :: 0 <= i < |name| ==> text[i] == name[i] && name[i] in name;
    if StartsWith(text, w) {
      assert Lower(text[|word|]) == w[|word|] == CR;
      forall i | 0 <= i < |word| ensures name[i] == word[i] as int || name[i] == word[i] as int - 32 {
        assert Lower(text[i]) == w[i];
      }
    }
  }

  /** A word, or the same with a p in front. */
  predicate SpellsOrP(name: seq<Byte>, word: string) {
    Spells(name, word) || Spells(name, "p" + word)
  }

  lemma NamedIsSpelt(name: seq<Byte>, word: string)
    requires CR !in name && IsLowerWord(word) && word != "" && word[0] != 'p'
    ensures Named(name, WordBytes(word) + CRLF) <==> SpellsOrP(name, word)
  {
    var text := name + CRLF;
    if name != [] && Lower(name[0]) == 112 {
      assert text[1..] == name[1..] + CRLF;
      assert forall x :: x in name[1..] ==> x in name;
      StartsIsSpells(name[1..], word);
      PInFront(name, word);
    } else {
      StartsIsSpells(name, word);
      NoPInFront(name, word);
    }
  }

  lemma PInFront(name: seq<Byte>, word: string)
    requires name != [] && Lower(name[0]) == 112 && IsLowerWord(word) && word != "" && word[0] != 'p'
    ensures Spells(name[1..], word) <==> SpellsOrP(name, word)
  {
    var p := "p" + word;
    assert forall i :: 0 <= i < |word| ==> p[i + 1] == word[i];
    if Spells(name[1..], word) {
      forall i | 0 <= i < |p| ensures name[i] == p[i] as int || name[i] == p[i] as int - 32 {
        assert i > 0 ==> name[i] == name[1..][i - 1];
      }
    }
  }

  lemma NoPInFront(name: seq<Byte>, word: string)
    requires name == [] || Lower(name[0]) != 112
    ensures Spells(name, word) <==> SpellsOrP(name, word)
  {
    assert ("p" + word)[0] == 'p';
  }

  /** The names that matter, without a carriage return in them. */
  lemma NamesThatMatter(name: seq<Byte>)
    requires CR !in name
    ensures Named(name, SUBSCRIBE) <==> SpellsOrP(name, "subscribe")
    ensures Named(name, UNSUBSCRIBE) <==> SpellsOrP(name, "unsubscribe")
    ensures Named(name, MONITOR) <==> SpellsOrP(name, "monitor")
  {
    hide Named;
    assert SUBSCRIBE == WordBytes("subscribe") + CRLF;
    assert UNSUBSCRIBE == WordBytes("unsubscribe") + CRLF;
    assert MONITOR == WordBytes("monitor") + CRLF;
    NamedIsSpelt(name, "subscribe");
    NamedIsSpelt(name, "unsubscribe");
    NamedIsSpelt(name, "monitor");
  }
}
