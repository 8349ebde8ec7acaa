/** The maps behind the INI store: entries under their folded names, each with the number under which
    it was loaded, and the lists sorted by that number. */
module IniStore {
  import opened Bytes
  import opened IniText

  /** An entry of a map: its name as first loaded, its load order, and what it holds. */
  datatype Item<T> = Item(name: string, order: nat, held: T)

  type Entries<T> = map<string, Item<T>>

  ghost predicate Sorted<T>(l: seq<Item<T>>) {
    forall i, j :: 0 <= i < j < |l| ==> l[i].order < l[j].order
  }

  /** The list has exactly the entries of the map, in load order. */
  ghost predicate Lists<T(!new)>(noCase: bool, m: Entries<T>, l: seq<Item<T>>) {
    && Sorted(l)
    && (forall i :: 0 <= i < |l| ==> Fold(noCase, l[i].name) in m && m[Fold(noCase, l[i].name)] == l[i])
    && (forall k :: k in m ==> m[k] in l && Fold(noCase, m[k].name) == k)
  }

  /** A map has one list only. */
  lemma ListIsUnique<T(!new)>(noCase: bool, m: Entries<T>, l: seq<Item<T>>, l': seq<Item<T>>)
    requires Lists(noCase, m, l) && Lists(noCase, m, l')
    ensures l == l'
  {
    forall e ensures e in l <==> e in l' {
      if e in l {
        assert m[Fold(noCase, e.name)] == e;
      }
      if e in l' {
        assert m[Fold(noCase, e.name)] == e;
      }
    }
    SortedIsUnique(l, l');
  }

  lemma {:induction false} SortedIsUnique<T>(l: seq<Item<T>>, l': seq<Item<T>>)
    requires Sorted(l) && Sorted(l') && forall e :: e in l <==> e in l'
    ensures l == l'
    decreases |l|
  {
    if l == [] {
      assert forall i :: 0 <= i < |l'| ==> l'[i] in l';
    } else {
      assert l[0] in l';
      SameFirst(l, l');
      TailMembers(l);
      TailMembers(l');
      SortedIsUnique(l[1..], l'[1..]);
      assert l == [l[0]] + l[1..] && l' == [l'[0]] + l'[1..];
    }
  }

  lemma SameFirst<T>(l: seq<Item<T>>, l': seq<Item<T>>)
    requires Sorted(l) && Sorted(l') && l != [] && l' != [] && l[0] in l' && l'[0] in l
    ensures l[0] == l'[0]
  {
    var i :| 0 <= i < |l'| && l'[i] == l[0];
    var j :| 0 <= j < |l| && l[j] == l'[0];
  }

  lemma TailMembers<T>(l: seq<Item<T>>)
    requires Sorted(l) && l != []
    ensures forall e :: e in l[1..] <==> e in l && e != l[0]
  {
    forall e | e in l && e != l[0] ensures e in l[1..] {
      var i :| 0 <= i < |l| && l[i] == e;
      assert l[1..][i - 1] == e;
    }
  }

  /** Sorts the entries of a map by load order. */
  method SortByOrder<T(!new)>(noCase: bool, m: Entries<T>, ghost listing: seq<Item<T>>) returns (l: seq<Item<T>>)
    requires Lists(noCase, m, listing)
    ensures l == listing
  {
    l := [];
    var rest := m.Keys;
    while rest != {}
      invariant rest <= m.Keys && Sorted(l)
      invariant forall e :: e in l <==> exists k :: k in m.Keys - rest && m[k] == e
    {
      var k :| k in rest;
      ghost var before := l;
      OrderIsNew(noCase, m, listing, l, rest, k);
      l := InsertSorted(l, m[k]);
      rest := rest - {k};
    }
    forall e ensures e in l <==> e in listing {
      if e in listing {
        assert Fold(noCase, e.name) in m.Keys - rest;
      }
    }
    SortedIsUnique(l, listing);
  }

  lemma OrderIsNew<T(!new)>(noCase: bool, m: Entries<T>, listing: seq<Item<T>>, l: seq<Item<T>>, rest: set<string>, k: string)
    requires Lists(noCase, m, listing) && k in rest && rest <= m.Keys
    requires forall e :: e in l <==> exists j :: j in m.Keys - rest && m[j] == e
    ensures forall e :: e in l ==> e.order != m[k].order
  {
    forall e | e in l ensures e.order != m[k].order {
      var j :| j in m.Keys - rest && m[j] == e;
      var a :| 0 <= a < |listing| && listing[a] == m[k];
      var b :| 0 <= b < |listing| && listing[b] == m[j];
      assert a != b;
    }
  }

  /** Puts an entry with a new number at its place. */
  method InsertSorted<T>(l: seq<Item<T>>, e: Item<T>) returns (r: seq<Item<T>>)
    requires Sorted(l) && forall x :: x in l ==> x.order != e.order
    ensures Sorted(r) && forall x :: x in r <==> x in l || x == e
  {
    var i := 0;
    while i < |l| && l[i].order < e.order
      invariant i <= |l| && forall j :: 0 <= j < i ==> l[j].order < e.order
    {
      i := i + 1;
    }
    assert i < |l| ==> l[i] in l;
    r := l[..i] + [e] + l[i..];
    Members(l, i, e);
  }

  lemma Members<T>(l: seq<T>, i: nat, e: T)
    requires i <= |l|
    ensures forall x :: x in l[..i] + [e] + l[i..] <==> x in l || x == e
  {
    assert l == l[..i] + l[i..];
  }

  // ---------- growing and changing ----------

  /** A new name, loaded after all the others, comes last. */
  lemma ListsAppend<T(!new)>(noCase: bool, m: Entries<T>, l: seq<Item<T>>, e: Item<T>)
    requires Lists(noCase, m, l) && Fold(noCase, e.name) !in m && forall i :: 0 <= i < |l| ==> l[i].order < e.order
    ensures Lists(noCase, m[Fold(noCase, e.name) := e], l + [e])
  {
    hide Fold;
  }

  /** What an entry holds is replaced; its name and its place stay. */
  lemma ListsUpdate<T(!new)>(noCase: bool, m: Entries<T>, l: seq<Item<T>>, i: nat, held: T)
    requires Lists(noCase, m, l) && i < |l|
    ensures var e := l[i].(held := held);
            Lists(noCase, m[Fold(noCase, e.name) := e], l[i := e])
  {
    hide Fold;
    var e := l[i].(held := held);
    var k := Fold(noCase, e.name);
    var m', l' := m[k := e], l[i := e];
    OtherPlaces(noCase, m, l, i);
    forall x | x in m' ensures m'[x] in l' && Fold(noCase, m'[x].name) == x {
      if x == k {
        assert l'[i] == e;
      } else {
        var j :| 0 <= j < |l| && l[j] == m[x];
        assert l'[j] == m'[x];
      }
    }
  }

  /** The place of a name in the list, if it is there. */
  lemma PlaceOf<T(!new)>(noCase: bool, m: Entries<T>, l: seq<Item<T>>, name: string) returns (i: nat)
    requires Lists(noCase, m, l) && Fold(noCase, name) in m
    ensures i < |l| && l[i] == m[Fold(noCase, name)] && Same(noCase, l[i].name, name)
    ensures forall j :: 0 <= j < i ==> !Same(noCase, l[j].name, name)
  {
    hide Fold;
    var k := Fold(noCase, name);
    var p :| 0 <= p < |l| && l[p] == m[k];
    i := p;
    OtherPlaces(noCase, m, l, i);
  }

  /** No other entry of the list has the same folded name. */
  lemma OtherPlaces<T(!new)>(noCase: bool, m: Entries<T>, l: seq<Item<T>>, i: nat)
    requires Lists(noCase, m, l) && i < |l|
    ensures forall j :: 0 <= j < |l| && j != i ==> Fold(noCase, l[j].name) != Fold(noCase, l[i].name)
  {
    hide Fold;
    assert forall j :: 0 <= j < |l| && j != i ==> l[j].order != l[i].order;
    assert m[Fold(noCase, l[i].name)] == l[i];
  }

  // ---------- the two levels ----------

  type Keys = Entries<string>

  /** The lists of the sections, and of the keys of each. */
  datatype Listing = Listing(sections: seq<Item<Keys>>, keys: seq<seq<Item<string>>>)

  /** The lists are those of the maps, and no load number is above the last one given. */
  ghost predicate Describes(noCase: bool, data: Entries<Keys>, nOrder: nat, g: Listing) {
    && Lists(noCase, data, g.sections) && |g.keys| == |g.sections|
    && (forall i :: 0 <= i < |g.sections| ==>
          Lists(noCase, g.sections[i].held, g.keys[i]) && g.sections[i].order <= nOrder)
    && (forall i, j :: 0 <= i < |g.keys| && 0 <= j < |g.keys[i]| ==> g.keys[i][j].order <= nOrder)
  }

  function KeyVals(l: seq<Item<string>>): (ks: seq<KeyVal>)
    ensures |ks| == |l| && forall i :: 0 <= i < |l| ==> ks[i] == KeyVal(l[i].name, l[i].held)
  {
    seq(|l|, i requires 0 <= i < |l| => KeyVal(l[i].name, l[i].held))
  }

  /** Sections, keys and values in load order. */
  function Ordered(g: Listing): (d: Store)
    requires |g.keys| == |g.sections|
    ensures |d| == |g.sections|
    ensures forall i :: 0 <= i < |d| ==> d[i] == Section(g.sections[i].name, KeyVals(g.keys[i]))
  {
    seq(|g.sections|, i requires 0 <= i < |g.sections| => Section(g.sections[i].name, KeyVals(g.keys[i])))
  }

  /** One map of the store, in load order, has one order only, whatever lists describe it. */
  lemma OneOrder(noCase: bool, data: Entries<Keys>, n: nat, g: Listing, n': nat, g': Listing)
    requires Describes(noCase, data, n, g) && Describes(noCase, data, n', g')
    ensures Ordered(g) == Ordered(g')
  {
    hide Fold, Lists;
    ListIsUnique(noCase, data, g.sections, g'.sections);
    forall i | 0 <= i < |g.sections| ensures g.keys[i] == g'.keys[i] {
      ListIsUnique(noCase, g.sections[i].held, g.keys[i], g'.keys[i]);
    }
  }

  lemma {:induction false} FoundSection(noCase: bool, d: Store, name: string, i: nat)
    requires i <= |d| && (i < |d| ==> Same(noCase, d[i].name, name))
    requires forall j :: 0 <= j < i ==> !Same(noCase, d[j].name, name)
    ensures FindSection(noCase, d, name) == i
    decreases i
  {
    hide Same;
    if i > 0 {
      assert forall j :: 0 <= j < |d| - 1 ==> d[1..][j] == d[j + 1];
      FoundSection(noCase, d[1..], name, i - 1);
    }
  }

  lemma {:induction false} FoundKey(noCase: bool, ks: seq<KeyVal>, key: string, i: nat)
    requires i <= |ks| && (i < |ks| ==> Same(noCase, ks[i].key, key))
    requires forall j :: 0 <= j < i ==> !Same(noCase, ks[j].key, key)
    ensures FindKey(noCase, ks, key) == i
    decreases i
  {
    hide Same;
    if i > 0 {
      assert forall j :: 0 <= j < |ks| - 1 ==> ks[1..][j] == ks[j + 1];
      FoundKey(noCase, ks[1..], key, i - 1);
    }
  }

  /** A lookup by folded name finds the place of the name in load order, or that there is none. */
  lemma LookUp(noCase: bool, data: Entries<Keys>, n: nat, g: Listing, name: string) returns (i: nat)
    requires Describes(noCase, data, n, g)
    ensures i == FindSection(noCase, Ordered(g), name)
    ensures Fold(noCase, name) in data <==> i < |g.sections|
    ensures i < |g.sections| ==>
      && g.sections[i] == data[Fold(noCase, name)]
      && Fold(noCase, g.sections[i].name) == Fold(noCase, name)
  {
    hide Fold;
    if Fold(noCase, name) in data {
      i := PlaceOf(noCase, data, g.sections, name);
    } else {
      i := |g.sections|;
    }
    FoundSection(noCase, Ordered(g), name, i);
  }

  /** The same for the keys of a section. */
  lemma LookUpKey(noCase: bool, m: Keys, l: seq<Item<string>>, key: string) returns (i: nat)
    requires Lists(noCase, m, l)
    ensures i == FindKey(noCase, KeyVals(l), key)
    ensures Fold(noCase, key) in m <==> i < |l|
    ensures i < |l| ==> l[i] == m[Fold(noCase, key)] && Fold(noCase, l[i].name) == Fold(noCase, key)
  {
    hide Fold;
    if Fold(noCase, key) in m {
      i := PlaceOf(noCase, m, l, key);
    } else {
      i := |l|;
    }
    FoundKey(noCase, KeyVals(l), key, i);
  }

  /** A new section under the next number comes last. */
  lemma NewSection(noCase: bool, data: Entries<Keys>, n: nat, g: Listing, name: string) returns (g': Listing)
    requires Describes(noCase, data, n, g) && Fold(noCase, name) !in data
    ensures Describes(noCase, data[Fold(noCase, name) := Item(name, n + 1, map[])], n + 1, g')
    ensures Ordered(g') == AddSection(noCase, Ordered(g), name)
  {
    hide Fold, Lists;
    var e: Item<Keys> := Item(name, n + 1, map[]);
    var i := LookUp(noCase, data, n, g, name);
    ListsAppend(noCase, data, g.sections, e);
    ListsNothing<string>(noCase);
    g' := Listing(g.sections + [e], g.keys + [[]]);
    OrderedAppend(g, e);
  }

  lemma OrderedAppend(g: Listing, e: Item<Keys>)
    requires |g.keys| == |g.sections|
    ensures Ordered(Listing(g.sections + [e], g.keys + [[]])) == Ordered(g) + [Section(e.name, [])]
  {
  }

  lemma ListsNothing<T(!new)>(noCase: bool)
    ensures Lists<T>(noCase, map[], [])
  {
  }

  lemma OrderedUpdate(g: Listing, i: nat, held: Keys, l: seq<Item<string>>)
    requires |g.keys| == |g.sections| && i < |g.keys|
    ensures Ordered(Listing(g.sections[i := g.sections[i].(held := held)], g.keys[i := l]))
         == Ordered(g)[i := Section(g.sections[i].name, KeyVals(l))]
  {
  }

  /** Setting a key gives an old one its new value in its old place, and puts a new one last. */
  lemma NewKey(noCase: bool, m: Keys, n: nat, l: seq<Item<string>>, key: string, val: string)
    returns (l': seq<Item<string>>)
    requires Lists(noCase, m, l) && forall i :: 0 <= i < |l| ==> l[i].order <= n
    ensures Lists(noCase, SetKey(noCase, m, n + 1, key, val), l') && forall i :: 0 <= i < |l'| ==> l'[i].order <= n + 1
    ensures KeyVals(l') == PutKey(noCase, KeyVals(l), key, val)
  {
    hide Fold, Lists;
    var i := LookUpKey(noCase, m, l, key);
    if i < |l| {
      ListsUpdate(noCase, m, l, i, val);
      l' := l[i := l[i].(held := val)];
    } else {
      ListsAppend(noCase, m, l, Item(key, n + 1, val));
      l' := l + [Item(key, n + 1, val)];
    }
  }

  /** The map after a key was set: an old key keeps its first name and its number. */
  function SetKey(noCase: bool, m: Keys, order: nat, key: string, val: string): Keys {
    var k := Fold(noCase, key);
    m[k := if k in m then m[k].(held := val) else Item(key, order, val)]
  }

  /** Setting a key of a section that is there. */
  lemma NewEntry(noCase: bool, data: Entries<Keys>, n: nat, g: Listing, section: string, key: string, val: string)
    returns (g': Listing)
    requires Describes(noCase, data, n, g) && Fold(noCase, section) in data
    ensures var e := data[Fold(noCase, section)];
            var m := SetKey(noCase, e.held, n + 1, key, val);
            Describes(noCase, data[Fold(noCase, section) := e.(held := m)], n + 1, g')
    ensures Ordered(g') == AddEntry(noCase, Ordered(g), section, key, val)
  {
    hide Fold, SetKey, PutKey, Lists, Ordered;
    var i := LookUp(noCase, data, n, g, section);
    var e := g.sections[i];
    var l := NewKey(noCase, e.held, n, g.keys[i], key, val);
    var m := SetKey(noCase, e.held, n + 1, key, val);
    ListsUpdate(noCase, data, g.sections, i, m);
    g' := Listing(g.sections[i := e.(held := m)], g.keys[i := l]);
    OrderedUpdate(g, i, m, l);
    SectionKeys(g, i);
    EntryOfKnown(noCase, Ordered(g), section, key, val);
  }

  lemma SectionKeys(g: Listing, i: nat)
    requires |g.keys| == |g.sections| && i < |g.keys|
    ensures i < |Ordered(g)| && Ordered(g)[i] == Section(g.sections[i].name, KeyVals(g.keys[i]))
  {
  }

  lemma EntryOfKnown(noCase: bool, d: Store, section: string, key: string, val: string)
    requires FindSection(noCase, d, section) < |d|
    ensures var i := FindSection(noCase, d, section);
            AddEntry(noCase, d, section, key, val) == d[i := Section(d[i].name, PutKey(noCase, d[i].keys, key, val))]
  {
    hide FindSection, PutKey;
  }

  // ---------- looking up values ----------

  function KeyValue(noCase: bool, ks: seq<KeyVal>, key: string): Option<string> {
    var i := FindKey(noCase, ks, key);
    if i < |ks| then Some(ks[i].val) else None
  }

  /** The value of a key in a section, if there is one. */
  function ValueIn(noCase: bool, d: Store, section: string, key: string): Option<string> {
    var i := FindSection(noCase, d, section);
    if i < |d| then KeyValue(noCase, d[i].keys, key) else None
  }

  lemma {:induction false} FindKeyIsFirst(noCase: bool, ks: seq<KeyVal>, key: string)
    ensures var i := FindKey(noCase, ks, key);
            (i < |ks| ==> Same(noCase, ks[i].key, key)) && forall j :: 0 <= j < i ==> !Same(noCase, ks[j].key, key)
    decreases |ks|
  {
    hide Same;
    if ks != [] && !Same(noCase, ks[0].key, key) {
      FindKeyIsFirst(noCase, ks[1..], key);
      assert forall j :: 1 <= j < |ks| ==> ks[j] == ks[1..][j - 1];
    }
  }

  lemma {:induction false} FindSectionIsFirst(noCase: bool, d: Store, name: string)
    ensures var i := FindSection(noCase, d, name);
            (i < |d| ==> Same(noCase, d[i].name, name)) && forall j :: 0 <= j < i ==> !Same(noCase, d[j].name, name)
    decreases |d|
  {
    hide Same;
    if d != [] && !Same(noCase, d[0].name, name) {
      FindSectionIsFirst(noCase, d[1..], name);
      assert forall j :: 1 <= j < |d| ==> d[j] == d[1..][j - 1];
    }
  }

  /** Setting a key changes the value of that key and of no other. */
  lemma PutThenGet(noCase: bool, ks: seq<KeyVal>, key: string, val: string, key': string)
    ensures KeyValue(noCase, PutKey(noCase, ks, key, val), key')
         == if Same(noCase, key, key') then Some(val) else KeyValue(noCase, ks, key')
  {
    hide FindKey, Fold;
    var i, i' := FindKey(noCase, ks, key), FindKey(noCase, ks, key');
    var r := PutKey(noCase, ks, key, val);
    FindKeyIsFirst(noCase, ks, key);
    FindKeyIsFirst(noCase, ks, key');
    if Same(noCase, key, key') {
      FoundKey(noCase, r, key', i);
    } else if i' == |ks| && i == |ks| {
      FoundKey(noCase, r, key', |r|);
    } else {
      FoundKey(noCase, r, key', i');
    }
  }

  /** A new section holds no value, and the values of the others stay. */
  lemma AddSectionKeepsValues(noCase: bool, d: Store, section: string, section': string, key': string)
    ensures ValueIn(noCase, AddSection(noCase, d, section), section', key') == ValueIn(noCase, d, section', key')
    ensures FindSection(noCase, AddSection(noCase, d, section), section) < |AddSection(noCase, d, section)|
  {
    hide FindSection, Fold;
    var i' := FindSection(noCase, d, section');
    var r := AddSection(noCase, d, section);
    FindSectionIsFirst(noCase, d, section);
    FindSectionIsFirst(noCase, d, section');
    if r != d {
      FoundSection(noCase, r, section, |d|);
      FoundSection(noCase, r, section', if i' == |d| && !Same(noCase, section, section') then |r| else i');
    }
  }

  /** After an entry was added its key has its value, and every other key of every section what it had. */
  lemma AddThenGet(noCase: bool, d: Store, section: string, key: string, val: string, section': string, key': string)
    ensures ValueIn(noCase, AddEntry(noCase, d, section, key, val), section', key')
         == if Same(noCase, section, section') && Same(noCase, key, key') then Some(val)
            else ValueIn(noCase, d, section', key')
  {
    hide FindSection, Fold, PutKey, KeyValue, AddSection;
    var d' := AddSection(noCase, d, section);
    AddSectionKeepsValues(noCase, d, section, section', key');
    var i, i' := FindSection(noCase, d', section), FindSection(noCase, d', section');
    var r := AddEntry(noCase, d, section, key, val);
    FindSectionIsFirst(noCase, d', section);
    FindSectionIsFirst(noCase, d', section');
    FoundSection(noCase, r, section', i');
    SamePlace(noCase, d', section, section');
    PutThenGet(noCase, d'[i].keys, key, val, key');
  }

  lemma SamePlace(noCase: bool, d: Store, a: string, b: string)
    requires FindSection(noCase, d, a) < |d|
    ensures Same(noCase, a, b) <==> FindSection(noCase, d, a) == FindSection(noCase, d, b)
  {
    hide FindSection, Fold;
    FindSectionIsFirst(noCase, d, a);
    FindSectionIsFirst(noCase, d, b);
  }

  /** Without regard to case, names that differ in case only have the same value; with regard to it, a
      name that no section or key has, letter by letter, has none. */
  lemma CaseOfNames(d: Store, section: string, section': string, key: string, key': string)
    ensures SameLetters(section, section') && SameLetters(key, key') ==>
              ValueIn(true, d, section, key) == ValueIn(true, d, section', key')
    ensures ValueIn(false, d, section, key).Some? ==>
              exists i, j :: 0 <= i < |d| && 0 <= j < |d[i].keys| && d[i].name == section && d[i].keys[j].key == key
  {
    hide FindSection, FindKey;
    SameIsSameLetters(section, section');
    SameIsSameLetters(key, key');
    FindSectionIsFirst(false, d, section);
    var i := FindSection(false, d, section);
    if i < |d| {
      FindKeyIsFirst(false, d[i].keys, key);
      SameIsSameLetters(d[i].name, section);
      var j := FindKey(false, d[i].keys, key);
      if j < |d[i].keys| {
        SameIsSameLetters(d[i].keys[j].key, key);
      }
    }
    if SameLetters(section, section') && SameLetters(key, key') {
      FoldedAlike(d, section, section', key, key');
    }
  }

  lemma FoldedAlike(d: Store, section: string, section': string, key: string, key': string)
    requires Same(true, section, section') && Same(true, key, key')
    ensures ValueIn(true, d, section, key) == ValueIn(true, d, section', key')
  {
    FindSectionIsFirst(true, d, section);
    FoundSection(true, d, section', FindSection(true, d, section));
    var i := FindSection(true, d, section);
    if i < |d| {
      FindKeyIsFirst(true, d[i].keys, key);
      FoundKey(true, d[i].keys, key', FindKey(true, d[i].keys, key));
    }
  }
}
