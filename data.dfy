/** The vocabulary dataset: the raw record keyed by lesson label is flattened
    once into a card list with dense 1-based global indices and a list of deck
    summaries, one per lesson that yields at least one card
    (client/src/lib/data.ts). */
module Data {
  import opened Common

  /** One raw vocabulary entry. A field is None when it is missing or holds a
      falsy value; it is "present" only when it is a non-empty string. */
  datatype RawEntry = RawEntry(ru: Option<string>, la: Option<string>)

  /** What a lesson label maps to: either a "Лексика" array, or anything
      without one (no lesson object, no such section, or not an array). */
  datatype LessonValue = NoVocabulary | Vocabulary(items: seq<RawEntry>)

  /** The raw record as its (label, value) entries, in key order. */
  type RawLesson = (string, LessonValue)

  datatype Flashcard = Flashcard(ru: string, la: string, lesson: int, globalIndex: int)

  datatype Deck = Deck(id: int, title: string, count: int, globalStart: int, globalEnd: int)

  /** The loader's two outputs: all cards and the deck summaries. */
  datatype Catalog = Catalog(cards: seq<Flashcard>, decks: seq<Deck>)

  /** The number a label carries: its digits read as one decimal numeral; a
      label without digits reads as 0. */
  function KeyNumber(key: string): (n: nat)
    ensures (forall i :: 0 <= i < |key| ==> !IsDigit(key[i])) ==> n == 0
  {
    DecimalValue(OnlyDigits(key))
  }

  /** A label whose only digits are the spelling of n, such as "Занятие 12",
      carries numeral n. */
  lemma KeyNumberOfLabel(p: string, n: nat, q: string)
    requires forall i :: 0 <= i < |p| ==> !IsDigit(p[i])
    requires forall i :: 0 <= i < |q| ==> !IsDigit(q[i])
    ensures KeyNumber(p + NatToString(n) + q) == n
  {
    OnlyDigitsAppend(p + NatToString(n), q);
    OnlyDigitsAppend(p, NatToString(n));
    assert OnlyDigits(p + NatToString(n) + q) == NatToString(n);
    DecimalRoundTrip(n);
  }

  predicate Present(f: Option<string>) {
    f.Some? && |f.value| > 0
  }

  predicate IsValidEntry(e: RawEntry) {
    Present(e.ru) && Present(e.la)
  }

  // ---------------------------------------------------------------------
  // Ordering the lesson keys

  /** Puts `l` in front of the first entry whose numeral is not smaller, so an
      entry goes after every earlier entry with the same numeral. */
  function InsertByNumeral(l: RawLesson, s: seq<RawLesson>): (r: seq<RawLesson>)
    ensures |r| == |s| + 1
  {
    if s == [] then [l]
    else if KeyNumber(l.0) <= KeyNumber(s[0].0) then [l] + s
    else [s[0]] + InsertByNumeral(l, s[1..])
  }

  /** The stable sort of the entries by the numeral in their labels. */
  function SortByNumeral(s: seq<RawLesson>): (r: seq<RawLesson>)
    ensures |r| == |s|
  {
    if s == [] then [] else InsertByNumeral(s[0], SortByNumeral(s[1..]))
  }

  ghost predicate SortedByNumeral(s: seq<RawLesson>) {
    forall i, j :: 0 <= i < j < |s| ==> KeyNumber(s[i].0) <= KeyNumber(s[j].0)
  }

  /** The entries whose label carries numeral n, in their order. */
  function WithNumeral(s: seq<RawLesson>, n: nat): (r: seq<RawLesson>)
    ensures |r| <= |s|
  {
    if s == [] then []
    else (if KeyNumber(s[0].0) == n then [s[0]] else []) + WithNumeral(s[1..], n)
  }

  lemma {:induction false} InsertKeepsSorted(l: RawLesson, s: seq<RawLesson>)
    requires SortedByNumeral(s)
    ensures SortedByNumeral(InsertByNumeral(l, s))
    ensures forall x :: x in InsertByNumeral(l, s) <==> x == l || x in s
  {
    if s != [] && KeyNumber(l.0) > KeyNumber(s[0].0) {
      InsertKeepsSorted(l, s[1..]);
      var r := InsertByNumeral(l, s);
      assert r == [s[0]] + InsertByNumeral(l, s[1..]);
      forall j | 0 < j < |r| ensures KeyNumber(r[0].0) <= KeyNumber(r[j].0) {
        assert r[j] in InsertByNumeral(l, s[1..]);
      }
    }
  }

  /** The sorted keys are in ascending numeral order. */
  lemma {:induction false} SortIsSorted(s: seq<RawLesson>)
    ensures SortedByNumeral(SortByNumeral(s))
  {
    if s != [] {
      SortIsSorted(s[1..]);
      InsertKeepsSorted(s[0], SortByNumeral(s[1..]));
    }
  }

  lemma {:induction false} InsertWithNumeral(l: RawLesson, s: seq<RawLesson>, n: nat)
    ensures WithNumeral(InsertByNumeral(l, s), n)
         == (if KeyNumber(l.0) == n then [l] else []) + WithNumeral(s, n)
  {
    var mine: seq<RawLesson> := if KeyNumber(l.0) == n then [l] else [];
    if s == [] {
      assert WithNumeral([l], n) == mine + WithNumeral([], n);
    } else if KeyNumber(l.0) <= KeyNumber(s[0].0) {
      var r := [l] + s;
      assert r[0] == l && r[1..] == s;
      assert WithNumeral(r, n) == mine + WithNumeral(s, n);
    } else {
      var r := InsertByNumeral(l, s);
      var head: seq<RawLesson> := if KeyNumber(s[0].0) == n then [s[0]] else [];
      assert r[0] == s[0] && r[1..] == InsertByNumeral(l, s[1..]);
      InsertWithNumeral(l, s[1..], n);
      assert WithNumeral(r, n) == head + (mine + WithNumeral(s[1..], n));
      assert WithNumeral(s, n) == head + WithNumeral(s[1..], n);
      assert mine == [] || head == [];
      assert head + (mine + WithNumeral(s[1..], n)) == mine + (head + WithNumeral(s[1..], n));
    }
  }

  /** Sorting is stable and loses nothing: for every numeral, the entries
      carrying it come out exactly as they went in, in the same order. */
  lemma {:induction false} SortIsStable(s: seq<RawLesson>, n: nat)
    ensures WithNumeral(SortByNumeral(s), n) == WithNumeral(s, n)
  {
    if s != [] {
      SortIsStable(s[1..], n);
      InsertWithNumeral(s[0], SortByNumeral(s[1..]), n);
    }
  }

  /** Sorting permutes the entries. */
  lemma {:induction false} SortIsPermutation(s: seq<RawLesson>)
    ensures multiset(SortByNumeral(s)) == multiset(s)
  {
    if s != [] {
      SortIsPermutation(s[1..]);
      InsertIsPermutation(s[0], SortByNumeral(s[1..]));
      assert s == [s[0]] + s[1..];
    }
  }

  /** After sorting, labels that differ only in their number are in numeric
      order, not text order: a label ending in a smaller number comes first. */
  lemma LabelsInNumericOrder(s: seq<RawLesson>, p: string, m: nat, n: nat, i: int, j: int)
    requires forall k :: 0 <= k < |p| ==> !IsDigit(p[k])
    requires m < n
    requires 0 <= i < |SortByNumeral(s)| && SortByNumeral(s)[i].0 == p + NatToString(m)
    requires 0 <= j < |SortByNumeral(s)| && SortByNumeral(s)[j].0 == p + NatToString(n)
    ensures i < j
  {
    var r := SortByNumeral(s);
    assert r[i].0 == p + NatToString(m) + "";
    assert r[j].0 == p + NatToString(n) + "";
    KeyNumberOfLabel(p, m, "");
    KeyNumberOfLabel(p, n, "");
    SortIsSorted(s);
    SortedOrder(r, i, j);
  }

  /** In a sorted sequence an entry with a smaller numeral comes first. */
  lemma SortedOrder(r: seq<RawLesson>, i: int, j: int)
    requires SortedByNumeral(r)
    requires 0 <= i < |r| && 0 <= j < |r| && KeyNumber(r[i].0) < KeyNumber(r[j].0)
    ensures i < j
  {
  }

  /** "Занятие 10" is sorted after "Занятие 2". */
  lemma TenAfterTwo(s: seq<RawLesson>, i: int, j: int)
    requires 0 <= i < |SortByNumeral(s)| && SortByNumeral(s)[i].0 == "Занятие 2"
    requires 0 <= j < |SortByNumeral(s)| && SortByNumeral(s)[j].0 == "Занятие 10"
    ensures i < j
  {
    LessonWordHasNoDigit();
    LessonLabel(2);
    LessonLabel(10);
    LabelsInNumericOrder(s, LessonWord, 2, 10, i, j);
  }

  /** The word before a lesson's number. */
  const LessonWord := "Занятие "

  lemma LessonWordHasNoDigit()
    ensures forall k :: 0 <= k < |LessonWord| ==> !IsDigit(LessonWord[k])
  {
    forall k | 0 <= k < |LessonWord| ensures !IsDigit(LessonWord[k]) {
      assert LessonWord[k] == ' ' || LessonWord[k] >= 'А';
    }
  }

  /** The spelling of the labels "Занятие 2" and "Занятие 10". */
  lemma LessonLabel(n: nat)
    requires n == 2 || n == 10
    ensures LessonWord + NatToString(n) == if n == 2 then "Занятие 2" else "Занятие 10"
  {
    if n == 10 {
      assert NatToString(10) == NatToString(1) + [DigitChar(0)];
    }
  }

  lemma {:induction false} InsertIsPermutation(l: RawLesson, s: seq<RawLesson>)
    ensures multiset(InsertByNumeral(l, s)) == multiset{l} + multiset(s)
  {
    if s != [] && KeyNumber(l.0) > KeyNumber(s[0].0) {
      InsertIsPermutation(l, s[1..]);
      assert InsertByNumeral(l, s) == [s[0]] + InsertByNumeral(l, s[1..]);
      assert s == [s[0]] + s[1..];
      assert multiset(s) == multiset{s[0]} + multiset(s[1..]);
    } else {
      assert InsertByNumeral(l, s) == [l] + s;
    }
  }

  // ---------------------------------------------------------------------
  // What the loader produces, defined lesson by lesson and entry by entry

  /** The entries of a vocabulary section that become cards, in order. */
  function ValidEntries(items: seq<RawEntry>): (r: seq<RawEntry>)
    ensures |r| <= |items|
    ensures forall i :: 0 <= i < |r| ==> IsValidEntry(r[i])
  {
    if items == [] then []
    else
      var e := items[|items| - 1];
      ValidEntries(items[..|items| - 1]) + (if IsValidEntry(e) then [e] else [])
  }

  /** An entry is kept exactly when both of its texts are present, and the
      kept entries appear in their original order. */
  lemma {:induction false} ValidEntriesAre(items: seq<RawEntry>)
    ensures forall e :: e in ValidEntries(items) <==> e in items && IsValidEntry(e)
  {
    if items != [] {
      ValidEntriesAre(items[..|items| - 1]);
      assert items == items[..|items| - 1] + [items[|items| - 1]];
    }
  }

  /** The cards one lesson's entries turn into when the counter stands at
      `start`. */
  function LessonCards(items: seq<RawEntry>, lesson: int, start: int): (cs: seq<Flashcard>)
    ensures |cs| == |ValidEntries(items)|
  {
    if items == [] then []
    else
      var prev := LessonCards(items[..|items| - 1], lesson, start);
      var e := items[|items| - 1];
      if IsValidEntry(e) then prev + [Flashcard(e.ru.value, e.la.value, lesson, start + |prev|)]
      else prev
  }

  /** The i-th valid entry becomes the card numbered start + i, with the
      lesson's number and the entry's two texts. */
  lemma {:induction false} LessonCardsAt(items: seq<RawEntry>, lesson: int, start: int)
    ensures forall i :: 0 <= i < |LessonCards(items, lesson, start)| ==>
      var e := ValidEntries(items)[i];
      LessonCards(items, lesson, start)[i] == Flashcard(e.ru.value, e.la.value, lesson, start + i)
  {
    if items != [] {
      LessonCardsAt(items[..|items| - 1], lesson, start);
    }
  }

  /** The catalog after one more lesson has been processed. */
  function Step(c: Catalog, l: RawLesson): Catalog {
    match l.1
    case NoVocabulary => c
    case Vocabulary(items) =>
      var start := |c.cards| + 1;
      var added := LessonCards(items, KeyNumber(l.0), start);
      if |added| > 0 then
        Catalog(c.cards + added, c.decks + [Deck(KeyNumber(l.0), l.0, |added|, start, start + |added| - 1)])
      else
        Catalog(c.cards, c.decks)
  }

  /** The catalog produced from the lessons in the order given. */
  function Process(ls: seq<RawLesson>): Catalog {
    if ls == [] then Catalog([], []) else Step(Process(ls[..|ls| - 1]), ls[|ls| - 1])
  }

  /** The catalog produced from a raw record: lessons in numeral order. */
  function Load(raw: seq<RawLesson>): Catalog {
    Process(SortByNumeral(raw))
  }

  /** Builds the cards and decks by walking the lessons in numeral order and
      each lesson's entries in order, with one counter for the whole run. */
  method ProcessData(raw: seq<RawLesson>) returns (cards: seq<Flashcard>, decks: seq<Deck>)
    ensures Catalog(cards, decks) == Load(raw)
  {
    cards, decks := [], [];
    var globalCounter := 1;
    var sortedKeys := SortByNumeral(raw);
    var k := 0;
    while k < |sortedKeys|
      invariant 0 <= k <= |sortedKeys|
      invariant Catalog(cards, decks) == Process(sortedKeys[..k])
      invariant globalCounter == |cards| + 1
    {
      ProcessPrefix(sortedKeys, k);
      cards, decks, globalCounter := ProcessLesson(cards, decks, globalCounter, sortedKeys[k]);
      k := k + 1;
    }
    assert sortedKeys[..k] == sortedKeys;
  }

  /** One lesson's turn: its valid entries become cards numbered on from the
      counter, and a deck is added when at least one card was. */
  method ProcessLesson(cards: seq<Flashcard>, decks: seq<Deck>, globalCounter: int, lesson: RawLesson)
    returns (cards': seq<Flashcard>, decks': seq<Deck>, globalCounter': int)
    requires globalCounter == |cards| + 1
    ensures Catalog(cards', decks') == Step(Catalog(cards, decks), lesson)
    ensures globalCounter' == |cards'| + 1
  {
    cards', decks', globalCounter' := cards, decks, globalCounter;
    var key := lesson.0;
    var lessonNum := KeyNumber(key);
    if lesson.1.Vocabulary? {
      var lessonCards := lesson.1.items;
      var start := globalCounter';
      cards', globalCounter' := PushLessonCards(cards', lessonCards, lessonNum, globalCounter');
      var end := globalCounter' - 1;
      if end >= start {
        decks' := decks' + [Deck(lessonNum, key, end - start + 1, start, end)];
      }
    }
  }

  /** Walks one lesson's entries, appending a card for each valid entry and
      advancing the counter once per card appended. */
  method PushLessonCards(cards: seq<Flashcard>, lessonCards: seq<RawEntry>, lessonNum: int, counter: int)
    returns (cards': seq<Flashcard>, counter': int)
    ensures cards' == cards + LessonCards(lessonCards, lessonNum, counter)
    ensures counter' == counter + |LessonCards(lessonCards, lessonNum, counter)|
  {
    cards', counter' := cards, counter;
    var j := 0;
    while j < |lessonCards|
      invariant 0 <= j <= |lessonCards|
      invariant cards' == cards + LessonCards(lessonCards[..j], lessonNum, counter)
      invariant counter' == counter + |LessonCards(lessonCards[..j], lessonNum, counter)|
    {
      var item := lessonCards[j];
      LessonCardsPrefix(lessonCards, j, lessonNum, counter);
      if IsValidEntry(item) {
        cards' := cards' + [Flashcard(item.ru.value, item.la.value, lessonNum, counter')];
        counter' := counter' + 1;
      }
      j := j + 1;
    }
    assert lessonCards[..j] == lessonCards;
  }

  lemma ProcessPrefix(ls: seq<RawLesson>, k: nat)
    requires k < |ls|
    ensures Process(ls[..k + 1]) == Step(Process(ls[..k]), ls[k])
  {
    assert ls[..k + 1][..k] == ls[..k];
  }

  lemma LessonCardsPrefix(items: seq<RawEntry>, j: nat, lesson: int, start: int)
    requires j < |items|
    ensures LessonCards(items[..j + 1], lesson, start)
         == LessonCards(items[..j], lesson, start)
            + (if IsValidEntry(items[j])
               then [Flashcard(items[j].ru.value, items[j].la.value, lesson, start + |LessonCards(items[..j], lesson, start)|)]
               else [])
  {
    assert items[..j + 1][..j] == items[..j];
  }

  // ---------------------------------------------------------------------
  // Properties of the catalog

  /** Card i (0-based) carries global index i + 1. */
  ghost predicate Dense(cards: seq<Flashcard>) {
    forall i :: 0 <= i < |cards| ==> cards[i].globalIndex == i + 1
  }

  /** The deck ranges cover the card list from 1 to its end, one after the
      other without gaps or overlaps, and every card in a range belongs to
      that deck's lesson. */
  ghost predicate DecksTile(cards: seq<Flashcard>, decks: seq<Deck>) {
    && (decks == [] ==> cards == [])
    && (decks != [] ==> decks[0].globalStart == 1 && decks[|decks| - 1].globalEnd == |cards|)
    && (forall k :: 0 <= k < |decks| ==>
          && 1 <= decks[k].globalStart <= decks[k].globalEnd <= |cards|
          && decks[k].count == decks[k].globalEnd - decks[k].globalStart + 1)
    && (forall k :: 0 <= k < |decks| - 1 ==> decks[k + 1].globalStart == decks[k].globalEnd + 1)
    && (forall k, i :: 0 <= k < |decks| && decks[k].globalStart - 1 <= i < decks[k].globalEnd && i < |cards| ==>
          cards[i].lesson == decks[k].id)
  }

  /** Every card has a non-empty prompt and answer. */
  ghost predicate CardsFilled(cards: seq<Flashcard>) {
    forall i :: 0 <= i < |cards| ==> |cards[i].ru| > 0 && |cards[i].la| > 0
  }

  /** The global indices are exactly 1..N in list order, and every card has
      non-empty text: the counter starts at 1 and moves only when a card is
      added. */
  lemma {:induction false} ProcessDense(ls: seq<RawLesson>)
    ensures Dense(Process(ls).cards)
    ensures CardsFilled(Process(ls).cards)
  {
    if ls != [] {
      var c := Process(ls[..|ls| - 1]);
      ProcessDense(ls[..|ls| - 1]);
      match ls[|ls| - 1].1
      case NoVocabulary =>
      case Vocabulary(items) =>
        var added := LessonCards(items, KeyNumber(ls[|ls| - 1].0), |c.cards| + 1);
        LessonCardsAt(items, KeyNumber(ls[|ls| - 1].0), |c.cards| + 1);
        ValidEntriesAre(items);
        var all := c.cards + added;
        forall i | |c.cards| <= i < |all|
          ensures all[i].globalIndex == i + 1 && |all[i].ru| > 0 && |all[i].la| > 0
        {
          assert all[i] == added[i - |c.cards|];
          assert IsValidEntry(ValidEntries(items)[i - |c.cards|]);
        }
    }
  }

  /** Appending one lesson's cards and its deck keeps the tiling. */
  lemma TileStep(cards: seq<Flashcard>, decks: seq<Deck>, added: seq<Flashcard>, d: Deck)
    requires DecksTile(cards, decks)
    requires |added| > 0 && forall x :: x in added ==> x.lesson == d.id
    requires d.globalStart == |cards| + 1 && d.globalEnd == |cards| + |added| && d.count == |added|
    ensures DecksTile(cards + added, decks + [d])
  {
    var cs, ds := cards + added, decks + [d];
    forall k, i | 0 <= k < |ds| && ds[k].globalStart - 1 <= i < ds[k].globalEnd && i < |cs|
      ensures cs[i].lesson == ds[k].id
    {
      if k < |decks| {
        assert ds[k] == decks[k];
        assert cs[i] == cards[i];
      } else {
        assert cs[i] == added[i - |cards|];
      }
    }
    assert forall k :: 0 <= k < |decks| ==> ds[k] == decks[k];
  }

  lemma StepTiles(c: Catalog, l: RawLesson)
    requires DecksTile(c.cards, c.decks)
    ensures DecksTile(Step(c, l).cards, Step(c, l).decks)
  {
    if l.1.Vocabulary? {
      var start := |c.cards| + 1;
      var added := LessonCards(l.1.items, KeyNumber(l.0), start);
      if |added| > 0 {
        LessonCardsLesson(l.1.items, KeyNumber(l.0), start);
        TileStep(c.cards, c.decks, added, Deck(KeyNumber(l.0), l.0, |added|, start, start + |added| - 1));
      }
    }
  }

  /** The deck summaries tile the card list. */
  lemma {:induction false} ProcessTiles(ls: seq<RawLesson>)
    ensures DecksTile(Process(ls).cards, Process(ls).decks)
  {
    if ls != [] {
      ProcessTiles(ls[..|ls| - 1]);
      StepTiles(Process(ls[..|ls| - 1]), ls[|ls| - 1]);
    }
  }

  /** For each lesson that yields a card, its label and the number of cards
      it yields, in processing order: exactly the lessons that get a deck. */
  function Producing(ls: seq<RawLesson>): (r: seq<(string, nat)>)
    ensures |r| <= |ls|
  {
    if ls == [] then []
    else
      var l := ls[|ls| - 1];
      Producing(ls[..|ls| - 1])
        + (match l.1
           case NoVocabulary => []
           case Vocabulary(items) => if |ValidEntries(items)| > 0 then [(l.0, |ValidEntries(items)|)] else [])
  }

  /** A deck is emitted exactly for each lesson that yields at least one card,
      in processing order, titled with the raw label, numbered with its
      numeral and counting that lesson's valid entries. */
  lemma {:induction false} ProcessDecks(ls: seq<RawLesson>)
    ensures |Process(ls).decks| == |Producing(ls)|
    ensures forall k :: 0 <= k < |Producing(ls)| ==>
      var d := Process(ls).decks[k];
      d.title == Producing(ls)[k].0 && d.id == KeyNumber(d.title) && d.count == Producing(ls)[k].1
  {
    if ls != [] {
      ProcessDecks(ls[..|ls| - 1]);
    }
  }

  /** The numerals of the labels among `ls`. */
  function Numerals(ls: seq<RawLesson>): (r: set<nat>)
    ensures forall j :: 0 <= j < |ls| ==> KeyNumber(ls[j].0) in r
  {
    if ls == [] then {} else Numerals(ls[..|ls| - 1]) + {KeyNumber(ls[|ls| - 1].0)}
  }

  /** Card lessons and deck ids are numerals of labels that were processed. */
  lemma {:induction false} ProcessNumerals(ls: seq<RawLesson>)
    ensures forall c :: c in Process(ls).cards ==> c.lesson in Numerals(ls)
    ensures forall d :: d in Process(ls).decks ==> d.id in Numerals(ls)
  {
    if ls != [] {
      ProcessNumerals(ls[..|ls| - 1]);
      var l := ls[|ls| - 1];
      if l.1.Vocabulary? {
        LessonCardsLesson(l.1.items, KeyNumber(l.0), |Process(ls[..|ls| - 1]).cards| + 1);
      }
    }
  }

  /** Decks come out in ascending lesson-number order. */
  lemma DecksAscending(raw: seq<RawLesson>)
    ensures forall k, m :: 0 <= k < m < |Load(raw).decks| ==> Load(raw).decks[k].id <= Load(raw).decks[m].id
  {
    SortIsSorted(raw);
    SortedDecksAscending(SortByNumeral(raw));
  }

  lemma {:induction false} SortedDecksAscending(ls: seq<RawLesson>)
    requires SortedByNumeral(ls)
    ensures forall d :: d in Process(ls).decks ==> ls != [] && d.id <= KeyNumber(ls[|ls| - 1].0)
    ensures forall k, m :: 0 <= k < m < |Process(ls).decks| ==> Process(ls).decks[k].id <= Process(ls).decks[m].id
  {
    if ls != [] {
      var p := ls[..|ls| - 1];
      SortedDecksAscending(p);
      var c := Process(p);
      var last := KeyNumber(ls[|ls| - 1].0);
      assert forall d :: d in c.decks ==> d.id <= last;
      var decks := Process(ls).decks;
      assert decks == c.decks || decks == c.decks + [decks[|decks| - 1]];
      forall k, m | 0 <= k < m < |decks| ensures decks[k].id <= decks[m].id {
        if m >= |c.decks| {
          assert decks[k] in c.decks;
        }
      }
    }
  }

  // ---------------------------------------------------------------------
  // The card index queries

  /** The cards of one lesson, in catalog order. */
  function DeckCards(cards: seq<Flashcard>, lessonId: int): (r: seq<Flashcard>)
    ensures |r| <= |cards|
    ensures forall c :: c in r <==> c in cards && c.lesson == lessonId
  {
    if cards == [] then []
    else
      var c := cards[|cards| - 1];
      DeckCards(cards[..|cards| - 1], lessonId) + (if c.lesson == lessonId then [c] else [])
  }

  /** The first card carrying the given global index, if any. */
  function CardByGlobalIndex(cards: seq<Flashcard>, index: int): (r: Option<Flashcard>)
    ensures r.Some? ==> r.value in cards && r.value.globalIndex == index
    ensures r.None? <==> forall c :: c in cards ==> c.globalIndex != index
  {
    if cards == [] then None
    else if cards[0].globalIndex == index then Some(cards[0])
    else CardByGlobalIndex(cards[1..], index)
  }

  lemma {:induction false} DeckCardsAppend(a: seq<Flashcard>, b: seq<Flashcard>, lessonId: int)
    ensures DeckCards(a + b, lessonId) == DeckCards(a, lessonId) + DeckCards(b, lessonId)
    decreases |b|
  {
    if b == [] {
      assert a + b == a;
    } else {
      var last := b[|b| - 1];
      assert (a + b)[..|a + b| - 1] == a + b[..|b| - 1];
      assert (a + b)[|a + b| - 1] == last;
      DeckCardsAppend(a, b[..|b| - 1], lessonId);
      var tail: seq<Flashcard> := if last.lesson == lessonId then [last] else [];
      assert DeckCards(a + b, lessonId) == DeckCards(a + b[..|b| - 1], lessonId) + tail;
      assert DeckCards(b, lessonId) == DeckCards(b[..|b| - 1], lessonId) + tail;
    }
  }

  lemma {:induction false} DeckCardsAll(cards: seq<Flashcard>, lessonId: int)
    requires forall c :: c in cards ==> c.lesson == lessonId
    ensures DeckCards(cards, lessonId) == cards
  {
    if cards != [] {
      var prefix := cards[..|cards| - 1];
      var last := cards[|cards| - 1];
      assert cards == prefix + [last];
      assert last in cards;
      DeckCardsAll(prefix, lessonId);
      assert DeckCards(cards, lessonId) == DeckCards(prefix, lessonId) + [last];
    }
  }

  lemma {:induction false} DeckCardsNone(cards: seq<Flashcard>, lessonId: int)
    requires forall c :: c in cards ==> c.lesson != lessonId
    ensures DeckCards(cards, lessonId) == []
  {
    if cards != [] {
      DeckCardsNone(cards[..|cards| - 1], lessonId);
    }
  }

  /** No two labels carry the same lesson number. */
  ghost predicate DistinctNumerals(ls: seq<RawLesson>) {
    forall i, j :: 0 <= i < j < |ls| ==> KeyNumber(ls[i].0) != KeyNumber(ls[j].0)
  }

  /** A deck's cards are the slice of the catalog its range names. */
  ghost predicate DeckQueryIsRange(cards: seq<Flashcard>, d: Deck) {
    1 <= d.globalStart <= d.globalEnd + 1 <= |cards| + 1 &&
    DeckCards(cards, d.id) == cards[d.globalStart - 1 .. d.globalEnd]
  }

  /** Appending cards of another lesson keeps a deck's query a range. */
  lemma DeckQueryKept(cards: seq<Flashcard>, added: seq<Flashcard>, d: Deck)
    requires DeckQueryIsRange(cards, d)
    requires forall x :: x in added ==> x.lesson != d.id
    ensures DeckQueryIsRange(cards + added, d)
  {
    DeckCardsNone(added, d.id);
    DeckCardsAppend(cards, added, d.id);
    assert (cards + added)[d.globalStart - 1 .. d.globalEnd] == cards[d.globalStart - 1 .. d.globalEnd];
  }

  /** Appending the cards of a lesson number not seen before: its query is
      exactly the appended cards. */
  lemma DeckQueryNew(cards: seq<Flashcard>, added: seq<Flashcard>, n: int)
    requires forall x :: x in cards ==> x.lesson != n
    requires forall x :: x in added ==> x.lesson == n
    ensures DeckCards(cards + added, n) == added
  {
    DeckCardsAll(added, n);
    DeckCardsNone(cards, n);
    DeckCardsAppend(cards, added, n);
  }

  /** Appending a lesson whose number is new, with its deck: every deck's
      query is still its range. */
  lemma DeckQueriesAppend(cards: seq<Flashcard>, decks: seq<Deck>, olds: set<nat>, added: seq<Flashcard>, d: Deck)
    requires forall e :: e in decks ==> DeckQueryIsRange(cards, e) && e.id in olds
    requires forall x :: x in cards ==> x.lesson in olds
    requires d.id !in olds && forall x :: x in added ==> x.lesson == d.id
    requires d.globalStart == |cards| + 1 && d.globalEnd == |cards| + |added|
    ensures forall e :: e in decks + [d] ==> DeckQueryIsRange(cards + added, e)
  {
    forall e | e in decks ensures DeckQueryIsRange(cards + added, e) {
      DeckQueryKept(cards, added, e);
    }
    DeckQueryNew(cards, added, d.id);
    assert (cards + added)[d.globalStart - 1 .. d.globalEnd] == added;
  }

  lemma LessonCardsLesson(items: seq<RawEntry>, lesson: int, start: int)
    ensures forall x :: x in LessonCards(items, lesson, start) ==> x.lesson == lesson
  {
    var cs := LessonCards(items, lesson, start);
    LessonCardsAt(items, lesson, start);
    forall x | x in cs ensures x.lesson == lesson {
      var i :| 0 <= i < |cs| && cs[i] == x;
    }
  }

  /** One more lesson whose number is new keeps every deck query a range. */
  lemma StepDeckQueries(c: Catalog, p: seq<RawLesson>, l: RawLesson)
    requires forall d :: d in c.decks ==> DeckQueryIsRange(c.cards, d) && d.id in Numerals(p)
    requires forall x :: x in c.cards ==> x.lesson in Numerals(p)
    requires KeyNumber(l.0) !in Numerals(p)
    ensures forall d :: d in Step(c, l).decks ==> DeckQueryIsRange(Step(c, l).cards, d)
  {
    if l.1.Vocabulary? {
      var n := KeyNumber(l.0);
      var start := |c.cards| + 1;
      var added := LessonCards(l.1.items, n, start);
      var d := Deck(n, l.0, |added|, start, start + |added| - 1);
      if |added| > 0 {
        assert Step(c, l) == Catalog(c.cards + added, c.decks + [d]);
        LessonCardsLesson(l.1.items, n, start);
        DeckQueriesAppend(c.cards, c.decks, Numerals(p), added, d);
      } else {
        assert Step(c, l) == c;
      }
    } else {
      assert Step(c, l) == c;
    }
  }

  /** When lesson numbers are distinct, a deck's cards are exactly the slice
      of the catalog its range names, so there are `count` of them. */
  lemma {:induction false} ProcessDeckCards(ls: seq<RawLesson>)
    requires DistinctNumerals(ls)
    ensures forall d :: d in Process(ls).decks ==> DeckQueryIsRange(Process(ls).cards, d)
  {
    if ls != [] {
      var p := ls[..|ls| - 1];
      var l := ls[|ls| - 1];
      assert DistinctNumerals(p) by {
        forall i, j | 0 <= i < j < |p| ensures KeyNumber(p[i].0) != KeyNumber(p[j].0) {
          assert p[i] == ls[i] && p[j] == ls[j];
        }
      }
      ProcessDeckCards(p);
      ProcessNumerals(p);
      assert KeyNumber(l.0) !in Numerals(p) by {
        if KeyNumber(l.0) in Numerals(p) {
          var j := NumeralIndex(p, KeyNumber(l.0));
        }
      }
      StepDeckQueries(Process(p), p, l);
    }
  }

  /** A numeral in the set comes from some label. */
  lemma {:induction false} NumeralIndex(ls: seq<RawLesson>, n: nat) returns (j: nat)
    requires n in Numerals(ls)
    ensures j < |ls| && KeyNumber(ls[j].0) == n
  {
    if KeyNumber(ls[|ls| - 1].0) == n {
      j := |ls| - 1;
    } else {
      j := NumeralIndex(ls[..|ls| - 1], n);
    }
  }

  /** Two entries with the same numeral show up twice in WithNumeral. */
  lemma {:induction false} TwoWithNumeral(s: seq<RawLesson>, i: nat, j: nat)
    requires i < j < |s| && KeyNumber(s[i].0) == KeyNumber(s[j].0)
    ensures |WithNumeral(s, KeyNumber(s[i].0))| >= 2
  {
    var n := KeyNumber(s[i].0);
    var head: seq<RawLesson> := if KeyNumber(s[0].0) == n then [s[0]] else [];
    assert WithNumeral(s, n) == head + WithNumeral(s[1..], n);
    assert s[1..][j - 1] == s[j];
    if i > 0 {
      assert s[1..][i - 1] == s[i];
      TwoWithNumeral(s[1..], i - 1, j - 1);
    } else {
      OneWithNumeral(s[1..], j - 1);
    }
  }

  lemma {:induction false} OneWithNumeral(s: seq<RawLesson>, j: nat)
    requires j < |s|
    ensures |WithNumeral(s, KeyNumber(s[j].0))| >= 1
  {
    var n := KeyNumber(s[j].0);
    var head: seq<RawLesson> := if KeyNumber(s[0].0) == n then [s[0]] else [];
    assert WithNumeral(s, n) == head + WithNumeral(s[1..], n);
    if j > 0 {
      assert s[1..][j - 1] == s[j];
      OneWithNumeral(s[1..], j - 1);
    }
  }

  lemma {:induction false} DistinctFewWithNumeral(s: seq<RawLesson>, n: nat)
    requires DistinctNumerals(s)
    ensures |WithNumeral(s, n)| <= 1
  {
    if s != [] {
      DistinctFewWithNumeral(s[1..], n);
      if KeyNumber(s[0].0) == n && |WithNumeral(s[1..], n)| > 0 {
        var j := WithNumeralIndex(s[1..], n);
      }
    }
  }

  lemma {:induction false} WithNumeralIndex(s: seq<RawLesson>, n: nat) returns (j: nat)
    requires |WithNumeral(s, n)| > 0
    ensures j < |s| && KeyNumber(s[j].0) == n
  {
    if KeyNumber(s[0].0) == n {
      j := 0;
    } else {
      j := WithNumeralIndex(s[1..], n);
      j := j + 1;
    }
  }

  /** Sorting keeps lesson numbers distinct. */
  lemma SortKeepsDistinct(raw: seq<RawLesson>)
    requires DistinctNumerals(raw)
    ensures DistinctNumerals(SortByNumeral(raw))
  {
    var s := SortByNumeral(raw);
    forall i, j | 0 <= i < j < |s| ensures KeyNumber(s[i].0) != KeyNumber(s[j].0) {
      if KeyNumber(s[i].0) == KeyNumber(s[j].0) {
        TwoWithNumeral(s, i, j);
        SortIsStable(raw, KeyNumber(s[i].0));
        DistinctFewWithNumeral(raw, KeyNumber(s[i].0));
      }
    }
  }

  /** The loaded catalog: dense indices, tiling decks in ascending lesson
      order, one deck per producing lesson, and (with distinct lesson numbers)
      each deck's card query returning exactly its range. */
  lemma LoadProperties(raw: seq<RawLesson>)
    ensures Dense(Load(raw).cards) && CardsFilled(Load(raw).cards)
    ensures DecksTile(Load(raw).cards, Load(raw).decks)
    ensures DistinctNumerals(raw) ==> forall d :: d in Load(raw).decks ==>
      && DeckCards(Load(raw).cards, d.id) == Load(raw).cards[d.globalStart - 1 .. d.globalEnd]
      && |DeckCards(Load(raw).cards, d.id)| == d.count
  {
    var s := SortByNumeral(raw);
    ProcessDense(s);
    ProcessTiles(s);
    if DistinctNumerals(raw) {
      SortKeepsDistinct(raw);
      ProcessDeckCards(s);
      forall d | d in Load(raw).decks
        ensures DeckCards(Load(raw).cards, d.id) == Load(raw).cards[d.globalStart - 1 .. d.globalEnd]
        ensures |DeckCards(Load(raw).cards, d.id)| == d.count
      {
        var k :| 0 <= k < |Load(raw).decks| && Load(raw).decks[k] == d;
      }
    }
  }

  /** On a densely numbered list, lookup by global index i finds the card at
      position i - 1 for 1 <= i <= N and nothing for any other i. */
  lemma {:induction false} LookupDense(cards: seq<Flashcard>, index: int)
    requires Dense(cards)
    ensures 1 <= index <= |cards| ==> CardByGlobalIndex(cards, index) == Some(cards[index - 1])
    ensures (index < 1 || index > |cards|) ==> CardByGlobalIndex(cards, index) == None
  {
    LookupShifted(cards, index, 0);
  }

  lemma {:induction false} LookupShifted(cards: seq<Flashcard>, index: int, offset: int)
    requires forall i :: 0 <= i < |cards| ==> cards[i].globalIndex == offset + i + 1
    ensures offset + 1 <= index <= offset + |cards| ==> CardByGlobalIndex(cards, index) == Some(cards[index - offset - 1])
    ensures (index <= offset || index > offset + |cards|) ==> CardByGlobalIndex(cards, index) == None
    decreases |cards|
  {
    if cards != [] && cards[0].globalIndex != index {
      LookupShifted(cards[1..], index, offset + 1);
    }
  }

  /** Lookup on the loaded catalog hits exactly 1..N. */
  lemma LookupLoaded(raw: seq<RawLesson>, index: int)
    ensures 1 <= index <= |Load(raw).cards| ==> CardByGlobalIndex(Load(raw).cards, index) == Some(Load(raw).cards[index - 1])
    ensures (index < 1 || index > |Load(raw).cards|) ==> CardByGlobalIndex(Load(raw).cards, index) == None
  {
    ProcessDense(SortByNumeral(raw));
    LookupDense(Load(raw).cards, index);
  }
}
