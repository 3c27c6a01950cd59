/** Multiple-choice quiz generation over one lesson's cards
    (generateQuiz in client/src/lib/data.ts). Every random reordering is an
    arbitrary permutation chosen by Shuffle; nothing is assumed about how likely
    each permutation is. */
module QuizGen {
  import opened Common
  import opened Data

  datatype QuizQuestion = QuizQuestion(card: Flashcard, options: seq<string>, correctOptionIndex: int)

  /** The question count used when the caller gives none. */
  const DefaultQuestionCount: nat := 30

  /** The cards a question asks about, in question order. */
  function Cards(qs: seq<QuizQuestion>): (r: seq<Flashcard>)
    ensures |r| == |qs|
    ensures forall i :: 0 <= i < |qs| ==> r[i] == qs[i].card
  {
    if qs == [] then [] else Cards(qs[..|qs| - 1]) + [qs[|qs| - 1].card]
  }

  /** The answer texts of a list of cards. */
  function Answers(cs: seq<Flashcard>): (r: seq<string>)
    ensures |r| == |cs|
    ensures forall i :: 0 <= i < |cs| ==> r[i] == cs[i].la
  {
    if cs == [] then [] else Answers(cs[..|cs| - 1]) + [cs[|cs| - 1].la]
  }

  /** The cards of `pool` other than `card`, told apart by global index only:
      a different card with the same answer text stays in. */
  function Others(pool: seq<Flashcard>, card: Flashcard): (r: seq<Flashcard>)
    ensures |r| <= |pool|
    ensures forall c :: c in r <==> c in pool && c.globalIndex != card.globalIndex
  {
    if pool == [] then []
    else
      var c := pool[|pool| - 1];
      Others(pool[..|pool| - 1], card) + (if c.globalIndex != card.globalIndex then [c] else [])
  }

  /** Where distractors come from: the lesson itself when it has more than
      ten cards, otherwise every card. */
  function DistractorPool(allCards: seq<Flashcard>, lessonId: int): seq<Flashcard> {
    var deck := DeckCards(allCards, lessonId);
    if |deck| > 10 then deck else allCards
  }

  /** The first position of x in s, or -1 when x does not occur. */
  function IndexOf(s: seq<string>, x: string): (r: int)
    ensures -1 <= r < |s|
    ensures r == -1 <==> x !in s
    ensures r >= 0 ==> s[r] == x && forall j :: 0 <= j < r ==> s[j] != x
  {
    if s == [] then -1
    else if s[0] == x then 0
    else var k := IndexOf(s[1..], x); if k == -1 then -1 else k + 1
  }

  /** What a generated question is: the correct answer sits at
      correctOptionIndex (its first occurrence), and the other options are the
      answers of up to three cards taken without repetition from the pool,
      none of them the question's own card. */
  ghost predicate WellFormed(q: QuizQuestion, pool: seq<Flashcard>) {
    var others := Others(pool, q.card);
    && 0 <= q.correctOptionIndex < |q.options|
    && q.options[q.correctOptionIndex] == q.card.la
    && (forall j :: 0 <= j < q.correctOptionIndex ==> q.options[j] != q.card.la)
    && |q.options| == Min(3, |others|) + 1
    && exists ds: seq<Flashcard> ::
         && |ds| == Min(3, |others|)
         && multiset(ds) <= multiset(others)
         && multiset(q.options) == multiset(Answers(ds)) + multiset{q.card.la}
  }

  /** An arbitrary reordering of s: each step moves some remaining element,
      whichever, to the end of the result. */
  method Shuffle<T>(s: seq<T>) returns (r: seq<T>)
    ensures |r| == |s|
    ensures multiset(r) == multiset(s)
  {
    r := [];
    var rest := s;
    while |rest| > 0
      invariant |r| + |rest| == |s|
      invariant multiset(r) + multiset(rest) == multiset(s)
      decreases |rest|
    {
      var i :| 0 <= i < |rest|;
      assert rest == rest[..i] + [rest[i]] + rest[i + 1..];
      r := r + [rest[i]];
      rest := rest[..i] + rest[i + 1..];
    }
  }

  lemma TakeOneMore<T>(s: seq<T>, i: nat)
    requires i < |s|
    ensures s[..i + 1] == s[..i] + [s[i]]
  {
  }

  lemma PrefixSubMultiset<T>(s: seq<T>, m: nat)
    requires m <= |s|
    ensures multiset(s[..m]) <= multiset(s)
  {
    assert s == s[..m] + s[m..];
  }

  /** One question for `card`: shuffle the other cards of the pool, take the
      answers of the first three, add the correct answer, shuffle again and
      record where the correct answer landed. */
  method MakeQuestion(card: Flashcard, pool: seq<Flashcard>) returns (q: QuizQuestion)
    ensures q.card == card
    ensures WellFormed(q, pool)
  {
    var others := Others(pool, card);
    var shuffled := Shuffle(others);
    var taken := shuffled[..Min(3, |shuffled|)];
    var distractors := Answers(taken);
    var options := Shuffle(distractors + [card.la]);
    assert card.la in multiset(options);
    var correctOptionIndex := IndexOf(options, card.la);
    q := QuizQuestion(card, options, correctOptionIndex);
    PrefixSubMultiset(shuffled, Min(3, |shuffled|));
    assert multiset(q.options) == multiset(Answers(taken)) + multiset{q.card.la};
  }

  /** Quiz for one lesson: no questions when the lesson has no cards;
      otherwise min(questionCount, n) questions about distinct draws from the
      lesson's cards (a prefix of a reordering of them), each well formed
      against the distractor pool. */
  method GenerateQuiz(allCards: seq<Flashcard>, lessonId: int, questionCount: nat) returns (qs: seq<QuizQuestion>)
    ensures DeckCards(allCards, lessonId) == [] ==> qs == []
    ensures |qs| == Min(questionCount, |DeckCards(allCards, lessonId)|)
    ensures multiset(Cards(qs)) <= multiset(DeckCards(allCards, lessonId))
    ensures forall i :: 0 <= i < |qs| ==> WellFormed(qs[i], DistractorPool(allCards, lessonId))
  {
    var deckCards := DeckCards(allCards, lessonId);
    if |deckCards| == 0 {
      return [];
    }
    var shuffledDeck := Shuffle(deckCards);
    var selectedCards := shuffledDeck[..Min(questionCount, |deckCards|)];
    PrefixSubMultiset(shuffledDeck, Min(questionCount, |deckCards|));
    var pool := if |deckCards| > 10 then deckCards else allCards;
    qs := AskAll(selectedCards, pool);
  }

  /** One question per selected card, in order, all against the same pool. */
  method AskAll(selectedCards: seq<Flashcard>, pool: seq<Flashcard>) returns (qs: seq<QuizQuestion>)
    ensures Cards(qs) == selectedCards
    ensures forall j :: 0 <= j < |qs| ==> WellFormed(qs[j], pool)
  {
    qs := [];
    var i := 0;
    while i < |selectedCards|
      invariant 0 <= i <= |selectedCards|
      invariant Cards(qs) == selectedCards[..i]
      invariant forall j :: 0 <= j < |qs| ==> WellFormed(qs[j], pool)
    {
      var card := selectedCards[i];
      TakeOneMore(selectedCards, i);
      var q := MakeQuestion(card, pool);
      qs := qs + [q];
      i := i + 1;
    }
    assert selectedCards[..i] == selectedCards;
  }

  // ---------------------------------------------------------------------
  // What follows from those contracts once global indices are distinct

  /** No two cards share a global index. */
  ghost predicate UniqueIndices(cs: seq<Flashcard>) {
    forall i, j :: 0 <= i < j < |cs| ==> cs[i].globalIndex != cs[j].globalIndex
  }

  lemma DenseIsUnique(cs: seq<Flashcard>)
    requires Dense(cs)
    ensures UniqueIndices(cs)
  {
  }

  /** A lesson's cards inherit distinct global indices from the catalog. */
  lemma {:induction false} DeckCardsUnique(cs: seq<Flashcard>, lessonId: int)
    requires UniqueIndices(cs)
    ensures UniqueIndices(DeckCards(cs, lessonId))
  {
    if cs != [] {
      var p := cs[..|cs| - 1];
      var last := cs[|cs| - 1];
      assert UniqueIndices(p);
      DeckCardsUnique(p, lessonId);
      var d := DeckCards(p, lessonId);
      forall x | x in d ensures x.globalIndex != last.globalIndex {
        var i :| 0 <= i < |p| && p[i] == x;
        assert cs[i] == x;
      }
    }
  }

  /** Excluding a card that occurs in a pool with distinct indices removes
      exactly one card. */
  lemma {:induction false} OthersCount(pool: seq<Flashcard>, card: Flashcard)
    requires UniqueIndices(pool) && card in pool
    ensures |Others(pool, card)| == |pool| - 1
  {
    var p := pool[..|pool| - 1];
    var last := pool[|pool| - 1];
    assert UniqueIndices(p);
    if last == card {
      OthersNone(p, card);
    } else {
      var i :| 0 <= i < |pool| && pool[i] == card;
      assert i < |pool| - 1 && p[i] == card;
      assert last.globalIndex != card.globalIndex;
      OthersCount(p, card);
    }
  }

  lemma {:induction false} OthersNone(pool: seq<Flashcard>, card: Flashcard)
    requires forall i :: 0 <= i < |pool| ==> pool[i].globalIndex != card.globalIndex
    ensures Others(pool, card) == pool
  {
    if pool != [] {
      var prefix := pool[..|pool| - 1];
      var last := pool[|pool| - 1];
      assert pool == prefix + [last];
      assert last.globalIndex != card.globalIndex;
      OthersNone(prefix, card);
      assert Others(pool, card) == Others(prefix, card) + [last];
    }
  }

  /** Two different positions holding equal values make that value occur at
      least twice in the multiset. */
  lemma TwiceInMultiset<T>(a: seq<T>, i: nat, j: nat)
    requires i < j < |a|
    ensures a[i] == a[j] ==> multiset(a)[a[i]] >= 2
  {
    assert a == a[..j] + a[j..];
    assert a[i] in a[..j] && a[j] in a[j..];
  }

  lemma {:induction false} TwoPositions<T>(b: seq<T>, x: T) returns (p: nat, q: nat)
    requires multiset(b)[x] >= 2
    ensures p < q < |b| && b[p] == x && b[q] == x
  {
    assert b == [b[0]] + b[1..];
    if b[0] == x {
      assert x in multiset(b[1..]);
      var k :| 0 <= k < |b[1..]| && b[1..][k] == x;
      p, q := 0, k + 1;
    } else {
      p, q := TwoPositions(b[1..], x);
      p, q := p + 1, q + 1;
    }
  }

  /** Anything drawn without repetition from cards with distinct indices has
      distinct indices. */
  lemma SubMultisetUnique(a: seq<Flashcard>, b: seq<Flashcard>)
    requires multiset(a) <= multiset(b) && UniqueIndices(b)
    ensures UniqueIndices(a)
  {
    forall i, j | 0 <= i < j < |a| ensures a[i].globalIndex != a[j].globalIndex {
      assert a[i] in multiset(a) && a[j] in multiset(a);
      UniqueMembers(b, a[i], a[j]);
      AtMostOnce(b, a[i]);
      TwiceInMultiset(a, i, j);
    }
  }

  /** In a list with distinct indices, the index determines the card. */
  lemma UniqueMembers(b: seq<Flashcard>, x: Flashcard, y: Flashcard)
    requires UniqueIndices(b)
    ensures x in b && y in b && x.globalIndex == y.globalIndex ==> x == y
  {
    if x in b && y in b {
      var p :| 0 <= p < |b| && b[p] == x;
      var q :| 0 <= q < |b| && b[q] == y;
    }
  }

  /** In a list with distinct indices, no card occurs twice. */
  lemma AtMostOnce(b: seq<Flashcard>, x: Flashcard)
    requires UniqueIndices(b)
    ensures multiset(b)[x] <= 1
  {
    if multiset(b)[x] >= 2 {
      var p, q := TwoPositions(b, x);
    }
  }

  /** On a catalog with distinct global indices, a quiz with GenerateQuiz's
      contract asks about pairwise distinct cards of the lesson, and every
      question has min(3, |pool| - 1) distractors besides the right answer. */
  lemma QuizOnUniqueCatalog(allCards: seq<Flashcard>, lessonId: int, qs: seq<QuizQuestion>)
    requires UniqueIndices(allCards)
    requires multiset(Cards(qs)) <= multiset(DeckCards(allCards, lessonId))
    requires forall i :: 0 <= i < |qs| ==> WellFormed(qs[i], DistractorPool(allCards, lessonId))
    ensures UniqueIndices(Cards(qs))
    ensures forall i :: 0 <= i < |qs| ==> qs[i].card in DeckCards(allCards, lessonId)
    ensures forall i :: 0 <= i < |qs| ==>
      |qs[i].options| == Min(3, |DistractorPool(allCards, lessonId)| - 1) + 1
  {
    var deck := DeckCards(allCards, lessonId);
    var pool := DistractorPool(allCards, lessonId);
    DeckCardsUnique(allCards, lessonId);
    SubMultisetUnique(Cards(qs), deck);
    forall i | 0 <= i < |qs|
      ensures qs[i].card in deck
      ensures |qs[i].options| == Min(3, |pool| - 1) + 1
    {
      assert Cards(qs)[i] == qs[i].card;
      assert qs[i].card in multiset(Cards(qs));
      OthersCount(pool, qs[i].card);
    }
  }

  /** On the loaded catalog, every question of a lesson with more than three
      other cards in its pool offers exactly four options. */
  lemma FourOptionsWhenPoolLarge(raw: seq<RawLesson>, lessonId: int, qs: seq<QuizQuestion>)
    requires multiset(Cards(qs)) <= multiset(DeckCards(Load(raw).cards, lessonId))
    requires forall i :: 0 <= i < |qs| ==> WellFormed(qs[i], DistractorPool(Load(raw).cards, lessonId))
    requires |DistractorPool(Load(raw).cards, lessonId)| >= 4
    ensures forall i :: 0 <= i < |qs| ==> |qs[i].options| == 4
  {
    LoadProperties(raw);
    DenseIsUnique(Load(raw).cards);
    QuizOnUniqueCatalog(Load(raw).cards, lessonId, qs);
  }
}
