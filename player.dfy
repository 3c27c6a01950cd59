/** The card player page: which deck it shows, moving through it with wrap
    around, flipping the current card, and jumping to a card by number
    (client/src/pages/player.tsx). */
module Player {
  import opened Common
  import opened Data

  /** What the page is playing: the proverbs collection, every card, or one
      lesson's cards. */
  datatype Mode = ProverbsMode | GlobalMode | LessonMode(id: int)

  /** The path /proverbs selects proverbs mode; otherwise a missing, zero or
      unparsable lesson id (all falsy; None stands for a missing or unparsable
      one) selects every card, and any other id that lesson. */
  function SelectMode(pathname: string, lessonId: Option<int>): (m: Mode)
    ensures m.ProverbsMode? <==> pathname == "/proverbs"
    ensures m.GlobalMode? <==> pathname != "/proverbs" && (lessonId.None? || lessonId.value == 0)
    ensures m.LessonMode? ==> lessonId == Some(m.id) && m.id != 0
  {
    var isProverbs := pathname == "/proverbs";
    var isGlobal := (lessonId.None? || lessonId.value == 0) && !isProverbs;
    if isProverbs then ProverbsMode
    else if isGlobal then GlobalMode
    else LessonMode(lessonId.value)
  }

  /** The deck a mode plays: the given proverbs, all cards, or the lesson's
      cards in catalog order. */
  function DeckFor(mode: Mode, allCards: seq<Flashcard>, proverbs: seq<Flashcard>): (d: seq<Flashcard>)
    ensures mode.ProverbsMode? ==> d == proverbs
    ensures mode.GlobalMode? ==> d == allCards
    ensures mode.LessonMode? ==> forall c :: c in d <==> c in allCards && c.lesson == mode.id
  {
    match mode
    case ProverbsMode => proverbs
    case GlobalMode => allCards
    case LessonMode(id) => DeckCards(allCards, id)
  }

  /** The position after i in a deck of `len` cards, wrapping to the start. */
  function NextIndex(i: int, len: int): int
    requires 0 <= i < len
  {
    (i + 1) % len
  }

  /** The position before i in a deck of `len` cards, wrapping to the end. */
  function PrevIndex(i: int, len: int): int
    requires 0 <= i < len
  {
    (i - 1 + len) % len
  }

  /** Reducing a number below twice the length takes the length off at most
      once. */
  lemma ModBelowTwice(x: int, len: int)
    requires 0 < len && 0 <= x < 2 * len
    ensures x % len == if x < len then x else x - len
  {
    var q := x / len;
    assert x == len * q + x % len && 0 <= x % len < len;
    assert q <= -1 ==> len * q <= -len;
    assert q >= 2 ==> len * q >= 2 * len;
    assert q == 0 || q == 1;
  }

  /** Both moves stay inside the deck, step by exactly one place around the
      circle, and undo each other. */
  lemma NavigationRoundTrip(i: int, len: int)
    requires 0 <= i < len
    ensures 0 <= NextIndex(i, len) < len && 0 <= PrevIndex(i, len) < len
    ensures NextIndex(i, len) == if i == len - 1 then 0 else i + 1
    ensures PrevIndex(i, len) == if i == 0 then len - 1 else i - 1
    ensures PrevIndex(NextIndex(i, len), len) == i
    ensures NextIndex(PrevIndex(i, len), len) == i
  {
    ModBelowTwice(i + 1, len);
    ModBelowTwice(i - 1 + len, len);
    var n := NextIndex(i, len);
    var p := PrevIndex(i, len);
    ModBelowTwice(n - 1 + len, len);
    ModBelowTwice(p + 1, len);
  }

  /** The first position of a card with global index t, or -1. */
  method FindIndexByGlobal(deck: seq<Flashcard>, t: int) returns (k: int)
    ensures -1 <= k < |deck|
    ensures k >= 0 ==> deck[k].globalIndex == t && forall j :: 0 <= j < k ==> deck[j].globalIndex != t
    ensures k == -1 <==> forall j :: 0 <= j < |deck| ==> deck[j].globalIndex != t
  {
    var i := 0;
    while i < |deck|
      invariant 0 <= i <= |deck|
      invariant forall j :: 0 <= j < i ==> deck[j].globalIndex != t
    {
      if deck[i].globalIndex == t {
        return i;
      }
      i := i + 1;
    }
    return -1;
  }

  const EnterNumber := "Введите число"
  const CardNotFound := "Карточка не найдена."

  function RangeMessage(len: int): string {
    "Введите число от 1 до " + IntToString(len)
  }

  function NotInLessonMessage(t: int, lessonId: int): string {
    "Карточка #" + IntToString(t) + " не входит в Занятие " + IntToString(lessonId) + "."
  }

  class CardPlayer {
    const mode: Mode
    const deck: seq<Flashcard>
    var currentIndex: int
    var isFlipped: bool
    var jumpInput: string
    var error: Option<string>

    /** The current position is a card of the deck whenever there is one. */
    ghost predicate Valid()
      reads this
    {
      if |deck| > 0 then 0 <= currentIndex < |deck| else currentIndex == 0
    }

    constructor (m: Mode, d: seq<Flashcard>)
      ensures Valid()
      ensures mode == m && deck == d
      ensures currentIndex == 0 && !isFlipped && jumpInput == "" && error == None
    {
      mode, deck := m, d;
      currentIndex, isFlipped, jumpInput, error := 0, false, "", None;
    }

    /** Shows the card face up, then moves one card on, wrapping around. */
    method NextCard()
      requires Valid() && |deck| > 0
      modifies this
      ensures Valid()
      ensures currentIndex == NextIndex(old(currentIndex), |deck|) && !isFlipped
      ensures jumpInput == old(jumpInput) && error == old(error)
    {
      isFlipped := false;
      currentIndex := (currentIndex + 1) % |deck|;
    }

    /** Shows the card face up, then moves one card back, wrapping around. */
    method PrevCard()
      requires Valid() && |deck| > 0
      modifies this
      ensures Valid()
      ensures currentIndex == PrevIndex(old(currentIndex), |deck|) && !isFlipped
      ensures jumpInput == old(jumpInput) && error == old(error)
    {
      isFlipped := false;
      currentIndex := (currentIndex - 1 + |deck|) % |deck|;
    }

    /** Turns the current card over and changes nothing else. */
    method ToggleFlip()
      requires Valid()
      modifies this
      ensures Valid()
      ensures isFlipped == !old(isFlipped)
      ensures currentIndex == old(currentIndex) && jumpInput == old(jumpInput) && error == old(error)
    {
      isFlipped := !isFlipped;
    }

    /** The keyboard: right arrow and space move on, left arrow moves back,
        up and down arrows flip; keys typed into an input field and all other
        keys do nothing. */
    method HandleKey(key: string, inInputField: bool)
      requires Valid()
      requires !inInputField && (key == "ArrowRight" || key == " " || key == "ArrowLeft") ==> |deck| > 0
      modifies this
      ensures Valid()
      ensures jumpInput == old(jumpInput) && error == old(error)
      ensures inInputField ==> currentIndex == old(currentIndex) && isFlipped == old(isFlipped)
      ensures !inInputField && (key == "ArrowRight" || key == " ") ==>
        currentIndex == NextIndex(old(currentIndex), |deck|) && !isFlipped
      ensures !inInputField && key == "ArrowLeft" ==>
        currentIndex == PrevIndex(old(currentIndex), |deck|) && !isFlipped
      ensures !inInputField && (key == "ArrowUp" || key == "ArrowDown") ==>
        currentIndex == old(currentIndex) && isFlipped == !old(isFlipped)
      ensures !inInputField && key !in ["ArrowRight", " ", "ArrowLeft", "ArrowUp", "ArrowDown"] ==>
        currentIndex == old(currentIndex) && isFlipped == old(isFlipped)
    {
      if inInputField {
        return;
      }
      if key == "ArrowRight" || key == " " {
        NextCard();
      } else if key == "ArrowLeft" {
        PrevCard();
      } else if key == "ArrowUp" || key == "ArrowDown" {
        ToggleFlip();
      }
    }

    /** Typing into the jump field. */
    method SetJumpInput(s: string)
      requires Valid()
      modifies this
      ensures Valid()
      ensures jumpInput == s
      ensures currentIndex == old(currentIndex) && isFlipped == old(isFlipped) && error == old(error)
    {
      jumpInput := s;
    }

    /** Submitting the jump field, `parsed` being the integer read from it
        (None when it is not a number). Proverbs are addressed by 1-based
        position; cards by global index, searched for in the deck. A hit shows
        that card face up and clears the field; a miss leaves the position
        alone and reports why. */
    method HandleJump(parsed: Option<int>)
      requires Valid()
      modifies this
      ensures Valid()
      ensures parsed.None? ==>
        && error == Some(EnterNumber)
        && currentIndex == old(currentIndex) && isFlipped == old(isFlipped) && jumpInput == old(jumpInput)
      ensures parsed.Some? && mode.ProverbsMode? ==>
        var t := parsed.value;
        if 1 <= t <= |deck| then
          currentIndex == t - 1 && !isFlipped && jumpInput == "" && error == None
        else
          && error == Some(RangeMessage(|deck|))
          && currentIndex == old(currentIndex) && isFlipped == old(isFlipped) && jumpInput == old(jumpInput)
      ensures parsed.Some? && !mode.ProverbsMode? ==>
        var t := parsed.value;
        if exists j :: 0 <= j < |deck| && deck[j].globalIndex == t then
          && 0 <= currentIndex < |deck| && deck[currentIndex].globalIndex == t
          && (forall j :: 0 <= j < currentIndex ==> deck[j].globalIndex != t)
          && !isFlipped && jumpInput == "" && error == None
        else
          && error == Some(if mode.GlobalMode? then CardNotFound else NotInLessonMessage(t, mode.id))
          && currentIndex == old(currentIndex) && isFlipped == old(isFlipped) && jumpInput == old(jumpInput)
    {
      error := None;
      if parsed.None? {
        error := Some(EnterNumber);
        return;
      }
      var targetVal := parsed.value;
      if mode.ProverbsMode? {
        if targetVal >= 1 && targetVal <= |deck| {
          isFlipped := false;
          currentIndex := targetVal - 1;
          jumpInput := "";
        } else {
          error := Some(RangeMessage(|deck|));
        }
        return;
      }
      var index := FindIndexByGlobal(deck, targetVal);
      if index != -1 {
        isFlipped := false;
        currentIndex := index;
        jumpInput := "";
      } else if mode.GlobalMode? {
        error := Some(CardNotFound);
      } else {
        error := Some(NotInLessonMessage(targetVal, mode.id));
      }
    }
  }

  /** In every-card mode over the loaded catalog, jumping to global index t
      lands on position t - 1 exactly for 1 <= t <= N. */
  lemma GlobalJumpTarget(raw: seq<RawLesson>, t: int)
    ensures (exists j :: 0 <= j < |Load(raw).cards| && Load(raw).cards[j].globalIndex == t) <==> 1 <= t <= |Load(raw).cards|
    ensures 1 <= t <= |Load(raw).cards| ==>
      Load(raw).cards[t - 1].globalIndex == t &&
      forall j :: 0 <= j < t - 1 ==> Load(raw).cards[j].globalIndex != t
  {
    LoadProperties(raw);
    if 1 <= t <= |Load(raw).cards| {
      assert Load(raw).cards[t - 1].globalIndex == t;
    }
  }
}
