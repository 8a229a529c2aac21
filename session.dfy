/** The vocabulary page of app.v7.js:249-297 and app.v3.js:360-449: the card
    list, and the review session that walks a snapshot of the due cards.
    The state of the session lives in `queue`, `current` and four button
    states: the rate buttons, reveal, skip and the "vocabulary XP" button. */
module Session {
  import opened Values
  import opened Dates
  import opened Cards
  import Words
  import Progress

  /** What the vocabulary file input yields once parsed: an array (taken as
      a list of cards) or any other JSON value. */
  datatype VocabFile = CardArray(cards: seq<Card>) | NotArray

  class Deck {
    var vocab: seq<Card>
    var queue: seq<Card>
    var current: Option<Card>
    var rateEnabled: bool
    var revealEnabled: bool
    var skipEnabled: bool
    var vocabXpEnabled: bool
    /** The queue `startQuiz` built, and the cards taken off it since. */
    ghost var snapshot: seq<Card>
    ghost var served: seq<Card>

    /** The cards served so far are the head of the snapshot and the queue
        is its rest, so every card of the snapshot is served at most once. */
    ghost predicate Valid()
      reads this
    {
      served + queue == snapshot
    }

    /** The rate buttons are live only while a card is shown and after it
        was revealed. */
    predicate Ready()
      reads this
    {
      rateEnabled ==> current.Some? && !revealEnabled
    }

    /** The page as loaded: the stored list, no quiz, and the buttons as the
        markup sets them. */
    constructor (vocab0: seq<Card>, rate0: bool, reveal0: bool, skip0: bool, xp0: bool)
      ensures vocab == vocab0 && queue == [] && current == None
      ensures rateEnabled == rate0 && revealEnabled == reveal0 && skipEnabled == skip0 && vocabXpEnabled == xp0
      ensures Valid()
    {
      vocab := vocab0;
      queue := [];
      current := None;
      rateEnabled := rate0;
      revealEnabled := reveal0;
      skipEnabled := skip0;
      vocabXpEnabled := xp0;
      snapshot := [];
      served := [];
    }

    /** `serveNext`: the head of the queue becomes the current card, with
        rating off and reveal and skip on; an empty queue ends the session,
        with no current card, rating off and the XP button on. */
    method ServeNext()
      modifies this
      ensures vocab == old(vocab) && snapshot == old(snapshot)
      ensures old(queue) == [] ==>
        && queue == [] && current == None && served == old(served)
        && !rateEnabled && vocabXpEnabled
        && revealEnabled == old(revealEnabled) && skipEnabled == old(skipEnabled)
      ensures old(queue) != [] ==>
        && queue == old(queue)[1..] && current == Some(old(queue)[0]) && served == old(served) + [old(queue)[0]]
        && !rateEnabled && revealEnabled && skipEnabled
        && vocabXpEnabled == old(vocabXpEnabled)
      ensures old(Valid()) ==> Valid()
      ensures Ready()
    {
      if queue == [] {
        current := None;
        rateEnabled := false;
        vocabXpEnabled := true;
        return;
      }
      current := Some(queue[0]);
      served := served + [queue[0]];
      queue := queue[1..];
      rateEnabled := false;
      revealEnabled := true;
      skipEnabled := true;
    }

    /** The start button: the queue becomes the due cards in list order.
        With none due the queue is emptied and nothing else changes;
        otherwise the first due card is served. */
    method StartQuiz(today: Day)
      modifies this
      ensures vocab == old(vocab) && Valid()
      ensures snapshot == DueCards(vocab, today) && served == (if snapshot == [] then [] else [snapshot[0]])
      ensures snapshot == [] ==>
        && queue == [] && current == old(current)
        && rateEnabled == old(rateEnabled) && revealEnabled == old(revealEnabled)
        && skipEnabled == old(skipEnabled) && vocabXpEnabled == old(vocabXpEnabled)
      ensures snapshot != [] ==>
        && current == Some(snapshot[0]) && queue == snapshot[1..]
        && !rateEnabled && revealEnabled && skipEnabled && vocabXpEnabled == old(vocabXpEnabled)
      ensures old(Ready()) ==> Ready()
    {
      queue := DueCards(vocab, today);
      snapshot := queue;
      served := [];
      if queue == [] {
        return;
      }
      ServeNext();
    }

    /** The skip button: the current card is dropped from the session. */
    method Skip()
      modifies this
      ensures vocab == old(vocab) && snapshot == old(snapshot)
      ensures queue == if old(queue) == [] then [] else old(queue)[1..]
      ensures current == if old(queue) == [] then None else Some(old(queue)[0])
      ensures !rateEnabled
      ensures old(queue) == [] ==>
        && vocabXpEnabled && revealEnabled == old(revealEnabled) && skipEnabled == old(skipEnabled)
      ensures old(queue) != [] ==>
        && revealEnabled && skipEnabled && vocabXpEnabled == old(vocabXpEnabled)
      ensures old(Valid()) ==> Valid()
      ensures Ready()
    {
      ServeNext();
    }

    /** The reveal button: with a current card, rating is switched on and
        reveal off; without one nothing happens. */
    method Reveal()
      modifies this
      ensures old(current).None? ==> unchanged(this)
      ensures old(current).Some? ==>
        && rateEnabled && !revealEnabled
        && vocab == old(vocab) && queue == old(queue) && current == old(current)
        && skipEnabled == old(skipEnabled) && vocabXpEnabled == old(vocabXpEnabled)
        && snapshot == old(snapshot) && served == old(served)
      ensures old(Ready()) ==> Ready()
    {
      if current.None? {
        return;
      }
      rateEnabled := true;
      revealEnabled := false;
    }

    /** `rate(grade)` of app.v7.js: without a current card nothing happens;
        otherwise the rated card replaces the first card with its id in the
        list and the next card is served. */
    method Rate(grade: int, today: Day)
      modifies this
      ensures old(current).None? ==> unchanged(this)
      ensures old(current).Some? ==>
        && vocab == ReplaceById(old(vocab), Cards.Rate(old(current).value, grade, today))
        && queue == (if old(queue) == [] then [] else old(queue)[1..])
        && current == (if old(queue) == [] then None else Some(old(queue)[0]))
        && !rateEnabled && Ready()
      ensures old(current).Some? && old(queue) == [] ==>
        && vocabXpEnabled && revealEnabled == old(revealEnabled) && skipEnabled == old(skipEnabled)
      ensures old(current).Some? && old(queue) != [] ==>
        && revealEnabled && skipEnabled && vocabXpEnabled == old(vocabXpEnabled)
      ensures old(Valid()) ==> Valid()
      ensures snapshot == old(snapshot)
    {
      if current.None? {
        return;
      }
      var c := Cards.Rate(current.value, grade, today);
      vocab := ReplaceById(vocab, c);
      ServeNext();
    }

    /** `rateCard(grade)` of app.v3.js, which has no guard: without a
        current card its first assignment throws and nothing changes. The
        write-back `store.set` of this build passes a throwing backend on
        (`writeFails`): the card has then been rated in place and put back
        in the list, so the current card is the rated one, but the next
        card is not served and the buttons stay as they were, so the same
        card can be rated again. */
    method RateUnguarded(grade: int, today: Day, writeFails: bool) returns (threw: bool)
      modifies this
      ensures threw <==> old(current).None? || writeFails
      ensures old(current).None? ==> unchanged(this)
      ensures old(current).Some? ==>
        vocab == ReplaceById(old(vocab), Cards.Rate(old(current).value, grade, today))
      ensures old(current).Some? && writeFails ==>
        && current == Some(Cards.Rate(old(current).value, grade, today))
        && queue == old(queue) && served == old(served)
        && rateEnabled == old(rateEnabled) && revealEnabled == old(revealEnabled)
        && skipEnabled == old(skipEnabled) && vocabXpEnabled == old(vocabXpEnabled)
      ensures !threw ==>
        && queue == (if old(queue) == [] then [] else old(queue)[1..])
        && current == (if old(queue) == [] then None else Some(old(queue)[0]))
        && !rateEnabled && Ready()
      ensures !threw && old(queue) == [] ==>
        && vocabXpEnabled && revealEnabled == old(revealEnabled) && skipEnabled == old(skipEnabled)
      ensures !threw && old(queue) != [] ==>
        && revealEnabled && skipEnabled && vocabXpEnabled == old(vocabXpEnabled)
      ensures old(Valid()) ==> Valid()
      ensures old(Ready()) ==> Ready()
      ensures snapshot == old(snapshot)
    {
      if current.None? {
        return true;
      }
      var c := Cards.Rate(current.value, grade, today);
      current := Some(c);
      vocab := ReplaceById(vocab, c);
      if writeFails {
        return true;
      }
      threw := false;
      ServeNext();
    }

    /** `addVocab(fr, en)`: one new card at the end of the list. */
    method AddVocab(id: int, fr: string, en: string, today: Day)
      modifies this
      ensures vocab == old(vocab) + [NewCard(id, fr, en, today)]
      ensures queue == old(queue) && current == old(current) && served == old(served) && snapshot == old(snapshot)
      ensures rateEnabled == old(rateEnabled) && revealEnabled == old(revealEnabled)
      ensures skipEnabled == old(skipEnabled) && vocabXpEnabled == old(vocabXpEnabled)
    {
      vocab := vocab + [NewCard(id, fr, en, today)];
    }

    /** The add-word button: both fields are trimmed, and a card is added
        exactly when neither field is blank. */
    method AddWord(id: int, frField: string, enField: string, today: Day) returns (added: bool)
      modifies this
      ensures added <==> !Words.Blank(frField) && !Words.Blank(enField)
      ensures added ==> vocab == old(vocab) + [NewCard(id, Words.Trim(frField), Words.Trim(enField), today)]
      ensures !added ==> vocab == old(vocab)
      ensures queue == old(queue) && current == old(current) && served == old(served) && snapshot == old(snapshot)
      ensures rateEnabled == old(rateEnabled) && revealEnabled == old(revealEnabled)
      ensures skipEnabled == old(skipEnabled) && vocabXpEnabled == old(vocabXpEnabled)
    {
      var fr := Words.Trim(frField);
      var en := Words.Trim(enField);
      Words.TrimEmptyIffBlank(frField);
      Words.TrimEmptyIffBlank(enField);
      if fr == [] || en == [] {
        return false;
      }
      AddVocab(id, fr, en, today);
      added := true;
    }

    /** The delete button of a row: every card with that id goes, the rest
        stay in order; a session in progress keeps its queue. */
    method Delete(id: int)
      modifies this
      ensures vocab == WithoutId(old(vocab), id)
      ensures forall c :: c in vocab <==> c in old(vocab) && c.id != id
      ensures queue == old(queue) && current == old(current) && served == old(served) && snapshot == old(snapshot)
      ensures rateEnabled == old(rateEnabled) && revealEnabled == old(revealEnabled)
      ensures skipEnabled == old(skipEnabled) && vocabXpEnabled == old(vocabXpEnabled)
    {
      vocab := WithoutId(vocab, id);
    }

    /** The import input: an array replaces the list; anything else, or a
        file that does not parse (`None`), leaves it alone. */
    method ImportVocab(file: Option<VocabFile>)
      modifies this
      ensures vocab == if file.Some? && file.value.CardArray? then file.value.cards else old(vocab)
      ensures queue == old(queue) && current == old(current) && served == old(served) && snapshot == old(snapshot)
      ensures rateEnabled == old(rateEnabled) && revealEnabled == old(revealEnabled)
      ensures skipEnabled == old(skipEnabled) && vocabXpEnabled == old(vocabXpEnabled)
    {
      if file.Some? && file.value.CardArray? {
        vocab := file.value.cards;
      }
    }

    /** The clear button: the list is emptied once the user confirms. */
    method ClearVocab(confirmed: bool)
      modifies this
      ensures vocab == if confirmed then [] else old(vocab)
      ensures queue == old(queue) && current == old(current) && served == old(served) && snapshot == old(snapshot)
      ensures rateEnabled == old(rateEnabled) && revealEnabled == old(revealEnabled)
      ensures skipEnabled == old(skipEnabled) && vocabXpEnabled == old(vocabXpEnabled)
    {
      if confirmed {
        vocab := [];
      }
    }

    /** `updateDueCount`: how many cards are due today. */
    function DueCount(today: Day): (n: nat)
      reads this
      ensures n <= |vocab|
      ensures n == |vocab| <==> forall i :: 0 <= i < |vocab| ==> IsDue(vocab[i], today)
      ensures n == 0 <==> forall i :: 0 <= i < |vocab| ==> !IsDue(vocab[i], today)
    {
      FilterCount(vocab, (c: Card) => IsDue(c, today));
      |DueCards(vocab, today)|
    }

    /** The "vocabulary XP" button: 5 XP and the vocab flag for today, and
        the button switches itself off. */
    method MarkVocabXp(tracker: Progress.Tracker, today: Day)
      modifies this, tracker
      ensures tracker.xp == Progress.AddToDay(old(tracker.xp), today, 5)
      ensures tracker.flags == Progress.RaiseFlag(old(tracker.flags), today, "vocab")
      ensures tracker.goal == old(tracker.goal)
      ensures tracker.dailyMinutes == old(tracker.dailyMinutes) && tracker.weeklyHours == old(tracker.weeklyHours)
      ensures !vocabXpEnabled
      ensures vocab == old(vocab) && queue == old(queue) && current == old(current)
      ensures rateEnabled == old(rateEnabled) && revealEnabled == old(revealEnabled) && skipEnabled == old(skipEnabled)
      ensures served == old(served) && snapshot == old(snapshot)
    {
      tracker.AddXP(today, 5, Some("vocab"));
      vocabXpEnabled := false;
    }
  }

  /** A session only ever serves the cards of its snapshot, in order and
      each once: the served cards are a prefix of the snapshot, and the
      queue shrinks by one with every card served. */
  lemma ServedIsPrefix(served: seq<Card>, queue: seq<Card>, snapshot: seq<Card>)
    requires served + queue == snapshot
    ensures served == snapshot[..|served|] && queue == snapshot[|served|..]
    ensures |queue| == |snapshot| - |served|
  {
    assert snapshot[..|served|] == served;
  }
}
