/** The safe-mode build (app.safe.js): the same page with no durable
    storage. Its in-memory store always holds the XP, flag and goal entries
    it writes at start-up, so they are kept here as plain fields: one XP
    counter and one flag record, not one per day. The card list lives only
    in memory and is never written back to the store. */
module SafeMode {
  import opened Dates
  import Words
  import Progress

  /** A safe-mode card: no scheduling fields, only the day it was added. */
  datatype SafeCard = SafeCard(id: int, fr: string, en: string, due: Day)

  class App {
    var xp: int
    var flags: map<string, bool>
    var goal: int
    var vocab: seq<SafeCard>

    /** Start-up: goal 30, no XP, every flag false, and the two seed cards
        due today. */
    constructor (today: Day)
      ensures xp == 0 && goal == 30 && flags == Progress.AllFalse
      ensures vocab == [SafeCard(1, "envisager", "to consider", today), SafeCard(2, "mettre en place", "to set up", today)]
    {
      xp := 0;
      goal := 30;
      flags := Progress.AllFalse;
      vocab := [SafeCard(1, "envisager", "to consider", today), SafeCard(2, "mettre en place", "to set up", today)];
    }

    /** `addXP(n, flag)`: the counter grows by `n` and the named flag is
        raised; every other flag keeps its value. */
    method AddXP(n: int, flag: string)
      modifies this
      ensures xp == old(xp) + n
      ensures flags == old(flags)[flag := true]
      ensures goal == old(goal) && vocab == old(vocab)
    {
      xp := xp + n;
      flags := flags[flag := true];
    }

    method IncGoal()
      modifies this
      ensures goal == Progress.GoalUp(old(goal))
      ensures xp == old(xp) && flags == old(flags) && vocab == old(vocab)
    {
      goal := Progress.GoalUp(goal);
    }

    method DecGoal()
      modifies this
      ensures goal == Progress.GoalDown(old(goal)) && goal >= 10
      ensures xp == old(xp) && flags == old(flags) && vocab == old(vocab)
    {
      goal := Progress.GoalDown(goal);
    }

    /** The reset button: no XP and all five flags false, whatever was
        raised before. */
    method ResetDay()
      modifies this
      ensures xp == 0 && flags.Keys == Progress.FlagNames
      ensures forall f :: f in flags ==> !flags[f]
      ensures goal == old(goal) && vocab == old(vocab)
    {
      xp := 0;
      flags := Progress.AllFalse;
    }

    /** The streak the chart shows: one day when today's XP reaches the
        goal, none otherwise. */
    function StreakFigure(): (s: nat)
      reads this
      ensures s <= 1
      ensures s == 1 <==> xp >= goal
    {
      if xp >= goal then 1 else 0
    }

    /** The add-word button: a card due today, with a caller-supplied id,
        exactly when neither trimmed field is blank. */
    method AddWord(id: int, frField: string, enField: string, today: Day) returns (added: bool)
      modifies this
      ensures added <==> !Words.Blank(frField) && !Words.Blank(enField)
      ensures added ==> vocab == old(vocab) + [SafeCard(id, Words.Trim(frField), Words.Trim(enField), today)]
      ensures !added ==> vocab == old(vocab)
      ensures xp == old(xp) && flags == old(flags) && goal == old(goal)
    {
      var fr := Words.Trim(frField);
      var en := Words.Trim(enField);
      Words.TrimEmptyIffBlank(frField);
      Words.TrimEmptyIffBlank(enField);
      if fr == [] || en == [] {
        return false;
      }
      vocab := vocab + [SafeCard(id, fr, en, today)];
      added := true;
    }

    /** The clear button: no confirmation in this build. */
    method ClearVocab()
      modifies this
      ensures vocab == []
      ensures xp == old(xp) && flags == old(flags) && goal == old(goal)
    {
      vocab := [];
    }

    /** The due counter: every card counts, whatever its due day. */
    function DueCount(today: Day): (n: nat)
      reads this
      ensures n == |vocab| && n >= CountDue(vocab, today)
    {
      |vocab|
    }
  }

  /** The number of cards actually due on `today`. */
  function CountDue(vocab: seq<SafeCard>, today: Day): (k: nat)
    ensures k <= |vocab|
  {
    if vocab == [] then 0
    else CountDue(vocab[..|vocab| - 1], today) + (if vocab[|vocab| - 1].due <= today then 1 else 0)
  }

  /** The safe-mode counter agrees with the number of due cards exactly
      when every card is due, so a card not yet due is still counted. */
  lemma {:induction false} DueCountExactIffAllDue(vocab: seq<SafeCard>, today: Day)
    ensures CountDue(vocab, today) == |vocab| <==> forall i :: 0 <= i < |vocab| ==> vocab[i].due <= today
    decreases |vocab|
  {
    if vocab != [] {
      var front := vocab[..|vocab| - 1];
      DueCountExactIffAllDue(front, today);
      assert forall i :: 0 <= i < |front| ==> front[i] == vocab[i];
    }
  }

  /** The check-dictation handler: target and guess (already lower-cased)
      are trimmed and split on white space, with no punctuation stripping,
      and the guess words found among the target words are counted. */
  method CheckDictation(target: string, guess: string) returns (matched: nat, targetWords: nat)
    ensures targetWords == |Words.SplitWs(Words.Trim(target))| && targetWords >= 1
    ensures matched == Words.CountIn(Words.SplitWs(Words.Trim(guess)), set w | w in Words.SplitWs(Words.Trim(target)))
    ensures matched <= |Words.SplitWs(Words.Trim(guess))|
  {
    var wa := Words.SplitWs(Words.Trim(target));
    var wb := Words.SplitWs(Words.Trim(guess));
    matched := Words.MatchCount(wa, wb);
    targetWords := |wa|;
  }
}
