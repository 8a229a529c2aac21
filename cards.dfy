/** Vocabulary cards and the SM-2-lite scheduler of app.v7.js:259-287 and
    app.v3.js:375-449: a card carries an ease factor, an interval in days, a
    repetition count and the day it is next due; rating it moves all four.

    Ease is kept in hundredths (250 stands for 2.5), so the scheduler's
    arithmetic is exact; `Math.round` is rounding half up. */
module Cards {
  import opened Dates

  /** A vocabulary card. Ids are numbers the caller supplies. */
  datatype Card = Card(id: int, fr: string, en: string, ease: int, interval: int, reps: int, due: Day)

  const StartEase: int := 250
  const MinEase: int := 130
  const MaxEase: int := 300
  const FailPenalty: int := 20
  const EasyBonus: int := 15

  /** The shape every card made by the builds keeps: ease within
      1.3..3.0, counts not negative, and a card that has been passed at
      least once waits at least a day. */
  predicate Scheduled(c: Card) {
    MinEase <= c.ease <= MaxEase && c.interval >= 0 && c.reps >= 0 && (c.reps >= 1 ==> c.interval >= 1)
  }

  /** `v.due <= today`: compared on "YYYY-MM-DD" keys in the source, which
      order like the days (Dates.KeyOrder). */
  predicate IsDue(c: Card, today: Day) {
    c.due <= today
  }

  /** The card `addVocab` appends: ease 2.5, interval 0, no repetitions,
      due today. */
  function NewCard(id: int, fr: string, en: string, today: Day): (c: Card)
    ensures Scheduled(c) && IsDue(c, today) && c.id == id && c.fr == fr && c.en == en
  {
    Card(id, fr, en, StartEase, 0, 0, today)
  }

  /** `Math.round(a / 100)`: the whole number nearest to a / 100, halves
      rounded up. */
  function RoundHundredths(a: int): (r: int)
    ensures 100 * r - 50 <= a < 100 * r + 50
  {
    (a + 50) / 100
  }

  /** The interval after a passing grade, given the new repetition count:
      1 day, then 3 days, then the old interval times the ease. */
  function PassInterval(reps: int, interval: int, ease: int): int {
    if reps == 1 then 1 else if reps == 2 then 3 else RoundHundredths(interval * ease)
  }

  /** `rate(grade)` on one card: below 3 the card is failed, otherwise
      passed; it falls due `interval` days after `today`. */
  function Rate(c: Card, grade: int, today: Day): (r: Card)
    ensures r.id == c.id && r.fr == c.fr && r.en == c.en
    ensures r.due == today + r.interval
  {
    if grade < 3 then
      c.(reps := 0, interval := 1, ease := if c.ease - FailPenalty < MinEase then MinEase else c.ease - FailPenalty,
         due := today + 1)
    else
      var reps := c.reps + 1;
      var interval := PassInterval(reps, c.interval, c.ease);
      var ease := c.ease + (if grade == 4 then EasyBonus else 0);
      c.(reps := reps, interval := interval, ease := if ease > MaxEase then MaxEase else ease,
         due := today + interval)
  }

  lemma MulAtLeast(i: int, e: int, k: int)
    requires i >= 0 && e >= k
    ensures i * e >= i * k
  {
  }

  /** A failed card starts over, whatever its state: no repetitions, due
      tomorrow, and its ease becomes the larger of 1.3 and the old ease
      less 0.2. */
  lemma RateFail(c: Card, grade: int, today: Day)
    requires grade < 3
    ensures var r := Rate(c, grade, today);
      && r.reps == 0 && r.interval == 1 && r.due == today + 1
      && r.ease >= MinEase && r.ease >= c.ease - FailPenalty
      && (r.ease == MinEase || r.ease == c.ease - FailPenalty)
      && (c.ease >= MinEase ==> r.ease <= c.ease)
  {
  }

  /** A passed card counts one more repetition. Its interval becomes 1 day
      at the first repetition, 3 days at the second and the old interval
      times the ease, rounded, after that; its ease becomes the smaller of
      3.0 and the old ease plus 0.15 for grade 4 (plus nothing otherwise).
      For a card in shape, from the third repetition on the interval never
      shrinks. */
  lemma RatePass(c: Card, grade: int, today: Day)
    requires grade >= 3
    ensures var r := Rate(c, grade, today);
      && r.reps == c.reps + 1
      && (c.reps == 0 ==> r.interval == 1)
      && (c.reps == 1 ==> r.interval == 3)
      && (c.reps != 0 && c.reps != 1 ==> 100 * r.interval - 50 <= c.interval * c.ease < 100 * r.interval + 50)
      && var raised := c.ease + (if grade == 4 then EasyBonus else 0);
      && r.ease <= MaxEase && r.ease <= raised
      && (r.ease == MaxEase || r.ease == raised)
      && (Scheduled(c) ==> c.ease <= r.ease)
      && (Scheduled(c) && c.reps >= 2 ==> r.interval >= c.interval)
  {
    if Scheduled(c) && c.reps >= 2 {
      MulAtLeast(c.interval, c.ease, 100);
    }
  }

  /** Rating keeps a card's schedule in shape and always moves its due day
      past today, so a rated card is no longer due. */
  lemma RateKeepsScheduled(c: Card, grade: int, today: Day)
    requires Scheduled(c)
    ensures Scheduled(Rate(c, grade, today))
    ensures Rate(c, grade, today).interval >= 1 && !IsDue(Rate(c, grade, today), today)
  {
    if grade >= 3 && c.reps >= 2 {
      MulAtLeast(c.interval, c.ease, 100);
    }
  }

  /** A card whose ease is above 3.0 (possible for an imported card) loses
      ease on a plain "good", because the cap applies to every pass. */
  lemma GoodCanLowerEase(today: Day)
    ensures var c := Card(1, "a", "b", 310, 10, 5, today);
      Rate(c, 3, today).ease == 300 < c.ease
  {
  }

  /** A new card passed with "good" three times waits 1, 3 and then
      round(3 × 2.5) = 8 days; failing it afterwards brings it back to one
      day with ease 2.3. */
  lemma GoodGoodGoodAgain(id: int, fr: string, en: string, today: Day)
    ensures var c1 := Rate(NewCard(id, fr, en, today), 3, today);
      var c2 := Rate(c1, 3, today);
      var c3 := Rate(c2, 3, today);
      var c4 := Rate(c3, 0, today);
      && c1.interval == 1 && c2.interval == 3 && c3.interval == 8
      && c3.due == today + 8 && c3.reps == 3
      && c4.interval == 1 && c4.reps == 0 && c4.ease == 230
  {
  }

  // ---------------------------------------------------------------------
  // The vocabulary list

  /** `s.filter(keep)`. */
  function Filter(s: seq<Card>, keep: Card -> bool): (r: seq<Card>)
    ensures |r| <= |s|
    ensures forall c :: c in r <==> c in s && keep(c)
  {
    if s == [] then []
    else (if keep(s[0]) then [s[0]] else []) + Filter(s[1..], keep)
  }

  /** Filtering keeps the order: it works piece by piece. */
  lemma {:induction false} FilterAppend(a: seq<Card>, b: seq<Card>, keep: Card -> bool)
    ensures Filter(a + b, keep) == Filter(a, keep) + Filter(b, keep)
    decreases |a|
  {
    if a != [] {
      assert (a + b)[0] == a[0] && (a + b)[1..] == a[1..] + b;
      FilterAppend(a[1..], b, keep);
    } else {
      assert a + b == b;
    }
  }

  /** A filter that keeps everything changes nothing. */
  lemma {:induction false} FilterAll(s: seq<Card>, keep: Card -> bool)
    requires forall i :: 0 <= i < |s| ==> keep(s[i])
    ensures Filter(s, keep) == s
    decreases |s|
  {
    if s != [] {
      FilterAll(s[1..], keep);
      assert [s[0]] + s[1..] == s;
    }
  }

  /** The filter keeps every element exactly when each passes, and none
      exactly when none does. */
  lemma {:induction false} FilterCount(s: seq<Card>, keep: Card -> bool)
    ensures |Filter(s, keep)| == |s| <==> forall i :: 0 <= i < |s| ==> keep(s[i])
    ensures |Filter(s, keep)| == 0 <==> forall i :: 0 <= i < |s| ==> !keep(s[i])
    decreases |s|
  {
    if s != [] {
      FilterCount(s[1..], keep);
      assert forall i :: 1 <= i < |s| ==> s[i] == s[1..][i - 1];
      if |Filter(s, keep)| == 0 {
        assert !keep(s[0]);
      }
    }
  }

  /** The cards a quiz starts with: `vocab.filter(v => v.due <= today)`. */
  function DueCards(vocab: seq<Card>, today: Day): (r: seq<Card>)
    ensures forall c :: c in r <==> c in vocab && IsDue(c, today)
  {
    Filter(vocab, (c: Card) => IsDue(c, today))
  }

  /** The list after the delete button: `vocab.filter(x => x.id != id)`. */
  function WithoutId(vocab: seq<Card>, id: int): (r: seq<Card>)
    ensures forall c :: c in r <==> c in vocab && c.id != id
  {
    Filter(vocab, (c: Card) => c.id != id)
  }

  /** Deleting works on each part of the list separately, so the cards
      that stay keep their order, and a list without the id is unchanged. */
  lemma WithoutIdKeepsOrder(a: seq<Card>, b: seq<Card>, id: int)
    ensures WithoutId(a + b, id) == WithoutId(a, id) + WithoutId(b, id)
    ensures (forall i :: 0 <= i < |a| ==> a[i].id != id) ==> WithoutId(a, id) == a
  {
    FilterAppend(a, b, (c: Card) => c.id != id);
    if forall i :: 0 <= i < |a| ==> a[i].id != id {
      FilterAll(a, (c: Card) => c.id != id);
    }
  }

  /** `vocab.findIndex(v => v.id === id)`. */
  function FindIndex(vocab: seq<Card>, id: int): (i: int)
    ensures -1 <= i < |vocab|
    ensures i >= 0 ==> vocab[i].id == id
    ensures forall j :: 0 <= j < |vocab| && (i < 0 || j < i) ==> vocab[j].id != id
  {
    if vocab == [] then -1
    else if vocab[0].id == id then 0
    else
      var k := FindIndex(vocab[1..], id);
      if k < 0 then -1 else k + 1
  }

  /** `if (idx > -1) vocab[idx] = c`: the first card with the same id is
      replaced and every other card stays where it was. */
  function ReplaceById(vocab: seq<Card>, c: Card): (r: seq<Card>)
    ensures |r| == |vocab|
    ensures var i := FindIndex(vocab, c.id);
      forall j :: 0 <= j < |vocab| ==> r[j] == if j == i then c else vocab[j]
  {
    var i := FindIndex(vocab, c.id);
    if i >= 0 then vocab[i := c] else vocab
  }

  /** Replacing never changes which ids the list holds, and a list without
      the id is left as it is. */
  lemma ReplaceByIdIds(vocab: seq<Card>, c: Card)
    ensures forall j :: 0 <= j < |vocab| ==> ReplaceById(vocab, c)[j].id == vocab[j].id
    ensures (forall j :: 0 <= j < |vocab| ==> vocab[j].id != c.id) ==> ReplaceById(vocab, c) == vocab
  {
  }

  predicate AllScheduled(vocab: seq<Card>) {
    forall i :: 0 <= i < |vocab| ==> Scheduled(vocab[i])
  }

  /** Every list operation keeps all cards in shape. */
  lemma ListOpsKeepScheduled(vocab: seq<Card>, c: Card, id: int, fr: string, en: string, grade: int, today: Day)
    requires AllScheduled(vocab) && Scheduled(c)
    ensures AllScheduled(vocab + [NewCard(id, fr, en, today)])
    ensures AllScheduled(WithoutId(vocab, id))
    ensures AllScheduled(ReplaceById(vocab, Rate(c, grade, today)))
  {
    RateKeepsScheduled(c, grade, today);
    var w := WithoutId(vocab, id);
    forall i | 0 <= i < |w|
      ensures Scheduled(w[i])
    {
      assert w[i] in vocab;
    }
  }
}
