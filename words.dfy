/** Text handling shared by the builds: `trim`, `split(/\s+/)`, and the
    dictation score that counts how many words of a guess occur in the
    target (`similarityWords` in app.v3.js:348-353, the check-dictation
    handler in app.safe.js:116-121 and app.v7.js:237-245). */
module Words {

  /** JavaScript's white space and line terminators, as `trim` and `\s`
      see them (the remaining Unicode space separators are not modelled). */
  predicate IsSpace(c: char) {
    c == ' ' || c == '\t' || c == '\n' || c == '\r' || c == '\U{000B}' || c == '\U{000C}'
    || c == '\U{00A0}' || c == '\U{FEFF}' || c == '\U{2028}' || c == '\U{2029}'
  }

  predicate Blank(s: string) {
    forall i :: 0 <= i < |s| ==> IsSpace(s[i])
  }

  /** `s` without its leading white space. */
  function TrimStart(s: string): (r: string)
    ensures |r| <= |s| && r == s[|s| - |r|..]
    ensures r == [] || !IsSpace(r[0])
    ensures Blank(s[..|s| - |r|])
    decreases |s|
  {
    if s != [] && IsSpace(s[0]) then TrimStart(s[1..]) else s
  }

  /** `s` without its trailing white space. */
  function TrimEnd(s: string): (r: string)
    ensures |r| <= |s| && r == s[..|r|]
    ensures r == [] || !IsSpace(r[|r| - 1])
    ensures Blank(s[|r|..])
    decreases |s|
  {
    if s != [] && IsSpace(s[|s| - 1]) then TrimEnd(s[..|s| - 1]) else s
  }

  /** `s.trim()`. */
  function Trim(s: string): string {
    TrimEnd(TrimStart(s))
  }

  lemma {:induction false} TrimStartOfBlank(s: string)
    requires Blank(s)
    ensures TrimStart(s) == []
    decreases |s|
  {
    if s != [] {
      TrimStartOfBlank(s[1..]);
    }
  }

  lemma BlankAppend(x: string, y: string)
    requires Blank(x) && Blank(y)
    ensures Blank(x + y)
  {
    forall i | 0 <= i < |x + y|
      ensures IsSpace((x + y)[i])
    {
      if i < |x| {
        assert (x + y)[i] == x[i];
      } else {
        assert (x + y)[i] == y[i - |x|];
      }
    }
  }

  /** A trimmed field is empty exactly when the field held only white
      space, so the add-word guard refuses blank fields and nothing else. */
  lemma TrimEmptyIffBlank(s: string)
    ensures Trim(s) == [] <==> Blank(s)
  {
    var a := TrimStart(s);
    if Blank(s) {
      TrimStartOfBlank(s);
    }
    if Trim(s) == [] {
      assert a[0..] == a;
      BlankAppend(s[..|s| - |a|], a);
      assert s[..|s| - |a|] + a == s;
    }
  }

  /** Trimming twice is trimming once. */
  lemma TrimIdempotent(s: string)
    ensures Trim(Trim(s)) == Trim(s)
  {
    var t := Trim(s);
    if t != [] {
      assert TrimStart(t) == t;
      assert TrimEnd(t) == t;
    }
  }

  /** The characters of `s` that are not white space, in order. */
  function NonSpace(s: string): (r: string)
    ensures forall i :: 0 <= i < |r| ==> !IsSpace(r[i])
  {
    if s == [] then []
    else if IsSpace(s[0]) then NonSpace(s[1..])
    else [s[0]] + NonSpace(s[1..])
  }

  /** The length of the run of non-space characters that starts `s`. */
  function WordLength(s: string): (n: nat)
    ensures n <= |s|
    ensures forall i :: 0 <= i < n ==> !IsSpace(s[i])
    ensures n < |s| ==> IsSpace(s[n])
  {
    if s == [] || IsSpace(s[0]) then 0 else 1 + WordLength(s[1..])
  }

  /** `s.split(/\s+/)`: the pieces between runs of white space. A string
      that starts or ends with white space yields an empty first or last
      piece, and the empty string yields one empty piece. */
  function SplitWs(s: string): (r: seq<string>)
    ensures |r| >= 1
    ensures forall i :: 0 <= i < |r| ==> NonSpace(r[i]) == r[i]
    decreases |s|
  {
    var n := WordLength(s);
    NonSpaceOfWord(s[..n]);
    if n == |s| then assert s[..n] == s; [s]
    else
      var rest := TrimStart(s[n..]);
      assert |rest| < |s[n..]|;
      [s[..n]] + SplitWs(rest)
  }

  lemma {:induction false} NonSpaceOfWord(w: string)
    requires forall i :: 0 <= i < |w| ==> !IsSpace(w[i])
    ensures NonSpace(w) == w
    decreases |w|
  {
    if w != [] {
      NonSpaceOfWord(w[1..]);
      assert [w[0]] + w[1..] == w;
    }
  }

  lemma {:induction false} NonSpaceAppend(a: string, b: string)
    ensures NonSpace(a + b) == NonSpace(a) + NonSpace(b)
    decreases |a|
  {
    if a != [] {
      assert (a + b)[0] == a[0];
      assert (a + b)[1..] == a[1..] + b;
      NonSpaceAppend(a[1..], b);
    } else {
      assert a + b == b;
    }
  }

  lemma NonSpaceOfBlank(s: string)
    requires Blank(s)
    ensures NonSpace(s) == []
    decreases |s|
  {
    if s != [] {
      NonSpaceOfBlank(s[1..]);
    }
  }

  function Concat(ws: seq<string>): string {
    if ws == [] then [] else ws[0] + Concat(ws[1..])
  }

  /** One step of the split: the first word, then the split of what
      follows the white space after it. */
  lemma SplitWsStep(s: string)
    requires WordLength(s) < |s|
    ensures var n := WordLength(s);
      var rest := TrimStart(s[n..]);
      && |rest| < |s| - n
      && SplitWs(s) == [s[..n]] + SplitWs(rest)
      && NonSpace(s) == s[..n] + NonSpace(rest)
  {
    var n := WordLength(s);
    var tail := s[n..];
    assert s == s[..n] + tail;
    NonSpaceOfWordThenTail(s[..n], tail);
  }

  lemma NonSpaceOfWordThenTail(w: string, tail: string)
    requires forall i :: 0 <= i < |w| ==> !IsSpace(w[i])
    ensures NonSpace(w + tail) == w + NonSpace(TrimStart(tail))
  {
    NonSpaceOfWord(w);
    NonSpaceAppend(w, tail);
    NonSpaceOfTrimmed(tail);
  }

  /** Leading white space adds nothing to the non-space text. */
  lemma NonSpaceOfTrimmed(t: string)
    ensures NonSpace(TrimStart(t)) == NonSpace(t)
  {
    var rest := TrimStart(t);
    var lead := t[..|t| - |rest|];
    assert t == lead + rest;
    NonSpaceAppend(lead, rest);
    NonSpaceOfBlank(lead);
  }

  /** Splitting drops the white space and nothing else: the pieces, put
      back together, are the non-space characters of the input in order. */
  lemma {:induction false} SplitWsKeepsText(s: string)
    ensures Concat(SplitWs(s)) == NonSpace(s)
    decreases |s|
  {
    var n := WordLength(s);
    if n == |s| {
      NonSpaceOfWord(s);
      assert s[..n] == s;
      assert Concat([s]) == s + Concat([]);
    } else {
      SplitWsStep(s);
      var rest := TrimStart(s[n..]);
      SplitWsKeepsText(rest);
      var r := SplitWs(s);
      assert r[0] == s[..n] && r[1..] == SplitWs(rest);
    }
  }

  // ---------------------------------------------------------------------
  // The dictation score

  /** How many words of `guess`, counted with repetition, occur in
      `target`. */
  function CountIn(guess: seq<string>, target: set<string>): (n: nat)
    ensures n <= |guess|
  {
    if guess == [] then 0
    else CountIn(guess[..|guess| - 1], target) + (if guess[|guess| - 1] in target then 1 else 0)
  }

  lemma {:induction false} CountInAppend(a: seq<string>, b: seq<string>, target: set<string>)
    ensures CountIn(a + b, target) == CountIn(a, target) + CountIn(b, target)
    decreases |b|
  {
    if b == [] {
      assert a + b == a;
    } else {
      assert (a + b)[..|a + b| - 1] == a + b[..|b| - 1];
      CountInAppend(a, b[..|b| - 1], target);
    }
  }

  /** Every word of the guess counts exactly when every one occurs in the
      target. */
  lemma {:induction false} CountInAll(guess: seq<string>, target: set<string>)
    ensures CountIn(guess, target) == |guess| <==> forall i :: 0 <= i < |guess| ==> guess[i] in target
    decreases |guess|
  {
    if guess != [] {
      var front := guess[..|guess| - 1];
      CountInAll(front, target);
      assert forall i :: 0 <= i < |front| ==> front[i] == guess[i];
    }
  }

  /** The `match++` loop over the guess tokens, against the set of target
      tokens. */
  method MatchCount(target: seq<string>, guess: seq<string>) returns (matched: nat)
    ensures matched == CountIn(guess, set w | w in target)
    ensures matched <= |guess|
  {
    var words := set w | w in target;
    matched := 0;
    for i := 0 to |guess|
      invariant matched == CountIn(guess[..i], words)
    {
      assert guess[..i + 1][..i] == guess[..i];
      if guess[i] in words {
        matched := matched + 1;
      }
    }
    assert guess[..|guess|] == guess;
  }

  /** `Math.round(score * 100)` with `score = match / wa.length`, or 0 for
      an empty target list. */
  function ScorePercent(matched: nat, targetLength: nat): (p: int)
    ensures p >= 0
    ensures targetLength == 0 ==> p == 0
    ensures targetLength > 0 ==>
      2 * targetLength * p - targetLength <= 200 * matched < 2 * targetLength * p + targetLength
  {
    if targetLength == 0 then 0
    else
      var n, d := 200 * matched + targetLength, 2 * targetLength;
      assert n == d * (n / d) + n % d && 0 <= n % d < d;
      n / d
  }

  /** A guess that repeats a target word scores above 100%: "a a a"
      against "a b" matches 3 words of 2. */
  lemma RepeatedWordsScoreAbove100()
    ensures CountIn(["a", "a", "a"], set w | w in ["a", "b"]) == 3
    ensures ScorePercent(3, 2) == 150
  {
    var t := set w | w in ["a", "b"];
    assert "a" in t by {
      assert ["a", "b"][0] == "a";
    }
    assert ["a", "a", "a"][..2] == ["a", "a"];
    assert ["a", "a"][..1] == ["a"];
    assert ["a"][..0] == [];
    assert CountIn(["a"], t) == 1;
    assert CountIn(["a", "a"], t) == 2;
  }

  /** The split of any text has at least one piece, so the score's
      `wa.length ? … : 0` fallback is never taken for a split target. */
  lemma SplitNeverEmpty(s: string)
    ensures |SplitWs(s)| >= 1
  {
  }

  /** The characters `similarityWords` keeps before splitting: letters and
      digits (decided by `isWordChar`, since the Unicode tables behind
      `\p{L}` and `\p{N}` are not modelled), white space and apostrophes. */
  predicate Kept(c: char, isWordChar: char -> bool) {
    isWordChar(c) || IsSpace(c) || c == '\''
  }

  /** `s.replace(/[^\p{L}\p{N}\s']/gu, '')`: every other character is
      removed, and only those, so a text made of kept characters comes back
      unchanged and a text with none of them comes back empty. */
  function StripPunctuation(s: string, isWordChar: char -> bool): (r: string)
    ensures |r| <= |s|
    ensures forall i :: 0 <= i < |r| ==> Kept(r[i], isWordChar)
    ensures (forall i :: 0 <= i < |s| ==> Kept(s[i], isWordChar)) ==> r == s
    ensures (forall i :: 0 <= i < |s| ==> !Kept(s[i], isWordChar)) ==> r == []
  {
    if s == [] then []
    else
      var c := s[0];
      assert forall i :: 1 <= i < |s| ==> s[1..][i - 1] == s[i];
      (if Kept(c, isWordChar) then [c] else []) + StripPunctuation(s[1..], isWordChar)
  }

  /** Stripping works piece by piece: it distributes over concatenation,
      so the kept characters stay in their order. */
  lemma {:induction false} StripAppend(a: string, b: string, isWordChar: char -> bool)
    ensures StripPunctuation(a + b, isWordChar) == StripPunctuation(a, isWordChar) + StripPunctuation(b, isWordChar)
    decreases |a|
  {
    if a == [] {
      assert a + b == b;
    } else {
      assert (a + b)[0] == a[0] && (a + b)[1..] == a[1..] + b;
      StripAppend(a[1..], b, isWordChar);
    }
  }

  /** `similarityWords(a, b)` of app.v3.js as the pair (matches, target
      words); its result is their quotient, or 0 when there are no target
      words. */
  method SimilarityWords(a: string, b: string, isWordChar: char -> bool) returns (matched: nat, targetWords: nat)
    ensures targetWords == |SplitWs(StripPunctuation(a, isWordChar))| && targetWords >= 1
    ensures matched == CountIn(SplitWs(StripPunctuation(b, isWordChar)), set w | w in SplitWs(StripPunctuation(a, isWordChar)))
  {
    var wa := SplitWs(StripPunctuation(a, isWordChar));
    var wb := SplitWs(StripPunctuation(b, isWordChar));
    matched := MatchCount(wa, wb);
    targetWords := |wa|;
  }
}
