/** The HTML escaper every build uses before putting user text into markup
    (`esc` in app.v7.js:19 and app.v6.js:20, `escapeHTML` in app.v3.js:18
    and app.safe.js:10): each of `& < > " '` becomes its character
    reference and every other character is kept. */
module Html {

  predicate Special(c: char) {
    c == '&' || c == '<' || c == '>' || c == '"' || c == '\''
  }

  /** The replacement for one character. */
  function EscapeChar(c: char): (r: string)
    ensures Special(c) ==> |r| >= 4 && r[0] == '&'
    ensures !Special(c) ==> r == [c]
  {
    if c == '&' then "&amp;"
    else if c == '<' then "&lt;"
    else if c == '>' then "&gt;"
    else if c == '"' then "&quot;"
    else if c == '\'' then "&#039;"
    else [c]
  }

  /** `String(s).replace(/[&<>"']/g, …)` */
  function Escape(s: string): (r: string)
    ensures |r| >= |s|
  {
    if s == [] then [] else EscapeChar(s[0]) + Escape(s[1..])
  }

  predicate StartsWith(t: string, p: string) {
    |p| <= |t| && t[..|p|] == p
  }

  /** Whether one of the five references starts at position `i` of `t`. */
  predicate EntityAt(t: string, i: int)
    requires 0 <= i <= |t|
  {
    var u := t[i..];
    StartsWith(u, "&amp;") || StartsWith(u, "&lt;") || StartsWith(u, "&gt;")
    || StartsWith(u, "&quot;") || StartsWith(u, "&#039;")
  }

  /** The decoder the escaper is inverted by: each of the five references
      becomes its character again. */
  function Unescape(t: string): string
    decreases |t|
  {
    if t == [] then []
    else if StartsWith(t, "&amp;") then "&" + Unescape(t[5..])
    else if StartsWith(t, "&lt;") then "<" + Unescape(t[4..])
    else if StartsWith(t, "&gt;") then ">" + Unescape(t[4..])
    else if StartsWith(t, "&quot;") then "\"" + Unescape(t[6..])
    else if StartsWith(t, "&#039;") then "'" + Unescape(t[6..])
    else [t[0]] + Unescape(t[1..])
  }

  lemma StartsWithAppend(p: string, rest: string, q: string)
    requires |q| <= |p|
    ensures StartsWith(p + rest, q) <==> StartsWith(p, q)
  {
    assert (p + rest)[..|q|] == p[..|q|];
  }

  lemma Differs(t: string, p: string, k: nat)
    requires k < |p| && k < |t| && t[k] != p[k]
    ensures !StartsWith(t, p)
  {
    if |p| <= |t| {
      assert t[..|p|][k] == t[k];
    }
  }

  /** Decoding a reference followed by more text. */
  lemma UnescapeReference(c: char, rest: string)
    requires Special(c)
    ensures Unescape(EscapeChar(c) + rest) == [c] + Unescape(rest)
  {
    var e := EscapeChar(c);
    var t := e + rest;
    assert t[..|e|] == e && t[|e|..] == rest;
    assert t[1] == e[1];
    if c != '&' {
      Differs(t, "&amp;", 1);
    }
    if c != '<' {
      Differs(t, "&lt;", 1);
    }
    if c != '>' {
      Differs(t, "&gt;", 1);
    }
    if c != '"' {
      Differs(t, "&quot;", 1);
    }
  }

  /** Decoding undoes one escaped character. */
  lemma UnescapeStep(c: char, rest: string)
    ensures Unescape(EscapeChar(c) + rest) == [c] + Unescape(rest)
  {
    if Special(c) {
      UnescapeReference(c, rest);
    } else {
      var t := [c] + rest;
      assert t[0] == c && t[1..] == rest;
      Differs(t, "&amp;", 0);
      Differs(t, "&lt;", 0);
      Differs(t, "&gt;", 0);
      Differs(t, "&quot;", 0);
      Differs(t, "&#039;", 0);
    }
  }

  /** Escaping loses nothing: decoding the output gives the input back. */
  lemma {:induction false} EscapeRoundTrip(s: string)
    ensures Unescape(Escape(s)) == s
    decreases |s|
  {
    if s != [] {
      UnescapeStep(s[0], Escape(s[1..]));
      EscapeRoundTrip(s[1..]);
      assert [s[0]] + s[1..] == s;
    }
  }

  /** The output holds no raw `<`, `>`, `"` or `'`, and every `&` in it
      begins one of the five references. */
  lemma {:induction false} EscapeIsSafe(s: string)
    ensures forall i :: 0 <= i < |Escape(s)| ==> !(Escape(s)[i] in {'<', '>', '"', '\''})
    ensures forall i :: 0 <= i < |Escape(s)| && Escape(s)[i] == '&' ==> EntityAt(Escape(s), i)
    decreases |s|
  {
    if s != [] {
      EscapeIsSafe(s[1..]);
      var e := EscapeChar(s[0]);
      var rest := Escape(s[1..]);
      var r := Escape(s);
      assert r == e + rest;
      forall i | 0 <= i < |r|
        ensures !(r[i] in {'<', '>', '"', '\''})
        ensures r[i] == '&' ==> EntityAt(r, i)
      {
        if i < |e| {
          assert r[i] == e[i];
          if r[i] == '&' {
            assert i == 0;
            assert r[i..] == e + rest;
            StartsWithAppend(e, rest, e);
          }
        } else {
          var j := i - |e|;
          assert r[i] == rest[j];
          assert r[i..] == rest[j..];
        }
      }
    }
  }

  /** Text without any of the five characters is left exactly as it is. */
  lemma {:induction false} EscapePlain(s: string)
    requires forall i :: 0 <= i < |s| ==> !Special(s[i])
    ensures Escape(s) == s
    decreases |s|
  {
    if s != [] {
      EscapePlain(s[1..]);
      assert [s[0]] + s[1..] == s;
    }
  }

  /** Escaping distributes over concatenation, character by character. */
  lemma {:induction false} EscapeAppend(a: string, b: string)
    ensures Escape(a + b) == Escape(a) + Escape(b)
    decreases |a|
  {
    if a != [] {
      assert (a + b)[0] == a[0] && (a + b)[1..] == a[1..] + b;
      EscapeAppend(a[1..], b);
    } else {
      assert a + b == b;
    }
  }
}
