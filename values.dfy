/** JavaScript values as the persistence layer sees them, and the JSON text a
    durable backend holds for one key.

    JSON.stringify and JSON.parse are treated as opaque: the only law the
    model relies on is that parsing the text written for a value gives that
    value back, and that some text (truncated or hand-edited data, or the
    text "undefined") does not parse at all. */
module Values {

  datatype Option<+T> = None | Some(value: T)

  /** A value held in the store. `Undefined` is what a read of an absent
      key yields when the caller passes no default. Numbers are integers:
      every number the store holds in this model (goal, minutes, hours, XP,
      seed) is a whole number. */
  datatype Value =
    | Undefined
    | Null
    | Bool(b: bool)
    | Num(n: int)
    | Str(s: string)
    | Arr(items: seq<Value>)
    | Obj(fields: map<string, Value>)

  /** The text stored under one backend key: text produced by JSON.stringify
      for a value, or text that JSON.parse rejects. */
  datatype Text = Encoded(value: Value) | Unparsable

  /** JSON.parse: partial. The text for `undefined` never parses. */
  function Parse(t: Text): (r: Option<Value>)
    ensures r.Some? ==> r.value != Undefined
  {
    match t
    case Encoded(v) => if v.Undefined? then None else Some(v)
    case Unparsable => None
  }

  /** JSON.stringify followed by the string conversion of setItem:
      `undefined` becomes the text "undefined", which does not parse. */
  function Stringify(v: Value): (t: Text)
    ensures v != Undefined ==> Parse(t) == Some(v)
    ensures v == Undefined ==> Parse(t) == None
  {
    if v.Undefined? then Unparsable else Encoded(v)
  }

  /** Text that parses determines the text: writing back what was read
      restores exactly the stored text. */
  lemma ParseDeterminesText(t: Text, v: Value)
    requires Parse(t) == Some(v)
    ensures Stringify(v) == t
  {
  }

  /** JavaScript's `x ?? d`: the default for null and undefined. */
  function OrDefault(x: Value, d: Value): (r: Value)
    ensures x != Null && x != Undefined ==> r == x
    ensures x == Null || x == Undefined ==> r == d
  {
    if x.Null? || x.Undefined? then d else x
  }

  /** Decimal digits of a natural number, most significant first, as
      String(n) writes them for an array index. */
  function NatToString(n: nat): (s: string)
    ensures |s| >= 1
    ensures forall i :: 0 <= i < |s| ==> '0' <= s[i] <= '9'
    decreases n
  {
    if n < 10 then [DigitChar(n)] else NatToString(n / 10) + [DigitChar(n % 10)]
  }

  function DigitChar(d: nat): (c: char)
    requires d < 10
    ensures '0' <= c <= '9' && c as int == 48 + d
  {
    (48 + d) as char
  }

  /** Distinct indexes have distinct decimal names. */
  lemma NatToStringInjective()
    ensures forall a: nat, b: nat :: NatToString(a) == NatToString(b) ==> a == b
  {
    forall a: nat, b: nat | NatToString(a) == NatToString(b)
      ensures a == b
    {
      NatToStringInjectiveAt(a, b);
    }
  }

  lemma {:induction false} NatToStringInjectiveAt(a: nat, b: nat)
    requires NatToString(a) == NatToString(b)
    ensures a == b
    decreases a
  {
    var sa, sb := NatToString(a), NatToString(b);
    if a < 10 && b < 10 {
      assert DigitChar(a) == DigitChar(b);
    } else if a >= 10 && b >= 10 {
      assert sa[|sa| - 1] == sb[|sb| - 1];
      assert DigitChar(a % 10) == DigitChar(b % 10);
      assert sa[..|sa| - 1] == NatToString(a / 10);
      assert sb[..|sb| - 1] == NatToString(b / 10);
      NatToStringInjectiveAt(a / 10, b / 10);
    }
  }

  /** The entries `Object.entries` yields for an imported top-level value:
      `None` when it throws (null); no entries for a number or boolean; index
      keys for an array or a string; the properties of an object. */
  function Entries(v: Value): Option<map<string, Value>> {
    match v
    case Undefined => None
    case Null => None
    case Bool(_) => Some(map[])
    case Num(_) => Some(map[])
    case Str(s) => NatToStringInjective(); Some(map i | 0 <= i < |s| :: NatToString(i) := Str([s[i]]))
    case Arr(a) => NatToStringInjective(); Some(map i | 0 <= i < |a| :: NatToString(i) := a[i])
    case Obj(fields) => Some(fields)
  }

}
