/** The derivations the property getters apply to a raw field once it has
    been looked up: Python's `int`, the numeric-or-passthrough coercion of the
    status counters, the human readable name, newline joining, the error
    field's truthiness test, the nested "miner" lookup and the hotter of the
    two temperature sensors. */
module Fields {
  import opened Errors
  import opened Json
  import opened Text

  /** Python `int(s)` on ASCII text: at most one sign, then decimal digits.
      Anything else raises ValueError. */
  function ParseInt(s: string): Result<int> {
    if s != [] && (s[0] == '-' || s[0] == '+') && IsDigits(s[1..]) then
      Ok(if s[0] == '-' then -(DigitsValue(s[1..]) as int) else DigitsValue(s[1..]))
    else if IsDigits(s) then
      Ok(DigitsValue(s))
    else
      Err(ValueError)
  }

  /** Python `int(v)` on a decoded JSON value. */
  function IntOf(v: Value): Result<int> {
    match v
    case Int(i) => Ok(i)
    case Bool(b) => Ok(if b then 1 else 0)
    case Str(s) => ParseInt(s)
    case Null => Err(TypeError)
    case List(_) => Err(TypeError)
    case Object(_) => Err(TypeError)
  }

  /** The text Python's `str` gives for an integer. */
  function IntText(n: int): string {
    if n < 0 then "-" + Decimal(-n) else Decimal(n)
  }

  /** `int` reads back the text of every integer. */
  lemma ParseIntRoundTrip(n: int)
    ensures ParseInt(IntText(n)) == Ok(n)
  {
    var d := Decimal(if n < 0 then -n else n);
    DecimalRoundTrip(if n < 0 then -n else n);
    if n < 0 {
      assert IntText(n)[1..] == d;
    } else {
      assert IsDigit(d[0]);
    }
  }

  /** Which texts `int` accepts: an optional sign followed by at least one
      digit, and nothing else. The number is the digits' value, negated after
      a minus. */
  lemma ParseIntAccepts(s: string)
    ensures ParseInt(s).Ok? <==>
      && s != []
      && (IsDigit(s[0]) || ((s[0] == '-' || s[0] == '+') && |s| > 1))
      && forall i :: 0 < i < |s| ==> IsDigit(s[i])
    ensures ParseInt(s).Ok? && IsDigit(s[0]) ==> ParseInt(s).value == DigitsValue(s)
    ensures ParseInt(s).Ok? && s[0] == '-' ==> ParseInt(s).value == -(DigitsValue(s[1..]) as int)
    ensures ParseInt(s).Ok? && s[0] == '+' ==> ParseInt(s).value == DigitsValue(s[1..])
  {
    if s != [] {
      var tail := s[1..];
      assert forall i :: 0 < i < |s| ==> s[i] == tail[i - 1];
      if (s[0] == '-' || s[0] == '+') && |s| > 1 && forall i :: 0 < i < |s| ==> IsDigit(s[i]) {
        assert IsDigits(tail);
      }
    }
  }

  /** The reading of a temperature sensor is strict: it succeeds exactly on
      integers, booleans and integer literals, so an absent field fails. */
  lemma IntOfStrict(v: Value)
    ensures IntOf(v).Ok? <==> v.Int? || v.Bool? || (v.Str? && ParseInt(v.s).Ok?)
    ensures v == Null ==> IntOf(v) == Err(TypeError)
    ensures forall n :: IntOf(Int(n)) == Ok(n) && IntOf(Str(IntText(n))) == Ok(n)
  {
    forall n: int ensures IntOf(Str(IntText(n))) == Ok(n) {
      ParseIntRoundTrip(n);
    }
  }

  /** `int(x) if x.lstrip("-").isdigit() else x`: the field becomes an integer
      when its text, every leading minus removed, is a run of digits, and is
      passed through unchanged otherwise. The guard admits "--5", on which
      `int` then raises ValueError. A field that is not text (absent, say)
      has no `lstrip` and raises AttributeError. */
  function Coerce(v: Value): Result<Value> {
    match v
    case Str(s) =>
      if IsDigits(LStrip(s, '-')) then
        var n :- ParseInt(s);
        Ok(Int(n))
      else
        Ok(Str(s))
    case _ => Err(AttributeError)
  }

  /** Text without a leading minus sign: its digits, read as a number. */
  lemma CoerceUnsigned(s: string)
    requires IsDigits(s)
    ensures Coerce(Str(s)) == Ok(Int(DigitsValue(s)))
  {
    assert LStrip(s, '-') == s;
  }

  /** One minus sign, then digits: the negated number. */
  lemma CoerceNegative(s: string)
    requires |s| > 1 && s[0] == '-' && IsDigits(s[1..])
    ensures Coerce(Str(s)) == Ok(Int(-(DigitsValue(s[1..]) as int)))
  {
    assert LStrip(s, '-') == LStrip(s[1..], '-') == s[1..];
  }

  /** Two or more minus signs, then digits: the guard lets the text through
      and `int` rejects it. */
  lemma CoerceManyMinus(s: string)
    requires |s| > 2 && s[0] == '-' && s[1] == '-' && IsDigits(LStrip(s, '-'))
    ensures Coerce(Str(s)) == Err(ValueError)
  {
    assert !IsDigit(s[1..][0]);
    assert !IsDigit(s[0]);
    assert ParseInt(s) == Err(ValueError);
  }

  /** Two minus signs, then digits: rejected by `int`. */
  lemma CoerceDoubleMinus(s: string)
    requires |s| > 2 && s[0] == '-' && s[1] == '-' && IsDigits(s[2..])
    ensures Coerce(Str(s)) == Err(ValueError)
  {
    assert s[1..][1..] == s[2..];
    assert LStrip(s, '-') == LStrip(s[1..], '-') == LStrip(s[2..], '-') == s[2..];
    CoerceManyMinus(s);
  }

  /** The outcome of Coerce on every text, by the number k of leading minus
      signs and what remains after them. */
  lemma CoerceText(s: string)
    ensures var t := LStrip(s, '-'); var k := |s| - |t|;
      && (!IsDigits(t) ==> Coerce(Str(s)) == Ok(Str(s)))
      && (IsDigits(t) && k == 0 ==> Coerce(Str(s)) == Ok(Int(DigitsValue(t))))
      && (IsDigits(t) && k == 1 ==> Coerce(Str(s)) == Ok(Int(-(DigitsValue(t) as int))))
      && (IsDigits(t) && k >= 2 ==> Coerce(Str(s)) == Err(ValueError))
  {
    var t := LStrip(s, '-');
    var k := |s| - |t|;
    LStripRemoves(s, '-');
    if IsDigits(t) {
      if k == 0 {
        assert s == t;
        CoerceUnsigned(s);
      } else if k == 1 {
        assert s[0] == '-' && s[1..] == t;
        CoerceNegative(s);
      } else {
        assert s[0] == '-' && s[1] == '-';
        CoerceManyMinus(s);
      }
    }
  }

  /** The text of every integer, negative ones included, is coerced to that
      integer. */
  lemma CoerceIntText(n: int)
    ensures Coerce(Str(IntText(n))) == Ok(Int(n))
  {
    var m: nat := if n < 0 then -n else n;
    var d := Decimal(m);
    DecimalRoundTrip(m);
    if n < 0 {
      var s := IntText(n);
      assert s[0] == '-' && s[1..] == d;
      CoerceNegative(s);
    } else {
      CoerceUnsigned(d);
    }
  }

  /** A non-integer sentinel passes through the coercion untouched. */
  lemma CoercePassThrough(s: string)
    requires exists i :: 0 <= i < |s| && s[i] != '-' && !IsDigit(s[i])
    ensures Coerce(Str(s)) == Ok(Str(s))
  {
    var i :| 0 <= i < |s| && s[i] != '-' && !IsDigit(s[i]);
    var t := LStrip(s, '-');
    var k := |s| - |t|;
    LStripRemoves(s, '-');
    assert i >= k;
    assert t == s[k..] && t[i - k] == s[i];
    assert !IsDigit(t[i - k]);
    assert !IsDigits(t);
  }

  /** How `name` renders one character of the identifier: a hyphen becomes a
      space, a character that starts a word is upper-cased and every other
      character lower-cased. */
  function TitleChar(c: char, startsWord: bool): char {
    if c == '-' then ' ' else if startsWord then Upper(c) else Lower(c)
  }

  /** The reference reading of `name`, character by character; atStart says
      whether the first character starts a word. */
  function TitledFrom(s: string, atStart: bool): string {
    if s == [] then [] else [TitleChar(s[0], atStart)] + TitledFrom(s[1..], s[0] == '-')
  }

  /** `" ".join([word.capitalize() for word in animal.split("-")])` */
  function HumanName(animal: string): string {
    Join(' ', CapitalizeAll(Split(animal, '-')))
  }

  /** `self.animal.split(...)` fails with AttributeError unless the animal
      field is text. */
  function HumanNameOf(v: Value): Result<Value> {
    if v.Str? then Ok(Str(HumanName(v.s))) else Err(AttributeError)
  }

  lemma JoinPrefixChar(sep: char, x: char, w: string, words: seq<string>)
    ensures Join(sep, [[x] + w] + words) == [x] + Join(sep, [w] + words)
  {
    if words != [] {
      assert ([[x] + w] + words)[1..] == words;
      assert ([w] + words)[1..] == words;
    }
  }

  /** The induction behind HumanNameIsTitled: the first piece of the split
      is capitalised only when it starts a word. */
  lemma {:induction false} HumanNameFrom(s: string, atStart: bool)
    ensures var parts := Split(s, '-');
      Join(' ', [if atStart then Capitalize(parts[0]) else LowerAll(parts[0])]
                + CapitalizeAll(parts[1..]))
      == TitledFrom(s, atStart)
    decreases |s|
  {
    if s != [] {
      var c, t := s[0], s[1..];
      var rest := Split(t, '-');
      HumanNameFrom(t, c == '-');
      if c == '-' {
        assert Split(s, '-') == [""] + rest;
        assert ([""] + rest)[1..] == rest;
        assert CapitalizeAll(rest) == [Capitalize(rest[0])] + CapitalizeAll(rest[1..]);
        assert ([""] + CapitalizeAll(rest))[1..] == CapitalizeAll(rest);
      } else {
        var x := if atStart then Upper(c) else Lower(c);
        var parts := Split(s, '-');
        assert parts == [[c] + rest[0]] + rest[1..];
        assert parts[0][1..] == rest[0];
        assert (if atStart then Capitalize(parts[0]) else LowerAll(parts[0]))
            == [x] + LowerAll(rest[0]);
        JoinPrefixChar(' ', x, LowerAll(rest[0]), CapitalizeAll(rest[1..]));
      }
    }
  }

  /** The name equals its character-by-character reading. */
  lemma HumanNameIsTitled(s: string)
    ensures HumanName(s) == TitledFrom(s, true)
  {
    HumanNameFrom(s, true);
    var parts := Split(s, '-');
    assert CapitalizeAll(parts) == [Capitalize(parts[0])] + CapitalizeAll(parts[1..]);
  }

  lemma {:induction false} TitledFromAt(s: string, atStart: bool)
    ensures |TitledFrom(s, atStart)| == |s|
    ensures forall i :: 0 <= i < |s| ==>
      TitledFrom(s, atStart)[i] == TitleChar(s[i], if i == 0 then atStart else s[i - 1] == '-')
    decreases |s|
  {
    if s != [] {
      var t, a := s[1..], s[0] == '-';
      TitledFromAt(t, a);
      var r := TitledFrom(s, atStart);
      assert r[1..] == TitledFrom(t, a);
      forall i | 1 <= i < |s|
        ensures r[i] == TitleChar(s[i], s[i - 1] == '-')
      {
        assert r[i] == TitledFrom(t, a)[i - 1] && t[i - 1] == s[i];
        assert (if i - 1 == 0 then a else t[i - 2] == '-') == (s[i - 1] == '-');
      }
    }
  }

  lemma {:induction false} TitledFromSpaces(s: string, atStart: bool)
    ensures Count(TitledFrom(s, atStart), ' ') == Count(s, '-') + Count(s, ' ')
    decreases |s|
  {
    if s != [] {
      TitledFromSpaces(s[1..], s[0] == '-');
      assert TitledFrom(s, atStart)[1..] == TitledFrom(s[1..], s[0] == '-');
    }
  }

  /** name is the identifier s with every hyphen turned into a space and
      each hyphen-separated word capitalised. */
  predicate IsTitleOf(name: string, s: string) {
    && |name| == |s|
    && forall i :: 0 <= i < |s| ==> name[i] == TitleChar(s[i], i == 0 || s[i - 1] == '-')
  }

  /** `name` keeps the length of the animal identifier, turns every hyphen
      into a space and capitalises each hyphen-separated word. */
  lemma HumanNameChars(s: string)
    ensures IsTitleOf(HumanName(s), s)
  {
    HumanNameIsTitled(s);
    TitledFromAt(s, true);
    forall i | 0 <= i < |s|
      ensures HumanName(s)[i] == TitleChar(s[i], i == 0 || s[i - 1] == '-')
    {
      assert HumanName(s)[i] == TitledFrom(s, true)[i];
    }
  }

  /** `name` has one space for every hyphen of the identifier, besides the
      spaces the identifier already had. */
  lemma HumanNameSpaces(s: string)
    ensures Count(HumanName(s), ' ') == Count(s, '-') + Count(s, ' ')
  {
    HumanNameIsTitled(s);
    TitledFromSpaces(s, true);
  }

  predicate AllText(items: seq<Value>) {
    forall i :: 0 <= i < |items| ==> items[i].Str?
  }

  function Texts(items: seq<Value>): (r: seq<string>)
    requires AllText(items)
  {
    seq(|items|, i requires 0 <= i < |items| && AllText(items) => items[i].s)
  }

  /** The one-character texts Python iterates over in a string. */
  function Chars(s: string): seq<string> {
    seq(|s|, i requires 0 <= i < |s| => [s[i]])
  }

  /** `"\n".join(v)`: a list of texts joined with newlines; a text is
      iterated character by character; anything else raises TypeError. */
  function JoinLines(v: Value): Result<string> {
    match v
    case List(items) => if AllText(items) then Ok(Join('\n', Texts(items))) else Err(TypeError)
    case Str(s) => Ok(Join('\n', Chars(s)))
    case _ => Err(TypeError)
  }

  /** Newline joining loses nothing: the lines come back by splitting on
      newlines, provided none of them holds a newline itself. */
  lemma JoinLinesRoundTrip(lines: seq<string>)
    requires lines != []
    requires forall i :: 0 <= i < |lines| ==> '\n' !in lines[i]
    ensures var v := List(seq(|lines|, i requires 0 <= i < |lines| => Str(lines[i])));
      JoinLines(v).Ok? && Split(JoinLines(v).value, '\n') == lines
  {
    var v := List(seq(|lines|, i requires 0 <= i < |lines| => Str(lines[i])));
    assert Texts(v.items) == lines;
    SplitJoin(lines, '\n');
  }

  /** `_err if _err else None`: the field itself when it is truthy, `None`
      when it is absent or falsy. */
  function ErrorOrNone(v: Value): (r: Value)
    ensures r == Null <==> !Truthy(v)
    ensures r != Null ==> r == v
  {
    if Truthy(v) then v else Null
  }

  /** `d.get("miner", {}).get(key)`: `None` when the sub-map or the key is
      absent; AttributeError when "miner" holds something other than a map. */
  function MinerLookup(d: Payload, key: string): (r: Result<Value>)
    ensures "miner" !in d ==> r == Ok(Null)
    ensures r.Err? <==> "miner" in d && !d["miner"].Object?
    ensures "miner" in d && d["miner"].Object? ==> r == Ok(Get(d["miner"].fields, key))
  {
    match GetOr(d, "miner", Object(map[]))
    case Object(m) => Ok(Get(m, key))
    case _ => Err(AttributeError)
  }

  /** `t0 if t0 > t1 else t1`: the larger reading, the second one on a tie. */
  function Highest(t0: int, t1: int): (r: int)
    ensures r >= t0 && r >= t1
    ensures r == t0 || r == t1
    ensures t0 <= t1 ==> r == t1
  {
    if t0 > t1 then t0 else t1
  }
}
