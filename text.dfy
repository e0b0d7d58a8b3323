/** ASCII text operations with Python's string semantics: `isdigit`,
    `lstrip`, `split`, `join` and `capitalize`, with the lemmas that relate
    them to one another. */
module Text {

  predicate IsDigit(c: char) {
    '0' <= c <= '9'
  }

  /** `s.isdigit()`: true of non-empty text made of digits only. */
  predicate IsDigits(s: string) {
    s != [] && forall i :: 0 <= i < |s| ==> IsDigit(s[i])
  }

  function DigitChar(d: nat): (c: char)
    requires d < 10
    ensures IsDigit(c) && c as int - '0' as int == d
  {
    ('0' as int + d) as char
  }

  function DigitValue(c: char): nat
    requires IsDigit(c)
  {
    c as int - '0' as int
  }

  /** The number a string of decimal digits denotes, most significant first. */
  function DigitsValue(s: string): nat
    requires forall i :: 0 <= i < |s| ==> IsDigit(s[i])
  {
    if s == [] then 0 else 10 * DigitsValue(s[..|s| - 1]) + DigitValue(s[|s| - 1])
  }

  /** The decimal text of a natural number, without leading zeros. */
  function Decimal(n: nat): (s: string)
    ensures IsDigits(s)
    ensures s[0] != '0' || n == 0
  {
    if n < 10 then [DigitChar(n)] else Decimal(n / 10) + [DigitChar(n % 10)]
  }

  /** Reading back the decimal text of n gives n. */
  lemma {:induction false} DecimalRoundTrip(n: nat)
    ensures DigitsValue(Decimal(n)) == n
  {
    if n >= 10 {
      DecimalRoundTrip(n / 10);
      var s := Decimal(n);
      assert s[..|s| - 1] == Decimal(n / 10);
    }
  }

  /** `s.lstrip(c)`: every leading copy of c removed, not only the first. */
  function LStrip(s: string, c: char): (r: string)
    ensures |r| <= |s|
    ensures r != [] ==> r[0] != c
    decreases |s|
  {
    if s != [] && s[0] == c then LStrip(s[1..], c) else s
  }

  /** What lstrip leaves is a suffix of s, and every character it removes is
      a copy of c. */
  lemma {:induction false} LStripRemoves(s: string, c: char)
    ensures LStrip(s, c) == s[|s| - |LStrip(s, c)|..]
    ensures forall i :: 0 <= i < |s| - |LStrip(s, c)| ==> s[i] == c
    decreases |s|
  {
    if s != [] && s[0] == c {
      LStripRemoves(s[1..], c);
      forall i | 1 <= i < |s| - |LStrip(s, c)| ensures s[i] == c {
        assert s[1..][i - 1] == s[i];
      }
    }
  }

  /** The number of occurrences of c in s. */
  function Count(s: string, c: char): nat {
    if s == [] then 0 else (if s[0] == c then 1 else 0) + Count(s[1..], c)
  }

  /** `s.split(sep)`: the pieces between separators, empty ones included,
      so that there is always one more piece than there are separators. */
  function Split(s: string, sep: char): (parts: seq<string>)
    ensures |parts| == Count(s, sep) + 1
    ensures forall i :: 0 <= i < |parts| ==> sep !in parts[i]
    decreases |s|
  {
    if s == [] then [""]
    else
      var rest := Split(s[1..], sep);
      if s[0] == sep then [""] + rest else [[s[0]] + rest[0]] + rest[1..]
  }

  /** `sep.join(parts)`: the parts with one separator between neighbours. */
  function Join(sep: char, parts: seq<string>): string {
    if |parts| == 0 then ""
    else if |parts| == 1 then parts[0]
    else parts[0] + [sep] + Join(sep, parts[1..])
  }

  /** Joining the pieces of a split with the same separator restores the text. */
  lemma {:induction false} JoinSplit(s: string, sep: char)
    ensures Join(sep, Split(s, sep)) == s
    decreases |s|
  {
    if s != [] {
      var rest := Split(s[1..], sep);
      JoinSplit(s[1..], sep);
      if s[0] == sep {
        assert Split(s, sep) == [""] + rest;
        assert ([""] + rest)[1..] == rest;
      } else {
        assert Split(s, sep) == [[s[0]] + rest[0]] + rest[1..];
        JoinPrefixFirst(sep, [s[0]], rest);
      }
    }
  }

  /** Extending the first part extends the joined text by the same prefix. */
  lemma JoinPrefixFirst(sep: char, x: string, parts: seq<string>)
    requires parts != []
    ensures Join(sep, [x + parts[0]] + parts[1..]) == x + Join(sep, parts)
  {
    var q := [x + parts[0]] + parts[1..];
    if |parts| > 1 {
      assert q[1..] == parts[1..];
    }
  }

  /** Splitting text whose first piece w holds no separator yields w followed
      by whatever the rest of the text splits into, w glued to its first piece. */
  lemma {:induction false} SplitPrefix(w: string, tail: string, sep: char)
    requires sep !in w
    ensures Split(w + tail, sep) == [w + Split(tail, sep)[0]] + Split(tail, sep)[1..]
    decreases |w|
  {
    if w != [] {
      SplitPrefix(w[1..], tail, sep);
      var parts, rest := Split(tail, sep), Split(w[1..] + tail, sep);
      assert (w + tail)[0] == w[0] != sep;
      assert (w + tail)[1..] == w[1..] + tail;
      assert rest[0] == w[1..] + parts[0] && rest[1..] == parts[1..];
      assert [w[0]] + (w[1..] + parts[0]) == w + parts[0];
    } else {
      var parts := Split(tail, sep);
      assert w + tail == tail;
      assert w + parts[0] == parts[0];
      assert parts == [parts[0]] + parts[1..];
    }
  }

  /** Splitting the join of separator-free parts gives the parts back. */
  lemma {:induction false} SplitJoin(parts: seq<string>, sep: char)
    requires parts != []
    requires forall i :: 0 <= i < |parts| ==> sep !in parts[i]
    ensures Split(Join(sep, parts), sep) == parts
    decreases |parts|
  {
    if |parts| == 1 {
      SplitPrefix(parts[0], "", sep);
      assert parts[0] + "" == parts[0];
    } else {
      var rest := parts[1..];
      SplitJoin(rest, sep);
      var tail := [sep] + Join(sep, rest);
      assert Join(sep, parts) == parts[0] + tail;
      SplitPrefix(parts[0], tail, sep);
      assert tail[1..] == Join(sep, rest);
      assert Split(tail, sep) == [""] + rest;
      assert parts[0] + "" == parts[0];
      assert ([""] + rest)[1..] == rest;
      assert parts == [parts[0]] + rest;
    }
  }

  /** ASCII upper and lower case; every other character is left as it is. */
  function Upper(c: char): char {
    if 'a' <= c <= 'z' then (c as int - 32) as char else c
  }

  function Lower(c: char): char {
    if 'A' <= c <= 'Z' then (c as int + 32) as char else c
  }

  function LowerAll(w: string): string {
    if w == [] then [] else [Lower(w[0])] + LowerAll(w[1..])
  }

  /** `w.capitalize()`: first character upper case, the rest lower case. */
  function Capitalize(w: string): string {
    if w == [] then [] else [Upper(w[0])] + LowerAll(w[1..])
  }

  function CapitalizeAll(words: seq<string>): seq<string> {
    if words == [] then [] else [Capitalize(words[0])] + CapitalizeAll(words[1..])
  }
}
