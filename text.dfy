/** The string operations of Python that the bot's text handling relies on:
    str.strip, the substring test `p in s`, str.lower, str.split / str.join on
    one separator character, str.replace(p, ''), int() on a string and str() of
    a non-negative integer. Strings are sequences of Unicode scalar values. */
module Text {

  datatype Option<+T> = None | Some(value: T)

  // ---------------------------------------------------------------------------
  // Whitespace and str.strip

  /** Python's str.isspace for one character. */
  predicate IsSpace(c: char)
  {
    || c == ' '
    || ('\t' <= c <= '\r')                     // \t \n \v \f \r
    || ('\U{1C}' <= c <= '\U{1F}')
    || c == '\U{85}' || c == '\U{A0}' || c == '\U{1680}'
    || ('\U{2000}' <= c <= '\U{200A}')
    || c == '\U{2028}' || c == '\U{2029}' || c == '\U{202F}'
    || c == '\U{205F}' || c == '\U{3000}'
  }

  /** str.lstrip(): drops the leading whitespace. */
  function TrimStart(s: string): (t: string)
    ensures |t| <= |s| && t == s[|s| - |t|..]
    ensures t == [] || !IsSpace(t[0])
    ensures forall i :: 0 <= i < |s| - |t| ==> IsSpace(s[i])
  {
    if |s| > 0 && IsSpace(s[0]) then TrimStart(s[1..]) else s
  }

  /** str.rstrip(): drops the trailing whitespace. */
  function TrimEnd(s: string): (t: string)
    ensures |t| <= |s| && t == s[..|t|]
    ensures t == [] || !IsSpace(t[|t| - 1])
    ensures forall i :: |t| <= i < |s| ==> IsSpace(s[i])
  {
    if |s| > 0 && IsSpace(s[|s| - 1]) then TrimEnd(s[..|s| - 1]) else s
  }

  /** str.strip(). */
  function Trim(s: string): string
  {
    TrimEnd(TrimStart(s))
  }

  /** A string that neither starts nor ends with whitespace is its own strip. */
  lemma TrimNoSpace(s: string)
    requires s == [] || (!IsSpace(s[0]) && !IsSpace(s[|s| - 1]))
    ensures Trim(s) == s
  {
  }

  lemma TrimStartSpace(d: string)
    ensures TrimStart(" " + d) == TrimStart(d)
  {
    var s := " " + d;
    assert IsSpace(s[0]) && s[1..] == d;
  }

  /** " " followed by digits strips to the digits. */
  lemma TrimSpaceThenDigits(d: string)
    requires |d| >= 1 && AllDigits(d)
    ensures Trim(" " + d) == d
  {
    TrimStartSpace(d);
    var t := TrimStart(" " + d);
    assert !IsSpace(d[0]);
    assert TrimStart(d) == d;
    assert t == d;
    assert !IsSpace(d[|d| - 1]);
    assert TrimEnd(d) == d;
    assert Trim(" " + d) == TrimEnd(t);
  }

  // ---------------------------------------------------------------------------
  // Substrings: `p in s`

  predicate IsPrefix(p: string, s: string)
  {
    |p| <= |s| && s[..|p|] == p
  }

  /** Python's `p in s` on strings: p occurs in s at some position. */
  predicate Contains(s: string, p: string)
    decreases |s|
  {
    IsPrefix(p, s) || (|s| > 0 && Contains(s[1..], p))
  }

  /** An occurrence at a given position makes `p in s` hold. */
  lemma {:induction false} ContainsSlice(s: string, i: nat, p: string)
    requires i + |p| <= |s| && s[i..i + |p|] == p
    ensures Contains(s, p)
    decreases i
  {
    if i > 0 {
      assert s[1..][i - 1..i - 1 + |p|] == p;
      ContainsSlice(s[1..], i - 1, p);
    }
  }

  /** `p in s` gives a position where p occurs. */
  lemma {:induction false} ContainsIndex(s: string, p: string) returns (i: nat)
    requires Contains(s, p)
    ensures i + |p| <= |s| && s[i..i + |p|] == p
    decreases |s|
  {
    if IsPrefix(p, s) {
      i := 0;
    } else {
      var j := ContainsIndex(s[1..], p);
      assert s[1..][j..j + |p|] == s[j + 1..j + 1 + |p|];
      i := j + 1;
    }
  }

  /** Whatever occurs in a occurs in a + b. */
  lemma ContainsAppendRight(a: string, b: string, p: string)
    requires Contains(a, p)
    ensures Contains(a + b, p)
  {
    var i := ContainsIndex(a, p);
    assert (a + b)[i..i + |p|] == p;
    ContainsSlice(a + b, i, p);
  }

  /** Whatever occurs in b occurs in a + b. */
  lemma ContainsAppendLeft(a: string, b: string, p: string)
    requires Contains(b, p)
    ensures Contains(a + b, p)
  {
    var i := ContainsIndex(b, p);
    assert (a + b)[|a| + i..|a| + i + |p|] == p;
    ContainsSlice(a + b, |a| + i, p);
  }

  /** Every character of an occurring string is a character of the string. */
  lemma ContainsChar(s: string, p: string, k: nat)
    requires Contains(s, p) && k < |p|
    ensures p[k] in s
  {
    var i := ContainsIndex(s, p);
    assert s[i..i + |p|][k] == p[k];
  }

  /** If the first character of p does not occur in a, an occurrence of p in
      a + b lies inside b. */
  lemma {:induction false} ContainsSkipLeft(a: string, b: string, p: string)
    requires |p| > 0 && p[0] !in a
    requires Contains(a + b, p)
    ensures Contains(b, p)
  {
    if a != [] {
      assert (a + b)[0] == a[0];
      assert !IsPrefix(p, a + b);
      assert (a + b)[1..] == a[1..] + b;
      ContainsSkipLeft(a[1..], b, p);
    } else {
      assert a + b == b;
    }
  }

  /** If the last character of p does not occur in b, an occurrence of p in
      a + b lies inside a. */
  lemma ContainsSkipRight(a: string, b: string, p: string)
    requires |p| > 0 && p[|p| - 1] !in b
    requires Contains(a + b, p)
    ensures Contains(a, p)
  {
    var i := ContainsIndex(a + b, p);
    if i + |p| > |a| {
      assert false;
    }
    assert a[i..i + |p|] == p;
    ContainsSlice(a, i, p);
  }

  /** s.replace(p, ''): deletes the non-overlapping occurrences of p, scanning
      from the left as Python does. */
  function RemoveAll(s: string, p: string): (t: string)
    ensures |t| <= |s|
    ensures forall c :: c in t ==> c in s
    decreases |s|
  {
    if |p| == 0 || |s| == 0 then s
    else if IsPrefix(p, s) then RemoveAll(s[|p|..], p)
    else [s[0]] + RemoveAll(s[1..], p)
  }

  // ---------------------------------------------------------------------------
  // str.lower

  /** str.lower for one character: ASCII, Latin-1 and the Cyrillic block. */
  function ToLower(c: char): (d: char)
  {
    if 'A' <= c <= 'Z' then (c as int + 32) as char
    else if ('\U{C0}' <= c <= '\U{DE}') && c != '\U{D7}' then (c as int + 32) as char
    else if '\U{400}' <= c <= '\U{40F}' then (c as int + 80) as char
    else if '\U{410}' <= c <= '\U{42F}' then (c as int + 32) as char
    else c
  }

  function Lower(s: string): (t: string)
    ensures |t| == |s|
    ensures forall i :: 0 <= i < |s| ==> t[i] == ToLower(s[i])
  {
    if s == [] then [] else [ToLower(s[0])] + Lower(s[1..])
  }

  /** Lower-casing twice is lower-casing once: a lower-cased template name
      is its own key. */
  lemma LowerIdempotent(s: string)
    ensures Lower(Lower(s)) == Lower(s)
  {
    forall i | 0 <= i < |s|
      ensures Lower(Lower(s))[i] == Lower(s)[i]
    {
      var c := s[i];
      assert ToLower(ToLower(c)) == ToLower(c);
    }
  }

  // ---------------------------------------------------------------------------
  // str.split / str.join on one separator character

  /** The first position of c in s. */
  function IndexOf(s: string, c: char): (r: Option<nat>)
    ensures r.None? ==> c !in s
    ensures r.Some? ==> r.value < |s| && s[r.value] == c && c !in s[..r.value]
  {
    if s == [] then None
    else if s[0] == c then Some(0)
    else match IndexOf(s[1..], c)
      case None => None
      case Some(i) => assert s[1..][..i] == s[1..i + 1]; Some(i + 1)
  }

  /** s.split(sep): the pieces between occurrences of sep; never empty. */
  function Split(s: string, sep: char): (parts: seq<string>)
    ensures |parts| >= 1
    ensures forall i :: 0 <= i < |parts| ==> sep !in parts[i]
    decreases |s|
  {
    match IndexOf(s, sep)
    case None => [s]
    case Some(i) => [s[..i]] + Split(s[i + 1..], sep)
  }

  /** sep.join(parts). */
  function JoinWith(parts: seq<string>, sep: char): string
  {
    if |parts| == 0 then []
    else if |parts| == 1 then parts[0]
    else parts[0] + [sep] + JoinWith(parts[1..], sep)
  }

  /** Splitting and joining again gives back the text. */
  lemma {:induction false} JoinSplit(s: string, sep: char)
    ensures JoinWith(Split(s, sep), sep) == s
    decreases |s|
  {
    match IndexOf(s, sep)
    case None =>
    case Some(i) =>
      var rest := s[i + 1..];
      var parts := Split(rest, sep);
      JoinSplit(rest, sep);
      var all := [s[..i]] + parts;
      assert Split(s, sep) == all;
      assert all[1..] == parts;
      assert JoinWith(all, sep) == s[..i] + [sep] + JoinWith(parts, sep);
      assert s == s[..i] + [sep] + rest;
  }

  /** Joining lines that hold no separator and splitting again gives back
      the lines. */
  lemma {:induction false} SplitJoin(parts: seq<string>, sep: char)
    requires |parts| >= 1
    requires forall i :: 0 <= i < |parts| ==> sep !in parts[i]
    ensures Split(JoinWith(parts, sep), sep) == parts
  {
    if |parts| == 1 {
      assert IndexOf(parts[0], sep).None?;
    } else {
      var s := JoinWith(parts, sep);
      var head := parts[0];
      SplitJoin(parts[1..], sep);
      assert s == head + [sep] + JoinWith(parts[1..], sep);
      assert s[|head|] == sep;
      assert s[..|head|] == head;
      IndexOfFirst(s, sep, |head|);
      assert s[|head| + 1..] == JoinWith(parts[1..], sep);
    }
  }

  /** Joining two non-empty lists is joining each and putting a separator
      between. */
  lemma {:induction false} JoinWithAppend(a: seq<string>, b: seq<string>, sep: char)
    requires |a| >= 1 && |b| >= 1
    ensures JoinWith(a + b, sep) == JoinWith(a, sep) + [sep] + JoinWith(b, sep)
    decreases |a|
  {
    var ab := a + b;
    assert ab[0] == a[0];
    if |a| == 1 {
      assert ab[1..] == b;
    } else {
      assert ab[1..] == a[1..] + b;
      JoinWithAppend(a[1..], b, sep);
    }
  }

  lemma IndexOfFirst(s: string, c: char, k: nat)
    requires k < |s| && s[k] == c && c !in s[..k]
    ensures IndexOf(s, c) == Some(k)
  {
    assert s[..k + 1] == s[..k] + [c];
  }

  /** s.split(c, 1)[1]: the text after the first c (None where Python raises
      IndexError). */
  function AfterFirst(s: string, c: char): (r: Option<string>)
    ensures r.None? <==> c !in s
    ensures r.Some? ==> exists i :: 0 <= i < |s| && s[i] == c && c !in s[..i] && r.value == s[i + 1..]
  {
    match IndexOf(s, c)
    case None => None
    case Some(i) => Some(s[i + 1..])
  }

  /** s.split(c)[1]: the text between the first and the second c (None where
      Python raises IndexError). */
  function SecondField(s: string, c: char): (r: Option<string>)
    ensures r.None? <==> c !in s
    ensures r.Some? ==> c !in r.value
  {
    var parts := Split(s, c);
    if |parts| >= 2 then Some(parts[1]) else
      assert IndexOf(s, c).None?;
      None
  }

  // ---------------------------------------------------------------------------
  // Decimal numbers: str(n) and int(s)

  predicate IsDigit(c: char)
  {
    '0' <= c <= '9'
  }

  predicate AllDigits(s: string)
  {
    forall i :: 0 <= i < |s| ==> IsDigit(s[i])
  }

  function DigitChar(d: nat): (c: char)
    requires d < 10
    ensures IsDigit(c) && c as int - '0' as int == d
  {
    (d + '0' as int) as char
  }

  /** str(n) for a non-negative integer: its decimal digits, most significant
      first, with no leading zero. */
  function NatToString(n: nat): (s: string)
    ensures |s| >= 1 && AllDigits(s)
    ensures n > 0 ==> s[0] != '0'
  {
    if n < 10 then [DigitChar(n)] else NatToString(n / 10) + [DigitChar(n % 10)]
  }

  /** The digit part of Python's int(): ASCII digits, single underscores
      allowed between two digits; None where int() raises ValueError. */
  function ParseDigits(s: string): (r: Option<nat>)
    ensures r.Some? ==> |s| >= 1 && IsDigit(s[0]) && IsDigit(s[|s| - 1])
    decreases |s|
  {
    if |s| == 0 || !IsDigit(s[|s| - 1]) then None
    else
      var d := s[|s| - 1] as int - '0' as int;
      if |s| == 1 then Some(d)
      else
        var init := s[..|s| - 1];
        if IsDigit(init[|init| - 1]) then
          match ParseDigits(init)
          case None => None
          case Some(v) => Some(10 * v + d)
        else if init[|init| - 1] == '_' && |init| >= 2 && IsDigit(init[|init| - 2]) then
          match ParseDigits(init[..|init| - 1])
          case None => None
          case Some(v) => Some(10 * v + d)
        else None
  }

  /** Python's int(s) on a string: surrounding whitespace, an optional sign
      and the digits; None where int() raises ValueError. Non-ASCII decimal
      digits are not modelled. */
  function ParseInt(s: string): Option<int>
  {
    var t := Trim(s);
    if |t| > 0 && (t[0] == '+' || t[0] == '-') then
      match ParseDigits(t[1..])
      case None => None
      case Some(v) => var signed: int := if t[0] == '-' then -(v as int) else v; Some(signed)
    else
      match ParseDigits(t)
      case None => None
      case Some(v) => Some(v)
  }

  lemma {:induction false} ParseDigitsOfNat(n: nat)
    ensures ParseDigits(NatToString(n)) == Some(n)
  {
    if n >= 10 {
      ParseDigitsOfNat(n / 10);
      var s := NatToString(n);
      assert s[..|s| - 1] == NatToString(n / 10);
    }
  }

  /** int(str(n)) == n: the decimal rendering of a number reads back as that
      number. */
  lemma ParseIntOfNat(n: nat)
    ensures ParseInt(NatToString(n)) == Some(n)
  {
    var s := NatToString(n);
    assert !IsSpace(s[0]) && !IsSpace(s[|s| - 1]);
    TrimNoSpace(s);
    assert !(s[0] == '+' || s[0] == '-');
    ParseDigitsOfNat(n);
  }

  /** Two numbers with the same decimal rendering are equal. */
  lemma NatToStringInjective(m: nat, n: nat)
    requires NatToString(m) == NatToString(n)
    ensures m == n
  {
    ParseDigitsOfNat(m);
    ParseDigitsOfNat(n);
  }
}
