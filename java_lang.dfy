/**
 The few pieces of the Java standard library that the proxy's worker relies on,
 stated with their Java semantics: decoding a byte buffer into a String,
 String.startsWith, String.trim, String.indexOf, String.split (which drops
 trailing empty strings) and Integer.valueOf (which throws on anything that is
 not an optionally signed decimal numeral in the 32-bit range).
 */
module JavaLang {

  newtype byte = x: int | 0 <= x < 256

  datatype Option<T> = None | Some(value: T)

  const IntMin: int := -0x8000_0000
  const IntMax: int := 0x7fff_ffff

  /** `new String(buffer)`, reading each byte as the character with the same code. */
  function Decode(bytes: seq<byte>): (text: string)
    ensures |text| == |bytes|
    ensures forall i :: 0 <= i < |bytes| ==> text[i] as int == bytes[i] as int
  {
    seq(|bytes|, i requires 0 <= i < |bytes| => (bytes[i] as int) as char)
  }

  predicate StartsWith(s: string, prefix: string) {
    |prefix| <= |s| && s[..|prefix|] == prefix
  }

  // ---------------------------------------------------------------- trim

  /** String.trim treats every character at or below U+0020 as blank. */
  predicate IsBlank(c: char) { c <= ' ' }

  predicate AllBlank(s: string) {
    forall k :: 0 <= k < |s| ==> IsBlank(s[k])
  }

  /** Number of blank characters at the front of `s`. */
  function LeadingBlanks(s: string): (n: nat)
    ensures n <= |s|
    ensures AllBlank(s[..n])
    ensures n < |s| ==> !IsBlank(s[n])
  {
    if |s| > 0 && IsBlank(s[0]) then 1 + LeadingBlanks(s[1..]) else 0
  }

  /** Number of blank characters at the back of `s`. */
  function TrailingBlanks(s: string): (n: nat)
    ensures n <= |s|
    ensures AllBlank(s[|s| - n..])
    ensures n < |s| ==> !IsBlank(s[|s| - 1 - n])
  {
    if |s| > 0 && IsBlank(s[|s| - 1]) then 1 + TrailingBlanks(s[..|s| - 1]) else 0
  }

  /** String.trim: `s` without its leading and trailing blanks. */
  function Trim(s: string): string {
    var tail := s[LeadingBlanks(s)..];
    tail[..|tail| - TrailingBlanks(tail)]
  }

  /**
   Trim(s) is the piece of `s` between a blank prefix and a blank suffix, and
   it neither starts nor ends with a blank.
   */
  lemma TrimSplit(s: string) returns (pre: string, post: string)
    ensures s == pre + Trim(s) + post
    ensures AllBlank(pre) && AllBlank(post)
    ensures Trim(s) == [] || (!IsBlank(Trim(s)[0]) && !IsBlank(Trim(s)[|Trim(s)| - 1]))
  {
    TrimEnds(s);
    var st := LeadingBlanks(s);
    var tail := s[st..];
    var n := TrailingBlanks(tail);
    pre, post := s[..st], tail[|tail| - n..];
    ThreePieces(s, st, tail, |tail| - n);
  }

  lemma ThreePieces(s: string, st: nat, tail: string, m: nat)
    requires st <= |s| && tail == s[st..] && m <= |tail|
    ensures s == s[..st] + tail[..m] + tail[m..]
  {
    SliceSplit(s, st);
    SliceSplit(tail, m);
    assert s == s[..st] + (tail[..m] + tail[m..]);
  }

  lemma TrimEnds(s: string)
    ensures Trim(s) == [] || (!IsBlank(Trim(s)[0]) && !IsBlank(Trim(s)[|Trim(s)| - 1]))
  {
    var st := LeadingBlanks(s);
    var tail := s[st..];
    var n := TrailingBlanks(tail);
    var r := tail[..|tail| - n];
    if r != [] {
      assert st < |s| && n < |tail|;
      assert r[0] == s[st];
      assert r[|r| - 1] == tail[|tail| - 1 - n];
    }
  }

  lemma SliceSplit(s: string, i: nat)
    requires i <= |s|
    ensures s == s[..i] + s[i..]
  {
  }

  lemma {:induction false} LeadingBlanksPadded(pre: string, rest: string)
    requires AllBlank(pre)
    requires rest == [] || !IsBlank(rest[0])
    ensures LeadingBlanks(pre + rest) == |pre|
    decreases |pre|
  {
    if pre == [] {
      assert pre + rest == rest;
    } else {
      assert (pre + rest)[1..] == pre[1..] + rest;
      LeadingBlanksPadded(pre[1..], rest);
    }
  }

  lemma {:induction false} TrailingBlanksPadded(rest: string, post: string)
    requires AllBlank(post)
    requires rest == [] || !IsBlank(rest[|rest| - 1])
    ensures TrailingBlanks(rest + post) == |post|
    decreases |post|
  {
    if post == [] {
      assert rest + post == rest;
    } else {
      var s := rest + post;
      assert s[..|s| - 1] == rest + post[..|post| - 1];
      TrailingBlanksPadded(rest, post[..|post| - 1]);
    }
  }

  /** Whatever blank padding surrounds a value with non-blank ends, trim removes exactly that padding. */
  lemma TrimUnique(pre: string, v: string, post: string)
    requires AllBlank(pre) && AllBlank(post)
    requires v == [] || (!IsBlank(v[0]) && !IsBlank(v[|v| - 1]))
    ensures Trim(pre + v + post) == v
  {
    var s := pre + v + post;
    if v == [] {
      assert s == pre + post;
      assert AllBlank(s) by {
        forall k | 0 <= k < |s| ensures IsBlank(s[k]) {
          if k < |pre| { assert s[k] == pre[k]; } else { assert s[k] == post[k - |pre|]; }
        }
      }
      var st := LeadingBlanks(s);
      assert st == |s|;
    } else {
      assert s == pre + (v + post);
      LeadingBlanksPadded(pre, v + post);
      assert s[|pre|..] == v + post;
      TrailingBlanksPadded(v, post);
    }
  }

  /** A string that neither starts nor ends with a blank is its own trim. */
  lemma TrimOfTrimmed(v: string)
    requires v == [] || (!IsBlank(v[0]) && !IsBlank(v[|v| - 1]))
    ensures Trim(v) == v
  {
    TrimUnique([], v, []);
    assert [] + v + [] == v;
  }

  // ---------------------------------------------------------------- split

  /** String.indexOf(c): the position of the first occurrence of `c`. */
  function IndexOf(s: string, c: char): (i: nat)
    requires c in s
    ensures i < |s| && s[i] == c
    ensures forall j :: 0 <= j < i ==> s[j] != c
  {
    if s[0] == c then 0 else IndexOf(s[1..], c) + 1
  }

  /** All the pieces of `s` between occurrences of `sep`, empty ones included. */
  function Split(s: string, sep: char): (parts: seq<string>)
    ensures |parts| >= 1
    ensures forall k :: 0 <= k < |parts| ==> sep !in parts[k]
    decreases |s|
  {
    if sep !in s then [s]
    else
      var i := IndexOf(s, sep);
      [s[..i]] + Split(s[i + 1..], sep)
  }

  /** String.join(sep, parts), the inverse of Split. */
  function Join(parts: seq<string>, sep: char): string
    requires |parts| >= 1
  {
    if |parts| == 1 then parts[0] else parts[0] + [sep] + Join(parts[1..], sep)
  }

  lemma {:induction false} JoinSplit(s: string, sep: char)
    ensures Join(Split(s, sep), sep) == s
    decreases |s|
  {
    if sep in s {
      var i := IndexOf(s, sep);
      JoinSplit(s[i + 1..], sep);
      assert Split(s, sep)[1..] == Split(s[i + 1..], sep);
      assert s == s[..i] + [sep] + s[i + 1..];
    }
  }

  lemma {:induction false} SplitJoin(parts: seq<string>, sep: char)
    requires |parts| >= 1
    requires forall k :: 0 <= k < |parts| ==> sep !in parts[k]
    ensures Split(Join(parts, sep), sep) == parts
  {
    if |parts| > 1 {
      SplitOfJoined(parts[0], Join(parts[1..], sep), sep);
      SplitJoin(parts[1..], sep);
      assert parts == [parts[0]] + parts[1..];
    }
  }

  lemma SplitOfJoined(first: string, rest: string, sep: char)
    requires sep !in first
    ensures Split(first + [sep] + rest, sep) == [first] + Split(rest, sep)
  {
    var s := first + [sep] + rest;
    assert s[|first|] == sep;
    assert forall j :: 0 <= j < |first| ==> s[j] == first[j];
    var i := IndexOf(s, sep);
    assert i == |first|;
    assert s[..i] == first;
    assert s[i + 1..] == rest;
  }

  /** Split of text made only of separators yields nothing but empty pieces. */
  lemma {:induction false} SplitOfSeparators(s: string, sep: char)
    requires forall k :: 0 <= k < |s| ==> s[k] == sep
    ensures forall j :: 0 <= j < |Split(s, sep)| ==> Split(s, sep)[j] == []
    decreases |s|
  {
    if s != [] {
      assert s[0] == sep;
      var i := IndexOf(s, sep);
      assert i == 0 && s[..i] == [];
      SplitOfSeparators(s[1..], sep);
      assert Split(s, sep) == [[]] + Split(s[1..], sep);
    }
  }

  /** Splitting text built by joining separator-free pieces gives the pieces back, as String.split returns them. */
  lemma JavaSplitJoin(parts: seq<string>, sep: char)
    requires |parts| >= 2
    requires forall k :: 0 <= k < |parts| ==> sep !in parts[k]
    ensures JavaSplit(Join(parts, sep), sep) == DropTrailingEmpty(parts)
  {
    assert Join(parts, sep)[|parts[0]|] == sep;
    SplitJoin(parts, sep);
  }

  /** A character other than the separator ends up in some (non-empty) piece. */
  lemma {:induction false} SplitKeepsChar(s: string, sep: char, k: nat) returns (j: nat)
    requires k < |s| && s[k] != sep
    ensures j < |Split(s, sep)| && Split(s, sep)[j] != []
    decreases |s|
  {
    if sep !in s {
      j := 0;
    } else {
      var i := IndexOf(s, sep);
      if k < i {
        assert s[..i][k] == s[k];
        j := 0;
      } else {
        var j' := SplitKeepsChar(s[i + 1..], sep, k - i - 1);
        j := j' + 1;
      }
    }
  }

  /** The array String.split returns is trimmed of its trailing empty strings. */
  function DropTrailingEmpty(parts: seq<string>): (r: seq<string>)
    ensures |r| <= |parts| && r == parts[..|r|]
    ensures forall k :: |r| <= k < |parts| ==> parts[k] == []
    ensures r == [] || r[|r| - 1] != []
  {
    if |parts| > 0 && parts[|parts| - 1] == [] then DropTrailingEmpty(parts[..|parts| - 1]) else parts
  }

  /**
   String.split(sep) for a one-character separator: an input without the
   separator comes back whole (even when empty); otherwise the pieces come
   back without the trailing empty ones.
   */
  function JavaSplit(s: string, sep: char): (parts: seq<string>)
    ensures forall k :: 0 <= k < |parts| ==> sep !in parts[k]
  {
    if sep !in s then [s] else DropTrailingEmpty(Split(s, sep))
  }

  /** With only separators after the first one, String.split yields fewer than two pieces. */
  lemma JavaSplitNoSecond(s: string, sep: char)
    requires sep in s
    requires forall k :: IndexOf(s, sep) < k < |s| ==> s[k] == sep
    ensures |JavaSplit(s, sep)| < 2
  {
    var i := IndexOf(s, sep);
    var rest := s[i + 1..];
    var segs := Split(s, sep);
    assert segs == [s[..i]] + Split(rest, sep);
    assert forall k :: 0 <= k < |rest| ==> rest[k] == s[i + 1 + k];
    SplitOfSeparators(rest, sep);
  }

  /**
   With any other character after the first separator, String.split yields
   the text before the first separator and then the text up to the next one.
   */
  lemma JavaSplitSecond(s: string, sep: char, k: nat)
    requires sep in s && IndexOf(s, sep) < k < |s| && s[k] != sep
    ensures |JavaSplit(s, sep)| >= 2
    ensures JavaSplit(s, sep)[0] == s[..IndexOf(s, sep)]
    ensures JavaSplit(s, sep)[1] == FirstPiece(s[IndexOf(s, sep) + 1..], sep)
  {
    var i := IndexOf(s, sep);
    var rest := s[i + 1..];
    assert rest[k - i - 1] == s[k];
    var j := SplitKeepsChar(rest, sep, k - i - 1);
    SplitAtFirst(s, sep);
    DropTrailingEmptyCons(s[..i], Split(rest, sep), j);
    SplitFirst(rest, sep);
  }

  lemma SplitAtFirst(s: string, sep: char)
    requires sep in s
    ensures Split(s, sep) == [s[..IndexOf(s, sep)]] + Split(s[IndexOf(s, sep) + 1..], sep)
  {
  }

  /** A non-empty piece anywhere after the first keeps the first two pieces. */
  lemma DropTrailingEmptyCons(first: string, tail: seq<string>, j: nat)
    requires j < |tail| && tail[j] != []
    ensures |DropTrailingEmpty([first] + tail)| >= 2
    ensures DropTrailingEmpty([first] + tail)[0] == first
    ensures DropTrailingEmpty([first] + tail)[1] == tail[0]
  {
    var parts := [first] + tail;
    var r := DropTrailingEmpty(parts);
    assert parts[j + 1] == tail[j];
    assert |r| > j + 1;
    assert r[0] == parts[0] && r[1] == parts[1];
  }

  /** The text of `s` up to its first `sep`, or all of `s` when there is none. */
  function FirstPiece(s: string, sep: char): string {
    if sep in s then s[..IndexOf(s, sep)] else s
  }

  /** The first piece of Split is the text up to the first separator. */
  lemma SplitFirst(s: string, sep: char)
    ensures Split(s, sep)[0] == FirstPiece(s, sep)
  {
  }

  // ---------------------------------------------------------------- Integer.valueOf

  predicate IsDigit(c: char) { '0' <= c <= '9' }

  predicate AllDigits(s: string) {
    forall k :: 0 <= k < |s| ==> IsDigit(s[k])
  }

  /** The value of a string of decimal digits, read most significant first. */
  function DigitsValue(s: string): nat
    requires AllDigits(s)
  {
    if s == [] then 0 else DigitsValue(s[..|s| - 1]) * 10 + (s[|s| - 1] as int - '0' as int)
  }

  /**
   Integer.valueOf(s): an optional '-' or '+' followed by at least one decimal
   digit, whose value fits in a 32-bit int; anything else (the empty string, a
   lone sign, a blank, a letter, an out-of-range value) is a
   NumberFormatException, here None.
   */
  function ParseInt(s: string): (r: Option<int>)
    ensures r.Some? ==> IntMin <= r.value <= IntMax
    ensures r.Some? ==> |s| > 0 && forall k :: 1 <= k < |s| ==> IsDigit(s[k])
    ensures r.Some? ==> IsDigit(s[0]) || s[0] == '-' || s[0] == '+'
    ensures r.Some? ==> IsDigit(s[|s| - 1])
  {
    if |s| == 0 then None
    else
      var digits := if s[0] == '-' || s[0] == '+' then s[1..] else s;
      if |digits| == 0 || !AllDigits(digits) then None
      else
        var magnitude := DigitsValue(digits);
        var v: int := if s[0] == '-' then -(magnitude as int) else magnitude;
        if IntMin <= v <= IntMax then Some(v) else None
  }

  function DigitChar(d: nat): (c: char)
    requires d < 10
    ensures IsDigit(c)
  {
    ('0' as int + d) as char
  }

  /** Decimal digits of `n` without leading zeros (Integer.toString for a non-negative value). */
  function ShowNat(n: nat): (s: string)
    ensures |s| >= 1 && AllDigits(s)
  {
    if n < 10 then [DigitChar(n)] else ShowNat(n / 10) + [DigitChar(n % 10)]
  }

  /** Integer.toString. */
  function Show(n: int): string {
    if n < 0 then "-" + ShowNat(-n) else ShowNat(n)
  }

  /** Integer.toString writes digits, possibly after a '-', and always ends with a digit. */
  lemma ShowChars(n: int)
    ensures |Show(n)| >= 1 && IsDigit(Show(n)[|Show(n)| - 1])
    ensures forall k :: 0 <= k < |Show(n)| ==> IsDigit(Show(n)[k]) || Show(n)[k] == '-'
  {
    var digits := ShowNat(if n < 0 then -n else n);
    if n < 0 {
      assert forall k :: 1 <= k < |Show(n)| ==> Show(n)[k] == digits[k - 1];
    }
  }

  lemma {:induction false} DigitsValueShowNat(n: nat)
    ensures DigitsValue(ShowNat(n)) == n
  {
    if n >= 10 {
      var s := ShowNat(n);
      assert s[..|s| - 1] == ShowNat(n / 10);
      DigitsValueShowNat(n / 10);
    }
  }

  /** Integer.valueOf reads back every int that Integer.toString writes. */
  lemma ParseShow(n: int)
    requires IntMin <= n <= IntMax
    ensures ParseInt(Show(n)) == Some(n)
  {
    if n < 0 {
      ParseNegative(-n);
    } else {
      ParseNonNegative(n);
    }
  }

  lemma ParseNonNegative(m: nat)
    requires m <= IntMax
    ensures ParseInt(ShowNat(m)) == Some(m)
  {
    ParseUnsigned(ShowNat(m));
    DigitsValueShowNat(m);
  }

  lemma ParseNegative(m: nat)
    requires 0 < m <= -IntMin
    ensures ParseInt("-" + ShowNat(m)) == Some(-(m as int))
  {
    var digits := ShowNat(m);
    DigitsValueShowNat(m);
    ParseSigned(digits);
    assert ParseInt("-" + digits) == Some(-(DigitsValue(digits) as int));
  }

  /** Integer.valueOf on unsigned decimal digits: their value, or a throw when it exceeds the greatest int. */
  lemma ParseUnsigned(digits: string)
    requires digits != [] && AllDigits(digits)
    ensures ParseInt(digits) == if DigitsValue(digits) <= IntMax then Some(DigitsValue(digits) as int) else None
  {
    assert IsDigit(digits[0]);
  }

  /**
   Integer.valueOf on a sign followed by decimal digits: '+' gives their value
   and '-' its negation, or a throw when the result is outside the int range.
   */
  lemma ParseSigned(digits: string)
    requires digits != [] && AllDigits(digits)
    ensures ParseInt("+" + digits) == if DigitsValue(digits) <= IntMax then Some(DigitsValue(digits) as int) else None
    ensures ParseInt("-" + digits) == if DigitsValue(digits) <= -IntMin then Some(-(DigitsValue(digits) as int)) else None
  {
    var plus, minus := "+" + digits, "-" + digits;
    assert plus[0] == '+' && plus[1..] == digits;
    assert minus[0] == '-' && minus[1..] == digits;
  }

  /** A sign on its own is not a number. */
  lemma LoneSignThrows()
    ensures ParseInt("-") == None && ParseInt("+") == None
  {
    assert "-"[1..] == [] && "+"[1..] == [];
  }

  /** The decimal text of a value beyond the int range makes Integer.valueOf throw, with or without a sign. */
  lemma ParseOutOfRange(m: nat)
    requires m > IntMax
    ensures ParseInt(ShowNat(m)) == None && ParseInt("+" + ShowNat(m)) == None
    ensures m > -IntMin ==> ParseInt("-" + ShowNat(m)) == None
  {
    DigitsValueShowNat(m);
    ParseUnsigned(ShowNat(m));
    ParseSigned(ShowNat(m));
  }

  /** An explicit '+' before the digits of an int reads back the same int. */
  lemma ParsePlusShow(m: nat)
    requires m <= IntMax
    ensures ParseInt("+" + ShowNat(m)) == Some(m)
  {
    DigitsValueShowNat(m);
    ParseSigned(ShowNat(m));
  }

  /** A leading or trailing blank makes Integer.valueOf throw. */
  lemma ParseIntRejectsBlank(s: string)
    requires |s| > 0 && (IsBlank(s[0]) || IsBlank(s[|s| - 1]))
    ensures ParseInt(s) == None
  {
  }
}
