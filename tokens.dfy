/** The Java library behaviour the parsers rely on for their parameter
    lines: String.split("\\s+"), Long.parseLong and the (int) narrowing
    cast. */
module Tokens {
  import opened Wire

  /** The characters of the regular-expression class \s: space, \t, \n,
      \x0B, \f and \r. */
  predicate IsWhitespace(c: char) {
    c == ' ' || c == '\t' || c == '\n' || c == '\U{0B}' || c == '\U{0C}' || c == '\r'
  }

  predicate NoWhitespace(s: string) {
    forall i :: 0 <= i < |s| ==> !IsWhitespace(s[i])
  }

  /** Drops the run of whitespace at the front of `s`. */
  function SkipWhitespace(s: string): (r: string)
    ensures |r| <= |s| && r == s[|s| - |r|..]
    ensures r == [] || !IsWhitespace(r[0])
    ensures forall i :: 0 <= i < |s| - |r| ==> IsWhitespace(s[i])
  {
    if s != [] && IsWhitespace(s[0]) then SkipWhitespace(s[1..]) else s
  }

  /** The substrings between the maximal whitespace runs of `s`, the first
      and the last included even when empty. */
  function Pieces(s: string): (r: seq<string>)
    ensures |r| >= 1
    ensures forall i :: 0 <= i < |r| ==> NoWhitespace(r[i])
    ensures forall i :: 0 < i < |r| - 1 ==> r[i] != []
    decreases |s|
  {
    if s == [] then [[]]
    else if IsWhitespace(s[0]) then [[]] + Pieces(SkipWhitespace(s[1..]))
    else
      var rest := Pieces(s[1..]);
      [[s[0]] + rest[0]] + rest[1..]
  }

  /** Removes the empty strings at the end of the list. */
  function DropTrailingEmpty(ts: seq<string>): (r: seq<string>)
    ensures |r| <= |ts| && r == ts[..|r|]
    ensures r == [] || r[|r| - 1] != []
    ensures forall i :: |r| <= i < |ts| ==> ts[i] == []
  {
    if ts != [] && ts[|ts| - 1] == [] then DropTrailingEmpty(ts[..|ts| - 1]) else ts
  }

  /** String.split("\\s+"): without any separator the whole string (so the
      empty string gives one empty token); otherwise the pieces between
      the separators, a leading empty piece kept and trailing empty pieces
      removed. */
  function Split(s: string): (tokens: seq<string>)
  {
    if NoWhitespace(s) then [s] else DropTrailingEmpty(Pieces(s))
  }

  /** No token holds whitespace, and only the first can be empty. */
  lemma SplitTokens(s: string)
    ensures forall i :: 0 <= i < |Split(s)| ==> NoWhitespace(Split(s)[i])
    ensures forall i :: 0 < i < |Split(s)| ==> Split(s)[i] != []
  {
  }

  /** A leading separator gives a leading empty token (" lp" splits into
      "" and "lp"). */
  lemma SplitLeadingSeparator(s: string)
    requires s != [] && !IsWhitespace(s[0])
    ensures Split(" " + s) == [""] + DropTrailingEmpty(Pieces(s))
  {
    assert (" " + s)[1..] == s;
    assert !NoWhitespace(" " + s) by { assert IsWhitespace((" " + s)[0]); }
    var p := Pieces(s);
    assert Pieces(" " + s) == [[]] + p;
    DropTrailingEmptyPrefix([[]], p);
  }

  lemma {:induction false} DropTrailingEmptyPrefix(front: seq<string>, ts: seq<string>)
    requires ts != [] && ts[0] != []
    ensures DropTrailingEmpty(front + ts) == front + DropTrailingEmpty(ts)
    decreases |ts|
  {
    if ts[|ts| - 1] == [] {
      assert (front + ts)[..|front + ts| - 1] == front + ts[..|ts| - 1];
      DropTrailingEmptyPrefix(front, ts[..|ts| - 1]);
    }
  }

  /** A line of nothing but whitespace gives no token at all. */
  lemma {:induction false} SplitBlank(s: string)
    requires s != [] && forall i :: 0 <= i < |s| ==> IsWhitespace(s[i])
    ensures Split(s) == []
  {
    assert !NoWhitespace(s) by { assert IsWhitespace(s[0]); }
    assert SkipWhitespace(s[1..]) == [];
    assert Pieces(s) == [[], []];
    assert DropTrailingEmpty([[]]) == [];
  }

  /** The tokens joined by single spaces. */
  function Join(ts: seq<string>): (s: string)
    requires |ts| >= 1
    decreases |ts|
  {
    if |ts| == 1 then ts[0] else ts[0] + " " + Join(ts[1..])
  }

  /** Tokens that are non-empty and free of whitespace. */
  predicate PlainTokens(ts: seq<string>) {
    forall i :: 0 <= i < |ts| ==> ts[i] != [] && NoWhitespace(ts[i])
  }

  lemma {:induction false} PiecesOfWordThen(word: string, s: string)
    requires NoWhitespace(word)
    ensures Pieces(word + s) == [word + Pieces(s)[0]] + Pieces(s)[1..]
    decreases |word|
  {
    if word != [] {
      var ws := word + s;
      assert ws[0] == word[0] && !IsWhitespace(ws[0]);
      assert ws[1..] == word[1..] + s;
      assert Pieces(ws) == [[ws[0]] + Pieces(ws[1..])[0]] + Pieces(ws[1..])[1..];
      PiecesOfWordThen(word[1..], s);
      var x := Pieces(ws[1..]);
      assert x == [word[1..] + Pieces(s)[0]] + Pieces(s)[1..];
      assert x[0] == word[1..] + Pieces(s)[0] && x[1..] == Pieces(s)[1..];
      assert word == [word[0]] + word[1..];
      assert [ws[0]] + x[0] == word + Pieces(s)[0];
    } else {
      assert word + s == s && word + Pieces(s)[0] == Pieces(s)[0];
      assert [Pieces(s)[0]] + Pieces(s)[1..] == Pieces(s);
    }
  }

  lemma {:induction false} PiecesOfJoin(ts: seq<string>)
    requires |ts| >= 1 && PlainTokens(ts)
    ensures Pieces(Join(ts)) == ts
    decreases |ts|
  {
    if |ts| == 1 {
      PiecesOfWordThen(ts[0], []);
      assert ts[0] + [] == ts[0];
    } else {
      var rest := Join(ts[1..]);
      PiecesOfJoin(ts[1..]);
      assert rest != [] && !IsWhitespace(rest[0]) by { JoinStartsWith(ts[1..]); }
      var s := " " + rest;
      assert s[1..] == rest && IsWhitespace(s[0]);
      assert SkipWhitespace(rest) == rest;
      assert Pieces(s) == [[]] + Pieces(rest);
      PiecesOfWordThen(ts[0], s);
      assert ts[0] + " " + rest == ts[0] + s;
      assert ts[0] + [] == ts[0];
      assert [ts[0]] + ts[1..] == ts;
    }
  }

  lemma {:induction false} JoinStartsWith(ts: seq<string>)
    requires |ts| >= 1 && PlainTokens(ts)
    ensures Join(ts) != [] && Join(ts)[0] == ts[0][0]
  {
  }

  /** Round trip: splitting tokens joined by single spaces gives back the
      tokens. */
  lemma SplitJoin(ts: seq<string>)
    requires |ts| >= 1 && PlainTokens(ts)
    ensures Split(Join(ts)) == ts
  {
    if |ts| > 1 {
      var s := Join(ts);
      assert s == ts[0] + " " + Join(ts[1..]);
      assert s[|ts[0]|] == ' ';
      assert !NoWhitespace(s);
      PiecesOfJoin(ts);
    }
  }

  // ---- Long.parseLong and the (int) cast -------------------------------

  const LONG_MIN: int := -0x8000_0000_0000_0000
  const LONG_MAX: int := 0x7FFF_FFFF_FFFF_FFFF

  predicate IsDigit(c: char) {
    '0' <= c <= '9'
  }

  predicate AllDigits(s: string) {
    forall i :: 0 <= i < |s| ==> IsDigit(s[i])
  }

  /** The value of a string of decimal digits. */
  function DigitsValue(s: string): (v: nat)
    requires AllDigits(s)
    decreases |s|
  {
    if s == [] then 0
    else DigitsValue(s[..|s| - 1]) * 10 + (s[|s| - 1] as int - '0' as int)
  }

  /** Long.parseLong: an optional sign and at least one decimal digit, with
      a value in the range of a 64-bit signed integer; anything else is a
      NumberFormatException (None). */
  function ParseLong(s: string): (r: Option<int>)
    ensures r.Some? ==> LONG_MIN <= r.value <= LONG_MAX
    ensures r.Some? ==> s != []
  {
    var negative := s != [] && s[0] == '-';
    var digits := if s != [] && (s[0] == '-' || s[0] == '+') then s[1..] else s;
    if digits == [] || !AllDigits(digits) then None
    else
      var v: int := if negative then -(DigitsValue(digits) as int) else DigitsValue(digits);
      if LONG_MIN <= v <= LONG_MAX then Some(v) else None
  }

  /** The decimal notation of a natural number, without sign or leading
      zeros. */
  function DecimalString(n: nat): (s: string)
    ensures s != [] && AllDigits(s)
  {
    if n < 10 then [('0' as int + n) as char]
    else DecimalString(n / 10) + [('0' as int + n % 10) as char]
  }

  lemma {:induction false} DigitsValueOfDecimal(n: nat)
    ensures DigitsValue(DecimalString(n)) == n
  {
    if n >= 10 {
      var s := DecimalString(n);
      assert s[..|s| - 1] == DecimalString(n / 10);
      DigitsValueOfDecimal(n / 10);
    }
  }

  /** Round trip: parseLong reads back the decimal notation of every length
      a long can hold. */
  lemma ParseDecimal(n: nat)
    requires n <= LONG_MAX
    ensures ParseLong(DecimalString(n)) == Some(n)
  {
    DigitsValueOfDecimal(n);
  }

  /** Java's (int) narrowing of a long: keep the low 32 bits, read them as
      a two's-complement value. */
  function ToInt32(x: int): (r: int)
    ensures -0x8000_0000 <= r < 0x8000_0000
    ensures -0x8000_0000 <= x < 0x8000_0000 ==> r == x
  {
    (x + 0x8000_0000) % 0x1_0000_0000 - 0x8000_0000
  }
}
