/**
 * The pieces of the Java platform that the square service relies on, stated
 * as Dafny functions: exceptions and their messages, Integer.parseInt on the
 * digit-only tokens the service feeds it, String.split(",") with its
 * trailing-empty-token rule, Collectors.joining(","), Integer.toString and
 * Java's truncating integer division.
 */
module JavaLang {

  datatype Result<+T, +E> = Ok(value: T) | Err(error: E)

  datatype Option<+T> = None | Some(value: T)

  /** Largest value of a Java `int`. */
  const MaxInt: int := 0x7fff_ffff

  /** The exceptions the modelled code can raise or propagate. */
  datatype Exception =
    | NumberFormatException(input: string)
    | ArrayIndexOutOfBoundsException(index: int, length: int)
    | DataAccessException(message: string)
    | RuntimeException(message: string)

  /**
   * `getMessage()` of each exception. The data-access and runtime exceptions
   * carry their message as given; a NumberFormatException's message quotes
   * the offending token (`NumberFormatMessage`).
   */
  function Message(e: Exception): (m: string)
    ensures e.ArrayIndexOutOfBoundsException? ==> "Index " <= m
    ensures e.DataAccessException? || e.RuntimeException? ==> m == e.message
  {
    match e
    case NumberFormatException(input) => "For input string: \"" + input + "\""
    case ArrayIndexOutOfBoundsException(index, length) =>
      "Index " + IntToString(index) + " out of bounds for length " + IntToString(length)
    case DataAccessException(message) => message
    case RuntimeException(message) => message
  }

  /** The message of a NumberFormatException spells out the token, so different tokens give different messages. */
  lemma NumberFormatMessage(tok: string, other: string)
    ensures Message(NumberFormatException(tok))[19..|tok| + 19] == tok
    ensures Message(NumberFormatException(tok)) == Message(NumberFormatException(other)) ==> tok == other
  {
    var m := Message(NumberFormatException(tok));
    assert m == "For input string: \"" + tok + "\"";
    assert |"For input string: \""| == 19;
    assert m[19..|tok| + 19] == tok;
    if m == Message(NumberFormatException(other)) {
      assert |other| == |tok|;
      assert Message(NumberFormatException(other))[19..|other| + 19] == other;
    }
  }

  // ---------------------------------------------------------------------------
  // Decimal digits

  predicate IsDigit(c: char) { '0' <= c <= '9' }

  predicate IsDigits(s: string) { forall k :: 0 <= k < |s| ==> IsDigit(s[k]) }

  /** The value of a decimal digit (0 for any other character). */
  function DigitValue(c: char): nat
  {
    if IsDigit(c) then (c as int) - ('0' as int) else 0
  }

  function DigitChar(d: nat): (c: char)
    requires d < 10
    ensures IsDigit(c) && DigitValue(c) == d
  {
    (('0' as int) + d) as char
  }

  /** The value of a string of decimal digits, read most significant first. */
  function DecimalValue(s: string): nat
  {
    if s == [] then 0 else 10 * DecimalValue(s[..|s| - 1]) + DigitValue(s[|s| - 1])
  }

  /** The shortest decimal spelling of a natural number (`Integer.toString` of a non-negative int). */
  function NatToString(n: nat): (s: string)
    ensures |s| >= 1 && IsDigits(s)
    ensures n > 0 ==> s[0] != '0'
  {
    if n < 10 then [DigitChar(n)] else NatToString(n / 10) + [DigitChar(n % 10)]
  }

  /** `Integer.toString`: a minus sign before the magnitude of a negative value. */
  function IntToString(i: int): (s: string)
    ensures |s| >= 1
    ensures i >= 0 ==> s == NatToString(i)
  {
    if i < 0 then "-" + NatToString(-i) else NatToString(i)
  }

  /** `map(Object::toString)` over a list of ints. */
  function IdStrings(ids: seq<int>): (toks: seq<string>)
    ensures |toks| == |ids|
    ensures forall k :: 0 <= k < |ids| ==> toks[k] == IntToString(ids[k])
  {
    if ids == [] then [] else [IntToString(ids[0])] + IdStrings(ids[1..])
  }

  /** Reading back a printed natural number gives the number. */
  lemma {:induction false} NatToStringValue(n: nat)
    ensures DecimalValue(NatToString(n)) == n
  {
    if n >= 10 {
      var s := NatToString(n);
      assert s[..|s| - 1] == NatToString(n / 10);
      NatToStringValue(n / 10);
    }
  }

  // ---------------------------------------------------------------------------
  // Integer.parseInt

  /**
   * `Integer.parseInt` of a token without a sign (the only tokens the service
   * ever passes to it): an empty token, a token with a character other than an
   * ASCII digit, or one whose value does not fit in a Java `int` raises
   * NumberFormatException naming the token.
   */
  function ParseInt(tok: string): (r: Result<int, Exception>)
    ensures r.Ok? <==> tok != [] && IsDigits(tok) && DecimalValue(tok) <= MaxInt
    ensures r.Ok? ==> 0 <= r.value <= MaxInt && r.value == DecimalValue(tok)
    ensures r.Err? ==> r.error == NumberFormatException(tok)
  {
    if tok == [] || !IsDigits(tok) then Err(NumberFormatException(tok))
    else
      var v := DecimalValue(tok);
      if v > MaxInt then Err(NumberFormatException(tok)) else Ok(v)
  }

  // ---------------------------------------------------------------------------
  // String.split(",") and Collectors.joining(",")

  /** Every piece of `t` between commas, empty pieces included (split with a negative limit). */
  function SplitAll(t: string): (toks: seq<string>)
    ensures |toks| >= 1
    ensures forall k :: 0 <= k < |toks| ==> ',' !in toks[k]
    decreases |t|
  {
    if t == [] then [[]]
    else
      var rest := SplitAll(t[1..]);
      if t[0] == ',' then [[]] + rest
      else [[t[0]] + rest[0]] + rest[1..]
  }

  /** Removes the empty strings at the end of a token list, and only those. */
  function DropTrailingEmpty(toks: seq<string>): (r: seq<string>)
    ensures |r| <= |toks| && r == toks[..|r|]
    ensures r == [] || r[|r| - 1] != []
    ensures forall k :: |r| <= k < |toks| ==> toks[k] == []
  {
    if |toks| > 0 && toks[|toks| - 1] == [] then DropTrailingEmpty(toks[..|toks| - 1]) else toks
  }

  /**
   * `t.split(",")`: when the separator does not occur at all the whole string
   * is the only token; otherwise every piece is kept except trailing empty ones.
   */
  function JavaSplit(t: string): (toks: seq<string>)
    ensures ',' !in t ==> toks == [t]
    ensures ',' in t ==> |toks| <= |SplitAll(t)| && toks == SplitAll(t)[..|toks|]
    ensures ',' in t ==> toks == [] || toks[|toks| - 1] != []
    ensures ',' in t ==> forall k :: |toks| <= k < |SplitAll(t)| ==> SplitAll(t)[k] == []
  {
    if ',' !in t then [t] else DropTrailingEmpty(SplitAll(t))
  }

  /**
   * `Collectors.joining(",")` over strings: the text starts with the first
   * piece, followed by a comma when more pieces follow, and has at least one
   * character per separator.
   */
  function JoinComma(toks: seq<string>): (r: string)
    ensures toks != [] ==> toks[0] <= r
    ensures |toks| >= 2 ==> |toks[0]| < |r| && r[|toks[0]|] == ','
    ensures |r| >= |toks| - 1
  {
    if |toks| == 0 then ""
    else if |toks| == 1 then toks[0]
    else toks[0] + "," + JoinComma(toks[1..])
  }

  /** Splitting and joining are inverse: joining the pieces gives the string back. */
  lemma {:induction false} JoinSplitAll(t: string)
    ensures JoinComma(SplitAll(t)) == t
    decreases |t|
  {
    if t != [] {
      var rest := SplitAll(t[1..]);
      JoinSplitAll(t[1..]);
      if t[0] == ',' {
        assert t == [','] + t[1..];
      } else {
        if |rest| == 1 {
          assert t == [t[0]] + rest[0];
        } else {
          assert ([[t[0]] + rest[0]] + rest[1..])[1..] == rest[1..];
          assert t == [t[0]] + t[1..];
        }
      }
    }
  }

  /** Splitting a string at a comma splits its two sides independently. */
  lemma {:induction false} SplitAllAtComma(a: string, b: string)
    ensures SplitAll(a + [','] + b) == SplitAll(a) + SplitAll(b)
    decreases |a|
  {
    if a == [] {
      assert a + [','] + b == [','] + b;
      assert ([','] + b)[1..] == b;
    } else {
      assert (a + [','] + b)[1..] == a[1..] + [','] + b;
      SplitAllAtComma(a[1..], b);
    }
  }

  /** A string without commas is its own single piece. */
  lemma {:induction false} SplitAllNoComma(a: string)
    requires ',' !in a
    ensures SplitAll(a) == [a]
    decreases |a|
  {
    if a != [] {
      assert ',' !in a[1..] by {
        forall c | c in a[1..] ensures c != ',' { assert c in a; }
      }
      SplitAllNoComma(a[1..]);
      assert a == [a[0]] + a[1..];
    }
  }

  /** Joining comma-free pieces and splitting the result gives the pieces back. */
  lemma {:induction false} SplitAllJoin(toks: seq<string>)
    requires |toks| >= 1
    requires forall k :: 0 <= k < |toks| ==> ',' !in toks[k]
    ensures SplitAll(JoinComma(toks)) == toks
    decreases |toks|
  {
    if |toks| == 1 {
      SplitAllNoComma(toks[0]);
    } else {
      SplitAllNoComma(toks[0]);
      SplitAllJoin(toks[1..]);
      SplitAllAtComma(toks[0], JoinComma(toks[1..]));
      assert toks == [toks[0]] + toks[1..];
    }
  }

  // ---------------------------------------------------------------------------
  // Integer division

  function Abs(a: int): nat { if a < 0 then -a else a }

  /**
   * Java's `/` on ints: the quotient is truncated toward zero, so its magnitude
   * is the largest whose multiple of the divisor does not exceed the dividend,
   * and its sign is the product of the operands' signs. (Dafny's `/` is
   * Euclidean: -1 / -5 is 1 in Dafny and 0 in Java.)
   */
  function JavaDiv(a: int, b: int): (q: int)
    requires b != 0
    ensures Abs(q) * Abs(b) <= Abs(a) < Abs(q) * Abs(b) + Abs(b)
    ensures q > 0 ==> (a > 0) == (b > 0)
    ensures q < 0 ==> (a > 0) != (b > 0)
  {
    var m := Abs(a) / Abs(b);
    DivBounds(Abs(a), Abs(b));
    if (a < 0) == (b < 0) then m else -m
  }

  /** The quotient of naturals brackets the dividend between two multiples of the divisor. */
  lemma DivBounds(a: nat, b: nat)
    requires b > 0
    ensures (a / b) * b <= a < (a / b) * b + b
    ensures a / b == 0 || a >= b
  {
    var q, r := a / b, a % b;
    assert a == q * b + r && 0 <= r < b;
    if q > 0 {
      assert q * b == (q - 1) * b + b;
    }
  }
}
