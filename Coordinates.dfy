/**
 * Coordinate text to integers, the stream pipeline the square service runs on
 * every X and Y text: drop every character that is not an ASCII digit or a
 * comma, split on commas, and parse each token with Integer.parseInt.
 */
module Coordinates {
  import opened JavaLang

  /** The characters the regular expression `[^\d,]` leaves in place. */
  predicate IsKept(c: char) { IsDigit(c) || c == ',' }

  predicate AllKept(s: string) { forall k :: 0 <= k < |s| ==> IsKept(s[k]) }

  /** `replaceAll("[^\\d,]", "")`: the kept characters of `s`, in order. */
  function Strip(s: string): (t: string)
    ensures AllKept(t)
    ensures |t| <= |s|
  {
    if s == [] then [] else (if IsKept(s[0]) then [s[0]] else []) + Strip(s[1..])
  }

  /**
   * `mapToInt(Integer::parseInt).toArray()`: every token parsed in order; the
   * first token that does not parse raises its NumberFormatException.
   */
  function ParseAll(toks: seq<string>): (r: Result<seq<int>, Exception>)
    ensures r.Ok? ==> |r.value| == |toks| && forall k :: 0 <= k < |toks| ==> 0 <= r.value[k] <= MaxInt
    ensures r.Err? ==> r.error.NumberFormatException?
  {
    if toks == [] then Ok([])
    else
      match ParseInt(toks[0])
      case Err(e) => Err(e)
      case Ok(v) =>
        match ParseAll(toks[1..])
        case Err(e) => Err(e)
        case Ok(vs) => Ok([v] + vs)
  }

  /**
   * The parse succeeds exactly when every token parses, and then gives each
   * token's value; otherwise it fails with the exception of the first token
   * that does not parse.
   */
  lemma {:induction false} ParseAllMeaning(toks: seq<string>)
    ensures ParseAll(toks).Ok? <==> forall k :: 0 <= k < |toks| ==> ParseInt(toks[k]).Ok?
    ensures ParseAll(toks).Ok? ==> forall k :: 0 <= k < |toks| ==> ParseAll(toks).value[k] == ParseInt(toks[k]).value
    ensures ParseAll(toks).Err? ==>
              exists k :: 0 <= k < |toks| && ParseInt(toks[k]) == Err(ParseAll(toks).error)
                          && forall m :: 0 <= m < k ==> ParseInt(toks[m]).Ok?
    decreases |toks|
  {
    if toks != [] {
      var rest := toks[1..];
      ParseAllMeaning(rest);
      assert forall k :: 1 <= k < |toks| ==> toks[k] == rest[k - 1];
      if ParseInt(toks[0]).Ok? && ParseAll(rest).Err? {
        var k :| 0 <= k < |rest| && ParseInt(rest[k]) == Err(ParseAll(rest).error)
                 && forall m :: 0 <= m < k ==> ParseInt(rest[m]).Ok?;
        assert toks[k + 1] == rest[k];
      }
    }
  }

  /** The tokens `split(",")` produces from stripped text. */
  function Tokens(s: string): seq<string>
  {
    JavaSplit(Strip(s))
  }

  /** Lines 63-72: one coordinate text to its integers, or the parse failure. */
  function ParseCoordinates(s: string): (r: Result<seq<int>, Exception>)
    ensures r.Ok? ==> forall k :: 0 <= k < |r.value| ==> 0 <= r.value[k] <= MaxInt
    ensures r.Err? ==> r.error.NumberFormatException?
  {
    ParseAll(Tokens(s))
  }

  // ---------------------------------------------------------------------------
  // Tokens of stripped text are digit strings

  lemma {:induction false} SplitAllKept(t: string)
    requires AllKept(t)
    ensures forall k :: 0 <= k < |SplitAll(t)| ==> IsDigits(SplitAll(t)[k])
    decreases |t|
  {
    if t != [] {
      SplitAllKept(t[1..]);
      var rest := SplitAll(t[1..]);
      if t[0] != ',' {
        assert IsDigit(t[0]);
        assert IsDigits([t[0]] + rest[0]) by {
          forall m | 0 <= m < |[t[0]] + rest[0]| ensures IsDigit(([t[0]] + rest[0])[m]) {
            if m > 0 { assert ([t[0]] + rest[0])[m] == rest[0][m - 1]; }
          }
        }
      }
    }
  }

  /**
   * The tokens of any text are digit strings, so a token fails to parse
   * exactly when it is empty or its value exceeds 2147483647; the parse fails
   * exactly when some token does, and it then names the first such token.
   */
  lemma ParseFailure(s: string)
    ensures forall k :: 0 <= k < |Tokens(s)| ==> IsDigits(Tokens(s)[k])
    ensures ParseCoordinates(s).Err? <==>
              exists k :: 0 <= k < |Tokens(s)| && (Tokens(s)[k] == [] || DecimalValue(Tokens(s)[k]) > MaxInt)
    ensures ParseCoordinates(s).Err? ==>
              exists k :: 0 <= k < |Tokens(s)| && ParseCoordinates(s).error == NumberFormatException(Tokens(s)[k])
                          && (Tokens(s)[k] == [] || DecimalValue(Tokens(s)[k]) > MaxInt)
  {
    SplitKeptTokens(Strip(s));
    ParseAllMeaning(Tokens(s));
  }

  lemma SplitKeptTokens(t: string)
    requires AllKept(t)
    ensures forall k :: 0 <= k < |JavaSplit(t)| ==> IsDigits(JavaSplit(t)[k])
  {
    if ',' !in t {
      forall m | 0 <= m < |t| ensures IsDigit(t[m]) {
        assert t[m] in t;
      }
    } else {
      SplitAllKept(t);
    }
  }

  // ---------------------------------------------------------------------------
  // Insensitivity to stray characters

  /** Stripping distributes over concatenation. */
  lemma {:induction false} StripAppend(a: string, b: string)
    ensures Strip(a + b) == Strip(a) + Strip(b)
    decreases |a|
  {
    if a != [] {
      var h := if IsKept(a[0]) then [a[0]] else [];
      assert (a + b)[0] == a[0];
      assert (a + b)[1..] == a[1..] + b;
      assert Strip(a + b) == h + Strip(a[1..] + b);
      StripAppend(a[1..], b);
      assert h + (Strip(a[1..]) + Strip(b)) == (h + Strip(a[1..])) + Strip(b);
    } else {
      assert a + b == b;
    }
  }

  /** Text made only of digits and commas is left alone by stripping. */
  lemma {:induction false} StripKept(t: string)
    requires AllKept(t)
    ensures Strip(t) == t
    decreases |t|
  {
    if t != [] {
      StripKept(t[1..]);
      assert t == [t[0]] + t[1..];
    }
  }

  /** Stripping twice is stripping once, so stray characters never reach the parser. */
  lemma StripIdempotent(s: string)
    ensures Strip(Strip(s)) == Strip(s)
  {
    StripKept(Strip(s));
  }

  /** Inserting any character other than a digit or a comma anywhere leaves the parse unchanged. */
  lemma StrayCharacterIgnored(a: string, c: char, b: string)
    requires !IsKept(c)
    ensures ParseCoordinates(a + [c] + b) == ParseCoordinates(a + b)
  {
    StripAppend(a + [c], b);
    StripAppend(a, [c]);
    assert Strip([c]) == [] by { assert [c][1..] == []; }
    StripAppend(a, b);
    assert Strip(a + [c] + b) == Strip(a + b);
  }

  /** The text's only effect on the parse is through its stripped form. */
  lemma ParseOfStripped(s: string)
    ensures ParseCoordinates(Strip(s)) == ParseCoordinates(s)
  {
    StripIdempotent(s);
  }

  /** Brackets and blanks are ignored: "[1, 2, 3]" and "1,2,3" both read as [1, 2, 3]. */
  lemma BracketedListExample()
    ensures ParseCoordinates("[1, 2, 3]") == ParseCoordinates("1,2,3") == Ok([1, 2, 3])
  {
    BracketedStrip();
    ParseOfStripped("[1, 2, 3]");
    PlainListParse();
  }

  lemma BracketedStrip()
    ensures Strip("[1, 2, 3]") == "1,2,3"
  {
    var s := "[1, 2, 3]";
    assert Strip(s[8..]) == [];
    assert Strip(s[7..]) == "3";
    assert Strip(s[6..]) == "3";
    assert Strip(s[5..]) == ",3";
    assert Strip(s[4..]) == "2,3";
    assert Strip(s[3..]) == "2,3";
    assert Strip(s[2..]) == ",2,3";
    assert Strip(s[1..]) == "1,2,3";
  }

  lemma PlainListParse()
    ensures ParseCoordinates("1,2,3") == Ok([1, 2, 3])
  {
    PlainListTokens();
    PlainListValues();
  }

  lemma PlainListTokens()
    ensures Tokens("1,2,3") == ["1", "2", "3"]
  {
    StripKept("1,2,3");
    var toks := ["1", "2", "3"];
    SplitAllJoin(toks);
    assert JoinComma(toks) == "1,2,3";
    assert "1,2,3"[1] == ',';
  }

  lemma PlainListValues()
    ensures ParseAll(["1", "2", "3"]) == Ok([1, 2, 3])
  {
    SingleDigitParse("1", 1);
    SingleDigitParse("2", 2);
    SingleDigitParse("3", 3);
    assert ["3"][1..] == [] && [3] + [] == [3];
    assert ParseAll(["3"]) == Ok([3]);
    assert ["2", "3"][1..] == ["3"] && [2] + [3] == [2, 3];
    assert ParseAll(["2", "3"]) == Ok([2, 3]);
    assert ["1", "2", "3"][1..] == ["2", "3"] && [1] + [2, 3] == [1, 2, 3];
  }

  lemma SingleDigitParse(tok: string, v: int)
    requires |tok| == 1 && IsDigit(tok[0]) && v == DigitValue(tok[0])
    ensures ParseInt(tok) == Ok(v)
  {
    assert tok[..0] == [];
    assert DecimalValue(tok) == v;
  }

  // ---------------------------------------------------------------------------
  // Failure cases and trailing commas

  /** Blank text (nothing left after stripping) is the single empty token, which fails. */
  lemma BlankFails(s: string)
    requires Strip(s) == []
    ensures ParseCoordinates(s) == Err(NumberFormatException(""))
  {
    assert Tokens(s) == [""];
  }

  /** Among split pieces with a non-empty piece after position `i`, dropping trailing empties keeps position `i`. */
  lemma DropKeeps(toks: seq<string>, i: nat, j: nat)
    requires i < j < |toks| && toks[j] != []
    ensures i < |DropTrailingEmpty(toks)| && DropTrailingEmpty(toks)[i] == toks[i]
  {
  }

  /** A piece of text containing a digit splits into some non-empty piece. */
  lemma {:induction false} SplitAllHasNonEmpty(w: string, p: nat)
    requires p < |w| && IsDigit(w[p])
    ensures exists j :: 0 <= j < |SplitAll(w)| && SplitAll(w)[j] != []
    decreases |w|
  {
    var rest := SplitAll(w[1..]);
    if p == 0 {
      assert SplitAll(w)[0] == [w[0]] + rest[0];
    } else {
      SplitAllHasNonEmpty(w[1..], p - 1);
      var j :| 0 <= j < |rest| && rest[j] != [];
      if w[0] == ',' {
        assert SplitAll(w)[j + 1] == rest[j];
      } else if j == 0 {
        assert SplitAll(w)[0] == [w[0]] + rest[0];
      } else {
        assert SplitAll(w)[j] == rest[j];
      }
    }
  }

  /** The last piece of text that is empty or ends in a comma is empty. */
  lemma SplitAllLastEmpty(u: string)
    requires u == [] || u[|u| - 1] == ','
    ensures SplitAll(u)[|SplitAll(u)| - 1] == []
  {
    if u != [] {
      var v := u[..|u| - 1];
      assert u == v + [','] + [];
      SplitAllAtComma(v, []);
    }
  }

  /**
   * An empty token that is not trailing makes the parse fail: a comma at the
   * start of the stripped text, or right after another comma, followed later by
   * a digit ("1,,3", ",1").
   */
  lemma EmptyInnerTokenFails(s: string, u: string, w: string, p: nat)
    requires Strip(s) == u + [','] + w
    requires u == [] || u[|u| - 1] == ','
    requires p < |w| && IsDigit(w[p])
    ensures ParseCoordinates(s).Err?
  {
    var i := EmptyInnerToken(Strip(s), u, w, p);
    ParseAllEmptyToken(Tokens(s), i);
  }

  /** The position of the empty token in the split of u + "," + w. */
  lemma EmptyInnerToken(t: string, u: string, w: string, p: nat) returns (i: nat)
    requires t == u + [','] + w
    requires u == [] || u[|u| - 1] == ','
    requires p < |w| && IsDigit(w[p])
    ensures i < |JavaSplit(t)| && JavaSplit(t)[i] == []
  {
    assert t[|u|] == ',';
    SplitAllAtComma(u, w);
    SplitAllLastEmpty(u);
    SplitAllHasNonEmpty(w, p);
    var all := SplitAll(t);
    var j :| 0 <= j < |SplitAll(w)| && SplitAll(w)[j] != [];
    i := |SplitAll(u)| - 1;
    assert all[i] == [];
    assert all[|SplitAll(u)| + j] == SplitAll(w)[j];
    DropKeeps(all, i, |SplitAll(u)| + j);
  }

  /** A token list with an empty token does not parse. */
  lemma ParseAllEmptyToken(toks: seq<string>, i: nat)
    requires i < |toks| && toks[i] == []
    ensures ParseAll(toks).Err?
  {
    ParseAllMeaning(toks);
    assert !ParseInt(toks[i]).Ok?;
  }

  /** Concrete instances of the failing shapes. */
  lemma FailingExamples()
    ensures ParseCoordinates("").Err?
    ensures ParseCoordinates("1,,3").Err?
    ensures ParseCoordinates(",1").Err?
  {
    BlankFails("");
    StripKept("1,,3");
    EmptyInnerTokenFails("1,,3", "1,", "3", 0);
    StripKept(",1");
    EmptyInnerTokenFails(",1", "", "1", 0);
  }

  /** A trailing comma is dropped by `split`, unless the text is otherwise blank ("" fails, "," gives []). */
  lemma TrailingCommaIgnored(s: string)
    requires Strip(s) != []
    ensures ParseCoordinates(s + ",") == ParseCoordinates(s)
  {
    var t := Strip(s);
    StripAppend(s, ",");
    assert Strip(",") == ",";
    assert Strip(s + ",") == t + [','];
    SplitAllAtComma(t, []);
    assert t + [','] == t + [','] + [];
    var all := SplitAll(t);
    assert SplitAll(t + [',']) == all + [[]];
    assert DropTrailingEmpty(all + [[]]) == DropTrailingEmpty(all);
    assert ',' in t + [','] by { assert (t + [','])[|t|] == ','; }
    if ',' !in t {
      SplitAllNoComma(t);
    }
  }

  /**
   * A single number parses exactly when it fits in a Java int: 2147483647 is
   * the largest value accepted, 2147483648 raises NumberFormatException.
   */
  lemma SingleNumber(n: nat)
    ensures ParseCoordinates(NatToString(n))
         == if n <= MaxInt then Ok([n]) else Err(NumberFormatException(NatToString(n)))
  {
    var t := NatToString(n);
    NatToStringValue(n);
    assert AllKept(t);
    StripKept(t);
    DigitsNoComma(t);
    assert Tokens(t) == [t];
    assert [t][1..] == [];
    assert ParseAll([t][1..]) == Ok([]);
    assert ParseInt(t) == if n <= MaxInt then Ok(n) else Err(NumberFormatException(t));
    assert [n] + [] == [n];
    assert ParseCoordinates(t) == ParseAll([t]);
  }

  // ---------------------------------------------------------------------------
  // Round trip with the joined id text

  /** A digit-only token has no comma. */
  lemma DigitsNoComma(tok: string)
    requires IsDigits(tok)
    ensures ',' !in tok
  {
    assert forall k :: 0 <= k < |tok| ==> tok[k] != ',';
  }

  /**
   * Printing a non-empty list of Java ints in range, joined with commas, and
   * parsing the text back gives the list.
   */
  lemma ParseJoinedDecimals(vs: seq<int>)
    requires |vs| >= 1
    requires forall k :: 0 <= k < |vs| ==> 0 <= vs[k] <= MaxInt
    ensures ParseCoordinates(JoinComma(IdStrings(vs))) == Ok(vs)
  {
    var toks := IdStrings(vs);
    forall k | 0 <= k < |toks| ensures IsDigits(toks[k]) && toks[k] != [] {
      assert toks[k] == NatToString(vs[k]);
    }
    TokensOfJoined(toks);
    ParseAllDecimals(vs);
  }

  /** Each printed value parses back to itself. */
  lemma {:induction false} ParseAllDecimals(vs: seq<int>)
    requires forall k :: 0 <= k < |vs| ==> 0 <= vs[k] <= MaxInt
    ensures ParseAll(IdStrings(vs)) == Ok(vs)
    decreases |vs|
  {
    if vs != [] {
      NatToStringValue(vs[0]);
      ParseAllDecimals(vs[1..]);
      assert IdStrings(vs)[1..] == IdStrings(vs[1..]);
      assert vs == [vs[0]] + vs[1..];
    }
  }

  /** The text joined from non-empty digit strings splits back into them. */
  lemma TokensOfJoined(toks: seq<string>)
    requires |toks| >= 1
    requires forall k :: 0 <= k < |toks| ==> IsDigits(toks[k]) && toks[k] != []
    ensures Tokens(JoinComma(toks)) == toks
  {
    var t := JoinComma(toks);
    forall k | 0 <= k < |toks| ensures ',' !in toks[k] {
      DigitsNoComma(toks[k]);
    }
    JoinedKept(toks);
    StripKept(t);
    assert Tokens(t) == JavaSplit(t);
    if |toks| == 1 {
      DigitsNoComma(toks[0]);
      assert t == toks[0];
    } else {
      SplitAllJoin(toks);
      assert t[|toks[0]|] == ',';
      assert ',' in t;
      assert toks[|toks| - 1] != [];
      assert JavaSplit(t) == DropTrailingEmpty(toks);
    }
  }

  lemma {:induction false} JoinedKept(toks: seq<string>)
    requires forall k :: 0 <= k < |toks| ==> IsDigits(toks[k])
    ensures AllKept(JoinComma(toks))
    decreases |toks|
  {
    if |toks| > 1 {
      JoinedKept(toks[1..]);
      var t := JoinComma(toks);
      var h := toks[0];
      assert t == h + [','] + JoinComma(toks[1..]);
      forall m | 0 <= m < |t| ensures IsKept(t[m]) {
        if m < |h| { assert t[m] == h[m]; }
        else if m > |h| { assert t[m] == JoinComma(toks[1..])[m - |h| - 1]; }
      }
    } else if |toks| == 1 {
      assert JoinComma(toks) == toks[0];
    }
  }
}
