/** Options: the conventional Some/None wrapper. */
module Options {
  datatype Option<+T> = None | Some(value: T)
}

/**
 * String helpers with the meaning JavaScript gives them in the job manager and
 * the upload route: decimal rendering of integers, String.prototype.trim,
 * split on the regular expression /\r?\n/, Array.prototype.join, slice(-n),
 * filter(Boolean), and the test /^Processing \d+\/\d+$/.
 */
module Text {
  import opened Options

  // ---------------------------------------------------------------------------
  // Digits and decimal rendering
  // ---------------------------------------------------------------------------

  /** The class \d of a JavaScript regular expression without the u flag. */
  predicate IsDigit(c: char) { '0' <= c <= '9' }

  predicate AllDigits(s: string) { forall i :: 0 <= i < |s| ==> IsDigit(s[i]) }

  function DigitChar(d: nat): (c: char)
    requires d < 10
    ensures IsDigit(c)
  {
    ('0' as int + d) as char
  }

  function DigitValue(c: char): (d: nat)
    requires IsDigit(c)
    ensures d < 10 && DigitChar(d) == c
  {
    c as int - '0' as int
  }

  /** How JavaScript's String() writes a non-negative integer: no sign, no leading zero. */
  function NatToDecimal(n: nat): (r: string)
    ensures |r| > 0 && AllDigits(r)
    ensures r[0] == '0' ==> n == 0
  {
    if n < 10 then [DigitChar(n)] else NatToDecimal(n / 10) + [DigitChar(n % 10)]
  }

  /** How JavaScript's String() writes an integer: a minus sign for negative values. */
  function IntToDecimal(n: int): (r: string)
    ensures |r| > 0
    ensures (r[0] == '-') == (n < 0)
  {
    if n < 0 then "-" + NatToDecimal(-n) else NatToDecimal(n)
  }

  /** The value a string of decimal digits denotes. */
  function DigitsValue(s: string): nat
    requires AllDigits(s)
  {
    if |s| == 0 then 0 else DigitsValue(s[..|s| - 1]) * 10 + DigitValue(s[|s| - 1])
  }

  /** Reading back the rendering of n gives n, so the rendering is injective. */
  lemma {:induction false} DecimalRoundTrip(n: nat)
    ensures DigitsValue(NatToDecimal(n)) == n
  {
    if n >= 10 {
      var r := NatToDecimal(n);
      assert r[..|r| - 1] == NatToDecimal(n / 10);
      DecimalRoundTrip(n / 10);
    }
  }

  /** Different numbers render differently. */
  lemma NatToDecimalInjective(m: nat, n: nat)
    requires NatToDecimal(m) == NatToDecimal(n)
    ensures m == n
  {
    DecimalRoundTrip(m);
    DecimalRoundTrip(n);
  }

  /** An integer renders as digits only (matches \d+) exactly when it is non-negative. */
  lemma IntToDecimalDigits(n: int)
    ensures AllDigits(IntToDecimal(n)) <==> n >= 0
  {
    if n < 0 {
      assert !IsDigit(IntToDecimal(n)[0]);
    }
  }

  // ---------------------------------------------------------------------------
  // String.prototype.trim
  // ---------------------------------------------------------------------------

  /** WhiteSpace and LineTerminator of ECMAScript: the characters trim() removes. */
  predicate IsJsSpace(c: char)
  {
    c == '\t' || c == '\n' || c == '\U{0B}' || c == '\U{0C}' || c == '\r' || c == ' '
    || c == '\U{A0}' || c == '\U{1680}' || ('\U{2000}' <= c <= '\U{200A}')
    || c == '\U{2028}' || c == '\U{2029}' || c == '\U{202F}' || c == '\U{205F}'
    || c == '\U{3000}' || c == '\U{FEFF}'
  }

  predicate AllSpace(s: string) { forall i :: 0 <= i < |s| ==> IsJsSpace(s[i]) }

  /** The longest suffix of s that does not start with white space. */
  function TrimStart(s: string): string
  {
    if |s| > 0 && IsJsSpace(s[0]) then TrimStart(s[1..]) else s
  }

  /** The longest prefix of s that does not end with white space. */
  function TrimEnd(s: string): string
  {
    if |s| > 0 && IsJsSpace(s[|s| - 1]) then TrimEnd(s[..|s| - 1]) else s
  }

  /** TrimStart drops a run of white space from the front and stops at a non-space. */
  lemma {:induction false} TrimStartSpec(s: string)
    ensures |TrimStart(s)| <= |s| && TrimStart(s) == s[|s| - |TrimStart(s)|..]
    ensures AllSpace(s[..|s| - |TrimStart(s)|])
    ensures TrimStart(s) == [] || !IsJsSpace(TrimStart(s)[0])
  {
    if |s| > 0 && IsJsSpace(s[0]) {
      TrimStartSpec(s[1..]);
      var r := TrimStart(s);
      assert s[..|s| - |r|] == [s[0]] + s[1..][..|s[1..]| - |r|];
    }
  }

  /** TrimEnd drops a run of white space from the end and stops at a non-space. */
  lemma {:induction false} TrimEndSpec(s: string)
    ensures |TrimEnd(s)| <= |s| && TrimEnd(s) == s[..|TrimEnd(s)|]
    ensures AllSpace(s[|TrimEnd(s)|..])
    ensures TrimEnd(s) == [] || !IsJsSpace(TrimEnd(s)[|TrimEnd(s)| - 1])
  {
    if |s| > 0 && IsJsSpace(s[|s| - 1]) {
      TrimEndSpec(s[..|s| - 1]);
      var r := TrimEnd(s);
      assert s[|r|..] == s[..|s| - 1][|r|..] + [s[|s| - 1]];
    }
  }

  /** String.prototype.trim: white space removed from both ends. */
  function Trim(s: string): string
  {
    TrimStart(TrimEnd(s))
  }

  /** trim() gives the empty string exactly when the text is all white space. */
  lemma TrimEmptyIff(s: string)
    ensures Trim(s) == [] <==> AllSpace(s)
  {
    var e := TrimEnd(s);
    var r := TrimStart(e);
    TrimEndSpec(s);
    TrimStartSpec(e);
    assert r != [] ==> r[|r| - 1] == e[|e| - 1];
    assert AllSpace(s) ==> e == [];
    assert e != [] ==> r != [] by {
      if e != [] {
        assert !IsJsSpace(e[|e| - 1]);
        assert e[..|e|] == e;
      }
    }
    assert e == [] ==> s[|e|..] == s;
  }

  /** What trim() returns neither starts nor ends with white space. */
  lemma TrimEnds(s: string)
    ensures Trim(s) == [] || (!IsJsSpace(Trim(s)[0]) && !IsJsSpace(Trim(s)[|Trim(s)| - 1]))
  {
    var e := TrimEnd(s);
    var r := TrimStart(e);
    TrimEndSpec(s);
    TrimStartSpec(e);
    assert r != [] ==> r[|r| - 1] == e[|e| - 1];
  }

  /** The characters trim() keeps are a piece of s with only white space around it. */
  lemma TrimIsInfix(s: string)
    ensures exists k :: 0 <= k <= |s| - |Trim(s)| && Trim(s) == s[k..][..|Trim(s)|]
  {
    var e := TrimEnd(s);
    TrimEndSpec(s);
    TrimStartSpec(e);
    var k := |e| - |Trim(s)|;
    assert Trim(s) == e[k..];
    assert e[k..] == s[k..][..|Trim(s)|];
  }

  /** Text ending in a non-space character keeps that end through trim(). */
  lemma {:induction false} TrimEndStops(a: string, b: string)
    requires b != [] && !IsJsSpace(b[|b| - 1])
    ensures TrimEnd(a + b) == a + b
  {
  }

  /** Leading white space of a is all trim() removes in front of a + b, when a has a non-space. */
  lemma {:induction false} TrimStartConcat(a: string, b: string)
    requires !AllSpace(a)
    ensures TrimStart(a + b) == TrimStart(a) + b
  {
    if IsJsSpace(a[0]) {
      assert (a + b)[1..] == a[1..] + b;
      assert !AllSpace(a[1..]) by {
        var i :| 0 <= i < |a| && !IsJsSpace(a[i]);
        assert a[1..][i - 1] == a[i];
      }
      TrimStartConcat(a[1..], b);
    }
  }

  // ---------------------------------------------------------------------------
  // split(/\r?\n/), join, slice(-n), filter(Boolean)
  // ---------------------------------------------------------------------------

  /**
   * String.prototype.split(/\r?\n/): the pieces between line breaks, where a
   * line break is "\r\n" or a lone "\n"; a "\r" not followed by "\n" stays in
   * its piece. There is always at least one piece.
   */
  function SplitLines(s: string): (r: seq<string>)
    ensures |r| >= 1
    ensures forall i :: 0 <= i < |r| ==> '\n' !in r[i]
  {
    if |s| == 0 then [""]
    else if s[0] == '\n' then [""] + SplitLines(s[1..])
    else if |s| >= 2 && s[0] == '\r' && s[1] == '\n' then [""] + SplitLines(s[2..])
    else
      var rest := SplitLines(s[1..]);
      [[s[0]] + rest[0]] + rest[1..]
  }

  /** Array.prototype.join(sep) on an array of strings. */
  function JoinWith(pieces: seq<string>, sep: string): string
  {
    if |pieces| == 0 then ""
    else if |pieces| == 1 then pieces[0]
    else pieces[0] + sep + JoinWith(pieces[1..], sep)
  }

  /** s with every "\r\n" line break written as a plain "\n". */
  function CrlfToLf(s: string): string
  {
    if |s| == 0 then ""
    else if |s| >= 2 && s[0] == '\r' && s[1] == '\n' then "\n" + CrlfToLf(s[2..])
    else [s[0]] + CrlfToLf(s[1..])
  }

  /**
   * Joining builds the text from the left, as Array.prototype.join does:
   * one more piece adds the separator and that piece at the end.
   */
  lemma {:induction false} JoinWithSnoc(pieces: seq<string>, x: string, sep: string)
    requires |pieces| >= 1
    ensures JoinWith(pieces + [x], sep) == JoinWith(pieces, sep) + sep + x
  {
    if |pieces| == 1 {
      assert pieces + [x] == [pieces[0], x];
    } else {
      assert (pieces + [x])[1..] == pieces[1..] + [x];
      JoinWithSnoc(pieces[1..], x, sep);
    }
  }

  lemma JoinExtendsFirst(c: char, pieces: seq<string>, sep: string)
    requires |pieces| >= 1
    ensures JoinWith([[c] + pieces[0]] + pieces[1..], sep) == [c] + JoinWith(pieces, sep)
  {
  }

  /**
   * The pieces SplitLines returns, joined again with "\n", give back s up to the
   * spelling of its line breaks; as no piece holds a "\n", this fixes the pieces.
   */
  lemma {:induction false} JoinSplitLines(s: string)
    ensures JoinWith(SplitLines(s), "\n") == CrlfToLf(s)
  {
    if |s| == 0 {
    } else if s[0] == '\n' {
      JoinSplitLines(s[1..]);
    } else if |s| >= 2 && s[0] == '\r' && s[1] == '\n' {
      JoinSplitLines(s[2..]);
    } else {
      JoinSplitLines(s[1..]);
      JoinExtendsFirst(s[0], SplitLines(s[1..]), "\n");
    }
  }

  /** A line: text without line terminators. */
  predicate IsLine(s: string) { '\n' !in s && '\r' !in s }

  /** Splitting a line followed by a line break yields that line first. */
  lemma {:induction false} SplitAfterLine(a: string, t: string)
    requires IsLine(a)
    ensures SplitLines(a + "\n" + t) == [a] + SplitLines(t)
  {
    if |a| == 0 {
      assert a + "\n" + t == "\n" + t;
      assert ("\n" + t)[1..] == t;
    } else {
      assert (a + "\n" + t)[1..] == a[1..] + "\n" + t;
      assert IsLine(a[1..]) by {
        assert forall c :: c in a[1..] ==> c in a;
      }
      SplitAfterLine(a[1..], t);
      assert [a[0]] + a[1..] == a;
    }
  }

  /** Lines joined with "\n" split back into the same lines. */
  lemma {:induction false} SplitJoinLines(lines: seq<string>)
    requires |lines| >= 1
    requires forall i :: 0 <= i < |lines| ==> IsLine(lines[i])
    ensures SplitLines(JoinWith(lines, "\n")) == lines
  {
    if |lines| == 1 {
      SplitSingleLine(lines[0]);
    } else {
      SplitJoinLines(lines[1..]);
      SplitAfterLine(lines[0], JoinWith(lines[1..], "\n"));
    }
  }

  lemma {:induction false} SplitSingleLine(a: string)
    requires IsLine(a)
    ensures SplitLines(a) == [a]
  {
    if |a| > 0 {
      assert IsLine(a[1..]) by {
        assert forall c :: c in a[1..] ==> c in a;
      }
      SplitSingleLine(a[1..]);
      assert [a[0]] + a[1..] == a;
    }
  }

  /**
   * Array.prototype.slice(-n): the last n elements, or all of them when
   * there are fewer. As -0 is 0, slice(-0) is the whole array.
   */
  function LastN<T>(xs: seq<T>, n: nat): (r: seq<T>)
  {
    if n == 0 || |xs| <= n then xs else xs[|xs| - n..]
  }

  /** LastN keeps at most n elements (all of them for n == 0) and they end xs. */
  lemma LastNIsSuffix<T>(xs: seq<T>, n: nat)
    ensures |LastN(xs, n)| == if n == 0 || |xs| <= n then |xs| else n
    ensures xs == xs[..|xs| - |LastN(xs, n)|] + LastN(xs, n)
  {
  }

  /** filter(Boolean) on an array of strings: the empty strings are dropped. */
  function NonEmpty(xs: seq<string>): (r: seq<string>)
    ensures forall i :: 0 <= i < |r| ==> r[i] != ""
    ensures |r| <= |xs|
  {
    if |xs| == 0 then []
    else if xs[|xs| - 1] == "" then NonEmpty(xs[..|xs| - 1])
    else NonEmpty(xs[..|xs| - 1]) + [xs[|xs| - 1]]
  }

  /** filter(Boolean) keeps every non-empty string, in order. */
  lemma {:induction false} NonEmptyKeepsLines(xs: seq<string>)
    requires forall i :: 0 <= i < |xs| ==> xs[i] != ""
    ensures NonEmpty(xs) == xs
  {
    if |xs| > 0 {
      NonEmptyKeepsLines(xs[..|xs| - 1]);
    }
  }

  /** filter(Boolean) on one string: dropped exactly when it is empty. */
  lemma NonEmptySingleton(x: string)
    ensures NonEmpty([x]) == if x == "" then [] else [x]
  {
    assert [x][..0] == [];
  }

  /** filter(Boolean) works piecewise: what it keeps of a + b is what it keeps of a, then of b. */
  lemma {:induction false} NonEmptyAppend(a: seq<string>, b: seq<string>)
    ensures NonEmpty(a + b) == NonEmpty(a) + NonEmpty(b)
  {
    if |b| == 0 {
      assert a + b == a;
    } else {
      var init := b[..|b| - 1];
      assert (a + b)[..|a + b| - 1] == a + init;
      assert (a + b)[|a + b| - 1] == b[|b| - 1];
      NonEmptyAppend(a, init);
    }
  }

  /** The blank line between two lines is dropped, the two lines kept in order. */
  lemma NonEmptyDropsBlank(a: string, b: string)
    requires a != "" && b != ""
    ensures NonEmpty([a, "", b]) == [a, b]
  {
    assert [a, "", b] == ([a] + [""]) + [b];
    NonEmptyAppend([a] + [""], [b]);
    NonEmptyAppend([a], [""]);
    NonEmptySingleton(a);
    NonEmptySingleton("");
    NonEmptySingleton(b);
  }

  lemma JoinBlankBetween(a: string, b: string)
    ensures JoinWith([a, "", b], "\n") == a + "\n" + "\n" + b
  {
    var lines := [a, "", b];
    assert lines[1..] == ["", b];
    assert lines[1..][1..] == [b];
    assert JoinWith(["", b], "\n") == "" + "\n" + b == "\n" + b;
    assert a + "\n" + ("\n" + b) == a + "\n" + "\n" + b;
  }

  lemma NonEmptyDropsLastEmpty(xs: seq<string>)
    ensures NonEmpty(xs + [""]) == NonEmpty(xs)
  {
    assert (xs + [""])[..|xs|] == xs;
  }

  // ---------------------------------------------------------------------------
  // /^Processing \d+\/\d+$/
  // ---------------------------------------------------------------------------

  const ProgressPrefix: string := "Processing "

  /** The number of decimal digits s starts with. */
  function LeadingDigits(s: string): (k: nat)
    ensures k <= |s| && AllDigits(s[..k])
    ensures k < |s| ==> !IsDigit(s[k])
  {
    if |s| > 0 && IsDigit(s[0]) then
      var k := 1 + LeadingDigits(s[1..]);
      assert forall i :: 1 <= i < k ==> s[..k][i] == s[1..][..k - 1][i - 1];
      k
    else 0
  }

  /** The test /^Processing \d+\/\d+$/ (no flags, so $ is the end of the text). */
  predicate MatchesProgress(s: string)
  {
    |s| > |ProgressPrefix| && s[..|ProgressPrefix|] == ProgressPrefix &&
    var t := s[|ProgressPrefix|..];
    var k := LeadingDigits(t);
    0 < k < |t| - 1 && t[k] == '/' && AllDigits(t[k + 1..])
  }

  /** Every text "Processing <digits>/<digits>" matches. */
  lemma MatchesProgressOfDigits(a: string, b: string)
    requires |a| > 0 && AllDigits(a) && |b| > 0 && AllDigits(b)
    ensures MatchesProgress(ProgressPrefix + a + "/" + b)
  {
    var s := ProgressPrefix + a + "/" + b;
    var t := s[|ProgressPrefix|..];
    assert s[..|ProgressPrefix|] == ProgressPrefix;
    assert t == a + "/" + b;
    LeadingDigitsOf(a, "/" + b);
    assert t[|a|] == '/';
    assert t[|a| + 1..] == b;
  }

  lemma {:induction false} LeadingDigitsOf(a: string, rest: string)
    requires AllDigits(a)
    requires rest == [] || !IsDigit(rest[0])
    ensures LeadingDigits(a + rest) == |a|
  {
    if |a| > 0 {
      assert (a + rest)[1..] == a[1..] + rest;
      LeadingDigitsOf(a[1..], rest);
    }
  }

  /** Only such texts match. */
  lemma MatchesProgressOnly(s: string)
    requires MatchesProgress(s)
    ensures exists a: string, b: string ::
      |a| > 0 && AllDigits(a) && |b| > 0 && AllDigits(b) && s == ProgressPrefix + a + "/" + b
  {
    var t := s[|ProgressPrefix|..];
    var k := LeadingDigits(t);
    var a, b := t[..k], t[k + 1..];
    assert t == a + "/" + b;
    assert s == ProgressPrefix + a + "/" + b;
  }

  // ---------------------------------------------------------------------------
  // lastIndexOf
  // ---------------------------------------------------------------------------

  /** The position of the last occurrence of c in s, if any. */
  function LastIndexOf(s: string, c: char): (r: Option<nat>)
    ensures r.Some? ==> r.value < |s| && s[r.value] == c &&
                        forall j :: r.value < j < |s| ==> s[j] != c
    ensures r.None? ==> c !in s
  {
    if |s| == 0 then None
    else if s[|s| - 1] == c then Some(|s| - 1)
    else
      var r := LastIndexOf(s[..|s| - 1], c);
      assert c in s ==> c in s[..|s| - 1] by {
        if c in s {
          var i :| 0 <= i < |s| && s[i] == c;
          assert s[..|s| - 1][i] == c;
        }
      }
      r
  }
}
