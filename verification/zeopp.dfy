/** Reading the result file of zeo++'s `network -ha -res` call and the porosity verdict
    drawn from it. The first line of the file holds the output file name followed by the
    largest included sphere, the largest free sphere and the largest included sphere
    along the free-sphere path. */
module Zeopp {
  import opened Wrappers
  import opened Decimal

  // ---------------------------------------------------------------------------------
  // `filecontent.split("\n")[0]`

  /** The text before the first line feed (all of it when there is none). */
  function FirstLine(content: string): (r: string)
    ensures r <= content
    ensures '\n' !in r
    ensures |r| < |content| ==> content[|r|] == '\n'
  {
    if |content| == 0 || content[0] == '\n' then ""
    else [content[0]] + FirstLine(content[1..])
  }

  // ---------------------------------------------------------------------------------
  // `str.split()` without arguments

  /** The characters `str.isspace` accepts, which separate the fields of `str.split()`. */
  predicate IsSpace(c: char) {
    var u := c as int;
    u in {9, 10, 11, 12, 13, 28, 29, 30, 31, 32, 133, 160, 5760, 8232, 8233, 8239, 8287, 12288}
    || 8192 <= u <= 8202
  }

  predicate NoSpace(w: string) {
    forall j :: 0 <= j < |w| ==> !IsSpace(w[j])
  }

  /** The characters of `s` that are not white space, in order. */
  function NonSpace(s: string): string {
    if |s| == 0 then "" else (if IsSpace(s[0]) then "" else [s[0]]) + NonSpace(s[1..])
  }

  function Concat(ws: seq<string>): string {
    if |ws| == 0 then "" else ws[0] + Concat(ws[1..])
  }

  lemma {:induction false} NonSpaceAppend(a: string, b: string)
    ensures NonSpace(a + b) == NonSpace(a) + NonSpace(b)
    decreases |a|
  {
    if |a| > 0 {
      var head: string := if IsSpace(a[0]) then "" else [a[0]];
      assert (a + b)[0] == a[0];
      assert (a + b)[1..] == a[1..] + b;
      NonSpaceAppend(a[1..], b);
      assert NonSpace(a + b) == head + NonSpace(a[1..] + b);
      assert NonSpace(a) == head + NonSpace(a[1..]);
    } else {
      assert a + b == b;
    }
  }

  lemma {:induction false} NonSpaceOfWord(w: string)
    requires NoSpace(w)
    ensures NonSpace(w) == w
    decreases |w|
  {
    if |w| > 0 {
      NonSpaceOfWord(w[1..]);
    }
  }

  /** The longest prefix of `s` without white space. */
  function Word(s: string): (w: string)
    ensures w <= s && NoSpace(w)
    ensures |w| < |s| ==> IsSpace(s[|w|])
  {
    if |s| == 0 || IsSpace(s[0]) then "" else [s[0]] + Word(s[1..])
  }

  /** `line.split()`: the maximal runs of non-white-space characters, in order. No field
      is empty or holds white space, and together they are exactly the line's
      non-white-space characters. */
  function Tokens(line: string): (r: seq<string>)
    ensures forall k :: 0 <= k < |r| ==> |r[k]| > 0 && NoSpace(r[k])
    ensures Concat(r) == NonSpace(line)
    decreases |line|
  {
    if |line| == 0 then []
    else if IsSpace(line[0]) then
      assert line == [line[0]] + line[1..];
      NonSpaceAppend([line[0]], line[1..]);
      Tokens(line[1..])
    else
      var w := Word(line);
      var rest := line[|w|..];
      assert line == w + rest;
      NonSpaceAppend(w, rest);
      NonSpaceOfWord(w);
      [w] + Tokens(rest)
  }

  /** The fields written out with one blank between neighbours. */
  function JoinWithBlanks(ws: seq<string>): string {
    if |ws| == 0 then "" else if |ws| == 1 then ws[0] else ws[0] + " " + JoinWithBlanks(ws[1..])
  }

  lemma {:induction false} WordOfJoined(w: string, rest: string)
    requires NoSpace(w)
    requires |rest| == 0 || IsSpace(rest[0])
    ensures Word(w + rest) == w
    decreases |w|
  {
    if |w| > 0 {
      assert (w + rest)[1..] == w[1..] + rest;
      WordOfJoined(w[1..], rest);
    }
  }

  /** Splitting undoes joining: fields without white space, written with blanks between
      them, split back into the same fields. */
  lemma {:induction false} TokensOfJoined(ws: seq<string>)
    requires forall k :: 0 <= k < |ws| ==> |ws[k]| > 0 && NoSpace(ws[k])
    ensures Tokens(JoinWithBlanks(ws)) == ws
    decreases |ws|
  {
    if |ws| == 1 {
      WordOfJoined(ws[0], "");
      assert ws[0] + "" == ws[0];
      assert ws[0][|ws[0]|..] == "";
    } else if |ws| > 1 {
      var tail := JoinWithBlanks(ws[1..]);
      var line := ws[0] + " " + tail;
      assert line == ws[0] + (" " + tail);
      WordOfJoined(ws[0], " " + tail);
      assert line[|ws[0]|..] == " " + tail;
      assert (" " + tail)[1..] == tail;
      TokensOfJoined(ws[1..]);
    }
  }

  // ---------------------------------------------------------------------------------
  // `float(token)` for the fixed-point numbers zeo++ writes

  /** Position of the first decimal point. */
  function PointPosition(s: string): (p: nat)
    requires '.' in s
    ensures p < |s| && s[p] == '.' && '.' !in s[..p]
  {
    if s[0] == '.' then 0
    else
      assert '.' in s[1..] by {
        var j :| 0 <= j < |s| && s[j] == '.';
        assert s[1..][j - 1] == '.';
      }
      var q := PointPosition(s[1..]);
      assert s[..q + 1] == [s[0]] + s[1..][..q];
      q + 1
  }

  /** The value of `whole.frac`: the whole part plus the fraction digits over ten to their
      number. */
  function PointValue(whole: string, frac: string): (r: real)
    requires AllDigits(whole) && AllDigits(frac)
    ensures r >= DigitsValue(whole) as real
  {
    DigitsValue(whole) as real + (DigitsValue(frac) as real) / (Pow10(|frac|) as real)
  }

  /** An unsigned decimal `digits`, `digits.digits`, `digits.` or `.digits`: the value of
      the digits with the point removed, divided by ten to the number of fraction digits. */
  function UnsignedDecimal(s: string): (r: Option<real>)
    ensures r.Some? ==> r.value >= 0.0
    ensures r.Some? ==> |s| > 0 && (AllDigits(s) || '.' in s)
  {
    if |s| == 0 then None
    else if AllDigits(s) then Some(DigitsValue(s) as real)
    else if '.' in s then
      var p := PointPosition(s);
      var whole := s[..p];
      var frac := s[p + 1..];
      if AllDigits(whole) && AllDigits(frac) && |whole| + |frac| > 0 then Some(PointValue(whole, frac))
      else None
    else None
  }

  /** `float(token)` for a plain decimal with an optional sign; any other text is a
      `ValueError` (`None`). */
  function ParseFloat(token: string): (r: Option<real>)
    ensures r.Some? ==> |token| > 0
    ensures |token| > 0 && token[0] != '-' && token[0] != '+' ==> r == UnsignedDecimal(token)
    ensures |token| > 0 && token[0] == '-' ==> r == (match UnsignedDecimal(token[1..]) case None => None case Some(x) => Some(-x))
  {
    if |token| == 0 then None
    else if token[0] == '-' then
      match UnsignedDecimal(token[1..])
      case None => None
      case Some(x) => Some(-x)
    else if token[0] == '+' then UnsignedDecimal(token[1..])
    else UnsignedDecimal(token)
  }

  // ---------------------------------------------------------------------------------
  // `_parse_zeopp` / `parse_zeopp`

  /** `{"lis", "lifs", "lifsp"}`: largest included sphere, largest free sphere, largest
      included sphere along the free-sphere path. */
  datatype PoreDiameters = PoreDiameters(lis: real, lifs: real, lifsp: real)

  datatype ZeoppError = IndexError | ValueError

  /** `float(parts[i])`, raising `IndexError` past the end and `ValueError` on bad text. */
  function Field(parts: seq<string>, i: nat): (r: Result<real, ZeoppError>)
    ensures i >= |parts| <==> r == Failure(IndexError)
    ensures i < |parts| ==> (r.Success? <==> ParseFloat(parts[i]).Some?)
    ensures r.Success? ==> ParseFloat(parts[i]) == Some(r.value)
  {
    if i >= |parts| then Failure(IndexError)
    else match ParseFloat(parts[i])
      case None => Failure(ValueError)
      case Some(x) => Success(x)
  }

  /** `_parse_zeopp`: split the first line on white space and read fields 1, 2 and 3 in
      that order; field 0, the file name, is never looked at. The first field that is
      missing or not a number decides the error. */
  function ParseZeopp(content: string): (r: Result<PoreDiameters, ZeoppError>)
    ensures var parts := Tokens(FirstLine(content));
            && (r.Success? <==> |parts| >= 4 && ParseFloat(parts[1]).Some? && ParseFloat(parts[2]).Some? && ParseFloat(parts[3]).Some?)
            && (r.Success? ==> r.value == PoreDiameters(ParseFloat(parts[1]).value, ParseFloat(parts[2]).value, ParseFloat(parts[3]).value))
            && (|parts| < 4 && (forall i :: 1 <= i < |parts| ==> ParseFloat(parts[i]).Some?) ==> r == Failure(IndexError))
    ensures var parts := Tokens(FirstLine(content));
            && (Field(parts, 1).Failure? ==> r == Failure(Field(parts, 1).error))
            && (Field(parts, 1).Success? && Field(parts, 2).Failure? ==> r == Failure(Field(parts, 2).error))
            && (Field(parts, 1).Success? && Field(parts, 2).Success? && Field(parts, 3).Failure? ==> r == Failure(Field(parts, 3).error))
  {
    var parts := Tokens(FirstLine(content));
    match Field(parts, 1)
    case Failure(e) => Failure(e)
    case Success(lis) =>
      match Field(parts, 2)
      case Failure(e) => Failure(e)
      case Success(lifs) =>
        match Field(parts, 3)
        case Failure(e) => Failure(e)
        case Success(lifsp) => Success(PoreDiameters(lis, lifs, lifsp))
  }

  /** A present field 1, 2 or 3 that is not a number, after fields that are, is a
      `ValueError`, even when later fields are missing. */
  lemma ParseZeoppValueError(content: string, i: nat)
    requires var parts := Tokens(FirstLine(content));
             1 <= i <= 3 && i < |parts| && ParseFloat(parts[i]).None?
             && forall j :: 1 <= j < i ==> ParseFloat(parts[j]).Some?
    ensures ParseZeopp(content) == Failure(ValueError)
  {
    var parts := Tokens(FirstLine(content));
    assert Field(parts, i) == Failure(ValueError);
    if i >= 2 { assert Field(parts, 1).Success?; }
    if i == 3 { assert Field(parts, 2).Success?; }
  }

  /** Only the first line matters: whatever follows the first line feed is ignored. */
  lemma ParseIgnoresLaterLines(line: string, rest: string)
    requires '\n' !in line
    ensures ParseZeopp(line + "\n" + rest) == ParseZeopp(line)
  {
    FirstLineOfLine(line, "\n" + rest);
    FirstLineOfLine(line, "");
    assert line + "" == line;
    assert line + "\n" + rest == line + ("\n" + rest);
  }

  lemma {:induction false} FirstLineOfLine(line: string, rest: string)
    requires '\n' !in line
    requires |rest| == 0 || rest[0] == '\n'
    ensures FirstLine(line + rest) == line
    decreases |line|
  {
    if |line| > 0 {
      assert (line + rest)[1..] == line[1..] + rest;
      assert line[0] in line;
      FirstLineOfLine(line[1..], rest);
    }
  }

  lemma {:induction false} JoinedHasNoLineFeed(ws: seq<string>)
    requires forall k :: 0 <= k < |ws| ==> '\n' !in ws[k]
    ensures '\n' !in JoinWithBlanks(ws)
    decreases |ws|
  {
    if |ws| > 1 {
      JoinedHasNoLineFeed(ws[1..]);
    }
  }

  /** A result line written as the file name followed by three numbers, with any blanks
      between them, reads back as those three numbers. */
  lemma ParseReadsFields(name: string, lis: string, lifs: string, lifsp: string)
    requires forall w :: w in [name, lis, lifs, lifsp] ==> |w| > 0 && NoSpace(w)
    requires ParseFloat(lis).Some? && ParseFloat(lifs).Some? && ParseFloat(lifsp).Some?
    ensures ParseZeopp(JoinWithBlanks([name, lis, lifs, lifsp]))
            == Success(PoreDiameters(ParseFloat(lis).value, ParseFloat(lifs).value, ParseFloat(lifsp).value))
  {
    var ws := [name, lis, lifs, lifsp];
    var line := JoinWithBlanks(ws);
    assert forall k :: 0 <= k < |ws| ==> |ws[k]| > 0 && NoSpace(ws[k]) && '\n' !in ws[k] by {
      forall k | 0 <= k < |ws| ensures |ws[k]| > 0 && NoSpace(ws[k]) && '\n' !in ws[k] {
        assert ws[k] in ws;
        assert IsSpace('\n');
      }
    }
    JoinedHasNoLineFeed(ws);
    FirstLineOfLine(line, "");
    assert line + "" == line;
    TokensOfJoined(ws);
    assert Tokens(FirstLine(line)) == ws;
  }

  lemma {:induction false} PointAfterDigits(whole: string, rest: string)
    requires AllDigits(whole)
    requires |rest| > 0 && rest[0] == '.'
    ensures '.' in whole + rest
    ensures PointPosition(whole + rest) == |whole|
    decreases |whole|
  {
    assert (whole + rest)[|whole|] == '.';
    if |whole| > 0 {
      assert (whole + rest)[1..] == whole[1..] + rest;
      assert IsDigit(whole[0]);
      PointAfterDigits(whole[1..], rest);
    }
  }

  /** The unsigned reading of `digits.digits`: the point splits whole part and fraction. */
  lemma UnsignedPointDecimal(whole: string, frac: string)
    requires |whole| > 0 && AllDigits(whole) && AllDigits(frac)
    ensures UnsignedDecimal(whole + "." + frac) == Some(PointValue(whole, frac))
  {
    var s := whole + ("." + frac);
    assert s == whole + "." + frac;
    PointAfterDigits(whole, "." + frac);
    var w := |whole|;
    assert s[..w] == whole;
    assert s[w + 1..] == frac;
    assert !AllDigits(s) by {
      assert !IsDigit(s[w]);
    }
  }

  /** `float` reads `digits.digits` as the whole part plus the fraction. */
  lemma ReadsDecimal(whole: string, frac: string, x: real)
    requires |whole| > 0 && AllDigits(whole) && AllDigits(frac)
    requires x == DigitsValue(whole) as real + (DigitsValue(frac) as real) / (Pow10(|frac|) as real)
    ensures ParseFloat(whole + "." + frac) == Some(x)
  {
    var s := whole + "." + frac;
    UnsignedPointDecimal(whole, frac);
    assert x == PointValue(whole, frac);
    assert s[0] == whole[0] && IsDigit(whole[0]);
    assert s[0] != '-' && s[0] != '+';
    assert ParseFloat(s) == UnsignedDecimal(s);
  }

  lemma {:induction false} TokensSkipBlanks(blanks: string, rest: string)
    requires forall j :: 0 <= j < |blanks| ==> IsSpace(blanks[j])
    ensures Tokens(blanks + rest) == Tokens(rest)
    decreases |blanks|
  {
    if |blanks| == 0 {
      assert blanks + rest == rest;
    } else {
      assert (blanks + rest)[1..] == blanks[1..] + rest;
      TokensSkipBlanks(blanks[1..], rest);
    }
  }

  /** A field followed by any non-empty run of white space splits off as one token. */
  lemma TokensStep(w: string, blanks: string, rest: string)
    requires |w| > 0 && NoSpace(w)
    requires |blanks| > 0 && forall j :: 0 <= j < |blanks| ==> IsSpace(blanks[j])
    ensures Tokens(w + blanks + rest) == [w] + Tokens(rest)
  {
    var line := w + (blanks + rest);
    assert line == w + blanks + rest;
    WordOfJoined(w, blanks + rest);
    assert line[|w|..] == blanks + rest;
    TokensSkipBlanks(blanks, rest);
  }

  // ---------------------------------------------------------------------------------
  // `check_if_porous` and `PorosityCheck`

  /** Pores at least this wide (in angstrom) make a framework porous, after the
      CoRE-MOF definition. */
  const PorosityThreshold: real := 2.4

  /** `check_if_porous`: `None` when the `network` binary is missing (`output` is `None`),
      otherwise whether the largest free sphere reaches the threshold. */
  function CheckIfPorous(output: Option<string>, threshold: real): (r: Result<Option<bool>, ZeoppError>)
    ensures output.None? ==> r == Success(None)
    ensures output.Some? ==> (r.Success? <==> ParseZeopp(output.value).Success?)
    ensures output.Some? && r.Success? ==>
              r.value.Some? && (r.value.value <==> ParseZeopp(output.value).value.lifs >= threshold)
  {
    match output
    case None => Success(None)
    case Some(content) =>
      match ParseZeopp(content)
      case Failure(e) => Failure(e)
      case Success(d) => Success(Some(d.lifs >= threshold))
  }

  /** A framework porous under some threshold stays porous under any lower one. */
  lemma PorousMonotone(output: Option<string>, lower: real, higher: real)
    requires lower <= higher
    requires CheckIfPorous(output, higher) == Success(Some(true))
    ensures CheckIfPorous(output, lower) == Success(Some(true))
  {
  }

  /** `PorosityCheck._run_check`: the tri-state verdict at the default threshold. */
  function PorosityVerdict(output: Option<string>): (r: Result<Option<bool>, ZeoppError>)
    ensures output.None? ==> r == Success(None)
    ensures r == Success(Some(true)) <==>
              output.Some? && ParseZeopp(output.value).Success? && ParseZeopp(output.value).value.lifs >= 2.4
  {
    CheckIfPorous(output, PorosityThreshold)
  }
}
