/**
 * The `--color` argument: a comma-separated list of six-character hex
 * tokens, decoded left to right until the first token that is not six
 * characters long or does not convert.
 */
module ColorList {
  import opened AuraTypes
  import opened StdStoi

  /** `find_first_of(',')`, with `|s|` standing for `npos`. */
  function CommaIndex(s: string): (k: nat)
    ensures k <= |s|
    ensures forall j :: 0 <= j < k ==> s[j] != ','
    ensures k < |s| ==> s[k] == ','
  {
    if s == [] || s[0] == ',' then 0 else 1 + CommaIndex(s[1..])
  }

  /**
   * `std::stoi(p, nullptr, 16)` on a two-character string, case by case:
   * one leading space or sign before a single digit, or a second character
   * that is not a digit, is accepted. `PairValueIsStoi` proves it equal to
   * the general conversion.
   */
  function PairValue(p: string): Option<int>
    requires |p| == 2
  {
    var d0: int, d1: int := DigitValue(p[0]), DigitValue(p[1]);
    if d0 < 16 then Some(if d1 < 16 then 16 * d0 + d1 else d0)
    else if d1 >= 16 then None
    else if IsSpace(p[0]) || p[0] == '+' then Some(d1)
    else if p[0] == '-' then Some(-d1)
    else None
  }

  /** A single character is a run of one hex digit, worth its digit value, or no run at all. */
  lemma OneHexDigit(q: string)
    requires |q| == 1
    ensures DigitRun(q, 16) == (if DigitValue(q[0]) < 16 then 1 else 0)
    ensures DigitValue(q[0]) < 16 ==> DigitsValue(q[..1], 16) == DigitValue(q[0])
  {
    assert q[1..] == [];
    assert q[..1] == q;
    assert q[..0] == [];
  }

  lemma StrtolPairSpaceFirst(p: string)
    requires |p| == 2 && IsSpace(p[0])
    ensures Strtol(p, 16) == if DigitValue(p[1]) < 16 then Some(DigitValue(p[1]) as int) else None
  {
    if IsSpace(p[1]) {
      assert LeadingSpaces(p) == 2;
    } else {
      assert p[1..][1..] == [];
      assert LeadingSpaces(p) == 1;
      OneHexDigit(p[1..]);
    }
  }

  lemma StrtolPairSignFirst(p: string)
    requires |p| == 2 && (p[0] == '+' || p[0] == '-')
    ensures Strtol(p, 16)
            == if DigitValue(p[1]) < 16 then Some(if p[0] == '-' then 0 - DigitValue(p[1]) else DigitValue(p[1]) as int)
               else None
  {
    assert LeadingSpaces(p) == 0;
    assert p[0..] == p;
    OneHexDigit(p[1..]);
  }

  lemma StrtolPairDigitFirst(p: string)
    requires |p| == 2 && DigitValue(p[0]) < 16
    ensures Strtol(p, 16)
            == Some(if DigitValue(p[1]) < 16 then 16 * DigitValue(p[0]) + DigitValue(p[1]) else DigitValue(p[0]) as int)
  {
    assert LeadingSpaces(p) == 0;
    assert p[0..] == p;
    assert p[1..][1..] == [];
    if DigitValue(p[1]) < 16 {
      assert DigitRun(p, 16) == 2;
      assert p[..2] == p;
      assert p[..1] == [p[0]];
      OneHexDigit(p[..1]);
      assert DigitsValue(p, 16) == DigitsValue(p[..1], 16) * 16 + DigitValue(p[1]);
    } else {
      assert DigitRun(p, 16) == 1;
      OneHexDigit(p[..1]);
      assert p[..1][..1] == p[..1];
    }
  }

  lemma StrtolPairOtherFirst(p: string)
    requires |p| == 2 && !IsSpace(p[0]) && p[0] != '+' && p[0] != '-' && DigitValue(p[0]) >= 16
    ensures Strtol(p, 16) == None
  {
    assert LeadingSpaces(p) == 0;
    assert p[0..] == p;
  }

  lemma PairValueIsStoi(p: string)
    requires |p| == 2
    ensures PairValue(p) == Stoi(p, 16)
  {
    if IsSpace(p[0]) {
      StrtolPairSpaceFirst(p);
    } else if p[0] == '+' || p[0] == '-' {
      StrtolPairSignFirst(p);
    } else if DigitValue(p[0]) < 16 {
      StrtolPairDigitFirst(p);
    } else {
      StrtolPairOtherFirst(p);
    }
  }

  /**
   * The three `std::stoi(…, nullptr, 16)` conversions of one six-character
   * token, each truncated to `unsigned char`; `None` when one of them throws.
   */
  function DecodeToken(token: string): Option<Color>
    requires |token| == 6
  {
    var r := PairValue(token[0..2]);
    var g := PairValue(token[2..4]);
    var b := PairValue(token[4..6]);
    if r.Some? && g.Some? && b.Some? then Some(Color(r.value % 256, g.value % 256, b.value % 256)) else None
  }

  /** `DecodeToken` succeeds exactly when the three `std::stoi` calls do, and keeps their values modulo 256. */
  lemma DecodeTokenIsStoi(token: string)
    requires |token| == 6
    ensures DecodeToken(token).Some?
            <==> Stoi(token[0..2], 16).Some? && Stoi(token[2..4], 16).Some? && Stoi(token[4..6], 16).Some?
    ensures DecodeToken(token).Some? ==>
              DecodeToken(token).value == Color(Stoi(token[0..2], 16).value % 256,
                                                Stoi(token[2..4], 16).value % 256,
                                                Stoi(token[4..6], 16).value % 256)
  {
    PairValueIsStoi(token[0..2]);
    PairValueIsStoi(token[2..4]);
    PairValueIsStoi(token[4..6]);
  }

  /** The colours one call appends, following the loop that shrinks the string from the front. */
  function ParsedColors(s: string): seq<Color>
    decreases |s|
  {
    if |s| < 6 then []
    else
      var k := CommaIndex(s);
      if k != 6 then []
      else match DecodeToken(s[..6])
        case None => []
        case Some(c) => if k == |s| then [c] else [c] + ParsedColors(s[7..])
  }

  /** Every colour takes six characters and all but the last a comma after them. */
  lemma {:induction false} ParsedColorsBound(s: string)
    decreases |s|
    ensures 7 * |ParsedColors(s)| <= |s| + 1
  {
    if |s| >= 6 && CommaIndex(s) == 6 && DecodeToken(s[..6]).Some? && 6 < |s| {
      ParsedColorsBound(s[7..]);
    }
  }

  /** `ParsedColors` on a string of at least six characters, one token at a time. */
  lemma ParsedColorsUnfold(s: string)
    requires |s| >= 6
    ensures CommaIndex(s) != 6 || DecodeToken(s[..6]).None? ==> ParsedColors(s) == []
    ensures CommaIndex(s) == 6 && DecodeToken(s[..6]).Some? ==>
              ParsedColors(s) == [DecodeToken(s[..6]).value] + (if |s| == 6 then [] else ParsedColors(s[7..]))
  {
  }

  /** Appends the colours of `colorsString` to `options.colors`; true iff the list is then non-empty. */
  method ParseColors(colorsString: string, options: Options) returns (ok: bool)
    modifies options`colors
    ensures options.colors == old(options.colors) + ParsedColors(colorsString)
    ensures ok <==> |options.colors| > 0
  {
    var rest := colorsString;
    while |rest| >= 6
      invariant options.colors + ParsedColors(rest) == old(options.colors) + ParsedColors(colorsString)
      decreases |rest|
    {
      var rgbEnd := CommaIndex(rest);
      var color := rest[..rgbEnd];
      ParsedColorsUnfold(rest);
      if |color| != 6 {
        break;
      }
      // the try block: one of the three conversions throwing ends the loop
      var decoded := DecodeToken(color);
      if decoded.None? {
        break;
      }
      ghost var earlier := options.colors;
      options.colors := options.colors + [decoded.value];
      if rgbEnd == |rest| {
        break;
      }
      rest := rest[|color| + 1..];
      AppendAssoc(earlier, [decoded.value], ParsedColors(rest));
    }
    ok := |options.colors| > 0;
  }

  // An independent reading: split at every comma, then keep the longest run of good tokens

  /** The comma-separated fields of `s`: at least one, none holding a comma, and joined by commas they give `s` back. */
  function SplitCommas(s: string): (fields: seq<string>)
    decreases |s|
    ensures |fields| > 0
    ensures forall i, j :: 0 <= i < |fields| && 0 <= j < |fields[i]| ==> fields[i][j] != ','
    ensures JoinCommas(fields) == s
  {
    var k := CommaIndex(s);
    if k == |s| then
      assert s[..k] == s;
      [s]
    else
      var rest := SplitCommas(s[k + 1..]);
      var fields := [s[..k]] + rest;
      assert fields[1..] == rest;
      assert s == s[..k] + "," + s[k + 1..];
      fields
  }

  /** The fields joined with a comma between each two. */
  function JoinCommas(fields: seq<string>): string
    requires |fields| > 0
  {
    if |fields| == 1 then fields[0] else fields[0] + "," + JoinCommas(fields[1..])
  }

  /** The decoded colours of the longest prefix of `tokens` whose every token is six characters and converts. */
  function GoodPrefix(tokens: seq<string>): seq<Color> {
    if tokens == [] || |tokens[0]| != 6 || DecodeToken(tokens[0]).None? then []
    else [DecodeToken(tokens[0]).value] + GoodPrefix(tokens[1..])
  }

  /** Parsing stops exactly at the first bad field of the comma split. */
  lemma {:induction false} ParsedColorsIsGoodPrefix(s: string)
    decreases |s|
    ensures ParsedColors(s) == GoodPrefix(SplitCommas(s))
  {
    var k := CommaIndex(s);
    var fields := SplitCommas(s);
    assert fields[0] == s[..k];
    if |s| >= 6 && k == 6 && DecodeToken(s[..6]).Some? && k < |s| {
      ParsedColorsIsGoodPrefix(s[7..]);
      assert fields[1..] == SplitCommas(s[7..]);
    }
  }

  // Formatting, the inverse of parsing

  function HexDigit(d: nat): char
    requires d < 16
  {
    if d < 10 then ('0' as int + d) as char else ('A' as int + d - 10) as char
  }

  lemma HexDigitValue(d: nat)
    requires d < 16
    ensures IsDigit(HexDigit(d), 16) && DigitValue(HexDigit(d)) == d
    ensures HexDigit(d) != ','
  {
  }

  /** Six upper-case hex digits, red first. */
  function FormatColor(c: Color): (token: string)
    ensures |token| == 6
  {
    [HexDigit(c.r / 16), HexDigit(c.r % 16),
     HexDigit(c.g / 16), HexDigit(c.g % 16),
     HexDigit(c.b / 16), HexDigit(c.b % 16)]
  }

  /** The list written the way the help text shows it: `"FFFFFF,00AAFF"`. */
  function FormatColors(cs: seq<Color>): string {
    if cs == [] then ""
    else if |cs| == 1 then FormatColor(cs[0])
    else FormatColor(cs[0]) + "," + FormatColors(cs[1..])
  }

  /** The two hex digits of a byte read back as the byte. */
  lemma HexPair(x: Byte)
    ensures PairValue([HexDigit(x / 16), HexDigit(x % 16)]) == Some(x)
  {
    HexDigitValue(x / 16);
    HexDigitValue(x % 16);
  }

  /** Each channel of a formatted colour reads back as itself. */
  lemma DecodeFormatted(c: Color)
    ensures DecodeToken(FormatColor(c)) == Some(c)
  {
    var t := FormatColor(c);
    assert PairValue(t[0..2]) == Some(c.r as int) by {
      assert t[0..2] == [HexDigit(c.r / 16), HexDigit(c.r % 16)];
      HexPair(c.r);
    }
    assert PairValue(t[2..4]) == Some(c.g as int) by {
      assert t[2..4] == [HexDigit(c.g / 16), HexDigit(c.g % 16)];
      HexPair(c.g);
    }
    assert PairValue(t[4..6]) == Some(c.b as int) by {
      assert t[4..6] == [HexDigit(c.b / 16), HexDigit(c.b % 16)];
      HexPair(c.b);
    }
    DecodeChannels(t, c);
  }

  /** A token whose three pairs read as the channels of `c` decodes to `c`. */
  lemma DecodeChannels(t: string, c: Color)
    requires |t| == 6
    requires PairValue(t[0..2]) == Some(c.r as int)
    requires PairValue(t[2..4]) == Some(c.g as int)
    requires PairValue(t[4..6]) == Some(c.b as int)
    ensures DecodeToken(t) == Some(c)
  {
  }

  /** One good token followed by a comma: it is the first colour, and parsing goes on after the comma. */
  lemma ParsedColorsStep(s: string, c: Color)
    requires |s| > 6 && CommaIndex(s) == 6 && DecodeToken(s[..6]) == Some(c)
    ensures ParsedColors(s) == [c] + ParsedColors(s[7..])
  {
  }

  /** A formatted colour, then a comma, then `rest`: the comma follows the six digits. */
  lemma FormattedThenComma(c: Color, rest: string)
    ensures var s := FormatColor(c) + "," + rest;
            |s| > 6 && CommaIndex(s) == 6 && s[..6] == FormatColor(c) && s[7..] == rest
  {
    var t := FormatColor(c);
    var s := t + "," + rest;
    FormattedHasNoComma(c);
    assert s[..6] == t;
    assert forall j :: 0 <= j < 6 ==> s[j] == t[j];
    assert s[6] == ',';
    assert s[7..] == rest;
  }

  lemma FormattedHasNoComma(c: Color)
    ensures CommaIndex(FormatColor(c)) == 6
  {
    var t := FormatColor(c);
    forall j | 0 <= j < 6 ensures t[j] != ',' {
      HexDigitValue(if j % 2 == 0 then [c.r, c.g, c.b][j / 2] / 16 else [c.r, c.g, c.b][j / 2] % 16);
    }
  }

  /** A list of colours, followed by a comma and anything else, parses as those colours and then whatever the rest gives. */
  lemma {:induction false} ParsedColorsAppend(cs: seq<Color>, rest: string)
    requires cs != []
    ensures ParsedColors(FormatColors(cs) + "," + rest) == cs + ParsedColors(rest)
  {
    var tail := if |cs| == 1 then rest else FormatColors(cs[1..]) + "," + rest;
    assert ParsedColors(FormatColors(cs) + "," + rest) == [cs[0]] + ParsedColors(tail) by {
      var s := FormatColor(cs[0]) + "," + tail;
      assert FormatColors(cs) + "," + rest == s;
      FormattedThenComma(cs[0], tail);
      DecodeFormatted(cs[0]);
      ParsedColorsStep(s, cs[0]);
    }
    if |cs| > 1 {
      ParsedColorsAppend(cs[1..], rest);
      Regroup(cs, ParsedColors(FormatColors(cs) + "," + rest), ParsedColors(tail), ParsedColors(rest));
    }
  }

  lemma Regroup(cs: seq<Color>, whole: seq<Color>, tail: seq<Color>, rest: seq<Color>)
    requires cs != [] && whole == [cs[0]] + tail && tail == cs[1..] + rest
    ensures whole == cs + rest
  {
    assert cs == [cs[0]] + cs[1..];
  }

  /** Parsing a formatted list gives the list back. */
  lemma {:induction false} ParsedColorsOfFormatted(cs: seq<Color>)
    ensures ParsedColors(FormatColors(cs)) == cs
  {
    if |cs| == 1 {
      FormattedHasNoComma(cs[0]);
      DecodeFormatted(cs[0]);
      assert FormatColors(cs)[..6] == FormatColors(cs);
    } else if |cs| > 1 {
      assert ParsedColors(FormatColors(cs)) == [cs[0]] + ParsedColors(FormatColors(cs[1..])) by {
        FormattedThenComma(cs[0], FormatColors(cs[1..]));
        DecodeFormatted(cs[0]);
        ParsedColorsStep(FormatColors(cs), cs[0]);
      }
      ParsedColorsOfFormatted(cs[1..]);
      assert cs == [cs[0]] + cs[1..];
    }
  }

  /** A minus sign is accepted before one hex digit, and the negative value wraps into `unsigned char`: `-F` is 241. */
  lemma NegativeChannelWraps()
    ensures DecodeToken("-F0000") == Some(Color(241, 0, 0))
  {
    assert "-F0000"[0..2] == "-F";
    assert "-F0000"[2..4] == "00";
    assert "-F0000"[4..6] == "00";
  }

  /** A token of six hex digits decodes to the hex values of its character pairs 0-1, 2-3 and 4-5. */
  lemma DecodeHexToken(token: string)
    requires |token| == 6 && forall j :: 0 <= j < 6 ==> DigitValue(token[j]) < 16
    ensures DecodeToken(token) == Some(Color(
              16 * DigitValue(token[0]) + DigitValue(token[1]),
              16 * DigitValue(token[2]) + DigitValue(token[3]),
              16 * DigitValue(token[4]) + DigitValue(token[5])))
  {
    var c := Color(16 * DigitValue(token[0]) + DigitValue(token[1]),
                   16 * DigitValue(token[2]) + DigitValue(token[3]),
                   16 * DigitValue(token[4]) + DigitValue(token[5]));
    assert PairValue(token[0..2]) == Some(c.r as int) by {
      assert token[0..2] == [token[0], token[1]];
    }
    assert PairValue(token[2..4]) == Some(c.g as int) by {
      assert token[2..4] == [token[2], token[3]];
    }
    assert PairValue(token[4..6]) == Some(c.b as int) by {
      assert token[4..6] == [token[4], token[5]];
    }
    DecodeChannels(token, c);
  }
}
