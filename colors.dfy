/**
 * The complementary-colour utility of the storefront: a `#RRGGBB` string is
 * decoded into three channels, each channel is replaced by `255 - c`, and the
 * result is re-encoded in upper case, together with two suggestions that
 * permute the complement's channels.
 */
module Colors {
  import opened Wrappers

  /** One colour channel, 0..255. */
  type Channel = x: int | 0 <= x < 256

  datatype Rgb = Rgb(r: Channel, g: Channel, b: Channel)

  /** Why the endpoint refuses a colour. */
  datatype ColorError =
    | InvalidFormat   // no leading '#' or not 7 characters: the HTTP 400 answer
    | NotHexDigits    // right shape, but a channel is not hexadecimal: the uncaught error (HTTP 500)

  /** The endpoint's answer: the complement and three suggestions. */
  datatype Palette = Palette(complementary: string, suggestions: seq<string>)

  // ---------- Hexadecimal digits ----------

  predicate IsHexDigit(c: char) {
    '0' <= c <= '9' || 'a' <= c <= 'f' || 'A' <= c <= 'F'
  }

  predicate IsUpperHexDigit(c: char) {
    '0' <= c <= '9' || 'A' <= c <= 'F'
  }

  /** The value of one hexadecimal digit, either case. */
  function DigitValue(c: char): (v: nat)
    requires IsHexDigit(c)
    ensures v < 16
  {
    if '0' <= c <= '9' then c as int - '0' as int
    else if 'a' <= c <= 'f' then c as int - 'a' as int + 10
    else c as int - 'A' as int + 10
  }

  /** The upper-case digit for a value below 16 (the `X` conversion). */
  function UpperDigit(v: nat): (c: char)
    requires v < 16
    ensures IsUpperHexDigit(c) && DigitValue(c) == v
  {
    if v < 10 then ('0' as int + v) as char else ('A' as int + v - 10) as char
  }

  /** ASCII upper-casing of one character. */
  function UpperChar(c: char): char {
    if 'a' <= c <= 'z' then (c as int - 32) as char else c
  }

  /** ASCII upper-casing of a string, character by character. */
  function UpperCase(s: string): (u: string)
    ensures |u| == |s| && forall i :: 0 <= i < |s| ==> u[i] == UpperChar(s[i])
  {
    seq(|s|, i requires 0 <= i < |s| => UpperChar(s[i]))
  }

  lemma UpperDigitOfValue(c: char)
    requires IsHexDigit(c)
    ensures UpperDigit(DigitValue(c)) == UpperChar(c)
  {
  }

  // ---------- One channel: `int(s, 16)` and `f"{c:02X}"` ----------

  /** `int(s, 16)` on a two-character slice of hexadecimal digits; None otherwise. */
  function ParseChannel(s: string): (c: Option<Channel>)
    requires |s| == 2
    ensures c.Some? <==> IsHexDigit(s[0]) && IsHexDigit(s[1])
  {
    if IsHexDigit(s[0]) && IsHexDigit(s[1]) then Some(16 * DigitValue(s[0]) + DigitValue(s[1]))
    else None
  }

  /** `f"{c:02X}"`: two upper-case digits, zero-padded, that decode back to `c`. */
  function FormatChannel(c: Channel): (s: string)
    ensures |s| == 2 && IsUpperHexDigit(s[0]) && IsUpperHexDigit(s[1])
    ensures ParseChannel(s) == Some(c)
  {
    [UpperDigit(c / 16), UpperDigit(c % 16)]
  }

  /** Encoding a decoded channel gives the slice back, upper-cased. */
  lemma FormatParseChannel(s: string)
    requires |s| == 2 && IsHexDigit(s[0]) && IsHexDigit(s[1])
    ensures FormatChannel(ParseChannel(s).value) == UpperCase(s)
  {
    var hi, lo := DigitValue(s[0]), DigitValue(s[1]);
    assert (16 * hi + lo) / 16 == hi && (16 * hi + lo) % 16 == lo;
    UpperDigitOfValue(s[0]);
    UpperDigitOfValue(s[1]);
  }

  // ---------- Whole colours ----------

  predicate StartsWithHash(s: string) {
    |s| > 0 && s[0] == '#'
  }

  /** `#` followed by six hexadecimal digits of either case. */
  predicate IsHexColor(s: string) {
    |s| == 7 && s[0] == '#' && forall i :: 1 <= i < 7 ==> IsHexDigit(s[i])
  }

  /** `#` followed by six upper-case hexadecimal digits. */
  predicate IsUpperHexColor(s: string) {
    |s| == 7 && s[0] == '#' && forall i :: 1 <= i < 7 ==> IsUpperHexDigit(s[i])
  }

  /** Decodes the three channels of a 7-character string; None when one is not hexadecimal. */
  function ParseColor(s: string): (c: Option<Rgb>)
    requires |s| == 7
    ensures c.Some? <==> forall i :: 1 <= i < 7 ==> IsHexDigit(s[i])
  {
    var r, g, b := ParseChannel(s[1..3]), ParseChannel(s[3..5]), ParseChannel(s[5..7]);
    assert s[1..3][0] == s[1] && s[1..3][1] == s[2];
    assert s[3..5][0] == s[3] && s[3..5][1] == s[4];
    assert s[5..7][0] == s[5] && s[5..7][1] == s[6];
    if r.Some? && g.Some? && b.Some? then Some(Rgb(r.value, g.value, b.value)) else None
  }

  /** `f"#{r:02X}{g:02X}{b:02X}"`: an upper-case colour that decodes back to `c`. */
  function FormatColor(c: Rgb): (s: string)
    ensures IsUpperHexColor(s)
    ensures ParseColor(s) == Some(c)
  {
    var s := "#" + FormatChannel(c.r) + FormatChannel(c.g) + FormatChannel(c.b);
    assert s[1..3] == FormatChannel(c.r);
    assert s[3..5] == FormatChannel(c.g);
    assert s[5..7] == FormatChannel(c.b);
    s
  }

  /** Encoding a decoded colour gives the colour back with its digits upper-cased. */
  lemma FormatParseColor(s: string)
    requires IsHexColor(s)
    ensures ParseColor(s).Some? && FormatColor(ParseColor(s).value) == UpperCase(s)
  {
    FormatParseChannel(s[1..3]);
    FormatParseChannel(s[3..5]);
    FormatParseChannel(s[5..7]);
    var c := ParseColor(s).value;
    assert c.r == ParseChannel(s[1..3]).value;
    assert c.g == ParseChannel(s[3..5]).value;
    assert c.b == ParseChannel(s[5..7]).value;
    var u := FormatColor(c);
    forall i | 0 <= i < 7 ensures u[i] == UpperCase(s)[i] {
      if 1 <= i < 3 { assert u[i] == UpperCase(s[1..3])[i - 1]; }
      else if 3 <= i < 5 { assert u[i] == UpperCase(s[3..5])[i - 3]; }
      else if 5 <= i < 7 { assert u[i] == UpperCase(s[5..7])[i - 5]; }
    }
  }

  /** Each channel replaced by `255 - c`. */
  function Complement(c: Rgb): (k: Rgb)
    ensures k.r + c.r == 255 && k.g + c.g == 255 && k.b + c.b == 255
  {
    Rgb(255 - c.r, 255 - c.g, 255 - c.b)
  }

  lemma ComplementInvolution(c: Rgb)
    ensures Complement(Complement(c)) == c
  {
  }

  // ---------- The endpoint ----------

  /**
   * GET /api/visualizer/complementary. Refuses a string without a leading
   * `#` or whose length is not 7; otherwise decodes the channels (failing
   * when one is not hexadecimal), complements them, and answers the
   * complement `#RGB` with the suggestions `#RGB`, `#RBG` and `#GRB`, all
   * spelled with the complement's channels.
   */
  function Complementary(color: string): (res: Result<Palette, ColorError>)
    ensures res == Failure(InvalidFormat) <==> !StartsWithHash(color) || |color| != 7
    ensures res == Failure(NotHexDigits) <==> StartsWithHash(color) && |color| == 7 && !IsHexColor(color)
    ensures res.Success? <==> IsHexColor(color)
    ensures res.Success? ==>
      var input := ParseColor(color).value;
      var out := res.value.complementary;
      && IsUpperHexColor(out)
      && var k := ParseColor(out).value;
      && k.r == 255 - input.r && k.g == 255 - input.g && k.b == 255 - input.b
      && |res.value.suggestions| == 3
      && (forall i :: 0 <= i < 3 ==> IsUpperHexColor(res.value.suggestions[i]))
      && res.value.suggestions[0] == out
      && ParseColor(res.value.suggestions[1]) == Some(Rgb(k.r, k.b, k.g))
      && ParseColor(res.value.suggestions[2]) == Some(Rgb(k.g, k.r, k.b))
  {
    if !StartsWithHash(color) || |color| != 7 then Failure(InvalidFormat)
    else match ParseColor(color)
      case None => Failure(NotHexDigits)
      case Some(c) =>
        var k := Complement(c);
        var comp := FormatColor(k);
        Success(Palette(comp, [comp, FormatColor(Rgb(k.r, k.b, k.g)), FormatColor(Rgb(k.g, k.r, k.b))]))
  }

  /** Complementing the complement gives the input back, upper-cased: `#336699` -> `#CC9966` -> `#336699`. */
  lemma {:induction false} ComplementaryTwice(color: string)
    requires IsHexColor(color)
    ensures Complementary(color).Success?
    ensures Complementary(Complementary(color).value.complementary).Success?
    ensures Complementary(Complementary(color).value.complementary).value.complementary == UpperCase(color)
  {
    var c := ParseColor(color).value;
    var comp := Complementary(color).value.complementary;
    assert comp == FormatColor(Complement(c));
    assert ParseColor(comp) == Some(Complement(c));
    ComplementInvolution(c);
    FormatParseColor(color);
  }

  /** Upper-casing leaves an upper-case colour unchanged. */
  lemma UpperCaseOfUpperColor(color: string)
    requires IsUpperHexColor(color)
    ensures IsHexColor(color) && UpperCase(color) == color
  {
    forall i | 1 <= i < 7 ensures IsHexDigit(color[i]) && UpperChar(color[i]) == color[i] {
      assert IsUpperHexDigit(color[i]);
    }
  }

  /** A colour already in upper case is a fixed point of complementing twice. */
  lemma {:induction false} ComplementaryTwiceUpper(color: string)
    requires IsUpperHexColor(color)
    ensures Complementary(color).Success?
    ensures Complementary(Complementary(color).value.complementary).value.complementary == color
  {
    UpperCaseOfUpperColor(color);
    ComplementaryTwice(color);
  }

  lemma ComplementaryExample()
    ensures Complementary("#336699") == Success(Palette("#CC9966", ["#CC9966", "#CC6699", "#99CC66"]))
  {
    assert ParseChannel("33") == Some(0x33);
    assert ParseChannel("66") == Some(0x66);
    assert ParseChannel("99") == Some(0x99);
    assert "#336699"[1..3] == "33" && "#336699"[3..5] == "66" && "#336699"[5..7] == "99";
    assert ParseColor("#336699") == Some(Rgb(0x33, 0x66, 0x99));
    assert FormatChannel(0xCC) == "CC" && FormatChannel(0x99) == "99" && FormatChannel(0x66) == "66";
    assert Complement(Rgb(0x33, 0x66, 0x99)) == Rgb(0xCC, 0x99, 0x66);
    assert FormatColor(Rgb(0xCC, 0x99, 0x66)) == "#CC9966";
    assert FormatColor(Rgb(0xCC, 0x66, 0x99)) == "#CC6699";
    assert FormatColor(Rgb(0x99, 0xCC, 0x66)) == "#99CC66";
  }

  lemma BlackExample()
    ensures Complementary("#000000") == Success(Palette("#FFFFFF", ["#FFFFFF", "#FFFFFF", "#FFFFFF"]))
  {
    assert ParseChannel("00") == Some(0);
    assert "#000000"[1..3] == "00" && "#000000"[3..5] == "00" && "#000000"[5..7] == "00";
    assert ParseColor("#000000") == Some(Rgb(0, 0, 0));
    assert FormatChannel(0xFF) == "FF";
    assert FormatColor(Rgb(0xFF, 0xFF, 0xFF)) == "#FFFFFF";
  }

  lemma InvalidFormatExample()
    ensures Complementary("336699") == Failure(InvalidFormat)
    ensures Complementary("#3366") == Failure(InvalidFormat)
    ensures Complementary("#GG0000") == Failure(NotHexDigits)
  {
    assert !IsHexDigit("#GG0000"[1]);
  }

  // ---------- The channel parse as the source performs it ----------

  /**
   * The whitespace that Python's `int` strips around a number: the ASCII
   * characters C's `isspace` accepts, and the non-ASCII characters
   * `str.isspace` accepts (which `int` first turns into a space). The ASCII
   * separators U+001C..U+001F are not among them.
   */
  predicate IsBlank(c: char) {
    || '\t' <= c <= '\r'                    // tab, line feed, vertical tab, form feed, carriage return
    || c == ' '
    || c == '\U{85}' || c == '\U{A0}' || c == '\U{1680}'
    || '\U{2000}' <= c <= '\U{200A}'
    || c == '\U{2028}' || c == '\U{2029}' || c == '\U{202F}' || c == '\U{205F}' || c == '\U{3000}'
  }

  /**
   * Python's `int(s, 16)` on a two-character slice, including the forms it
   * accepts besides two hexadecimal digits: a sign or a blank before a single
   * digit, or a blank after it. Non-ASCII digits are not modelled.
   */
  function ParseChannelAsWritten(s: string): (v: Option<int>)
    requires |s| == 2
    ensures v.Some? ==> -15 <= v.value < 256
    ensures IsHexDigit(s[0]) && IsHexDigit(s[1]) ==> v.Some? && v.value == ParseChannel(s).value
    ensures v.Some? && v.value < 0 ==> s[0] == '-'
  {
    if IsHexDigit(s[0]) && IsHexDigit(s[1]) then Some(16 * DigitValue(s[0]) + DigitValue(s[1]))
    else if (s[0] == '+' || IsBlank(s[0])) && IsHexDigit(s[1]) then Some(DigitValue(s[1]))
    else if s[0] == '-' && IsHexDigit(s[1]) then Some(0 - DigitValue(s[1]) as int)
    else if IsHexDigit(s[0]) && IsBlank(s[1]) then Some(DigitValue(s[0]))
    else None
  }

  /** `f"{n:02X}"` for any `n` below 4096: two digits below 256, three from 256 on. */
  function FormatWide(n: nat): (s: string)
    requires n < 4096
    ensures |s| == if n < 256 then 2 else 3
    ensures n < 256 ==> s == FormatChannel(n)
  {
    if n < 256 then FormatChannel(n)
    else [UpperDigit(n / 256), UpperDigit(n / 16 % 16), UpperDigit(n % 16)]
  }

  /** `f"#{r:02X}{g:02X}{b:02X}"` for channels that may exceed 255; the usual colour when none does. */
  function FormatWideColor(r: nat, g: nat, b: nat): (s: string)
    requires r < 4096 && g < 4096 && b < 4096
    ensures r < 256 && g < 256 && b < 256 ==> s == FormatColor(Rgb(r, g, b))
  {
    "#" + FormatWide(r) + FormatWide(g) + FormatWide(b)
  }

  /**
   * The endpoint exactly as written: the channels are parsed with Python's
   * `int(s, 16)`, so a slice such as `-f` decodes to -15 and its complement
   * 270 is printed with three digits.
   */
  function ComplementaryAsWritten(color: string): (res: Result<Palette, ColorError>)
    ensures res == Failure(InvalidFormat) <==> !StartsWithHash(color) || |color| != 7
    ensures res == Failure(NotHexDigits) ==> !IsHexColor(color)
  {
    if !StartsWithHash(color) || |color| != 7 then Failure(InvalidFormat)
    else
      var pr, pg, pb := ParseChannelAsWritten(color[1..3]), ParseChannelAsWritten(color[3..5]), ParseChannelAsWritten(color[5..7]);
      if pr.Some? && pg.Some? && pb.Some? then
        var r, g, b := 255 - pr.value, 255 - pg.value, 255 - pb.value;
        var comp := FormatWideColor(r, g, b);
        Success(Palette(comp, [comp, FormatWideColor(r, b, g), FormatWideColor(g, r, b)]))
      else
        assert !IsHexColor(color) by {
          assert color[1..3][0] == color[1] && color[1..3][1] == color[2];
          assert color[3..5][0] == color[3] && color[3..5][1] == color[4];
          assert color[5..7][0] == color[5] && color[5..7][1] == color[6];
        }
        Failure(NotHexDigits)
  }

  /** On a well-formed colour the endpoint as written answers exactly what the model does. */
  lemma AsWrittenAgrees(color: string)
    requires IsHexColor(color)
    ensures ComplementaryAsWritten(color) == Complementary(color)
  {
    var s1, s2, s3 := color[1..3], color[3..5], color[5..7];
    assert s1[0] == color[1] && s1[1] == color[2];
    assert s2[0] == color[3] && s2[1] == color[4];
    assert s3[0] == color[5] && s3[1] == color[6];
    var k := Complement(ParseColor(color).value);
    assert 255 - ParseChannelAsWritten(s1).value == k.r;
    assert 255 - ParseChannelAsWritten(s2).value == k.g;
    assert 255 - ParseChannelAsWritten(s3).value == k.b;
    assert FormatWideColor(k.r, k.g, k.b) == FormatColor(k);
  }

  /** As written, a `+` before a single digit is accepted and answered; the model refuses it. */
  lemma PlusSignAnswered()
    ensures ComplementaryAsWritten("#+f0000").Success?
    ensures ComplementaryAsWritten("#+f0000").value.complementary == "#F0FFFF"
  {
    var c := "#+f0000";
    assert c[1..3] == "+f" && c[3..5] == "00" && c[5..7] == "00";
    assert ParseChannelAsWritten("+f") == Some(15);
    assert ParseChannelAsWritten("00") == Some(0);
    assert FormatWideColor(240, 255, 255) == "#F0FFFF" by {
      assert FormatWide(240) == "F0";
      assert FormatWide(255) == "FF";
    }
  }

  /** As written, a blank before a single digit is accepted and answered; the model refuses it. */
  lemma LeadingBlankAnswered()
    ensures ComplementaryAsWritten("# f0000").Success?
    ensures ComplementaryAsWritten("# f0000").value.complementary == "#F0FFFF"
  {
    var c := "# f0000";
    assert c[1..3] == " f" && c[3..5] == "00" && c[5..7] == "00";
    assert ParseChannelAsWritten(" f") == Some(15);
    assert ParseChannelAsWritten("00") == Some(0);
    assert FormatWideColor(240, 255, 255) == "#F0FFFF" by {
      assert FormatWide(240) == "F0";
      assert FormatWide(255) == "FF";
    }
  }

  /** An ASCII separator is not whitespace to `int`: as written the request fails, and the model refuses it. */
  lemma SeparatorNotBlank()
    ensures ComplementaryAsWritten("#\U{1C}f0000").Failure?
    ensures Complementary("#\U{1C}f0000") == Failure(NotHexDigits)
  {
    var c := "#\U{1C}f0000";
    assert c[1..3] == "\U{1C}f";
    assert ParseChannelAsWritten(c[1..3]) == None;
    assert !IsHexDigit(c[1]);
  }

  /** As written, a blank after a single digit is accepted and answered; the model refuses it. */
  lemma TrailingBlankAnswered()
    ensures ComplementaryAsWritten("#f 0000").Success?
    ensures ComplementaryAsWritten("#f 0000").value.complementary == "#F0FFFF"
  {
    var c := "#f 0000";
    assert c[1..3] == "f " && c[3..5] == "00" && c[5..7] == "00";
    assert ParseChannelAsWritten("f ") == Some(15);
    assert ParseChannelAsWritten("00") == Some(0);
    assert FormatWideColor(240, 255, 255) == "#F0FFFF" by {
      assert FormatWide(240) == "F0";
      assert FormatWide(255) == "FF";
    }
  }

  /**
   * A negative channel slips through the format check and yields an
   * eight-character "colour"; the model's endpoint refuses the same input.
   */
  lemma SignedChannelBreaksFormat()
    ensures ComplementaryAsWritten("#-f0000").Success?
    ensures ComplementaryAsWritten("#-f0000").value.complementary == "#10EFFFF"
    ensures !IsUpperHexColor(ComplementaryAsWritten("#-f0000").value.complementary)
  {
    var c := "#-f0000";
    assert c[1..3] == "-f" && c[3..5] == "00" && c[5..7] == "00";
    assert ParseChannelAsWritten("-f") == Some(-15);
    assert ParseChannelAsWritten("00") == Some(0);
    assert FormatWideColor(270, 255, 255) == "#10EFFFF" by {
      assert FormatWide(270) == "10E";
      assert FormatWide(255) == "FF";
    }
  }

  /** The model refuses every channel with a sign or whitespace that Python's `int` accepts. */
  lemma SignedAndBlankRefused()
    ensures Complementary("#+f0000") == Failure(NotHexDigits)
    ensures Complementary("#-f0000") == Failure(NotHexDigits)
    ensures Complementary("# f0000") == Failure(NotHexDigits)
    ensures Complementary("#f 0000") == Failure(NotHexDigits)
  {
    assert !IsHexDigit("#+f0000"[1]);
    assert !IsHexDigit("#-f0000"[1]);
    assert !IsHexDigit("# f0000"[1]);
    assert !IsHexDigit("#f 0000"[2]);
  }
}
