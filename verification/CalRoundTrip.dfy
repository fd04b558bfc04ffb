/** Printing the calibration file and reading it back (src/tt_cal.c). */
module CalRoundTrip {
  import opened Calibration
  import opened CalFile

  /** The two numbers of a channel as they are printed. */
  datatype Tokens = Tokens(offset: string, scale: string)

  // What the two formats print.

  predicate Digits(s: string) {
    s != "" && forall k :: 0 <= k < |s| ==> '0' <= s[k] <= '9'
  }

  /** A printed number: a sign if it is negative, digits, a dot and more digits if
      it is not whole, and an exponent with its own sign if it is large or small. */
  datatype Numeral = Numeral(sign: string, whole: string, part: string, power: string) {
    predicate Valid() {
      && (sign == "" || sign == "-")
      && Digits(whole)
      && (part == "" || (part[0] == '.' && Digits(part[1..])))
      && (power == "" || (|power| > 2 && power[0] == 'e' && (power[1] == '+' || power[1] == '-') && Digits(power[2..])))
    }

    function Text(): string {
      sign + whole + part + power
    }
  }

  /** What `%.9g` prints for a finite number. */
  ghost predicate GeneralForm(t: string) {
    |t| <= 63 && exists n: Numeral :: n.Valid() && t == n.Text()
  }

  /** What `%.6f` prints for a finite number. */
  ghost predicate FixedForm(t: string) {
    |t| <= 63 && exists n: Numeral :: n.Valid() && t == n.Text() && |n.part| == 7 && n.power == ""
  }

  ghost predicate Numeric(s: string) {
    forall k :: 0 <= k < |s| ==> InNumber(s[k])
  }

  lemma NumericPair(a: string, b: string)
    requires Numeric(a) && Numeric(b)
    ensures Numeric(a + b)
  {}

  lemma PartsNumeric(n: Numeral)
    requires n.Valid()
    ensures Numeric(n.sign) && Numeric(n.whole) && Numeric(n.part) && Numeric(n.power)
  {
    assert forall k :: 1 <= k < |n.part| ==> n.part[k] == n.part[1..][k - 1];
    assert forall k :: 2 <= k < |n.power| ==> n.power[k] == n.power[2..][k - 2];
  }

  /** Whatever the formats print can be read back whole. */
  lemma FormsReadable(t: string)
    ensures FixedForm(t) ==> GeneralForm(t)
    ensures GeneralForm(t) ==> Readable(t)
  {
    if GeneralForm(t) {
      var n: Numeral :| n.Valid() && t == n.Text();
      assert n.whole != "";
      PartsNumeric(n);
      hide Numeral.Valid, Numeric, InNumber;
      NumericPair(n.sign, n.whole);
      NumericPair(n.sign + n.whole, n.part);
      NumericPair(n.sign + n.whole + n.part, n.power);
      TextReadable(t);
    }
  }

  lemma TextReadable(t: string)
    requires Numeric(t) && 0 < |t| <= 63
    ensures Readable(t)
  {}

  /** Negative numbers too: an object that gives a printed scale is read as giving
      that scale. The nominal scale of every channel is such a number. */
  lemma ScaleRead(t: string)
    requires GeneralForm(t)
    ensures Field("{ \"scale\": " + t + " ", "scale") == Some(t)
  {
    FormsReadable(t);
    var rest := t + " ";
    assert "{ \"scale\": " + t + " " == "{ " + ("\"" + "scale" + "\": " + rest);
    hide FindKey, Token;
    Plain("{ ", "\"" + "scale" + "\": " + rest, "scale");
    assert rest[0] == t[0];
    TheKey("scale", rest);
    WholeToken(t, " ", MAX_TOKEN);
  }

  // Some printed numbers: the nominal scale, a small and a large one, the middle
  // code and a negative offset.

  lemma NominalScale()
    ensures GeneralForm("-0.00244140625")
  {
    IsPrinted(Numeral("-", "0", ".00244140625", ""), "-0.00244140625", "00244140625", "");
  }

  lemma SmallScale()
    ensures GeneralForm("-2.5e-05")
  {
    IsPrinted(Numeral("-", "2", ".5", "e-05"), "-2.5e-05", "5", "05");
  }

  lemma LargeScale()
    ensures GeneralForm("3e+10")
  {
    IsPrinted(Numeral("", "3", "", "e+10"), "3e+10", "", "10");
  }

  lemma MiddleOffset()
    ensures FixedForm("2048.000000")
  {
    IsPrinted(Numeral("", "2048", ".000000", ""), "2048.000000", "000000", "");
  }

  lemma NegativeOffset()
    ensures FixedForm("-0.500000")
  {
    IsPrinted(Numeral("-", "0", ".500000", ""), "-0.500000", "500000", "");
  }

  lemma IsPrinted(n: Numeral, t: string, part: string, power: string)
    requires n.sign in {"", "-"} && Digits(n.whole) && n.Text() == t && |t| <= 63
    requires if part == "" then n.part == "" else n.part == "." + part && Digits(part)
    requires if power == "" then n.power == ""
             else (n.power == "e-" + power || n.power == "e+" + power) && Digits(power)
    ensures GeneralForm(t) && (|part| == 6 && power == "" ==> FixedForm(t))
  {
    if part != "" { assert n.part[1..] == part; }
    if power != "" { assert n.power[2..] == power; }
    assert n.Valid();
  }

  /** A token the scanner can read whole. */
  ghost predicate Readable(token: string) {
    0 < |token| <= MAX_TOKEN && forall k :: 0 <= k < |token| ==> InNumber(token[k])
  }

  const VERSION := "{\n  \"version\": 1,\n"
  const NOTE := "volts = (raw_code - offset) * scale"
  const COMMENT := "  \"comment\": \"" + NOTE + "\",\n"
  const CHANNELS := "  \"channels\": [\n"
  const FOOT := "  ]\n}\n"

  /** The line of one channel. */
  function Line(c: Tokens, last: bool): string {
    "    " + Body(c) + "}" + (if last then "\n" else ",\n")
  }

  function Body(c: Tokens): string {
    "{ \"offset\": " + c.offset + ", \"scale\": " + c.scale + " "
  }

  function Lines(cs: seq<Tokens>): string {
    if cs == [] then "" else Line(cs[0], |cs| == 1) + Lines(cs[1..])
  }

  function Printed(cs: seq<Tokens>): string {
    VERSION + COMMENT + CHANNELS + Lines(cs) + FOOT
  }

  /** `tt_cal_save_file`: the text that is written. */
  method Save(cal: array<Channel>, fixed: real -> string, general: real -> string) returns (text: string)
    requires cal.Length == MAX_CHANNELS
    ensures text == Printed(TokensOf(cal[..], fixed, general))
  {
    hide Line;
    ghost var cs := TokensOf(cal[..], fixed, general);
    text := VERSION + COMMENT + CHANNELS;
    ghost var start := text;
    assert cs[0..] == cs;
    for i := 0 to MAX_CHANNELS
      invariant text + Lines(cs[i..]) == start + Lines(cs)
    {
      var c := Tokens(fixed(cal[i].offset), general(cal[i].scale));
      assert cs[i..][0] == c && cs[i..][1..] == cs[i + 1..];
      text := text + Line(c, i + 1 == MAX_CHANNELS);
    }
    assert text == start + Lines(cs);
    text := text + FOOT;
  }

  function TokensOf(cal: seq<Channel>, fixed: real -> string, general: real -> string): seq<Tokens> {
    seq(|cal|, i requires 0 <= i < |cal| => Tokens(fixed(cal[i].offset), general(cal[i].scale)))
  }

  // Searching printed text piece by piece.

  lemma {:induction false} Plain(piece: string, rest: string, key: string)
    requires '"' !in piece
    ensures FindKey(piece + rest, key) == FindKey(rest, key)
  {
    if piece == "" {
      assert piece + rest == rest;
    } else {
      assert (piece + rest)[1..] == piece[1..] + rest;
      Plain(piece[1..], rest, key);
    }
  }

  /** A quote that does not begin the key. */
  lemma {:induction false} OtherQuote(rest: string, key: string, i: nat)
    requires i < |key| && i < |rest| && key[i] != rest[i]
    ensures FindKey("\"" + rest, key) == FindKey(rest, key)
  {
    assert ("\"" + rest)[1..] == rest;
    if |key| < |rest| { assert rest[..|key|][i] == rest[i]; }
  }

  /** The key itself. */
  lemma {:induction false} TheKey(key: string, rest: string)
    requires rest != "" && !IsBlank(rest[0])
    ensures FindKey("\"" + key + "\": " + rest, key) == Some(rest)
  {
    var s := key + "\": " + rest;
    assert "\"" + key + "\": " + rest == "\"" + s;
    assert ("\"" + s)[1..] == s;
    assert s[|key|] == '"' && s[..|key|] == key;
    var r := ": " + rest;
    assert s[|key| + 1..] == r;
    assert r[1..] == " " + rest;
    assert (" " + rest)[1..] == rest;
    assert Trim(r) == r && Trim(" " + rest) == Trim(rest) == rest;
    assert KeyHere(s, key) && ValueHere(s, key) == rest;
  }

  lemma {:induction false} WholeToken(token: string, rest: string, n: nat)
    requires |token| <= n && forall k :: 0 <= k < |token| ==> InNumber(token[k])
    requires rest == "" || !InNumber(rest[0])
    ensures Token(token + rest, n) == token
  {
    if token == "" {
      assert token + rest == rest;
    } else {
      assert (token + rest)[1..] == token[1..] + rest;
      WholeToken(token[1..], rest, n - 1);
    }
  }

  /** The fields of one printed object. */
  lemma {:induction false} OffsetOf(c: Tokens)
    requires Readable(c.offset)
    ensures Field(Body(c), "offset") == Some(c.offset)
  {
    var rest := c.offset + ", \"scale\": " + c.scale + " ";
    var tail := ", \"scale\": " + c.scale + " ";
    assert rest == c.offset + tail;
    assert Body(c) == "{ " + ("\"" + "offset" + "\": " + rest);
    Plain("{ ", "\"" + "offset" + "\": " + rest, "offset");
    assert rest[0] == c.offset[0];
    TheKey("offset", rest);
    WholeToken(c.offset, tail, MAX_TOKEN);
  }

  lemma {:induction false} ScaleOf(c: Tokens)
    requires Readable(c.offset) && Readable(c.scale)
    ensures Field(Body(c), "scale") == Some(c.scale)
  {
    hide FindKey, Token;
    var rest := c.scale + " ";
    var s := "\"" + "scale" + "\": " + rest;
    assert Body(c) == "{ \"offset\": " + c.offset + ", " + s;
    NoQuotes(c.offset);
    PassOffset(c.offset, s);
    assert rest[0] == c.scale[0];
    TheKey("scale", rest);
    WholeToken(c.scale, " ", MAX_TOKEN);
  }

  lemma {:induction false} PassOffset(token: string, rest: string)
    requires '"' !in token
    ensures FindKey("{ \"offset\": " + token + ", " + rest, "scale") == FindKey(rest, "scale")
  {
    hide FindKey;
    var s3 := ": " + token + ", ";
    var s2 := "\"" + (s3 + rest);
    var s1 := "\"" + ("offset" + s2);
    assert "{ \"offset\": " + token + ", " + rest == "{ " + s1;
    Plain("{ ", s1, "scale");
    OtherQuote("offset" + s2, "scale", 0);
    Plain("offset", s2, "scale");
    OtherQuote(s3 + rest, "scale", 0);
    Plain(s3, rest, "scale");
  }

  lemma NoQuotes(token: string)
    requires Readable(token)
    ensures '"' !in token && '}' !in token
  {}

  lemma {:induction false} FirstBrace(s: string, rest: string)
    requires '}' !in s
    ensures IndexOf(s + "}" + rest, '}') == |s|
  {
    if s == "" {
      assert s + "}" + rest == "}" + rest;
    } else {
      assert (s + "}" + rest)[1..] == s[1..] + "}" + rest;
      FirstBrace(s[1..], rest);
    }
  }

  /** One printed line yields one entry and nothing else. */
  lemma {:induction false} LineYields(c: Tokens, last: bool, rest: string, n: nat)
    requires n > 0 && Readable(c.offset) && Readable(c.scale)
    ensures Objects(Line(c, last) + rest, n) == [Entry(Some(c.offset), Some(c.scale))] + Objects(rest, n - 1)
  {
    hide Field, Objects;
    var eol := if last then "\n" else ",\n";
    assert Line(c, last) + rest == "    " + (Body(c) + "}" + (eol + rest));
    Indented(Body(c) + "}" + (eol + rest), n);
    OffsetOf(c);
    ScaleOf(c);
    NoBrace(c);
    ObjectYields(Body(c), eol + rest, n);
    EndOfLine(rest, last, n - 1);
  }

  lemma {:induction false} ObjectYields(body: string, rest: string, n: nat)
    requires n > 0 && body != "" && body[0] == '{' && '}' !in body
    ensures Objects(body + "}" + rest, n) ==
              [Entry(Field(body, "offset"), Field(body, "scale"))] + Objects(rest, n - 1)
  {
    hide Field, Objects, IndexOf;
    var t := body + "}" + rest;
    FirstBrace(body, rest);
    assert t[..|body|] == body && t[|body| + 1..] == rest && t[0] == '{';
    ObjectsStep(t, n);
  }

  lemma NoBrace(c: Tokens)
    requires Readable(c.offset) && Readable(c.scale)
    ensures '}' !in Body(c)
  {
    NoQuotes(c.offset);
    NoQuotes(c.scale);
  }

  lemma {:induction false} SkipBlank(s: string, n: nat)
    requires s != "" && IsBlank(s[0])
    ensures Objects(s, n) == Objects(s[1..], n)
  {
    ObjectsTrimmed(s, n);
    ObjectsTrimmed(s[1..], n);
    hide Objects;
  }

  lemma {:induction false} Indented(t: string, n: nat)
    ensures Objects("    " + t, n) == Objects(t, n)
  {
    hide Objects;
    SkipBlank("    " + t, n);
    assert ("    " + t)[1..] == "   " + t;
    SkipBlank("   " + t, n);
    assert ("   " + t)[1..] == "  " + t;
    SkipBlank("  " + t, n);
    assert ("  " + t)[1..] == " " + t;
    SkipBlank(" " + t, n);
    assert (" " + t)[1..] == t;
  }

  lemma {:induction false} EndOfLine(rest: string, last: bool, n: nat)
    ensures Objects((if last then "\n" else ",\n") + rest, n) == Objects(rest, n)
  {
    SkipBlank("\n" + rest, n);
    assert ("\n" + rest)[1..] == rest;
    if !last {
      var s := ",\n" + rest;
      assert s[1..] == "\n" + rest;
      ObjectsStep(s, n);
      ObjectsStep("\n" + rest, n);
    }
  }

  function Entered(cs: seq<Tokens>): seq<Entry> {
    seq(|cs|, i requires 0 <= i < |cs| => Entry(Some(cs[i].offset), Some(cs[i].scale)))
  }

  lemma {:induction false} LinesYield(cs: seq<Tokens>)
    requires forall c :: c in cs ==> Readable(c.offset) && Readable(c.scale)
    ensures Objects(Lines(cs) + FOOT, |cs|) == Entered(cs)
  {
    hide Objects, Line, FOOT, Readable;
    if cs == [] {
      ObjectsStep(FOOT, 0);
      assert "" + FOOT == FOOT;
    } else {
      var rest := Lines(cs[1..]) + FOOT;
      assert Lines(cs) + FOOT == Line(cs[0], |cs| == 1) + rest;
      LineYields(cs[0], |cs| == 1, rest, |cs|);
      LinesYield(cs[1..]);
      assert Entered(cs) == [Entry(Some(cs[0].offset), Some(cs[0].scale))] + Entered(cs[1..]);
    }
  }

  lemma {:induction false} PassVersion(rest: string)
    ensures FindKey(VERSION + rest, "channels") == FindKey(rest, "channels")
  {
    hide FindKey;
    var key := "channels";
    var s3 := ": 1,\n" + rest;
    var s2 := "\"" + s3;
    var s1 := "\"" + ("version" + s2);
    assert VERSION + rest == "{\n  " + s1;
    Plain("{\n  ", s1, key);
    OtherQuote("version" + s2, key, 0);
    Plain("version", s2, key);
    OtherQuote(s3, key, 0);
    Plain(": 1,\n", rest, key);
  }

  lemma {:induction false} PassComment(note: string, rest: string)
    requires '"' !in note && note != "" && note[0] != 'c'
    ensures FindKey("  \"comment\": \"" + note + "\",\n" + rest, "channels") == FindKey(rest, "channels")
  {
    hide FindKey;
    var key := "channels";
    var s5 := ",\n" + rest;
    var s4 := "\"" + s5;
    var s3 := "\"" + (note + s4);
    var s2 := "\"" + (": " + s3);
    var s1 := "\"" + ("comment" + s2);
    assert "  \"comment\": \"" + note + "\",\n" + rest == "  " + s1;
    Plain("  ", s1, key);
    OtherQuote("comment" + s2, key, 1);
    Plain("comment", s2, key);
    OtherQuote(": " + s3, key, 0);
    Plain(": ", s3, key);
    OtherQuote(note + s4, key, 0);
    Plain(note, s4, key);
    OtherQuote(s5, key, 0);
    Plain(",\n", rest, key);
  }

  /** The search for the array passes over the version and the comment, though
      the comment names both keys. */
  lemma {:induction false} FindsArray(lines: string)
    ensures FindKey(VERSION + COMMENT + CHANNELS + lines, "channels") == Some("[\n" + lines)
  {
    hide FindKey;
    var a := CHANNELS + lines;
    PassVersion(COMMENT + a);
    PassComment(NOTE, a);
    AtChannels(lines);
    Regroup(VERSION, COMMENT, CHANNELS, lines);
  }

  lemma Regroup(a: string, b: string, c: string, d: string)
    ensures a + b + c + d == a + (b + (c + d))
  {}

  lemma {:induction false} AtChannels(lines: string)
    ensures FindKey(CHANNELS + lines, "channels") == Some("[\n" + lines)
  {
    hide FindKey;
    var key := "\"" + "channels" + "\": " + ("[\n" + lines);
    assert CHANNELS + lines == "  " + key;
    Plain("  ", key, "channels");
    TheKey("channels", "[\n" + lines);
  }

  /** Scanning the printed file recovers exactly the printed number tokens. */
  lemma {:induction false} TokensRecovered(cs: seq<Tokens>)
    requires |cs| == MAX_CHANNELS && forall c :: c in cs ==> Readable(c.offset) && Readable(c.scale)
    ensures Entries(Printed(cs)) == Entered(cs)
  {
    var lines := Lines(cs) + FOOT;
    PrintedParts(cs);
    hide *;
    FindsArray(lines);
    ArrayOpens(VERSION + COMMENT + CHANNELS + lines, lines);
    LinesYield(cs);
  }

  lemma PrintedParts(cs: seq<Tokens>)
    ensures Printed(cs) == VERSION + COMMENT + CHANNELS + (Lines(cs) + FOOT)
  {
    hide Lines, VERSION, COMMENT, CHANNELS, FOOT;
  }

  /** The entries of a text are the objects behind the array's bracket. */
  lemma ArrayOpens(text: string, lines: string)
    requires FindKey(text, "channels") == Some("[\n" + lines)
    ensures Entries(text) == Objects(lines, MAX_CHANNELS)
  {
    hide FindKey, Objects;
    assert ("[\n" + lines)[1..] == "\n" + lines;
    SkipBlank("\n" + lines, MAX_CHANNELS);
    assert ("\n" + lines)[1..] == lines;
  }

  lemma {:induction false} LinesSize(cs: seq<Tokens>)
    requires forall c :: c in cs ==> Readable(c.offset) && Readable(c.scale)
    ensures |Lines(cs)| <= 200 * |cs|
  {
    if cs != [] { LinesSize(cs[1..]); }
  }

  lemma PrintedSize(cs: seq<Tokens>)
    requires |cs| == MAX_CHANNELS && forall c :: c in cs ==> Readable(c.offset) && Readable(c.scale)
    ensures |Printed(cs)| <= MAX_SIZE
  {
    LinesSize(cs);
    hide Lines;
  }

  /** Saving and loading back, fixed and general being what `%.6f` and `%.9g`
      print: every channel gets the numbers its tokens stand for; a token that is
      no number leaves what was there. */
  method SaveThenLoad(cal: array<Channel>, other: array<Channel>,
                      fixed: real -> string, general: real -> string, number: string -> Option<real>)
    returns (r: int)
    requires cal.Length == other.Length == MAX_CHANNELS
    requires forall c :: c in cal[..] ==> FixedForm(fixed(c.offset)) && GeneralForm(general(c.scale))
    modifies other
    ensures r == 0
    ensures forall i :: 0 <= i < MAX_CHANNELS ==>
              && other[i].offset == (match number(fixed(old(cal[i]).offset))
                                     case Some(x) => x
                                     case None => old(other[i]).offset)
              && other[i].scale == (match number(general(old(cal[i]).scale))
                                    case Some(x) => x
                                    case None => old(other[i]).scale)
  {
    hide Printed, Entries;
    ghost var cs := TokensOf(cal[..], fixed, general);
    forall c | c in cs ensures Readable(c.offset) && Readable(c.scale) {
      var i :| 0 <= i < |cs| && cs[i] == c;
      assert cal[..][i] in cal[..];
      FormsReadable(c.offset);
      FormsReadable(c.scale);
    }
    var text := Save(cal, fixed, general);
    TokensRecovered(cs);
    PrintedSize(cs);
    assert |Entries(text)| == MAX_CHANNELS;
    r := Load(text, other, number);
  }
}
