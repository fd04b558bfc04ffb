/** The calibration file: the printer and the hand-written scanner of
    src/tt_cal.c. Text is a string; the NUL behind it reads as '\0'. Converting
    between numbers and their decimal tokens is left to parameters. */
module CalFile {
  import opened Calibration

  datatype Option<T> = None | Some(value: T)

  /** The longest number token the scanner reads, and the largest file. */
  const MAX_TOKEN := 63
  const MAX_SIZE := 0x10_0000

  predicate IsBlank(c: char) {
    c == ' ' || c == '\t' || c == '\n' || c == '\r'
  }

  predicate InNumber(c: char) {
    c == '-' || c == '+' || c == '.' || c == 'e' || c == 'E' || '0' <= c <= '9'
  }

  // What a text says.

  function Trim(s: string): string {
    if s != "" && IsBlank(s[0]) then Trim(s[1..]) else s
  }

  /** s, which follows a quote, is the key, a quote and, blanks aside, a colon. */
  predicate KeyHere(s: string, key: string) {
    && |key| < |s| && s[..|key|] == key && s[|key|] == '"'
    && var r := Trim(s[|key| + 1..]); r != "" && r[0] == ':'
  }

  /** What follows the colon. */
  function ValueHere(s: string, key: string): string
    requires KeyHere(s, key)
  {
    Trim(Trim(s[|key| + 1..])[1..])
  }

  /** What follows the first use of the key. */
  function FindKey(s: string, key: string): Option<string> {
    if s == "" then None
    else if s[0] == '"' && KeyHere(s[1..], key) then Some(ValueHere(s[1..], key))
    else FindKey(s[1..], key)
  }

  /** The number characters s starts with, n at most. */
  function Token(s: string, n: nat): string {
    if n == 0 || s == "" || !InNumber(s[0]) then "" else [s[0]] + Token(s[1..], n - 1)
  }

  /** Whether a quote at q begins the key. */
  predicate KeyAt(s: string, q: nat, key: string) {
    q < |s| && s[q] == '"' && KeyHere(s[q + 1..], key)
  }

  /** The search finds the first quote that begins the key, if there is one, and
      returns what follows its colon. */
  lemma {:induction false} FindsFirst(s: string, key: string) returns (q: nat)
    ensures FindKey(s, key) == None <==> forall k: nat :: !KeyAt(s, k, key)
    ensures FindKey(s, key).Some? ==>
              KeyAt(s, q, key) && FindKey(s, key) == Some(ValueHere(s[q + 1..], key))
              && forall k: nat :: k < q ==> !KeyAt(s, k, key)
  {
    hide KeyHere, ValueHere;
    q := 0;
    if s != "" && !KeyAt(s, 0, key) {
      var r := FindsFirst(s[1..], key);
      q := r + 1;
      forall k: nat | k < |s| ensures k > 0 ==> KeyAt(s, k, key) == KeyAt(s[1..], k - 1, key) {
        if k > 0 { assert s[1..][k - 1 + 1..] == s[k + 1..]; }
      }
      forall k: nat ensures KeyAt(s[1..], k, key) == KeyAt(s, k + 1, key) {
        if k < |s| - 1 { assert s[1..][k + 1..] == s[k + 1 + 1..]; }
      }
    }
  }

  /** A token is all the signs, dots, digits and exponent letters at the front, n
      at most. */
  lemma {:induction false} TokenIsLongest(s: string, n: nat)
    ensures var t := Token(s, n);
            && |t| <= n && |t| <= |s| && t == s[..|t|] && (forall k :: 0 <= k < |t| ==> t[k] in NUMBER)
            && (|t| < n && |t| < |s| ==> s[|t|] !in NUMBER)
  {
    hide NUMBER;
    if s != "" { NumberChar(s[0]); }
    if n > 0 && s != "" && InNumber(s[0]) { TokenIsLongest(s[1..], n - 1); }
  }

  const NUMBER := "+-.0123456789eE"

  lemma NumberChar(c: char)
    ensures InNumber(c) <==> c in NUMBER
  {
    if '0' <= c <= '9' { Digit(c as int - '0' as int); }
  }

  lemma Digit(d: nat)
    requires d <= 9
    ensures NUMBER[3 + d] == '0' + d as char
  {}

  /** The number token a key has in an object, if any. */
  function Field(s: string, key: string): Option<string> {
    match FindKey(s, key)
    case None => None
    case Some(v) => if Token(v, MAX_TOKEN) == "" then None else Some(Token(v, MAX_TOKEN))
  }

  /** The number tokens of one object. */
  datatype Entry = Entry(offset: Option<string>, scale: Option<string>)

  function IndexOf(s: string, c: char): (i: nat)
    ensures i <= |s| && (i < |s| ==> s[i] == c)
  {
    if s == "" then 0 else if s[0] == c then 0 else 1 + IndexOf(s[1..], c)
  }

  /** The first n objects up to the closing bracket. */
  function Objects(s: string, n: nat): (es: seq<Entry>)
    ensures |es| <= n
    decreases |Trim(s)|, |s|
  {
    var t := Trim(s);
    if n == 0 || t == "" || t[0] == ']' || t[0] == '\0' then []
    else if t[0] != '{' then (TrimShrinks(t[1..]); Objects(t[1..], n))
    else
      var k := IndexOf(t, '}');
      if k == |t| then []
      else
        TrimShrinks(t[k + 1..]);
        [Entry(Field(t[..k], "offset"), Field(t[..k], "scale"))] + Objects(t[k + 1..], n - 1)
  }

  lemma {:induction false} TrimShrinks(s: string)
    ensures |Trim(s)| <= |s|
  {
    if s != "" && IsBlank(s[0]) { TrimShrinks(s[1..]); }
  }

  /** The objects of the "channels" array; none when there is no such array. */
  function Entries(s: string): seq<Entry> {
    match FindKey(s, "channels")
    case None => []
    case Some(v) => if v == "" || v[0] != '[' then [] else Objects(v[1..], MAX_CHANNELS)
  }

  /** A channel after an object has been read into it: what the object does not
      give, or gives as something that is no number, stays. */
  function Updated(c: Channel, e: Entry, number: string -> Option<real>): Channel {
    Channel(Given(e.offset, number, c.offset), Given(e.scale, number, c.scale))
  }

  function Given(token: Option<string>, number: string -> Option<real>, was: real): real {
    if token.Some? && number(token.value).Some? then number(token.value).value else was
  }

  // The scanner.

  function At(t: string, p: nat): char {
    if p < |t| then t[p] else '\0'
  }

  /** Whether a stretch of text may end at `end`: the scanners stop there. */
  predicate Stops(t: string, end: nat) {
    end == |t| || (end < |t| && t[end] == '}')
  }

  method SkipBlanks(t: string, p: nat, ghost end: nat) returns (r: nat)
    requires p <= end && Stops(t, end)
    ensures p <= r <= end && t[r..end] == Trim(t[p..end])
    ensures (forall k :: p <= k < r ==> t[k] in " \t\n\r") && (r < end ==> t[r] !in " \t\n\r")
  {
    r := p;
    while IsBlank(At(t, r))
      invariant p <= r <= end && Trim(t[r..end]) == Trim(t[p..end])
      invariant forall k :: p <= k < r ==> t[k] in " \t\n\r"
      decreases end - r
    {
      assert t[r..end] != "" && t[r..end][0] == t[r];
      assert t[r..end][1..] == t[r + 1..end];
      r := r + 1;
    }
  }

  /** The first c in [p, end), or end. */
  method FindChar(t: string, p: nat, end: nat, c: char) returns (r: nat)
    requires p <= end <= |t|
    ensures r == p + IndexOf(t[p..end], c)
  {
    hide IndexOf;
    r := p;
    while r < end && t[r] != c
      invariant p <= r <= end && r - p + IndexOf(t[r..end], c) == IndexOf(t[p..end], c)
    {
      IndexStep(t[r..end], c);
      assert t[r..end][1..] == t[r + 1..end];
      r := r + 1;
    }
    IndexStep(t[r..end], c);
  }

  lemma {:induction false} IndexStep(s: string, c: char)
    ensures IndexOf(s, c) == if s == "" || s[0] == c then 0 else 1 + IndexOf(s[1..], c)
  {}

  lemma {:induction false} Cut(t: string, p: nat, end: nat, n: nat)
    requires p + n <= end <= |t|
    ensures t[p..end][..n] == t[p..p + n] && t[p..end][n..] == t[p + n..end]
    ensures n < end - p ==> t[p..end][n] == t[p + n]
  {
    var s := t[p..end];
    forall k | 0 <= k < n ensures s[..n][k] == t[p..p + n][k] { assert s[k] == t[p + k]; }
    forall k | 0 <= k < end - p - n ensures s[n..][k] == t[p + n..end][k] { assert s[n + k] == t[p + n + k]; }
  }

  /** The key test, in positions. */
  lemma KeyHereAt(t: string, q: nat, end: nat, key: string)
    requires q <= end <= |t|
    ensures var n := |key|;
            if n < end - q && t[q..q + n] == key && t[q + n] == '"' then
              var r := Trim(t[q + n + 1..end]);
              && (KeyHere(t[q..end], key) <==> r != "" && r[0] == ':')
              && (KeyHere(t[q..end], key) ==> ValueHere(t[q..end], key) == Trim(r[1..]))
            else !KeyHere(t[q..end], key)
  {
    hide Trim;
    if |key| < end - q {
      Cut(t, q, end, |key|);
      Cut(t, q, end, |key| + 1);
    }
  }

  /** Whether the text behind a quote at q - 1 is the key, and where its value is. */
  method MatchKey(t: string, q: nat, end: nat, key: string) returns (found: bool, at: nat)
    requires q <= end && Stops(t, end)
    ensures found <==> KeyHere(t[q..end], key)
    ensures found ==> q <= at <= end && t[at..end] == ValueHere(t[q..end], key)
  {
    hide KeyHere, ValueHere, Trim;
    var n := |key|;
    KeyHereAt(t, q, end, key);
    if end - q >= n && t[q..q + n] == key && At(t, q + n) == '"' {
      var r := SkipBlanks(t, q + n + 1, end);
      if At(t, r) == ':' {
        Cut(t, r, end, 1);
        at := SkipBlanks(t, r + 1, end);
        return true, at;
      }
    }
    return false, 0;
  }

  /** The search from p goes on at q, the first quote. */
  lemma {:induction false} FindAt(t: string, p: nat, q: nat, end: nat, key: string)
    requires p <= end <= |t| && q == p + IndexOf(t[p..end], '"')
    ensures FindKey(t[p..end], key) ==
              if q == end then None
              else if KeyHere(t[q + 1..end], key) then Some(ValueHere(t[q + 1..end], key))
              else FindKey(t[q + 1..end], key)
  {
    hide KeyHere, ValueHere, IndexOf;
    SkipPlain(t[p..end], key);
    Cut(t, p, end, q - p);
    if q < end { Cut(t, q, end, 1); }
  }

  lemma NothingToFind(t: string, end: nat, key: string)
    requires end <= |t|
    ensures FindKey(t[end..end], key) == None
  {}

  /** `find_key`: the position of the value of the first use of the key. */
  method Find(t: string, start: nat, end: nat, key: string) returns (found: bool, at: nat)
    requires start <= end && Stops(t, end)
    ensures found <==> FindKey(t[start..end], key).Some?
    ensures found ==> start <= at <= end && FindKey(t[start..end], key) == Some(t[at..end])
  {
    hide KeyHere, ValueHere, FindKey, IndexOf;
    NothingToFind(t, end, key);
    var p := start;
    while p < end
      invariant start <= p <= end && FindKey(t[p..end], key) == FindKey(t[start..end], key)
    {
      var q := FindChar(t, p, end, '"');
      FindAt(t, p, q, end, key);
      if q == end { return false, 0; }
      found, at := MatchKey(t, q + 1, end, key);
      if found { return; }
      p := q + 1;
    }
    return false, 0;
  }

  /** Nothing before the first quote matters to the search. */
  lemma {:induction false} SkipPlain(s: string, key: string)
    ensures FindKey(s, key) == FindKey(s[IndexOf(s, '"')..], key)
  {
    if s != "" && s[0] != '"' {
      SkipPlain(s[1..], key);
      assert s[1..][IndexOf(s[1..], '"')..] == s[IndexOf(s, '"')..];
    }
  }

  lemma {:induction false} TokenAt(t: string, i: nat, end: nat, n: nat)
    requires i <= end <= |t|
    ensures Token(t[i..end], n) ==
              if i < end && n > 0 && InNumber(t[i]) then [t[i]] + Token(t[i + 1..end], n - 1) else ""
  {
    if i < end { assert t[i..end][1..] == t[i + 1..end]; }
  }

  /** `read_num`: the number at p, read up to `end`. */
  method ReadNumber(t: string, p: nat, end: nat, number: string -> Option<real>) returns (v: Option<real>)
    requires p <= end <= |t|
    ensures var token := Token(t[p..end], MAX_TOKEN);
            v == if token == "" then None else number(token)
  {
    hide Token, InNumber;
    var tmp, i := "", p;
    ghost var rest := Token(t[p..end], MAX_TOKEN);
    ghost var token := rest;
    while i < end && |tmp| + 1 < 64 && InNumber(t[i])
      invariant p <= i <= end && |tmp| <= MAX_TOKEN
      invariant rest == Token(t[i..end], MAX_TOKEN - |tmp|)
      invariant token == tmp + rest
    {
      TokenAt(t, i, end, MAX_TOKEN - |tmp|);
      rest := rest[1..];
      tmp := tmp + [t[i]];
      i := i + 1;
    }
    TokenAt(t, i, end, MAX_TOKEN - |tmp|);
    assert rest == "" && token == tmp;
    if tmp == "" { return None; }
    v := number(tmp);
  }

  /** One key of one object: the number it gives, or what was there. */
  method ReadField(t: string, p: nat, end: nat, key: string, number: string -> Option<real>, was: real)
    returns (v: real)
    requires p <= end && Stops(t, end)
    ensures v == Given(Field(t[p..end], key), number, was)
  {
    v := was;
    var found, at := Find(t, p, end, key);
    if found {
      var n := ReadNumber(t, at, end, number);
      if n.Some? { v := n.value; }
    }
  }

  /** One object, read into one channel. */
  method ReadObject(t: string, p: nat, end: nat, cal: array<Channel>, ch: nat, number: string -> Option<real>)
    requires p <= end && Stops(t, end) && ch < cal.Length
    modifies cal
    ensures cal[ch] == Updated(old(cal[ch]), Entry(Field(t[p..end], "offset"), Field(t[p..end], "scale")), number)
    ensures forall i :: 0 <= i < cal.Length && i != ch ==> cal[i] == old(cal[i])
  {
    hide Field;
    var offset := ReadField(t, p, end, "offset", number, cal[ch].offset);
    cal[ch] := cal[ch].(offset := offset);
    var scale := ReadField(t, p, end, "scale", number, cal[ch].scale);
    cal[ch] := cal[ch].(scale := scale);
  }

  lemma {:induction false} ObjectsTrimmed(s: string, n: nat)
    ensures Objects(Trim(s), n) == Objects(s, n) && Trim(Trim(s)) == Trim(s)
  {
    TrimTwice(s);
  }

  /** What a text that does not begin with a blank yields. */
  lemma {:induction false} ObjectsStep(s: string, n: nat)
    ensures n == 0 || s == "" ==> Objects(s, n) == []
    ensures n > 0 && s != "" && Trim(s) == s ==>
              var k := IndexOf(s, '}');
              Objects(s, n) ==
                if s[0] == ']' || s[0] == '\0' then []
                else if s[0] != '{' then Objects(s[1..], n)
                else if k == |s| then []
                else [Entry(Field(s[..k], "offset"), Field(s[..k], "scale"))] + Objects(s[k + 1..], n - 1)
  {}

  lemma Rest(es: seq<Entry>, ch: nat, e: Entry, rest: seq<Entry>)
    requires ch <= |es| && es[ch..] == [e] + rest
    ensures ch < |es| && es[ch] == e && es[ch + 1..] == rest
  {
    assert es[ch..][0] == e && es[ch..][1..] == rest;
  }

  /** What the text from p on yields, its first character that is no blank
      being at q. */
  lemma {:induction false} ObjectsAt(t: string, p: nat, q: nat, n: nat)
    requires p <= q <= |t| && t[q..|t|] == Trim(t[p..|t|])
    ensures n == 0 || q == |t| ==> Objects(t[p..], n) == []
    ensures n > 0 && q < |t| ==>
              var k := q + IndexOf(t[q..|t|], '}');
              Objects(t[p..], n) ==
                if t[q] == ']' || t[q] == '\0' then []
                else if t[q] != '{' then Objects(t[q + 1..], n)
                else if k == |t| then []
                else [Entry(Field(t[q..k], "offset"), Field(t[q..k], "scale"))] + Objects(t[k + 1..], n - 1)
  {
    hide Objects, Field, Trim, IndexOf;
    assert t[p..|t|] == t[p..] && t[q..|t|] == t[q..];
    ObjectsTrimmed(t[p..], n);
    ObjectsStep(t[q..], n);
    if q < |t| {
      var k := IndexOf(t[q..], '}');
      Cut(t, q, |t|, 1);
      Cut(t, q, |t|, k);
      if q + k < |t| { Cut(t, q, |t|, k + 1); }
    }
  }

  lemma {:induction false} TrimTwice(s: string)
    ensures Trim(Trim(s)) == Trim(s)
  {
    if s != "" && IsBlank(s[0]) { TrimTwice(s[1..]); }
  }

  /** `tt_cal_load_file`, given the text of the file. */
  method Load(t: string, cal: array<Channel>, number: string -> Option<real>) returns (r: int)
    requires cal.Length == MAX_CHANNELS
    modifies cal
    ensures r == if |t| <= 0x10_0000 && Entries(t) != [] then 0 else -1
    ensures r == -1 ==> cal[..] == old(cal[..])
    ensures r == 0 ==> forall i :: 0 <= i < MAX_CHANNELS ==>
              cal[i] == if i < |Entries(t)| then Updated(old(cal[i]), Entries(t)[i], number) else old(cal[i])
  {
    if |t| > MAX_SIZE { return -1; }
    assert t[0..|t|] == t;
    var found, arr := Find(t, 0, |t|, "channels");
    if !found || At(t, arr) != '[' { return -1; }
    assert t[arr..|t|][1..] == t[arr + 1..];
    var ch := LoadObjects(t, arr + 1, cal, number);
    r := if ch > 0 then 0 else -1;
  }

  method LoadObjects(t: string, start: nat, cal: array<Channel>, number: string -> Option<real>) returns (ch: nat)
    requires start <= |t| && cal.Length == MAX_CHANNELS
    modifies cal
    ensures var es := Objects(t[start..], MAX_CHANNELS);
            && ch == |es|
            && forall i :: 0 <= i < MAX_CHANNELS ==>
                 cal[i] == if i < |es| then Updated(old(cal[i]), es[i], number) else old(cal[i])
  {
    hide Field, Updated, FindKey, Objects, Trim, IndexOf;
    var p := start;
    ghost var es := Objects(t[start..], MAX_CHANNELS);
    ch := 0;
    while p < |t| && ch < MAX_CHANNELS
      invariant p <= |t| && ch <= MAX_CHANNELS && ch <= |es|
      invariant es[ch..] == Objects(t[p..], MAX_CHANNELS - ch)
      invariant forall i :: 0 <= i < MAX_CHANNELS ==>
                  cal[i] == if i < ch then Updated(old(cal[i]), es[i], number) else old(cal[i])
      decreases |t| - p
    {
      ghost var was := p;
      p := SkipBlanks(t, p, |t|);
      ObjectsAt(t, was, p, MAX_CHANNELS - ch);
      if At(t, p) == ']' || At(t, p) == '\0' { break; }
      if t[p] != '{' {
        p := p + 1;
        continue;
      }
      var end := FindChar(t, p, |t|, '}');
      if end == |t| { break; }
      ReadObject(t, p, end, cal, ch, number);
      ghost var e := Entry(Field(t[p..end], "offset"), Field(t[p..end], "scale"));
      Rest(es, ch, e, Objects(t[end + 1..], MAX_CHANNELS - ch - 1));
      ch := ch + 1;
      p := end + 1;
    }
    ObjectsStep(t[p..], MAX_CHANNELS - ch);
  }
}
