/** Open Sound Control 1.0 messages as byte strings: the layout that the writer
    and the reader of software/OSC client/tinyosc.c have to agree on. */
module OscFormat {
  import opened Words

  type Word = x: int | 0 <= x < 0x1_0000_0000
  type Int32 = x: int | -0x8000_0000 <= x < 0x8000_0000
  type Word64 = x: int | 0 <= x < 0x1_0000_0000_0000_0000
  type Int64 = x: int | -0x8000_0000_0000_0000 <= x < 0x8000_0000_0000_0000

  const COMMA: Byte := 0x2C

  /** The bytes of a C string, without the NUL that ends it. */
  ghost predicate IsText(s: seq<Byte>) {
    forall k :: 0 <= k < |s| ==> s[k] != 0
  }

  /** One argument with its type tag. Floats are their bit patterns. Other is a
      tag the library does not know. */
  datatype Arg =
    | Int(i: Int32)
    | Long(h: Int64)
    | Timetag(t: Word64)
    | Text(s: seq<Byte>)
    | Blob(b: seq<Byte>)
    | Midi(m: Word)
    | Float(f: Word)
    | Double(d: Word64)
    | True | False | Nil | Infinitum
    | Other(tag: Byte)
  {
    function Tag(): Byte {
      match this
      case Int(_) => 0x69 // i
      case Long(_) => 0x68 // h
      case Timetag(_) => 0x74 // t
      case Text(_) => 0x73 // s
      case Blob(_) => 0x62 // b
      case Midi(_) => 0x6D // m
      case Float(_) => 0x66 // f
      case Double(_) => 0x64 // d
      case True => 0x54 // T
      case False => 0x46 // F
      case Nil => 0x4E // N
      case Infinitum => 0x49 // I
      case Other(c) => c
    }

    ghost predicate Valid() {
      && (Text? ==> IsText(s) && |s| < 0x8000_0000)
      && (Blob? ==> |b| < 0x8000_0000)
      && (Other? ==> tag !in KNOWN && tag != 0)
    }
  }

  const KNOWN: seq<Byte> := [0x69, 0x68, 0x74, 0x73, 0x62, 0x6D, 0x66, 0x64, 0x54, 0x46, 0x4E, 0x49]

  /** The known tags are those of the other kinds. */
  lemma KnownTags(c: Byte)
    ensures c in KNOWN <==> exists a: Arg :: !a.Other? && a.Tag() == c
  {
    var all := [Int(0), Long(0), Timetag(0), Text([]), Blob([]), Midi(0), Float(0), Double(0),
                True, False, Nil, Infinitum];
    assert forall k :: 0 <= k < 12 ==> !all[k].Other? && all[k].Tag() == KNOWN[k];
    if c in KNOWN {
      var k :| 0 <= k < |KNOWN| && KNOWN[k] == c;
      assert !all[k].Other? && all[k].Tag() == c;
    }
    if a: Arg :| !a.Other? && a.Tag() == c {
      assert exists k :: 0 <= k < 12 && all[k].Tag() == a.Tag();
    }
  }

  // Words on the wire.

  function Bytes32(w: Word): (r: seq<Byte>)
    ensures |r| == 4
  {
    var x, y, z := w / 0x100, w / 0x100 / 0x100, w / 0x100 / 0x100 / 0x100;
    [z, y % 0x100, x % 0x100, w % 0x100]
  }

  function Bytes64(w: Word64): (r: seq<Byte>)
    ensures |r| == 8
  {
    Bytes32(w / 0x1_0000_0000) + Bytes32(w % 0x1_0000_0000)
  }

  function Word32(r: seq<Byte>): Word
    requires |r| >= 4
  {
    var z: int, y: int, x: int, w: int := r[0], r[1], r[2], r[3];
    z * 0x100_0000 + y * 0x1_0000 + x * 0x100 + w
  }

  function LongWord(r: seq<Byte>): Word64
    requires |r| >= 8
  {
    Word32(r) * 0x1_0000_0000 + Word32(r[4..])
  }

  /** Two's complement. */
  function Unsigned32(v: Int32): Word {
    if v < 0 then v + 0x1_0000_0000 else v
  }

  function Signed32(w: Word): Int32 {
    if w < 0x8000_0000 then w else w - 0x1_0000_0000
  }

  function Unsigned64(v: Int64): Word64 {
    if v < 0 then v + 0x1_0000_0000_0000_0000 else v
  }

  function Signed64(w: Word64): Int64 {
    if w < 0x8000_0000_0000_0000 then w else w - 0x1_0000_0000_0000_0000
  }

  lemma WordRoundTrip(w: Word, rest: seq<Byte>)
    ensures Word32(Bytes32(w) + rest) == w
  {}

  /** Four bytes are the encoding of one word only, and every four bytes are. */
  lemma {:induction false} WordOf(r: seq<Byte>, w: Word)
    requires |r| == 4
    ensures Bytes32(w) == r <==> w == Word32(r)
  {
    if w == Word32(r) {
      var a: int, b: int, c: int, d: int := r[0], r[1], r[2], r[3];
      assert w / 0x100 == a * 0x1_0000 + b * 0x100 + c && w % 0x100 == d;
      assert w / 0x100 / 0x100 == a * 0x100 + b && w / 0x100 % 0x100 == c;
    } else {
      WordRoundTrip(w, []);
      assert Bytes32(w) + [] == Bytes32(w);
    }
  }

  lemma {:induction false} LongWordOf(r: seq<Byte>, w: Word64)
    requires |r| == 8
    ensures Bytes64(w) == r <==> w == LongWord(r)
  {
    WordOf(r[..4], w / 0x1_0000_0000);
    WordOf(r[4..], w % 0x1_0000_0000);
    hide Bytes32;
    assert Word32(r) == Word32(r[..4]);
    assert r == r[..4] + r[4..];
    assert Bytes64(w)[..4] == Bytes32(w / 0x1_0000_0000) && Bytes64(w)[4..] == Bytes32(w % 0x1_0000_0000);
  }

  lemma SameWord(v: Word, w: Word)
    ensures Bytes32(v) == Bytes32(w) ==> v == w
  {
    WordOf(Bytes32(v), v);
    WordOf(Bytes32(v), w);
    hide Bytes32, Word32;
  }

  lemma SameLong(v: Word64, w: Word64)
    ensures Bytes64(v) == Bytes64(w) ==> v == w
  {
    LongWordOf(Bytes64(v), v);
    LongWordOf(Bytes64(v), w);
    hide Bytes64, LongWord;
  }

  // Alignment.

  /** x & ~3: the next multiple of 4 at or below x. */
  function Align(x: int): (r: int)
    ensures x - 3 <= r <= x
  {
    x / 4 * 4
  }

  function Zeros(n: nat): (r: seq<Byte>)
    ensures |r| == n
  {
    seq(n, _ => 0)
  }

  /** Every item is followed by zeros up to a multiple of 4. */
  function Padded(s: seq<Byte>): (r: seq<Byte>)
  {
    s + Zeros(Align(|s| + 3) - |s|)
  }

  lemma {:induction false} PaddedLength(s: seq<Byte>)
    ensures |Padded(s)| == Align(|s| + 3) && |Padded(s)| % 4 == 0 && |s| <= |Padded(s)| < |s| + 4
    ensures Padded(s)[..|s|] == s && forall k :: |s| <= k < |Padded(s)| ==> Padded(s)[k] == 0
  {}

  // Messages.

  /** The bytes of an argument, before padding. */
  function Raw(a: Arg): seq<Byte> {
    match a
    case Int(v) => Bytes32(Unsigned32(v))
    case Long(v) => Bytes64(Unsigned64(v))
    case Timetag(w) => Bytes64(w)
    case Text(s) => s + [0]
    case Blob(b) => Bytes32(|b| % 0x1_0000_0000) + b
    case Midi(w) => Bytes32(w)
    case Float(w) => Bytes32(w)
    case Double(w) => Bytes64(w)
    case _ => []
  }

  function Tags(args: seq<Arg>): (r: seq<Byte>)
    ensures |r| == |args|
  {
    seq(|args|, k requires 0 <= k < |args| => args[k].Tag())
  }

  function EncodeArgs(args: seq<Arg>): seq<Byte> {
    if args == [] then [] else EncodeArgs(args[..|args| - 1]) + Padded(Raw(args[|args| - 1]))
  }

  datatype Message = Message(address: seq<Byte>, args: seq<Arg>) {
    ghost predicate Valid() {
      && IsText(address) && |address| < 0x8000_0000
      && |args| < 0x8000_0000
      && forall k :: 0 <= k < |args| ==> args[k].Valid()
    }

    /** No argument has a tag the library does not know. */
    ghost predicate AllKnown() {
      forall k :: 0 <= k < |args| ==> !args[k].Other?
    }

    /** Address and format, each NUL-terminated and padded. */
    function Header(): seq<Byte> {
      Padded(address + [0]) + Padded([COMMA] + Tags(args) + [0])
    }

    function Encode(): seq<Byte> {
      Header() + EncodeArgs(args)
    }
  }

  lemma {:induction false} ArgsAligned(args: seq<Arg>)
    ensures |EncodeArgs(args)| % 4 == 0
  {
    hide Raw, Padded, Align;
    if args != [] {
      ArgsAligned(args[..|args| - 1]);
      PaddedLength(Raw(args[|args| - 1]));
    }
  }

  /** The bytes p stand in s at position at. */
  ghost predicate Occurs(s: seq<Byte>, at: int, p: seq<Byte>) {
    0 <= at && at + |p| <= |s| && forall k :: 0 <= k < |p| ==> s[at + k] == p[k]
  }

  lemma {:induction false} OccursInside(s: seq<Byte>, at: int, p: seq<Byte>, x: seq<Byte>, q: seq<Byte>)
    requires Occurs(s, at, p + x + q)
    ensures Occurs(s, at + |p|, x)
  {
    forall k | 0 <= k < |x| ensures s[at + |p| + k] == x[k] {
      assert s[at + (|p| + k)] == (p + x + q)[|p| + k];
    }
  }

  lemma {:induction false} OccursPair(s: seq<Byte>, at: int, p: seq<Byte>, q: seq<Byte>)
    requires Occurs(s, at, p + q)
    ensures Occurs(s, at, p) && Occurs(s, at + |p|, q)
  {
    assert [] + p + q == p + q == p + q + [];
    OccursInside(s, at, [], p, q);
    OccursInside(s, at, p, q, []);
  }

  lemma {:induction false} OccursSlice(s: seq<Byte>, at: int, p: seq<Byte>)
    requires 0 <= at && at + |p| <= |s|
    ensures Occurs(s, at, p) <==> s[at..at + |p|] == p
  {
    if s[at..at + |p|] == p {
      forall k | 0 <= k < |p| ensures s[at + k] == p[k] { assert s[at..at + |p|][k] == p[k]; }
    }
  }

  /** The bytes e begin with an address, zeros up to position c, a comma there
      and the type tags after it, and zeros up to position h. */
  ghost predicate Laid(e: seq<Byte>, address: seq<Byte>, tags: seq<Byte>, c: nat, h: nat) {
    && |address| < c && c + 1 + |tags| < h <= |e|
    && Occurs(e, 0, address)
    && (forall k :: |address| <= k < c ==> e[k] == 0)
    && e[c] == COMMA
    && Occurs(e, c + 1, tags)
    && (forall k :: c + 1 + |tags| <= k < h ==> e[k] == 0)
  }

  /** Every message takes a multiple of 4 bytes; its format starts with the comma
      on a multiple of 4, and its arguments begin on one. */
  lemma {:induction false} Layout(m: Message)
    ensures |m.Encode()| % 4 == 0 && |m.Header()| % 4 == 0
    ensures |m.Header()| == Align(|m.address| + 4) + Align(|m.args| + 5)
    ensures Laid(m.Encode(), m.address, Tags(m.args), Align(|m.address| + 4), |m.Header()|)
  {
    Lengths(m);
    hide EncodeArgs, Align, Tags, Padded, Laid;
    LayoutOf(m.address, Tags(m.args), EncodeArgs(m.args));
  }

  /** The type tag of each kind of argument, in ASCII. */
  ghost predicate TagIs(a: Arg, b: char) {
    && (a.Int? ==> b == 'i') && (a.Long? ==> b == 'h') && (a.Timetag? ==> b == 't')
    && (a.Text? ==> b == 's') && (a.Blob? ==> b == 'b') && (a.Midi? ==> b == 'm')
    && (a.Float? ==> b == 'f') && (a.Double? ==> b == 'd')
    && (a.True? ==> b == 'T') && (a.False? ==> b == 'F') && (a.Nil? ==> b == 'N') && (a.Infinitum? ==> b == 'I')
  }

  /** The format of a message, byte by byte: on the first multiple of 4 behind the
      address, a comma, then the tag of every argument, then a NUL. */
  lemma FormatBytes(m: Message)
    ensures exists c: nat :: c % 4 == 0 && |m.address| < c <= |m.address| + 4 && FormatAt(m, c)
  {
    Layout(m);
    var c := Align(|m.address| + 4);
    hide EncodeArgs, Padded, Message.Encode, Message.Header;
    forall k: nat | k < |m.args| ensures TagIs(m.args[k], m.Encode()[c + 1 + k] as char) {
      assert m.Encode()[c + 1 + k] == Tags(m.args)[k];
    }
    assert FormatAt(m, c);
  }

  ghost predicate FormatAt(m: Message, c: nat) {
    && c + 1 + |m.args| < |m.Encode()|
    && m.Encode()[c] as char == ',' && m.Encode()[c + 1 + |m.args|] == 0
    && forall k: nat :: k < |m.args| ==> TagIs(m.args[k], m.Encode()[c + 1 + k] as char)
  }

  /** The number that bytes stand for, most significant first. */
  function Number(b: seq<Byte>): nat {
    if b == [] then 0
    else
      var last: int := b[|b| - 1];
      256 * Number(b[..|b| - 1]) + last
  }

  lemma {:induction false} BigEndian32(w: Word)
    ensures Number(Bytes32(w)) == w
  {
    FourMore([], Bytes32(w));
    NoBytes();
    hide Number;
    assert [] + Bytes32(w) == Bytes32(w);
  }

  lemma {:induction false} BigEndian64(w: Word64)
    ensures Number(Bytes64(w)) == w
  {
    var h, l := Bytes32(w / 0x1_0000_0000), Bytes32(w % 0x1_0000_0000);
    BigEndian32(w / 0x1_0000_0000);
    BigEndian32(w % 0x1_0000_0000);
    hide Bytes32;
    Appended(h, l);
  }

  lemma {:induction false} Appended(h: seq<Byte>, l: seq<Byte>)
    requires |l| == 4
    ensures Number(h + l) == 0x1_0000_0000 * Number(h) + Number(l)
  {
    FourMore(h, l);
    FourMore([], l);
    hide Number;
    assert [] + l == l && Number([]) == 0 by { NoBytes(); }
  }

  lemma NoBytes()
    ensures Number([]) == 0
  {}

  lemma {:induction false} NumberSnoc(b: seq<Byte>, x: Byte)
    ensures Number(b + [x]) == 256 * Number(b) + x as int
  {
    assert (b + [x])[..|b|] == b;
  }

  lemma {:induction false} FourMore(h: seq<Byte>, l: seq<Byte>)
    requires |l| == 4
    ensures Number(h + l) ==
              0x1_0000_0000 * Number(h) + 0x100_0000 * l[0] as int + 0x1_0000 * l[1] as int
              + 256 * l[2] as int + l[3] as int
  {
    hide Number;
    NumberSnoc(h, l[0]);
    NumberSnoc(h + [l[0]], l[1]);
    NumberSnoc(h + [l[0]] + [l[1]], l[2]);
    NumberSnoc(h + [l[0]] + [l[1]] + [l[2]], l[3]);
    assert h + [l[0]] + [l[1]] + [l[2]] + [l[3]] == h + l;
  }

  lemma {:induction false} Lengths(m: Message)
    ensures |m.Encode()| % 4 == 0 && |m.Header()| % 4 == 0
    ensures |m.Header()| == Align(|m.address| + 4) + Align(|m.args| + 5)
    ensures |m.Encode()| == |m.Header()| + |EncodeArgs(m.args)|
  {
    hide EncodeArgs, Align, Padded, Tags;
    HeaderLength(m);
    hide Message.Header;
    ArgsAligned(m.args);
  }

  lemma {:induction false} HeaderLength(m: Message)
    ensures |m.Header()| % 4 == 0
    ensures |m.Header()| == Align(|m.address| + 4) + Align(|m.args| + 5)
  {
    hide Align, Padded, Tags;
    PaddedLength(m.address + [0]);
    PaddedLength([COMMA] + Tags(m.args) + [0]);
  }

  lemma {:induction false} LayoutOf(address: seq<Byte>, tags: seq<Byte>, rest: seq<Byte>)
    ensures var c := Align(|address| + 4);
            var e := Padded(address + [0]) + Padded([COMMA] + tags + [0]) + rest;
            Laid(e, address, tags, c, c + Align(|tags| + 5))
  {
    hide Align, Padded, Occurs;
    PaddedLength(address + [0]);
    PaddedLength([COMMA] + tags + [0]);
    var a, f, c := Padded(address + [0]), Padded([COMMA] + tags + [0]), Align(|address| + 4);
    var e := a + f + rest;
    StringAt(address);
    StringAt([COMMA] + tags);
    OccursConcat([], a, f + rest, address);
    assert [] + a + (f + rest) == e;
    OccursConcat(a, f, rest, [COMMA] + tags);
    OccursCons(e, c, COMMA, tags);
    forall k | |address| <= k < c ensures e[k] == 0 { assert e[k] == a[k]; }
    forall k | c + 1 + |tags| <= k < c + |f| ensures e[k] == 0 { assert e[k] == f[k - c]; }
  }

  lemma {:induction false} OccursConcat(p: seq<Byte>, x: seq<Byte>, q: seq<Byte>, t: seq<Byte>)
    requires Occurs(x, 0, t)
    ensures Occurs(p + x + q, |p|, t)
  {
    forall k | 0 <= k < |t| ensures (p + x + q)[|p| + k] == t[k] { assert x[0 + k] == t[k]; }
  }

  lemma {:induction false} OccursCons(e: seq<Byte>, at: int, b: Byte, t: seq<Byte>)
    requires Occurs(e, at, [b] + t)
    ensures e[at] == b && Occurs(e, at + 1, t)
  {
    assert e[at + 0] == ([b] + t)[0];
    forall k | 0 <= k < |t| ensures e[at + 1 + k] == t[k] { assert e[at + (1 + k)] == ([b] + t)[1 + k]; }
  }

  lemma {:induction false} StringAt(s: seq<Byte>)
    ensures Occurs(Padded(s + [0]), 0, s) && |s| < |Padded(s + [0])|
    ensures forall k :: |s| <= k < |Padded(s + [0])| ==> Padded(s + [0])[k] == 0
  {}

  lemma NoArgs()
    ensures EncodeArgs([]) == []
  {}

  lemma {:induction false} EncodeArgsSnoc(args: seq<Arg>, a: Arg)
    ensures EncodeArgs(args + [a]) == EncodeArgs(args) + Padded(Raw(a))
  {
    assert (args + [a])[..|args|] == args;
  }

  lemma {:induction false} EncodeArgsAppend(xs: seq<Arg>, ys: seq<Arg>)
    ensures EncodeArgs(xs + ys) == EncodeArgs(xs) + EncodeArgs(ys)
  {
    hide Raw, Padded, Tags;
    if ys == [] {
      assert xs + ys == xs;
    } else {
      var n := |ys| - 1;
      EncodeArgsAppend(xs, ys[..n]);
      AppendStep(xs, ys[..n], ys[n]);
      assert ys[..n] + [ys[n]] == ys;
    }
  }

  lemma {:induction false} AppendStep(xs: seq<Arg>, zs: seq<Arg>, a: Arg)
    requires EncodeArgs(xs + zs) == EncodeArgs(xs) + EncodeArgs(zs)
    ensures EncodeArgs(xs + (zs + [a])) == EncodeArgs(xs) + EncodeArgs(zs + [a])
  {
    hide *;
    EncodeArgsSnoc(xs + zs, a);
    EncodeArgsSnoc(zs, a);
    assert xs + (zs + [a]) == (xs + zs) + [a];
  }

  /** Argument k starts where the arguments before it end, on a multiple of 4. */
  lemma {:induction false} ArgAt(args: seq<Arg>, k: nat)
    requires k < |args|
    ensures EncodeArgs(args[..k]) + Padded(Raw(args[k])) + EncodeArgs(args[k + 1..]) == EncodeArgs(args)
    ensures EncodeArgs(args[..k + 1]) == EncodeArgs(args[..k]) + Padded(Raw(args[k]))
    ensures |EncodeArgs(args[..k])| % 4 == 0
  {
    hide EncodeArgs, Raw, Padded, Tags;
    ArgsAligned(args[..k]);
    assert args[..k + 1] == args[..k] + [args[k]];
    assert args == args[..k + 1] + args[k + 1..];
    EncodeArgsSnoc(args[..k], args[k]);
    EncodeArgsAppend(args[..k + 1], args[k + 1..]);
  }
}
