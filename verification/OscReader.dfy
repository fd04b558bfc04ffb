/** Reading OSC messages: `tosc_parseMessage` and the argument getters of
    software/OSC client/tinyosc.c. Pointers are indices into one memory. */
module OscReader {
  import opened OscFormat
  import opened Words

  /** The first index at or after `from` that holds b; |s| when there is none. */
  ghost function IndexOf(s: seq<Byte>, from: nat, b: Byte): (i: nat)
    decreases |s| - from
  {
    if from >= |s| then |s| else if s[from] == b then from else IndexOf(s, from + 1, b)
  }

  lemma {:induction false} IndexIs(s: seq<Byte>, from: nat, b: Byte, i: nat)
    requires from <= i < |s| && s[i] == b
    requires forall k :: from <= k < i ==> s[k] != b
    ensures IndexOf(s, from, b) == i
    decreases i - from
  {
    if from < i { IndexIs(s, from + 1, b, i); }
  }

  lemma {:induction false} IndexWithin(s: seq<Byte>, from: nat, b: Byte)
    ensures var i := IndexOf(s, from, b);
            && i <= |s| && (from <= |s| || i < |s| ==> from <= i)
            && (i < |s| ==> s[i] == b)
            && forall k :: from <= k < i ==> s[k] != b
    decreases |s| - from
  {
    if from < |s| && s[from] != b { IndexWithin(s, from + 1, b); }
  }

  /** The message m lies at position base of a memory. */
  ghost predicate Lies(s: seq<Byte>, base: nat, m: Message) {
    Occurs(s, base, m.Encode())
  }

  /** Argument a lies at position at, padded. */
  ghost predicate ArgLies(s: seq<Byte>, at: int, a: Arg) {
    Occurs(s, at, Padded(Raw(a)))
  }

  /** Where parsing finds the parts of an encoded message: the first NUL ends the
      address, the comma after it starts the format, the NUL after that ends it. */
  lemma {:induction false} Parts(s: seq<Byte>, base: nat, m: Message)
    requires m.Valid() && Lies(s, base, m)
    ensures var z, c := base + |m.address|, base + Align(|m.address| + 4);
            var e := c + 1 + |m.args|;
            && z < c && e < base + |m.Encode()| <= |s|
            && IndexOf(s, base, 0) == z && IndexOf(s, z, COMMA) == c
            && IndexOf(s, c, 0) == e && IndexOf(s, c + 1, 0) == e
            && Occurs(s, base, m.address) && Occurs(s, c + 1, Tags(m.args))
  {
    hide Align, EncodeArgs, Tags, Padded, IndexOf, Laid, Occurs, Message.Encode, Message.Header;
    Layout(m);
    TagsNonzero(m.args);
    Indices(s, base, m.Encode(), m.address, Tags(m.args), Align(|m.address| + 4), |m.Header()|);
  }

  lemma {:induction false} Indices(s: seq<Byte>, base: nat, b: seq<Byte>, address: seq<Byte>, tags: seq<Byte>,
                                   c: nat, h: nat)
    requires Laid(b, address, tags, c, h) && Occurs(s, base, b) && IsText(address) && IsText(tags)
    ensures var e := base + c + 1 + |tags|;
            && base + c < e < base + |b| <= |s|
            && IndexOf(s, base, 0) == base + |address|
            && IndexOf(s, base + |address|, COMMA) == base + c
            && IndexOf(s, base + c, 0) == e && IndexOf(s, base + c + 1, 0) == e
            && Occurs(s, base, address) && Occurs(s, base + c + 1, tags)
  {
    hide IndexOf, Occurs;
    Same(s, base, b);
    OccursTrans(s, base, b, 0, address);
    OccursTrans(s, base, b, c + 1, tags);
    TextEnds(s, base, address);
    TextEnds(s, base + c + 1, tags);
    IndexIs(s, base + |address|, COMMA, base + c);
    IndexBefore(s, base + c, 0);
  }

  lemma {:induction false} IndexBefore(s: seq<Byte>, from: nat, b: Byte)
    requires from < |s| && s[from] != b
    ensures IndexOf(s, from, b) == IndexOf(s, from + 1, b)
  {}

  lemma {:induction false} Same(s: seq<Byte>, base: nat, b: seq<Byte>)
    requires Occurs(s, base, b)
    ensures base + |b| <= |s| && forall k :: base <= k < base + |b| ==> s[k] == b[k - base]
  {
    forall k | base <= k < base + |b| ensures s[k] == b[k - base] { assert s[base + (k - base)] == b[k - base]; }
  }

  lemma {:induction false} OccursTrans(s: seq<Byte>, base: nat, b: seq<Byte>, at: nat, t: seq<Byte>)
    requires Occurs(s, base, b) && Occurs(b, at, t)
    ensures Occurs(s, base + at, t)
  {
    forall k | 0 <= k < |t| ensures s[base + at + k] == t[k] { assert s[base + (at + k)] == b[at + k] == t[k]; }
  }

  /** A text with a NUL after it is found to end there. */
  lemma {:induction false} TextEnds(s: seq<Byte>, at: nat, t: seq<Byte>)
    requires Occurs(s, at, t) && IsText(t) && at + |t| < |s| && s[at + |t|] == 0
    ensures IndexOf(s, at, 0) == at + |t|
  {
    forall k | at <= k < at + |t| ensures s[k] != 0 { assert s[at + (k - at)] == t[k - at]; }
    IndexIs(s, at, 0, at + |t|);
  }

  lemma {:induction false} OccursOnce(s: seq<Byte>, at: int, t: seq<Byte>, u: seq<Byte>)
    requires Occurs(s, at, t) && Occurs(s, at, u) && |t| == |u|
    ensures t == u
  {
    OccursSlice(s, at, t);
    OccursSlice(s, at, u);
  }

  lemma AlignSum(x: nat, y: nat)
    ensures Align(Align(x) + y) == Align(x) + Align(y)
  {}

  lemma {:induction false} TagsNonzero(args: seq<Arg>)
    requires forall k :: 0 <= k < |args| ==> args[k].Valid()
    ensures IsText(Tags(args))
  {}

  /** The four bytes of a MIDI argument are its port, status and data bytes in
      that order: the most significant byte of the word written comes first. */
  lemma {:induction false} MidiBytes(s: seq<Byte>, at: nat, port: Byte, status: Byte, data1: Byte, data2: Byte)
    requires at + 4 <= |s|
    ensures var w: int := port * 0x100_0000 + status * 0x1_0000 + data1 * 0x100 + data2;
            ArgLies(s, at, Midi(w)) <==> s[at..at + 4] == [port, status, data1, data2]
  {
    var t := [port, status, data1, data2];
    var w: Word := Word32(t);
    WordOf(t, w);
    hide Bytes32, Word32;
    assert Padded(Raw(Midi(w))) == t;
    if Occurs(s, at, t) { OccursSlice(s, at, t); }
    if s[at..at + 4] == t {
      forall k | 0 <= k < |t| ensures s[at + k] == t[k] { assert s[at..at + 4][k] == t[k]; }
    }
  }

  /** A parsed message: where it starts, its length, its format, the read head. */
  class Reader {
    const mem: array<Byte>
    var buffer: nat
    var len: nat
    var format: nat
    var marker: int

    constructor (mem: array<Byte>)
      ensures this.mem == mem
    {
      this.mem := mem;
    }

    /** `tosc_parseMessage`: finds the format and the first argument of the
        message at base. The scan for the comma is not bounded by len, so the
        memory must hold a NUL and a comma somewhere after it; a length that
        reaches past the memory asks for a NUL behind the comma too. A negative
        length is an error like one that ends before the comma. */
    method Parse(base: nat, len: int) returns (r: int, ghost c: nat, ghost e: nat)
      requires IndexOf(mem[..], IndexOf(mem[..], base, 0), COMMA) < mem.Length
      requires base + len <= mem.Length
               || IndexOf(mem[..], IndexOf(mem[..], IndexOf(mem[..], base, 0), COMMA), 0) < mem.Length
      modifies this
      ensures c == IndexOf(mem[..], IndexOf(mem[..], base, 0), COMMA) && e == IndexOf(mem[..], c, 0)
      ensures base <= c
      ensures r == if c >= base + len then -1 else if e >= base + len then -2 else 0
      ensures format == if r == -1 then old(format) else c + 1
      ensures r == 0 ==> buffer == base && this.len == len && marker == base + Align(e - base + 4)
      ensures r != 0 ==> buffer == old(buffer) && this.len == old(this.len) && marker == old(marker)
    {
      hide Align, IndexOf;
      ghost var z := IndexOf(mem[..], base, 0);
      c := IndexOf(mem[..], z, COMMA);
      e := IndexOf(mem[..], c, 0);
      IndexWithin(mem[..], base, 0);
      IndexWithin(mem[..], z, COMMA);
      IndexWithin(mem[..], c, 0);
      var i := 0;
      while mem[base + i] != 0
        invariant 0 <= i && base + i <= z
        decreases z - i
      {
        i := i + 1;
      }
      while mem[base + i] != COMMA
        invariant z <= base + i <= c
        decreases c - i
      {
        i := i + 1;
      }
      r := -1;
      if i >= len { return; }
      format := base + i + 1;
      while i < len && mem[base + i] != 0
        invariant c <= base + i <= base + len && base + i <= e
      {
        i := i + 1;
      }
      r := -2;
      if i == len { return; }
      marker := base + Align(i + 4);
      buffer := base;
      this.len := len;
      r := 0;
    }

    method NextInt32() returns (v: Int32)
      requires 0 <= marker && marker + 4 <= mem.Length
      modifies this`marker
      ensures Bytes32(Unsigned32(v)) == mem[old(marker)..old(marker) + 4] && marker == old(marker) + 4
    {
      var w := Word32(mem[marker..marker + 4]);
      WordOf(mem[marker..marker + 4], w);
      v := Signed32(w);
      marker := marker + 4;
    }

    method NextInt64() returns (v: Int64)
      requires 0 <= marker && marker + 8 <= mem.Length
      modifies this`marker
      ensures Bytes64(Unsigned64(v)) == mem[old(marker)..old(marker) + 8] && marker == old(marker) + 8
    {
      var w := LongWord(mem[marker..marker + 8]);
      LongWordOf(mem[marker..marker + 8], w);
      v := Signed64(w);
      marker := marker + 8;
    }

    method NextTimetag() returns (t: Word64)
      requires 0 <= marker && marker + 8 <= mem.Length
      modifies this`marker
      ensures Bytes64(t) == mem[old(marker)..old(marker) + 8] && marker == old(marker) + 8
    {
      var v := NextInt64();
      t := Unsigned64(v);
    }

    /** The bits of a float. */
    method NextFloat() returns (w: Word)
      requires 0 <= marker && marker + 4 <= mem.Length
      modifies this`marker
      ensures Bytes32(w) == mem[old(marker)..old(marker) + 4] && marker == old(marker) + 4
    {
      w := Word32(mem[marker..marker + 4]);
      WordOf(mem[marker..marker + 4], w);
      marker := marker + 4;
    }

    /** The bits of a double. */
    method NextDouble() returns (w: Word64)
      requires 0 <= marker && marker + 8 <= mem.Length
      modifies this`marker
      ensures Bytes64(w) == mem[old(marker)..old(marker) + 8] && marker == old(marker) + 8
    {
      w := LongWord(mem[marker..marker + 8]);
      LongWordOf(mem[marker..marker + 8], w);
      marker := marker + 8;
    }

    /** The position of the next string and its length; not ok, and nothing
        consumed, when it does not end inside the message. */
    method NextString() returns (ok: bool, at: int, n: nat)
      requires 0 <= marker && IndexOf(mem[..], marker, 0) < mem.Length
      modifies this`marker
      ensures at == old(marker) && at + n == IndexOf(mem[..], at, 0)
      ensures ok <==> at + n < buffer + len
      ensures marker == if ok then at + Align(n + 4) else at
    {
      hide Align, IndexOf;
      ghost var e := IndexOf(mem[..], marker, 0);
      IndexWithin(mem[..], marker, 0);
      n := 0;
      while mem[marker + n] != 0
        invariant marker + n <= e
        decreases e - n
      {
        n := n + 1;
      }
      at := marker;
      ok := marker + n < buffer + len;
      if ok { marker := marker + Align(n + 4); }
    }

    /** The position and length of the next blob; not ok, and nothing consumed,
        when it does not end inside the message. The length is signed. */
    method NextBlob() returns (ok: bool, at: int, n: int)
      requires 0 <= marker && marker + 4 <= mem.Length
      modifies this`marker
      ensures var k := Signed32(Word32(mem[old(marker)..old(marker) + 4]));
              && (ok <==> old(marker) + 4 + k <= buffer + len)
              && (ok ==> n == k && at == old(marker) + 4 && marker == old(marker) + Align(k + 7))
              && (!ok ==> n == 0 && marker == old(marker))
    {
      var k: int := Signed32(Word32(mem[marker..marker + 4]));
      if marker + 4 + k <= buffer + len {
        ok, at, n := true, marker + 4, k;
        marker := marker + Align(k + 7);
      } else {
        ok, at, n := false, 0, 0;
      }
    }

    /** The position of four MIDI bytes. */
    method NextMidi() returns (at: int)
      requires 0 <= marker && marker + 4 <= mem.Length
      modifies this`marker
      ensures at == old(marker) && marker == old(marker) + 4
    {
      at := marker;
      marker := marker + 4;
    }

    /** The argument x lies at the read head, inside the message. */
    ghost predicate Next(x: Arg)
      reads this, mem
    {
      x.Valid() && ArgLies(mem[..], marker, x) && marker + |Padded(Raw(x))| <= buffer + len
    }

    method ReadText(ghost s: seq<Byte>) returns (a: Arg)
      requires Next(Text(s))
      modifies this`marker
      ensures a == Text(s) && marker == old(marker) + |Padded(Raw(Text(s)))|
    {
      hide Align, Padded, IndexOf;
      PaddedLength(s + [0]);
      TextAt(mem[..], marker, s);
      var ok, at, n := NextString();
      a := Text(mem[at..at + n]);
      OccursSlice(mem[..], at, s);
    }

    method ReadBlob(ghost b: seq<Byte>) returns (a: Arg)
      requires Next(Blob(b))
      modifies this`marker
      ensures a == Blob(b) && marker == old(marker) + |Padded(Raw(Blob(b)))|
    {
      hide Align, Padded, Bytes32, Word32;
      PaddedLength(Raw(Blob(b)));
      BlobAt(mem[..], marker, b);
      var ok, at, n := NextBlob();
      a := Blob(mem[at..at + n]);
      OccursSlice(mem[..], at, b);
    }

    /** One step of the traversal in `tosc_printMessage`: the getter for a tag. */
    method ReadArg(tag: Byte, ghost x: Arg) returns (a: Arg)
      requires Next(x) && x.Tag() == tag && !x.Other?
      modifies this`marker
      ensures a == x && marker == old(marker) + |Padded(Raw(x))|
    {
      hide Align, Padded, Bytes32, Bytes64, Word32, LongWord;
      ArgBytes(mem[..], marker, x);
      OccursSlice(mem[..], marker, Raw(x));
      if tag == 0x62 {
        a := ReadBlob(x.b);
      } else if tag == 0x6D {
        var at := NextMidi();
        var w := Word32(mem[at..at + 4]);
        WordOf(mem[at..at + 4], x.m);
        a := Midi(w);
      } else if tag == 0x66 {
        var w := NextFloat();
        SameWord(w, x.f);
        a := Float(w);
      } else if tag == 0x64 {
        var w := NextDouble();
        SameLong(w, x.d);
        a := Double(w);
      } else if tag == 0x69 {
        var v := NextInt32();
        SameWord(Unsigned32(v), Unsigned32(x.i));
        a := Int(v);
      } else if tag == 0x68 {
        var v := NextInt64();
        SameLong(Unsigned64(v), Unsigned64(x.h));
        a := Long(v);
      } else if tag == 0x74 {
        var t := NextTimetag();
        SameLong(t, x.t);
        a := Timetag(t);
      } else if tag == 0x73 {
        a := ReadText(x.s);
      } else if tag == 0x46 {
        a := False;
      } else if tag == 0x49 {
        a := Infinitum;
      } else if tag == 0x4E {
        a := Nil;
      } else {
        a := True;
      }
    }

    /** The C string at a position: what the address and format pointers show. */
    method StringAt(at: nat) returns (t: seq<Byte>)
      requires IndexOf(mem[..], at, 0) < mem.Length
      ensures at + |t| == IndexOf(mem[..], at, 0) && Occurs(mem[..], at, t)
    {
      hide IndexOf;
      ghost var e := IndexOf(mem[..], at, 0);
      IndexWithin(mem[..], at, 0);
      t := [];
      while mem[at + |t|] != 0
        invariant at + |t| <= e && Occurs(mem[..], at, t)
        decreases e - |t|
      {
        t := t + [mem[at + |t|]];
      }
    }

    /** The len bytes at base begin with the message m. */
    ghost predicate Holds(m: Message, base: nat, len: nat)
      reads mem
    {
      m.Valid() && m.AllKnown() && Lies(mem[..], base, m) && |m.Encode()| <= len
    }

    /** The message m has just been parsed. */
    ghost predicate Opened(m: Message)
      reads this, mem
    {
      && Holds(m, buffer, len)
      && format == buffer + Align(|m.address| + 4) + 1
      && marker == buffer + |m.Header()|
    }

    /** Parsing the bytes of a message opens it. */
    method Open(base: nat, len: nat, ghost m: Message) returns (r: int)
      requires base + len <= mem.Length && Holds(m, base, len)
      modifies this
      ensures r == 0 && Opened(m) && buffer == base && this.len == len
    {
      hide *;
      Scan(base, len, m);
      ghost var c, e;
      r, c, e := Parse(base, len);
      Opens(c, e, m);
    }

    lemma Scan(base: nat, len: nat, m: Message)
      requires base + len <= mem.Length && Holds(m, base, len)
      ensures var c := IndexOf(mem[..], IndexOf(mem[..], base, 0), COMMA);
              var e := IndexOf(mem[..], c, 0);
              && c < e < base + len
              && c == base + Align(|m.address| + 4) && e == c + 1 + |m.args|
    {
      hide Align, IndexOf, Lies, Tags, Occurs, EncodeArgs, Padded,
           Message.Encode, Message.Header, Message.Valid, Message.AllKnown;
      Parts(mem[..], base, m);
    }

    lemma Opens(c: nat, e: nat, m: Message)
      requires Holds(m, buffer, len)
      requires c == buffer + Align(|m.address| + 4) && format == c + 1
      requires e == c + 1 + |m.args| && marker == buffer + Align(e - buffer + 4)
      ensures Opened(m)
    {
      hide Align, EncodeArgs, Padded, Tags, Holds, Message.Encode, Message.Header;
      Lengths(m);
      AlignSum(|m.address| + 4, |m.args| + 5);
    }

    /** All that an opened message holds, read as `tosc_printMessage` does: the
        address, then for every type tag the argument its getter returns. */
    method ReadMessage(ghost m: Message) returns (address: seq<Byte>, args: seq<Arg>)
      requires Opened(m)
      modifies this`marker
      ensures address == m.address && args == m.args
      ensures marker == buffer + |m.Encode()|
    {
      hide Align, IndexOf, EncodeArgs, Padded, Tags, Raw, Lies, ArgLies, Occurs, Message.Encode, Message.Header;
      Lengths(m);
      Parts(mem[..], buffer, m);
      address := StringAt(buffer);
      OccursOnce(mem[..], buffer, address, m.address);
      var tags := StringAt(format);
      OccursOnce(mem[..], format, tags, Tags(m.args));
      args := [];
      NoArgs();
      assert m.args[..0] == [];
      for j := 0 to |tags|
        invariant args == m.args[..j]
        invariant marker == buffer + |m.Header()| + |EncodeArgs(m.args[..j])|
      {
        ArgWithin(mem[..], buffer, m, j);
        assert tags[j] == m.args[j].Tag() by { TagAt(m.args, j); }
        var a := ReadArg(tags[j], m.args[j]);
        args := args + [a];
      }
      assert m.args[..|tags|] == m.args;
    }
  }

  /** Argument k lies where the arguments before it end. */
  lemma {:induction false} ArgWithin(s: seq<Byte>, base: nat, m: Message, k: nat)
    requires m.Valid() && Lies(s, base, m) && k < |m.args|
    ensures var at := base + |m.Header()| + |EncodeArgs(m.args[..k])|;
            && ArgLies(s, at, m.args[k]) && at + |Padded(Raw(m.args[k]))| <= base + |m.Encode()|
            && at + |Padded(Raw(m.args[k]))| == base + |m.Header()| + |EncodeArgs(m.args[..k + 1])|
  {
    hide Align, EncodeArgs, Padded, Raw, Tags, Occurs, Message.Header, Message.Encode;
    EncodeAround(m, k);
    var p, x, q := m.Header() + EncodeArgs(m.args[..k]), Padded(Raw(m.args[k])), EncodeArgs(m.args[k + 1..]);
    OccursInside(s, base, p, x, q);
  }

  lemma {:induction false} EncodeAround(m: Message, k: nat)
    requires k < |m.args|
    ensures m.Encode() == m.Header() + EncodeArgs(m.args[..k]) + Padded(Raw(m.args[k])) + EncodeArgs(m.args[k + 1..])
    ensures |EncodeArgs(m.args[..k + 1])| == |EncodeArgs(m.args[..k])| + |Padded(Raw(m.args[k]))|
  {
    ArgAt(m.args, k);
    hide Align, EncodeArgs, Padded, Raw, Tags, Message.Header;
    Regroup(m.Header(), EncodeArgs(m.args[..k]), Padded(Raw(m.args[k])), EncodeArgs(m.args[k + 1..]));
  }

  lemma Regroup(h: seq<Byte>, p: seq<Byte>, x: seq<Byte>, q: seq<Byte>)
    ensures h + (p + x + q) == h + p + x + q
  {}

  lemma {:induction false} TagAt(args: seq<Arg>, k: nat)
    requires k < |args|
    ensures Tags(args)[k] == args[k].Tag()
  {}

  lemma {:induction false} TextAt(s: seq<Byte>, at: int, t: seq<Byte>)
    requires IsText(t) && ArgLies(s, at, Text(t))
    ensures 0 <= at && IndexOf(s, at, 0) == at + |t| < |s| && Occurs(s, at, t)
  {
    assert at >= 0;
    hide Align, Padded, IndexOf, Occurs;
    var p := Padded(t + [0]);
    StringAt(t);
    Same(s, at, p);
    OccursTrans(s, at, p, 0, t);
    TextEnds(s, at, t);
  }

  lemma {:induction false} BlobAt(s: seq<Byte>, at: int, b: seq<Byte>)
    requires |b| < 0x8000_0000 && ArgLies(s, at, Blob(b))
    ensures 0 <= at && at + 4 + |b| <= |s|
    ensures Signed32(Word32(s[at..at + 4])) == |b|
    ensures Occurs(s, at + 4, b)
  {
    ArgBytes(s, at, Blob(b));
    hide Align, Padded, Bytes32, Word32, Occurs;
    OccursPair(s, at, Bytes32(|b|), b);
    OccursSlice(s, at, Bytes32(|b|));
    WordOf(s[at..at + 4], |b|);
  }

  /** Before its padding the argument's own bytes occur. */
  lemma {:induction false} ArgBytes(s: seq<Byte>, at: int, x: Arg)
    requires ArgLies(s, at, x)
    ensures Occurs(s, at, Raw(x)) && at + |Raw(x)| <= |s|
    ensures !x.Blob? && !x.Text? ==> |Padded(Raw(x))| == |Raw(x)|
  {
    var r := Raw(x);
    PaddedLength(r);
    var p := Padded(r);
    hide Align, Padded, Occurs;
    assert p == r + p[|r|..];
    OccursPair(s, at, r, p[|r|..]);
  }
}
