/** OSC bundles: writing messages one after another and iterating over them
    (software/OSC client/tinyosc.c). */
module OscBundle {
  import opened OscFormat
  import opened OscWriter
  import opened OscReader
  import opened Words

  const BUNDLE_ID: Word64 := 0x2362_756E_646C_6500
  /** "#bundle", the NUL that ends it left out. */
  const BUNDLE_NAME: seq<Byte> := [0x23, 0x62, 0x75, 0x6E, 0x64, 0x6C, 0x65]

  /** Every message preceded by its size. */
  function Elements(ms: seq<Message>): seq<Byte> {
    if ms == [] then [] else Elements(ms[..|ms| - 1]) + Element(ms[|ms| - 1])
  }

  function Element(m: Message): seq<Byte> {
    Bytes32(|m.Encode()| % 0x1_0000_0000) + m.Encode()
  }

  function Packet(timetag: Word64, ms: seq<Message>): seq<Byte> {
    Bytes64(BUNDLE_ID) + Bytes64(timetag) + Elements(ms)
  }

  ghost predicate Legible(ms: seq<Message>) {
    forall k :: 0 <= k < |ms| ==> ms[k].Valid() && ms[k].AllKnown()
  }

  /** 16 plus 4 and the length of every message. */
  function Total(ms: seq<Message>): nat {
    if ms == [] then 16 else Total(ms[..|ms| - 1]) + 4 + |ms[|ms| - 1].Encode()|
  }

  lemma {:induction false} PacketSize(timetag: Word64, ms: seq<Message>)
    ensures |Packet(timetag, ms)| == Total(ms) && Total(ms) % 4 == 0
  {
    ElementsSize(ms);
    hide Bytes32, Elements, Total;
  }

  lemma {:induction false} ElementsSize(ms: seq<Message>)
    ensures 16 + |Elements(ms)| == Total(ms) && Total(ms) % 4 == 0
  {
    hide Element, Message.Encode, Message.Header;
    if ms != [] {
      var last, rest := ms[|ms| - 1], ms[..|ms| - 1];
      ElementsSize(rest);
      ElementSize(last);
      Whole(Total(rest), |last.Encode()|);
    }
  }

  lemma Whole(x: nat, y: nat)
    requires x % 4 == 0 && y % 4 == 0
    ensures (x + 4 + y) % 4 == 0
  {}

  lemma {:induction false} ElementSize(m: Message)
    ensures |Element(m)| == 4 + |m.Encode()| && |m.Encode()| % 4 == 0
  {
    Lengths(m);
    hide Bytes32, Message.Encode, Message.Header;
  }

  lemma {:induction false} PacketSnoc(timetag: Word64, ms: seq<Message>, m: Message)
    ensures Packet(timetag, ms + [m]) == Packet(timetag, ms) + Element(m)
    ensures Total(ms + [m]) == Total(ms) + 4 + |m.Encode()|
  {
    hide Bytes32, Bytes64, Message.Encode, Element;
    assert (ms + [m])[..|ms|] == ms;
  }

  lemma {:induction false} PacketAppend(timetag: Word64, xs: seq<Message>, ys: seq<Message>)
    ensures Packet(timetag, xs + ys) == Packet(timetag, xs) + Elements(ys)
  {
    hide Bytes32, Bytes64, Message.Encode, Element;
    if ys == [] {
      assert xs + ys == xs;
    } else {
      var n := |ys| - 1;
      PacketAppend(timetag, xs, ys[..n]);
      assert xs + ys == (xs + ys[..n]) + [ys[n]];
      PacketSnoc(timetag, xs + ys[..n], ys[n]);
    }
  }

  lemma BundleIdBytes()
    ensures Bytes64(BUNDLE_ID) == BUNDLE_NAME + [0]
  {
    LongWordOf(BUNDLE_NAME + [0], BUNDLE_ID);
  }

  /** A message passes for a bundle exactly when its address is "#bundle";
      no address that starts with a slash does. */
  lemma {:induction false} MessageOrBundle(m: Message)
    requires m.Valid()
    ensures Occurs(m.Encode(), 0, Bytes64(BUNDLE_ID)) <==> m.address == BUNDLE_NAME
  {
    BundleIdBytes();
    Layout(m);
    hide Bytes64, Align, Padded, Tags, EncodeArgs, Message.Encode, Message.Header, BUNDLE_ID;
    StartsWithName(m.Encode(), m.address, Bytes64(BUNDLE_ID));
  }

  /** Bytes that begin with a text and a NUL begin with "#bundle" and a NUL exactly
      when that is the text. */
  lemma {:induction false} StartsWithName(e: seq<Byte>, address: seq<Byte>, id: seq<Byte>)
    requires id == BUNDLE_NAME + [0] && IsText(address)
    requires Occurs(e, 0, address) && |address| < |e| && e[|address|] == 0
    ensures Occurs(e, 0, id) <==> address == BUNDLE_NAME
  {
    Same(e, 0, address);
    assert forall k :: 0 <= k < 7 ==> id[k] == BUNDLE_NAME[k] != 0;
    hide BUNDLE_NAME;
    if Occurs(e, 0, id) {
      Same(e, 0, id);
      assert id[7] == e[7];
      assert address == BUNDLE_NAME;
    }
    if address == BUNDLE_NAME {
      forall k | 0 <= k < 8 ensures e[0 + k] == id[k] {}
    }
  }

  /** How far the head moves: over the message, or by 4 minus a failure's number. */
  lemma HeadMoves(bundleLen: nat, r: Word)
    requires bundleLen <= MAX_LEN && (!Failed(r) ==> r <= MAX_LEN + 4)
    ensures var moved := if Failed(r) then 4 - (0x1_0000_0000 - r) else 4 + r;
            && (4 + r) % 0x1_0000_0000 == moved
            && (bundleLen + moved < 0x1_0000_0000 ==>
                  (bundleLen + (4 + r) % 0x1_0000_0000) % 0x1_0000_0000 == bundleLen + moved)
  {}

  class Bundle {
    const mem: array<Byte>
    var buffer: nat
    var marker: nat
    var bufLen: Word
    var bundleLen: Word
    /** What has been written. */
    ghost var timetag: Word64
    ghost var messages: seq<Message>

    /** How much of the bundle lies inside the buffer. Only padding can lie past
        its end, and only when the buffer is not a multiple of 4 bytes. */
    ghost function Written(): nat
      reads this
    {
      if bundleLen <= bufLen then bundleLen else bufLen
    }

    ghost predicate Valid()
      reads this, mem
    {
      && bufLen <= MAX_LEN && buffer + bufLen <= mem.Length
      && bundleLen == Total(messages) == |Packet(timetag, messages)| && marker == buffer + bundleLen
      && Occurs(mem[..], buffer, Packet(timetag, messages)[..Written()])
      && Legible(messages)
    }

    constructor (mem: array<Byte>)
      ensures this.mem == mem
    {
      this.mem := mem;
    }

    /** Starts an empty bundle. */
    method Write(timetag: Word64, base: nat, len: nat)
      requires base + 16 <= mem.Length && base + len <= mem.Length && len <= MAX_LEN
      modifies this, mem
      ensures Valid() && messages == [] && this.timetag == timetag && buffer == base && bufLen == len
      ensures forall k :: 0 <= k < mem.Length && !(base <= k < base + 16) ==> mem[k] == old(mem[k])
    {
      hide Bytes64, Bytes32;
      Store(mem, base, Bytes64(BUNDLE_ID));
      Store(mem, base + 8, Bytes64(timetag));
      buffer, marker, bufLen, bundleLen := base, base + 16, len, 16;
      this.timetag, messages := timetag, [];
      ghost var p := Packet(timetag, []);
      assert p == Bytes64(BUNDLE_ID) + Bytes64(timetag);
      forall k | 0 <= k < Written() ensures mem[..][buffer + k] == p[k] {}
    }

    lemma Inside()
      requires Valid()
      ensures bundleLen == Total(messages) && bufLen <= MAX_LEN && bundleLen % 4 == 0
      ensures marker == buffer + bundleLen
      ensures bundleLen <= bufLen ==>
                bundleLen == |Packet(timetag, messages)| && Occurs(mem[..], buffer, Packet(timetag, messages))
    {
      PacketSize(timetag, messages);
      hide Packet, Occurs, Legible, Total;
      assert bundleLen <= bufLen ==> Packet(timetag, messages)[..Written()] == Packet(timetag, messages);
    }

    /** Appends a message. Returns its length, 0 when the buffer is full, or a
        failure code. A failure moves the write head by 4 minus its number, so
        only after failure 4 is the bundle still whole. With one to three bytes
        left the size handed to the writer is negative and its clearing has no
        bound: `overrun` is set and nothing is promised. */
    method WriteNextMessage(address: seq<Byte>, args: seq<Arg>) returns (r: Word, overrun: bool)
      requires Valid() && Message(address, args).Valid()
      requires bufLen - bundleLen >= 4 && |address| < bufLen - bundleLen - 4 ==>
                 marker + 4 + CommaAt(address) < mem.Length
      modifies this`marker, this`bundleLen, this`messages, mem
      ensures overrun <==> 0 < bufLen - old(bundleLen) < 4
      ensures old(bundleLen >= bufLen) ==>
                r == 0 && bundleLen == old(bundleLen) && messages == old(messages) && mem[..] == old(mem[..])
      ensures bufLen - old(bundleLen) >= 4 ==>
                var m, len := Message(address, args), bufLen - old(bundleLen) - 4;
                && (Failed(r) <==> !Reaches(m, len, |args|))
                && (!Failed(r) ==> r == |m.Encode()| && messages == old(messages) + [m]
                                   && bundleLen == old(bundleLen) + 4 + r)
                && (Failed(r) ==> messages == old(messages) && bundleLen == old(bundleLen) + 4 - (0x1_0000_0000 - r))
                && (r == Failure(4) <==> StopsAtUnknown(m, len))
      ensures bufLen - old(bundleLen) >= 4 ==>
                var m, len := Message(address, args), bufLen - old(bundleLen) - 4;
                Valid() <==> Reaches(m, len, |args|) || StopsAtUnknown(m, len)
      ensures old(bundleLen >= bufLen) ==> Valid()
      ensures !overrun ==>
                forall k :: 0 <= k < mem.Length && !(old(marker) <= k < buffer + bufLen) ==>
                  mem[k] == if && bufLen - old(bundleLen) >= 4
                               && CommaEscapes(address, bufLen - old(bundleLen) - 4)
                               && k == old(marker) + 4 + CommaAt(address)
                            then COMMA else old(mem[k])
    {
      hide Bytes32, Packet, Total, Occurs, Reaches, Element, CommaAt, CommaEscapes, StopsAtUnknown,
           Align, Message.Encode, Message.Valid, Message.AllKnown;
      if bundleLen >= bufLen { return 0, false; }
      if bufLen - bundleLen < 4 { return 0, true; }
      overrun := false;
      ghost var p, m := Packet(timetag, messages), Message(address, args);
      Inside();
      assert p[..|p|] == p;
      r := WriteElement(mem, buffer, marker, bufLen - bundleLen - 4, address, args, p);
      if !Failed(r) {
        PacketSnoc(timetag, messages, m);
        messages := messages + [m];
      }
      PacketSize(timetag, messages);
      HeadMoves(bundleLen, r);
      marker := marker + (4 + r) % 0x1_0000_0000;
      bundleLen := (bundleLen + (4 + r) % 0x1_0000_0000) % 0x1_0000_0000;
    }

    /** A whole bundle lies at the buffer and its first `done` messages have been
        read. */
    ghost predicate Reading(timetag: Word64, ms: seq<Message>, done: nat)
      reads this, mem
    {
      && done <= |ms| && Legible(ms)
      && Occurs(mem[..], buffer, Packet(timetag, ms))
      && bundleLen == |Packet(timetag, ms)| && marker == buffer + Total(ms[..done])
    }

    /** Whether the eight bytes at base read "#bundle". */
    method IsBundle(base: nat) returns (r: bool)
      requires base + 8 <= mem.Length
      ensures r <==> Occurs(mem[..], base, Bytes64(BUNDLE_ID))
    {
      OccursSlice(mem[..], base, Bytes64(BUNDLE_ID));
      r := mem[base..base + 8] == Bytes64(BUNDLE_ID);
    }

    /** Starts reading the bundle of len bytes at base. */
    method Parse(base: nat, len: nat, ghost t: Word64, ghost ms: seq<Message>)
      requires len < 0x8000_0000
      modifies this
      ensures buffer == base && marker == base + 16 && bufLen == bundleLen == len
      ensures Occurs(mem[..], base, Packet(t, ms)) && len == |Packet(t, ms)| && Legible(ms) ==> Reading(t, ms, 0)
    {
      buffer, marker, bufLen, bundleLen := base, base + 16, len, len;
    }

    method GetTimetag(ghost t: Word64, ghost ms: seq<Message>) returns (r: Word64)
      requires Occurs(mem[..], buffer, Packet(t, ms))
      ensures r == t
    {
      hide Bytes64, LongWord, Occurs;
      OccursInside(mem[..], buffer, Bytes64(BUNDLE_ID), Bytes64(t), Elements(ms));
      OccursSlice(mem[..], buffer + 8, Bytes64(t));
      r := LongWord(mem[buffer + 8..buffer + 16]);
      LongWordOf(mem[buffer + 8..buffer + 16], t);
    }

    /** Moves past the next element and parses it, whatever the parse returns. The
        size is signed to the parser and unsigned to the head: what a failed write
        leaves there, a code near 2^32, is refused and moves the head by 4 plus
        the code, modulo 2^32. */
    method GetNextMessage(o: Reader) returns (more: bool, r: int, ghost c: nat, ghost e: nat)
      requires o.mem == mem && buffer <= marker
      requires marker - buffer < bundleLen ==>
                 marker + 4 <= mem.Length
                 && var comma := IndexOf(mem[..], IndexOf(mem[..], marker + 4, 0), COMMA);
                 && comma < mem.Length
                 && (marker + 4 + Signed32(Word32(mem[marker..marker + 4])) <= mem.Length
                     || IndexOf(mem[..], comma, 0) < mem.Length)
      modifies this`marker, o
      ensures more <==> old(marker) - buffer < bundleLen
      ensures !more ==> marker == old(marker)
      ensures more ==>
                var base: nat, w := old(marker) + 4, Word32(mem[old(marker)..old(marker) + 4]);
                var n := Signed32(w);
                && marker == old(marker) + (4 + w) % 0x1_0000_0000
                && c == IndexOf(mem[..], IndexOf(mem[..], base, 0), COMMA) && e == IndexOf(mem[..], c, 0)
                && r == (if c >= base + n then -1 else if e >= base + n then -2 else 0)
                && (r == 0 ==> o.buffer == base && o.len == n && o.format == c + 1
                               && o.marker == base + Align(e - base + 4))
                && (w >= 0x8000_0000 ==> r == -1 && o.buffer == old(o.buffer) && o.len == old(o.len)
                                         && o.format == old(o.format) && o.marker == old(o.marker))
    {
      more, r, c, e := false, 0, 0, 0;
      if marker - buffer >= bundleLen { return; }
      var w: nat := Word32(mem[marker..marker + 4]);
      more := true;
      hide IndexOf, Word32, Align;
      r, c, e := o.Parse(marker + 4, Signed32(w));
      marker := marker + (4 + w) % 0x1_0000_0000;
    }

    /** In a whole bundle the next message is the first one not yet read, and
        there is none after the last. */
    method Next(o: Reader, ghost t: Word64, ghost ms: seq<Message>, ghost done: nat) returns (more: bool)
      requires o.mem == mem && Reading(t, ms, done) && bundleLen < 0x8000_0000
      modifies this`marker, o
      ensures more <==> done < |ms|
      ensures more ==> o.Opened(ms[done]) && Reading(t, ms, done + 1)
      ensures !more ==> Reading(t, ms, done) && marker - buffer == bundleLen
    {
      hide Packet, Element, Occurs, Total, Bytes32, Word32, Lies, Align, IndexOf, Tags,
           Message.Encode, Message.Header, Message.Valid, Message.AllKnown, Reader.Opened;
      PacketSize(t, ms);
      if done < |ms| {
        ElementAt(mem[..], buffer, t, ms, done);
        var m := ms[done];
        Parts(mem[..], marker + 4, m);
      } else {
        assert ms[..done] == ms;
      }
      var r;
      ghost var c, e;
      more, r, c, e := GetNextMessage(o);
      if more { o.Opens(c, e, ms[done]); }
    }
  }

  /** Element k of a bundle lies where the elements before it end. */
  lemma {:induction false} ElementAt(s: seq<Byte>, buffer: nat, t: Word64, ms: seq<Message>, k: nat)
    requires k < |ms| && Occurs(s, buffer, Packet(t, ms)) && |Packet(t, ms)| < 0x1_0000_0000
    ensures var at := buffer + Total(ms[..k]);
            && Total(ms[..k]) < |Packet(t, ms)| && at + 4 + |ms[k].Encode()| <= |s|
            && Word32(s[at..at + 4]) == |ms[k].Encode()| && Lies(s, at + 4, ms[k])
            && buffer + Total(ms[..k + 1]) == at + 4 + |ms[k].Encode()|
            && |ms[k].Encode()| < 0x1_0000_0000 - 4 && |ms[k].Encode()| < |Packet(t, ms)|
  {
    hide Packet, Element, Occurs, Total, Bytes32, Word32, Message.Encode;
    var m := ms[k];
    assert ms == ms[..k] + [m] + ms[k + 1..];
    assert ms[..k + 1] == ms[..k] + [m];
    PacketSnoc(t, ms[..k], m);
    PacketAppend(t, ms[..k + 1], ms[k + 1..]);
    PacketSize(t, ms[..k]);
    ElementSize(m);
    OccursInside(s, buffer, Packet(t, ms[..k]), Element(m), Elements(ms[k + 1..]));
    ElementParts(s, buffer + Total(ms[..k]), m);
  }

  lemma {:induction false} ElementParts(s: seq<Byte>, at: nat, m: Message)
    requires Occurs(s, at, Element(m)) && |m.Encode()| < 0x1_0000_0000
    ensures at + 4 + |m.Encode()| <= |s| && Word32(s[at..at + 4]) == |m.Encode()| && Lies(s, at + 4, m)
  {
    hide Occurs, Bytes32, Word32, Message.Encode;
    var z, e := Bytes32(|m.Encode()|), m.Encode();
    assert at + |Element(m)| <= |s| by { Same(s, at, Element(m)); }
    OccursPair(s, at, z, e);
    OccursSlice(s, at, z);
    WordOf(s[at..at + 4], |m.Encode()|);
  }

  /** A message behind the bytes p, and its size before it. */
  method WriteElement(mem: array<Byte>, buffer: nat, at: nat, len: nat, address: seq<Byte>, args: seq<Arg>,
                      ghost p: seq<Byte>)
    returns (r: Word)
    requires Message(address, args).Valid() && at == buffer + |p| && len <= MAX_LEN && at + 4 + len <= mem.Length
    requires |address| < len ==> at + 4 + CommaAt(address) < mem.Length
    requires Occurs(mem[..], buffer, p)
    modifies mem
    ensures Failed(r) <==> !Reaches(Message(address, args), len, |args|)
    ensures Occurs(mem[..], buffer, p)
    ensures !Failed(r) ==>
              var m := Message(address, args);
              && m.AllKnown() && r == |m.Encode()| < len + 4
              && Occurs(mem[..], buffer, (p + Element(m))[..|p| + 4 + if r <= len then r else len])
    ensures r == Failure(4) <==> StopsAtUnknown(Message(address, args), len)
    ensures forall k :: 0 <= k < mem.Length && !(at <= k < at + 4 + len) ==>
              mem[k] == if CommaEscapes(address, len) && k == at + 4 + CommaAt(address) then COMMA else old(mem[k])
  {
    hide Bytes32, Occurs, Image, Reaches, HeaderFits, ArgFits, Align, Message.Encode, Message.Valid, Message.AllKnown;
    ghost var m := Message(address, args);
    ghost var before := mem[..];
    r := WriteMessage(mem, at + 4, len, address, args);
    SucceedsIff(m, len);
    ghost var written := mem[at + 4..at + 4 + len];
    Store(mem, at, Bytes32(r));
    Unmoved(before, mem[..], buffer, p);
    OccursSlice(mem[..], at, Bytes32(r));
    assert mem[at..at + 4] == Bytes32(r);
    if !Failed(r) {
      assert mem[at + 4..at + 4 + len] == written;
      Grown(mem[..], buffer, p, Bytes32(r), m.Encode(), len);
    }
  }

  lemma {:induction false} Unmoved(s: seq<Byte>, t: seq<Byte>, at: nat, p: seq<Byte>)
    requires Occurs(s, at, p) && |s| == |t| && forall k :: at <= k < at + |p| ==> s[k] == t[k]
    ensures Occurs(t, at, p)
  {
    forall k | 0 <= k < |p| ensures t[at + k] == p[k] { assert s[at + k] == p[k]; }
  }

  /** After a message has been written behind p, the buffer holds p, the size and
      as much of the message as lies inside. */
  lemma {:induction false} Grown(s: seq<Byte>, at: nat, p: seq<Byte>, size: seq<Byte>, e: seq<Byte>, len: nat)
    requires Occurs(s, at, p) && |size| == 4 && Occurs(s, at + |p|, size)
    requires at + |p| + 4 + len <= |s| && s[at + |p| + 4..at + |p| + 4 + len] == Image(e, len)
    ensures Occurs(s, at, (p + (size + e))[..|p| + 4 + if |e| <= len then |e| else len])
  {
    var w := |p| + 4 + if |e| <= len then |e| else len;
    forall k | 0 <= k < w ensures s[at + k] == (p + (size + e))[..w][k] {
      if |p| <= k < |p| + 4 {
        assert s[at + |p| + (k - |p|)] == size[k - |p|];
      } else if |p| + 4 <= k {
        assert s[at + k] == s[at + |p| + 4..at + |p| + 4 + len][k - |p| - 4];
      }
    }
  }
}
