/** What is written to an OSC buffer is what is read back from it. */
module OscRoundTrip {
  import opened OscFormat
  import opened OscWriter
  import opened OscReader
  import opened OscBundle
  import opened Words

  /** For any address and any arguments of known tags: when the message fits,
      parsing the written bytes and calling the getter of each tag returns them.
      In a buffer of whole words it fails exactly when it does not fit. */
  method MessageRoundTrip(mem: array<Byte>, base: nat, len: nat, address: seq<Byte>, args: seq<Arg>)
    returns (r: Word, address': seq<Byte>, args': seq<Arg>)
    requires Message(address, args).Valid() && Message(address, args).AllKnown()
    requires len <= MAX_LEN && base + len <= mem.Length
    requires |address| < len ==> base + CommaAt(address) < mem.Length
    modifies mem
    ensures |Message(address, args).Encode()| <= len ==>
              !Failed(r) && r % 4 == 0 && address' == address && args' == args
    ensures len % 4 == 0 ==> (Failed(r) <==> |Message(address, args).Encode()| > len)
  {
    ghost var m := Message(address, args);
    SucceedsIff(m, len);
    hide Reaches, Image, Occurs, CommaAt, HeaderFits, ArgFits,
         Message.Encode, Message.Header, Message.Valid, Message.AllKnown;
    address', args' := [], [];
    r := WriteMessage(mem, base, len, address, args);
    if Failed(r) || r > len { return; }
    Lengths(m);
    assert Lies(mem[..], base, m) by { WholeImage(mem[..], base, len, m.Encode()); }
    var o := new Reader(mem);
    var parsed := o.Open(base, r, m);
    address', args' := o.ReadMessage(m);
  }

  lemma {:induction false} WholeImage(s: seq<Byte>, base: nat, len: nat, e: seq<Byte>)
    requires base + len <= |s| && |e| <= len && s[base..base + len] == Image(e, len)
    ensures Occurs(s, base, e)
  {
    forall k | 0 <= k < |e| ensures s[base + k] == e[k] { assert s[base..base + len][k] == e[k]; }
  }

  lemma {:induction false} TotalGrows(ms: seq<Message>, k: nat)
    requires k < |ms|
    ensures Total(ms[..k + 1]) == Total(ms[..k]) + 4 + |ms[k].Encode()| <= Total(ms)
    ensures |ms[k].Encode()| > 0
    decreases |ms| - k
  {
    Lengths(ms[k]);
    assert |ms[k].Header()| > 0;
    hide Message.Encode;
    assert ms[..k + 1][..k] == ms[..k];
    if k + 1 < |ms| { TotalGrows(ms, k + 1); } else { assert ms[..k + 1] == ms; }
  }

  /** For any messages and any buffer: the bundle holds them all exactly when
      they fit, and iterating over it then returns them in order and stops. */
  method BundleRoundTrip(mem: array<Byte>, base: nat, len: nat, timetag: Word64, list: seq<Message>)
    returns (ok: bool, timetag': Word64, list': seq<Message>)
    requires Legible(list)
    requires len <= MAX_LEN && base + Align(len + 3) < mem.Length
    modifies mem
    ensures ok <==> Total(list) <= len
    ensures ok ==> timetag' == timetag && list' == list
  {
    TotalAtLeast(list);
    hide Occurs, Total, CommaAt, Reaches, Message.Encode, Message.Header;
    ok, timetag', list' := false, timetag, [];
    if len < 16 { return; }
    var b := new Bundle(mem);
    b.Write(timetag, base, len);
    ok := WriteBundle(b, list);
    if ok { timetag', list' := ReadBundle(b, timetag, list); }
  }

  lemma TotalOfNone()
    ensures Total([]) == 16
  {}

  lemma {:induction false} TotalAtLeast(ms: seq<Message>)
    ensures Total(ms) >= 16
  {
    hide Message.Encode;
    if ms != [] { TotalAtLeast(ms[..|ms| - 1]); }
  }

  method WriteBundle(b: Bundle, list: seq<Message>) returns (ok: bool)
    requires b.Valid() && b.messages == [] && Legible(list)
    requires 16 <= b.bufLen && b.buffer + Align(b.bufLen + 3) < b.mem.Length
    modifies b, b.mem
    ensures ok <==> Total(list) <= old(b.bufLen)
    ensures ok ==> b.timetag == old(b.timetag) && b.bundleLen == |Packet(b.timetag, list)| <= MAX_LEN
                   && Occurs(b.mem[..], b.buffer, Packet(b.timetag, list))
  {
    hide Occurs, Packet, Total, Align, Bundle.Valid, Bundle.Written, Legible,
         Message.Encode, Message.Header, Message.Valid, Message.AllKnown;
    b.Inside();
    TotalOfNone();
    assert list[..0] == [];
    for k := 0 to |list|
      invariant b.Valid() && b.messages == list[..k] && b.timetag == old(b.timetag)
      invariant b.buffer == old(b.buffer) && b.bufLen == old(b.bufLen)
      invariant b.bundleLen == Total(list[..k]) <= b.bufLen
    {
      ok := WriteAt(b, list, k);
      if !ok { return; }
    }
    assert list[..|list|] == list;
    b.Inside();
    ok := true;
  }

  /** Message k of the list, the ones before it being written. */
  method WriteAt(b: Bundle, list: seq<Message>, k: nat) returns (ok: bool)
    requires b.Valid() && Legible(list) && k < |list| && b.messages == list[..k]
    requires b.bundleLen == Total(list[..k]) <= b.bufLen && b.buffer + Align(b.bufLen + 3) < b.mem.Length
    modifies b`marker, b`bundleLen, b`messages, b.mem
    ensures ok ==> b.Valid() && b.messages == list[..k + 1] && b.bundleLen == Total(list[..k + 1]) <= b.bufLen
    ensures !ok ==> Total(list) > b.bufLen
  {
    hide Occurs, Packet, Total, Align, Bundle.Valid, Bundle.Written,
         Message.Encode, Message.Header, Message.Valid, Message.AllKnown;
    TotalGrows(list, k);
    ok := WriteOne(b, list[k]);
    assert list[..k + 1] == list[..k] + [list[k]];
  }

  /** One message more, if it fits. */
  method WriteOne(b: Bundle, m: Message) returns (ok: bool)
    requires b.Valid() && m.Valid() && m.AllKnown() && |m.Encode()| > 0
    requires b.bundleLen <= b.bufLen && b.buffer + Align(b.bufLen + 3) < b.mem.Length
    modifies b`marker, b`bundleLen, b`messages, b.mem
    ensures ok <==> old(b.bundleLen) + 4 + |m.Encode()| <= b.bufLen
    ensures ok ==> b.Valid() && b.messages == old(b.messages) + [m]
                   && b.bundleLen == old(b.bundleLen) + 4 + |m.Encode()|
  {
    b.Inside();
    hide Occurs, Packet, Total, CommaAt, Reaches, StopsAtUnknown, CommaEscapes, Align, Bundle.Valid, Bundle.Written,
         Message.Encode, Message.Header, Message.Valid, Message.AllKnown;
    ok := false;
    if b.bufLen - b.bundleLen >= 4 {
      CommaWithin(b.bufLen, b.bundleLen, m.address);
      SucceedsIff(m, b.bufLen - b.bundleLen - 4);
      var r, _ := b.WriteNextMessage(m.address, m.args);
      ok := !Failed(r) && b.bundleLen <= b.bufLen;
    }
  }

  /** Behind whole words the comma stays within the last word of the buffer. */
  lemma CommaWithin(bufLen: nat, bundleLen: nat, address: seq<Byte>)
    requires bundleLen % 4 == 0 && bufLen - bundleLen >= 4
    ensures |address| < bufLen - bundleLen - 4 ==> bundleLen + 4 + CommaAt(address) <= Align(bufLen + 3)
  {}

  method ReadBundle(b: Bundle, ghost t: Word64, ghost ms: seq<Message>) returns (timetag: Word64, list: seq<Message>)
    requires Legible(ms) && Occurs(b.mem[..], b.buffer, Packet(t, ms)) && b.bundleLen == |Packet(t, ms)| < 0x8000_0000
    modifies b
    ensures timetag == t && list == ms
  {
    hide Occurs, Packet, Total, Bundle.Reading, Reader.Opened,
         Message.Encode, Message.Header, Message.Valid, Message.AllKnown;
    b.Parse(b.buffer, b.bundleLen, t, ms);
    timetag := b.GetTimetag(t, ms);
    list := [];
    var o := new Reader(b.mem);
    var more := b.Next(o, t, ms, 0);
    while more
      invariant more ==> |list| < |ms| && o.Opened(ms[|list|]) && b.Reading(t, ms, |list| + 1)
      invariant !more ==> |list| == |ms|
      invariant |list| <= |ms| && list == ms[..|list|] && o.mem == b.mem && b.bundleLen < 0x8000_0000
      decreases |ms| - |list|, more
    {
      var address, args := o.ReadMessage(ms[|list|]);
      list := list + [Message(address, args)];
      more := b.Next(o, t, ms, |list|);
    }
  }
}
