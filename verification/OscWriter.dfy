/** Writing OSC messages: `tosc_vwrite` of software/OSC client/tinyosc.c. A
    buffer is a stretch of memory; positions are counted from its start. */
module OscWriter {
  import opened OscFormat
  import opened Words

  /** The largest buffer for which the writer's 32-bit sums cannot wrap. */
  const MAX_LEN := 0x7FFF_FFF8

  /** What the writer returns instead of a length: -k as an unsigned word. */
  function Failure(k: nat): Word
    requires 0 < k <= 4
  {
    0x1_0000_0000 - k
  }

  predicate Failed(r: Word) {
    r >= 0x1_0000_0000 - 4
  }

  /** The position of the comma. */
  function CommaAt(address: seq<Byte>): nat {
    Align(|address| + 4)
  }

  ghost predicate HeaderFits(m: Message, len: nat) {
    |m.address| < len && CommaAt(m.address) + 1 + |m.args| < len
  }

  /** The bytes of argument k, if it has any, end within the buffer. */
  ghost predicate ArgFits(m: Message, len: nat, k: nat)
    requires k < |m.args|
  {
    Raw(m.args[k]) == [] || |m.Header()| + |EncodeArgs(m.args[..k])| + |Raw(m.args[k])| <= len
  }

  /** The header and the first k arguments can all be written. */
  ghost predicate Reaches(m: Message, len: nat, k: nat)
    requires k <= |m.args|
  {
    HeaderFits(m, len) && forall j :: 0 <= j < k ==> !m.args[j].Other? && ArgFits(m, len, j)
  }

  /** The first argument that cannot be written is one of unknown tag. */
  ghost predicate StopsAtUnknown(m: Message, len: nat) {
    exists k :: 0 <= k < |m.args| && Reaches(m, len, k) && m.args[k].Other?
  }

  /** For a buffer of whole words, writing succeeds exactly when every tag is
      known and the padded message fits. For any other length the only slack is
      the padding after the last item. */
  lemma {:induction false} SucceedsIff(m: Message, len: nat)
    requires m.Valid()
    ensures Reaches(m, len, |m.args|) ==> m.AllKnown() && |m.Encode()| < len + 4
    ensures m.AllKnown() && |m.Encode()| <= len ==> Reaches(m, len, |m.args|)
    ensures len % 4 == 0 ==> (Reaches(m, len, |m.args|) <==> m.AllKnown() && |m.Encode()| <= len)
  {
    hide EncodeArgs, Align, Tags, Raw, Padded;
    Layout(m);
    HeaderSize(m);
    if Reaches(m, len, |m.args|) {
      ReachedSize(m, len, |m.args|);
      assert m.args[..|m.args|] == m.args;
    }
    if m.AllKnown() && |m.Encode()| <= len {
      forall k | 0 <= k < |m.args| ensures ArgFits(m, len, k) {
        ArgAt(m.args, k);
        PaddedLength(Raw(m.args[k]));
      }
    }
  }

  lemma {:induction false} ReachedSize(m: Message, len: nat, k: nat)
    requires m.Valid() && k <= |m.args| && Reaches(m, len, k)
    ensures |m.Header()| + |EncodeArgs(m.args[..k])| < len + 4
  {
    hide EncodeArgs, Align, Tags, Raw, Padded;
    if k == 0 {
      HeaderSize(m);
      NoArgs();
    } else {
      ReachedSize(m, len, k - 1);
      ArgAt(m.args, k - 1);
      PaddedLength(Raw(m.args[k - 1]));
      assert ArgFits(m, len, k - 1);
    }
  }

  lemma HeaderSize(m: Message)
    ensures |m.address| < CommaAt(m.address) <= |m.address| + 4
    ensures CommaAt(m.address) + 1 + |m.args| < |m.Header()| <= CommaAt(m.address) + 5 + |m.args|
  {
    Layout(m);
    Lengths(m);
  }

  /** A cleared buffer of len bytes after enc has been stored at its start. */
  function Image(enc: seq<Byte>, len: nat): (r: seq<Byte>)
    ensures |r| == len
  {
    seq(len, k requires 0 <= k < len => if k < |enc| then enc[k] else 0)
  }

  method Clear(mem: array<Byte>, base: nat, len: nat)
    requires base + len <= mem.Length
    modifies mem
    ensures forall k :: 0 <= k < mem.Length ==> mem[k] == if base <= k < base + len then 0 else old(mem[k])
  {
    for i := 0 to len
      invariant forall k :: 0 <= k < mem.Length ==> mem[k] == if base <= k < base + i then 0 else old(mem[k])
    {
      mem[base + i] := 0;
    }
  }

  method Store(mem: array<Byte>, at: nat, bytes: seq<Byte>)
    requires at + |bytes| <= mem.Length
    modifies mem
    ensures forall k :: 0 <= k < mem.Length ==>
              mem[k] == if at <= k < at + |bytes| then bytes[k - at] else old(mem[k])
  {
    for i := 0 to |bytes|
      invariant forall k :: 0 <= k < mem.Length ==>
                  mem[k] == if at <= k < at + i then bytes[k - at] else old(mem[k])
    {
      mem[at + i] := bytes[i];
    }
  }

  /** Storing raw where enc ends turns the image of enc into that of enc and the
      padded raw, because the buffer was cleared. */
  lemma {:induction false} ImageGrows(enc: seq<Byte>, raw: seq<Byte>, len: nat, before: seq<Byte>, after: seq<Byte>)
    requires |enc| + |raw| <= len == |before| == |after| && before == Image(enc, len)
    requires forall k :: 0 <= k < len ==>
               after[k] == if |enc| <= k < |enc| + |raw| then raw[k - |enc|] else before[k]
    ensures after == Image(enc + Padded(raw), len)
  {
    hide Padded;
    PaddedLength(raw);
    var e := enc + Padded(raw);
    forall k | 0 <= k < len ensures after[k] == if k < |e| then e[k] else 0 {
      if |enc| + |raw| <= k < |e| { assert e[k] == Padded(raw)[k - |enc|]; }
      if |enc| <= k < |enc| + |raw| { assert Padded(raw)[..|raw|][k - |enc|] == raw[k - |enc|]; }
    }
  }

  /** Stores one item after the |enc| bytes already written. */
  method StoreItem(mem: array<Byte>, base: nat, len: nat, i: nat, raw: seq<Byte>, ghost enc: seq<Byte>)
    requires base + len <= mem.Length && i == |enc| && i + |raw| <= len
    requires mem[base..base + len] == Image(enc, len)
    modifies mem
    ensures mem[base..base + len] == Image(enc + Padded(raw), len)
    ensures forall k :: 0 <= k < mem.Length && !(base <= k < base + len) ==> mem[k] == old(mem[k])
  {
    hide Image, Padded;
    Store(mem, base + i, raw);
    ImageGrows(enc, raw, len, old(mem[base..base + len]), mem[base..base + len]);
  }

  lemma AlignFrom(i: nat, n: nat)
    requires i % 4 == 0
    ensures Align(i + n + 3) == i + Align(n + 3)
    ensures n % 4 == 0 ==> Align(n + 3) == n
  {}

  /** Writes one argument at position i. Returns 0 and the next position, or 3
      when it does not fit, or 4 when its tag is unknown. */
  method StoreArg(mem: array<Byte>, base: nat, len: nat, i: nat, a: Arg, ghost enc: seq<Byte>)
    returns (code: nat, next: nat)
    requires a.Valid() && len <= MAX_LEN && base + len <= mem.Length && i == |enc| && i % 4 == 0
    requires mem[base..base + len] == Image(enc, len)
    modifies mem
    ensures code == if a.Other? then 4 else if Raw(a) != [] && i + |Raw(a)| > len then 3 else 0
    ensures code == 0 ==> mem[base..base + len] == Image(enc + Padded(Raw(a)), len) && next == |enc + Padded(Raw(a))|
    ensures forall k :: 0 <= k < mem.Length && !(base <= k < base + len) ==> mem[k] == old(mem[k])
  {
    PaddedLength(Raw(a));
    AlignFrom(i, |Raw(a)|);
    hide Image, Padded, Align, Bytes32, Bytes64, Unsigned32, Unsigned64;
    match a
    case Blob(b) =>
      if i + 4 + |b| > len { return 3, i; }
      assert Raw(a) == Bytes32(|b| % 0x1_0000_0000) + b;
      StoreItem(mem, base, len, i, Bytes32(|b| % 0x1_0000_0000) + b, enc);
      return 0, Align(i + 4 + 3 + |b|);
    case Float(w) =>
      if i + 4 > len { return 3, i; }
      StoreItem(mem, base, len, i, Bytes32(w), enc);
      return 0, i + 4;
    case Double(w) =>
      if i + 8 > len { return 3, i; }
      StoreItem(mem, base, len, i, Bytes64(w), enc);
      return 0, i + 8;
    case Int(v) =>
      if i + 4 > len { return 3, i; }
      StoreItem(mem, base, len, i, Bytes32(Unsigned32(v)), enc);
      return 0, i + 4;
    case Midi(w) =>
      if i + 4 > len { return 3, i; }
      StoreItem(mem, base, len, i, Bytes32(w), enc);
      return 0, i + 4;
    case Timetag(w) =>
      if i + 8 > len { return 3, i; }
      StoreItem(mem, base, len, i, Bytes64(w), enc);
      return 0, i + 8;
    case Long(v) =>
      if i + 8 > len { return 3, i; }
      StoreItem(mem, base, len, i, Bytes64(Unsigned64(v)), enc);
      return 0, i + 8;
    case Text(s) =>
      if i + |s| >= len { return 3, i; }
      StoreItem(mem, base, len, i, s + [0], enc);
      return 0, Align(i + 4 + |s|);
    case Other(_) =>
      return 4, i;
    case _ =>
      assert enc + Padded(Raw(a)) == enc;
      return 0, i;
  }

  /** Address and format. */
  method StoreHeader(mem: array<Byte>, base: nat, len: nat, address: seq<Byte>, args: seq<Arg>)
    returns (ok: bool, next: nat)
    requires Message(address, args).Valid() && |address| < len <= MAX_LEN && base + len <= mem.Length
    requires base + CommaAt(address) < mem.Length
    requires mem[base..base + len] == Image([], len)
    modifies mem
    ensures ok <==> HeaderFits(Message(address, args), len)
    ensures ok ==> var h := Message(address, args).Header();
                   mem[base..base + len] == Image(h, len) && next == |h|
    ensures forall k :: 0 <= k < mem.Length && !(base <= k < base + len) ==>
              mem[k] == if k == base + CommaAt(address) then COMMA else old(mem[k])
  {
    hide Tags, Padded, Image, Align;
    ghost var a, f := Padded(address + [0]), [COMMA] + Tags(args) + [0];
    PaddedLength(address + [0]);
    StoreItem(mem, base, len, 0, address + [0], []);
    assert [] + a == a;
    var i: nat := Align(|address| + 4);
    label Comma:
    mem[base + i] := COMMA;
    i := i + 1;
    var tags := Tags(args);
    if i + |tags| >= len { return false, i; }
    Store(mem, base + i, tags + [0]);
    ghost var before := old@Comma(mem[base..base + len]);
    forall k | 0 <= k < len
      ensures mem[base..base + len][k] == if |a| <= k < |a| + |f| then f[k - |a|] else before[k]
    {
      assert before[k] == old@Comma(mem[base + k]);
    }
    ImageGrows(a, f, len, before, mem[base..base + len]);
    PaddedLength(f);
    AlignFrom(i - 1, |f|);
    return true, Align(i + 4 + |tags|);
  }

  /** The arguments, up to the first that cannot be written. */
  method StoreArgs(mem: array<Byte>, base: nat, len: nat, args: seq<Arg>, start: nat, ghost m: Message)
    returns (code: nat, i: nat, ghost done: nat)
    requires m.Valid() && m.args == args && len <= MAX_LEN && base + len <= mem.Length
    requires HeaderFits(m, len) && start == |m.Header()| && mem[base..base + len] == Image(m.Header(), len)
    modifies mem
    ensures done <= |args| && Reaches(m, len, done)
    ensures code == 0 ==> done == |args| && i == |m.Encode()| && mem[base..base + len] == Image(m.Encode(), len)
    ensures code != 0 ==> done < |args|
    ensures || code == 0
            || (code == 3 && !args[done].Other? && !ArgFits(m, len, done))
            || (code == 4 && args[done].Other?)
    ensures forall k :: 0 <= k < mem.Length && !(base <= k < base + len) ==> mem[k] == old(mem[k])
  {
    hide Tags, Padded, Image, Align, Raw, EncodeArgs, HeaderFits;
    Layout(m);
    NoArgs();
    code, i, done := 0, start, 0;
    ghost var enc := m.Header();
    assert args[..0] == [] && enc + [] == enc;
    for j := 0 to |args|
      invariant done == j && Reaches(m, len, j)
      invariant enc == m.Header() + EncodeArgs(args[..j]) && i == |enc|
      invariant mem[base..base + len] == Image(enc, len)
      invariant forall k :: 0 <= k < mem.Length && !(base <= k < base + len) ==> mem[k] == old(mem[k])
    {
      ArgAt(args, j);
      code, i := StoreArg(mem, base, len, i, args[j], enc);
      if code != 0 { return; }
      enc := enc + Padded(Raw(args[j]));
      done := j + 1;
    }
    assert args[..|args|] == args;
  }

  /** The address fits, but its padding reaches the end of the buffer. */
  predicate CommaEscapes(address: seq<Byte>, len: nat) {
    |address| < len <= CommaAt(address)
  }

  /** `tosc_vwrite`: clears the buffer and writes one message. The comma of the
      format is stored before the format is found not to fit, so the caller must
      own that byte even when it lies past the buffer: exactly then the writer
      changes a byte outside it. */
  method WriteMessage(mem: array<Byte>, base: nat, len: nat, address: seq<Byte>, args: seq<Arg>) returns (r: Word)
    requires Message(address, args).Valid()
    requires len <= MAX_LEN && base + len <= mem.Length
    requires |address| < len ==> base + CommaAt(address) < mem.Length
    modifies mem
    ensures var m := Message(address, args);
            && (Reaches(m, len, |args|) ==> r == |m.Encode()| && mem[base..base + len] == Image(m.Encode(), len))
            && (r == 0xFFFF_FFFF <==> |address| >= len)
            && (r == 0xFFFF_FFFE <==> |address| < len && !HeaderFits(m, len))
            && (r == 0xFFFF_FFFD <==>
                 exists k :: 0 <= k < |args| && Reaches(m, len, k) && !args[k].Other? && !ArgFits(m, len, k))
            && (r == 0xFFFF_FFFC <==> StopsAtUnknown(m, len))
    ensures Failed(r) <==> !Reaches(Message(address, args), len, |args|)
    ensures forall k :: 0 <= k < mem.Length && !(base <= k < base + len) ==>
              mem[k] == if CommaEscapes(address, len) && k == base + CommaAt(address) then COMMA else old(mem[k])
  {
    hide EncodeArgs, Align, Tags, Raw, Padded, Image, ArgFits;
    ghost var m := Message(address, args);
    Clear(mem, base, len);
    assert mem[base..base + len] == Image([], len) by { Cleared(mem[base..base + len], len); }
    var i: nat := |address|;
    if i >= len { return Failure(1); }
    var ok, next := StoreHeader(mem, base, len, address, args);
    if !ok { return Failure(2); }
    var code;
    ghost var done;
    code, next, done := StoreArgs(mem, base, len, args, next, m);
    if code != 0 { return Failure(code); }
    SucceedsIff(m, len);
    return next;
  }

  /** A two-byte address in a four-byte buffer: the writer fails, and the byte
      behind the buffer has become a comma. */
  method CommaBehindBuffer(mem: array<Byte>, base: nat) returns (r: Word)
    requires base + 4 < mem.Length
    modifies mem
    ensures r == 0xFFFF_FFFE && mem[base + 4] == 0x2C
  {
    var address: seq<Byte> := [0x2F, 0x61];
    assert CommaAt(address) == 4 && CommaEscapes(address, 4);
    r := WriteMessage(mem, base, 4, address, []);
  }

  lemma {:induction false} Cleared(s: seq<Byte>, len: nat)
    requires |s| == len && forall k :: 0 <= k < len ==> s[k] == 0
    ensures s == Image([], len)
  {}
}
