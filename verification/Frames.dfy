/**
 The smoke client's WebSocket frames: the writer, the buffered reader, and any chunking of the bytes
 between them (sections 5.2 and 5.3 of RFC 6455).
 */
module Frames {
  import opened ChatTypes

  type Byte = b: int | 0 <= b < 256

  type Bytes = seq<Byte>

  // ----- numbers on the wire -----

  function Pow256(n: nat): nat {
    if n == 0 then 1 else 256 * Pow256(n - 1)
  }

  /** The low `width` bytes of n, most significant first. */
  function BigEndian(n: nat, width: nat): (bytes: Bytes)
    ensures |bytes| == width
  {
    if width == 0 then [] else BigEndian(n / 256, width - 1) + [n % 256]
  }

  function FromBigEndian(bytes: Bytes): nat {
    if bytes == [] then 0 else 256 * FromBigEndian(bytes[..|bytes| - 1]) + bytes[|bytes| - 1]
  }

  lemma {:induction false} BigEndianRoundTrip(n: nat, width: nat)
    requires n < Pow256(width)
    ensures FromBigEndian(BigEndian(n, width)) == n
  {
    if width != 0 {
      var bytes := BigEndian(n, width);
      assert bytes[..width - 1] == BigEndian(n / 256, width - 1);
      assert n / 256 < Pow256(width - 1);
      BigEndianRoundTrip(n / 256, width - 1);
    }
  }

  lemma Widths()
    ensures Pow256(2) == 0x1_0000 && Pow256(8) == 0x1_0000_0000_0000_0000
  {
    assert Pow256(1) == 256;
    assert Pow256(2) == 0x1_0000;
    assert Pow256(4) == 0x1_0000_0000;
    assert Pow256(6) == 0x1_0000_0000_0000;
  }

  // ----- masking -----

  function Pow2(n: nat): nat {
    if n == 0 then 1 else 2 * Pow2(n - 1)
  }

  /** Exclusive or of the low n bits. */
  function XorBits(a: nat, b: nat, n: nat): (r: nat)
    ensures r < Pow2(n)
  {
    if n == 0 then 0 else 2 * XorBits(a / 2, b / 2, n - 1) + (a + b) % 2
  }

  lemma {:induction false} XorBitsTwice(a: nat, b: nat, n: nat)
    requires a < Pow2(n)
    ensures XorBits(XorBits(a, b, n), b, n) == a
  {
    if n != 0 {
      var h := XorBits(a / 2, b / 2, n - 1);
      var x := 2 * h + (a + b) % 2;
      assert x == XorBits(a, b, n);
      HalfAndBit(h, a, b);
      XorBitsTwice(a / 2, b / 2, n - 1);
    }
  }

  lemma HalfAndBit(h: nat, a: nat, b: nat)
    ensures var x := 2 * h + (a + b) % 2; x / 2 == h && (x + b) % 2 == a % 2
  {
  }

  lemma EightBits()
    ensures Pow2(8) == 256
  {
    assert Pow2(4) == 16;
  }

  function Xor(a: Byte, b: Byte): Byte {
    EightBits();
    XorBits(a, b, 8)
  }

  /** Bit k of a number. */
  function Bit(a: nat, k: nat): nat {
    if k == 0 then a % 2 else Bit(a / 2, k - 1)
  }

  lemma {:induction false} XorBitsAt(a: nat, b: nat, n: nat, k: nat)
    requires k < n
    ensures Bit(XorBits(a, b, n), k) == if Bit(a, k) == Bit(b, k) then 0 else 1
  {
    var h := XorBits(a / 2, b / 2, n - 1);
    HalfAndBit(h, a, b);
    if k > 0 {
      XorBitsAt(a / 2, b / 2, n - 1, k - 1);
    } else {
      SumBit(a, b);
    }
  }

  lemma SumBit(a: nat, b: nat)
    ensures (a + b) % 2 == if a % 2 == b % 2 then 0 else 1
  {
  }

  /** The exclusive or of two bytes has a bit set exactly where theirs differ. */
  lemma XorIsBitwise(a: Byte, b: Byte, k: nat)
    requires k < 8
    ensures Bit(Xor(a, b), k) == if Bit(a, k) == Bit(b, k) then 0 else 1
  {
    EightBits();
    XorBitsAt(a, b, 8, k);
  }

  lemma XorTwice(a: Byte, b: Byte)
    ensures Xor(Xor(a, b), b) == a
  {
    EightBits();
    XorBitsTwice(a, b, 8);
  }

  type Mask = m: Bytes | |m| == 4 witness [0, 0, 0, 0]

  function Masked(payload: Bytes, mask: Mask): (r: Bytes)
    ensures |r| == |payload|
  {
    seq(|payload|, i requires 0 <= i < |payload| => Xor(payload[i], mask[i % 4]))
  }

  lemma MaskedTwice(payload: Bytes, mask: Mask)
    ensures Masked(Masked(payload, mask), mask) == payload
  {
    forall i | 0 <= i < |payload| ensures Masked(Masked(payload, mask), mask)[i] == payload[i] {
      XorTwice(payload[i], mask[i % 4]);
    }
  }

  // ----- frames -----

  /** A frame: its first byte (fin, reserved bits, opcode), its optional mask, its payload. */
  datatype Frame = Frame(first: Byte, mask: Option<Mask>, payload: Bytes)

  const TEXT: Byte := 1
  const CLOSE: Byte := 8
  const MAX_LENGTH: nat := 0x8000_0000_0000_0000

  function Opcode(f: Frame): int {
    f.first % 16
  }

  predicate Fits(f: Frame) {
    |f.payload| < MAX_LENGTH
  }

  /** The second byte without the mask bit. */
  function Length7(n: nat): nat {
    if n < 126 then n else if n <= 0xFFFF then 126 else 127
  }

  function Extension(n: nat): Bytes {
    if n < 126 then [] else if n <= 0xFFFF then BigEndian(n, 2) else BigEndian(n, 8)
  }

  function Prefix(f: Frame): Bytes {
    [f.first, (if f.mask.Some? then 128 else 0) + Length7(|f.payload|)]
  }

  function Header(f: Frame): Bytes {
    Prefix(f) + Extension(|f.payload|)
  }

  function Body(f: Frame): Bytes {
    if f.mask.Some? then f.mask.value + Masked(f.payload, f.mask.value) else f.payload
  }

  function Encode(f: Frame): Bytes {
    Header(f) + Body(f)
  }

  lemma EncodeParts(f: Frame, rest: Bytes)
    ensures Encode(f) + rest == Prefix(f) + (Extension(|f.payload|) + (Body(f) + rest))
  {
  }

  lemma EncodeHead(frames: seq<Frame>, i: nat, tail: Bytes)
    requires i < |frames|
    ensures EncodeAll(frames[i..]) + tail == Encode(frames[i]) + (EncodeAll(frames[i + 1..]) + tail)
  {
    var left := frames[i..];
    assert left[0] == frames[i] && left[1..] == frames[i + 1..];
    assert EncodeAll(left) == Encode(left[0]) + EncodeAll(left[1..]);
  }

  function EncodeAll(frames: seq<Frame>): Bytes {
    if frames == [] then [] else Encode(frames[0]) + EncodeAll(frames[1..])
  }

  /** The payloads of the text frames, in order. */
  function Texts(frames: seq<Frame>): seq<Bytes> {
    if frames == [] then []
    else (if Opcode(frames[0]) == TEXT then [frames[0].payload] else []) + Texts(frames[1..])
  }

  lemma ExtensionRoundTrip(n: nat)
    requires n < MAX_LENGTH
    ensures |Extension(n)| == (if n < 126 then 0 else if n <= 0xFFFF then 2 else 8)
    ensures n >= 126 ==> FromBigEndian(Extension(n)) == n
  {
    Widths();
    if 126 <= n <= 0xFFFF {
      BigEndianRoundTrip(n, 2);
    } else if n > 0xFFFF {
      BigEndianRoundTrip(n, 8);
    }
  }

  // ----- writer -----

  /** send_text: the payload bytes are masked in place behind the header and the mask. */
  method SendText(payload: Bytes, mask: Mask) returns (sent: Bytes)
    requires |payload| < MAX_LENGTH
    ensures sent == Encode(Frame(0x81, Some(mask), payload))
  {
    var encoded := new Byte[|payload|](i requires 0 <= i < |payload| => payload[i]);
    for index := 0 to |payload|
      invariant encoded[..index] == Masked(payload, mask)[..index]
      invariant encoded[index..] == payload[index..]
    {
      assert encoded[index] == encoded[index..][0] == payload[index];
      encoded[index] := Xor(encoded[index], mask[index % 4]);
      assert encoded[..index + 1] == encoded[..index] + [Masked(payload, mask)[index]];
    }
    assert encoded[..] == encoded[..|payload|] == Masked(payload, mask);
    var length := |payload|;
    var header;
    if length < 126 {
      header := [0x81, 128 + length];
    } else if length <= 0xFFFF {
      header := [0x81, 0xFE] + BigEndian(length, 2);
    } else {
      header := [0x81, 0xFF] + BigEndian(length, 8);
    }
    ghost var f := Frame(0x81, Some(mask), payload);
    assert header == Header(f);
    sent := header + mask + encoded[..];
    assert sent == header + (mask + encoded[..]);
  }

  // ----- reader -----

  /** The first position where marker occurs in s, if any. */
  function IndexOf(s: Bytes, marker: Bytes, from: nat): Option<nat>
    requires from <= |s|
    decreases |s| - from
  {
    if marker <= s[from..] then Some(from)
    else if from == |s| then None
    else IndexOf(s, marker, from + 1)
  }

  lemma {:induction false} IndexOfIsFirst(s: Bytes, marker: Bytes, from: nat)
    requires from <= |s|
    ensures var r := IndexOf(s, marker, from);
            && (r.Some? ==> from <= r.value <= |s| && marker <= s[r.value..] && r.value + |marker| <= |s|)
            && (forall i :: from <= i <= |s| && (r.Some? ==> i < r.value) ==> !(marker <= s[i..]))
    decreases |s| - from
  {
    if !(marker <= s[from..]) && from < |s| {
      IndexOfIsFirst(s, marker, from + 1);
    }
  }

  /** An occurrence inside a prefix is an occurrence in the whole, and the first one stays the first. */
  lemma FirstInPrefix(s: Bytes, more: Bytes, marker: Bytes)
    requires IndexOf(s, marker, 0).Some?
    ensures IndexOf(s + more, marker, 0) == IndexOf(s, marker, 0)
  {
    var i := IndexOf(s, marker, 0).value;
    var t := s + more;
    IndexOfIsFirst(s, marker, 0);
    IndexOfIsFirst(t, marker, 0);
    assert t[i..] == s[i..] + more;
    forall j | 0 <= j < i ensures !(marker <= t[j..]) {
      assert t[j..] == s[j..] + more;
      assert t[j..][..|marker|] == s[j..][..|marker|];
    }
  }

  lemma SameSplit(a: Bytes, b: Bytes, c: Bytes, d: Bytes)
    requires a + b == c + d && |a| == |c|
    ensures a == c && b == d
  {
    assert a == (a + b)[..|a|] && b == (a + b)[|a|..];
    assert c == (c + d)[..|c|] && d == (c + d)[|c|..];
  }

  class WebSocket {
    var buffer: Bytes
    /** Bytes the peer has sent that recv has not returned yet. */
    var wire: Bytes

    constructor (wire: Bytes)
      ensures this.buffer == [] && this.wire == wire
    {
      this.buffer, this.wire := [], wire;
    }

    ghost function Stream(): Bytes
      reads this
    {
      buffer + wire
    }

    /** recv(4096): some nonempty prefix of what is on its way. */
    method Recv() returns (chunk: Bytes)
      requires wire != []
      modifies this`wire
      ensures 0 < |chunk| <= 4096 && chunk + wire == old(wire)
    {
      var n: nat :| 1 <= n <= 4096 && n <= |wire|;
      chunk := wire[..n];
      wire := wire[n..];
    }

    /**
     The next `size` bytes of the stream, however it is chunked. At the end of the stream recv
     returns nothing and the loop never ends, so enough bytes must be on their way.
     */
    method ReadExact(size: nat) returns (result: Bytes)
      requires size <= |Stream()|
      modifies this
      ensures |result| == size && result + Stream() == old(Stream())
    {
      while |buffer| < size
        invariant Stream() == old(Stream())
        decreases |wire|
      {
        var chunk := Recv();
        buffer := buffer + chunk;
      }
      result, buffer := buffer[..size], buffer[size..];
    }

    /** Everything up to and including the first occurrence of the marker. */
    method ReadUntil(marker: Bytes) returns (result: Bytes)
      requires IndexOf(Stream(), marker, 0).Some?
      modifies this
      ensures result + Stream() == old(Stream())
      ensures |result| == IndexOf(old(Stream()), marker, 0).value + |marker|
    {
      while IndexOf(buffer, marker, 0).None?
        invariant Stream() == old(Stream())
        decreases |wire|
      {
        assert wire == [] ==> buffer == Stream();
        var chunk := Recv();
        buffer := buffer + chunk;
      }
      FirstInPrefix(buffer, wire, marker);
      IndexOfIsFirst(buffer, marker, 0);
      var end := IndexOf(buffer, marker, 0).value + |marker|;
      result, buffer := buffer[..end], buffer[end..];
    }

    /** ReadExact when the next bytes are known to be `next`. */
    method ReadKnown(size: nat, ghost next: Bytes, ghost rest: Bytes) returns (result: Bytes)
      requires size == |next| && Stream() == next + rest
      modifies this
      ensures result == next && Stream() == rest
    {
      result := ReadExact(size);
      SameSplit(result, Stream(), next, rest);
    }

    /** The length field: seven bits, or the two or eight bytes that follow them. */
    method RecvLength(length7: nat, ghost n: nat, ghost rest: Bytes) returns (length: nat)
      requires n < MAX_LENGTH && length7 == Length7(n) && Stream() == Extension(n) + rest
      modifies this
      ensures length == n && Stream() == rest
    {
      ExtensionRoundTrip(n);
      length := length7;
      if length == 126 {
        var ext := ReadKnown(2, Extension(n), rest);
        length := FromBigEndian(ext);
      } else if length == 127 {
        var ext := ReadKnown(8, Extension(n), rest);
        length := FromBigEndian(ext);
      } else {
        assert Extension(n) + rest == rest;
      }
    }

    /** One frame off the stream: its opcode and its unmasked payload. */
    method RecvFrame(ghost f: Frame, ghost rest: Bytes) returns (opcode: int, payload: Bytes)
      requires Fits(f) && Stream() == Encode(f) + rest
      modifies this
      ensures opcode == Opcode(f) && payload == f.payload && Stream() == rest
    {
      EncodeParts(f, rest);
      var head := ReadKnown(2, Prefix(f), Extension(|f.payload|) + (Body(f) + rest));
      opcode := head[0] % 16;
      var length := RecvLength(head[1] % 128, |f.payload|, Body(f) + rest);
      if head[1] >= 128 {
        assert Body(f) + rest == f.mask.value + (Masked(f.payload, f.mask.value) + rest);
        var mask: Mask := ReadKnown(4, f.mask.value, Masked(f.payload, f.mask.value) + rest);
        payload := ReadKnown(length, Masked(f.payload, mask), rest);
        payload := Masked(payload, mask);
        MaskedTwice(f.payload, mask);
      } else {
        payload := ReadKnown(length, f.payload, rest);
      }
    }

    /** The next frame of a stream of frames. */
    method RecvNext(ghost frames: seq<Frame>, ghost read: nat, ghost tail: Bytes) returns (opcode: int, payload: Bytes)
      requires read < |frames| && Fits(frames[read]) && Stream() == EncodeAll(frames[read..]) + tail
      modifies this
      ensures opcode == Opcode(frames[read]) && payload == frames[read].payload
      ensures Stream() == EncodeAll(frames[read + 1..]) + tail
    {
      EncodeHead(frames, read, tail);
      opcode, payload := RecvFrame(frames[read], EncodeAll(frames[read + 1..]) + tail);
    }

    /**
     recv_text over a stream of frames that has a text or close frame left: skips every frame before
     the first of these, and returns its payload, or None where the client raises on a close frame.
     */
    method RecvText(ghost frames: seq<Frame>, ghost tail: Bytes) returns (text: Option<Bytes>, ghost read: nat)
      requires forall i :: 0 <= i < |frames| ==> Fits(frames[i])
      requires exists i :: 0 <= i < |frames| && (Opcode(frames[i]) == TEXT || Opcode(frames[i]) == CLOSE)
      requires Stream() == EncodeAll(frames) + tail
      modifies this
      ensures 0 < read <= |frames| && Stream() == EncodeAll(frames[read..]) + tail
      ensures forall i :: 0 <= i < read - 1 ==> Opcode(frames[i]) != 0x1 && Opcode(frames[i]) != 0x8
      ensures Opcode(frames[read - 1]) == 0x1 || Opcode(frames[read - 1]) == 0x8
      ensures text == if Opcode(frames[read - 1]) == TEXT then Some(frames[read - 1].payload) else None
    {
      read := 0;
      while true
        invariant read < |frames| && Stream() == EncodeAll(frames[read..]) + tail
        invariant forall i :: 0 <= i < read ==> Opcode(frames[i]) != TEXT && Opcode(frames[i]) != CLOSE
        decreases |frames| - read
      {
        var opcode, payload := RecvNext(frames, read, tail);
        read := read + 1;
        if opcode == CLOSE {
          return None, read;
        }
        if opcode == TEXT {
          return Some(payload), read;
        }
      }
    }

    /** Reading a whole stream without close frames yields exactly the text payloads, in order. */
    method RecvAll(ghost frames: seq<Frame>, count: nat) returns (texts: seq<Bytes>)
      requires Open(frames)
      requires Stream() == EncodeAll(frames) && count == |Texts(frames)|
      modifies this
      ensures texts == Texts(frames)
    {
      texts := [];
      ghost var left := frames;
      while |texts| < count
        invariant Open(left)
        invariant Stream() == EncodeAll(left) + []
        invariant texts + Texts(left) == Texts(frames)
      {
        TextRemains(left);
        var text, read := RecvText(left, []);
        SkipToText(left, read);
        OpenRest(left, read);
        assert texts + Texts(left) == (texts + [text.value]) + Texts(left[read..]);
        texts := texts + [text.value];
        left := left[read..];
      }
      NoTextsLeft(texts, Texts(left), Texts(frames));
    }
  }

  /** Frames that fit, none of them a close frame. */
  ghost predicate Open(frames: seq<Frame>) {
    forall i :: 0 <= i < |frames| ==> Fits(frames[i]) && Opcode(frames[i]) != CLOSE
  }

  lemma OpenRest(frames: seq<Frame>, n: nat)
    requires Open(frames) && n <= |frames|
    ensures Open(frames[n..])
  {
  }

  lemma NoTextsLeft(a: seq<Bytes>, b: seq<Bytes>, c: seq<Bytes>)
    requires a + b == c && |a| >= |c|
    ensures a == c
  {
    assert b == [];
  }

  lemma {:induction false} TextRemains(frames: seq<Frame>)
    requires |Texts(frames)| > 0
    ensures exists i :: 0 <= i < |frames| && (Opcode(frames[i]) == TEXT || Opcode(frames[i]) == CLOSE)
  {
    if Opcode(frames[0]) != TEXT {
      TextRemains(frames[1..]);
      var i :| 0 <= i < |frames[1..]| && (Opcode(frames[1..][i]) == TEXT || Opcode(frames[1..][i]) == CLOSE);
      assert frames[i + 1] == frames[1..][i];
    }
  }

  lemma {:induction false} SkipToText(frames: seq<Frame>, read: nat)
    requires 0 < read <= |frames| && Opcode(frames[read - 1]) == TEXT
    requires forall i :: 0 <= i < read - 1 ==> Opcode(frames[i]) != TEXT
    ensures Texts(frames) == [frames[read - 1].payload] + Texts(frames[read..])
  {
    if read > 1 {
      SkipToText(frames[1..], read - 1);
      assert frames[1..][read - 1..] == frames[read..];
    }
  }

  // ----- writer to reader -----

  /** What the writer sends for a list of payloads under a list of masks. */
  function Written(payloads: seq<Bytes>, masks: seq<Mask>): seq<Frame>
    requires |masks| == |payloads|
  {
    seq(|payloads|, i requires 0 <= i < |payloads| => Frame(0x81, Some(masks[i]), payloads[i]))
  }

  lemma {:induction false} TextsOfWritten(payloads: seq<Bytes>, masks: seq<Mask>)
    requires |masks| == |payloads|
    ensures Texts(Written(payloads, masks)) == payloads
  {
    if payloads != [] {
      TextsOfWritten(payloads[1..], masks[1..]);
      assert Written(payloads, masks)[1..] == Written(payloads[1..], masks[1..]);
    }
  }

  method SendAll(payloads: seq<Bytes>, masks: seq<Mask>) returns (sent: Bytes)
    requires |masks| == |payloads|
    requires forall i :: 0 <= i < |payloads| ==> |payloads[i]| < MAX_LENGTH
    ensures sent == EncodeAll(Written(payloads, masks))
  {
    sent := [];
    ghost var frames := Written(payloads, masks);
    for i := 0 to |payloads|
      invariant sent == EncodeAll(frames[..i])
    {
      var bytes := SendText(payloads[i], masks[i]);
      assert frames[i] == Frame(0x81, Some(masks[i]), payloads[i]);
      EncodePrefix(frames, i);
      sent := sent + bytes;
    }
    assert frames[..|payloads|] == frames;
  }

  /** Whatever the writer framed, in whatever chunks it arrives, the reader returns. */
  method RoundTrip(payloads: seq<Bytes>, masks: seq<Mask>) returns (texts: seq<Bytes>)
    requires |masks| == |payloads|
    requires forall i :: 0 <= i < |payloads| ==> |payloads[i]| < 0x8000_0000_0000_0000
    ensures texts == payloads
  {
    var sent := SendAll(payloads, masks);
    TextsOfWritten(payloads, masks);
    var reader := new WebSocket(sent);
    texts := reader.RecvAll(Written(payloads, masks), |payloads|);
  }

  lemma EncodePrefix(frames: seq<Frame>, i: nat)
    requires i < |frames|
    ensures EncodeAll(frames[..i + 1]) == EncodeAll(frames[..i]) + Encode(frames[i])
  {
    EncodeAppend(frames[..i], frames[i]);
    assert frames[..i] + [frames[i]] == frames[..i + 1];
  }

  lemma {:induction false} EncodeAppend(frames: seq<Frame>, f: Frame)
    ensures EncodeAll(frames + [f]) == EncodeAll(frames) + Encode(f)
  {
    if frames == [] {
      assert [f][1..] == [] && frames + [f] == [f];
    } else {
      assert (frames + [f])[1..] == frames[1..] + [f];
      EncodeAppend(frames[1..], f);
    }
  }
}
