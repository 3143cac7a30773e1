/** `seq_recv_callback` of `seq_send.c`: the bytes of a packet as 32-bit words, most significant byte first, the last
    one filled up with 0xFF. */
module SeqSend {
  import opened Bytes

  const EXCESS: Byte := 0xFF

  /** The conversion to `u8_t`. */
  function LowByte(n: nat): (b: Byte)
    ensures b == n % 256 <= n
  {
    n % 256
  }

  function NumExcess(len: Byte): int {
    4 - len % 4
  }

  /** Shifts by 24, 16 and 8, or-ed. */
  function Word4(a: Byte, b: Byte, c: Byte, d: Byte): Word {
    (a as int) * 0x100_0000 + (b as int) * 0x1_0000 + (c as int) * 0x100 + d
  }

  function Bytes4(w: Word): (bytes: seq<Byte>)
    ensures |bytes| == 4
  {
    [w / 0x100_0000, w / 0x1_0000 % 256, w / 0x100 % 256, w % 256]
  }

  /** The word whose bytes begin with `bytes`. */
  function Filled(bytes: seq<Byte>): Word
    requires 1 <= |bytes| <= 4
  {
    Word4(bytes[0], if |bytes| > 1 then bytes[1] else EXCESS, if |bytes| > 2 then bytes[2] else EXCESS,
          if |bytes| > 3 then bytes[3] else EXCESS)
  }

  function Packed(bytes: seq<Byte>): seq<Word> {
    if bytes == [] then []
    else if |bytes| <= 4 then [Filled(bytes)]
    else [Filled(bytes[..4])] + Packed(bytes[4..])
  }

  /** The bytes that go into the word at `i`. */
  function Group(bytes: seq<Byte>, i: nat): (group: seq<Byte>)
    requires i < |bytes|
    ensures |group| == if i + 4 > |bytes| then |bytes| - i else 4
    ensures forall k :: 0 <= k < |group| ==> group[k] == bytes[i + k]
  {
    bytes[i..if i + 4 > |bytes| then |bytes| else i + 4]
  }

  /** The words of the bytes from `i` on. */
  function Rest(bytes: seq<Byte>, i: nat): seq<Word> {
    if i > |bytes| then [] else Packed(bytes[i..])
  }

  lemma PackedStep(bytes: seq<Byte>, i: nat, words: seq<Word>)
    requires i < |bytes|
    ensures words + Rest(bytes, i) == words + [Filled(Group(bytes, i))] + Rest(bytes, i + 4)
  {
    hide Filled;
    var rest := bytes[i..];
    if i + 4 < |bytes| {
      assert rest[..4] == Group(bytes, i) && rest[4..] == bytes[i + 4..];
    } else {
      assert rest == Group(bytes, i);
    }
  }

  lemma ExcessBytes(words: nat, len: Byte)
    requires 4 * words < len < 4 * words + 4
    ensures NumExcess(len) == 4 * words + 4 - len
  {}

  lemma FilledGroup(group: seq<Byte>)
    requires 1 <= |group| <= 4
    ensures Filled(group) == if |group| == 1 then Word4(group[0], EXCESS, EXCESS, EXCESS)
                             else if |group| == 2 then Word4(group[0], group[1], EXCESS, EXCESS)
                             else if |group| == 3 then Word4(group[0], group[1], group[2], EXCESS)
                             else Word4(group[0], group[1], group[2], group[3])
  {
    hide Word4;
  }

  lemma RestEnds(bytes: seq<Byte>)
    ensures Rest(bytes, 0) == Packed(bytes)
    ensures forall i :: i >= |bytes| ==> Rest(bytes, i) == []
  {
    assert bytes[0..] == bytes;
  }

  /** `payload` is the memory from `p->payload` on: the first buffer of a packet of `totLen` bytes and, should it be
      shorter than that, what lies behind it, for the loop neither follows the chain nor looks at the buffer's length.
      It is null when the connection has been closed. `words` are the words printed. */
  method SeqRecvCallback(payload: array?<Byte>, totLen: Half) returns (closed: bool, words: seq<Word>)
    requires payload != null ==> totLen % 256 <= payload.Length
    ensures closed <==> payload == null
    ensures words == if payload == null then [] else Packed(payload[..totLen % 256])
  {
    hide Packed, Rest, Word4, Group, Filled, LowByte, NumExcess;
    words := [];
    if payload == null {
      return true, words;
    }
    closed := false;
    var len := LowByte(totLen);
    var packet := payload;
    ghost var bytes := packet[..len];
    RestEnds(bytes);
    var i := 0;
    while i < len
      invariant i == 4 * |words|
      invariant Packed(bytes) == words + Rest(bytes, i)
    {
      var packetSeq: Word;
      if i + 4 > len {
        var numExcess := NumExcess(len);
        ExcessBytes(|words|, len);
        if numExcess == 1 {
          packetSeq := Word4(packet[i], packet[i + 1], packet[i + 2], EXCESS);
        } else if numExcess == 2 {
          packetSeq := Word4(packet[i], packet[i + 1], EXCESS, EXCESS);
        } else {
          packetSeq := Word4(packet[i], EXCESS, EXCESS, EXCESS);
        }
      } else {
        packetSeq := Word4(packet[i], packet[i + 1], packet[i + 2], packet[i + 3]);
      }
      PackedStep(bytes, i, words);
      FilledGroup(Group(bytes, i));
      words := words + [packetSeq];
      i := i + 4;
    }
  }

  // ----- The words in numbers -----

  /** What stands at position `i` of the words' bytes. */
  function ByteAt(bytes: seq<Byte>, i: nat): int {
    if i < |bytes| then bytes[i] else 255
  }

  /** Word `j` holds the bytes 4j to 4j+3, the first one on top, and ones behind the end of the packet. */
  lemma {:induction false} PackedWord(bytes: seq<Byte>, j: nat)
    requires j < |Packed(bytes)|
    ensures Packed(bytes)[j] == ByteAt(bytes, 4 * j) * 16777216 + ByteAt(bytes, 4 * j + 1) * 65536
                                + ByteAt(bytes, 4 * j + 2) * 256 + ByteAt(bytes, 4 * j + 3)
  {
    if |bytes| > 4 {
      assert Packed(bytes)[1..] == Packed(bytes[4..]);
      if j > 0 {
        PackedWord(bytes[4..], j - 1);
        assert forall i :: i >= 4 ==> ByteAt(bytes, i) == ByteAt(bytes[4..], i - 4);
      }
    }
  }

  /** What a call prints for a packet of `totLen` bytes: as many words as the length modulo 256 takes, and in them the
      first bytes of the payload. */
  lemma PrintedWords(payload: seq<Byte>, totLen: Half, words: seq<Word>)
    requires totLen % 256 <= |payload| && words == Packed(payload[..totLen % 256])
    ensures |words| == (totLen % 256 + 3) / 4
    ensures totLen % 256 <= |Unpacked(words)| && Unpacked(words)[..totLen % 256] == payload[..totLen % 256]
    ensures forall j :: 0 <= j < |words| ==>
              words[j] == ByteAt(payload[..totLen % 256], 4 * j) * 16777216
                          + ByteAt(payload[..totLen % 256], 4 * j + 1) * 65536
                          + ByteAt(payload[..totLen % 256], 4 * j + 2) * 256 + ByteAt(payload[..totLen % 256], 4 * j + 3)
  {
    hide Packed, Unpacked, ByteAt;
    var sent := payload[..totLen % 256];
    PackedLength(sent);
    UnpackTruncated(sent);
    forall j | 0 <= j < |words|
      ensures words[j] == ByteAt(sent, 4 * j) * 16777216 + ByteAt(sent, 4 * j + 1) * 65536
                          + ByteAt(sent, 4 * j + 2) * 256 + ByteAt(sent, 4 * j + 3)
    {
      PackedWord(sent, j);
    }
  }

  // ----- Reading the words back -----

  function Unpacked(words: seq<Word>): seq<Byte> {
    if words == [] then [] else Bytes4(words[0]) + Unpacked(words[1..])
  }

  /** What fills `n` bytes up to whole words. */
  function Padding(n: nat): seq<Byte> {
    seq((4 - n % 4) % 4, k => EXCESS)
  }

  lemma SplitWord(high: nat, low: nat, unit: nat)
    requires low < unit && unit in {0x100, 0x1_0000, 0x100_0000}
    ensures (high * unit + low) / unit == high && (high * unit + low) % unit == low
  {
    if unit == 0x100 {
      assert (high * 0x100 + low) / 0x100 == high;
    } else if unit == 0x1_0000 {
      assert (high * 0x1_0000 + low) / 0x1_0000 == high;
    } else {
      assert (high * 0x100_0000 + low) / 0x100_0000 == high;
    }
  }

  lemma Bytes4Word4(a: Byte, b: Byte, c: Byte, d: Byte)
    ensures Bytes4(Word4(a, b, c, d)) == [a, b, c, d]
  {
    SplitWord(a, (b as int) * 0x1_0000 + (c as int) * 0x100 + d, 0x100_0000);
    SplitWord((a as int) * 0x100 + b, (c as int) * 0x100 + d, 0x1_0000);
    SplitWord((a as int) * 0x1_0000 + (b as int) * 0x100 + c, d, 0x100);
    SplitWord(a, b, 0x100);
    SplitWord((a as int) * 0x100 + b, c, 0x100);
  }

  lemma UnpackedFront(w: Word, rest: seq<Word>)
    ensures Unpacked([w] + rest) == Bytes4(w) + Unpacked(rest)
    ensures Unpacked([w]) == Bytes4(w)
  {
    hide Bytes4;
    assert ([w] + rest)[1..] == rest && [w][1..] == [];
  }

  /** The bytes of the words are the packet and 0 to 3 bytes 0xFF. */
  lemma {:induction false} UnpackPacked(bytes: seq<Byte>)
    ensures Unpacked(Packed(bytes)) == bytes + Padding(|bytes|)
  {
    hide Filled, Bytes4, Padding, Unpacked;
    if bytes == [] {
      PaddingPeriod(0);
      UnpackedNone();
    } else if |bytes| <= 4 {
      FilledBytes(bytes);
      UnpackedFront(Filled(bytes), []);
    } else {
      var group, rest := bytes[..4], bytes[4..];
      FilledBytes(group);
      UnpackPacked(rest);
      UnpackedFront(Filled(group), Packed(rest));
      assert bytes == group + rest;
      PaddingPeriod(|rest|);
    }
  }

  lemma UnpackedNone()
    ensures Unpacked([]) == []
  {}

  /** Truncated to the packet's length they are the packet. */
  lemma UnpackTruncated(bytes: seq<Byte>)
    ensures |bytes| <= |Unpacked(Packed(bytes))| && Unpacked(Packed(bytes))[..|bytes|] == bytes
  {
    hide Padding, Packed, Unpacked;
    UnpackPacked(bytes);
  }

  lemma PaddingPeriod(n: nat)
    ensures Padding(n + 4) == Padding(n) && Padding(4) == Padding(0) == []
  {}

  lemma {:induction false} PackedLength(bytes: seq<Byte>)
    ensures |Packed(bytes)| == (|bytes| + 3) / 4
  {
    hide Filled;
    if |bytes| > 4 {
      PackedLength(bytes[4..]);
      assert (|bytes| - 4 + 3) / 4 == (|bytes| + 3) / 4 - 1;
    }
  }

  lemma FilledBytes(bytes: seq<Byte>)
    requires 1 <= |bytes| <= 4
    ensures Bytes4(Filled(bytes)) == bytes + Padding(|bytes|)
  {
    Bytes4Word4(bytes[0], if |bytes| > 1 then bytes[1] else EXCESS, if |bytes| > 2 then bytes[2] else EXCESS,
                if |bytes| > 3 then bytes[3] else EXCESS);
  }

  lemma PackedFour(bytes: seq<Byte>)
    requires |bytes| >= 4
    ensures Packed(bytes) == [Filled(bytes[..4])] + Packed(bytes[4..])
  {
    hide Filled;
    if |bytes| == 4 {
      assert bytes[..4] == bytes && bytes[4..] == [];
    }
  }

  /** Packing distributes over a split at a word boundary. */
  lemma {:induction false} PackedConcat(a: seq<Byte>, b: seq<Byte>)
    requires |a| % 4 == 0
    ensures Packed(a + b) == Packed(a) + Packed(b)
  {
    if a == [] {
      assert a + b == b;
    } else {
      hide Packed, Filled;
      PackedConcat(a[4..], b);
      PackedFour(a);
      PackedFour(a + b);
      assert (a + b)[..4] == a[..4];
      assert (a + b)[4..] == a[4..] + b;
    }
  }

  /** Two packets print the same words exactly when they differ in trailing bytes 0xFF within one word at most: the
      length of a packet cannot be told from its words. */
  lemma PackedEqual(a: seq<Byte>, b: seq<Byte>)
    ensures Packed(a) == Packed(b) <==> a + Padding(|a|) == b + Padding(|b|)
  {
    UnpackPacked(a);
    UnpackPacked(b);
    if a + Padding(|a|) == b + Padding(|b|) {
      RepackUnpacked(Packed(a));
      RepackUnpacked(Packed(b));
    }
  }

  lemma {:induction false} RepackUnpacked(words: seq<Word>)
    ensures Packed(Unpacked(words)) == words
  {
    if words != [] {
      RepackUnpacked(words[1..]);
      var bytes := Unpacked(words);
      assert bytes[..4] == Bytes4(words[0]) && bytes[4..] == Unpacked(words[1..]);
      Word4Bytes4(words[0]);
      if |bytes| == 4 {
        assert words[1..] == [];
        assert bytes == bytes[..4];
      }
    }
  }

  lemma Word4Bytes4(w: Word)
    ensures var b := Bytes4(w); Word4(b[0], b[1], b[2], b[3]) == w
  {
    var high, top := w / 0x100, w / 0x1_0000;
    assert w == high * 0x100 + w % 0x100;
    HighHalf(w);
    assert high == top * 0x100 + high % 0x100;
    assert top == w / 0x100_0000 * 0x100 + top % 0x100;
  }

  lemma HighHalf(w: Word)
    ensures w / 0x100 / 0x100 == w / 0x1_0000
    ensures w / 0x1_0000 / 0x100 == w / 0x100_0000
  {}

  /** The words printed hold the packet exactly when it is shorter than 256 bytes: its length goes through a byte. */
  lemma PacketComplete(payload: seq<Byte>)
    ensures payload <= Unpacked(Packed(payload[..|payload| % 256])) <==> |payload| < 256
  {
    hide Packed, Unpacked, Padding;
    UnpackPacked(payload[..|payload| % 256]);
    PaddedLength(|payload|);
  }

  lemma PaddedLength(n: nat)
    ensures if n < 256 then n % 256 == n else n % 256 + |Padding(n % 256)| < n
  {
    RoundUp(n % 256);
  }

  lemma RoundUp(m: Byte)
    ensures m + |Padding(m)| <= 256 && |Padding(0)| == 0
  {
    assert m == m / 4 * 4 + m % 4;
  }
}
