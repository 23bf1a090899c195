/** The frame detector of the protocol class: the two tests the stream parser
    applies to each received byte, one while it waits for a frame to start and
    one while a frame is in progress. */
module Detector {
  import opened Bytes

  /** `perilib.ParseStatus`, restricted to the values these tests return. */
  datatype ParseStatus = Idle | Starting | InProgress | Complete

  /** The start-of-frame marker `FF FF FD`. */
  const Preamble: seq<Byte> := [0xFF, 0xFF, 0xFD]

  /** `test_packet_start(buffer, new_byte)`: only the number of bytes already
      buffered and the new byte are consulted. */
  function TestPacketStart(buffer: seq<Byte>, newByte: Byte): (s: ParseStatus)
    ensures s == Starting <==> |buffer| <= 1 && newByte == 0xFF
    ensures s == InProgress <==> |buffer| == 2 && newByte == 0xFD
    ensures s != Complete
  {
    if |buffer| == 0 && newByte == 0xFF then Starting
    else if |buffer| == 1 && newByte == 0xFF then Starting
    else if |buffer| == 2 && newByte == 0xFD then InProgress
    else Idle
  }

  /** The frame length a buffer of at least seven bytes declares: the
      little-endian length field at offsets 5 and 6 counts the bytes after it,
      so the whole frame is seven bytes longer. */
  function DeclaredFrameLength(t: seq<Byte>): (n: nat)
    requires |t| >= 7
    ensures 7 <= n < 0x1_0000 + 7
  {
    LE16(t[5], t[6]) + 7
  }

  /** `test_packet_complete(buffer, new_byte)`: complete exactly when the
      buffer with the new byte is as long as its length field declares. */
  function TestPacketComplete(buffer: seq<Byte>, newByte: Byte): (s: ParseStatus)
    ensures s == Complete || s == InProgress
    ensures var t := buffer + [newByte];
      s == Complete <==> |t| >= 7 && |t| == LE16(t[5], t[6]) + 7
  {
    var t := buffer + [newByte];
    if |t| >= 7 && |t| == DeclaredFrameLength(t) then Complete else InProgress
  }

  /** Feeding the first `k + 1` bytes of `f`: the test sees `f[..k]` as the
      buffer and `f[k]` as the new byte. */
  function CompleteAfter(f: seq<Byte>, k: nat): (s: ParseStatus)
    requires k < |f|
  {
    TestPacketComplete(f[..k], f[k])
  }

  /** The start test accepts three bytes in a row exactly when they are the
      preamble. */
  lemma StartAcceptsOnlyPreamble(s: seq<Byte>)
    requires |s| == 3
    ensures (forall k :: 0 <= k < 3 ==> TestPacketStart(s[..k], s[k]) != Idle) <==> s == Preamble
  {
    if forall k :: 0 <= k < 3 ==> TestPacketStart(s[..k], s[k]) != Idle {
      assert TestPacketStart(s[..0], s[0]) != Idle;
      assert TestPacketStart(s[..1], s[1]) != Idle;
      assert TestPacketStart(s[..2], s[2]) != Idle;
      assert s == [s[0], s[1], s[2]];
    }
  }

  /** Only the buffer's length matters to the start test, not its contents. */
  lemma StartDependsOnlyOnLength(a: seq<Byte>, b: seq<Byte>, x: Byte)
    requires |a| == |b|
    ensures TestPacketStart(a, x) == TestPacketStart(b, x)
  {
  }

  /** Along the prefixes of a frame whose length field is right, the
      completion test fires at the last byte and at no earlier byte from the
      seventh on. */
  lemma {:induction false} CompletesExactlyAtEnd(f: seq<Byte>)
    requires |f| >= 7 && |f| == DeclaredFrameLength(f)
    ensures CompleteAfter(f, |f| - 1) == Complete
    ensures forall k :: 6 <= k < |f| - 1 ==> CompleteAfter(f, k) == InProgress
  {
    assert f[..|f| - 1] + [f[|f| - 1]] == f;
    forall k | 6 <= k < |f| - 1
      ensures CompleteAfter(f, k) == InProgress
    {
      var t := f[..k] + [f[k]];
      assert t == f[..k + 1];
      assert t[5] == f[5] && t[6] == f[6];
    }
  }

  /** Two prefixes of the same byte stream, both at least seven bytes long,
      cannot both complete: a frame ends at one place only. */
  lemma CompletesAtMostOnce(f: seq<Byte>, i: nat, j: nat)
    requires 6 <= i < |f| && 6 <= j < |f|
    requires CompleteAfter(f, i) == Complete && CompleteAfter(f, j) == Complete
    ensures i == j
  {
    var ti := f[..i] + [f[i]];
    var tj := f[..j] + [f[j]];
    assert ti == f[..i + 1] && tj == f[..j + 1];
    assert ti[5] == f[5] && ti[6] == f[6] && tj[5] == f[5] && tj[6] == f[6];
  }

  /** A byte string that opens with `FF FF FD 00` and whose length field is
      right passes the start test on its first three bytes and completes
      exactly at its last byte. */
  lemma WellFormedFrameIsDetected(f: seq<Byte>)
    requires |f| >= 7 && f[..4] == [0xFF, 0xFF, 0xFD, 0x00]
    requires LE16(f[5], f[6]) + 7 == |f|
    ensures forall k :: 0 <= k < 3 ==> TestPacketStart(f[..k], f[k]) != Idle
    ensures CompleteAfter(f, |f| - 1) == Complete
    ensures forall k :: 6 <= k < |f| - 1 ==> CompleteAfter(f, k) == InProgress
  {
    assert f[..3] == Preamble by {
      assert f[..3] == f[..4][..3];
    }
    StartAcceptsOnlyPreamble(f[..3]);
    forall k | 0 <= k < 3
      ensures TestPacketStart(f[..k], f[k]) != Idle
    {
      assert TestPacketStart(f[..3][..k], f[..3][k]) != Idle;
      StartDependsOnlyOnLength(f[..k], f[..3][..k], f[k]);
    }
    CompletesExactlyAtEnd(f);
  }
}
