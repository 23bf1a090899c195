/** Byte stuffing of Dynamixel 2.0 payloads. Inside the instruction and
    parameter bytes, the header pattern `FF FF FD` must not occur, so the
    sender inserts an extra `FD` after every `FF FF FD` and the receiver drops
    it. Both directions scan with the same three-state window: the number of
    `FF` bytes just seen (Python's `len(seen)`). */
module Stuffing {
  import opened Bytes

  /** `len(seen)`: how many of the two `FF` bytes of the pattern have been seen. */
  type Window = w: nat | w <= 2

  /** The byte closes an `FF FF FD` pattern: the branch that stuffs or unstuffs. */
  predicate Completes(w: Window, b: Byte)
  {
    w == 2 && b == 0xFD
  }

  /** The window after reading `b`: an `FF` grows a window of fewer than two,
      anything else (a completing `FD`, a third `FF`, any other byte) empties it. */
  function Next(w: Window, b: Byte): Window
  {
    if b == 0xFF && w < 2 then w + 1 else 0
  }

  /** The stuffing loop from window `w`: every completing `FD` is followed by an
      inserted `FD`. */
  function StuffFrom(w: Window, p: seq<Byte>): seq<Byte>
    decreases |p|
  {
    if p == [] then []
    else (if Completes(w, p[0]) then [p[0], 0xFD] else [p[0]]) + StuffFrom(Next(w, p[0]), p[1..])
  }

  /** The unstuffing loop from window `w`: every completing `FD` is dropped. */
  function UnstuffFrom(w: Window, p: seq<Byte>): seq<Byte>
    decreases |p|
  {
    if p == [] then []
    else (if Completes(w, p[0]) then [] else [p[0]]) + UnstuffFrom(Next(w, p[0]), p[1..])
  }

  /** How many bytes of `p` complete the pattern, scanning from window `w`. */
  function Completions(w: Window, p: seq<Byte>): nat
    decreases |p|
  {
    if p == [] then 0
    else (if Completes(w, p[0]) then 1 else 0) + Completions(Next(w, p[0]), p[1..])
  }

  /** The assembler's stuffing: its window starts holding the instruction byte,
      so it already counts one slot (whatever the instruction is). */
  function Stuff(p: seq<Byte>): (s: seq<Byte>)
    ensures |s| == |p| + Completions(1, p)
    ensures FdInsertion(p, s)
    ensures Completions(1, p) == 0 ==> s == p
  {
    StuffLength(1, p);
    StuffIsFdInsertion(1, p);
    if Completions(1, p) == 0 then NoCompletionStuffIdentity(1, p); StuffFrom(1, p)
    else StuffFrom(1, p)
  }

  /** The disassembler's unstuffing: its window starts empty. */
  function Unstuff(p: seq<Byte>): (u: seq<Byte>)
    ensures |u| + Completions(0, p) == |p|
    ensures Completions(0, p) == 0 ==> u == p
  {
    UnstuffLength(0, p);
    if Completions(0, p) == 0 then NoCompletionUnstuffIdentity(0, p); UnstuffFrom(0, p)
    else UnstuffFrom(0, p)
  }

  /** `s` is `p` with zero or more `FD` bytes inserted, each right after an
      `FD` of `p`. */
  predicate FdInsertion(p: seq<Byte>, s: seq<Byte>)
    decreases |p|
  {
    if p == [] then s == []
    else
      |s| > 0 && s[0] == p[0] &&
      (FdInsertion(p[1..], s[1..]) ||
       (p[0] == 0xFD && |s| > 1 && s[1] == 0xFD && FdInsertion(p[1..], s[2..])))
  }

  /** The loop of `prepare_buffer_after_building` as written: the window list
      `seen` is seeded with the instruction, the stuffed list is built byte by
      byte, and the original buffer is kept unless a byte was inserted. */
  method StuffPayload(instruction: Byte, buffer: seq<Byte>) returns (result: seq<Byte>, needed: bool)
    ensures result == Stuff(buffer)
    ensures needed <==> Completions(1, buffer) > 0
    ensures |result| == |buffer| + Completions(1, buffer)
    ensures FdInsertion(buffer, result)
  {
    var stuffed: seq<Byte> := [];
    needed := false;
    var seen: Window := 1;
    var k := 0;
    while k < |buffer|
      invariant 0 <= k <= |buffer|
      invariant stuffed + StuffFrom(seen, buffer[k..]) == StuffFrom(1, buffer)
      invariant needed ==> Completions(1, buffer) > 0
      invariant !needed ==> Completions(seen, buffer[k..]) == Completions(1, buffer)
    {
      var b := buffer[k];
      ghost var w := seen;
      ghost var before := stuffed;
      StuffStep(seen, buffer, k);
      stuffed := stuffed + [b];
      if b == 0xFF && seen == 0 {
        seen := 1;
      } else if b == 0xFF && seen == 1 {
        seen := 2;
      } else if b == 0xFD && seen == 2 {
        needed := true;
        stuffed := stuffed + [0xFD];
        seen := 0;
      } else {
        seen := 0;
      }
      assert seen == Next(w, b);
      ghost var out: seq<Byte> := if Completes(w, b) then [b, 0xFD] else [b];
      assert stuffed == before + out;
      AppendAssoc(before, out, StuffFrom(seen, buffer[k + 1..]));
      k := k + 1;
    }
    assert buffer[k..] == [];
    StuffLength(1, buffer);
    StuffIsFdInsertion(1, buffer);
    if needed {
      result := stuffed;
    } else {
      NoCompletionStuffIdentity(1, buffer);
      result := buffer;
    }
  }

  /** The unstuffing loop of `get_packet_from_buffer` over the payload span:
      the window starts empty and a completing `FD` is not copied. */
  method UnstuffPayload(span: seq<Byte>) returns (unstuffed: seq<Byte>, needed: bool)
    ensures unstuffed == Unstuff(span)
    ensures needed <==> Completions(0, span) > 0
    ensures |unstuffed| + Completions(0, span) == |span|
  {
    unstuffed := [];
    needed := false;
    var seen: Window := 0;
    var k := 0;
    while k < |span|
      invariant 0 <= k <= |span|
      invariant unstuffed + UnstuffFrom(seen, span[k..]) == UnstuffFrom(0, span)
      invariant needed ==> Completions(0, span) > 0
      invariant !needed ==> Completions(seen, span[k..]) == Completions(0, span)
    {
      var b := span[k];
      ghost var w := seen;
      ghost var before := unstuffed;
      UnstuffStep(seen, span, k);
      var unstuffThisByte := false;
      if b == 0xFF && seen == 0 {
        seen := 1;
      } else if b == 0xFF && seen == 1 {
        seen := 2;
      } else if b == 0xFD && seen == 2 {
        needed := true;
        unstuffThisByte := true;
        seen := 0;
      } else {
        seen := 0;
      }
      if !unstuffThisByte {
        unstuffed := unstuffed + [b];
      }
      assert seen == Next(w, b) && unstuffThisByte == Completes(w, b);
      ghost var out: seq<Byte> := if Completes(w, b) then [] else [b];
      assert unstuffed == before + out;
      AppendAssoc(before, out, UnstuffFrom(seen, span[k + 1..]));
      k := k + 1;
    }
    assert span[k..] == [];
    UnstuffLength(0, span);
  }

  /** Concatenation regroups freely. */
  lemma AppendAssoc(a: seq<Byte>, b: seq<Byte>, c: seq<Byte>)
    ensures (a + b) + c == a + (b + c)
  {
  }

  /** One iteration of the stuffing loop at position `k`. */
  lemma StuffStep(w: Window, p: seq<Byte>, k: nat)
    requires k < |p|
    ensures StuffFrom(w, p[k..]) == (if Completes(w, p[k]) then [p[k], 0xFD] else [p[k]]) + StuffFrom(Next(w, p[k]), p[k + 1..])
    ensures Completions(w, p[k..]) == (if Completes(w, p[k]) then 1 else 0) + Completions(Next(w, p[k]), p[k + 1..])
  {
    assert p[k..][0] == p[k] && p[k..][1..] == p[k + 1..];
  }

  /** One iteration of the unstuffing loop at position `k`. */
  lemma UnstuffStep(w: Window, p: seq<Byte>, k: nat)
    requires k < |p|
    ensures UnstuffFrom(w, p[k..]) == (if Completes(w, p[k]) then [] else [p[k]]) + UnstuffFrom(Next(w, p[k]), p[k + 1..])
    ensures Completions(w, p[k..]) == (if Completes(w, p[k]) then 1 else 0) + Completions(Next(w, p[k]), p[k + 1..])
  {
    assert p[k..][0] == p[k] && p[k..][1..] == p[k + 1..];
  }

  /** Stuffing adds one byte per completion. */
  lemma {:induction false} StuffLength(w: Window, p: seq<Byte>)
    ensures |StuffFrom(w, p)| == |p| + Completions(w, p)
    decreases |p|
  {
    if p != [] {
      StuffLength(Next(w, p[0]), p[1..]);
    }
  }

  /** Unstuffing removes one byte per completion. */
  lemma {:induction false} UnstuffLength(w: Window, p: seq<Byte>)
    ensures |UnstuffFrom(w, p)| + Completions(w, p) == |p|
    decreases |p|
  {
    if p != [] {
      UnstuffLength(Next(w, p[0]), p[1..]);
    }
  }

  /** With nothing to stuff, stuffing is the identity: keeping the original
      buffer when `stuffing_needed` is false changes nothing. */
  lemma {:induction false} NoCompletionStuffIdentity(w: Window, p: seq<Byte>)
    requires Completions(w, p) == 0
    ensures StuffFrom(w, p) == p
    decreases |p|
  {
    if p != [] {
      NoCompletionStuffIdentity(Next(w, p[0]), p[1..]);
    }
  }

  /** With nothing to drop, unstuffing is the identity. */
  lemma {:induction false} NoCompletionUnstuffIdentity(w: Window, p: seq<Byte>)
    requires Completions(w, p) == 0
    ensures UnstuffFrom(w, p) == p
    decreases |p|
  {
    if p != [] {
      NoCompletionUnstuffIdentity(Next(w, p[0]), p[1..]);
    }
  }

  /** Only an `FD` can complete the pattern, so a payload without `FD` has no
      completions. */
  lemma {:induction false} NoFdNoCompletion(w: Window, p: seq<Byte>)
    requires forall i :: 0 <= i < |p| ==> p[i] != 0xFD
    ensures Completions(w, p) == 0
    decreases |p|
  {
    if p != [] {
      NoFdNoCompletion(Next(w, p[0]), p[1..]);
    }
  }

  /** A payload containing no `FD` passes through both directions unchanged. */
  lemma NoFdUnchanged(w: Window, p: seq<Byte>)
    requires forall i :: 0 <= i < |p| ==> p[i] != 0xFD
    ensures StuffFrom(w, p) == p && UnstuffFrom(w, p) == p
  {
    NoFdNoCompletion(w, p);
    NoCompletionStuffIdentity(w, p);
    NoCompletionUnstuffIdentity(w, p);
  }

  /** Stuffing only inserts `FD` bytes, each right after an `FD` of the input. */
  lemma {:induction false} StuffIsFdInsertion(w: Window, p: seq<Byte>)
    ensures FdInsertion(p, StuffFrom(w, p))
    decreases |p|
  {
    if p != [] {
      var rest := StuffFrom(Next(w, p[0]), p[1..]);
      StuffIsFdInsertion(Next(w, p[0]), p[1..]);
      if Completes(w, p[0]) {
        assert StuffFrom(w, p) == [p[0], 0xFD] + rest;
        assert StuffFrom(w, p)[2..] == rest;
      } else {
        assert StuffFrom(w, p) == [p[0]] + rest;
        assert StuffFrom(w, p)[1..] == rest;
      }
    }
  }

  /** Stuffing and unstuffing from the same window are inverse: the inserted
      `FD` lands right after the completing one, so the receiver drops the
      first of the pair and its window, reset by the drop, keeps the second. */
  lemma {:induction false} UnstuffStuffFrom(w: Window, p: seq<Byte>)
    ensures UnstuffFrom(w, StuffFrom(w, p)) == p
    decreases |p|
  {
    if p != [] {
      var b := p[0];
      var rest := StuffFrom(Next(w, b), p[1..]);
      UnstuffStuffFrom(Next(w, b), p[1..]);
      if Completes(w, b) {
        var s := [b, 0xFD] + rest;
        assert s[0] == b && s[1..] == [0xFD as Byte] + rest;
        assert ([0xFD as Byte] + rest)[0] == 0xFD && ([0xFD as Byte] + rest)[1..] == rest;
        assert UnstuffFrom(w, s) == UnstuffFrom(0, [0xFD as Byte] + rest);
        assert p == [b] + p[1..];
      } else {
        var s := [b] + rest;
        assert s[0] == b && s[1..] == rest;
        assert p == [b] + p[1..];
      }
    }
  }

  /** The protocol's own round trip: with both windows starting empty, unstuffing
      undoes stuffing for every payload. */
  lemma ProtocolRoundTrip(p: seq<Byte>)
    ensures UnstuffFrom(0, StuffFrom(0, p)) == p
  {
    UnstuffStuffFrom(0, p);
  }

  /** The stuffer scanning from `w` and the unstuffer scanning its output from
      `u` make the same decision on every input byte. */
  predicate Agree(w: Window, u: Window, p: seq<Byte>)
    decreases |p|
  {
    p == [] ||
    (Completes(w, p[0]) == Completes(u, p[0]) && Agree(Next(w, p[0]), Next(u, p[0]), p[1..]))
  }

  /** Stuffing from `w` then unstuffing from `u` restores the payload exactly when
      the two scans agree on every byte. Where they first disagree both windows
      are reset, so the rest round-trips and the output is one byte too long (a
      stuffed `FD` kept) or one too short (an original `FD` dropped). */
  lemma {:induction false} RoundTripIffAgree(w: Window, u: Window, p: seq<Byte>)
    ensures UnstuffFrom(u, StuffFrom(w, p)) == p <==> Agree(w, u, p)
    decreases |p|
  {
    if p != [] {
      var b := p[0];
      RoundTripIffAgree(Next(w, b), Next(u, b), p[1..]);
      assert p == [b] + p[1..];
      if Completes(w, b) == Completes(u, b) {
        AgreeingHead(w, u, p);
      } else {
        DisagreeingHead(w, u, p);
      }
    }
  }

  /** When both scans make the same decision on the first byte, the round
      trip gives that byte back followed by the round trip of the rest. */
  lemma AgreeingHead(w: Window, u: Window, p: seq<Byte>)
    requires p != [] && Completes(w, p[0]) == Completes(u, p[0])
    ensures UnstuffFrom(u, StuffFrom(w, p)) ==
      [p[0]] + UnstuffFrom(Next(u, p[0]), StuffFrom(Next(w, p[0]), p[1..]))
  {
    var b := p[0];
    var rest := StuffFrom(Next(w, b), p[1..]);
    if Completes(w, b) {
      assert StuffFrom(w, p) == [b] + ([0xFD as Byte] + rest);
      UnstuffCons(u, b, [0xFD as Byte] + rest);
      UnstuffCons(0, 0xFD, rest);
    } else {
      assert StuffFrom(w, p) == [b] + rest;
      UnstuffCons(u, b, rest);
    }
  }

  /** Unstuffing a byte followed by more bytes: one step of the loop. */
  lemma UnstuffCons(u: Window, b: Byte, rest: seq<Byte>)
    ensures UnstuffFrom(u, [b] + rest) ==
      (if Completes(u, b) then [] else [b]) + UnstuffFrom(Next(u, b), rest)
  {
    assert ([b] + rest)[0] == b && ([b] + rest)[1..] == rest;
  }

  /** When only one scan completes the pattern at the first byte, the round
      trip keeps a stuffed `FD` or drops an original one: the length is off. */
  lemma DisagreeingHead(w: Window, u: Window, p: seq<Byte>)
    requires p != [] && Completes(w, p[0]) != Completes(u, p[0])
    ensures |UnstuffFrom(u, StuffFrom(w, p))| != |p|
  {
    var b := p[0];
    var rest := StuffFrom(Next(w, b), p[1..]);
    UnstuffStuffFrom(0, p[1..]);
    if Completes(w, b) {
      var s := [b, 0xFD] + rest;
      assert s[0] == b && s[1..] == [0xFD as Byte] + rest;
      assert ([0xFD as Byte] + rest)[0] == 0xFD && ([0xFD as Byte] + rest)[1..] == rest;
      assert UnstuffFrom(u, s) == [b, 0xFD] + p[1..];
    } else {
      var s := [b] + rest;
      assert s[0] == b && s[1..] == rest;
      assert UnstuffFrom(u, s) == p[1..];
    }
  }

  /** The payloads the source fails to round-trip: a run of `FF` whose length
      is not a multiple of three, then `FD`. */
  predicate BreaksRoundTrip(p: seq<Byte>)
  {
    exists k :: 0 <= k < |p| && k % 3 != 0 && p[k] == 0xFD && forall j :: 0 <= j < k ==> p[j] == 0xFF
  }

  /** The stuffer's window (`w`) and the unstuffer's (`u`) after a run of `k`
      `FF` bytes from the source's start states 1 and 0: they cycle through
      (1, 0), (2, 1), (0, 2) with period three. */
  predicate Phase(k: nat, w: Window, u: Window)
  {
    (k % 3 == 0 && w == 1 && u == 0) ||
    (k % 3 == 1 && w == 2 && u == 1) ||
    (k % 3 == 2 && w == 0 && u == 2)
  }

  /** From a phase of the `FF` cycle, the scans agree on the rest of the
      payload unless the run continues into an `FD` at a phase other than 0. */
  lemma {:induction false} AgreeFromPhase(k: nat, w: Window, u: Window, p: seq<Byte>, q: seq<Byte>)
    requires Phase(k, w, u)
    requires |p| == k && (forall j :: 0 <= j < k ==> p[j] == 0xFF)
    ensures Agree(w, u, q) <==> !BreaksRoundTrip(p + q)
    decreases |q|
  {
    if q == [] {
      assert p + q == p;
    } else if q[0] == 0xFF {
      var p' := p + [q[0]];
      assert p' + q[1..] == p + q;
      AgreeFromPhase(k + 1, Next(w, q[0]), Next(u, q[0]), p', q[1..]);
    } else {
      // The run ends here: both windows reset after this byte.
      var pq := p + q;
      assert pq[k] == q[0];
      if q[0] == 0xFD && k % 3 != 0 {
        assert !Agree(w, u, q);
        assert BreaksRoundTrip(pq);
      } else {
        AgreeSameWindow(0, q[1..]);
        assert Agree(w, u, q);
        forall i | 0 <= i < |pq| && i % 3 != 0 && pq[i] == 0xFD
          ensures exists j :: 0 <= j < i && pq[j] != 0xFF
        {
          assert i != k;
          assert pq[k] != 0xFF;
        }
      }
    }
  }

  /** Scans that start in the same window always agree. */
  lemma {:induction false} AgreeSameWindow(w: Window, p: seq<Byte>)
    ensures Agree(w, w, p)
    decreases |p|
  {
    if p != [] {
      AgreeSameWindow(Next(w, p[0]), p[1..]);
    }
  }

  /** The source's round trip, exactly: unstuffing (window empty) the output of
      stuffing (window seeded) restores the payload unless the payload opens
      with a run of `FF` whose length is not a multiple of three followed by
      `FD`. */
  lemma SourceRoundTripIff(p: seq<Byte>)
    ensures Unstuff(Stuff(p)) == p <==> !BreaksRoundTrip(p)
  {
    RoundTripIffAgree(1, 0, p);
    AgreeFromPhase(0, 1, 0, [], p);
    assert [] + p == p;
  }

  /** In particular the round trip holds for an empty payload and for one that
      does not start with `FF`. */
  lemma SourceRoundTrip(p: seq<Byte>)
    requires p == [] || p[0] != 0xFF
    ensures Unstuff(Stuff(p)) == p
  {
    SourceRoundTripIff(p);
    forall k | 0 <= k < |p| && k % 3 != 0 && p[k] == 0xFD
      ensures exists j :: 0 <= j < k && p[j] != 0xFF
    {
      assert p[0] != 0xFF;
    }
  }

  /** Unstuffing sees exactly as many completions in the stuffed bytes as the
      stuffer saw in the payload, when both scan from the same window: the
      receiver decides to replace its buffer exactly when the sender did. */
  lemma {:induction false} StuffedCompletions(w: Window, p: seq<Byte>)
    ensures Completions(w, StuffFrom(w, p)) == Completions(w, p)
    decreases |p|
  {
    if p != [] {
      var b := p[0];
      var rest := StuffFrom(Next(w, b), p[1..]);
      StuffedCompletions(Next(w, b), p[1..]);
      if Completes(w, b) {
        var s := [b, 0xFD] + rest;
        assert s[0] == b && s[1..] == [0xFD as Byte] + rest;
        assert ([0xFD as Byte] + rest)[0] == 0xFD && ([0xFD as Byte] + rest)[1..] == rest;
        assert Completions(w, s) == 1 + Completions(0, [0xFD as Byte] + rest);
      } else {
        var s := [b] + rest;
        assert s[0] == b && s[1..] == rest;
      }
    }
  }

  /** For a payload that is empty or does not start with `FF`, the seeded
      window makes no difference: after the first byte both windows are
      empty. */
  lemma SeedIrrelevant(p: seq<Byte>)
    requires p == [] || p[0] != 0xFF
    ensures Stuff(p) == StuffFrom(0, p)
    ensures Completions(1, p) == Completions(0, p)
  {
  }

  /** So for such a payload the receiver's unstuffing finds a completion
      exactly when the sender's stuffing did. */
  lemma SourceCompletionsAgree(p: seq<Byte>)
    requires p == [] || p[0] != 0xFF
    ensures Completions(0, Stuff(p)) == Completions(1, p)
  {
    SeedIrrelevant(p);
    StuffedCompletions(0, p);
  }

  /** The seeded window stuffs `FF FD`, which the protocol leaves alone. */
  lemma SeededWindowStuffsFfFd()
    ensures Stuff([0xFF, 0xFD]) == [0xFF, 0xFD, 0xFD]
    ensures StuffFrom(0, [0xFF, 0xFD]) == [0xFF, 0xFD]
    ensures Unstuff(Stuff([0xFF, 0xFD])) != [0xFF, 0xFD]
  {
    assert [0xFF as Byte, 0xFD][1..] == [0xFD];
    assert [0xFF as Byte, 0xFD, 0xFD][1..] == [0xFD, 0xFD];
    assert [0xFD as Byte, 0xFD][1..] == [0xFD];
  }

  /** The seeded window leaves `FF FF FD` unstuffed, which the protocol stuffs;
      the receiver then drops the payload's own `FD`. */
  lemma SeededWindowMissesFfFfFd()
    ensures Stuff([0xFF, 0xFF, 0xFD]) == [0xFF, 0xFF, 0xFD]
    ensures StuffFrom(0, [0xFF, 0xFF, 0xFD]) == [0xFF, 0xFF, 0xFD, 0xFD]
    ensures Unstuff(Stuff([0xFF, 0xFF, 0xFD])) == [0xFF, 0xFF]
  {
    assert [0xFF as Byte, 0xFF, 0xFD][1..] == [0xFF, 0xFD];
    assert [0xFF as Byte, 0xFD][1..] == [0xFD];
  }
}
