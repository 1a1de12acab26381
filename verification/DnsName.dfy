/** DNS names on the wire (collector/src/collector/discovery/mdns_ssdp.py, `_encode_name`,
  * `_encode_query`, `_read_name`, `_decode_message`): length-prefixed labels, compression
  * pointers as in section 4.1.4 of RFC 1035, and the walk over a message's records.
  * A name is its list of labels, each as bytes.
  */
module DnsName {
  import opened Common
  import opened Bytes

  type Name = seq<seq<Byte>>

  const MAX_STEPS: nat := 128

  // --- encoding ---------------------------------------------------------------------------

  /** Empty labels are left out. A label must fit its length byte. */
  function Encoded(name: Name): seq<Byte>
    requires forall i :: 0 <= i < |name| ==> |name[i]| < 256
  {
    if name == [] then [0]
    else if name[0] == [] then Encoded(name[1..])
    else
      var length: Byte := |name[0]|;
      [length] + name[0] + Encoded(name[1..])
  }

  /** One label too long for its length byte makes the encoder raise. */
  method EncodeName(name: Name) returns (out: Option<seq<Byte>>)
    ensures out.Some? <==> forall i :: 0 <= i < |name| ==> |name[i]| < 256
    ensures out.Some? ==> out.value == Encoded(name)
  {
    var bytes: seq<Byte> := [];
    var i := 0;
    while i < |name|
      invariant 0 <= i <= |name|
      invariant forall j :: 0 <= j < i ==> |name[j]| < 256
      invariant (forall j :: 0 <= j < |name| ==> |name[j]| < 256) ==> bytes + Encoded(name[i..]) == Encoded(name)
    {
      if name[i] != [] {
        if |name[i]| >= 256 {
          return None;
        }
        var length: Byte := |name[i]|;
        bytes := bytes + [length];
        bytes := bytes + name[i];
      }
      i := i + 1;
    }
    bytes := bytes + [0];
    return Some(bytes);
  }

  // --- reading ------------------------------------------------------------------------------

  predicate IsPointer(b: Byte) {
    b >= 192
  }

  lemma PointerBits(b: Byte)
    ensures And(b, 0xC0) == 0xC0 <==> IsPointer(b)
    ensures And(b, 0x3F) == b % 64
  {
    AndOnes(b, 6);
    assert Pow2(6) == 64;
    HighBits(b);
  }

  lemma AndDouble(a: nat, k: nat)
    ensures And(a, 2 * k) == 2 * And(a / 2, k)
  {
  }

  lemma HighBits(b: Byte)
    ensures And(b, 0xC0) == 0xC0 <==> b >= 192
  {
    hide And, Pow2;
    AndDouble(b, 0x60);
    AndDouble(b / 2, 0x30);
    AndDouble(b / 4, 0x18);
    AndDouble(b / 8, 0x0C);
    AndDouble(b / 16, 0x06);
    AndDouble(b / 32, 0x03);
    assert b / 2 / 2 == b / 4 && b / 4 / 2 == b / 8 && b / 8 / 2 == b / 16 && b / 16 / 2 == b / 32 && b / 32 / 2 == b / 64;
    AndOnes(b / 64, 2);
    FourIsPow();
  }

  lemma FourIsPow()
    ensures Pow2(2) == 4
  {
  }

  /** Where the two-byte pointer at `pos` leads. */
  function Target(data: seq<Byte>, pos: nat): nat
    requires pos + 1 < |data|
  {
    (data[pos] as nat) % 64 * 256 + data[pos + 1]
  }

  /** `data[i:j]`, clipped to the buffer. */
  function Slice(data: seq<Byte>, i: nat, j: nat): seq<Byte> {
    if i >= |data| || j <= i then [] else data[i..Min(j, |data|)]
  }

  datatype Read = Read(name: Name, next: nat)

  /** The rest of the read: `steps` rounds are left, and until a pointer is followed the
    * position after the name is still `next`, to be fixed by the terminator or the pointer.
    */
  function ReadFrom(data: seq<Byte>, pos: nat, next: nat, jumped: bool, steps: nat): Read
    decreases steps
  {
    if steps == 0 || pos >= |data| then Read([], next)
    else if data[pos] == 0 then Read([], if jumped then next else pos + 1)
    else if IsPointer(data[pos]) then
      if pos + 1 >= |data| then Read([], next)
      else ReadFrom(data, Target(data, pos), if jumped then next else pos + 2, true, steps - 1)
    else
      var end := pos + 1 + (data[pos] as nat);
      var rest := ReadFrom(data, end, next, jumped, steps - 1);
      Read([Slice(data, pos + 1, end)] + rest.name, rest.next)
  }

  /** Labels read before, followed by the rest of the read. */
  function After(labels: Name, rest: Read): Read {
    Read(labels + rest.name, rest.next)
  }

  lemma ReadUnfolds(labels: Name, data: seq<Byte>, pos: nat, next: nat, jumped: bool, steps: nat)
    requires steps > 0 && pos < |data|
    ensures var whole := After(labels, ReadFrom(data, pos, next, jumped, steps));
            if data[pos] == 0 then whole == Read(labels, if jumped then next else pos + 1)
            else if IsPointer(data[pos]) then
              if pos + 1 >= |data| then whole == Read(labels, next)
              else whole == After(labels, ReadFrom(data, Target(data, pos), if jumped then next else pos + 2, true, steps - 1))
            else
              var end := pos + 1 + (data[pos] as nat);
              whole == After(labels + [Slice(data, pos + 1, end)], ReadFrom(data, end, next, jumped, steps - 1))
  {
    if data[pos] != 0 && !IsPointer(data[pos]) {
      var end := pos + 1 + (data[pos] as nat);
      Regroup(labels, Slice(data, pos + 1, end), ReadFrom(data, end, next, jumped, steps - 1).name);
    }
  }

  lemma ReadEnds(labels: Name, data: seq<Byte>, pos: nat, next: nat, jumped: bool, steps: nat)
    requires steps == 0 || pos >= |data|
    ensures After(labels, ReadFrom(data, pos, next, jumped, steps)) == Read(labels, next)
  {
  }

  /** The read loop. It ends on any bytes, pointer loops included, and stays in the buffer. */
  method ReadName(data: seq<Byte>, offset: nat) returns (labels: Name, nextOffset: nat)
    ensures Read(labels, nextOffset) == ReadFrom(data, offset, offset, false, MAX_STEPS)
  {
    hide ReadFrom, And;
    labels := [];
    var jumped := false;
    nextOffset := offset;
    var pos: nat := offset;
    var guard: nat := 0;
    ghost var whole := ReadFrom(data, offset, offset, false, MAX_STEPS);
    while true
      invariant guard <= MAX_STEPS
      invariant whole == After(labels, ReadFrom(data, pos, nextOffset, jumped, MAX_STEPS - guard))
      decreases MAX_STEPS - guard
    {
      if guard + 1 > 128 || pos >= |data| {
        ReadEnds(labels, data, pos, nextOffset, jumped, MAX_STEPS - guard);
        break;
      }
      ReadUnfolds(labels, data, pos, nextOffset, jumped, MAX_STEPS - guard);
      guard := guard + 1;
      var length: nat := data[pos];
      PointerBits(data[pos]);
      if length == 0 {
        pos := pos + 1;
        if !jumped {
          nextOffset := pos;
        }
        break;
      }
      if And(length, 0xC0) == 0xC0 {
        if pos + 1 >= |data| {
          break;
        }
        var pointer: nat := And(length, 0x3F) * 256 + data[pos + 1];
        if !jumped {
          nextOffset := pos + 2;
        }
        jumped := true;
        pos := pointer;
        continue;
      }
      pos := pos + 1;
      labels := labels + [Slice(data, pos, pos + length)];
      pos := pos + length;
    }
  }

  lemma Regroup(xs: Name, y: seq<Byte>, zs: Name)
    ensures xs + ([y] + zs) == (xs + [y]) + zs
  {
  }

  // --- what a well-formed name is -----------------------------------------------------------

  /** The labels `name` start at `pos`, directly or through pointers, and are read in `steps`
    * rounds.
    */
  ghost predicate NameAt(data: seq<Byte>, pos: nat, name: Name, steps: nat)
    decreases steps
  {
    && steps > 0 && pos < |data|
    && if data[pos] == 0 then name == [] && steps == 1
       else if IsPointer(data[pos]) then
         pos + 1 < |data| && NameAt(data, Target(data, pos), name, steps - 1)
       else
         var end := pos + 1 + (data[pos] as nat);
         end <= |data| && name != [] && name[0] == data[pos + 1..end] && NameAt(data, end, name[1..], steps - 1)
  }

  /** Just past the name where it stands: its terminator or its first pointer. */
  function EndOf(data: seq<Byte>, pos: nat, steps: nat): nat
    decreases steps
  {
    if steps == 0 || pos >= |data| then pos
    else if data[pos] == 0 then pos + 1
    else if IsPointer(data[pos]) then pos + 2
    else EndOf(data, pos + 1 + (data[pos] as nat), steps - 1)
  }

  /** Any name laid out in a buffer, compressed or not, within the step guard reads back as
    * itself, with the offset just past it.
    */
  lemma {:induction false} WellFormedNameReads(data: seq<Byte>, pos: nat, name: Name, need: nat, next: nat, jumped: bool, steps: nat)
    requires NameAt(data, pos, name, need) && need <= steps
    ensures ReadFrom(data, pos, next, jumped, steps)
            == Read(name, if jumped then next else EndOf(data, pos, need))
    decreases need
  {
    if data[pos] == 0 {
    } else if IsPointer(data[pos]) {
      WellFormedNameReads(data, Target(data, pos), name, need - 1, if jumped then next else pos + 2,
                          true, steps - 1);
    } else {
      var end := pos + 1 + (data[pos] as nat);
      assert Slice(data, pos + 1, end) == data[pos + 1..end];
      WellFormedNameReads(data, end, name[1..], need - 1, next, jumped, steps - 1);
      assert name == [name[0]] + name[1..];
    }
  }

  // --- encoded names ------------------------------------------------------------------------

  /** Labels whose length byte is neither the terminator nor a pointer. */
  ghost predicate Plain(name: Name) {
    forall i :: 0 <= i < |name| ==> 0 < |name[i]| < 192
  }

  lemma HeadLabel(pre: seq<Byte>, l: seq<Byte>, tail: seq<Byte>, post: seq<Byte>)
    requires 0 < |l| < 192
    ensures var length: Byte := |l|;
            var head := [length] + l;
            var data := pre + (head + tail) + post;
            && data == (pre + head) + tail + post
            && |pre + head| == |pre| + 1 + |l| <= |data|
            && data[|pre|] == length && data[|pre| + 1..|pre| + 1 + |l|] == l
  {
    var length: Byte := |l|;
    var data := pre + ([length] + l + tail) + post;
    assert data == (pre + [length]) + l + (tail + post);
  }

  lemma LabelBefore(data: seq<Byte>, pos: nat, l: seq<Byte>, rest: Name, need: nat)
    requires 0 < |l| < 192 && pos + 1 + |l| <= |data|
    requires data[pos] == |l| && data[pos + 1..pos + 1 + |l|] == l
    requires NameAt(data, pos + 1 + |l|, rest, need)
    ensures NameAt(data, pos, [l] + rest, need + 1)
    ensures EndOf(data, pos, need + 1) == EndOf(data, pos + 1 + |l|, need)
  {
    assert ([l] + rest)[1..] == rest;
  }

  lemma TerminatorAt(data: seq<Byte>, pos: nat)
    requires pos < |data| && data[pos] == 0
    ensures NameAt(data, pos, [], 1) && EndOf(data, pos, 1) == pos + 1
  {
  }

  lemma PointerAt(data: seq<Byte>, pos: nat, rest: Name, need: nat)
    requires pos + 1 < |data| && IsPointer(data[pos]) && NameAt(data, Target(data, pos), rest, need)
    ensures NameAt(data, pos, rest, need + 1) && EndOf(data, pos, need + 1) == pos + 2
  {
  }

  lemma {:induction false} EncodedIsNameAt(pre: seq<Byte>, name: Name, post: seq<Byte>)
    requires Plain(name)
    ensures NameAt(pre + Encoded(name) + post, |pre|, name, |name| + 1)
    ensures EndOf(pre + Encoded(name) + post, |pre|, |name| + 1) == |pre| + |Encoded(name)|
    decreases |name|
  {
    hide NameAt, EndOf;
    if name == [] {
      assert (pre + [0] + post)[|pre|] == 0;
      TerminatorAt(pre + [0] + post, |pre|);
    } else {
      assert 0 < |name[0]| < 192;
      HeadLabel(pre, name[0], Encoded(name[1..]), post);
      var length: Byte := |name[0]|;
      assert Encoded(name) == [length] + name[0] + Encoded(name[1..]);
      hide Encoded;
      EncodedIsNameAt(pre + ([length] + name[0]), name[1..], post);
      LabelBefore(pre + Encoded(name) + post, |pre|, name[0], name[1..], |name[1..]| + 1);
      assert [name[0]] + name[1..] == name;
    }
  }

  /** Names round-trip: up to 127 labels of 1 to 191 bytes (the standard allows 63), encoded
    * anywhere in a buffer, read back as themselves with the offset just past them.
    */
  lemma {:induction false} NameRoundTrip(pre: seq<Byte>, name: Name, post: seq<Byte>)
    requires Plain(name) && |name| <= 127
    ensures ReadFrom(pre + Encoded(name) + post, |pre|, |pre|, false, MAX_STEPS)
            == Read(name, |pre| + |Encoded(name)|)
  {
    EncodedIsNameAt(pre, name, post);
    WellFormedNameReads(pre + Encoded(name) + post, |pre|, name, |name| + 1, |pre|, false, MAX_STEPS);
  }

  lemma ReadLabel(data: seq<Byte>, pos: nat, l: seq<Byte>, next: nat, steps: nat)
    requires 0 < |l| < 192 && pos + 1 + |l| <= |data| && steps > 0
    requires data[pos] == |l| && data[pos + 1..pos + 1 + |l|] == l
    ensures var rest := ReadFrom(data, pos + 1 + |l|, next, false, steps - 1);
            ReadFrom(data, pos, next, false, steps) == Read([l] + rest.name, rest.next)
  {
  }

  lemma OutOfSteps(data: seq<Byte>, pos: nat, next: nat, name: Name)
    ensures ReadFrom(data, pos, next, false, 0) == Read(name[..0], next)
  {
  }

  /** A name that runs out of steps loses its end and leaves the offset where it started. */
  lemma {:induction false} TooManyLabels(pre: seq<Byte>, name: Name, post: seq<Byte>, next: nat, steps: nat)
    requires Plain(name) && |name| >= steps
    ensures ReadFrom(pre + Encoded(name) + post, |pre|, next, false, steps) == Read(name[..steps], next)
    decreases steps
  {
    hide ReadFrom;
    if steps == 0 {
      OutOfSteps(pre + Encoded(name) + post, |pre|, next, name);
    } else {
      assert 0 < |name[0]| < 192;
      HeadLabel(pre, name[0], Encoded(name[1..]), post);
      var length: Byte := |name[0]|;
      TooManyLabels(pre + ([length] + name[0]), name[1..], post, next, steps - 1);
      ReadLabel(pre + Encoded(name) + post, |pre|, name[0], next, steps);
    }
  }

  /** The labels an encoder writes: empty ones are left out. */
  function NonEmpty(name: Name): Name {
    if name == [] then []
    else if name[0] == [] then NonEmpty(name[1..])
    else [name[0]] + NonEmpty(name[1..])
  }

  /** What the encoder accepts. */
  ghost predicate Encodable(name: Name) {
    forall i :: 0 <= i < |name| ==> |name[i]| < 256
  }

  lemma {:induction false} EncodesNonEmpty(name: Name)
    requires Encodable(name)
    ensures Encodable(NonEmpty(name)) && Encoded(NonEmpty(name)) == Encoded(name)
    ensures [] !in NonEmpty(name) && (Plain(name) ==> NonEmpty(name) == name)
  {
    if name != [] {
      EncodesNonEmpty(name[1..]);
      if name[0] != [] {
        var kept := NonEmpty(name);
        assert kept[1..] == NonEmpty(name[1..]);
        assert name == [name[0]] + name[1..];
      }
    }
  }

  lemma {:induction false} OffsetFixedOnceJumped(data: seq<Byte>, pos: nat, next: nat, steps: nat)
    ensures ReadFrom(data, pos, next, true, steps).next == next
    decreases steps
  {
    if steps > 0 && pos < |data| && data[pos] != 0 {
      if IsPointer(data[pos]) {
        if pos + 1 < |data| {
          OffsetFixedOnceJumped(data, Target(data, pos), next, steps - 1);
        }
      } else {
        OffsetFixedOnceJumped(data, pos + 1 + (data[pos] as nat), next, steps - 1);
      }
    }
  }

  lemma LongLabelJumps(pre: seq<Byte>, name: Name, post: seq<Byte>, next: nat, steps: nat)
    requires Encodable(name) && name != [] && |name[0]| >= 192 && steps > 0
    ensures ReadFrom(pre + Encoded(name) + post, |pre|, next, false, steps).next == |pre| + 2
    ensures |Encoded(name)| > 193
  {
    var length: Byte := |name[0]|;
    var rest := Encoded(name[1..]);
    assert Encoded(name) == [length] + name[0] + rest;
    EncodedSize(name[1..]);
    var data := pre + Encoded(name) + post;
    assert data[|pre|] == length;
    hide Encoded;
    OffsetFixedOnceJumped(data, Target(data, |pre|), |pre| + 2, steps - 1);
  }

  lemma EncodedSize(name: Name)
    requires Encodable(name)
    ensures |Encoded(name)| >= 1
  {
  }

  /** A label of 192 bytes or more is read as a pointer, and a name of too many labels is not read to
    * its end: either way the offset is wrong.
    */
  lemma {:induction false} OffsetWrong(pre: seq<Byte>, name: Name, post: seq<Byte>, next: nat, steps: nat)
    requires Encodable(name) && [] !in name
    requires !(Plain(name) && |name| < steps) && next <= |pre|
    ensures ReadFrom(pre + Encoded(name) + post, |pre|, next, false, steps).next != |pre| + |Encoded(name)|
    decreases |name|
  {
    hide ReadFrom;
    EncodedSize(name);
    var data := pre + Encoded(name) + post;
    if steps == 0 {
      OutOfSteps(data, |pre|, next, name);
    } else if |name[0]| >= 192 {
      LongLabelJumps(pre, name, post, next, steps);
    } else {
      HeadLabel(pre, name[0], Encoded(name[1..]), post);
      var length: Byte := |name[0]|;
      assert Plain(name[1..]) ==> Plain(name) by {
        if Plain(name[1..]) {
          forall i | 0 <= i < |name|
            ensures 0 < |name[i]| < 192
          {
            assert i > 0 ==> name[i] == name[1..][i - 1];
          }
        }
      }
      OffsetWrong(pre + ([length] + name[0]), name[1..], post, next, steps - 1);
      ReadLabel(data, |pre|, name[0], next, steps);
    }
  }

  /** Over everything the encoder accepts, and for any guard: the offset comes back right exactly when
    * fewer labels are written than there are steps, of at most 191 bytes each; and the name comes back
    * with it exactly when, besides, none of its labels is empty. The reader's guard is 128 steps.
    */
  lemma RoundTripIff(pre: seq<Byte>, name: Name, post: seq<Byte>, steps: nat)
    requires Encodable(name)
    ensures var r := ReadFrom(pre + Encoded(name) + post, |pre|, |pre|, false, steps);
            var end := |pre| + |Encoded(name)|;
            && (r.next == end <==> Plain(NonEmpty(name)) && |NonEmpty(name)| < steps)
            && (r == Read(name, end) <==> Plain(name) && |name| < steps)
  {
    hide ReadFrom, Encoded;
    var kept := NonEmpty(name);
    EncodesNonEmpty(name);
    var r := ReadFrom(pre + Encoded(name) + post, |pre|, |pre|, false, steps);
    assert r == ReadFrom(pre + Encoded(kept) + post, |pre|, |pre|, false, steps);
    assert Plain(name) ==> kept == name;
    if Plain(kept) && |kept| < steps {
      EncodedIsNameAt(pre, kept, post);
      WellFormedNameReads(pre + Encoded(kept) + post, |pre|, kept, |kept| + 1, |pre|, false, steps);
    } else {
      OffsetWrong(pre, kept, post, |pre|, steps);
    }
  }

  /** 128 labels of one letter: the offset is left where the name starts. */
  lemma OneLabelTooMany(pre: seq<Byte>, post: seq<Byte>)
    ensures var name := seq(128, _ => [97]);
            ReadFrom(pre + Encoded(name) + post, |pre|, |pre|, false, MAX_STEPS) == Read(name, |pre|)
  {
    var name: Name := seq(128, _ => [97]);
    TooManyLabels(pre, name, post, |pre|, MAX_STEPS);
    assert name[..128] == name;
  }

  /** A compressed name: some labels, then a pointer to where the rest stands. */
  lemma {:induction false} CompressedIsNameAt(pre: seq<Byte>, front: Name, pointer: nat, post: seq<Byte>, rest: Name, need: nat)
    requires Plain(front) && pointer < 0x4000
    requires var data := pre + Compressed(front, pointer) + post; NameAt(data, pointer, rest, need)
    ensures var data := pre + Compressed(front, pointer) + post;
            && NameAt(data, |pre|, front + rest, |front| + 1 + need)
            && EndOf(data, |pre|, |front| + 1 + need) == |pre| + |Compressed(front, pointer)|
    decreases |front|
  {
    hide NameAt, EndOf;
    if front == [] {
      PointerAt(pre + Compressed(front, pointer) + post, |pre|, rest, need);
      assert front + rest == rest;
    } else {
      assert 0 < |front[0]| < 192;
      HeadLabel(pre, front[0], Compressed(front[1..], pointer), post);
      var length: Byte := |front[0]|;
      CompressedIsNameAt(pre + ([length] + front[0]), front[1..], pointer, post, rest, need);
      LabelBefore(pre + Compressed(front, pointer) + post, |pre|, front[0], front[1..] + rest, |front[1..]| + 1 + need);
      assert [front[0]] + (front[1..] + rest) == front + rest;
    }
  }

  function Compressed(front: Name, pointer: nat): seq<Byte>
    requires (forall i :: 0 <= i < |front| ==> |front[i]| < 256) && pointer < 0x4000
  {
    if front == [] then
      var hi: Byte := 192 + pointer / 256;
      [hi, pointer % 256]
    else
      var length: Byte := |front[0]|;
      [length] + front[0] + Compressed(front[1..], pointer)
  }

  /** Compression does not change what is read: within the guard the labels before the pointer
    * and the labels behind it come back as one name, and the offset is just past the pointer.
    */
  lemma CompressedNameReads(pre: seq<Byte>, front: Name, pointer: nat, post: seq<Byte>, rest: Name, need: nat)
    requires Plain(front) && pointer < 0x4000 && |front| + 1 + need <= 128
    requires NameAt(pre + Compressed(front, pointer) + post, pointer, rest, need)
    ensures ReadFrom(pre + Compressed(front, pointer) + post, |pre|, |pre|, false, MAX_STEPS)
            == Read(front + rest, |pre| + |Compressed(front, pointer)|)
  {
    CompressedIsNameAt(pre, front, pointer, post, rest, need);
    WellFormedNameReads(pre + Compressed(front, pointer) + post, |pre|, front + rest, |front| + 1 + need, |pre|, false,
                        MAX_STEPS);
  }

  /** A pointer to itself reads as no labels and ends just past the pointer. */
  lemma {:induction false} PointerLoop(data: seq<Byte>, pos: nat, next: nat, steps: nat)
    requires pos + 1 < |data| && IsPointer(data[pos]) && Target(data, pos) == pos
    ensures ReadFrom(data, pos, next, true, steps) == Read([], next)
    decreases steps
  {
    if steps > 0 {
      PointerLoop(data, pos, next, steps - 1);
    }
  }
}
