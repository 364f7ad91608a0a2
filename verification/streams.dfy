/** Command streams and the byte-level encoder (pcaalib/src/codec.c: put16, put32, put64,
    pcaa_encode_one, pcaa_encoded_stream_size, pcaa_encode_stream). */
module Streams {
  import opened Basics
  import opened GuestMemory
  import opened Commands
  import opened Codec

  // ------------------------------------------------------------------ framing

  function Concat(pieces: seq<seq<Byte>>): seq<Byte> {
    if |pieces| == 0 then [] else Concat(pieces[..|pieces| - 1]) + pieces[|pieces| - 1]
  }

  lemma {:induction false} ConcatAppend(left: seq<seq<Byte>>, right: seq<seq<Byte>>)
    ensures Concat(left + right) == Concat(left) + Concat(right)
  {
    if |right| == 0 {
      assert left + right == left;
    } else {
      var last := |right| - 1;
      ConcatAppend(left, right[..last]);
      assert (left + right)[..|left| + last] == left + right[..last];
    }
  }

  lemma ConcatFront(pieces: seq<seq<Byte>>, i: nat)
    requires i < |pieces|
    ensures Concat(pieces[i..]) == pieces[i] + Concat(pieces[i + 1..])
  {
    assert pieces[i..] == [pieces[i]] + pieces[i + 1..];
    ConcatAppend([pieces[i]], pieces[i + 1..]);
    var one := [pieces[i]];
    assert one[..0] == [];
    assert Concat(one) == Concat(one[..0]) + pieces[i];
  }

  type Decoder = seq<Byte> -> Option<Decoded>

  datatype Walked = Walked(commands: seq<Command>, bytes: nat)

  /** Decodes `count` commands one after another. */
  function WalkWith(decode: Decoder, bytes: seq<Byte>, count: nat): Option<Walked>
    decreases count
  {
    if count == 0 then Some(Walked([], 0))
    else
      match decode(bytes)
      case None => None
      case Some(d) =>
        if d.size > |bytes| then None
        else
          match WalkWith(decode, bytes[d.size..], count - 1)
          case None => None
          case Some(w) => Some(Walked([d.command] + w.commands, d.size + w.bytes))
  }

  /** The decoder recovers `c` from `piece` whatever follows it. */
  ghost predicate Recovers(decode: Decoder, piece: seq<Byte>, c: Command) {
    forall rest :: decode(piece + rest) == Some(Decoded(c, |piece|))
  }

  lemma {:induction false} WalkPieces(decode: Decoder, pieces: seq<seq<Byte>>, cs: seq<Command>,
                                      i: nat, rest: seq<Byte>)
    requires i <= |pieces| == |cs|
    requires forall j :: 0 <= j < |cs| ==> Recovers(decode, pieces[j], cs[j])
    ensures WalkWith(decode, Concat(pieces[i..]) + rest, |cs| - i)
            == Some(Walked(cs[i..], |Concat(pieces[i..])|))
    decreases |cs| - i
  {
    if i < |cs| {
      var tail := Concat(pieces[i + 1..]) + rest;
      ConcatFront(pieces, i);
      WalkPieces(decode, pieces, cs, i + 1, rest);
      assert Recovers(decode, pieces[i], cs[i]);
      assert Concat(pieces[i..]) + rest == pieces[i] + tail;
      assert (pieces[i] + tail)[|pieces[i]|..] == tail;
      assert cs[i..] == [cs[i]] + cs[i + 1..];
    }
  }

  /** The bytes a decoder accepts are the encoding of what it returns. */
  ghost predicate Inverts(decode: Decoder, encode: Command -> seq<Byte>, bytes: seq<Byte>) {
    decode(bytes).Some? ==>
      var d := decode(bytes).value; d.size <= |bytes| && encode(d.command) == bytes[..d.size]
  }

  lemma {:induction false} PiecesWalked(decode: Decoder, encode: Command -> seq<Byte>, bytes: seq<Byte>,
                                        count: nat)
    returns (pieces: seq<seq<Byte>>)
    requires forall b :: Inverts(decode, encode, b)
    requires WalkWith(decode, bytes, count).Some?
    ensures var w := WalkWith(decode, bytes, count).value;
            && |w.commands| == count == |pieces| && w.bytes <= |bytes| && Concat(pieces) == bytes[..w.bytes]
            && forall i :: 0 <= i < count ==> pieces[i] == encode(w.commands[i])
    decreases count
  {
    if count == 0 {
      pieces := [];
    } else {
      assert Inverts(decode, encode, bytes);
      var d := decode(bytes).value;
      var rest := PiecesWalked(decode, encode, bytes[d.size..], count - 1);
      var w := WalkWith(decode, bytes[d.size..], count - 1).value;
      pieces := [encode(d.command)] + rest;
      ConcatCons(encode(d.command), rest);
      SplitPrefix(bytes, d.size, w.bytes);
    }
  }

  lemma ConcatCons(piece: seq<Byte>, rest: seq<seq<Byte>>)
    ensures Concat([piece] + rest) == piece + Concat(rest)
  {
    var pieces := [piece] + rest;
    assert pieces[0..] == pieces && pieces[1..] == rest;
    ConcatFront(pieces, 0);
  }

  lemma SplitPrefix(bytes: seq<Byte>, n: nat, k: nat)
    requires n + k <= |bytes|
    ensures bytes[..n] + bytes[n..][..k] == bytes[..n + k]
  {
  }

  // ------------------------------------------------------------------ streams

  function Pieces(cs: seq<Command>): (pieces: seq<seq<Byte>>)
    ensures |pieces| == |cs|
  {
    seq(|cs|, i requires 0 <= i < |cs| => Encode(cs[i]))
  }

  function EncodeAll(cs: seq<Command>): seq<Byte> { Concat(Pieces(cs)) }

  /** The first `count` commands of a stream and the bytes they take. */
  function Walk(bytes: seq<Byte>, count: nat): Option<Walked> { WalkWith(Decode, bytes, count) }

  function CanonicalAll(cs: seq<Command>): (r: seq<Command>)
    ensures |r| == |cs|
  {
    seq(|cs|, i requires 0 <= i < |cs| => Canonical(cs[i]))
  }

  ghost predicate AllValid(cs: seq<Command>) { forall i :: 0 <= i < |cs| ==> Validate(cs[i]) == Fine }

  lemma DecodeRecovers(c: Command)
    requires Validate(c) == Fine
    ensures Recovers(Decode, Encode(c), Canonical(c))
  {
    forall rest ensures Decode(Encode(c) + rest) == Some(Decoded(Canonical(c), |Encode(c)|)) {
      DecodeEncode(c, rest);
    }
  }

  /** Walking an encoded stream recovers every command and takes exactly its bytes. */
  lemma WalkEncoded(cs: seq<Command>, rest: seq<Byte>)
    requires AllValid(cs)
    ensures Walk(EncodeAll(cs) + rest, |cs|) == Some(Walked(CanonicalAll(cs), |EncodeAll(cs)|))
  {
    forall j | 0 <= j < |cs| ensures Recovers(Decode, Pieces(cs)[j], CanonicalAll(cs)[j]) {
      DecodeRecovers(cs[j]);
    }
    WalkPieces(Decode, Pieces(cs), CanonicalAll(cs), 0, rest);
    assert Pieces(cs)[0..] == Pieces(cs) && CanonicalAll(cs)[0..] == CanonicalAll(cs);
  }

  /** A stream that can be walked is the encoding of the commands found. */
  lemma EncodedWalk(bytes: seq<Byte>, count: nat)
    requires Walk(bytes, count).Some?
    ensures var w := Walk(bytes, count).value;
            |w.commands| == count && w.bytes <= |bytes| && EncodeAll(w.commands) == bytes[..w.bytes]
  {
    forall b ensures Inverts(Decode, Encode, b) {
      if Decode(b).Some? {
        EncodeDecode(b);
      }
    }
    var pieces := PiecesWalked(Decode, Encode, bytes, count);
    assert pieces == Pieces(Walk(bytes, count).value.commands);
  }

  /** The measured size of the first `i` commands. */
  function SizeTo(cs: seq<Command>, i: nat): nat
    requires i <= |cs|
  {
    if i == 0 then 0 else SizeTo(cs, i - 1) + EncodedSize(cs[i - 1])
  }

  lemma {:induction false} SizeGrows(cs: seq<Command>, i: nat, j: nat)
    requires i <= j <= |cs|
    ensures SizeTo(cs, i) <= SizeTo(cs, j)
    decreases j
  {
    if i < j {
      SizeGrows(cs, i, j - 1);
    }
  }

  lemma SizeIsLength(c: Command)
    requires Validate(c) == Fine
    ensures |Encode(c)| == EncodedSize(c)
  {
    CanonicalValid(c);
    EncodeLength(c);
  }

  lemma {:induction false} SizesMatch(cs: seq<Command>, pieces: seq<seq<Byte>>, i: nat)
    requires i <= |cs| == |pieces|
    requires forall j :: 0 <= j < |cs| ==> |pieces[j]| == EncodedSize(cs[j])
    ensures |Concat(pieces[..i])| == SizeTo(cs, i)
  {
    if i > 0 {
      SizesMatch(cs, pieces, i - 1);
      assert pieces[..i][..i - 1] == pieces[..i - 1];
    }
  }

  /** The measured size is the length of the encoding. */
  lemma StreamLength(cs: seq<Command>)
    requires AllValid(cs)
    ensures |EncodeAll(cs)| == SizeTo(cs, |cs|)
  {
    forall j | 0 <= j < |cs| ensures |Pieces(cs)[j]| == EncodedSize(cs[j]) {
      SizeIsLength(cs[j]);
    }
    SizesMatch(cs, Pieces(cs), |cs|);
    assert Pieces(cs)[..|cs|] == Pieces(cs);
  }

  predicate Usable(c: Command) { !c.Batch? && Validate(c) == Fine }

  ghost predicate Acceptable(cs: seq<Command>, i: nat)
    requires i <= |cs|
  {
    forall j {:trigger Usable(cs[j])} :: 0 <= j < i ==> Usable(cs[j])
  }

  /** The status of one command of a stream: batches do not nest. */
  function StatusIn(c: Command): (status: CodecStatus)
    ensures (status == Fine <==> Usable(c)) && status != InvalidArgument && status != NoSpace
  {
    if c.Batch? then InvalidCommand else Validate(c)
  }

  /** The size of a primitive in a stream. */
  method PrimitiveSize(c: Command) returns (status: CodecStatus, width: nat)
    ensures status == StatusIn(c) && width == EncodedSize(c)
  {
    width := EncodedSize(c);
    if c.Batch? {
      return InvalidCommand, width;
    }
    status := Validate(c);
  }

  /** A stream may hold any primitives whose encodings total less than 2^32 bytes. */
  ghost predicate Streamable(cs: seq<Command>) {
    0 < |cs| <= UINT32_MAX && Acceptable(cs, |cs|) && SizeTo(cs, |cs|) <= UINT32_MAX
  }

  /** Command `i` is the first that cannot join the stream, and `status` says why: it is not a valid
      primitive, or the total no longer fits. */
  ghost predicate FaultAt(cs: seq<Command>, i: nat, status: CodecStatus) {
    && i < |cs| && Acceptable(cs, i) && SizeTo(cs, i) <= UINT32_MAX
    && (if Usable(cs[i]) then SizeTo(cs, i + 1) > UINT32_MAX && status == RangeError else status == StatusIn(cs[i]))
  }

  /** Nothing before a fault is one. */
  lemma FaultFirst(cs: seq<Command>, i: nat, j: nat)
    requires j < i <= |cs| && Acceptable(cs, i) && SizeTo(cs, i) <= UINT32_MAX
    ensures Usable(cs[j])
    ensures SizeTo(cs, j + 1) <= UINT32_MAX
  {
    assert Usable(cs[j]);
    SizeGrows(cs, j + 1, i);
  }

  /** A list of commands has at most one first fault, and none if it is streamable. */
  lemma FaultsAgree(cs: seq<Command>, i: nat, status: CodecStatus, i': nat, status': CodecStatus)
    requires FaultAt(cs, i, status) && FaultAt(cs, i', status')
    ensures i == i' && status == status'
  {
    if i < i' {
      FaultFirst(cs, i', i);
    } else if i' < i {
      FaultFirst(cs, i, i');
    }
  }

  /** What measuring a list reports: the emptiness or length of the list, or its first fault. */
  ghost predicate Measured(cs: seq<Command>, status: CodecStatus) {
    if |cs| == 0 then status == InvalidArgument
    else if |cs| > UINT32_MAX then status == RangeError
    else if status == Fine then Streamable(cs)
    else exists i :: FaultAt(cs, i, status)
  }

  method EncodedStreamSize(cs: seq<Command>) returns (status: CodecStatus, total: nat)
    ensures Measured(cs, status) && (status == Fine <==> Streamable(cs))
    ensures status == Fine ==> total == SizeTo(cs, |cs|)
  {
    total := 0;
    if |cs| == 0 {
      return InvalidArgument, 0;
    }
    if |cs| > UINT32_MAX {
      return RangeError, 0;
    }
    for i := 0 to |cs|
      invariant Acceptable(cs, i) && total == SizeTo(cs, i) <= UINT32_MAX
    {
      var width;
      status, width := PrimitiveSize(cs[i]);
      if status != Fine {
        assert FaultAt(cs, i, status);
        return status, 0;
      }
      SizeGrows(cs, i + 1, |cs|);
      if width > UINT32_MAX - total {
        assert FaultAt(cs, i, RangeError);
        return RangeError, 0;
      }
      total := total + width;
    }
    status := Fine;
  }

  // ------------------------------------------------------------- byte buffers

  /** `before` with the bytes from `at` on replaced. */
  function Replaced(before: seq<Byte>, at: nat, bytes: seq<Byte>): (after: seq<Byte>)
    requires at + |bytes| <= |before|
    ensures |after| == |before|
  {
    before[..at] + bytes + before[at + |bytes|..]
  }

  /** Stores the low `n` bytes of `value`, least significant first. */
  method Put(buffer: array<Byte>, offset: nat, value: nat, n: nat)
    requires offset + n <= buffer.Length
    modifies buffer
    ensures buffer[..] == Replaced(old(buffer[..]), offset, ToBytes(value, n))
  {
    var rest := value;
    ghost var bytes := ToBytes(value, n);
    for i := 0 to n
      invariant ToBytes(rest, n - i) == bytes[i..]
      invariant buffer[..] == Replaced(old(buffer[..]), offset, bytes[..i])
    {
      assert bytes[i] == ToBytes(rest, n - i)[0];
      buffer[offset + i] := rest % 256;
      rest := rest / 256;
      assert bytes[..i + 1] == bytes[..i] + [bytes[i]];
    }
    assert bytes[..n] == bytes;
  }

  lemma ReplacedTwice(before: seq<Byte>, at: nat, left: seq<Byte>, right: seq<Byte>)
    requires at + |left| + |right| <= |before|
    ensures Replaced(Replaced(before, at, left), at + |left|, right) == Replaced(before, at, left + right)
  {
  }

  /** Stores the fields one after another. */
  method PutFields(buffer: array<Byte>, offset: nat, fields: seq<Field>)
    requires offset + |Pack(fields)| <= buffer.Length
    modifies buffer
    ensures buffer[..] == Replaced(old(buffer[..]), offset, Pack(fields))
    decreases |fields|
  {
    if |fields| > 0 {
      ghost var before, head := buffer[..], ToBytes(fields[0].value, fields[0].width);
      Put(buffer, offset, fields[0].value, fields[0].width);
      PutFields(buffer, offset + fields[0].width, fields[1..]);
      ReplacedTwice(before, offset, head, Pack(fields[1..]));
    }
  }

  /** Encodes at `offset`, or touches nothing. */
  method EncodeOne(c: Command, buffer: array<Byte>, offset: nat) returns (status: CodecStatus, width: nat)
    requires offset <= buffer.Length
    modifies buffer
    ensures status == if Validate(c) != Fine then Validate(c)
                      else if buffer.Length - offset < |Encode(c)| then NoSpace else Fine
    ensures status == Fine ==> width == |Encode(c)|
                               && buffer[..] == Replaced(old(buffer[..]), offset, Encode(c))
    ensures status != Fine ==> buffer[..] == old(buffer[..])
  {
    status := Validate(c);
    width := 0;
    if status != Fine {
      return;
    }
    SizeIsLength(c);
    width := EncodedSize(c);
    if buffer.Length - offset < width {
      return NoSpace, 0;
    }
    PutFields(buffer, offset, Fields(c));
  }

  /** Encodes a whole stream from the start of the buffer. */
  method EncodeStream(cs: seq<Command>, buffer: array<Byte>) returns (status: CodecStatus, total: nat)
    modifies buffer
    ensures if Streamable(cs) then status == if SizeTo(cs, |cs|) <= buffer.Length then Fine else NoSpace
            else status != Fine && Measured(cs, status)
    ensures status == Fine ==>
              && total == SizeTo(cs, |cs|) == |EncodeAll(cs)|
              && buffer[..] == Replaced(old(buffer[..]), 0, EncodeAll(cs))
    ensures status != Fine ==> buffer[..] == old(buffer[..])
  {
    status, total := EncodedStreamSize(cs);
    if status != Fine {
      return;
    }
    if buffer.Length < total {
      return NoSpace, 0;
    }
    AcceptableValid(cs);
    StreamLength(cs);
    PutPieces(cs, buffer, Pieces(cs));
  }

  lemma AcceptableValid(cs: seq<Command>)
    requires Acceptable(cs, |cs|)
    ensures AllValid(cs)
  {
    forall i | 0 <= i < |cs| ensures Validate(cs[i]) == Fine {
      assert Usable(cs[i]);
    }
  }

  method PutPieces(cs: seq<Command>, buffer: array<Byte>, ghost pieces: seq<seq<Byte>>)
    requires |pieces| == |cs| && |Concat(pieces)| <= buffer.Length
    requires forall j :: 0 <= j < |cs| ==> Validate(cs[j]) == Fine && pieces[j] == Encode(cs[j])
    modifies buffer
    ensures buffer[..] == Replaced(old(buffer[..]), 0, Concat(pieces))
  {
    var cursor := 0;
    ghost var before := buffer[..];
    for i := 0 to |cs|
      invariant cursor == |Concat(pieces[..i])| <= buffer.Length
      invariant buffer[..] == Replaced(before, 0, Concat(pieces[..i]))
    {
      PrefixConcat(pieces, i);
      var encoded, width := EncodeOne(cs[i], buffer, cursor);
      ReplacedTwice(before, 0, Concat(pieces[..i]), pieces[i]);
      cursor := cursor + width;
    }
    assert pieces[..|cs|] == pieces;
  }

  lemma PrefixConcat(pieces: seq<seq<Byte>>, i: nat)
    requires i < |pieces|
    ensures Concat(pieces[..i + 1]) == Concat(pieces[..i]) + pieces[i]
    ensures |Concat(pieces[..i + 1])| <= |Concat(pieces)|
  {
    assert pieces[..i + 1][..i] == pieces[..i];
    ConcatAppend(pieces[..i + 1], pieces[i + 1..]);
    assert pieces == pieces[..i + 1] + pieces[i + 1..];
  }
}
