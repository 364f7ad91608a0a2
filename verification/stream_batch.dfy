/** An encoded stream run as an ordered batch (pcaalib/src/codec.c and doc/arch.md section 8.5
    together): the children are the commands that were encoded, in order. */
module StreamBatches {
  import opened Basics
  import opened GuestMemory
  import opened Commands
  import opened Codec
  import opened Streams
  import opened Semantics
  import opened Batches
  import opened GuestStaging

  ghost predicate Primitives(cs: seq<Command>) { forall i {:trigger cs[i]} :: 0 <= i < |cs| ==> Usable(cs[i]) }

  /** The command a device decodes for `c`. */
  function Sent(c: Command): (d: Command)
    requires Usable(c)
    ensures Usable(d)
  {
    CanonicalValid(c);
    Canonical(c)
  }

  /** The stream's bytes hold the encoding of the commands. */
  ghost predicate InStream(m: Memory, g: Guard, cs: seq<Command>) {
    && g.stream > 0 && g.end == g.stream + |EncodeAll(cs)| <= UINT64_MAX
    && HasBytes(m, g.stream, EncodeAll(cs))
  }

  /** The command's outputs miss the stream and the descriptor. */
  ghost predicate Misses(c: Command, g: Guard)
    requires Usable(c)
  {
    var p := Lower(Sent(c));
    !Hits(p, g.stream, g.end, p.rows) && !Hits(p, g.descriptor, g.descriptorEnd, p.rows)
  }

  ghost predicate AllMiss(cs: seq<Command>, g: Guard)
    requires Primitives(cs)
  {
    forall i {:trigger cs[i]} :: 0 <= i < |cs| ==> Misses(cs[i], g)
  }

  /** Where child `i` starts. */
  function CursorAt(g: Guard, cs: seq<Command>, i: nat): nat
    requires i <= |cs|
  {
    g.stream + SizeTo(cs, i)
  }

  lemma PieceSlice(pieces: seq<seq<Byte>>, i: nat)
    requires i < |pieces|
    ensures |Concat(pieces[..i])| + |pieces[i]| == |Concat(pieces[..i + 1])| <= |Concat(pieces)|
    ensures Concat(pieces)[|Concat(pieces[..i])|..|Concat(pieces[..i + 1])|] == pieces[i]
  {
    PrefixConcat(pieces, i);
    ConcatAppend(pieces[..i + 1], pieces[i + 1..]);
    assert pieces == pieces[..i + 1] + pieces[i + 1..];
  }

  lemma PieceSizes(cs: seq<Command>, i: nat)
    requires Primitives(cs) && i <= |cs|
    ensures |Concat(Pieces(cs)[..i])| == SizeTo(cs, i)
  {
    var pieces := Pieces(cs);
    forall j | 0 <= j < |cs| ensures |pieces[j]| == EncodedSize(cs[j]) {
      assert Usable(cs[j]);
      SizeIsLength(cs[j]);
    }
    SizesMatch(cs, pieces, i);
  }

  /** The bytes of piece `i` within the stream. */
  lemma PieceAt(cs: seq<Command>, i: nat)
    requires Primitives(cs) && i < |cs|
    ensures SizeTo(cs, i) + |Encode(cs[i])| == SizeTo(cs, i + 1) <= |EncodeAll(cs)|
    ensures |Encode(cs[i])| == EncodedSize(cs[i])
    ensures EncodeAll(cs)[SizeTo(cs, i)..SizeTo(cs, i) + |Encode(cs[i])|] == Encode(cs[i])
  {
    PieceSizes(cs, i);
    PieceSizes(cs, i + 1);
    PieceSlice(Pieces(cs), i);
  }

  lemma BytesSlice(m: Memory, address: nat, all: seq<Byte>, from: nat, piece: seq<Byte>, at: nat)
    requires at == address + from && from + |piece| <= |all| && HasBytes(m, address, all)
    requires all[from..from + |piece|] == piece
    ensures HasBytes(m, at, piece)
  {
    forall k | 0 <= k < |piece| ensures Bytes(m, at, |piece|)[k] == piece[k] {
      assert all[from + k] == ByteAt(m, address + (from + k));
      assert piece[k] == all[from + k];
    }
  }

  lemma StreamPiece(m: Memory, g: Guard, cs: seq<Command>, i: nat)
    requires Primitives(cs) && i < |cs| && InStream(m, g, cs)
    ensures CursorAt(g, cs, i) + EncodedSize(cs[i]) <= g.end && |Encode(cs[i])| == EncodedSize(cs[i])
    ensures HasBytes(m, CursorAt(g, cs, i), Encode(cs[i]))
  {
    PieceAt(cs, i);
    BytesSlice(m, g.stream, EncodeAll(cs), SizeTo(cs, i), Encode(cs[i]), CursorAt(g, cs, i));
  }

  /** Decoding one encoded command. */
  lemma DecodeSent(c: Command)
    requires Validate(c) == Fine
    ensures |Encode(c)| == EncodedSize(c)
    ensures WireSize(Encode(c)[0], Encode(c)[1]) == Some(EncodedSize(c))
    ensures Decode(Encode(c)) == Some(Decoded(Canonical(c), EncodedSize(c)))
  {
    SizeIsLength(c);
    DecodeEncode(c, []);
    assert Encode(c) + [] == Encode(c);
  }

  /** Each child found in the stream is the command that was encoded there. */
  lemma ChildIs(m: Memory, g: Guard, cs: seq<Command>, i: nat)
    requires Primitives(cs) && i < |cs| && InStream(m, g, cs) && AllMiss(cs, g)
    ensures NextChild(m, CursorAt(g, cs, i), g) == Some(Decoded(Sent(cs[i]), EncodedSize(cs[i])))
  {
    var cursor, size := CursorAt(g, cs, i), EncodedSize(cs[i]);
    StreamPiece(m, g, cs, i);
    DecodeSent(cs[i]);
    FetchSent(m, cursor, g.end - cursor, cs[i]);
    assert Misses(cs[i], g);
  }

  /** Fetching a command whose encoding is stored. */
  lemma FetchSent(m: Memory, address: nat, available: nat, c: Command)
    requires Validate(c) == Fine && address > 0 && EncodedSize(c) <= available && address + EncodedSize(c) <= UINT64_MAX
    requires HasBytes(m, address, Encode(c))
    ensures Fetch(m, address, available) == Some(Decoded(Canonical(c), EncodedSize(c)))
  {
    DecodeSent(c);
    var bytes := Bytes(m, address, EncodedSize(c));
    assert bytes[0] == ByteAt(m, address) && bytes[1] == ByteAt(m, address + 1);
  }

  lemma StreamKept(m: Memory, r: Memory, g: Guard, cs: seq<Command>)
    requires InStream(m, g, cs) && SameGuarded(g, m, r)
    ensures InStream(r, g, cs)
  {
    var n := |EncodeAll(cs)|;
    assert Readable(r, g.stream, n);
    forall k | 0 <= k < n ensures Bytes(r, g.stream, n)[k] == Bytes(m, g.stream, n)[k] {
      assert ByteAt(r, g.stream + k) == ByteAt(m, g.stream + k);
    }
  }

  /** What command `i` does to memory. */
  type Effect = (Memory, nat) -> Option<Memory>

  ghost function EffectOf(cs: seq<Command>): Effect {
    (m: Memory, i: nat) => if i < |cs| && Usable(cs[i]) then Spec(Lower(Sent(cs[i])), m) else None
  }

  /** Where each child starts, and after the last one where the stream ends. */
  type Place = nat -> nat

  /** Effects in order from the `i`-th, each on the memory its predecessors left; the first failure
      stops the run. */
  ghost function RunEffects(effect: Effect, place: Place, count: nat, m: Memory, i: nat): Run
    requires i <= count
    decreases count - i
  {
    if i == count then Finished(m, place(i))
    else
      match effect(m, i)
      case None => Stopped(i, m, place(i))
      case Some(next) => RunEffects(effect, place, count, next, i + 1)
  }

  lemma ChildRuns(m: Memory, g: Guard, cs: seq<Command>, i: nat)
    requires Primitives(cs) && i < |cs| && InStream(m, g, cs) && AllMiss(cs, g)
    ensures var next := Spec(Lower(Sent(cs[i])), m);
            && ChildStep(g, m, CursorAt(g, cs, i))
               == (if next.None? then None else Some(Moved(next.value, EncodedSize(cs[i]))))
            && (next.Some? ==> InStream(next.value, g, cs))
  {
    ChildIs(m, g, cs, i);
    var p := Lower(Sent(cs[i]));
    if Spec(p, m).Some? {
      StoreAllOnlyOutputs(p, m, Records(p, m), p.rows);
      ChildKeepsGuard(g, m, CursorAt(g, cs, i), Spec(p, m).value);
      StreamKept(m, Spec(p, m).value, g, cs);
    }
  }

  ghost predicate Visited(m: Memory, i: nat) { true }

  type Undisturbed = Memory -> bool

  /** Child `i` starts at `place(i)`, has effect `i`, and leaves the stream as it was. */
  ghost predicate GoesAt(step: Step, effect: Effect, place: Place, inside: Undisturbed, m: Memory, i: nat) {
    if effect(m, i).None? then step(m, place(i)).None?
    else
      && place(i) <= place(i + 1) && inside(effect(m, i).value)
      && step(m, place(i)) == Some(Moved(effect(m, i).value, place(i + 1) - place(i)))
  }

  ghost predicate Goes(step: Step, effect: Effect, place: Place, inside: Undisturbed, count: nat) {
    forall m, i: nat {:trigger Visited(m, i)} :: Visited(m, i) && inside(m) && i < count ==>
      GoesAt(step, effect, place, inside, m, i)
  }

  lemma {:induction false} RunFrom(step: Step, effect: Effect, place: Place, inside: Undisturbed, count: nat,
                                   m: Memory, i: nat)
    requires i <= count && inside(m) && Goes(step, effect, place, inside, count)
    ensures RunAll(step, m, place(i), i, count) == RunEffects(effect, place, count, m, i)
    decreases count - i
  {
    if i < count {
      assert Visited(m, i);
      if effect(m, i).Some? {
        RunFrom(step, effect, place, inside, count, effect(m, i).value, i + 1);
      }
    }
  }

  ghost function PlaceOf(g: Guard, cs: seq<Command>): Place {
    (i: nat) => if i <= |cs| then CursorAt(g, cs, i) else 0
  }

  ghost function UndisturbedBy(g: Guard, cs: seq<Command>): Undisturbed { (m: Memory) => InStream(m, g, cs) }

  lemma GoesTo(step: Step, effect: Effect, place: Place, inside: Undisturbed, m: Memory, i: nat, cursor: nat,
               size: nat, next: Option<Memory>)
    requires effect(m, i) == next && place(i) == cursor && place(i + 1) == cursor + size
    requires step(m, cursor) == if next.None? then None else Some(Moved(next.value, size))
    requires next.Some? ==> inside(next.value)
    ensures GoesAt(step, effect, place, inside, m, i)
  {
  }

  lemma StepIs(g: Guard, m: Memory, cursor: nat)
    ensures StepOf(g)(m, cursor) == ChildStep(g, m, cursor)
  {
  }

  lemma PlaceIs(g: Guard, cs: seq<Command>, i: nat)
    requires i < |cs|
    ensures PlaceOf(g, cs)(i) == CursorAt(g, cs, i)
    ensures PlaceOf(g, cs)(i + 1) == CursorAt(g, cs, i) + EncodedSize(cs[i])
  {
  }

  lemma StreamGoesAt(g: Guard, cs: seq<Command>, m: Memory, i: nat)
    requires Primitives(cs) && AllMiss(cs, g) && InStream(m, g, cs) && i < |cs|
    ensures GoesAt(StepOf(g), EffectOf(cs), PlaceOf(g, cs), UndisturbedBy(g, cs), m, i)
  {
    ChildRuns(m, g, cs, i);
    EffectIs(cs, i, m);
    StepIs(g, m, CursorAt(g, cs, i));
    PlaceIs(g, cs, i);
    GoesTo(StepOf(g), EffectOf(cs), PlaceOf(g, cs), UndisturbedBy(g, cs), m, i, CursorAt(g, cs, i), EncodedSize(cs[i]),
           Spec(Lower(Sent(cs[i])), m));
  }

  lemma StreamGoes(g: Guard, cs: seq<Command>)
    requires Primitives(cs) && AllMiss(cs, g)
    ensures Goes(StepOf(g), EffectOf(cs), PlaceOf(g, cs), UndisturbedBy(g, cs), |cs|)
  {
    var inside := UndisturbedBy(g, cs);
    forall m, i: nat {:trigger Visited(m, i)} | Visited(m, i) && inside(m) && i < |cs|
      ensures GoesAt(StepOf(g), EffectOf(cs), PlaceOf(g, cs), inside, m, i)
    {
      StreamGoesAt(g, cs, m, i);
    }
  }

  lemma EffectIs(cs: seq<Command>, i: nat, m: Memory)
    requires Primitives(cs) && i < |cs|
    ensures EffectOf(cs)(m, i) == Spec(Lower(Sent(cs[i])), m)
  {
    assert Usable(cs[i]);
  }

  /** A batch whose stream is an encoding, and whose commands store outside the stream and the
      descriptor, runs exactly the encoded commands and takes the whole stream. */
  lemma BatchRunsCommands(m: Memory, g: Guard, cs: seq<Command>)
    requires Primitives(cs) && InStream(m, g, cs) && AllMiss(cs, g)
    ensures Children(m, g.stream, g, |cs|) == RunEffects(EffectOf(cs), PlaceOf(g, cs), |cs|, m, 0)
    ensures PlaceOf(g, cs)(|cs|) == g.end
  {
    StreamGoes(g, cs);
    WholeStream(cs);
    RunsAs(StepOf(g), EffectOf(cs), PlaceOf(g, cs), UndisturbedBy(g, cs), |cs|, m, g.stream);
  }

  lemma RunsAs(step: Step, effect: Effect, place: Place, inside: Undisturbed, count: nat, m: Memory, start: nat)
    requires inside(m) && Goes(step, effect, place, inside, count) && place(0) == start
    ensures RunAll(step, m, start, 0, count) == RunEffects(effect, place, count, m, 0)
  {
    RunFrom(step, effect, place, inside, count, m, 0);
  }

  lemma WholeStream(cs: seq<Command>)
    requires Primitives(cs)
    ensures SizeTo(cs, |cs|) == |EncodeAll(cs)|
  {
    forall i | 0 <= i < |cs| ensures Validate(cs[i]) == Fine {
      assert Usable(cs[i]);
    }
    StreamLength(cs);
  }
}
