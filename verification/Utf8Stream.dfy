/** UTF-8-safe streaming of generated bytes, as the Qwen and GLM generation loops do it. */
module Utf8Stream {
  import opened Utf8

  function Drained(bytes: seq<byte>, finalPiece: bool): (r: (string, seq<byte>)) {
    var valid := ValidUpTo(bytes);
    if valid == |bytes| then (Lossy(bytes), [])
    else if valid > 0 then (Lossy(bytes[..valid]), bytes[valid..])
    else if finalPiece then (Lossy(bytes), [])
    else ("", bytes)
  }

  /** The longest well-formed prefix is emitted at once; what is left waits for more bytes, and
      only the final piece may contain replacement characters. */
  method DrainValidUtf8(bytes: seq<byte>, finalPiece: bool) returns (piece: string, rest: seq<byte>)
    ensures (piece, rest) == Drained(bytes, finalPiece)
  {
    var valid := ValidUpTo(bytes);
    if valid == |bytes| {
      return Lossy(bytes), [];
    }
    if valid > 0 {
      return Lossy(bytes[..valid]), bytes[valid..];
    }
    if finalPiece {
      return Lossy(bytes), [];
    }
    return "", bytes;
  }

  /** Bytes that a drain may leave waiting: none, or none of them well-formed yet. */
  predicate Pending(bytes: seq<byte>) {
    ValidUpTo(bytes) == 0
  }

  /** The streaming invariant: the bytes so far are a well-formed part, already emitted as `text`,
      followed by bytes that must wait. */
  ghost predicate Streaming(bytes: seq<byte>, text: string, pending: seq<byte>) {
    && Pending(pending) && |pending| <= |bytes|
    && var cut := |bytes| - |pending|;
       bytes[cut..] == pending && ValidUpTo(bytes[..cut]) == cut && Lossy(bytes[..cut]) == text
  }

  lemma DrainSplits(bytes: seq<byte>)
    ensures var (piece, rest) := Drained(bytes, false);
      && Pending(rest) && |rest| <= |bytes|
      && bytes[|bytes| - |rest|..] == rest
      && ValidUpTo(bytes[..|bytes| - |rest|]) == |bytes| - |rest|
      && Lossy(bytes[..|bytes| - |rest|]) == piece
  {
    ValidPrefix(bytes);
    assert bytes[..|bytes|] == bytes;
    assert bytes[..0] == [];
  }

  /** One more chunk and one drain keep the invariant. */
  lemma StreamStep(bytes: seq<byte>, text: string, pending: seq<byte>, chunk: seq<byte>)
    requires Streaming(bytes, text, pending)
    ensures var (piece, rest) := Drained(pending + chunk, false);
      Streaming(bytes + chunk, text + piece, rest)
  {
    hide Drained, ValidUpTo, Lossy;
    var (piece, rest) := Drained(pending + chunk, false);
    DrainSplits(pending + chunk);
    var cut := |bytes| - |pending|;
    var part := (pending + chunk)[..|pending + chunk| - |rest|];
    assert bytes + chunk == bytes[..cut] + (pending + chunk);
    assert (bytes + chunk)[..cut + |part|] == bytes[..cut] + part;
    ValidConcat(bytes[..cut], part);
    LossyConcat(bytes[..cut], part);
    assert (bytes + chunk)[cut + |part|..] == rest;
  }

  /** The final drain flushes what waits, and the whole text is the lossy decoding of all bytes. */
  lemma StreamEnds(bytes: seq<byte>, text: string, pending: seq<byte>)
    requires Streaming(bytes, text, pending)
    ensures Drained(pending, true) == (Lossy(pending), [])
    ensures text + Lossy(pending) == Lossy(bytes)
  {
    var cut := |bytes| - |pending|;
    assert bytes == bytes[..cut] + pending;
    LossyConcat(bytes[..cut], pending);
  }

  function Flatten(chunks: seq<seq<byte>>): seq<byte> {
    if chunks == [] then [] else Flatten(chunks[..|chunks| - 1]) + chunks[|chunks| - 1]
  }

  function Joined(pieces: seq<string>): string {
    if pieces == [] then "" else Joined(pieces[..|pieces| - 1]) + pieces[|pieces| - 1]
  }

  predicate NoneEmpty(pieces: seq<string>) {
    forall i: nat | i < |pieces| :: pieces[i] != ""
  }

  function Emit(pieces: seq<string>, piece: string): (r: seq<string>)
    ensures Joined(r) == Joined(pieces) + piece && r == pieces + [piece]
  {
    assert (pieces + [piece])[..|pieces|] == pieces;
    pieces + [piece]
  }

  /** What the loop does with one token's bytes: a piece goes out only when there is one. */
  method EmitReady(pieces: seq<string>, pending: seq<byte>, chunk: seq<byte>, ghost bytes: seq<byte>)
    returns (emitted: seq<string>, waiting: seq<byte>)
    requires Streaming(bytes, Joined(pieces), pending)
    ensures Streaming(bytes + chunk, Joined(emitted), waiting)
    ensures NoneEmpty(pieces) ==> NoneEmpty(emitted)
  {
    StreamStep(bytes, Joined(pieces), pending, chunk);
    var piece, rest := DrainValidUtf8(pending + chunk, false);
    emitted, waiting := pieces, rest;
    if piece != "" { emitted := Emit(pieces, piece); }
  }

  /** After the last token, whatever still waits is flushed. */
  method EmitRest(pieces: seq<string>, pending: seq<byte>, ghost bytes: seq<byte>) returns (emitted: seq<string>)
    requires Streaming(bytes, Joined(pieces), pending)
    ensures Joined(emitted) == Lossy(bytes)
    ensures NoneEmpty(pieces) ==> NoneEmpty(emitted)
  {
    assert Lossy([]) == "";
    hide Streaming, Lossy, ValidUpTo, Flatten;
    StreamEnds(bytes, Joined(pieces), pending);
    emitted := pieces;
    if pending != [] {
      var piece, _ := DrainValidUtf8(pending, true);
      if piece != "" { emitted := Emit(pieces, piece); }
    }
  }

  /** Over a whole run: one chunk of bytes per token, valid or not. */
  method Stream(chunks: seq<seq<byte>>) returns (pieces: seq<string>)
    ensures Joined(pieces) == Lossy(Flatten(chunks))
    ensures NoneEmpty(pieces)
  {
    var pending: seq<byte> := [];
    pieces := [];
    for i := 0 to |chunks|
      invariant Streaming(Flatten(chunks[..i]), Joined(pieces), pending)
      invariant NoneEmpty(pieces)
    {
      assert chunks[..i + 1][..i] == chunks[..i];
      pieces, pending := EmitReady(pieces, pending, chunks[i], Flatten(chunks[..i]));
    }
    assert chunks[..|chunks|] == chunks;
    pieces := EmitRest(pieces, pending, Flatten(chunks));
  }
}
