/** Collecting one output stream of a command: ready chunks are merged, the total
    is capped, and the capped bytes are streamed or buffered. */
module CommandOutput {
  import opened Common

  const CHUNK_SIZE_HINT := 64 * 1024

  type Byte = b: int | 0 <= b < 256

  /** A notification with the bytes it carries. */
  datatype Delta = Delta(bytes: seq<Byte>, capReached: bool)

  function Flatten(chunks: seq<seq<Byte>>): seq<Byte> {
    if chunks == [] then [] else Flatten(chunks[..|chunks| - 1]) + chunks[|chunks| - 1]
  }

  lemma FlattenAppend(chunks: seq<seq<Byte>>, chunk: seq<Byte>)
    ensures Flatten(chunks + [chunk]) == Flatten(chunks) + chunk
  {
    assert (chunks + [chunk])[..|chunks|] == chunks;
  }

  lemma {:induction false} FlattenPrefix(chunks: seq<seq<Byte>>, n: nat)
    requires n <= |chunks|
    ensures Flatten(chunks[..n]) <= Flatten(chunks)
    decreases |chunks|
  {
    if n == |chunks| {
      assert chunks[..n] == chunks;
    } else {
      assert chunks[..|chunks| - 1][..n] == chunks[..n];
      FlattenPrefix(chunks[..|chunks| - 1], n);
    }
  }

  /** The longest prefix the cap allows. */
  function Capped(bytes: seq<Byte>, cap: Option<nat>): seq<Byte> {
    if cap.Some? && cap.value < |bytes| then bytes[..cap.value] else bytes
  }

  function Carried(deltas: seq<Delta>): seq<Byte> {
    if deltas == [] then [] else Carried(deltas[..|deltas| - 1]) + deltas[|deltas| - 1].bytes
  }

  lemma CarriedAppend(deltas: seq<Delta>, d: Delta)
    ensures Carried(deltas + [d]) == Carried(deltas) + d.bytes
  {
    assert (deltas + [d])[..|deltas|] == deltas;
  }

  datatype Collected = Collected(buffer: seq<Byte>, deltas: seq<Delta>, consumed: nat)

  /** Merges chunks that are ready until the hint is reached. */
  method MergeReady(chunks: seq<seq<Byte>>, from: nat, ready: nat) returns (chunk: seq<Byte>, next: nat)
    requires from < |chunks|
    ensures from < next <= |chunks|
    ensures Flatten(chunks[..next]) == Flatten(chunks[..from]) + chunk
  {
    chunk, next := chunks[from], from + 1;
    assert chunks[..next] == chunks[..from] + [chunks[from]];
    FlattenAppend(chunks[..from], chunks[from]);
    while |chunk| < CHUNK_SIZE_HINT && next < |chunks| && next <= from + ready
      invariant from < next <= |chunks|
      invariant Flatten(chunks[..next]) == Flatten(chunks[..from]) + chunk
      decreases |chunks| - next
    {
      assert chunks[..next + 1] == chunks[..next] + [chunks[next]];
      FlattenAppend(chunks[..next], chunks[next]);
      chunk, next := chunk + chunks[next], next + 1;
    }
  }

  /** The part of a chunk the cap still has room for. */
  method CapChunk(chunk: seq<Byte>, cap: Option<nat>, observed: nat)
      returns (capped: seq<Byte>, total: nat, reached: bool)
    requires cap.Some? ==> observed <= cap.value
    ensures cap.None? ==> capped == chunk && total == observed && !reached
    ensures cap.Some? ==> total == observed + |capped| <= cap.value && capped <= chunk
    ensures cap.Some? ==> (reached <==> total == cap.value) && (reached <==> observed + |chunk| >= cap.value)
    ensures !reached ==> capped == chunk
  {
    capped, total := chunk, observed;
    if cap.Some? {
      var room := cap.value - observed;
      var length := if room < |chunk| then room else |chunk|;
      total := observed + length;
      capped := chunk[..length];
    }
    reached := cap.Some? && total == cap.value;
  }

  /** Bytes up to the cap do not depend on what follows. */
  lemma ReachedCap(chunks: seq<seq<Byte>>, n: nat, out: seq<Byte>, chunk: seq<Byte>, cap: nat)
    requires n <= |chunks| && Flatten(chunks[..n]) == out + chunk && |out| <= cap <= |out| + |chunk|
    ensures Capped(Flatten(chunks), Some(cap)) == out + chunk[..cap - |out|]
    ensures Capped(Flatten(chunks[..n]), Some(cap)) == out + chunk[..cap - |out|]
    ensures cap <= |Flatten(chunks)|
  {
    FlattenPrefix(chunks, n);
    assert (out + chunk)[..cap] == out + chunk[..cap - |out|];
    assert Flatten(chunks)[..cap] == Flatten(chunks[..n])[..cap];
  }

  /** Collects the chunks that arrive before the stream ends or times out; `ready`
      says how many more chunks are waiting each time one is received. However the
      chunks are merged, what comes out is the capped concatenation, split over the
      notifications or in the buffer, and the notification that reaches the cap is
      the last. */
  method CollectOutput(chunks: seq<seq<Byte>>, ready: nat -> nat, cap: Option<nat>, streaming: bool, named: bool)
    returns (r: Collected)
    ensures r.consumed <= |chunks|
    ensures Capped(Flatten(chunks[..r.consumed]), cap) == Capped(Flatten(chunks), cap)
    ensures !streaming ==> r.buffer == Capped(Flatten(chunks), cap) && r.deltas == []
    ensures streaming ==> r.buffer == []
    ensures streaming && named ==> Carried(r.deltas) == Capped(Flatten(chunks), cap)
    ensures streaming && !named ==> r.deltas == []
    ensures forall i | 0 <= i < |r.deltas| ::
              r.deltas[i].capReached <==> i == |r.deltas| - 1 && cap.Some? && cap.value <= |Flatten(chunks)|
  {
    var buffer: seq<Byte> := [];
    var deltas: seq<Delta> := [];
    var observed := 0;
    var next := 0;
    ghost var out: seq<Byte> := [];
    assert chunks[..0] == [];
    while next < |chunks|
      invariant 0 <= next <= |chunks|
      invariant out == Flatten(chunks[..next])
      invariant cap.Some? ==> observed == |out| <= cap.value && (next > 0 ==> |out| < cap.value)
      invariant next == 0 ==> deltas == []
      invariant buffer == if streaming then [] else out
      invariant Carried(deltas) == if streaming && named then out else []
      invariant !(streaming && named) ==> deltas == []
      invariant forall i | 0 <= i < |deltas| :: !deltas[i].capReached
      decreases |chunks| - next
    {
      var chunk, after := MergeReady(chunks, next, ready(next));
      var capped, capReached;
      capped, observed, capReached := CapChunk(chunk, cap, observed);
      if streaming && named {
        CarriedAppend(deltas, Delta(capped, capReached));
        deltas := deltas + [Delta(capped, capReached)];
      } else if !streaming {
        buffer := buffer + capped;
      }
      if capReached {
        ReachedCap(chunks, after, out, chunk, cap.value);
        return Collected(buffer, deltas, after);
      }
      out := out + capped;
      next := after;
    }
    assert chunks[..next] == chunks;
    r := Collected(buffer, deltas, next);
  }
}
