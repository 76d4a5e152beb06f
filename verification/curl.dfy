/**
 The response buffer libcurl fills through `WriteMemoryCallback`: a block
 of memory holding `size` bytes of body followed by a NUL, grown with
 `realloc` on every delivered chunk. Whether `realloc` succeeds is an
 oracle.
 */
module Curl {

  /**
   `memory` is the allocated block, `size` the number of body bytes at its
   start. The struct's standing invariant is that the block is larger than
   `size` (see `Valid`).
   */
  datatype MemoryStruct = MemoryStruct(memory: seq<bv8>, size: nat)

  predicate Valid(m: MemoryStruct) {
    m.size < |m.memory|
  }

  /** The body received so far. */
  function Content(m: MemoryStruct): seq<bv8>
    requires Valid(m)
  {
    m.memory[..m.size]
  }

  /** `malloc(1)` with size 0: one byte whose value is whatever the allocator left there. */
  function Fresh(garbage: bv8): (m: MemoryStruct)
    ensures Valid(m) && Content(m) == []
  {
    MemoryStruct([garbage], 0)
  }

  /** What the callback returns to libcurl, and the buffer afterwards. */
  datatype Delivery = Delivery(returned: nat, mem: MemoryStruct)

  /**
   `WriteMemoryCallback`: `contents` holds the `size * nmemb` bytes libcurl
   hands over; `reallocates` is whether `realloc` finds the larger block.
   */
  function WriteMemoryCallback(contents: seq<bv8>, size: nat, nmemb: nat, mem: MemoryStruct, reallocates: bool)
    : (d: Delivery)
    requires Valid(mem) && |contents| == size * nmemb
    ensures Valid(d.mem)
    ensures reallocates ==>
              d.returned == size * nmemb &&
              d.mem.size == mem.size + size * nmemb &&
              Content(d.mem) == Content(mem) + contents &&
              |d.mem.memory| == d.mem.size + 1 && d.mem.memory[d.mem.size] == 0
    ensures !reallocates ==> d.returned == 0 && d.mem == mem
  {
    var realsize := size * nmemb;
    if !reallocates then Delivery(0, mem)
    else
      // realloc keeps the first `mem.size` bytes; memcpy fills the next
      // `realsize`; the terminator goes right after them.
      var block := mem.memory[..mem.size] + contents + [0];
      Delivery(realsize, MemoryStruct(block, mem.size + realsize))
  }

  /** All chunks one after another. */
  function Flatten(chunks: seq<seq<bv8>>): (all: seq<bv8>) {
    if |chunks| == 0 then [] else chunks[0] + Flatten(chunks[1..])
  }

  /**
   A whole transfer: libcurl calls the callback once per chunk (with
   `size` 1) and aborts as soon as the callback returns a count other
   than the chunk's length. The result says whether every chunk was
   accepted, and the buffer at the end.
   */
  function Transfer(mem: MemoryStruct, chunks: seq<seq<bv8>>, reallocates: seq<bool>): (r: (bool, MemoryStruct))
    requires Valid(mem) && |reallocates| == |chunks|
    ensures Valid(r.1)
    decreases |chunks|
  {
    if |chunks| == 0 then (true, mem)
    else
      var d := WriteMemoryCallback(chunks[0], 1, |chunks[0]|, mem, reallocates[0]);
      if d.returned != |chunks[0]| then (false, d.mem)
      else Transfer(d.mem, chunks[1..], reallocates[1..])
  }

  /** Index of the first non-empty chunk whose allocation fails, or the number of chunks. */
  function FirstFailure(chunks: seq<seq<bv8>>, reallocates: seq<bool>): (k: nat)
    requires |reallocates| == |chunks|
    ensures k <= |chunks|
    ensures forall i :: 0 <= i < k ==> reallocates[i] || |chunks[i]| == 0
    ensures k < |chunks| ==> !reallocates[k] && |chunks[k]| > 0
  {
    if |chunks| == 0 then 0
    else if !reallocates[0] && |chunks[0]| > 0 then 0
    else 1 + FirstFailure(chunks[1..], reallocates[1..])
  }

  /**
   A transfer completes exactly when no allocation fails on a non-empty
   chunk, and the buffer then holds what it held before followed by every
   chunk up to the failing one, in order.
   */
  lemma {:induction false} TransferAccumulates(mem: MemoryStruct, chunks: seq<seq<bv8>>, reallocates: seq<bool>)
    requires Valid(mem) && |reallocates| == |chunks|
    ensures var r := Transfer(mem, chunks, reallocates);
            var k := FirstFailure(chunks, reallocates);
            (r.0 <==> k == |chunks|) && Content(r.1) == Content(mem) + Flatten(chunks[..k])
    decreases |chunks|
  {
    var k := FirstFailure(chunks, reallocates);
    if |chunks| == 0 {
      assert chunks[..k] == [];
    } else {
      var d := WriteMemoryCallback(chunks[0], 1, |chunks[0]|, mem, reallocates[0]);
      if !reallocates[0] && |chunks[0]| > 0 {
        assert chunks[..k] == [];
      } else {
        assert Content(d.mem) == Content(mem) + chunks[0];
        TransferAccumulates(d.mem, chunks[1..], reallocates[1..]);
        assert chunks[..k][1..] == chunks[1..][..k - 1];
        assert Flatten(chunks[..k]) == chunks[0] + Flatten(chunks[1..][..k - 1]);
      }
    }
  }

  /** When every allocation succeeds the buffer ends up holding the whole body. */
  lemma TransferCollectsBody(garbage: bv8, chunks: seq<seq<bv8>>)
    ensures var r := Transfer(Fresh(garbage), chunks, seq(|chunks|, _ => true));
            r.0 && Content(r.1) == Flatten(chunks)
  {
    var ok := seq(|chunks|, _ => true);
    TransferAccumulates(Fresh(garbage), chunks, ok);
    assert chunks[..|chunks|] == chunks;
  }
}
