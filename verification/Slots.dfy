// The slot tables of src/slots.c: free slots form a chain that runs through
// the slots themselves.
module Slots {
  import opened Memory
  import opened Rounding

  // The place of the k-th slot of a block that starts at e.
  function SlotAt(e: nat, stride: nat, k: nat): (x: nat)
    ensures e <= x
  {
    if k == 0 then e else SlotAt(e, stride, k - 1) + stride
  }

  lemma {:induction false} SlotIs(e: nat, stride: nat, k: nat)
    ensures SlotAt(e, stride, k) == e + k * stride
  {
    if k > 0 {
      SlotIs(e, stride, k - 1);
      assert (k - 1) * stride + stride == k * stride;
    }
  }

  // The slots of a new block, the last one first.
  function NewSlots(e: nat, stride: nat, n: nat): (r: seq<nat>)
    ensures |r| == n
    ensures forall i :: 0 <= i < n ==> r[i] == SlotAt(e, stride, n - 1 - i)
  {
    if n == 0 then [] else [SlotAt(e, stride, n - 1)] + NewSlots(e, stride, n - 1)
  }

  // From free on, the links spell the chain, which ends at 0.
  ghost predicate Linked(links: map<nat, nat>, free: nat, chain: seq<nat>)
    decreases |chain|
  {
    if chain == [] then free == 0
    else free == chain[0] != 0 && free in links && Linked(links, links[free], chain[1..])
  }

  lemma {:induction false} LinkedFrame(links: map<nat, nat>, free: nat, chain: seq<nat>, p: nat, v: nat)
    requires Linked(links, free, chain) && p !in chain
    ensures Linked(links[p := v], free, chain)
    decreases |chain|
  {
    if chain != [] {
      assert chain[0] in chain;
      LinkedFrame(links, links[free], chain[1..], p, v);
    }
  }

  class SlotTable {
    const entsize: nat
    const entalign: nat
    var links: map<nat, nat>
    var free: nat
    var size: int
    ghost var chain: seq<nat>

    ghost predicate Valid()
      reads this
    {
      && entsize > 0 && entalign > 0
      && Distinct(chain) && Linked(links, free, chain)
    }

    // src/slots.c:54-75, for a size and an alignment that are large enough.
    constructor (s: nat, a: nat)
      requires s > 0 && a > 0
      ensures Valid() && chain == [] && size == 0 && entsize == s && entalign == a && free == 0
    {
      entsize, entalign, links, free, size, chain := s, a, map[], 0, 0, [];
    }

    function Stride(): (r: nat)
      requires entalign > 0
      reads this
      ensures entsize <= r && r % entalign == 0
    {
      RoundUp(entsize, entalign)
    }

    method Chain(e: nat)
      requires Valid() && e != 0 && e !in chain
      modifies this`links, this`free, this`chain
      ensures Valid() && chain == [e] + old(chain)
    {
      LinkedFrame(links, free, chain, e, free);
      links := links[e := free];
      free := e;
      chain := [e] + chain;
      assert chain[1..] == old(chain);
    }

    // src/slots.c:83-104: a block of s bytes at p.  No slot of it is in the
    // chain yet.
    method InitSlots(p: nat, s: nat) returns (n: nat)
      requires Valid() && p > 0
      requires forall x :: x in chain ==> x < p || p + s <= x
      modifies this`links, this`free, this`chain
      ensures Valid() && chain == NewSlots(RoundUp(p, entalign), Stride(), n) + old(chain)
      // Every slot is aligned and inside the block.
      ensures forall k :: 0 <= k < n ==> var x := SlotAt(RoundUp(p, entalign), Stride(), k);
                x % entalign == 0 && p <= x && x + entsize <= p + s
      // One more slot would not end before the end of the block less what the
      // alignment cost at its start.
      ensures var e := RoundUp(p, entalign); SlotAt(e, Stride(), n) + entsize > p + s - (e - p)
    {
      var e := RoundUp(p, entalign);
      var end := p + s - (e - p);
      ghost var first, stride := e, Stride();
      var b := e + entsize;
      var l := RoundUp(entsize, entalign) - entsize;
      n := 0;
      while b <= end
        invariant Valid() && e == SlotAt(first, stride, n) && b == e + entsize && e % entalign == 0 && e >= first
        invariant chain == NewSlots(first, stride, n) + old(chain)
        invariant forall k :: 0 <= k < n ==> var x := SlotAt(first, stride, k);
                    x % entalign == 0 && p <= x < e && x + entsize <= p + s
        decreases end - b
      {
        assert e !in NewSlots(first, stride, n);
        Chain(e);
        ModSum(e, stride, entalign);
        e := b + l;
        b := e + entsize;
        n := n + 1;
        assert chain == NewSlots(first, stride, n) + old(chain);
      }
    }

    // src/slots.c:112-122
    method GetSlot() returns (e: nat)
      requires Valid()
      modifies this`free, this`size, this`chain
      ensures Valid()
      ensures old(chain) == [] ==> e == 0 && chain == [] && size == old(size)
      ensures old(chain) != [] ==>
        e == old(chain)[0] && e != 0 && chain == old(chain)[1..] && size == old(size) + 1 && e !in chain
    {
      e := free;
      if e != 0 {
        free := links[e];
        size := size + 1;
        chain := chain[1..];
      }
    }

    // src/slots.c:131-139
    method FreeSlot(p: nat)
      requires Valid() && p != 0 && p !in chain
      modifies this`links, this`free, this`size, this`chain
      ensures Valid() && chain == [p] + old(chain) && size == old(size) - 1
    {
      Chain(p);
      size := size - 1;
    }
  }
}
