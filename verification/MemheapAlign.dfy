/** Alignment in memheap.c with RT_ALIGN_SIZE 8: which operations keep the blocks of a pool at
    multiples of 8, although the minimum request is 12. */
module MemheapAlign {
  import opened Segments
  import opened HeapSpec
  import opened Memheap

  /** What the operations do to the row of blocks: `Taken` is an allocation from block i,
      `Freed` a release, `Grown` and `Cut` a resizing in place. */
  datatype Step = Taken(i: nat, size: nat) | Freed(i: nat) | Grown(i: nat, size: nat) | Cut(i: nat, size: nat)

  predicate Possible(segs: seq<Seg>, st: Step, h: nat) {
    && st.i < |segs|
    && match st
       case Taken(i, size) => size < WORD_LIMIT && !segs[i].used && Request(size, 8) <= segs[i].size
       case Freed(i) => segs[i].used
       case Grown(i, size) =>
         && size < WORD_LIMIT && segs[i].used && i + 1 < |segs| && !segs[i + 1].used
         && segs[i].size < Request(size, 8) && Request(size, 8) <= segs[i].size + segs[i + 1].size
       case Cut(i, size) => size < WORD_LIMIT && segs[i].used && Request(size, 8) + h + MINIALLOC < segs[i].size
  }

  function After(segs: seq<Seg>, st: Step, h: nat): seq<Seg>
    requires Possible(segs, st, h)
  {
    match st
    case Taken(i, size) => AllocSpec(segs, i, Request(size, 8), h, MINIALLOC)
    case Freed(i) => FreeSpec(segs, i, h)
    case Grown(i, size) => GrowSpec(segs, i, Request(size, 8), h)
    case Cut(i, size) => ShrinkSpec(segs, i, Request(size, 8), h)
  }

  /** The requested size exceeds 8 bytes without wrapping around when aligned. */
  predicate Coarse(size: nat) {
    8 < size <= WORD_LIMIT - 8
  }

  /** The condition, on the request and the block it meets: more than 8 bytes, or a block that
      is handed out whole. */
  predicate Keeps(segs: seq<Seg>, st: Step, h: nat)
    requires Possible(segs, st, h)
  {
    match st
    case Taken(i, size) => Coarse(size) || segs[i].size < 2 * MINIALLOC + h
    case Freed(_) => true
    case Grown(_, size) => Coarse(size)
    case Cut(_, size) => Coarse(size)
  }

  lemma NotCoarse(size: nat)
    requires size < WORD_LIMIT && !Coarse(size)
    ensures Request(size, 8) == MINIALLOC
  {
  }

  lemma StepAligned(segs: seq<Seg>, st: Step, h: nat)
    requires Aligned(segs, 8) && Div(h, 8) && Possible(segs, st, h)
    ensures Aligned(After(segs, st, h), 8) <==> Keeps(segs, st, h)
  {
    hide Aligned, Div, Request, AllocSpec, FreeSpec, GrowSpec, ShrinkSpec;
    match st
    case Taken(i, size) =>
      Request8(size);
      AllocAligned(segs, i, Request(size, 8), h, MINIALLOC, 8);
      if !Coarse(size) { NotCoarse(size); }
    case Freed(i) =>
      FreeAligned(segs, i, h, 8);
    case Grown(i, size) =>
      Request8(size);
      GrowAligned(segs, i, Request(size, 8), h, 8);
    case Cut(i, size) =>
      Request8(size);
      ShrinkAligned(segs, i, Request(size, 8), h, 8);
  }

  // ----- runs -----

  predicate Legal(segs: seq<Seg>, run: seq<Step>, h: nat)
    decreases |run|
  {
    run == [] || (Possible(segs, run[0], h) && Legal(After(segs, run[0], h), run[1..], h))
  }

  /** Every row of the run is aligned. */
  ghost predicate Throughout(segs: seq<Seg>, run: seq<Step>, h: nat)
    requires Legal(segs, run, h)
    decreases |run|
  {
    Aligned(segs, 8) && (run != [] ==> Throughout(After(segs, run[0], h), run[1..], h))
  }

  ghost predicate AllKeep(segs: seq<Seg>, run: seq<Step>, h: nat)
    requires Legal(segs, run, h)
    decreases |run|
  {
    run != [] ==> Keeps(segs, run[0], h) && AllKeep(After(segs, run[0], h), run[1..], h)
  }

  lemma NotThroughout(segs: seq<Seg>, run: seq<Step>, h: nat)
    requires Legal(segs, run, h) && !Aligned(segs, 8)
    ensures !Throughout(segs, run, h)
  {
  }

  /** In a run from an aligned pool every block stays 8-aligned if and only if no step cuts a
      block for a request of at most 8 bytes. */
  lemma {:induction false} AlignedExactly(segs: seq<Seg>, run: seq<Step>, h: nat)
    requires Aligned(segs, 8) && Div(h, 8) && Legal(segs, run, h)
    ensures Throughout(segs, run, h) <==> AllKeep(segs, run, h)
    decreases |run|
  {
    hide Aligned, Div, Keeps, Possible, After;
    if run != [] {
      var r := After(segs, run[0], h);
      StepAligned(segs, run[0], h);
      if Keeps(segs, run[0], h) {
        AlignedExactly(r, run[1..], h);
      } else {
        NotThroughout(r, run[1..], h);
      }
    }
  }
}
