/** The best-fit allocator of SimpleMemoryAllocator.cpp: three maps that describe how `[0, total)` is divided. */
module SimpleMemoryAllocator {
  import opened Collections

  // uword_t is a 64-bit unsigned integer.
  const WORD: int := 0x1_0000_0000_0000_0000

  type Blocks = map<int, int>

  datatype State = State(
    free: Blocks,             // mOffsetToBlocksizeMapUnallocated
    used: Blocks,        // mOffsetToBlocksizeMapAllocated
    upper: map<int, int>,     // mUnallocatedBlockUpperBoundsToOffsets
    total: int,
    alignment: int)

  // ----- What the maps must mean -----

  ghost predicate Within(m: Blocks, total: int) {
    forall a :: a in m ==> 0 <= a && 0 < m[a] && a + m[a] <= total
  }

  // The block of `m` at `a` and the block of `n` at `b` do not overlap.
  ghost predicate Apart(m: Blocks, a: int, n: Blocks, b: int) {
    a in m && b in n ==> a + m[a] <= b || b + n[b] <= a
  }

  ghost predicate Separate(m: Blocks) {
    forall a, b {:trigger Apart(m, a, m, b)} :: a != b ==> Apart(m, a, m, b)
  }

  ghost predicate SeparateFrom(m: Blocks, n: Blocks) {
    forall a, b {:trigger Apart(m, a, n, b)} :: Apart(m, a, n, b)
  }

  ghost predicate Covers(m: Blocks, a: int, x: int) {
    a in m && a <= x < a + m[a]
  }

  ghost predicate Covered(m: Blocks, x: int) {
    exists a :: Covers(m, a, x)
  }

  ghost predicate Aligned(m: Blocks, alignment: int)
    requires alignment >= 1
  {
    forall a :: a in m ==> a % alignment == 0 && m[a] % alignment == 0
  }

  // No free block starts where another one ends.
  ghost predicate Touches(free: Blocks, f: int) {
    f in free && f + free[f] in free
  }

  ghost predicate Coalesced(free: Blocks) {
    forall f {:trigger Touches(free, f)} :: !Touches(free, f)
  }

  // The upper-bound map is the inverse index of the ends of the free blocks.
  ghost predicate EndRecorded(upper: map<int, int>, free: Blocks, f: int) {
    f in free ==> f + free[f] in upper && upper[f + free[f]] == f
  }

  ghost predicate EndsBlock(upper: map<int, int>, free: Blocks, e: int) {
    e in upper ==> upper[e] in free && upper[e] + free[upper[e]] == e
  }

  ghost predicate InverseOfEnds(upper: map<int, int>, free: Blocks) {
    && (forall f {:trigger EndRecorded(upper, free, f)} :: EndRecorded(upper, free, f))
    && (forall e {:trigger EndsBlock(upper, free, e)} :: EndsBlock(upper, free, e))
  }

  ghost predicate Tiles(s: State) {
    && Within(s.free, s.total) && Within(s.used, s.total)
    && Separate(s.free) && Separate(s.used) && SeparateFrom(s.free, s.used)
    && (forall x :: 0 <= x < s.total ==> Covered(s.free, x) || Covered(s.used, x))
  }

  ghost predicate Valid(s: State) {
    && 0 < s.total < WORD && s.alignment >= 1 && s.total % s.alignment == 0
    && Tiles(s)
    && Coalesced(s.free)
    && InverseOfEnds(s.upper, s.free)
    && Aligned(s.free, s.alignment) && Aligned(s.used, s.alignment)
  }

  // ----- The operations -----

  function Initial(total: int, alignment: int): State {
    State(map[0 := total], map[], map[total := 0], total, alignment)
  }

  // The request rounded up to the alignment, in 64-bit arithmetic.
  function Rounded(size: int, alignment: int): int
    requires alignment >= 1
  {
    if size % alignment != 0 then (size + (alignment - size % alignment)) % WORD else size
  }

  ghost predicate RoundingWraps(size: int, alignment: int)
    requires alignment >= 1
  {
    size % alignment != 0 && size + (alignment - size % alignment) >= WORD
  }

  // The smallest block that is large enough, and among those the lowest.
  ghost predicate IsBestFit(free: Blocks, size: int, f: int) {
    && f in free && free[f] >= size
    && forall g :: g in free && free[g] >= size ==> free[f] < free[g] || (free[f] == free[g] && f <= g)
  }

  ghost predicate Fits(free: Blocks, size: int) {
    exists f :: f in free && free[f] >= size
  }

  function Take(s: State, f: int, size: int): State
    requires f in s.free
  {
    var block := s.free[f];
    if size < block then
      s.(free := (s.free - {f})[f + size := block - size],
         upper := s.upper[f + block := f + size],
         used := s.used[f := size])
    else
      s.(free := s.free - {f},
         upper := s.upper - {f + size},
         used := s.used[f := size])
  }

  function Release(s: State, offset: int): State
    requires offset in s.used
  {
    var size := s.used[offset];
    var above := offset + size;
    var grown := if above in s.free then size + s.free[above] else size;
    var free1 := if above in s.free then s.free - {above} else s.free;
    var upper1 := if above in s.free then s.upper - {offset + grown} else s.upper;
    if offset in upper1 then
      var below := upper1[offset];
      s.(used := s.used - {offset},
         free := (free1 - {below})[below := grown + offset - below],
         upper := (upper1 - {offset})[offset + grown := below])
    else
      s.(used := s.used - {offset},
         free := free1[offset := grown],
         upper := upper1[offset + grown := offset])
  }

  // ----- The free structures are a function of the allocated blocks -----

  lemma NotInBoth(s: State, x: int)
    requires Tiles(s)
    ensures !(Covered(s.free, x) && Covered(s.used, x))
  {
    forall a, b
      ensures !(Covers(s.free, a, x) && Covers(s.used, b, x))
    {
      assert Apart(s.free, a, s.used, b);
    }
  }

  // The end of a free block, unless it is the end of everything, is the start of an allocated block.
  lemma FreeEndsAtUsed(s: State, f: int)
    requires Tiles(s) && Coalesced(s.free) && f in s.free && f + s.free[f] < s.total
    ensures f + s.free[f] in s.used
  {
    var e := f + s.free[f];
    forall g
      ensures !Covers(s.free, g, e)
    {
      assert !Touches(s.free, f) && (g != f ==> Apart(s.free, g, s.free, f));
    }
    assert Covered(s.free, e) || Covered(s.used, e);
    var b :| Covers(s.used, b, e);
    assert Apart(s.free, f, s.used, b);
  }

  lemma FreeStartsAfterUsed(s: State, f: int)
    requires Tiles(s) && Coalesced(s.free) && f in s.free && 0 < f
    ensures Covered(s.used, f - 1)
  {
    var x := f - 1;
    forall g
      ensures !Covers(s.free, g, x)
    {
      assert !Touches(s.free, g) && (g != f ==> Apart(s.free, g, s.free, f));
    }
    assert Covered(s.free, x) || Covered(s.used, x);
  }

  lemma SameFreeBlock(s: State, t: State, f: int)
    requires Tiles(s) && Coalesced(s.free) && Tiles(t) && Coalesced(t.free)
    requires t.used == s.used && t.total == s.total && f in s.free
    ensures f in t.free && t.free[f] == s.free[f]
  {
    assert Covers(s.free, f, f);
    NotInBoth(s, f);
    assert Covered(t.free, f) || Covered(t.used, f);
    var g :| Covers(t.free, g, f);
    assert g == f by {
      if 0 < f {
        FreeStartsAfterUsed(s, f);
        NotInBoth(t, f - 1);
        assert !Covers(t.free, g, f - 1);
      }
    }
    SameFreeEnd(s, t, f);
    SameFreeEnd(t, s, f);
  }

  lemma SameFreeEnd(s: State, t: State, f: int)
    requires Tiles(s) && Coalesced(s.free) && Tiles(t) && Coalesced(t.free)
    requires t.used == s.used && t.total == s.total && f in s.free && f in t.free
    ensures t.free[f] <= s.free[f]
  {
    if f + s.free[f] < s.total {
      FreeEndsAtUsed(s, f);
      assert Apart(t.free, f, t.used, f + s.free[f]);
    }
  }

  lemma SameUpper(upper: map<int, int>, upper1: map<int, int>, free: Blocks)
    requires InverseOfEnds(upper, free) && InverseOfEnds(upper1, free)
    ensures upper == upper1
  {
    forall e | e in upper
      ensures e in upper1 && upper1[e] == upper[e]
    {
      assert EndsBlock(upper, free, e) && EndRecorded(upper1, free, upper[e]);
    }
    forall e | e in upper1
      ensures e in upper
    {
      assert EndsBlock(upper1, free, e) && EndRecorded(upper, free, upper1[e]);
    }
  }

  // Two valid states with the same allocated blocks are the same state.
  lemma DeterminedByUsed(s: State, t: State)
    requires Valid(s) && Valid(t)
    requires t.used == s.used && t.total == s.total && t.alignment == s.alignment
    ensures t == s
  {
    assert s.free == t.free by {
      forall f | f in s.free
        ensures f in t.free && t.free[f] == s.free[f]
      {
        SameFreeBlock(s, t, f);
      }
      forall f | f in t.free
        ensures f in s.free
      {
        SameFreeBlock(t, s, f);
      }
    }
    SameUpper(s.upper, t.upper, s.free);
  }

  // ----- Allocating -----

  lemma {:induction false} MultipleSign(k: int, alignment: int)
    requires alignment >= 1
    ensures k >= 1 ==> k * alignment >= alignment
    ensures k <= -1 ==> k * alignment <= -alignment
    decreases if k < 0 then -k else k
  {
    if k > 1 {
      MultipleSign(k - 1, alignment);
      assert k * alignment == (k - 1) * alignment + alignment;
    } else if k < -1 {
      MultipleSign(k + 1, alignment);
      assert k * alignment == (k + 1) * alignment - alignment;
    }
  }

  lemma MultipleAligned(m: int, k: int, alignment: int)
    requires alignment >= 1 && m == k * alignment
    ensures m % alignment == 0
  {
    var q, r := m / alignment, m % alignment;
    assert m == q * alignment + r;
    assert (k - q) * alignment == k * alignment - q * alignment == r;
    MultipleSign(k - q, alignment);
  }

  lemma AlignedDifference(a: int, b: int, alignment: int)
    requires alignment >= 1 && a % alignment == 0 && b % alignment == 0
    ensures (a + b) % alignment == 0 && (a - b) % alignment == 0
  {
    var i, j := a / alignment, b / alignment;
    assert a == i * alignment && b == j * alignment;
    MultipleAligned(a + b, i + j, alignment);
    MultipleAligned(a - b, i - j, alignment);
  }

  lemma TakeCovers(s: State, f: int, size: int, x: int)
    requires Tiles(s) && f in s.free && 0 < size <= s.free[f] && 0 <= x < s.total
    ensures Covered(Take(s, f, size).free, x) || Covered(Take(s, f, size).used, x)
  {
    var t := Take(s, f, size);
    assert Covered(s.free, x) || Covered(s.used, x);
    if Covered(s.used, x) {
      var a :| Covers(s.used, a, x);
      assert Apart(s.free, f, s.used, a);
      assert Covers(t.used, a, x);
    } else {
      var a :| Covers(s.free, a, x);
      assert a != f ==> Apart(s.free, f, s.free, a);
      if a != f {
        assert Covers(t.free, a, x);
      } else if x < f + size {
        assert Covers(t.used, f, x);
      } else {
        assert Covers(t.free, f + size, x);
      }
    }
  }

  lemma TakeFreeApart(s: State, f: int, size: int, a: int, b: int)
    requires Tiles(s) && f in s.free && 0 < size <= s.free[f] && a != b
    ensures Apart(Take(s, f, size).free, a, Take(s, f, size).free, b)
  {
    var rest, split := f + size, size < s.free[f];
    var a0, b0 := if a == rest && split then f else a, if b == rest && split then f else b;
    assert a0 != b0 ==> Apart(s.free, a0, s.free, b0);
  }

  lemma TakeUsedApart(s: State, f: int, size: int, a: int, b: int)
    requires Tiles(s) && f in s.free && 0 < size <= s.free[f] && a != b
    ensures Apart(Take(s, f, size).used, a, Take(s, f, size).used, b)
  {
    assert Apart(s.used, a, s.used, b) && Apart(s.free, f, s.used, a) && Apart(s.free, f, s.used, b);
  }

  lemma TakeApart(s: State, f: int, size: int, a: int, b: int)
    requires Tiles(s) && f in s.free && 0 < size <= s.free[f]
    ensures Apart(Take(s, f, size).free, a, Take(s, f, size).used, b)
  {
    var a0 := if a == f + size && size < s.free[f] then f else a;
    assert Apart(s.free, a0, s.used, b) && (a0 != f ==> Apart(s.free, a0, s.free, f));
  }

  lemma TakeTiles(s: State, f: int, size: int)
    requires Tiles(s) && f in s.free && 0 < size <= s.free[f]
    ensures Tiles(Take(s, f, size))
  {
    var t := Take(s, f, size);
    forall a, b | a != b
      ensures Apart(t.free, a, t.free, b) && Apart(t.used, a, t.used, b)
    {
      TakeFreeApart(s, f, size, a, b);
      TakeUsedApart(s, f, size, a, b);
    }
    forall a, b
      ensures Apart(t.free, a, t.used, b)
    {
      TakeApart(s, f, size, a, b);
    }
    forall x | 0 <= x < s.total
      ensures Covered(t.free, x) || Covered(t.used, x)
    {
      TakeCovers(s, f, size, x);
    }
  }

  lemma TakeInverts(s: State, f: int, size: int)
    requires Tiles(s) && InverseOfEnds(s.upper, s.free) && f in s.free && 0 < size <= s.free[f]
    ensures InverseOfEnds(Take(s, f, size).upper, Take(s, f, size).free)
  {
    var t := Take(s, f, size);
    forall g
      ensures EndRecorded(t.upper, t.free, g)
    {
      assert EndRecorded(s.upper, s.free, g) && EndRecorded(s.upper, s.free, f) && (g != f ==> Apart(s.free, f, s.free, g));
    }
    forall e
      ensures EndsBlock(t.upper, t.free, e)
    {
      assert EndsBlock(s.upper, s.free, e) && EndRecorded(s.upper, s.free, f);
      assert e in s.upper && s.upper[e] != f ==> Apart(s.free, f, s.free, s.upper[e]);
    }
  }

  lemma TakeKeeps(s: State, f: int, size: int)
    requires Valid(s) && f in s.free && 0 < size <= s.free[f] && size % s.alignment == 0
    ensures Valid(Take(s, f, size))
  {
    var t := Take(s, f, size);
    TakeTiles(s, f, size);
    TakeInverts(s, f, size);
    AlignedDifference(f, size, s.alignment);
    AlignedDifference(s.free[f], size, s.alignment);
    forall g
      ensures !Touches(t.free, g)
    {
      assert !Touches(s.free, g) && !Touches(s.free, f) && (g != f ==> Apart(s.free, f, s.free, g));
    }
  }

  // ----- Releasing -----

  // The free block that a release produces.
  function MergedStart(s: State, offset: int): int {
    if offset in s.upper then s.upper[offset] else offset
  }

  function MergedEnd(s: State, offset: int): int
    requires offset in s.used
  {
    var above := offset + s.used[offset];
    if above in s.free then above + s.free[above] else above
  }

  // How the block at `offset` merges with its free neighbours.
  ghost predicate Merges(s: State, offset: int)
    requires offset in s.used
  {
    var t, lo, hi, above := Release(s, offset), MergedStart(s, offset), MergedEnd(s, offset), offset + s.used[offset];
    && 0 <= lo <= offset < above <= hi <= s.total
    && (lo != offset ==> lo in s.free && lo + s.free[lo] == offset)
    && (hi != above ==> above in s.free && above + s.free[above] == hi)
    && (lo == offset ==> offset !in s.upper && offset !in s.free)
    && (hi == above ==> above !in s.free)
    && t.used == s.used - {offset}
    && t.free == (s.free - {above, lo})[lo := hi - lo]
    && t.upper == (s.upper - {offset, hi})[hi := lo]
  }

  lemma ReleaseMerges(s: State, offset: int)
    requires Valid(s) && offset in s.used
    ensures Merges(s, offset)
  {
    var above := offset + s.used[offset];
    var lo, hi := MergedStart(s, offset), MergedEnd(s, offset);
    assert EndsBlock(s.upper, s.free, offset) && EndsBlock(s.upper, s.free, hi);
    assert Apart(s.free, offset, s.used, offset) && Apart(s.free, above, s.used, offset);
    assert above !in s.free && hi in s.upper ==> Apart(s.free, s.upper[hi], s.used, offset);
  }

  lemma ReleaseCovers(s: State, offset: int, x: int)
    requires Valid(s) && offset in s.used && Merges(s, offset) && 0 <= x < s.total
    ensures Covered(Release(s, offset).free, x) || Covered(Release(s, offset).used, x)
  {
    var t := Release(s, offset);
    var lo, hi := MergedStart(s, offset), MergedEnd(s, offset);
    assert Covered(s.free, x) || Covered(s.used, x);
    if lo <= x < hi {
      assert Covers(t.free, lo, x);
    } else if Covered(s.used, x) {
      var a :| Covers(s.used, a, x);
      assert Covers(t.used, a, x);
    } else {
      var a :| Covers(s.free, a, x);
      assert Covers(t.free, a, x);
    }
  }

  lemma ReleaseTiles(s: State, offset: int)
    requires Valid(s) && offset in s.used && Merges(s, offset)
    ensures Tiles(Release(s, offset))
  {
    var t := Release(s, offset);
    var lo, hi, above := MergedStart(s, offset), MergedEnd(s, offset), offset + s.used[offset];
    forall a, b | a != b
      ensures Apart(t.free, a, t.free, b)
    {
      assert Apart(s.free, a, s.free, b);
      ApartFromMerged(s, offset, a);
      ApartFromMerged(s, offset, b);
    }
    forall a, b | a != b
      ensures Apart(t.used, a, t.used, b)
    {
      assert Apart(s.used, a, s.used, b);
    }
    forall a, b
      ensures Apart(t.free, a, t.used, b)
    {
      assert Apart(s.free, a, s.used, b) && (b != offset ==> Apart(s.used, b, s.used, offset));
      assert Apart(s.free, lo, s.used, b) && Apart(s.free, above, s.used, b);
    }
    forall x | 0 <= x < s.total
      ensures Covered(t.free, x) || Covered(t.used, x)
    {
      ReleaseCovers(s, offset, x);
    }
  }

  // A free block that is not merged lies outside the merged range.
  lemma ApartFromMerged(s: State, offset: int, a: int)
    requires Valid(s) && offset in s.used && Merges(s, offset)
    ensures var lo, hi, above := MergedStart(s, offset), MergedEnd(s, offset), offset + s.used[offset];
            a in s.free && a != lo && a != above ==> a + s.free[a] <= lo || hi <= a
  {
    var lo, hi, above := MergedStart(s, offset), MergedEnd(s, offset), offset + s.used[offset];
    assert Apart(s.free, a, s.used, offset);
    assert a != lo ==> Apart(s.free, a, s.free, lo);
    assert a != above ==> Apart(s.free, a, s.free, above);
  }

  lemma ReleaseInverts(s: State, offset: int)
    requires Valid(s) && offset in s.used && Merges(s, offset)
    ensures InverseOfEnds(Release(s, offset).upper, Release(s, offset).free)
  {
    var t := Release(s, offset);
    var lo, hi, above := MergedStart(s, offset), MergedEnd(s, offset), offset + s.used[offset];
    forall g
      ensures EndRecorded(t.upper, t.free, g)
    {
      assert EndRecorded(s.upper, s.free, g) && EndRecorded(s.upper, s.free, lo) && EndRecorded(s.upper, s.free, above);
      ApartFromMerged(s, offset, g);
    }
    forall e
      ensures EndsBlock(t.upper, t.free, e)
    {
      assert EndsBlock(s.upper, s.free, e) && EndRecorded(s.upper, s.free, lo) && EndRecorded(s.upper, s.free, above);
    }
  }

  lemma ReleaseKeeps(s: State, offset: int)
    requires Valid(s) && offset in s.used
    ensures Valid(Release(s, offset))
  {
    var t := Release(s, offset);
    var lo, hi, above := MergedStart(s, offset), MergedEnd(s, offset), offset + s.used[offset];
    ReleaseMerges(s, offset);
    ReleaseTiles(s, offset);
    ReleaseInverts(s, offset);
    forall g
      ensures !Touches(t.free, g)
    {
      assert !Touches(s.free, g) && !Touches(s.free, above) && EndRecorded(s.upper, s.free, g);
      ApartFromMerged(s, offset, g);
    }
    assert Aligned(t.free, s.alignment) by {
      AlignedDifference(offset, s.used[offset], s.alignment);
      if above in s.free {
        AlignedDifference(above, s.free[above], s.alignment);
      }
      AlignedDifference(hi, lo, s.alignment);
    }
  }

  // ----- Histories -----

  lemma InitialIsValid(total: int, alignment: int)
    requires 0 < total < WORD && alignment >= 1 && total % alignment == 0
    ensures Valid(Initial(total, alignment))
  {
    var s := Initial(total, alignment);
    forall x | 0 <= x < total
      ensures Covered(s.free, x)
    {
      assert Covers(s.free, 0, x);
    }
    MultipleAligned(0, 0, alignment);
  }

  lemma Released(s: State, offset: int)
    requires Valid(s) && offset in s.used
    ensures var t := Release(s, offset);
            Valid(t) && t.used == s.used - {offset} && t.total == s.total && t.alignment == s.alignment
  {
    ReleaseKeeps(s, offset);
    ReleaseMerges(s, offset);
  }

  // Allocating and then freeing the block restores the whole state.
  lemma TakeThenRelease(s: State, f: int, size: int)
    requires Valid(s) && f in s.free && 0 < size <= s.free[f] && size % s.alignment == 0
    ensures Release(Take(s, f, size), f) == s
  {
    var t := Take(s, f, size);
    TakeKeeps(s, f, size);
    Released(t, f);
    assert Apart(s.free, f, s.used, f);
    assert t.used - {f} == s.used;
    DeterminedByUsed(Release(t, f), s);
  }

  // The order in which two blocks are freed does not matter.
  lemma ReleasesCommute(s: State, a: int, b: int)
    requires Valid(s) && a in s.used && b in s.used && a != b
    ensures b in Release(s, a).used && a in Release(s, b).used
    ensures Release(Release(s, a), b) == Release(Release(s, b), a)
  {
    Released(s, a);
    Released(s, b);
    Released(Release(s, a), b);
    Released(Release(s, b), a);
    assert s.used - {a} - {b} == s.used - {b} - {a};
    DeterminedByUsed(Release(Release(s, a), b), Release(Release(s, b), a));
  }

  // With nothing allocated there is the single initial free block.
  lemma NothingUsedIsInitial(s: State)
    requires Valid(s) && s.used == map[]
    ensures s == Initial(s.total, s.alignment)
  {
    InitialIsValid(s.total, s.alignment);
    DeterminedByUsed(s, Initial(s.total, s.alignment));
  }

  // ----- When a request can be met -----

  // `size` consecutive bytes from `x` on, none of them allocated.
  ghost predicate FreeRun(s: State, x: int, size: int) {
    && 0 <= x && x + size <= s.total
    && forall y :: x <= y < x + size ==> !Covered(s.used, y)
  }

  lemma FitsIffFreeRun(s: State, size: int)
    requires Valid(s) && size >= 1
    ensures Fits(s.free, size) <==> exists x :: FreeRun(s, x, size)
  {
    if Fits(s.free, size) {
      var f :| f in s.free && s.free[f] >= size;
      forall y | f <= y < f + size
        ensures !Covered(s.used, y)
      {
        assert Covers(s.free, f, y);
        NotInBoth(s, y);
      }
      assert FreeRun(s, f, size);
    }
    if exists x :: FreeRun(s, x, size) {
      var x :| FreeRun(s, x, size);
      RunInsideBlock(s, x, size);
    }
  }

  // A free run lies inside one free block, because free blocks do not touch.
  lemma RunInsideBlock(s: State, x: int, size: int)
    requires Valid(s) && size >= 1 && FreeRun(s, x, size)
    ensures exists f :: f in s.free && f <= x && x + size <= f + s.free[f]
  {
    assert !Covered(s.used, x);
    assert Covered(s.free, x) || Covered(s.used, x);
    var f :| Covers(s.free, f, x);
    var e := f + s.free[f];
    if e < s.total {
      FreeEndsAtUsed(s, f);
      assert Covers(s.used, e, e) && Covered(s.used, e);
    }
  }

  ghost predicate IsLargest(free: Blocks, size: int) {
    if free == map[] then size == 0
    else (exists f :: f in free && free[f] == size) && forall f :: f in free ==> free[f] <= size
  }

  lemma FitsIffAtMostLargest(s: State, size: int, largest: int)
    requires Valid(s) && size >= 1 && IsLargest(s.free, largest)
    ensures Fits(s.free, size) <==> size <= largest
  {
    if s.free != map[] && size <= largest {
      var f :| f in s.free && s.free[f] == largest;
    }
  }

  // ----- 64-bit rounding -----

  lemma RoundedIsAligned(size: int, alignment: int)
    requires alignment >= 1 && 0 < size < WORD && !RoundingWraps(size, alignment)
    ensures var n := Rounded(size, alignment); size <= n < size + alignment && n % alignment == 0
  {
    if size % alignment != 0 {
      MultipleAligned(size + (alignment - size % alignment), size / alignment + 1, alignment);
    }
  }

  lemma RemainderBounds(size: int, alignment: int)
    requires alignment >= 1
    ensures 0 <= size % alignment < alignment
  {
  }

  lemma SmallRemainder(n: int, alignment: int)
    requires 0 < n < alignment
    ensures n % alignment == n
  {
  }

  // A request whose rounding wraps becomes smaller than the alignment.
  lemma WrappedIsMisaligned(size: int, alignment: int)
    requires 1 <= alignment < WORD && 0 < size < WORD && RoundingWraps(size, alignment)
    ensures var n := Rounded(size, alignment); n == 0 || (0 < n < alignment && n % alignment != 0)
  {
    var raw := size + (alignment - size % alignment);
    RemainderBounds(size, alignment);
    assert WORD <= raw < WORD + alignment;
    assert raw % WORD == raw - WORD;
    if raw > WORD {
      SmallRemainder(raw - WORD, alignment);
    }
  }

  // Serving a request keeps the state valid exactly when its rounding does not wrap.
  lemma TakeRoundedKeepsIff(s: State, f: int, size: int)
    requires Valid(s) && 0 < size < WORD && IsBestFit(s.free, Rounded(size, s.alignment), f)
    ensures Valid(Take(s, f, Rounded(size, s.alignment))) <==> !RoundingWraps(size, s.alignment)
  {
    var n := Rounded(size, s.alignment);
    if RoundingWraps(size, s.alignment) {
      AlignmentFitsWord(s);
      WrappedIsMisaligned(size, s.alignment);
      var t := Take(s, f, n);
      assert f in t.used && t.used[f] == n;
    } else {
      RoundedIsAligned(size, s.alignment);
      TakeKeeps(s, f, n);
    }
  }

  // The largest 64-bit request wraps to zero, and serving it records a block of no bytes.
  lemma WrapExample()
    ensures RoundingWraps(WORD - 1, 8) && Rounded(WORD - 1, 8) == 0
    ensures IsBestFit(Initial(64, 8).free, 0, 0) && !Valid(Take(Initial(64, 8), 0, 0))
  {
    InitialIsValid(64, 8);
    TakeRoundedKeepsIff(Initial(64, 8), 0, WORD - 1);
  }

  lemma AlignmentFitsWord(s: State)
    requires Valid(s)
    ensures s.alignment < WORD
  {
    var k := s.total / s.alignment;
    assert s.total == k * s.alignment;
    if s.alignment > s.total {
      MultipleSign(k, s.alignment);
    }
  }

  // ----- The sizes add up -----

  ghost function Cells(m: Blocks, total: int): set<int> {
    set x | 0 <= x < total && Covered(m, x)
  }

  ghost function Interval(a: int, b: int): (r: set<int>)
    ensures forall x :: x in r <==> a <= x < b
    ensures |r| == if a <= b then b - a else 0
    decreases b - a
  {
    if a < b then Interval(a, b - 1) + {b - 1} else {}
  }

  lemma SeparateWithout(m: Blocks, total: int, k: int)
    requires Within(m, total) && Separate(m)
    ensures Within(m - {k}, total) && Separate(m - {k})
  {
    forall a, b | a != b
      ensures Apart(m - {k}, a, m - {k}, b)
    {
      assert Apart(m, a, m, b);
    }
  }

  lemma {:induction false} SumIsCells(m: Blocks, total: int)
    requires Within(m, total) && Separate(m)
    ensures Sum(m) == |Cells(m, total)|
    decreases |m|
  {
    if m == map[] {
      assert Cells(m, total) == {};
    } else {
      var k := SomeElement(m.Keys);
      MapWithout(m, k);
      SumWithout(m, k);
      SeparateWithout(m, total, k);
      SumIsCells(m - {k}, total);
      CellsWithout(m, total, k);
    }
  }

  lemma CellWithout(m: Blocks, k: int, x: int)
    requires Separate(m) && k in m
    ensures Covered(m, x) <==> Covered(m - {k}, x) || Covers(m, k, x)
    ensures Covered(m - {k}, x) ==> !Covers(m, k, x)
  {
    if Covered(m, x) {
      var a :| Covers(m, a, x);
      assert a != k ==> Covers(m - {k}, a, x);
    }
    if Covered(m - {k}, x) {
      var a :| Covers(m - {k}, a, x);
      assert Covers(m, a, x) && Apart(m, a, m, k);
    }
  }

  lemma CellWithoutIn(m: Blocks, total: int, k: int, x: int)
    requires Within(m, total) && Separate(m) && k in m
    ensures x in Cells(m, total) <==> x in Cells(m - {k}, total) || k <= x < k + m[k]
    ensures x in Cells(m - {k}, total) ==> !(k <= x < k + m[k])
  {
    CellWithout(m, k, x);
  }

  lemma CellsWithout(m: Blocks, total: int, k: int)
    requires Within(m, total) && Separate(m) && k in m
    ensures Cells(m, total) == Cells(m - {k}, total) + Interval(k, k + m[k])
    ensures Cells(m - {k}, total) !! Interval(k, k + m[k])
  {
    var all, rest, block := Cells(m, total), Cells(m - {k}, total), Interval(k, k + m[k]);
    forall x
      ensures (x in all <==> x in rest || x in block) && !(x in rest && x in block)
    {
      CellWithoutIn(m, total, k, x);
    }
  }

  lemma SizesAddUp(s: State)
    requires Tiles(s)
    ensures 0 < s.total ==> Sum(s.used) + Sum(s.free) == s.total
  {
    if 0 < s.total {
      SumIsCells(s.used, s.total);
      SumIsCells(s.free, s.total);
      forall x | 0 <= x < s.total
        ensures !(Covered(s.free, x) && Covered(s.used, x)) && (Covered(s.free, x) || Covered(s.used, x))
      {
        NotInBoth(s, x);
      }
      assert Interval(0, s.total) == Cells(s.used, s.total) + Cells(s.free, s.total);
      assert Cells(s.used, s.total) !! Cells(s.free, s.total);
    }
  }

  // ----- What the consistency check finds -----

  // The assertions about two consecutive allocated blocks.
  predicate UsedPairChecks(free: Blocks, used: Blocks, a: int, b: int)
    requires a in used
  {
    var end := a + used[a];
    end <= b && (end < b ==> end in free && free[end] == b - end)
  }

  // The assertions about two consecutive free blocks.
  predicate FreePairChecks(free: Blocks, used: Blocks, upper: map<int, int>, total: int, f: int, g: int)
    requires f in free
  {
    var end := f + free[f];
    end < g && (end in used || end == total) && end in upper && upper[end] == f
  }

  ghost predicate Neighbours(m: Blocks, a: int, b: int) {
    a in m && b in m && a < b && forall c :: c in m ==> c <= a || b <= c
  }

  // Between two neighbouring allocated blocks there is nothing, or one free block that fills the gap.
  lemma GapIsFree(s: State, a: int, b: int)
    requires Valid(s) && Neighbours(s.used, a, b)
    ensures UsedPairChecks(s.free, s.used, a, b)
  {
    var e := a + s.used[a];
    assert Apart(s.used, a, s.used, b);
    if e < b {
      NotUsedInGap(s, a, b, e);
      assert Covered(s.free, e) || Covered(s.used, e);
      var g :| Covers(s.free, g, e);
      assert Apart(s.free, g, s.used, a) && Apart(s.free, g, s.used, b);
      if g + s.free[g] < s.total {
        FreeEndsAtUsed(s, g);
      }
    }
  }

  lemma NotUsedInGap(s: State, a: int, b: int, x: int)
    requires Valid(s) && Neighbours(s.used, a, b) && a + s.used[a] <= x < b
    ensures !Covered(s.used, x)
  {
    forall c
      ensures !Covers(s.used, c, x)
    {
      assert c != a ==> Apart(s.used, c, s.used, a);
    }
  }

  // Two neighbouring free blocks do not touch, the lower one ends at an allocated block, and its end is recorded.
  lemma FreeNeighbours(s: State, f: int, g: int)
    requires Valid(s) && Neighbours(s.free, f, g)
    ensures FreePairChecks(s.free, s.used, s.upper, s.total, f, g)
  {
    assert Apart(s.free, f, s.free, g) && !Touches(s.free, f) && EndRecorded(s.upper, s.free, f);
    FreeEndsAtUsed(s, f);
  }

  // ----- The program -----

  class Allocator {
    var free: Blocks
    var used: Blocks
    var upper: map<int, int>
    const alignment: int
    const total: int

    ghost function Now(): State
      reads this
    {
      State(free, used, upper, total, alignment)
    }

    constructor (totalSize: int, inAlignment: int)
      requires 0 < totalSize < WORD && inAlignment >= 1 && totalSize % inAlignment == 0
      ensures Valid(Now()) && Now() == Initial(totalSize, inAlignment)
    {
      alignment, total := inAlignment, totalSize;
      free, used, upper := map[0 := totalSize], map[], map[totalSize := 0];
      new;
      InitialIsValid(totalSize, inAlignment);
    }

    // The first key of the first sufficient size in the index from sizes to keys.
    method FindBestFit(size: int) returns (r: Option<int>)
      ensures r.None? <==> !Fits(free, size)
      ensures r.Some? ==> IsBestFit(free, size, r.value)
    {
      r := None;
      ghost var m := 0;
      var keys := Sorted(free.Keys);
      for i := 0 to |keys|
        invariant r.None? ==> forall j :: 0 <= j < i ==> free[keys[j]] < size
        invariant r.Some? ==> 0 <= m < i && r.value == keys[m] && free[keys[m]] >= size
        invariant r.Some? ==> forall j :: 0 <= j < m && free[keys[j]] >= size ==> free[keys[m]] < free[keys[j]]
        invariant r.Some? ==> forall j :: m <= j < i && free[keys[j]] >= size ==> free[keys[m]] <= free[keys[j]]
      {
        var k := keys[i];
        if free[k] >= size && (r.None? || free[k] < free[r.value]) {
          r := Some(k);
          m := i;
        }
      }
      forall g | g in free && free[g] >= size
        ensures r.Some? && (free[r.value] < free[g] || (free[r.value] == free[g] && r.value <= g))
      {
        var j :| 0 <= j < |keys| && keys[j] == g;
      }
    }

    // `None` stands for the `bad_alloc` exception.
    method Allocate(size: int) returns (r: Option<int>)
      requires Valid(Now()) && 0 <= size < WORD
      modifies this
      ensures size == 0 ==> r == Some(total) && Now() == old(Now())
      ensures size != 0 && r.None? ==> Now() == old(Now())
      ensures size != 0 ==> (r.None? <==> !Fits(old(free), Rounded(size, alignment)))
      ensures size != 0 && r.Some? ==> IsBestFit(old(free), Rounded(size, alignment), r.value) &&
                                       Now() == Take(old(Now()), r.value, Rounded(size, alignment))
      ensures Valid(Now()) <==> size == 0 || r.None? || !RoundingWraps(size, alignment)
      // The block recorded is the request up to the next multiple of the alignment, unless that exceeds a word.
      ensures size != 0 && r.Some? ==> r.value in used && used == old(used)[r.value := used[r.value]]
      ensures size != 0 && r.Some? && size + alignment <= 0x1_0000_0000_0000_0000 ==>
                size <= used[r.value] < size + alignment && used[r.value] % alignment == 0
    {
      if size == 0 {
        return Some(total);
      }
      var inSize := size;
      if inSize % alignment != 0 {
        inSize := (inSize + (alignment - inSize % alignment)) % WORD;
      }
      r := FindBestFit(inSize);
      if r.None? {
        return;
      }
      ghost var s := Now();
      TakeRoundedKeepsIff(s, r.value, size);
      if !RoundingWraps(size, alignment) {
        RoundedIsAligned(size, alignment);
      }
      TakeFrom(r.value, inSize);
    }

    method TakeFrom(blockOffset: int, inSize: int)
      requires blockOffset in free && inSize <= free[blockOffset]
      modifies `free, `upper, `used
      ensures Now() == Take(old(Now()), blockOffset, inSize)
    {
      ghost var s := Now();
      var blockSize := free[blockOffset];
      free := free - {blockOffset};
      if inSize < blockSize {
        free := free[blockOffset + inSize := blockSize - inSize];
        upper := upper[blockOffset + blockSize := blockOffset + inSize];
      } else {
        upper := upper - {blockOffset + inSize};
      }
      used := used[blockOffset := inSize];
      assert Now() == Take(s, blockOffset, inSize);
    }

    // `found` is false where the source's assertion that the block is allocated fails.
    method FreeAtOffset(offset: int) returns (found: bool)
      requires Valid(Now())
      modifies this
      ensures Valid(Now())
      ensures found <==> offset == total || offset in old(used)
      ensures used == old(used) - {offset}
      ensures offset in old(used) ==> Now() == Release(old(Now()), offset)
      ensures offset !in old(used) ==> Now() == old(Now())
    {
      if offset == total {
        return true;
      }
      if offset !in used {
        return false;
      }
      ReleaseKeeps(Now(), offset);
      Glom(offset);
      found := true;
    }

    // The body of `freeAtOffset` once the block is known to be allocated.
    method Glom(offset: int)
      requires offset in used
      modifies this
      ensures Now() == Release(old(Now()), offset)
    {
      var blockOffset, bytes := offset, used[offset];
      used := used - {blockOffset};
      if blockOffset + bytes in free {
        var sizeOfBlockToGlom := free[blockOffset + bytes];
        free := free - {blockOffset + bytes};
        upper := upper - {blockOffset + bytes + sizeOfBlockToGlom};
        bytes := bytes + sizeOfBlockToGlom;
      }
      if blockOffset in upper {
        var newOffset := upper[blockOffset];
        upper := upper - {blockOffset};
        free := free - {newOffset};
        bytes := bytes + (blockOffset - newOffset);
        blockOffset := newOffset;
      }
      free := free[blockOffset := bytes];
      upper := upper[blockOffset + bytes := blockOffset];
    }

    method MaxAllocatableBlockSize() returns (size: int)
      requires Valid(Now())
      ensures IsLargest(free, size)
    {
      size := 0;
      ghost var where := 0;
      var keys := Sorted(free.Keys);
      for i := 0 to |keys|
        invariant i == 0 ==> size == 0
        invariant i > 0 ==> where in free && free[where] == size
        invariant forall j :: 0 <= j < i ==> free[keys[j]] <= size
      {
        if i == 0 || free[keys[i]] > size {
          size := free[keys[i]];
          where := keys[i];
        }
      }
      forall f | f in free
        ensures free[f] <= size
      {
        var j :| 0 <= j < |keys| && keys[j] == f;
      }
      if free != map[] {
        ghost var f := SomeElement(free.Keys);
        ghost var j :| 0 <= j < |keys| && keys[j] == f;
        assert where in free && free[where] == size;
      }
    }

    // The loop over the allocated blocks: their total, and whether every assertion about neighbours holds.
    method CheckUsedBlocks() returns (ok: bool, bytes: int)
      requires Valid(Now())
      ensures ok && bytes == Sum(used)
    {
      ok, bytes := true, 0;
      var keys := Sorted(used.Keys);
      ghost var rest := used;
      for i := 0 to |keys|
        invariant ok && bytes + Sum(rest) == Sum(used)
        invariant Remaining(used, keys, i, rest)
      {
        var it := keys[i];
        bytes := bytes + used[it];
        rest := TakeNext(used, keys, i, rest);
        if i + 1 < |keys| {
          var it2 := keys[i + 1];
          AscendingNeighbours(used, keys, i);
          GapIsFree(Now(), it, it2);
          ok := ok && UsedPairChecks(free, used, it, it2);
        }
      }
      NoneRemaining(used, keys, rest);
    }

    // The loop over the free blocks.
    method CheckFreeBlocks() returns (ok: bool, bytes: int)
      requires Valid(Now())
      ensures ok && bytes == Sum(free)
    {
      ok, bytes := true, 0;
      var keys := Sorted(free.Keys);
      ghost var rest := free;
      for i := 0 to |keys|
        invariant ok && bytes + Sum(rest) == Sum(free)
        invariant Remaining(free, keys, i, rest)
      {
        var it := keys[i];
        bytes := bytes + free[it];
        rest := TakeNext(free, keys, i, rest);
        if i + 1 < |keys| {
          var it2 := keys[i + 1];
          AscendingNeighbours(free, keys, i);
          FreeNeighbours(Now(), it, it2);
          ok := ok && FreePairChecks(free, used, upper, total, it, it2);
        }
      }
      NoneRemaining(free, keys, rest);
    }

    // Every assertion of the consistency check holds.
    method CheckInternalConsistency() returns (consistent: bool)
      requires Valid(Now())
      ensures consistent
    {
      var usedOk, bytesUsed := CheckUsedBlocks();
      var freeOk, bytesFree := CheckFreeBlocks();
      SizesAddUp(Now());
      consistent := usedOk && freeOk && bytesUsed + bytesFree == total;
    }
  }

  // `rest` holds the blocks of `m` from the `i`-th key on.
  ghost predicate Remaining(m: Blocks, keys: seq<int>, i: nat, rest: Blocks) {
    && i <= |keys|
    && (forall j :: i <= j < |keys| ==> keys[j] in rest && keys[j] in m && rest[keys[j]] == m[keys[j]])
    && (forall k :: k in rest ==> exists j :: i <= j < |keys| && keys[j] == k)
  }

  lemma TakeNext(m: Blocks, keys: seq<int>, i: nat, rest: Blocks) returns (rest1: Blocks)
    requires Ascending(keys) && Remaining(m, keys, i, rest) && i < |keys|
    ensures Remaining(m, keys, i + 1, rest1) && Sum(rest) == m[keys[i]] + Sum(rest1)
  {
    var k := keys[i];
    rest1 := rest - {k};
    SumWithout(rest, k);
  }

  lemma NoneRemaining(m: Blocks, keys: seq<int>, rest: Blocks)
    requires Remaining(m, keys, |keys|, rest)
    ensures Sum(rest) == 0
  {
    if rest.Keys != {} {
      var k := SomeElement(rest.Keys);
    }
    assert rest.Keys == {};
  }

  lemma AscendingNeighbours(m: Blocks, keys: seq<int>, i: nat)
    requires Ascending(keys) && i + 1 < |keys|
    requires (forall j :: 0 <= j < |keys| ==> keys[j] in m) && forall k :: k in m ==> exists j :: 0 <= j < |keys| && keys[j] == k
    ensures Neighbours(m, keys[i], keys[i + 1])
  {
    forall c | c in m
      ensures c <= keys[i] || keys[i + 1] <= c
    {
      var j :| 0 <= j < |keys| && keys[j] == c;
    }
  }
}
