/** The accounting of MemoryHeap.cpp over an abstract mspace: what the system and the mspace answer is a parameter. */
module MemoryHeap {
  import opened Collections

  type Byte(==, !new)

  datatype AllocInfo = AllocInfo(size: int, largeAlloc: bool)

  type Pages = map<int, AllocInfo>

  // The answer to a request for memory: the address and what the memory holds, as far as it may be used.
  datatype Answer = Refused | Block(addr: int, bytes: seq<Byte>)

  // What a request returns: a null pointer, a block, or an assertion that stops the program.
  datatype Outcome = Null | Pointer(addr: int) | Raised

  function Min(a: int, b: int): int {
    if a < b then a else b
  }

  function Sizes(pages: Pages): map<int, int> {
    map p | p in pages :: pages[p].size
  }

  function Lengths(contents: map<int, seq<Byte>>): map<int, int> {
    map p | p in contents :: |contents[p]|
  }

  // Copying the first n bytes of a block over another.
  function Overwritten(bytes: seq<Byte>, was: seq<Byte>, n: int): (now: seq<Byte>)
    requires 0 <= n <= |was| && n <= |bytes|
    ensures |now| == |bytes| && now[..n] == was[..n] && now[n..] == bytes[n..]
  {
    was[..n] + bytes[n..]
  }

  // ----- Ranges of pages -----

  // The range is covered by recorded pages, one after the other.
  predicate Tiled(pages: Pages, addr: int, size: int)
    decreases |pages|
  {
    size == 0 ||
    (addr in pages && 0 < pages[addr].size <= size &&
     (MapWithout(pages, addr); Tiled(pages - {addr}, addr + pages[addr].size, size - pages[addr].size)))
  }

  function Untiled(pages: Pages, addr: int, size: int): Pages
    requires Tiled(pages, addr, size)
    decreases |pages|
  {
    if size == 0 then pages
    else
      MapWithout(pages, addr);
      Untiled(pages - {addr}, addr + pages[addr].size, size - pages[addr].size)
  }

  lemma SizesWithout(pages: Pages, addr: int)
    requires addr in pages
    ensures Sum(Sizes(pages - {addr})) == Sum(Sizes(pages)) - pages[addr].size
  {
    SumWithout(Sizes(pages), addr);
    assert Sizes(pages - {addr}) == Sizes(pages) - {addr};
  }

  lemma SizesWith(pages: Pages, addr: int, info: AllocInfo)
    requires addr !in pages
    ensures Sum(Sizes(pages[addr := info])) == Sum(Sizes(pages)) + info.size
  {
    SumWith(Sizes(pages), addr, info.size);
    assert Sizes(pages[addr := info]) == Sizes(pages)[addr := info.size];
  }

  lemma LengthsWithout(contents: map<int, seq<Byte>>, p: int)
    requires p in contents
    ensures Sum(Lengths(contents - {p})) == Sum(Lengths(contents)) - |contents[p]|
  {
    SumWithout(Lengths(contents), p);
    assert Lengths(contents - {p}) == Lengths(contents) - {p};
  }

  lemma LengthsWith(contents: map<int, seq<Byte>>, p: int, bytes: seq<Byte>)
    requires p !in contents
    ensures Sum(Lengths(contents[p := bytes])) == Sum(Lengths(contents)) + |bytes|
  {
    SumWith(Lengths(contents), p, |bytes|);
    assert Lengths(contents[p := bytes]) == Lengths(contents)[p := |bytes|];
  }

  // Taking away a range takes its size off the total and leaves the other pages as they were.
  lemma {:induction false} UntiledSum(pages: Pages, addr: int, size: int)
    requires Tiled(pages, addr, size)
    ensures Sum(Sizes(Untiled(pages, addr, size))) == Sum(Sizes(pages)) - size
    ensures forall p :: p in Untiled(pages, addr, size) ==> p in pages && Untiled(pages, addr, size)[p] == pages[p]
    ensures forall p :: p in pages && p !in Untiled(pages, addr, size) ==> addr <= p < addr + size
    decreases |pages|
  {
    if size != 0 {
      MapWithout(pages, addr);
      SizesWithout(pages, addr);
      UntiledSum(pages - {addr}, addr + pages[addr].size, size - pages[addr].size);
    }
  }

  // ----- What every run keeps -----

  // Every page and block has a size, and a large allocation is at least half a page long and is a page of its own.
  ghost predicate LargeAreLarge(pages: Pages, contents: map<int, seq<Byte>>, pageSize: int) {
    && (forall p :: p in pages ==> pages[p].size > 0)
    && (forall p :: p in contents ==> |contents[p]| > 0)
    && (forall p :: p in pages && pages[p].largeAlloc ==>
          pages[p].size >= pageSize / 2 && p in contents && |contents[p]| == pages[p].size)
  }

  ghost predicate Counted(pages: Pages, contents: map<int, seq<Byte>>, heapSize: int, bytesUsed: int) {
    heapSize == Sum(Sizes(pages)) && bytesUsed == Sum(Lengths(contents))
  }

  lemma OnePage(pages: Pages, p: int)
    requires p in pages && pages[p].size > 0
    ensures Tiled(pages, p, pages[p].size) && Untiled(pages, p, pages[p].size) == pages - {p}
  {
  }

  // A large allocation may be moved or resized, as long as it stays half a page long.
  lemma ResizedIsLarge(pages: Pages, contents: map<int, seq<Byte>>, pageSize: int, p: int, addr: int, bytes: seq<Byte>)
    requires LargeAreLarge(pages, contents, pageSize) && IsLarge(pages, p) && |bytes| >= pageSize / 2 > 0
    requires addr == p || (addr !in pages && addr !in contents)
    ensures LargeAreLarge((pages - {p})[addr := AllocInfo(|bytes|, true)], (contents - {p})[addr := bytes], pageSize)
  {
  }

  predicate IsLarge(pages: Pages, p: int) {
    p in pages && pages[p].largeAlloc
  }

  // The bytes that both blocks have, up to `size`, are the same.
  ghost predicate Survives(was: seq<Byte>, now: seq<Byte>, size: int) {
    forall i :: 0 <= i < size && i < |was| && i < |now| ==> now[i] == was[i]
  }

  class Heap {
    const pageSize: int
    var pages: Pages
    var bytesUsed: int
    var heapSize: int
    var initialized: bool
    // The live blocks and what they hold; the mspace knows those that are not large.
    var contents: map<int, seq<Byte>>

    constructor (pageSize: int)
      requires pageSize >= 2
      ensures Valid() && this.pageSize == pageSize && contents == map[] && pages == map[] && !initialized
    {
      this.pageSize := pageSize;
      pages := map[];
      bytesUsed := 0;
      heapSize := 0;
      initialized := false;
      contents := map[];
      new;
      assert Sizes(pages) == map[] && Lengths(contents) == map[];
    }

    ghost predicate Valid()
      reads this
    {
      && pageSize >= 2
      && LargeAreLarge(pages, contents, pageSize)
      && Counted(pages, contents, heapSize, bytesUsed)
      && (!initialized ==> contents == map[] && pages == map[])
    }

    method MarkAllocated(addr: int, size: int, largeAlloc: bool)
      requires size > 0 && addr !in pages && heapSize == Sum(Sizes(pages))
      modifies this`pages, this`heapSize
      ensures pages == old(pages)[addr := AllocInfo(size, largeAlloc)] && heapSize == Sum(Sizes(pages))
    {
      SizesWith(pages, addr, AllocInfo(size, largeAlloc));
      pages := pages[addr := AllocInfo(size, largeAlloc)];
      heapSize := heapSize + size;
    }

    // The lookups and the assertion of the loop cannot fail on a range that recorded pages cover.
    method MarkUnallocated(addr: int, size: int)
      requires Tiled(pages, addr, size) && heapSize == Sum(Sizes(pages))
      modifies this`pages, this`heapSize
      ensures pages == Untiled(old(pages), addr, size) && heapSize == Sum(Sizes(pages))
    {
      UntiledSum(pages, addr, size);
      var next, left := addr, size;
      while left > 0
        invariant left >= 0 && Tiled(pages, next, left)
        invariant Untiled(pages, next, left) == Untiled(old(pages), addr, size)
        invariant heapSize - left == old(heapSize) - size
        decreases left
      {
        var info := pages[next];
        assert info.size <= left;
        pages := pages - {next};
        heapSize := heapSize - info.size;
        left := left - info.size;
        next := next + info.size;
      }
    }

    // ----- What the mspace calls back -----

    method MMap(size: int, answer: Answer) returns (mapped: bool)
      requires Valid() && initialized && size > 0 && (answer.Block? ==> answer.addr !in pages)
      modifies this`pages, this`heapSize
      ensures Valid() && mapped == answer.Block?
      ensures pages == if mapped then old(pages)[answer.addr := AllocInfo(size, false)] else old(pages)
    {
      mapped := answer.Block?;
      if mapped {
        MarkAllocated(answer.addr, size, false);
      }
    }

    // The mspace gives back only pages of its own.
    method MUnmap(addr: int, size: int, refused: bool)
      requires Valid() && Tiled(pages, addr, size)
      requires forall p :: IsLarge(pages, p) ==> p in Untiled(pages, addr, size)
      modifies this`pages, this`heapSize
      ensures Valid() && pages == if refused then old(pages) else Untiled(old(pages), addr, size)
    {
      if !refused {
        UntiledSum(pages, addr, size);
        MarkUnallocated(addr, size);
      }
    }

    // A refused remapping changes nothing; otherwise the old pages go and one new page comes, in this order.
    method MRemap(addr: int, oldSize: int, newSize: int, answer: Answer) returns (moved: bool)
      requires Valid() && initialized && newSize > 0 && Tiled(pages, addr, oldSize)
      requires forall p :: IsLarge(pages, p) ==> p in Untiled(pages, addr, oldSize)
      requires answer.Block? ==> answer.addr !in Untiled(pages, addr, oldSize)
      modifies this`pages, this`heapSize
      ensures Valid() && moved == (oldSize != newSize && answer.Block?)
      ensures pages == if moved then Untiled(old(pages), addr, oldSize)[answer.addr := AllocInfo(newSize, false)]
                       else old(pages)
    {
      moved := oldSize != newSize && answer.Block?;
      if moved {
        UntiledSum(pages, addr, oldSize);
        MarkUnallocated(addr, oldSize);
        MarkAllocated(answer.addr, newSize, false);
      }
    }

    // ----- The operations -----

    // What may be answered to a request: memory not in use, of the size asked for or, from the mspace, at least that.
    ghost predicate Suits(answer: Answer, size: int)
      reads this
    {
      answer.Block? ==>
        && answer.addr !in contents
        && if size >= pageSize then answer.addr !in pages && |answer.bytes| == size
           else |answer.bytes| >= size && answer.bytes != []
    }

    method Initialize(firstPage: int)
      requires Valid() && !initialized
      modifies this`pages, this`heapSize, this`initialized
      ensures Valid() && initialized && pages == map[firstPage := AllocInfo(pageSize, false)]
    {
      initialized := true;
      MarkAllocated(firstPage, pageSize, false);
    }

    method Malloc(size: int, firstPage: int, answer: Answer) returns (r: Outcome)
      requires Valid() && size >= 0 && Suits(answer, size)
      requires !initialized && answer.Block? && size >= pageSize ==> answer.addr != firstPage
      modifies this
      ensures Valid() && initialized
      ensures answer.Refused? ==> r == Null && contents == old(contents)
      ensures answer.Block? ==> r == Pointer(answer.addr) && contents == old(contents)[answer.addr := answer.bytes]
      ensures var before := if old(initialized) then old(pages) else map[firstPage := AllocInfo(pageSize, false)];
              pages == if answer.Block? && size >= pageSize then before[answer.addr := AllocInfo(size, true)] else before
    {
      if !initialized {
        Initialize(firstPage);
      }
      if answer.Refused? {
        return Null;
      }
      Enter(answer.addr, answer.bytes, size);
      r := Pointer(answer.addr);
    }

    // A block handed out, large from one page size on.
    method Enter(addr: int, bytes: seq<Byte>, size: int)
      requires Valid() && initialized && addr !in contents
      requires if size >= pageSize then addr !in pages && |bytes| == size else |bytes| >= 1
      modifies this
      ensures Valid() && initialized && contents == old(contents)[addr := bytes]
      ensures pages == if size >= pageSize then old(pages)[addr := AllocInfo(size, true)] else old(pages)
    {
      LengthsWith(contents, addr, bytes);
      if size >= pageSize {
        MarkAllocated(addr, size, true);
        bytesUsed := bytesUsed + size;
      } else {
        bytesUsed := bytesUsed + |bytes|;
      }
      contents := contents[addr := bytes];
    }

    method MSize(ptr: int) returns (size: int)
      requires Valid() && (initialized ==> ptr in contents)
      ensures size == if ptr in contents then |contents[ptr]| else 0
    {
      if !initialized {
        return 0;
      }
      if IsLarge(pages, ptr) {
        return pages[ptr].size;
      }
      size := |contents[ptr]|;
    }

    // Forgetting a large allocation, which is a page of its own.
    method Forget(ptr: int)
      requires Valid() && IsLarge(pages, ptr)
      modifies this`pages, this`heapSize, this`bytesUsed, this`contents
      ensures Valid() && contents == old(contents) - {ptr} && pages == old(pages) - {ptr}
    {
      LengthsWithout(contents, ptr);
      var size := pages[ptr].size;
      MarkUnallocated(ptr, size);
      bytesUsed := bytesUsed - size;
      contents := contents - {ptr};
    }

    method Free(ptr: int)
      requires Valid() && (initialized ==> ptr in contents)
      modifies this
      ensures Valid() && initialized == old(initialized)
      ensures contents == old(contents) - {ptr}
      ensures pages == if ptr in old(pages) && old(pages)[ptr].largeAlloc then old(pages) - {ptr} else old(pages)
    {
      if !initialized {
        return;
      }
      if IsLarge(pages, ptr) {
        Forget(ptr);
        return;
      }
      LengthsWithout(contents, ptr);
      bytesUsed := bytesUsed - |contents[ptr]|;
      contents := contents - {ptr};
    }

    // The program that detaches a large allocation frees it itself.
    method DetachLargeAlloc(ptr: int) returns (ok: bool)
      requires Valid()
      modifies this
      ensures Valid() && ok == (ptr in old(pages) && old(pages)[ptr].largeAlloc) && initialized == old(initialized)
      ensures contents == if ok then old(contents) - {ptr} else old(contents)
      ensures pages == if ok then old(pages) - {ptr} else old(pages)
    {
      ok := IsLarge(pages, ptr);
      if ok {
        Forget(ptr);
      }
    }

    // A block moved or resized by the system or the mspace keeps what it held.
    ghost predicate Resizes(answer: Answer, ptr: int, size: int)
      requires size >= 0
      reads this
    {
      answer.Block? && ptr in contents ==>
        && (answer.addr == ptr || answer.addr !in contents)
        && (if IsLarge(pages, ptr)
            then (answer.addr == ptr || answer.addr !in pages) && |answer.bytes| == size
            else |answer.bytes| >= size && answer.bytes != [])
        && forall i :: 0 <= i < size && i < |contents[ptr]| ==> answer.bytes[i] == contents[ptr][i]
    }

    predicate MovesPool(ptr: int, size: int)
      reads this
    {
      if IsLarge(pages, ptr) then size < pageSize / 2 else size >= pageSize
    }

    // A new block in the other pool, a copy, and the old block freed.
    method MoveToOtherPool(ptr: int, size: int, answer: Answer) returns (r: Outcome)
      requires Valid() && initialized && size >= 0 && ptr in contents
      requires MovesPool(ptr, size) && Suits(answer, size)
      modifies this
      ensures Valid() && initialized
      ensures answer.Refused? ==> r == Raised && contents == old(contents) && pages == old(pages)
      ensures answer.Block? ==>
              && r == Pointer(answer.addr) && answer.addr != ptr
              && r.addr in contents && contents == (old(contents) - {ptr})[r.addr := contents[r.addr]]
              && |contents[r.addr]| == |answer.bytes| >= size
              && Survives(old(contents)[ptr], contents[r.addr], size)
      ensures answer.Block? ==>
              pages == if ptr in old(pages) && old(pages)[ptr].largeAlloc then old(pages) - {ptr}
                       else old(pages)[answer.addr := AllocInfo(size, true)]
    {
      var n := Min(|contents[ptr]|, size);
      if IsLarge(pages, ptr) {
        // The assertion of the source: the whole of the new block is copied from the old one.
        assert size < pages[ptr].size && n == size;
      }
      r := Malloc(size, 0, answer);
      if r == Null {
        return Raised;
      }
      var was, now := contents[ptr], contents[r.addr];
      Overwrite(r.addr, Overwritten(now, was, n));
      Free(ptr);
    }

    method Overwrite(ptr: int, bytes: seq<Byte>)
      requires Valid() && ptr in contents && |bytes| == |contents[ptr]|
      modifies this`contents
      ensures Valid() && contents == old(contents)[ptr := bytes]
    {
      assert Lengths(contents[ptr := bytes]) == Lengths(contents);
      contents := contents[ptr := bytes];
    }

    method ResizeLarge(ptr: int, size: int, answer: Answer)
      requires Valid() && IsLarge(pages, ptr) && size >= pageSize / 2 && answer.Block? && Resizes(answer, ptr, size)
      modifies this
      ensures Valid() && initialized && contents == (old(contents) - {ptr})[answer.addr := answer.bytes]
      ensures pages == (old(pages) - {ptr})[answer.addr := AllocInfo(size, true)]
    {
      var before := pages[ptr].size;
      LengthsWithout(contents, ptr);
      LengthsWith(contents - {ptr}, answer.addr, answer.bytes);
      ResizedIsLarge(pages, contents, pageSize, ptr, answer.addr, answer.bytes);
      OnePage(pages, ptr);
      MarkUnallocated(ptr, before);
      MarkAllocated(answer.addr, size, true);
      bytesUsed := bytesUsed + (size - before);
      contents := (contents - {ptr})[answer.addr := answer.bytes];
    }

    method ResizeSmall(ptr: int, size: int, answer: Answer)
      requires Valid() && initialized && size >= 0 && ptr in contents && !IsLarge(pages, ptr)
      requires answer.Block? && Resizes(answer, ptr, size)
      modifies this
      ensures Valid() && initialized && contents == (old(contents) - {ptr})[answer.addr := answer.bytes]
      ensures pages == old(pages)
    {
      LengthsWithout(contents, ptr);
      LengthsWith(contents - {ptr}, answer.addr, answer.bytes);
      bytesUsed := bytesUsed + |answer.bytes| - |contents[ptr]|;
      contents := (contents - {ptr})[answer.addr := answer.bytes];
    }

    method Realloc(ptr: int, size: int, answer: Answer) returns (r: Outcome)
      requires Valid() && size >= 0 && (initialized ==> ptr in contents)
      requires if MovesPool(ptr, size) then Suits(answer, size) else Resizes(answer, ptr, size)
      modifies this
      ensures Valid() && initialized == old(initialized)
      ensures !old(initialized) || answer.Refused? ==> !r.Pointer? && contents == old(contents) && pages == old(pages)
      ensures old(initialized) && answer.Block? ==>
              && r == Pointer(answer.addr)
              && r.addr in contents && contents == (old(contents) - {ptr})[r.addr := contents[r.addr]]
              && |contents[r.addr]| >= size
              && Survives(old(contents)[ptr], contents[r.addr], size)
      ensures old(initialized) && answer.Block? ==>
              pages == if ptr in old(pages) && old(pages)[ptr].largeAlloc then
                         if size >= pageSize / 2 then (old(pages) - {ptr})[answer.addr := AllocInfo(size, true)]
                         else old(pages) - {ptr}
                       else if size >= pageSize then old(pages)[answer.addr := AllocInfo(size, true)] else old(pages)
    {
      if !initialized {
        return Null;
      }
      if MovesPool(ptr, size) {
        r := MoveToOtherPool(ptr, size, answer);
      } else if answer.Refused? {
        r := Null;
      } else {
        if IsLarge(pages, ptr) {
          ResizeLarge(ptr, size, answer);
        } else {
          ResizeSmall(ptr, size, answer);
        }
        r := Pointer(answer.addr);
      }
    }
  }
}
