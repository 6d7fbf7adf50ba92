/** What a program reads in memory that `map_section_for_user` filled. */
module SectionContents {
  import opened Wrappers
  import opened Sv39
  import opened Ranges
  import opened Supply
  import opened Memory
  import opened AddressSpace

  /** The byte behind a virtual address. */
  ghost function ReadByte(m: View, va: nat): Option<nat> {
    match PageBehind(m, va / PGSIZE)
    case None => None
    case Some(page) => if va % PGSIZE < |page| then Some(page[va % PGSIZE]) else None
  }

  /** What the program header promises for the byte at `va`: file contents up to `p_filesz`, then zeros
      (Program Header, chapter 5 of the System V gABI). */
  function Promised(src: seq<nat>, start: nat, srcSize: nat, va: nat): nat
    requires srcSize <= |src| && start <= va
  {
    if va - start < srcSize then src[va - start] else 0
  }

  /** What the loop put there. */
  function Stored(src: seq<nat>, start: nat, srcSize: nat, va: nat): nat
    requires srcSize <= |src|
  {
    PageBytes(src, start, srcSize, RoundDown(va))[va % PGSIZE]
  }

  /** Pages that do not begin before the segment get the right bytes. */
  lemma LaterPagesAreStored(src: seq<nat>, start: nat, srcSize: nat, va: nat)
    requires srcSize <= |src| && start <= RoundDown(va)
    ensures Stored(src, start, srcSize, va) == Promised(src, start, srcSize, va)
  {}

  /** The bytes of the segment in virtual page `w` come out right. */
  ghost predicate StoresPage(src: seq<nat>, start: nat, srcSize: nat, size: nat, w: nat)
    requires srcSize <= |src|
  {
    forall va: nat :: start <= va < start + size && va / PGSIZE == w ==>
      Stored(src, start, srcSize, va) == Promised(src, start, srcSize, va)
  }

  /** A page comes out right for every file if and only if it does not begin before the segment, or
      there are no file contents: only the first page of an unaligned segment is wrong. */
  lemma StoresPageIff(start: nat, srcSize: nat, size: nat, w: nat)
    requires srcSize <= size && start / PGSIZE <= w
    ensures (forall src: seq<nat> :: srcSize <= |src| ==> StoresPage(src, start, srcSize, size, w))
       <==> start <= w * PGSIZE || srcSize == 0
  {
    if start <= w * PGSIZE || srcSize == 0 {
      forall src: seq<nat>, va: nat | srcSize <= |src| && start <= va < start + size && va / PGSIZE == w
        ensures Stored(src, start, srcSize, va) == Promised(src, start, srcSize, va)
      {
        if srcSize > 0 {
          LaterPagesAreStored(src, start, srcSize, va);
        }
      }
    } else {
      var src := Marked(srcSize);
      Misplaced(start, srcSize);
      assert start / PGSIZE == w;
      assert !StoresPage(src, start, srcSize, size, w);
    }
  }

  ghost predicate StoresAll(src: seq<nat>, start: nat, srcSize: nat, size: nat)
    requires srcSize <= |src|
  {
    forall w: nat :: StoresPage(src, start, srcSize, size, w)
  }

  /** The bytes come out right for every file if and only if the segment starts on a page, or has
      no file contents. */
  lemma StoresAllIff(start: nat, srcSize: nat, size: nat)
    requires srcSize <= size
    ensures (forall src: seq<nat> :: srcSize <= |src| ==> StoresAll(src, start, srcSize, size))
       <==> start % PGSIZE == 0 || srcSize == 0
  {
    var first: nat := start / PGSIZE;
    StoresPageIff(start, srcSize, size, first);
    assert start <= first * PGSIZE <==> start % PGSIZE == 0;
    if start % PGSIZE == 0 || srcSize == 0 {
      forall src: seq<nat>, w: nat | srcSize <= |src|
        ensures StoresPage(src, start, srcSize, size, w)
      {
        if first <= w {
          StoresPageIff(start, srcSize, size, w);
          assert start <= w * PGSIZE || srcSize == 0;
        }
      }
    }
  }

  /** A file with a mark in its first byte. */
  function Marked(n: nat): (src: seq<nat>)
    requires n > 0
    ensures |src| == n && src[0] == 1 && forall i :: 1 <= i < n ==> src[i] == 0
  {
    seq(n, i => if i == 0 then 1 else 0)
  }

  lemma Misplaced(start: nat, srcSize: nat)
    requires start % PGSIZE > 0 && srcSize > 0
    ensures Stored(Marked(srcSize), start, srcSize, start) == 0
    ensures Promised(Marked(srcSize), start, srcSize, start) == 1
  {}

  // ----- Through the page table -----

  /** Every byte of a freshly mapped section reads as stored, every other byte as before. */
  lemma SectionReads(a: View, b: View, frames: seq<nat>, src: seq<nat>, start: nat, srcSize: nat, flags: Permissions,
                     va: nat)
    requires
      && srcSize <= |src|
      && Loaded(a, b, start / PGSIZE, frames, SectionBytes(src, start, srcSize, |frames|), flags)
    ensures va / PGSIZE in Stretch(start / PGSIZE, |frames|) ==>
      ReadByte(b, va) == Some(Stored(src, start, srcSize, va))
    ensures va / PGSIZE !in Stretch(start / PGSIZE, |frames|) && ReadByte(a, va).Some? ==>
      ReadByte(b, va) == ReadByte(a, va)
  {
    if va / PGSIZE in Stretch(start / PGSIZE, |frames|) {
      SectionPage(a, b, frames, src, start, srcSize, flags, va / PGSIZE);
    } else if ReadByte(a, va).Some? {
      OtherPage(a, b, start / PGSIZE, frames, SectionBytes(src, start, srcSize, |frames|), flags, va / PGSIZE);
    }
  }
}
