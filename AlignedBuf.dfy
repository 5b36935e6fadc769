// A resizable buffer of trivially copyable elements whose storage is
// allocated with a power-of-two alignment. The element size and the
// alignment (template parameters of the original) are constants of each
// buffer; the aligned allocator is the `Allocator` object, which records
// the blocks that are allocated and not yet freed, so that what a buffer
// owns, frees and leaks can be stated.

module AlignedBuf {

  /** The alignment rule: 1, 2, 4, 8, ... */
  predicate PowerOfTwo(n: nat)
  {
    n == 1 || (n > 1 && n % 2 == 0 && PowerOfTwo(n / 2))
  }

  function Max(a: nat, b: nat): nat { if a < b then b else a }

  function Min(a: nat, b: nat): nat { if a < b then a else b }

  /** The bytes requested for `n` elements: the elements plus one padding unit, rounded up to the alignment. */
  function AllocationBytes(n: nat, elemSize: nat, align: nat): nat
    requires align >= 1
  {
    ((align - 1 + n * elemSize + Max(align, elemSize)) / align) * align
  }

  /** The allocation is a multiple of the alignment and covers the elements plus the padding, by less than one alignment unit. */
  lemma AllocationBounds(n: nat, elemSize: nat, align: nat)
    requires align >= 1
    ensures AllocationBytes(n, elemSize, align) % align == 0
    ensures n * elemSize + Max(align, elemSize) <= AllocationBytes(n, elemSize, align)
    ensures AllocationBytes(n, elemSize, align) < n * elemSize + Max(align, elemSize) + align
  {
    var x := n * elemSize + Max(align, elemSize);
    var q := (align - 1 + x) / align;
    var r := (align - 1 + x) % align;
    assert align - 1 + x == q * align + r && 0 <= r < align;
    assert AllocationBytes(n, elemSize, align) == q * align;
    DivModUnique(q * align, align, q, 0);
  }

  /** Euclidean division is unique: a quotient and remainder in range are the ones `/` and `%` give. */
  lemma DivModUnique(x: int, d: int, q: int, r: int)
    requires d > 0 && x == q * d + r && 0 <= r < d
    ensures x / d == q && x % d == r
  {
    var q', r' := x / d, x % d;
    assert x == q' * d + r' && 0 <= r' < d;
    assert (q - q') * d == r' - r;
    if q > q' {
      MulAtLeast(q - q', d);
    } else if q < q' {
      MulAtLeast(q' - q, d);
    }
  }

  lemma MulAtLeast(k: int, d: int)
    requires k >= 1 && d > 0
    ensures k * d >= d
  {
    assert k * d == (k - 1) * d + d;
    assert (k - 1) * d >= 0;
  }

  /** The elements that fit in the allocation for `n` elements: always more than `n`. */
  function Capacity(n: nat, elemSize: nat, align: nat): (c: nat)
    requires align >= 1 && elemSize >= 1
    ensures c > n
  {
    AllocationBound(n, elemSize, align);
    AllocationBytes(n, elemSize, align) / elemSize
  }

  lemma AllocationBound(n: nat, elemSize: nat, align: nat)
    requires align >= 1 && elemSize >= 1
    ensures AllocationBytes(n, elemSize, align) / elemSize > n
  {
    AllocationBounds(n, elemSize, align);
    var bytes := AllocationBytes(n, elemSize, align);
    assert bytes >= (n + 1) * elemSize;
    DivideAtLeast(bytes, n + 1, elemSize);
  }

  lemma DivideAtLeast(bytes: nat, k: nat, e: nat)
    requires e >= 1 && bytes >= k * e
    ensures bytes / e >= k
  {
    var q, r := bytes / e, bytes % e;
    assert bytes == q * e + r && r < e;
    if q < k {
      MulAtLeast(k - q, e);
    }
  }

  /** The blocks handed out by the aligned allocator and not yet freed. */
  class Allocator {
    var live: set<object>

    constructor()
      ensures live == {}
    {
      live := {};
    }

    /** posix_memalign / _aligned_malloc: a new block of `count` elements. */
    method Allocate<T(0)>(count: nat) returns (block: array<T>)
      modifies this
      ensures fresh(block) && block.Length == count
      ensures live == old(live) + {block}
    {
      block := new T[count];
      live := live + {block};
    }

    /** free / _aligned_free. */
    method Free(block: object)
      modifies this
      ensures live == old(live) - {block}
    {
      live := live - {block};
    }
  }

  /** std::copy of `src` to the front of `dst`. */
  method CopyElements<T>(src: seq<T>, dst: array<T>)
    requires |src| <= dst.Length
    modifies dst
    ensures dst[..|src|] == src
  {
    for i := 0 to |src|
      invariant dst[..i] == src[..i]
    {
      dst[i] := src[i];
    }
  }

  /** The block a buffer points to, as a set: empty for the null buffer. */
  function Block<T>(a: array?<T>): set<object>
  {
    if a == null then {} else {a}
  }

  /** Elementwise comparison of the common prefix: what `operator==` decides. */
  predicate SamePrefix<T(==)>(a: seq<T>, b: seq<T>)
  {
    forall i :: 0 <= i < Min(|a|, |b|) ==> a[i] == b[i]
  }

  class AlignedBuf<T(==,0)> {
    const align: nat
    const elemSize: nat
    const alloc: Allocator
    var buffer: array?<T>
    var size: nat

    /** The buffer is null exactly when the size is 0; otherwise it holds the whole allocation. */
    predicate Valid()
      reads this
    {
      align >= 1 && elemSize >= 1
      && (buffer == null <==> size == 0)
      && (buffer != null ==> buffer.Length == Capacity(size, elemSize, align))
    }

    /** The `size` elements the buffer holds. */
    function Contents(): seq<T>
      reads this, buffer
      requires Valid()
    {
      if buffer == null then [] else buffer[..size]
    }

    /** `AlignedBuf(size)`: the alignment must be a power of two. */
    constructor(alloc: Allocator, align: nat, elemSize: nat, n: nat)
      requires PowerOfTwo(align) && elemSize >= 1
      modifies alloc
      ensures Valid() && this.align == align && this.elemSize == elemSize && this.alloc == alloc
      ensures size == n && |Contents()| == n
      ensures alloc.live == old(alloc.live) + Block(buffer) && (buffer != null ==> fresh(buffer))
    {
      this.align := align;
      this.elemSize := elemSize;
      this.alloc := alloc;
      buffer := null;
      size := 0;
      new;
      if n != 0 {
        buffer := alloc.Allocate<T>(Capacity(n, elemSize, align));
      }
      size := n;
    }

    /** The copy constructor: a new buffer of the same size with the same elements. */
    constructor Copy(other: AlignedBuf<T>)
      requires other.Valid()
      modifies other.alloc
      ensures Valid() && align == other.align && elemSize == other.elemSize && alloc == other.alloc
      ensures size == other.size && Contents() == other.Contents()
      ensures alloc.live == old(other.alloc.live) + Block(buffer) && (buffer != null ==> fresh(buffer))
    {
      align := other.align;
      elemSize := other.elemSize;
      alloc := other.alloc;
      buffer := null;
      size := 0;
      new;
      if other.size != 0 {
        var block := other.alloc.Allocate<T>(Capacity(other.size, other.elemSize, other.align));
        CopyElements(other.buffer[..other.size], block);
        buffer := block;
      }
      size := other.size;
    }

    /** `resize(n)`: keep the first min(n, size) elements in a new block; resizing to 0 frees the block. */
    method Resize(n: nat)
      requires Valid()
      modifies this, alloc
      ensures Valid() && size == n
      ensures Contents()[..Min(n, old(size))] == old(Contents())[..Min(n, old(size))]
      ensures n == 0 ==> buffer == null
      ensures n != 0 ==> fresh(buffer)
      ensures alloc.live == old(alloc.live) - Block(old(buffer)) + Block(buffer)
    {
      if n != 0 {
        var keepSize := Min(n, size);
        var temp := if buffer == null then [] else buffer[..keepSize];
        if buffer != null {
          alloc.Free(buffer);
        }
        var block := alloc.Allocate<T>(Capacity(n, elemSize, align));
        CopyElements(temp, block);
        buffer := block;
      } else {
        if buffer != null {
          alloc.Free(buffer);
        }
        buffer := null;
      }
      size := n;
    }

    /** `size()`: the size last requested. */
    function Size(): (n: nat)
      reads this
      requires Valid()
      ensures n == |Contents()|
    {
      size
    }

    /** `operator[]` read; the caller keeps the index below the size. */
    method Get(i: nat) returns (x: T)
      requires Valid() && i < size
      ensures x == Contents()[i]
    {
      x := buffer[i];
    }

    /** `operator[]` write. */
    method Set(i: nat, x: T)
      requires Valid() && i < size
      modifies buffer
      ensures Valid() && Contents() == old(Contents())[i := x]
    {
      buffer[i] := x;
    }

    /** `operator==`: memcmp over the smaller of the two sizes. */
    method Equals(other: AlignedBuf<T>) returns (equal: bool)
      requires Valid() && other.Valid()
      ensures equal <==> SamePrefix(Contents(), other.Contents())
    {
      var n := Min(size, other.size);
      var i := 0;
      while i < n
        invariant 0 <= i <= n
        invariant forall j :: 0 <= j < i ==> buffer[j] == other.buffer[j]
      {
        if buffer[i] != other.buffer[i] {
          return false;
        }
        i := i + 1;
      }
      return true;
    }

    /** The move constructor: take the other buffer's block and leave it empty. */
    constructor Move(other: AlignedBuf<T>)
      requires other.Valid()
      modifies other
      ensures Valid() && align == other.align && elemSize == other.elemSize && alloc == other.alloc
      ensures buffer == old(other.buffer) && size == old(other.size)
      ensures other.Valid() && other.buffer == null && other.size == 0
    {
      align := other.align;
      elemSize := other.elemSize;
      alloc := other.alloc;
      buffer := other.buffer;
      size := other.size;
      new;
      other.buffer := null;
      other.size := 0;
    }

    /** Move assignment as written: the block this buffer held is dropped without being freed. */
    method MoveAssignAsWritten(other: AlignedBuf<T>)
      requires Valid() && other.Valid() && other.align == align && other.elemSize == elemSize
      modifies this, other
      ensures Valid() && other.Valid() && other.buffer == null && other.size == 0
      ensures this != other ==> buffer == old(other.buffer) && size == old(other.size)
    {
      buffer := other.buffer;
      size := other.size;
      other.buffer := null;
      other.size := 0;
    }

    /** Move assignment: free the block this buffer holds, then take the other's block. */
    method MoveAssign(other: AlignedBuf<T>)
      requires Valid() && other.Valid() && other.align == align && other.elemSize == elemSize
      requires other.alloc == alloc
      modifies this, other, alloc
      ensures Valid() && other.Valid()
      ensures this != other ==> buffer == old(other.buffer) && size == old(other.size)
      ensures this != other ==> other.buffer == null && other.size == 0
      ensures this != other ==> alloc.live == old(alloc.live) - Block(old(buffer))
      ensures this == other ==> buffer == old(buffer) && size == old(size) && alloc.live == old(alloc.live)
    {
      if this != other {
        if buffer != null {
          alloc.Free(buffer);
        }
        buffer := other.buffer;
        size := other.size;
        other.buffer := null;
        other.size := 0;
      }
    }

    /** Copy assignment: a copy of the other buffer, moved in place of this one. */
    method CopyAssign(other: AlignedBuf<T>)
      requires Valid() && other.Valid() && other.align == align && other.elemSize == elemSize
      requires other.alloc == alloc
      modifies this, alloc
      ensures Valid() && size == old(other.size) && Contents() == old(other.Contents())
      ensures this != other ==> (buffer != null ==> fresh(buffer)) && alloc.live == old(alloc.live) - Block(old(buffer)) + Block(buffer)
    {
      if this != other {
        var tmp := new AlignedBuf.Copy(other);
        MoveAssign(tmp);
      }
    }

    /** Copy assignment as written: the copy is moved in by the move
        assignment as written, so the block this buffer held is not freed. */
    method CopyAssignAsWritten(other: AlignedBuf<T>)
      requires Valid() && other.Valid() && other.align == align && other.elemSize == elemSize
      requires other.alloc == alloc
      modifies this, alloc
      ensures Valid() && size == old(other.size) && Contents() == old(other.Contents())
      ensures this != other ==> (buffer != null ==> fresh(buffer)) && alloc.live == old(alloc.live) + Block(buffer)
    {
      if this != other {
        var tmp := new AlignedBuf.Copy(other);
        MoveAssignAsWritten(tmp);
      }
    }

    /** The destructor: free the block, if the buffer was not moved out. */
    method Release()
      requires Valid()
      modifies alloc
      ensures alloc.live == old(alloc.live) - Block(buffer)
    {
      if buffer != null {
        alloc.Free(buffer);
      }
    }
  }

  /** `operator==` is symmetric. */
  lemma SamePrefixSymmetric<T>(a: seq<T>, b: seq<T>)
    ensures SamePrefix(a, b) <==> SamePrefix(b, a)
  {
  }

  /** Buffers of one size compare equal exactly when their elements are equal. */
  lemma SamePrefixSameSize<T>(a: seq<T>, b: seq<T>)
    requires |a| == |b|
    ensures SamePrefix(a, b) <==> a == b
  {
  }

  /** An empty buffer, moved-out ones included, compares equal to every buffer. */
  lemma EmptyEqualsAll<T>(b: seq<T>)
    ensures SamePrefix([], b) && SamePrefix(b, [])
  {
  }

  /** Comparing only the common prefix is not transitive: [1] == [] == [2], but [1] != [2]. */
  lemma SamePrefixNotTransitive()
    ensures SamePrefix([1], []) && SamePrefix([], [2]) && !SamePrefix([1], [2])
  {
    assert [1][0] != [2][0];
  }

  /** A resize keeps the common prefix: the resized buffer compares equal to the old contents. */
  lemma ResizeKeepsEquality<T>(before: seq<T>, after: seq<T>)
    requires after[..Min(|after|, |before|)] == before[..Min(|after|, |before|)]
    ensures SamePrefix(before, after)
  {
    var m := Min(|after|, |before|);
    forall i | 0 <= i < m
      ensures before[i] == after[i]
    {
      assert after[..m][i] == before[..m][i];
    }
  }

  /** The move assignment as written leaks: the block the target held stays allocated and unreferenced. */
  method MoveAssignLeaks() returns (leaked: array<int>, a: AlignedBuf<int>, b: AlignedBuf<int>)
    ensures leaked in a.alloc.live && leaked != a.buffer && leaked != b.buffer
  {
    var alloc := new Allocator();
    a := new AlignedBuf(alloc, 8, 4, 1);
    b := new AlignedBuf(alloc, 8, 4, 1);
    leaked := a.buffer;
    a.MoveAssignAsWritten(b);
  }

  /** The copy assignment as written leaks the same way, through the move assignment it calls. */
  method CopyAssignLeaks() returns (leaked: array<int>, a: AlignedBuf<int>, b: AlignedBuf<int>)
    ensures leaked in a.alloc.live && leaked != a.buffer && leaked != b.buffer
  {
    var alloc := new Allocator();
    a := new AlignedBuf(alloc, 8, 4, 1);
    b := new AlignedBuf(alloc, 8, 4, 1);
    leaked := a.buffer;
    a.CopyAssignAsWritten(b);
  }

  /** The corrected copy assignment frees the block the target held. */
  method CopyAssignFrees() returns (freed: array<int>, a: AlignedBuf<int>, b: AlignedBuf<int>)
    ensures freed !in a.alloc.live && a.buffer in a.alloc.live && b.buffer in a.alloc.live
  {
    var alloc := new Allocator();
    a := new AlignedBuf(alloc, 8, 4, 1);
    b := new AlignedBuf(alloc, 8, 4, 1);
    freed := a.buffer;
    a.CopyAssign(b);
  }

  /** The corrected move assignment frees the block the target held. */
  method MoveAssignFrees() returns (freed: array<int>, a: AlignedBuf<int>, b: AlignedBuf<int>)
    ensures freed !in a.alloc.live && a.buffer in a.alloc.live && b.buffer == null
  {
    var alloc := new Allocator();
    a := new AlignedBuf(alloc, 8, 4, 1);
    b := new AlignedBuf(alloc, 8, 4, 1);
    freed := a.buffer;
    a.MoveAssign(b);
  }
}
