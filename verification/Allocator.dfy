/**
  The kernel heap: blocks are carved off a bump pointer, freed into one list per block
  size that is threaded through the blocks' own headers, and taken from there again. The
  last quarter of the heap is handed out in pages in the same way.

  Addresses are 32-bit; both bump pointers are advanced modulo 2^32, as in the C code.
 */
module Allocator {

  const U32: nat := 0x1_0000_0000
  const HEADER: nat := 16
  const PAGE: nat := 4096
  const MEM_HEAP_START: nat := 0x41c00000
  const MAX_MEMORY: nat := 0xC0000000

  /** The frame buffer that blocks have to stay clear of. */
  const FB: nat := 0x46000000
  const FB_END: nat := 0x46400000

  const BLOCK_MAGIC: nat := 0x424C4D43
  const FREEPAGE_MAGIC: nat := 0x50474D43

  /** The block sizes, smallest first. */
  const BUCKETS: seq<nat> := [0x40, 0x400, 0x1000, 0x4000, 0x8000, 0x40000, 0x80000, 0x100000,
                              0x200000, 0x400000, 0x800000, 0x1000000, 0x2000000, 0x4000000]

  /** What is kept in front of a block, and at the start of a free page. */
  datatype Header = Header(magic: nat, size: nat, next: nat)

  datatype FreePage = FreePage(magic: nat, next: nat)

  /** The size of the blocks of bucket `b`. */
  function Size(b: nat): (size: nat)
    requires b < 14
    ensures 0x40 <= size <= 0x4000000 && size % 16 == 0
  {
    BUCKETS[b]
  }

  lemma SizesGrow(b: nat, c: nat)
    requires b < c < 14
    ensures Size(b) < Size(c)
  {
  }

  lemma SizesDiffer(b: nat, c: nat)
    requires b < 14 && c < 14 && b != c
    ensures Size(b) != Size(c)
  {
    if b < c {
      SizesGrow(b, c);
    } else {
      SizesGrow(c, b);
    }
  }

  /** The first bucket from `b` on whose blocks are large enough, or 14 if there is none. */
  function BucketFrom(size: nat, b: nat): nat
    requires b <= 14
    decreases 14 - b
  {
    if b == 14 || size <= Size(b) then b else BucketFrom(size, b + 1)
  }

  /** The bucket that serves a request: the smallest one that is large enough; there is one
      exactly for requests of up to 64 MiB. */
  function Bucket(size: nat): nat {
    BucketFrom(size, 0)
  }

  lemma {:induction false} BucketFromFacts(size: nat, b: nat)
    requires b <= 14
    ensures b <= BucketFrom(size, b) <= 14
    ensures BucketFrom(size, b) < 14 ==> size <= Size(BucketFrom(size, b))
    ensures forall c: nat :: b <= c < BucketFrom(size, b) ==> Size(c) < size
    decreases 14 - b
  {
    if b < 14 && Size(b) < size {
      BucketFromFacts(size, b + 1);
    }
  }

  lemma BucketFacts(size: nat)
    ensures Bucket(size) <= 14
    ensures Bucket(size) < 14 <==> size <= 0x4000000
    ensures Bucket(size) < 14 ==> size <= Size(Bucket(size))
    ensures forall c: nat :: c < Bucket(size) ==> Size(c) < size
  {
    BucketFromFacts(size, 0);
    hide BucketFrom;
    assert Size(13) == 0x4000000;
  }

  /** Exactly one of the block sizes. */
  ghost predicate IsSize(size: nat) {
    Bucket(size) < 14 && Size(Bucket(size)) == size
  }

  lemma SizeIsSize(b: nat)
    requires b < 14
    ensures Bucket(Size(b)) == b && IsSize(Size(b))
  {
    var c := Bucket(Size(b));
    BucketFacts(Size(b));
    hide Bucket, BucketFrom, Size;
    assert c <= b;
    if c < b {
      SizesGrow(c, b);
    }
  }

  lemma SizeFacts(size: nat)
    requires IsSize(size)
    ensures 0x40 <= size <= 0x4000000 && size % 16 == 0
  {
    hide Bucket;
  }

  method FindBucket(size: nat) returns (b: nat)
    ensures b == Bucket(size) <= 14
  {
    b := 0;
    while b < 14 && Size(b) < size
      invariant b <= 14
      invariant Bucket(size) == BucketFrom(size, b)
    {
      b := b + 1;
    }
  }

  /** The bucket a freed block goes back to: the one of exactly its size. */
  method BucketOfSize(size: nat) returns (b: nat)
    ensures b <= 14
    ensures IsSize(size) ==> b == Bucket(size) < 14 && Size(b) == size
    ensures !IsSize(size) ==> b == 14
  {
    hide Size, Bucket, BucketFrom;
    b := 0;
    while b < 14 && Size(b) != size
      invariant b <= 14
      invariant forall c: nat :: c < b ==> Size(c) != size
    {
      b := b + 1;
    }
    if b < 14 {
      SizeIsSize(b);
    }
  }

  // Carving

  /** The header address of the next block of `size` bytes and the bump pointer behind it. */
  function Carve(next: nat, size: nat): (nat, nat) {
    var bumped := (next + HEADER + size) % U32;
    if FB < bumped <= FB_END then (FB_END + 16, FB_END + 16 + HEADER + size) else (next, bumped)
  }

  /** Whether advancing the bump pointer runs past the end of the address space. */
  predicate Wraps(next: nat, size: nat) {
    U32 <= next + HEADER + size
  }

  /** Whether the block would lie over the frame buffer: it begins at or below it and is so
      large that it ends beyond it. */
  predicate Straddles(next: nat, size: nat) {
    next <= FB && FB_END < next + HEADER + size
  }

  /** A bump pointer as the allocator leaves it. */
  predicate GoodNext(next: nat) {
    next < U32 && next % 16 == 0 && !(FB < next <= FB_END)
  }

  lemma SmallNeverStraddles(next: nat, size: nat)
    requires size <= 0x200000
    ensures !Straddles(next, size)
  {
  }

  lemma SmallSum(t: nat)
    requires t < U32
    ensures t % U32 == t
  {
  }

  lemma AlignedSum(next: nat, size: nat)
    requires next % 16 == 0 && size % 16 == 0
    ensures (next + HEADER + size) % 16 == 0
  {
  }

  /** What carving gives: the block starts at or behind the pointer and ends at the new one, and
      it is clear of the frame buffer exactly if it does not straddle it. */
  lemma CarveFacts(next: nat, size: nat)
    requires GoodNext(next) && size <= 0x4000000 && size % 16 == 0 && !Wraps(next, size)
    ensures var (a, n) := Carve(next, size);
      && GoodNext(n) && next <= a && a + HEADER + size == n && a % 16 == 0
      && (n <= FB || FB_END <= a <==> !Straddles(next, size))
  {
    SmallSum(next + HEADER + size);
    AlignedSum(next, size);
    AlignedSum(FB_END + 16, size);
  }

  /** Past the end of the address space the pointer comes back near zero, which no limit
      catches. */
  lemma CarveWraps(next: nat, size: nat)
    requires GoodNext(next) && size <= 0x4000000 && size % 16 == 0 && Wraps(next, size)
    ensures Carve(next, size).0 == next && MAX_MEMORY < next
    ensures Carve(next, size).1 <= 0x4000010
  {
    var t := next + HEADER + size;
    assert t % U32 == t - U32;
  }

  // The free lists

  /** The element behind the i-th, or null. */
  function After(l: seq<nat>, i: nat): nat {
    if i + 1 < |l| then l[i + 1] else 0
  }

  lemma AfterTail(l: seq<nat>)
    requires l != []
    ensures After(l, 0) == if l[1..] == [] then 0 else l[1..][0]
    ensures forall i: nat :: i < |l[1..]| ==> l[1..][i] == l[i + 1] && After(l[1..], i) == After(l, i + 1)
  {
  }

  lemma AfterPush(a: nat, l: seq<nat>)
    ensures After([a] + l, 0) == if l == [] then 0 else l[0]
    ensures forall i: nat :: 1 <= i < |[a] + l| ==> ([a] + l)[i] == l[i - 1] && After([a] + l, i) == After(l, i - 1)
  {
  }

  /** The list `l` is what one finds from `head` along the links in the headers. */
  ghost predicate Linked(l: seq<nat>, head: nat, headers: map<nat, Header>) {
    && head == (if l == [] then 0 else l[0])
    && (forall i :: 0 <= i < |l| ==> l[i] in headers)
    && (forall i :: 0 <= i < |l| ==> headers[l[i]].next == After(l, i))
  }

  ghost predicate NoRepeat(l: seq<nat>) {
    forall i, j :: 0 <= i < j < |l| ==> l[i] != l[j]
  }

  /** The free lists with `a` put in front of the b-th. */
  function Pushed(lists: seq<seq<nat>>, b: nat, a: nat): seq<seq<nat>> {
    if b < |lists| then lists[b := [a] + lists[b]] else lists
  }

  /** A free list: acyclic, and every block on it carved with that size and not in use. */
  ghost predicate FreeList(l: seq<nat>, head: nat, size: nat, headers: map<nat, Header>,
                           carved: map<nat, nat>, live: set<nat>)
  {
    && Linked(l, head, headers) && NoRepeat(l)
    && (forall i :: 0 <= i < |l| ==> l[i] in carved)
    && (forall i :: 0 <= i < |l| ==> carved[l[i]] == size && l[i] !in live)
  }

  /** Blocks lie one behind the other, each with its header and all its bytes. */
  ghost predicate Disjoint(carved: map<nat, nat>) {
    forall a, b :: a in carved && b in carved && a < b ==> a + HEADER + carved[a] <= b
  }

  /** Where a block may lie. */
  predicate PlacedAt(a: nat, size: nat, base: nat, next: nat, limit: nat) {
    && a % 16 == 0 && base <= a && a + HEADER + size <= next && a + HEADER + size <= limit
    && (size <= 0x200000 ==> a + HEADER + size <= FB || FB_END <= a)
  }

  ghost predicate Placed(carved: map<nat, nat>, base: nat, next: nat, limit: nat) {
    forall a :: a in carved ==> PlacedAt(a, carved[a], base, next, limit)
  }

  /** Every header records its block's size and whether the block is in use. */
  ghost predicate Recorded(headers: map<nat, Header>, carved: map<nat, nat>, live: set<nat>) {
    forall a :: a in carved ==>
      a in headers && IsSize(carved[a]) && headers[a].size == carved[a] && headers[a].magic == if a in live then BLOCK_MAGIC else 0
  }

  ghost predicate Lists(heads: seq<nat>, lists: seq<seq<nat>>, headers: map<nat, Header>,
                        carved: map<nat, nat>, live: set<nat>)
  {
    |heads| == |lists| == 14 && forall b: nat :: b < 14 ==> FreeList(lists[b], heads[b], Size(b), headers, carved, live)
  }

  /** Nothing is lost: a carved block that is not in use is on the list of its size. */
  ghost predicate Conserved(carved: map<nat, nat>, live: set<nat>, lists: seq<seq<nat>>) {
    && (forall a :: a in live ==> a in carved)
    && (forall a :: a in carved && a !in live ==> exists b :: 0 <= b < |lists| && a in lists[b])
  }

  /** Everything that holds of the blocks between two calls. */
  ghost predicate BlocksOk(base: nat, next: nat, limit: nat, headers: map<nat, Header>, heads: seq<nat>,
                           carved: map<nat, nat>, lists: seq<seq<nat>>, live: set<nat>)
  {
    && MEM_HEAP_START <= base <= next && base <= limit <= MAX_MEMORY && GoodNext(next)
    && |heads| == |lists| == 14
    && Placed(carved, base, next, limit) && Disjoint(carved)
    && Recorded(headers, carved, live)
    && Lists(heads, lists, headers, carved, live)
    && Conserved(carved, live, lists)
  }

  /** Blocks of different lists are different, for their sizes are. */
  lemma OneList(heads: seq<nat>, lists: seq<seq<nat>>, headers: map<nat, Header>, carved: map<nat, nat>,
                live: set<nat>, a: nat, b: nat)
    requires Lists(heads, lists, headers, carved, live) && b < 14
    requires a in carved && carved[a] == Size(b)
    ensures forall c :: 0 <= c < 14 && c != b ==> a !in lists[c]
  {
    hide Size;
    forall c | 0 <= c < 14 && c != b
      ensures a !in lists[c]
    {
      SizesDiffer(b, c);
      assert FreeList(lists[c], heads[c], Size(c), headers, carved, live);
    }
  }

  lemma {:induction false} OtherListKeeps(l: seq<nat>, head: nat, size: nat, headers: map<nat, Header>, carved: map<nat, nat>,
                       live: set<nat>, a: nat, h: Header, carved': map<nat, nat>, live': set<nat>)
    requires FreeList(l, head, size, headers, carved, live) && a !in l
    requires forall x :: x in carved && x != a ==> x in carved' && carved'[x] == carved[x]
    requires forall x :: x in live' ==> x in live || x == a
    ensures FreeList(l, head, size, headers[a := h], carved', live')
  {
    assert forall i :: 0 <= i < |l| ==> l[i] != a;
  }

  /** The list without its first block. */
  lemma TailKeeps(l: seq<nat>, head: nat, size: nat, headers: map<nat, Header>, carved: map<nat, nat>,
                  live: set<nat>, h: Header)
    requires FreeList(l, head, size, headers, carved, live) && l != []
    ensures head in headers && FreeList(l[1..], headers[head].next, size, headers[head := h], carved, live + {head})
  {
    AfterTail(l);
    hide After;
    assert head == l[0] && headers[head].next == After(l, 0);
    assert forall i: nat :: i < |l[1..]| ==> l[1..][i] == l[i + 1] && l[i + 1] != head;
  }

  /** The list with a block put in front. */
  lemma PushKeeps(l: seq<nat>, head: nat, size: nat, headers: map<nat, Header>, carved: map<nat, nat>,
                  live: set<nat>, a: nat, h: Header)
    requires FreeList(l, head, size, headers, carved, live)
    requires a in live && a in carved && carved[a] == size && h.next == head
    ensures FreeList([a] + l, a, size, headers[a := h], carved, live - {a})
  {
    var l' := [a] + l;
    AfterPush(a, l);
    hide After;
    assert forall i: nat :: 1 <= i < |l'| ==> l'[i] == l[i - 1] && l'[i] != a;
  }

  /** Taking the first block off its list. */
  lemma TakeLists(headers: map<nat, Header>, heads: seq<nat>, carved: map<nat, nat>, lists: seq<seq<nat>>,
                  live: set<nat>, b: nat, h: Header)
    requires Lists(heads, lists, headers, carved, live) && b < 14 && lists[b] != []
    ensures heads[b] == lists[b][0] && heads[b] in headers && heads[b] in carved
    ensures carved[heads[b]] == Size(b) && heads[b] !in live
    ensures Lists(heads[b := headers[heads[b]].next], lists[b := lists[b][1..]],
      headers[heads[b] := h], carved, live + {heads[b]})
  {
    var a := heads[b];
    assert FreeList(lists[b], heads[b], Size(b), headers, carved, live);
    TailKeeps(lists[b], heads[b], Size(b), headers, carved, live, h);
    OneList(heads, lists, headers, carved, live, a, b);
    hide FreeList;
    forall c | 0 <= c < 14 && c != b
      ensures FreeList(lists[c], heads[c], Size(c), headers[a := h], carved, live + {a})
    {
      OtherListKeeps(lists[c], heads[c], Size(c), headers, carved, live, a, h, carved, live + {a});
    }
  }

  lemma PushLists(headers: map<nat, Header>, heads: seq<nat>, carved: map<nat, nat>, lists: seq<seq<nat>>,
                  live: set<nat>, b: nat, a: nat, h: Header)
    requires Lists(heads, lists, headers, carved, live) && b < 14
    requires a in live && a in carved && carved[a] == Size(b) && h.next == heads[b]
    ensures Lists(heads[b := a], lists[b := [a] + lists[b]], headers[a := h], carved, live - {a})
  {
    PushKeeps(lists[b], heads[b], Size(b), headers, carved, live, a, h);
    OneList(heads, lists, headers, carved, live, a, b);
    hide FreeList;
    forall c | 0 <= c < 14 && c != b
      ensures FreeList(lists[c], heads[c], Size(c), headers[a := h], carved, live - {a})
    {
      OtherListKeeps(lists[c], heads[c], Size(c), headers, carved, live, a, h, carved, live - {a});
    }
  }

  lemma AddLists(headers: map<nat, Header>, heads: seq<nat>, carved: map<nat, nat>, lists: seq<seq<nat>>,
                 live: set<nat>, a: nat, h: Header)
    requires Lists(heads, lists, headers, carved, live) && a !in carved
    ensures Lists(heads, lists, headers[a := h], carved[a := h.size], live + {a})
  {
    assert forall c :: 0 <= c < 14 ==> a !in lists[c];
    forall c | 0 <= c < 14
      ensures FreeList(lists[c], heads[c], Size(c), headers[a := h], carved[a := h.size], live + {a})
    {
      OtherListKeeps(lists[c], heads[c], Size(c), headers, carved, live, a, h, carved[a := h.size], live + {a});
    }
  }

  lemma TakeConserved(carved: map<nat, nat>, live: set<nat>, lists: seq<seq<nat>>, b: nat)
    requires Conserved(carved, live, lists) && b < 14 == |lists| && lists[b] != [] && lists[b][0] in carved
    ensures Conserved(carved, live + {lists[b][0]}, lists[b := lists[b][1..]])
  {
    var a, lists' := lists[b][0], lists[b := lists[b][1..]];
    forall x | x in carved && x !in live + {a}
      ensures exists c :: 0 <= c < |lists'| && x in lists'[c]
    {
      var c :| 0 <= c < 14 && x in lists[c];
      assert lists[b] == [a] + lists[b][1..];
      assert x in lists'[c];
    }
  }

  lemma PushConserved(carved: map<nat, nat>, live: set<nat>, lists: seq<seq<nat>>, b: nat, a: nat)
    requires Conserved(carved, live, lists) && b < 14 == |lists|
    ensures Conserved(carved, live - {a}, lists[b := [a] + lists[b]])
  {
    var lists' := lists[b := [a] + lists[b]];
    forall x | x in carved && x !in live - {a}
      ensures exists c :: 0 <= c < |lists'| && x in lists'[c]
    {
      if x == a {
        assert a in lists'[b];
      } else {
        var c :| 0 <= c < 14 && x in lists[c];
        assert x in lists'[c];
      }
    }
  }

  lemma AddConserved(carved: map<nat, nat>, live: set<nat>, lists: seq<seq<nat>>, a: nat, size: nat)
    requires Conserved(carved, live, lists)
    ensures Conserved(carved[a := size], live + {a}, lists)
  {
  }

  /** A new block at the old bump pointer or behind it lies clear of all others. */
  lemma AddPlaced(carved: map<nat, nat>, base: nat, next: nat, limit: nat, a: nat, size: nat, next': nat)
    requires Placed(carved, base, next, limit) && Disjoint(carved) && base <= next <= a
    requires PlacedAt(a, size, base, next', limit)
    ensures a !in carved
    ensures Placed(carved[a := size], base, next', limit) && Disjoint(carved[a := size])
  {
    assert forall x :: x in carved ==> x + HEADER + carved[x] <= next;
  }

  lemma MorePlaced(carved: map<nat, nat>, base: nat, next: nat, limit: nat, next': nat)
    requires Placed(carved, base, next, limit) && next <= next'
    ensures Placed(carved, base, next', limit)
  {
  }

  lemma AboveBase(carved: map<nat, nat>, base: nat, next: nat, limit: nat, a: nat)
    requires Placed(carved, base, next, limit) && a in carved
    ensures base <= a && PlacedAt(a, carved[a], base, next, limit)
  {
  }

  lemma Shape(base: nat, next: nat, limit: nat, headers: map<nat, Header>, heads: seq<nat>,
              carved: map<nat, nat>, lists: seq<seq<nat>>, live: set<nat>)
    requires BlocksOk(base, next, limit, headers, heads, carved, lists, live)
    ensures MEM_HEAP_START <= base <= next && base <= limit <= MAX_MEMORY && GoodNext(next)
    ensures |heads| == |lists| == 14
  {
  }

  /** Reusing the first free block of bucket `b`. */
  lemma TakeBlock(base: nat, next: nat, limit: nat, headers: map<nat, Header>, heads: seq<nat>,
                  carved: map<nat, nat>, lists: seq<seq<nat>>, live: set<nat>, b: nat)
    requires BlocksOk(base, next, limit, headers, heads, carved, lists, live) && b < 14
    requires lists[b] != []
    ensures heads[b] == lists[b][0] && heads[b] in headers && headers[heads[b]].size == Size(b)
    ensures heads[b] in carved && carved[heads[b]] == Size(b) && heads[b] !in live && heads[b] != 0
    ensures BlocksOk(base, next, limit, headers[heads[b] := Header(BLOCK_MAGIC, Size(b), 0)],
      heads[b := headers[heads[b]].next], carved, lists[b := lists[b][1..]], live + {heads[b]})
  {
    hide Lists, Placed, Disjoint, Conserved, Size;
    TakeLists(headers, heads, carved, lists, live, b, Header(BLOCK_MAGIC, Size(b), 0));
    TakeConserved(carved, live, lists, b);
    AboveBase(carved, base, next, limit, heads[b]);
  }

  /** Freeing a block of bucket `b`. */
  lemma PushBlock(base: nat, next: nat, limit: nat, headers: map<nat, Header>, heads: seq<nat>,
                  carved: map<nat, nat>, lists: seq<seq<nat>>, live: set<nat>, b: nat, a: nat)
    requires BlocksOk(base, next, limit, headers, heads, carved, lists, live) && b < 14
    requires a in live && a in carved && carved[a] == Size(b)
    ensures BlocksOk(base, next, limit, headers[a := Header(0, Size(b), heads[b])],
      heads[b := a], carved, lists[b := [a] + lists[b]], live - {a})
  {
    hide Lists, Placed, Disjoint, Conserved, Size;
    PushLists(headers, heads, carved, lists, live, b, a, Header(0, Size(b), heads[b]));
    PushConserved(carved, live, lists, b, a);
  }

  /** Carving a block of bucket `b`. */
  lemma AddBlock(base: nat, next: nat, limit: nat, headers: map<nat, Header>, heads: seq<nat>,
                 carved: map<nat, nat>, lists: seq<seq<nat>>, live: set<nat>, size: nat, a: nat, next': nat)
    requires BlocksOk(base, next, limit, headers, heads, carved, lists, live)
    requires next <= a <= next' && GoodNext(next') && PlacedAt(a, size, base, next', limit) && IsSize(size)
    ensures a !in carved && a !in live
    ensures BlocksOk(base, next', limit, headers[a := Header(BLOCK_MAGIC, size, 0)], heads,
      carved[a := size], lists, live + {a})
  {
    hide Lists, Placed, Disjoint, PlacedAt, GoodNext, IsSize;
    assert base <= next;
    AddPlaced(carved, base, next, limit, a, size, next');
    AddLists(headers, heads, carved, lists, live, a, Header(BLOCK_MAGIC, size, 0));
    AddConserved(carved, live, lists, a, size);
  }

  /** A refused request moves the bump pointer all the same. */
  lemma SkipBlock(base: nat, next: nat, limit: nat, headers: map<nat, Header>, heads: seq<nat>,
                  carved: map<nat, nat>, lists: seq<seq<nat>>, live: set<nat>, next': nat)
    requires BlocksOk(base, next, limit, headers, heads, carved, lists, live)
    requires next <= next' && GoodNext(next')
    ensures BlocksOk(base, next', limit, headers, heads, carved, lists, live)
  {
    hide Lists, Placed, Disjoint, Conserved, Recorded, GoodNext;
    MorePlaced(carved, base, next, limit, next');
  }

  /** Bucket `b` has a free block exactly if its list head is not null. */
  lemma HeadTells(base: nat, next: nat, limit: nat, headers: map<nat, Header>, heads: seq<nat>,
                  carved: map<nat, nat>, lists: seq<seq<nat>>, live: set<nat>, b: nat)
    requires BlocksOk(base, next, limit, headers, heads, carved, lists, live) && b < 14
    ensures heads[b] == 0 <==> lists[b] == []
  {
    assert FreeList(lists[b], heads[b], Size(b), headers, carved, live);
  }

  lemma CarvedRecorded(base: nat, next: nat, limit: nat, headers: map<nat, Header>, heads: seq<nat>,
                       carved: map<nat, nat>, lists: seq<seq<nat>>, live: set<nat>, a: nat)
    requires BlocksOk(base, next, limit, headers, heads, carved, lists, live) && a in carved
    ensures a in headers && headers[a].size == carved[a] && IsSize(carved[a])
  {
    hide Lists, Placed, Disjoint, IsSize;
  }

  /** Links that lead from `a` along a list back to `a` are the links of no list at all. */
  lemma {:induction false} Follow(l0: seq<nat>, k: nat, headers: map<nat, Header>, a: nat, h: Header, l: seq<nat>, i: nat)
    requires Linked(l0, h.next, headers) && NoRepeat(l0) && k < |l0| && l0[k] == a && i <= k
    requires forall x :: x in l0 ==> x != 0
    requires Linked(l, a, headers[a := h]) && a != 0
    ensures i + 1 < |l| && l[i + 1] == l0[i]
  {
    hide Linked;
    assert l0[i] in l0;
    if i == 0 {
      LinkAt(l, a, headers[a := h], 0);
      LinkAt(l0, h.next, headers, 0);
    } else {
      Follow(l0, k, headers, a, h, l, i - 1);
      LinkAt(l, a, headers[a := h], i);
      LinkAt(l0, h.next, headers, i - 1);
    }
  }

  /** What a linked list says of its i-th entry. */
  lemma LinkAt(l: seq<nat>, head: nat, headers: map<nat, Header>, i: nat)
    requires Linked(l, head, headers) && (i < |l| || (head != 0 && i == 0))
    ensures |l| > i && head == l[0] && l[i] in headers && headers[l[i]].next == After(l, i)
  {
  }

  lemma DoubleFree(base: nat, next: nat, limit: nat, headers: map<nat, Header>, heads: seq<nat>,
                   carved: map<nat, nat>, lists: seq<seq<nat>>, live: set<nat>, b: nat, a: nat, h: Header)
    requires BlocksOk(base, next, limit, headers, heads, carved, lists, live) && b < 14
    requires a in carved && a !in live && carved[a] == Size(b) && h.next == heads[b]
    ensures forall l :: !(Linked(l, a, headers[a := h]) && NoRepeat(l))
    ensures !BlocksOk(base, next, limit, headers[a := h], heads[b := a], carved, lists[b := [a] + lists[b]], live - {a})
  {
    hide BlocksOk, Linked, NoRepeat, Size;
    Shape(base, next, limit, headers, heads, carved, lists, live);
    OnItsList(base, next, limit, headers, heads, carved, lists, live, b, a);
    var k :| 0 <= k < |lists[b]| && lists[b][k] == a;
    forall l
      ensures !(Linked(l, a, headers[a := h]) && NoRepeat(l))
    {
      NoSuchList(lists[b], k, headers, a, h, l);
    }
    NotLists(headers[a := h], heads[b := a], carved, lists[b := [a] + lists[b]], live - {a}, b);
    NotBlocks(base, next, limit, headers[a := h], heads[b := a], carved, lists[b := [a] + lists[b]], live - {a});
  }

  lemma NotBlocks(base: nat, next: nat, limit: nat, headers: map<nat, Header>, heads: seq<nat>,
                  carved: map<nat, nat>, lists: seq<seq<nat>>, live: set<nat>)
    requires !Lists(heads, lists, headers, carved, live)
    ensures !BlocksOk(base, next, limit, headers, heads, carved, lists, live)
  {
    hide Lists;
  }

  /** A free block is on the list of its size. */
  lemma OnItsList(base: nat, next: nat, limit: nat, headers: map<nat, Header>, heads: seq<nat>,
                  carved: map<nat, nat>, lists: seq<seq<nat>>, live: set<nat>, b: nat, a: nat)
    requires BlocksOk(base, next, limit, headers, heads, carved, lists, live) && b < 14
    requires a in carved && a !in live && carved[a] == Size(b)
    ensures a in lists[b] && Linked(lists[b], heads[b], headers) && NoRepeat(lists[b])
    ensures forall x :: x in lists[b] ==> x != 0
  {
    hide Disjoint, Recorded, Size;
    OneList(heads, lists, headers, carved, live, a, b);
    assert FreeList(lists[b], heads[b], Size(b), headers, carved, live);
    hide Lists, Linked, NoRepeat;
    forall x | x in lists[b] ensures x != 0 {
      AboveBase(carved, base, next, limit, x);
    }
  }

  lemma NoSuchList(l0: seq<nat>, k: nat, headers: map<nat, Header>, a: nat, h: Header, l: seq<nat>)
    requires Linked(l0, h.next, headers) && NoRepeat(l0) && k < |l0| && l0[k] == a && forall x :: x in l0 ==> x != 0
    ensures !(Linked(l, a, headers[a := h]) && NoRepeat(l))
  {
    assert l0[k] in l0;
    if Linked(l, a, headers[a := h]) {
      Follow(l0, k, headers, a, h, l, k);
      assert l[0] == l[k + 1];
    }
  }

  lemma NotLists(headers: map<nat, Header>, heads: seq<nat>, carved: map<nat, nat>, lists: seq<seq<nat>>, live: set<nat>, b: nat)
    requires b < 14 && |heads| == |lists| == 14 && !(Linked(lists[b], heads[b], headers) && NoRepeat(lists[b]))
    ensures !Lists(heads, lists, headers, carved, live)
  {
    hide Linked, NoRepeat;
    assert !FreeList(lists[b], heads[b], Size(b), headers, carved, live);
  }

  lemma CarvedPlaced(base: nat, next: nat, limit: nat, headers: map<nat, Header>, heads: seq<nat>,
                     carved: map<nat, nat>, lists: seq<seq<nat>>, live: set<nat>, a: nat)
    requires BlocksOk(base, next, limit, headers, heads, carved, lists, live) && a in carved
    ensures PlacedAt(a, carved[a], base, next, limit)
  {
    hide Lists, Disjoint, Conserved, Recorded;
  }

  lemma SmallBuckets(size: nat)
    requires Bucket(size) < 14
    ensures size <= 0x200000 <==> Size(Bucket(size)) <= 0x200000
  {
    BucketFacts(size);
    hide Bucket;
    assert Size(8) == 0x200000;
    if Bucket(size) < 8 {
      SizesGrow(Bucket(size), 8);
    } else if 8 < Bucket(size) {
      SizesGrow(8, Bucket(size));
    }
  }

  // Pages

  ghost predicate PageLinked(l: seq<nat>, head: nat, links: map<nat, FreePage>) {
    && head == (if l == [] then 0 else l[0])
    && (forall i :: 0 <= i < |l| ==> l[i] in links)
    && (forall i :: 0 <= i < |l| ==> links[l[i]] == FreePage(FREEPAGE_MAGIC, After(l, i)))
  }

  /** The pages handed out so far: all those between the first one and the bump pointer, within
      the limit. */
  predicate IsPage(p: nat, pageBase: nat, next: nat, limit: nat) {
    pageBase <= p && p % PAGE == 0 && p + PAGE <= next && p + PAGE <= limit
  }

  /** Each page handed out is either in use or on the free list, and there only once. */
  ghost predicate PagesOk(pageBase: nat, next: nat, limit: nat, head: nat, links: map<nat, FreePage>,
                          free: seq<nat>, live: set<nat>)
  {
    && 0 < pageBase <= next < U32 && limit <= MAX_MEMORY && pageBase % PAGE == 0 && next % PAGE == 0
    && PageLinked(free, head, links) && NoRepeat(free)
    && PagesConserved(pageBase, next, limit, free, live)
  }

  ghost predicate PagesConserved(pageBase: nat, next: nat, limit: nat, free: seq<nat>, live: set<nat>) {
    && (forall p :: p in free ==> p !in live && IsPage(p, pageBase, next, limit))
    && (forall p :: p in live ==> IsPage(p, pageBase, next, limit))
    && (forall p :: IsPage(p, pageBase, next, limit) && p !in live ==> p in free)
  }

  /** Page `p` has an address in common with the frame buffer. */
  predicate OverFrameBuffer(p: nat) {
    p < FB_END && FB < p + PAGE
  }

  /** The first page that would reach into the frame buffer is behind the limit. */
  predicate PagesClear(first: nat, limit: nat) {
    FB_END <= first || limit < (if first < FB then FB else first) + PAGE
  }

  /** The pages that can be handed out from `first` on are all clear of the frame buffer exactly if the
      limits make them so. */
  lemma PagesClearIff(first: nat, limit: nat)
    requires first % PAGE == 0
    ensures PagesClear(first, limit) <==> forall p: nat :: IsPage(p, first, U32, limit) ==> !OverFrameBuffer(p)
  {
    if PagesClear(first, limit) {
      forall p: nat | IsPage(p, first, U32, limit) ensures !OverFrameBuffer(p) {
        if p < FB {
          PageBelow(p);
        }
      }
    } else {
      var q := if first < FB then FB else first;
      assert IsPage(q, first, U32, limit) && OverFrameBuffer(q);
    }
  }

  /** A page that begins before the frame buffer ends before it. */
  lemma PageBelow(p: nat)
    requires p % PAGE == 0 && p < FB
    ensures p + PAGE <= FB
  {
  }

  /** So it is with every page in use. */
  lemma PageInUseClear(pageBase: nat, next: nat, limit: nat, head: nat, links: map<nat, FreePage>,
                       free: seq<nat>, live: set<nat>, p: nat)
    requires PagesOk(pageBase, next, limit, head, links, free, live) && p in live && PagesClear(pageBase, limit)
    ensures !OverFrameBuffer(p)
  {
    hide PageLinked;
    assert IsPage(p, pageBase, U32, limit);
    PagesClearIff(pageBase, limit);
  }

  lemma TakeMembers(free: seq<nat>)
    requires free != [] && NoRepeat(free)
    ensures forall p :: p in free <==> p == free[0] || p in free[1..]
    ensures free[0] !in free[1..]
  {
    assert free == [free[0]] + free[1..];
  }

  lemma TakePageConserved(pageBase: nat, next: nat, limit: nat, free: seq<nat>, live: set<nat>)
    requires PagesConserved(pageBase, next, limit, free, live) && free != [] && NoRepeat(free) && 0 < pageBase
    ensures PagesConserved(pageBase, next, limit, free[1..], live + {free[0]})
    ensures free[0] !in live && free[0] != 0
  {
    TakeMembers(free);
    assert free[0] in free;
    assert IsPage(free[0], pageBase, next, limit);
  }

  lemma PushPageConserved(pageBase: nat, next: nat, limit: nat, free: seq<nat>, live: set<nat>, p: nat)
    requires PagesConserved(pageBase, next, limit, free, live) && p in live
    ensures PagesConserved(pageBase, next, limit, [p] + free, live - {p}) && p !in free
  {
    hide IsPage;
  }

  lemma TakePageLinked(free: seq<nat>, head: nat, links: map<nat, FreePage>, magic: nat)
    requires PageLinked(free, head, links) && NoRepeat(free) && free != []
    ensures head == free[0] && head in links && NoRepeat(free[1..])
    ensures PageLinked(free[1..], links[head].next, links[head := FreePage(magic, links[head].next)])
  {
    AfterTail(free);
    hide After;
    assert head == free[0] && links[head].next == After(free, 0);
    assert forall i: nat :: i < |free[1..]| ==> free[1..][i] == free[i + 1] && free[i + 1] != head;
  }

  lemma PushPageLinked(free: seq<nat>, head: nat, links: map<nat, FreePage>, p: nat)
    requires PageLinked(free, head, links) && NoRepeat(free) && p !in free
    ensures PageLinked([p] + free, p, links[p := FreePage(FREEPAGE_MAGIC, head)]) && NoRepeat([p] + free)
  {
    AfterPush(p, free);
    hide After;
    var free' := [p] + free;
    assert forall i: nat :: 1 <= i < |free'| ==> free'[i] == free[i - 1] && free'[i] != p;
  }

  lemma TakePage(pageBase: nat, next: nat, limit: nat, head: nat, links: map<nat, FreePage>,
                 free: seq<nat>, live: set<nat>, magic: nat)
    requires PagesOk(pageBase, next, limit, head, links, free, live) && free != []
    ensures head == free[0] && head in links && head != 0 && head !in live
    ensures PagesOk(pageBase, next, limit, links[head].next, links[head := FreePage(magic, links[head].next)],
      free[1..], live + {head})
  {
    hide PageLinked, NoRepeat, PagesConserved;
    TakePageLinked(free, head, links, magic);
    TakePageConserved(pageBase, next, limit, free, live);
  }

  lemma PushPage(pageBase: nat, next: nat, limit: nat, head: nat, links: map<nat, FreePage>,
                 free: seq<nat>, live: set<nat>, p: nat)
    requires PagesOk(pageBase, next, limit, head, links, free, live) && p in live
    ensures PagesOk(pageBase, next, limit, p, links[p := FreePage(FREEPAGE_MAGIC, head)], [p] + free, live - {p})
  {
    hide PageLinked, NoRepeat, PagesConserved;
    PushPageConserved(pageBase, next, limit, free, live, p);
    PushPageLinked(free, head, links, p);
  }

  lemma NextPage(next: nat)
    requires next < U32 && next % PAGE == 0
    ensures (next + PAGE) % PAGE == 0
    ensures next + PAGE < U32 ==> (next + PAGE) % U32 == next + PAGE
    ensures U32 <= next + PAGE ==> next + PAGE == U32 && (next + PAGE) % U32 == 0
    ensures forall p {:trigger p % PAGE} :: p % PAGE == 0 && p + PAGE <= next + PAGE ==> p == next || p + PAGE <= next
  {
  }

  lemma HeadPage(pageBase: nat, next: nat, limit: nat, head: nat, links: map<nat, FreePage>,
                 free: seq<nat>, live: set<nat>)
    requires PagesOk(pageBase, next, limit, head, links, free, live)
    ensures head == 0 <==> free == []
  {
    if free != [] {
      assert free[0] in free;
      assert IsPage(free[0], pageBase, next, limit);
    }
  }

  lemma {:induction false} FollowPages(l0: seq<nat>, k: nat, links: map<nat, FreePage>, p: nat, h: FreePage, l: seq<nat>, i: nat)
    requires PageLinked(l0, h.next, links) && NoRepeat(l0) && k < |l0| && l0[k] == p && i <= k
    requires forall x :: x in l0 ==> x != 0
    requires PageLinked(l, p, links[p := h]) && p != 0
    ensures i + 1 < |l| && l[i + 1] == l0[i]
  {
    hide PageLinked;
    assert l0[i] in l0;
    if i == 0 {
      PageLinkAt(l, p, links[p := h], 0);
      PageLinkAt(l0, h.next, links, 0);
    } else {
      FollowPages(l0, k, links, p, h, l, i - 1);
      PageLinkAt(l, p, links[p := h], i);
      PageLinkAt(l0, h.next, links, i - 1);
    }
  }

  lemma PageLinkAt(l: seq<nat>, head: nat, links: map<nat, FreePage>, i: nat)
    requires PageLinked(l, head, links) && (i < |l| || (head != 0 && i == 0))
    ensures |l| > i && head == l[0] && l[i] in links && links[l[i]].next == After(l, i)
  {
  }

  lemma DoublePfree(pageBase: nat, next: nat, limit: nat, head: nat, links: map<nat, FreePage>,
                    free: seq<nat>, live: set<nat>, p: nat)
    requires PagesOk(pageBase, next, limit, head, links, free, live) && p in free
    ensures p !in live
    ensures var links' := links[p := FreePage(FREEPAGE_MAGIC, head)];
      && (forall l :: !(PageLinked(l, p, links') && NoRepeat(l)))
      && !PagesOk(pageBase, next, limit, p, links', [p] + free, live - {p})
  {
    var h := FreePage(FREEPAGE_MAGIC, head);
    var k :| 0 <= k < |free| && free[k] == p;
    assert forall x :: x in free ==> IsPage(x, pageBase, next, limit) && x != 0;
    hide PagesConserved, IsPage;
    forall l
      ensures !(PageLinked(l, p, links[p := h]) && NoRepeat(l))
    {
      if PageLinked(l, p, links[p := h]) {
        FollowPages(free, k, links, p, h, l, k);
        assert l[0] == l[k + 1];
      }
    }
  }

  lemma InUseOnce(pageBase: nat, next: nat, limit: nat, head: nat, links: map<nat, FreePage>,
                  free: seq<nat>, live: set<nat>, p: nat)
    requires PagesOk(pageBase, next, limit, head, links, free, live) && p in live
    ensures p != 0
  {
    assert IsPage(p, pageBase, next, limit);
  }

  /** A page taken off the bump pointer, or a refused request that moves it all the same. */
  lemma MorePages(pageBase: nat, next: nat, limit: nat, head: nat, links: map<nat, FreePage>,
                  free: seq<nat>, live: set<nat>)
    requires PagesOk(pageBase, next, limit, head, links, free, live) && next + PAGE < U32
    ensures next !in live
    ensures next + PAGE <= limit ==> PagesOk(pageBase, next + PAGE, limit, head, links, free, live + {next})
    ensures limit < next + PAGE ==> PagesOk(pageBase, next + PAGE, limit, head, links, free, live)
  {
    hide PageLinked;
    NextPage(next);
  }

  /** The share of the blocks is at most the whole heap, whatever the product does modulo 2^32,
      and the first page begins behind it. */
  lemma SplitFacts(start: nat, size: nat)
    requires start + size <= MAX_MEMORY
    ensures size * 3 % U32 / 4 <= size
    ensures var limit := start + size * 3 % U32 / 4;
      limit < (limit + PAGE) / PAGE * PAGE <= limit + PAGE && (limit + PAGE) / PAGE * PAGE % PAGE == 0
  {
    assert size * 3 % U32 <= size * 3;
  }

  lemma NoBlocks(base: nat, limit: nat)
    requires MEM_HEAP_START <= base <= limit <= MAX_MEMORY && GoodNext(base)
    ensures BlocksOk(base, base, limit, map[], seq(14, (i: nat) => 0), map[], seq(14, (i: nat) => []), {})
  {
  }

  lemma NoPages(pageBase: nat, limit: nat)
    requires 0 < pageBase < U32 && pageBase % PAGE == 0 && limit <= MAX_MEMORY
    ensures PagesOk(pageBase, pageBase, limit, 0, map[], [], {})
  {
  }

  /** How mem_initial divides `size` bytes from `start` on, in 32-bit arithmetic: the end of the blocks,
      the first page and the end of the pages. */
  function Limits(start: nat, size: nat): (nat, nat, nat) {
    Divide(start, Clamp(start, size))
  }

  /** The size, reduced so that the heap ends with the memory. */
  function Clamp(start: nat, size: nat): nat {
    var end := (start + size) % U32;
    if MAX_MEMORY < end then (size - (end - MAX_MEMORY)) % U32 else size
  }

  function Divide(start: nat, size: nat): (nat, nat, nat) {
    var blocks := size * 3 % U32 / 4;
    ((start + blocks) % U32, (start + blocks + PAGE) % U32 / PAGE * PAGE, (start + size) % U32)
  }

  lemma LimitsFacts(start: nat, size: nat)
    requires MEM_HEAP_START <= start && start + size < U32
    ensures var (blocks, page, limit) := Limits(start, size);
      && limit == (if start + size < MAX_MEMORY then start + size else MAX_MEMORY)
      && (start <= MAX_MEMORY ==>
            && blocks == start + (limit - start) * 3 % U32 / 4 && start <= blocks <= limit
            && blocks < page < U32 && page % PAGE == 0 && page == (blocks + PAGE) / PAGE * PAGE)
  {
    hide Clamp, Divide;
    ClampIs(start, size);
    if start <= MAX_MEMORY {
      DivideIs(start, Clamp(start, size));
    } else {
      ClampedLimit(start, size);
    }
  }

  lemma ClampIs(start: nat, size: nat)
    requires start + size < U32
    ensures start <= MAX_MEMORY ==> Clamp(start, size) == if MAX_MEMORY < start + size then MAX_MEMORY - start else size
    ensures MAX_MEMORY < start ==> Clamp(start, size) == U32 + MAX_MEMORY - start
  {
    SmallSum(start + size);
    if MAX_MEMORY < start + size {
      var less := size - (start + size - MAX_MEMORY);
      if start <= MAX_MEMORY {
        SmallSum(less);
      } else {
        assert less % U32 == less + U32;
      }
    }
  }

  lemma DivideIs(start: nat, size: nat)
    requires start + size <= MAX_MEMORY
    ensures var (blocks, page, limit) := Divide(start, size);
      && limit == start + size && blocks == start + size * 3 % U32 / 4 && start <= blocks <= limit
      && blocks < page < U32 && page % PAGE == 0 && page == (blocks + PAGE) / PAGE * PAGE
  {
    var blocks := size * 3 % U32 / 4;
    SplitFacts(start, size);
    SmallSum(start + size);
    SmallSum(start + blocks);
    SmallSum(start + blocks + PAGE);
  }

  /** A size that takes the end of the heap past the address space: the pages get none of it, and the
      blocks what the wrapped product gives them. */
  lemma WrappedLimits(start: nat, size: nat)
    requires MEM_HEAP_START <= start < U32 && size < U32 <= start + size
    ensures var (blocks, page, limit) := Limits(start, size);
      start <= MAX_MEMORY ==>
        && limit == start + size - U32 < start && blocks == start + size * 3 % U32 / 4
        && (blocks <= MAX_MEMORY ==> blocks < page < U32 && page % PAGE == 0)
  {
    assert (start + size) % U32 == start + size - U32;
    if start <= MAX_MEMORY {
      var share := size * 3 % U32 / 4;
      assert share < U32 / 4;
      SmallSum(start + share);
      if start + share <= MAX_MEMORY {
        SmallSum(start + share + PAGE);
        RoundUp(start + share);
      }
    }
  }

  lemma RoundUp(limit: nat)
    ensures limit < (limit + PAGE) / PAGE * PAGE <= limit + PAGE && (limit + PAGE) / PAGE * PAGE % PAGE == 0
  {
  }

  lemma BadStart(base: nat, limit: nat)
    requires !GoodNext(base) || MAX_MEMORY < base || limit < base || MAX_MEMORY < limit
    ensures !BlocksOk(base, base, limit, map[], seq(14, (i: nat) => 0), map[], seq(14, (i: nat) => []), {})
  {
  }

  /** Above the end of memory the clamped size wraps, and the limit is the end of memory again. */
  lemma ClampedLimit(start: nat, size: nat)
    requires MAX_MEMORY < start && start + size < U32
    ensures Limits(start, size).2 == MAX_MEMORY
  {
    ClampIs(start, size);
    hide Clamp;
    assert (U32 + MAX_MEMORY) % U32 == MAX_MEMORY;
  }

  class Heap {
    var nextBlock: nat
    var blockLimit: nat
    var headers: map<nat, Header>
    var heads: seq<nat>
    var nextPage: nat
    var pageLimit: nat
    var pageHead: nat
    var links: map<nat, FreePage>

    /** All blocks ever carved, by header address, with their sizes. */
    ghost var carved: map<nat, nat>
    /** The blocks in use. */
    ghost var live: set<nat>
    /** The free blocks of each size, in the order they will be reused. */
    ghost var lists: seq<seq<nat>>
    ghost var livePages: set<nat>
    ghost var freePages: seq<nat>
    ghost var base: nat
    ghost var pageBase: nat

    ghost predicate Valid()
      reads this
    {
      && BlocksOk(base, nextBlock, blockLimit, headers, heads, carved, lists, live)
      && PagesOk(pageBase, nextPage, pageLimit, pageHead, links, freePages, livePages)
      && blockLimit <= pageBase
    }

    /** mem_initial: the heap is in order exactly if its start is aligned, outside the frame buffer and
        below the end of memory, and, should its size take it past the address space, the blocks do not
        end behind the memory. */
    constructor (ulBase: nat, ulSize: nat)
      requires ulBase < U32 && ulSize < U32
      ensures base == if ulBase < MEM_HEAP_START then MEM_HEAP_START else ulBase
      ensures Valid() <==>
        && GoodNext(base) && base <= MAX_MEMORY
        && (U32 <= base + ulSize ==> base + ulSize * 3 % U32 / 4 <= MAX_MEMORY)
      ensures nextBlock == base && nextPage == pageBase
      ensures base + ulSize < U32 ==> pageLimit == if base + ulSize < MAX_MEMORY then base + ulSize else MAX_MEMORY
      ensures base + ulSize < U32 && base <= MAX_MEMORY ==>
        && blockLimit == base + (pageLimit - base) * 3 % U32 / 4 <= pageLimit
        && pageBase == (blockLimit + PAGE) / PAGE * PAGE
      ensures U32 <= base + ulSize && base <= MAX_MEMORY ==> pageLimit < base
      ensures carved == map[] && live == {} && lists == seq(14, (i: nat) => [])
      ensures livePages == {} && freePages == []
    {
      hide BlocksOk, PagesOk, GoodNext, Limits;
      var start := if ulBase < MEM_HEAP_START then MEM_HEAP_START else ulBase;
      var (blocks, page, limit) := Limits(start, ulSize);
      nextBlock := start;
      blockLimit := blocks;
      nextPage := page;
      pageLimit := limit;
      headers, links := map[], map[];
      heads, pageHead := seq(14, (i: nat) => 0), 0;
      carved, live, lists := map[], {}, seq(14, (i: nat) => []);
      livePages, freePages := {}, [];
      base, pageBase := start, page;
      if start + ulSize < U32 {
        LimitsFacts(start, ulSize);
      } else {
        WrappedLimits(start, ulSize);
      }
      if start <= MAX_MEMORY && GoodNext(start) && start <= blocks <= MAX_MEMORY {
        NoBlocks(start, blocks);
        NoPages(page, limit);
      } else {
        BadStart(start, blocks);
      }
    }

    /** Takes the first free block of bucket `b`. */
    method Reuse(b: nat) returns (p: nat)
      requires Valid() && b < 14 && lists[b] != []
      modifies `headers, `heads, `lists, `live
      ensures Valid()
      ensures p == old(lists[b][0]) + HEADER && p - HEADER !in old(live) && p - HEADER in carved
      ensures carved[p - HEADER] == Size(b)
      ensures live == old(live) + {p - HEADER} && lists == old(lists)[b := old(lists[b])[1..]]
    {
      hide BlocksOk, PagesOk, Size;
      Shape(base, nextBlock, blockLimit, headers, heads, carved, lists, live);
      TakeBlock(base, nextBlock, blockLimit, headers, heads, carved, lists, live, b);
      var a := heads[b];
      heads := heads[b := headers[a].next];
      headers := headers[a := headers[a].(magic := BLOCK_MAGIC)];
      headers := headers[a := headers[a].(next := 0)];
      assert headers == old(headers)[a := Header(BLOCK_MAGIC, Size(b), 0)];
      lists := lists[b := lists[b][1..]];
      live := live + {a};
      p := a + HEADER;
    }

    /** The bump pointer moves over the block, and over the frame buffer if the block would end in it. */
    method Bump(size: nat) returns (a: nat)
      modifies `nextBlock
      ensures (a, nextBlock) == Carve(old(nextBlock), size)
    {
      a := nextBlock;
      nextBlock := (nextBlock + HEADER + size) % U32;
      if FB < nextBlock <= FB_END {
        nextBlock := FB_END + 16;
        a := nextBlock;
        nextBlock := nextBlock + HEADER + size;
      }
    }

    /** Carves a new block of `size` bytes off the bump pointer, if the heap has room for it. */
    method CarveBlock(size: nat) returns (p: nat)
      requires Valid() && IsSize(size)
      modifies `nextBlock, `headers, `carved, `live
      ensures nextBlock == Carve(old(nextBlock), size).1
      ensures Wraps(old(nextBlock), size) ==> p == old(nextBlock) + HEADER && blockLimit < p
      ensures !Wraps(old(nextBlock), size) ==> Valid() && old(nextBlock) < nextBlock
      ensures !Wraps(old(nextBlock), size) ==> (p == 0 <==> blockLimit < nextBlock)
      ensures !Wraps(old(nextBlock), size) && p == 0 ==> carved == old(carved) && live == old(live) && headers == old(headers)
      ensures !Wraps(old(nextBlock), size) && p != 0 ==>
        && HEADER < p && p - HEADER !in old(carved) && p - HEADER !in old(live)
        && carved == old(carved)[p - HEADER := size] && live == old(live) + {p - HEADER}
        && p == Carve(old(nextBlock), size).0 + HEADER && p + size <= blockLimit
        && (p + size <= FB || FB_END <= p - HEADER <==> !Straddles(old(nextBlock), size))
    {
      hide BlocksOk, PagesOk, IsSize, Carve;
      SizeFacts(size);
      ghost var before := nextBlock;
      Shape(base, nextBlock, blockLimit, headers, heads, carved, lists, live);
      var a := Bump(size);
      if Wraps(before, size) {
        CarveWraps(before, size);
      } else {
        CarveFacts(before, size);
        SkipBlock(base, before, blockLimit, headers, heads, carved, lists, live, nextBlock);
      }
      if blockLimit < nextBlock {
        p := 0;
      } else {
        if !Wraps(before, size) {
          AddBlock(base, before, blockLimit, headers, heads, carved, lists, live, size, a, nextBlock);
          carved, live := carved[a := size], live + {a};
        }
        headers := headers[a := Header(BLOCK_MAGIC, size, 0)];
        p := a + HEADER;
      }
    }

    /** malloc: the address of a block of at least `size` bytes, or null. */
    method Malloc(size: nat) returns (p: nat)
      requires Valid()
      modifies `nextBlock, `headers, `heads, `carved, `lists, `live
      // A request for more than the largest block size is refused and changes nothing.
      ensures 0x4000000 < size ==> p == 0 && unchanged(this)
      // A free block of the right size is reused, the most recently freed one first.
      ensures var b := Bucket(size); b < 14 && old(lists)[b] != [] ==>
        && Valid() && nextBlock == old(nextBlock) && carved == old(carved)
        && p == old(lists)[b][0] + HEADER && lists == old(lists)[b := old(lists)[b][1..]]
        && live == old(live) + {p - HEADER}
      // Otherwise a new one is carved, and refused exactly if the pointer then exceeds the limit;
      // a refusal moves the pointer all the same.
      ensures var b := Bucket(size); b < 14 && old(lists)[b] == [] && !Wraps(old(nextBlock), Size(b)) ==>
        && Valid() && lists == old(lists)
        && old(nextBlock) < nextBlock == Carve(old(nextBlock), Size(b)).1
        && (p == 0 <==> blockLimit < nextBlock)
        && (p == 0 ==> carved == old(carved) && live == old(live))
        && (p != 0 ==> HEADER < p == Carve(old(nextBlock), Size(b)).0 + HEADER && p - HEADER !in old(carved))
        && (p != 0 ==> carved == old(carved)[p - HEADER := Size(b)] && live == old(live) + {p - HEADER})
      // Past the end of the address space a block beyond the heap is handed out.
      ensures var b := Bucket(size); b < 14 && old(lists)[b] == [] && Wraps(old(nextBlock), Size(b)) ==>
        p == old(nextBlock) + HEADER && blockLimit < p
      // What is returned lies within the heap, exactly unless the pointer ran past the end of
      // the address space.
      ensures var b := Bucket(size); p != 0 ==>
        b < 14 && (p + Size(b) <= blockLimit <==> old(lists)[b] != [] || !Wraps(old(nextBlock), Size(b)))
      // Such a block was not in use before, is large enough, aligned, and clear of the frame
      // buffer if up to 2 MiB were asked for.
      ensures p != 0 && p + Size(Bucket(size)) <= blockLimit ==>
        && base + HEADER <= p && p % 16 == 0 && p - HEADER !in old(live)
        && p - HEADER in carved && carved[p - HEADER] == Size(Bucket(size)) >= size
        && (size <= 0x200000 ==> p + size <= FB || FB_END + HEADER <= p)
    {
      hide BlocksOk, PagesOk, Size, Bucket, BucketFrom, Carve, IsSize;
      var b := FindBucket(size);
      BucketFacts(size);
      if b == 14 {
        p := 0;
        return;
      }
      Shape(base, nextBlock, blockLimit, headers, heads, carved, lists, live);
      HeadTells(base, nextBlock, blockLimit, headers, heads, carved, lists, live, b);
      SmallBuckets(size);
      if heads[b] != 0 {
        p := Reuse(b);
      } else {
        SizeIsSize(b);
        p := CarveBlock(Size(b));
      }
      if old(lists)[b] != [] || !Wraps(old(nextBlock), Size(b)) {
        if p != 0 {
          CarvedPlaced(base, nextBlock, blockLimit, headers, heads, carved, lists, live, p - HEADER);
        }
      }
    }

    /** free: gives a block back, to be the first of its size to be reused. A block that is free already
        makes its list a cycle: the heap stays in order exactly if the block was in use. */
    method Free(p: nat)
      requires Valid() && (p != 0 ==> HEADER <= p && p - HEADER in carved)
      modifies `headers, `heads, `lists, `live
      ensures p == 0 ==> unchanged(this)
      ensures Valid() <==> p == 0 || p - HEADER in old(live)
      ensures p != 0 ==> live == old(live) - {p - HEADER} && var b := Bucket(carved[p - HEADER]);
        && b < 14 && lists == Pushed(old(lists), b, p - HEADER)
        && (p - HEADER !in old(live) ==> |heads| == 14 && forall l :: !(Linked(l, heads[b], headers) && NoRepeat(l)))
    {
      hide BlocksOk, PagesOk, Size, Bucket, BucketFrom, IsSize, Linked, NoRepeat;
      if p == 0 {
        return;
      }
      var a := p - HEADER;
      Shape(base, nextBlock, blockLimit, headers, heads, carved, lists, live);
      CarvedRecorded(base, nextBlock, blockLimit, headers, heads, carved, lists, live, a);
      var b := BucketOfSize(headers[a].size);
      if b < 14 {
        ghost var h := Header(0, Size(b), heads[b]);
        if a in live {
          PushBlock(base, nextBlock, blockLimit, headers, heads, carved, lists, live, b, a);
        } else {
          DoubleFree(base, nextBlock, blockLimit, headers, heads, carved, lists, live, b, a, h);
        }
        headers := headers[a := headers[a].(magic := 0)];
        headers := headers[a := headers[a].(next := heads[b])];
        assert headers == old(headers)[a := h];
        heads := heads[b := a];
        lists := lists[b := [a] + lists[b]];
        live := live - {a};
      }
    }

    /** palloc: the address of a page, or null. */
    method Palloc() returns (p: nat)
      requires Valid()
      modifies `nextPage, `pageHead, `links, `freePages, `livePages
      ensures old(freePages) != [] ==> Valid() && p == old(freePages[0]) && nextPage == old(nextPage)
      ensures old(freePages) == [] && old(nextPage) + PAGE < U32 ==>
        && Valid() && nextPage == old(nextPage) + PAGE
        && (p == 0 <==> pageLimit < nextPage) && (p == 0 ==> livePages == old(livePages))
        && (p != 0 ==> p == old(nextPage))
      ensures p != 0 ==> (p + PAGE <= pageLimit <==> old(freePages) != [] || old(nextPage) + PAGE < U32)
      ensures p != 0 && p + PAGE <= pageLimit ==>
        && Valid() && p % PAGE == 0 && blockLimit <= p && p !in old(livePages)
        && livePages == old(livePages) + {p} && freePages == old(freePages)[if old(freePages) == [] then 0 else 1..]
    {
      hide BlocksOk, PageLinked;
      HeadPage(pageBase, nextPage, pageLimit, pageHead, links, freePages, livePages);
      if pageHead != 0 {
        p := pageHead;
        TakePage(pageBase, nextPage, pageLimit, pageHead, links, freePages, livePages, 0);
        pageHead := links[p].next;
        links := links[p := links[p].(magic := 0)];
        freePages, livePages := freePages[1..], livePages + {p};
      } else {
        p := nextPage;
        NextPage(nextPage);
        ghost var before := nextPage;
        nextPage := (nextPage + PAGE) % U32;
        if before + PAGE < U32 {
          MorePages(pageBase, before, pageLimit, pageHead, links, freePages, livePages);
        }
        if pageLimit < nextPage {
          p := 0;
          return;
        }
        if before + PAGE < U32 {
          livePages := livePages + {p};
        }
      }
    }

    /** pfree: gives a page back; the pages stay in order exactly if it was in use. */
    method Pfree(p: nat)
      requires Valid() && (p != 0 ==> p in livePages || p in freePages)
      modifies `pageHead, `links, `freePages, `livePages
      ensures p == 0 ==> unchanged(this)
      ensures Valid() <==> p == 0 || p in old(livePages)
      ensures p != 0 ==> livePages == old(livePages) - {p} && freePages == [p] + old(freePages)
      ensures p != 0 && p !in old(livePages) ==> forall l :: !(PageLinked(l, pageHead, links) && NoRepeat(l))
    {
      hide BlocksOk, PagesOk, PageLinked, NoRepeat;
      if p == 0 {
        return;
      }
      if p in livePages {
        PushPage(pageBase, nextPage, pageLimit, pageHead, links, freePages, livePages, p);
        InUseOnce(pageBase, nextPage, pageLimit, pageHead, links, freePages, livePages, p);
      } else {
        DoublePfree(pageBase, nextPage, pageLimit, pageHead, links, freePages, livePages, p);
      }
      links := links[p := FreePage(FREEPAGE_MAGIC, pageHead)];
      pageHead := p;
      freePages, livePages := [p] + freePages, livePages - {p};
    }
  }

  /** What a program may rely on: the whole extents of two blocks never overlap, whether in use or
      free, so that writing to the bytes of one disturbs neither another nor a list. */
  lemma BlocksNeverOverlap(h: Heap, a: nat, b: nat)
    requires h.Valid() && a in h.carved && b in h.carved && a != b
    ensures a + HEADER + h.carved[a] <= b || b + HEADER + h.carved[b] <= a
  {
  }

  /** A block in use was carved, lies within the limits and before every page. */
  lemma BlocksBeforePages(h: Heap, a: nat, p: nat)
    requires h.Valid() && a in h.live && (p in h.livePages || p in h.freePages)
    ensures a in h.carved && h.base <= a && a + HEADER + h.carved[a] <= h.blockLimit <= p
  {
    assert PlacedAt(a, h.carved[a], h.base, h.nextBlock, h.blockLimit);
    assert IsPage(p, h.pageBase, h.nextPage, h.pageLimit);
  }

  lemma PagesNeverOverlap(h: Heap, p: nat, q: nat)
    requires h.Valid() && p != q
    requires (p in h.livePages || p in h.freePages) && (q in h.livePages || q in h.freePages)
    ensures p + PAGE <= q || q + PAGE <= p
  {
    assert IsPage(p, h.pageBase, h.nextPage, h.pageLimit);
    assert IsPage(q, h.pageBase, h.nextPage, h.pageLimit);
    PagesApart(p, q);
  }

  lemma PagesApart(p: nat, q: nat)
    requires p % PAGE == 0 && q % PAGE == 0 && p != q
    ensures p + PAGE <= q || q + PAGE <= p
  {
  }

  /** Freeing a block and asking for as much again gives the same block and leaves the heap as it
      was. */
  method FreeThenMalloc(h: Heap, p: nat, size: nat) returns (q: nat)
    requires h.Valid() && HEADER <= p && p - HEADER in h.live && p - HEADER in h.carved
    requires Bucket(size) == Bucket(h.carved[p - HEADER])
    modifies h
    ensures h.Valid() && q == p
    ensures h.live == old(h.live) && h.lists == old(h.lists) && h.carved == old(h.carved)
    ensures h.nextBlock == old(h.nextBlock)
  {
    hide BlocksOk, PagesOk, Size, Bucket, Carve;
    h.Free(p);
    ghost var b := Bucket(size);
    Shape(h.base, h.nextBlock, h.blockLimit, h.headers, h.heads, h.carved, h.lists, h.live);
    assert h.lists[b] == [p - HEADER] + old(h.lists)[b];
    q := h.Malloc(size);
    assert h.lists == old(h.lists);
    assert h.live == old(h.live);
  }

  /** Refused requests are not free of consequence: repeating a 64 MiB request, each refusal moves
      the pointer on, until it passes the end of the address space and a block outside the heap is
      handed out. */
  method AskUntilOutside(h: Heap) returns (p: nat)
    requires h.Valid() && h.lists[13] == []
    modifies h
    ensures p != 0 && h.blockLimit == old(h.blockLimit) < p
  {
    hide BlocksOk, PagesOk, Bucket, Carve;
    SizeIsSize(13);
    assert Size(13) == 0x4000000;
    Shape(h.base, h.nextBlock, h.blockLimit, h.headers, h.heads, h.carved, h.lists, h.live);
    while !Wraps(h.nextBlock, Size(13))
      invariant h.Valid() && |h.lists| == 14 && h.lists[13] == [] && h.blockLimit == old(h.blockLimit)
      decreases U32 - h.nextBlock
    {
      p := h.Malloc(0x4000000);
    }
    p := h.Malloc(0x4000000);
  }

  /** The pages are not kept clear of the frame buffer: whenever the limits allow it, asking for pages
      ends with one that lies in it. */
  method AskUntilFrameBuffer(h: Heap) returns (p: nat)
    requires h.Valid() && h.freePages == [] && !PagesClear(h.nextPage, h.pageLimit)
    modifies h
    ensures h.Valid() && p in h.livePages && OverFrameBuffer(p)
  {
    hide BlocksOk, PageLinked, PagesConserved;
    while h.nextPage < FB
      invariant h.Valid() && h.freePages == [] && !PagesClear(h.nextPage, h.pageLimit)
      decreases FB - h.nextPage
    {
      NextPage(h.nextPage);
      p := h.Palloc();
    }
    p := h.Palloc();
  }

  /** A 64 MiB and an 8 MiB request on a fresh heap: the second block lies within the heap and covers
      the whole frame buffer. */
  method LargeBlockOverFrameBuffer() returns (h: Heap, p: nat)
    ensures h.Valid() && p - HEADER in h.live && p + 0x800000 <= h.blockLimit
    ensures p <= FB && FB_END <= p + 0x800000
  {
    hide BlocksOk, PagesOk, Bucket;
    h := new Heap(0, 0x10000000);
    assert h.blockLimit == 0x4dc00000;
    SizeIsSize(13);
    SizeIsSize(10);
    assert Size(13) == 0x4000000 && Size(10) == 0x800000;
    p := h.Malloc(0x4000000);
    assert h.nextBlock == 0x45c00010;
    p := h.Malloc(0x800000);
    assert h.nextBlock == 0x46400020 && p != 0;
  }
}
