/**
  Day 9 (src/bin/09.rs): a disk map alternates file sizes and free-space
  sizes. Part one expands it into single slots and moves file slots, one at
  a time, from the end of the disk into the first free slot; part two moves
  whole files, highest id first, into the first block of free space that
  can hold them. Both answer with the checksum, the sum of position times
  file id.
 */
module DiskFragmenter {
  import opened Common
  import opened Text

  /** The digits of the input, other characters skipped. */
  function DiskMap(input: string): (r: seq<nat>)
    ensures |r| <= |input|
    ensures forall k :: 0 <= k < |r| ==> r[k] < 10
  {
    if input == [] then []
    else if IsDigit(input[0]) then [DigitValue(input[0])] + DiskMap(input[1..])
    else DiskMap(input[1..])
  }

  /** Sum of position times value: the checksum of a disk laid out slot by slot. */
  function Checksum(slots: seq<nat>): nat
  {
    if slots == [] then 0
    else Checksum(slots[..|slots| - 1]) + (|slots| - 1) * slots[|slots| - 1]
  }

  // -------------------------------------------------------------- part one

  /** `n` copies of `x`. */
  function Repeat<T>(x: T, n: nat): (r: seq<T>)
    ensures |r| == n && forall k :: 0 <= k < n ==> r[k] == x
  {
    seq(n, _ => x)
  }

  lemma {:induction false} RepeatCount<T>(x: T, n: nat, y: T)
    ensures multiset(Repeat(x, n))[y] == if y == x then n else 0
  {
    if n > 0 {
      RepeatCount(x, n - 1, y);
      assert Repeat(x, n) == Repeat(x, n - 1) + [x];
    }
  }

  /**
    The disk of part one: digit `i` of the map gives that many slots, each
    holding file id `i / 2` for an even `i` and nothing for an odd `i`.
   */
  function Expand(diskMap: seq<nat>): (r: seq<Option<nat>>)
    ensures |r| == Sum(diskMap)
  {
    if diskMap == [] then []
    else
      var i := |diskMap| - 1;
      Expand(diskMap[..i]) + Repeat(Slot(i), diskMap[i])
  }

  /** What a slot of digit `i` holds. */
  function Slot(i: nat): (r: Option<nat>)
    ensures forall id: nat :: r == Some(id) <==> 2 * id == i
  {
    if i % 2 == 0 then Some(i / 2) else None
  }

  /** File `id` fills as many slots as digit `2 * id` says. */
  lemma {:induction false} ExpandCount(diskMap: seq<nat>, id: nat)
    ensures multiset(Expand(diskMap))[Some(id)] == if 2 * id < |diskMap| then diskMap[2 * id] else 0
  {
    if diskMap != [] {
      var i := |diskMap| - 1;
      var slot := Slot(i);
      ExpandCount(diskMap[..i], id);
      RepeatCount(slot, diskMap[i], Some(id));
      assert multiset(Expand(diskMap))[Some(id)] ==
        multiset(Expand(diskMap[..i]))[Some(id)] + multiset(Repeat(slot, diskMap[i]))[Some(id)];
    }
  }

  /** The number of file slots. */
  function Files(disk: seq<Option<nat>>): int
  {
    |disk| - multiset(disk)[None]
  }

  /** No free slot comes before a file slot. */
  predicate Compacted(disk: seq<Option<nat>>)
  {
    forall i, j :: 0 <= i < j < |disk| && disk[i].None? ==> disk[j].None?
  }

  /**
    What the source needs to run: `disk.len() - 1` underflows on an empty
    disk, and on a disk of two or more free slots and no file the right
    pointer steps below zero.
   */
  predicate Compactable(disk: seq<Option<nat>>)
  {
    |disk| == 1 || (|disk| > 1 && exists k :: 0 <= k < |disk| && disk[k].Some?)
  }

  lemma SomeCount(disk: seq<Option<nat>>, k: nat)
    requires k < |disk| && disk[k].Some?
    ensures Files(disk) >= 1
  {
    assert disk == disk[..k] + [disk[k]] + disk[k + 1..];
    assert multiset(disk)[None] == multiset(disk[..k])[None] + multiset(disk[k + 1..])[None];
  }

  /** When everything after `right` is free and so is some slot up to `right`, fewer than `right + 1` slots hold files. */
  lemma FreeTail(disk: seq<Option<nat>>, left: nat, right: nat)
    requires left <= right < |disk| && disk[left].None?
    requires forall k :: right < k < |disk| ==> disk[k].None?
    ensures Files(disk) <= right
  {
    var head, tail := disk[..right + 1], disk[right + 1..];
    assert disk == head + tail;
    assert tail == Repeat<Option<nat>>(None, |tail|);
    RepeatCount<Option<nat>>(None, |tail|, None);
    assert head == head[..left] + [None] + head[left + 1..];
    assert multiset(head)[None] >= 1;
  }

  /** Slots before the left pointer hold files, slots after the right pointer are free. */
  ghost predicate Sweep(disk: seq<Option<nat>>, left: nat, right: nat)
  {
    (forall k :: 0 <= k < left && k <= right && k < |disk| ==> disk[k].Some?) &&
    (forall k :: right < k < |disk| && left <= k ==> disk[k].None?)
  }

  /** Once the pointers have met, the disk is compacted. */
  lemma Settled(disk: seq<Option<nat>>, left: nat, right: nat)
    requires right <= left <= right + 2 && left <= |disk|
    requires Sweep(disk, left, right)
    ensures Compacted(disk)
  {
  }

  /**
    The disk is a rearrangement of `original` in which the first `files`
    slots that held files in `original` still hold them.
   */
  ghost predicate Kept(disk: seq<Option<nat>>, original: seq<Option<nat>>, files: int)
  {
    |disk| == |original| && multiset(disk) == multiset(original) &&
    forall i :: 0 <= i < files && i < |original| && original[i].Some? ==> disk[i] == original[i]
  }

  /** Swapping the free slot at `left` with the file slot at `right` moves both pointers inwards. */
  lemma SwapSweep(disk: seq<Option<nat>>, left: nat, right: nat)
    requires left <= right < |disk| && 1 <= right
    requires Sweep(disk, left, right)
    requires left < right ==> disk[left].None? && disk[right].Some?
    ensures Sweep(disk[left := disk[right]][right := disk[left]], left + 1, right - 1)
  {
  }

  /** The swap keeps what `Kept` says, as long as the right pointer lies past the first `files` slots. */
  lemma SwapKept(disk: seq<Option<nat>>, left: nat, right: nat, original: seq<Option<nat>>, files: int)
    requires left <= right < |disk| && Kept(disk, original, files)
    requires left < right ==> disk[left].None? && files <= right
    ensures Kept(disk[left := disk[right]][right := disk[left]], original, files)
  {
    var after := disk[left := disk[right]][right := disk[left]];
    assert multiset(after) == multiset(disk);
  }

  /** The first inner loop: the left pointer skips file slots. */
  method SeekFree(disk: array<Option<nat>>, left: nat, right: nat) returns (l: nat)
    requires left <= right < disk.Length && Sweep(disk[..], left, right)
    ensures left <= l <= right && Sweep(disk[..], l, right)
    ensures l < right ==> disk[l].None?
    ensures forall k :: left <= k < l ==> disk[k].Some?
  {
    l := left;
    while l < right && disk[l].Some?
      invariant left <= l <= right && Sweep(disk[..], l, right)
      invariant forall k :: left <= k < l ==> disk[k].Some?
    {
      l := l + 1;
    }
  }

  /** The second inner loop: the right pointer skips free slots. */
  method SeekFile(disk: array<Option<nat>>, left: nat, right: nat) returns (r: nat)
    requires left <= right < disk.Length && Sweep(disk[..], left, right)
    ensures left <= r <= right && Sweep(disk[..], left, r)
    ensures left < r ==> disk[r].Some?
    ensures forall k :: r < k <= right ==> disk[k].None?
  {
    r := right;
    while left < r && disk[r].None?
      invariant left <= r <= right && Sweep(disk[..], left, r)
      invariant forall k :: r < k <= right ==> disk[k].None?
    {
      r := r - 1;
    }
  }

  /** The invariant of the compaction loop. */
  ghost predicate Sweeping(disk: seq<Option<nat>>, left: int, right: int, original: seq<Option<nat>>, files: int)
  {
    0 <= left <= right + 2 && left <= |disk| && 0 <= right < |disk| &&
    Sweep(disk, left, right) && Kept(disk, original, files) && (left < right ==> files >= 1)
  }

  /** One pass of the compaction loop, once both pointers have stopped: the swap keeps the invariant. */
  lemma Pass(disk: seq<Option<nat>>, left: nat, right: nat, original: seq<Option<nat>>, files: int)
    requires left <= right < |disk| && Sweep(disk, left, right) && Kept(disk, original, files)
    requires files == Files(original) >= 1
    requires left < right ==> disk[left].None? && disk[right].Some?
    requires right == 0 ==> disk[0].None?
    ensures 1 <= right
    ensures Sweeping(disk[left := disk[right]][right := disk[left]], left + 1, right - 1, original, files)
  {
    assert forall k :: right < k < |disk| ==> disk[k].None?;
    if left < right {
      FreeTail(disk, left, right);
    } else if right == 0 {
      FreeTail(disk, 0, 0);
      assert false;
    }
    SwapSweep(disk, left, right);
    SwapKept(disk, left, right, original, files);
  }

  /** The first free slot, or `|disk|` when every slot holds a file. */
  function FirstFree(disk: seq<Option<nat>>): (i: nat)
    ensures i <= |disk| && (i < |disk| ==> disk[i].None?)
    ensures forall k :: 0 <= k < i ==> disk[k].Some?
  {
    if disk == [] then 0
    else if disk[0].None? then 0
    else 1 + FirstFree(disk[1..])
  }

  /** The last file slot, or -1 when every slot is free. */
  function LastFile(disk: seq<Option<nat>>): (j: int)
    ensures -1 <= j < |disk| && (0 <= j ==> disk[j].Some?)
    ensures forall k :: j < k < |disk| ==> disk[k].None?
  {
    if disk == [] then -1
    else if disk[|disk| - 1].Some? then |disk| - 1
    else LastFile(disk[..|disk| - 1])
  }

  /**
    The compaction of part one, as a reference: while some free slot comes
    before a file slot, the leftmost free slot takes the rightmost file
    slot's file.
   */
  function CompactRef(disk: seq<Option<nat>>): (r: seq<Option<nat>>)
    ensures |r| == |disk|
    decreases |disk| - FirstFree(disk)
  {
    var i := FirstFree(disk);
    var j := LastFile(disk);
    if i < j then
      var next := disk[i := disk[j]][j := disk[i]];
      assert next[i].Some? && forall k :: 0 <= k < i ==> next[k].Some?;
      CompactRef(next)
    else
      disk
  }

  /** The reference only rearranges the slots. */
  lemma {:induction false} CompactRefPermutes(disk: seq<Option<nat>>)
    ensures multiset(CompactRef(disk)) == multiset(disk)
    decreases |disk| - FirstFree(disk)
  {
    var i, j := FirstFree(disk), LastFile(disk);
    if i < j {
      var next := disk[i := disk[j]][j := disk[i]];
      assert next[i].Some? && forall k :: 0 <= k < i ==> next[k].Some?;
      CompactRefPermutes(next);
    }
  }

  /** The reference leaves no free slot before a file slot. */
  lemma {:induction false} CompactRefCompacted(disk: seq<Option<nat>>)
    ensures Compacted(CompactRef(disk))
    decreases |disk| - FirstFree(disk)
  {
    var i, j := FirstFree(disk), LastFile(disk);
    if i < j {
      var next := disk[i := disk[j]][j := disk[i]];
      assert next[i].Some? && forall k :: 0 <= k < i ==> next[k].Some?;
      CompactRefCompacted(next);
    }
  }

  /** A compacted disk is its own compaction. */
  lemma CompactedFixed(disk: seq<Option<nat>>)
    requires Compacted(disk)
    ensures CompactRef(disk) == disk
  {
  }

  /** Swapping the first free slot with the last file slot is one step of the reference. */
  lemma CompactRefStep(disk: seq<Option<nat>>, i: nat, j: nat)
    requires i < j < |disk| && disk[i].None? && disk[j].Some?
    requires forall k :: 0 <= k < i ==> disk[k].Some?
    requires forall k :: j < k < |disk| ==> disk[k].None?
    ensures CompactRef(disk[i := disk[j]][j := disk[i]]) == CompactRef(disk)
  {
    assert FirstFree(disk) == i && LastFile(disk) == j;
  }

  /** The reference never moves a file that already lies among the first `Files` slots. */
  lemma {:induction false} CompactRefKept(disk: seq<Option<nat>>, original: seq<Option<nat>>)
    requires Kept(disk, original, Files(original))
    ensures Kept(CompactRef(disk), original, Files(original))
    decreases |disk| - FirstFree(disk)
  {
    var i, j := FirstFree(disk), LastFile(disk);
    if i < j {
      var next := disk[i := disk[j]][j := disk[i]];
      FreeTail(disk, i, j);
      SwapKept(disk, i, j, original, Files(original));
      assert next[i].Some? && forall k :: 0 <= k < i ==> next[k].Some?;
      CompactRefKept(next, original);
    }
  }

  /** One pass of the compaction loop is one step of the reference (or none, once the pointers meet). */
  lemma SwapRef(disk: seq<Option<nat>>, left: nat, right: nat)
    requires left <= right < |disk| && Sweep(disk, left, right)
    requires left < right ==> disk[left].None? && disk[right].Some?
    ensures CompactRef(disk[left := disk[right]][right := disk[left]]) == CompactRef(disk)
  {
    if left < right {
      CompactRefStep(disk, left, right);
    } else {
      assert disk[left := disk[right]][right := disk[left]] == disk;
    }
  }

  /** Disk map "12101" expands to `[0, ., ., 1, 2]`. */
  lemma ExpandExample()
    ensures Expand([1, 2, 1, 0, 1]) == [Some(0), None, None, Some(1), Some(2)]
  {
    assert [1, 2, 1, 0, 1][..4] == [1, 2, 1, 0];
    assert [1, 2, 1, 0][..3] == [1, 2, 1];
    assert [1, 2, 1][..2] == [1, 2];
    assert [1, 2][..1] == [1];
  }

  /** `[0, ., ., 1, 2]` compacts to `[0, 2, 1, ., .]`: file 2 moves first, then file 1. */
  lemma CompactExample(d: seq<Option<nat>>)
    requires d == [Some(0), None, None, Some(1), Some(2)]
    ensures CompactRef(d) == [Some(0), Some(2), Some(1), None, None]
  {
    var d1 := [Some(0), Some(2), None, Some(1), None];
    var d2 := [Some(0), Some(2), Some(1), None, None];
    CompactRefStep(d, 1, 4);
    assert d[1 := d[4]][4 := d[1]] == d1;
    CompactRefStep(d1, 2, 3);
    assert d1[2 := d1[3]][3 := d1[2]] == d2;
    CompactedFixed(d2);
  }

  /** The checksum of `[0, 2, 1, 0, 0]` is 0 * 0 + 1 * 2 + 2 * 1 = 4. */
  lemma ChecksumExample(slots: seq<nat>)
    requires slots == [0, 2, 1, 0, 0]
    ensures Checksum(slots) == 4
  {
    var s1, s2, s3, s4 := [0], [0, 2], [0, 2, 1], [0, 2, 1, 0];
    assert s1[..0] == [] && s2[..1] == s1 && s3[..2] == s2 && s4[..3] == s3 && slots[..4] == s4;
    assert Checksum(s1) == 0;
    assert Checksum(s2) == 2;
    assert Checksum(s3) == 4;
    assert Checksum(s4) == 4;
  }

  /** A free slot counts as 0: the slots of `[0, 2, 1, ., .]` are `[0, 2, 1, 0, 0]`. */
  lemma IdsExample()
    ensures Ids([Some(0), Some(2), Some(1), None, None]) == [0, 2, 1, 0, 0]
  {
  }

  /** `slice::swap`. */
  method Swap(disk: array<Option<nat>>, i: nat, j: nat)
    requires i < disk.Length && j < disk.Length
    modifies disk
    ensures disk[..] == old(disk[..])[i := old(disk[j])][j := old(disk[i])]
  {
    disk[i], disk[j] := disk[j], disk[i];
  }

  /** One pass of the compaction loop: both pointers stop, the two slots are swapped, and both pointers move inwards. */
  method Step(disk: array<Option<nat>>, left: nat, right: nat, ghost original: seq<Option<nat>>, ghost files: int)
      returns (l: nat, r: int)
    requires left < right && Sweeping(disk[..], left, right, original, files) && files == Files(original)
    modifies disk
    ensures Sweeping(disk[..], l, r, original, files) && right - left > r - l
    ensures CompactRef(disk[..]) == CompactRef(old(disk[..]))
  {
    l := SeekFree(disk, left, right);
    r := SeekFile(disk, l, right);
    ghost var before := disk[..];
    Pass(before, l, r, original, files);
    SwapRef(before, l, r);
    Swap(disk, l, r);
    l, r := l + 1, r - 1;
  }

  /**
    The compaction loop of `part_one`: a left pointer looks for free slots, a
    right pointer for file slots, and the two are swapped until the pointers
    meet. The result is a rearrangement of the disk with no free slot before
    a file slot, and a file slot that already lies among the first `Files`
    slots is never moved.
   */
  method Compact(disk: array<Option<nat>>)
    requires Compactable(disk[..])
    modifies disk
    ensures multiset(disk[..]) == multiset(old(disk[..]))
    ensures Compacted(disk[..])
    ensures forall i :: 0 <= i < Files(old(disk[..])) && old(disk[i]).Some? ==> disk[i] == old(disk[i])
    ensures disk[..] == CompactRef(old(disk[..]))
  {
    ghost var original := disk[..];
    ghost var files := Files(original);
    if disk.Length > 1 {
      var k :| 0 <= k < disk.Length && disk[k].Some?;
      SomeCount(original, k);
    }
    ghost var target := CompactRef(original);
    var left: nat := 0;
    var right: nat := disk.Length - 1;
    while left < right
      invariant Sweeping(disk[..], left, right, original, files)
      invariant CompactRef(disk[..]) == target
      decreases right - left
    {
      left, right := Step(disk, left, right, original, files);
    }
    Settled(disk[..], left, right);
    CompactedFixed(disk[..]);
  }

  /** A free slot counts as 0 in the checksum. */
  function Ids(disk: seq<Option<nat>>): (r: seq<nat>)
    ensures |r| == |disk|
    ensures forall k :: 0 <= k < |disk| ==> r[k] == if disk[k].Some? then disk[k].value else 0
  {
    if disk == [] then [] else Ids(disk[..|disk| - 1]) + [if disk[|disk| - 1].Some? then disk[|disk| - 1].value else 0]
  }

  /**
    `part_one`: the checksum of the compacted disk. The disk must be one the
    loop can run on (see `Compactable`).
   */
  method PartOne(input: string) returns (r: Option<nat>)
    requires Compactable(Expand(DiskMap(input)))
    ensures r.Some?
    ensures r == Some(Checksum(Ids(CompactRef(Expand(DiskMap(input))))))
    ensures exists disk :: Kept(disk, Expand(DiskMap(input)), Files(Expand(DiskMap(input)))) &&
                           Compacted(disk) && r.value == Checksum(Ids(disk))
  {
    var slots := Expand(DiskMap(input));
    var disk := new Option<nat>[|slots|](i requires 0 <= i < |slots| => slots[i]);
    assert disk[..] == slots;
    Compact(disk);
    r := Some(Checksum(Ids(disk[..])));
    assert Kept(disk[..], slots, Files(slots));
  }

  // -------------------------------------------------------------- part two

  datatype BlockType = File | Free

  /** The fields of a block, as a value. */
  datatype Extent = Extent(kind: BlockType, data: seq<nat>, free: nat)

  /** The slots a block spans, taken or not. */
  function Capacity(e: Extent): nat
  {
    |e.data| + e.free
  }

  /** A block marked File has no free slot. */
  predicate Consistent(e: Extent)
  {
    e.kind == File ==> e.free == 0
  }

  /** `Block::new` for digit `id` of the map: a file of `size` slots of id `id / 2`, or `size` free slots. */
  function Fresh(id: nat, size: nat): (e: Extent)
    ensures e.kind == File <==> id % 2 == 0
    ensures Capacity(e) == size && Consistent(e)
    ensures forall x :: x in e.data ==> 2 * x == id
    ensures e.kind == Free ==> e.data == []
  {
    if id % 2 == 0 then Extent(File, Repeat(id / 2, size), 0) else Extent(Free, [], size)
  }

  /** `fill`: the data goes after what the block holds; a block with no free slot left is marked File. */
  function Filled(e: Extent, d: seq<nat>): (r: Extent)
    requires |d| <= e.free
    ensures r.data == e.data + d && Capacity(r) == Capacity(e)
    ensures r.kind == File <==> r.free == 0 || e.kind == File
    ensures Consistent(e) ==> Consistent(r)
  {
    var free := e.free - |d|;
    Extent(if free == 0 then File else e.kind, e.data + d, free)
  }

  /** `clear`: the block's data becomes free slots and the block is marked Free. */
  function Cleared(e: Extent): (r: Extent)
    ensures r.data == [] && r.kind == Free && Consistent(r)
    ensures Capacity(r) == |e.data|
    ensures e.free == 0 ==> Capacity(r) == Capacity(e)
  {
    Extent(Free, [], |e.data|)
  }

  class Block {
    var kind: BlockType
    var data: seq<nat>
    var free: nat

    function Value(): Extent
      reads this
    {
      Extent(kind, data, free)
    }

    predicate Valid()
      reads this
    {
      Consistent(Value())
    }

    /** `Block::new`. */
    constructor (id: nat, size: nat)
      ensures Value() == Fresh(id, size)
    {
      if id % 2 == 0 {
        kind := File;
        free := 0;
        data := Repeat(id / 2, size);
      } else {
        kind := Free;
        free := size;
        data := [];
      }
    }

    /** `fill`; the source's `free -= data.len()` underflows unless the data fits. */
    method Fill(d: seq<nat>)
      requires |d| <= free
      modifies this
      ensures Value() == Filled(old(Value()), d)
    {
      data := data + d;
      free := free - |d|;
      if free == 0 {
        kind := File;
      }
    }

    /** `clear`. */
    method Clear()
      modifies this
      ensures Value() == Cleared(old(Value()))
    {
      free := |data|;
      data := [];
      kind := Free;
    }
  }

  /** The blocks of the disk are distinct objects. */
  ghost predicate Distinct(disk: seq<Block>)
  {
    forall i, j :: 0 <= i < j < |disk| ==> disk[i] != disk[j]
  }

  function Values(disk: seq<Block>): (r: seq<Extent>)
    reads disk
    ensures |r| == |disk| && forall i :: 0 <= i < |disk| ==> r[i] == disk[i].Value()
  {
    seq(|disk|, i requires 0 <= i < |disk| reads disk => disk[i].Value())
  }

  /** The disk `part_two` starts from. */
  function Initial(diskMap: seq<nat>): (r: seq<Extent>)
    ensures |r| == |diskMap| && forall i :: 0 <= i < |diskMap| ==> r[i] == Fresh(i, diskMap[i])
  {
    seq(|diskMap|, i requires 0 <= i < |diskMap| => Fresh(i, diskMap[i]))
  }

  /** Builds the blocks, one `Block::new` per digit. */
  method NewDisk(diskMap: seq<nat>) returns (disk: seq<Block>)
    ensures Distinct(disk) && Values(disk) == Initial(diskMap)
    ensures forall i :: 0 <= i < |disk| ==> fresh(disk[i])
  {
    disk := [];
    for i := 0 to |diskMap|
      invariant |disk| == i && Distinct(disk)
      invariant forall k :: 0 <= k < i ==> fresh(disk[k]) && disk[k].Value() == Fresh(k, diskMap[k])
    {
      var block := new Block(i, diskMap[i]);
      disk := disk + [block];
    }
  }

  /** Every file id on the disk, with multiplicity. */
  function FileIds(disk: seq<Extent>): multiset<nat>
  {
    if disk == [] then multiset{} else FileIds(disk[..|disk| - 1]) + multiset(disk[|disk| - 1].data)
  }

  /** Files only ever sit at or left of the block they started in: block `2 * x` for file `x`. */
  ghost predicate LeftOnly(disk: seq<Extent>)
  {
    forall i, x :: 0 <= i < |disk| && x in disk[i].data ==> i <= 2 * x
  }

  /**
    What the file moves of `part_two` keep: every block spans as many slots
    as before and stays consistent, the disk holds the same file ids, and no
    file lies right of where it started.
   */
  ghost predicate Reorganised(before: seq<Extent>, after: seq<Extent>)
  {
    |after| == |before| &&
    (forall i :: 0 <= i < |after| ==> Capacity(after[i]) == Capacity(before[i]) && Consistent(after[i])) &&
    FileIds(after) == FileIds(before) && LeftOnly(after)
  }

  lemma {:induction false} FileIdsUpdate(disk: seq<Extent>, i: nat, e: Extent)
    requires i < |disk|
    ensures FileIds(disk[i := e]) + multiset(disk[i].data) == FileIds(disk) + multiset(e.data)
  {
    var n := |disk| - 1;
    var after := disk[i := e];
    if i < n {
      FileIdsUpdate(disk[..n], i, e);
      assert after[..n] == disk[..n][i := e] && after[n] == disk[n];
      Shift(FileIds(after[..n]), FileIds(disk[..n]), multiset(disk[i].data), multiset(e.data), multiset(disk[n].data));
    } else {
      assert after[..n] == disk[..n];
    }
  }

  lemma Shift(a: multiset<nat>, b: multiset<nat>, x: multiset<nat>, y: multiset<nat>, z: multiset<nat>)
    requires a + x == b + y
    ensures (a + z) + x == (b + z) + y
  {
    assert (a + z) + x == (a + x) + z;
  }

  /** The initial disk: every file in its own block. */
  lemma InitialLeftOnly(diskMap: seq<nat>)
    ensures LeftOnly(Initial(diskMap))
    ensures forall i :: 0 <= i < |diskMap| ==> Consistent(Initial(diskMap)[i])
  {
    forall i, x | 0 <= i < |diskMap| && x in Initial(diskMap)[i].data
      ensures i <= 2 * x
    {
      assert 2 * x == i;
    }
  }

  /** Where block `right`'s file fits: the block is marked Free and has room. */
  predicate Fits(e: Extent, size: nat)
  {
    e.kind == Free && size <= e.free
  }

  /** The first block left of `right` that can take `size` slots of data, or `right` when there is none. */
  function FirstFit(disk: seq<Extent>, right: nat, size: nat): (left: nat)
    requires right <= |disk|
    ensures left <= right
    ensures left < right ==> Fits(disk[left], size)
    ensures forall k :: 0 <= k < left ==> !Fits(disk[k], size)
  {
    if right == 0 then 0
    else
      var left := FirstFit(disk, right - 1, size);
      if left < right - 1 || Fits(disk[right - 1], size) then left else right
  }

  /**
    One round of `part_two` on block `right`: a block marked File moves its
    data into the first block left of it that fits, if any; otherwise the
    disk is unchanged.
   */
  function Moved(disk: seq<Extent>, right: nat): (r: seq<Extent>)
    requires right < |disk|
    ensures |r| == |disk|
  {
    var left := FirstFit(disk, right, |disk[right].data|);
    if disk[right].kind == File && left < right then
      disk[left := Filled(disk[left], disk[right].data)][right := Cleared(disk[right])]
    else
      disk
  }

  /**
    The rounds of `part_two` as a reference: the disk after the rounds on
    blocks `top`, `top - 1`, ..., `r + 1`, in that order.
   */
  function Rounds(start: seq<Extent>, top: nat, r: nat): (d: seq<Extent>)
    requires r <= top < |start|
    ensures |d| == |start|
    decreases top - r
  {
    if r == top then start else Moved(Rounds(start, top, r + 1), r + 1)
  }

  /** The rounds keep what `Reorganised` says. */
  lemma {:induction false} RoundsReorganised(start: seq<Extent>, top: nat, r: nat)
    requires r <= top < |start| && Reorganised(start, start)
    ensures Reorganised(start, Rounds(start, top, r))
    decreases top - r
  {
    if r < top {
      RoundsReorganised(start, top, r + 1);
      var disk := Rounds(start, top, r + 1);
      var left := FirstFit(disk, r + 1, |disk[r + 1].data|);
      if disk[r + 1].kind == File && left < r + 1 {
        MoveKeeps(start, disk, left, r + 1);
      }
    }
  }

  /** From the initial disk, the rounds keep every block's span and every file id, and move files only leftwards. */
  lemma InitialReorganised(diskMap: seq<nat>)
    requires |diskMap| > 0
    ensures Reorganised(Initial(diskMap), Rounds(Initial(diskMap), |diskMap| - 1, 0))
  {
    InitialLeftOnly(diskMap);
    StartReorganised(Initial(diskMap), |diskMap| - 1);
  }

  /** From any consistent disk whose files lie at or left of their starting blocks, the rounds keep what `Reorganised` says. */
  lemma StartReorganised(start: seq<Extent>, last: nat)
    requires last + 1 == |start| && LeftOnly(start)
    requires forall i :: 0 <= i < |start| ==> Consistent(start[i])
    ensures Reorganised(start, Rounds(start, last, 0))
  {
    SelfReorganised(start);
    RoundsReorganised(start, last, 0);
  }

  lemma SelfReorganised(start: seq<Extent>)
    requires LeftOnly(start) && forall i :: 0 <= i < |start| ==> Consistent(start[i])
    ensures Reorganised(start, start)
  {
  }

  /**
    The inner loop of `part_two`: the first block left of `right` that can
    take `right`'s data, or `right` itself when there is none.
   */
  method FindRoom(disk: seq<Block>, right: nat) returns (left: nat)
    requires right < |disk|
    ensures left <= right
    ensures left < right ==> Fits(disk[left].Value(), |disk[right].data|)
    ensures forall k :: 0 <= k < left ==> !Fits(disk[k].Value(), |disk[right].data|)
    ensures left == FirstFit(Values(disk), right, |disk[right].data|)
  {
    left := 0;
    while left < right && !Fits(disk[left].Value(), |disk[right].data|)
      invariant left <= right
      invariant forall k :: 0 <= k < left ==> !Fits(disk[k].Value(), |disk[right].data|)
    {
      left := left + 1;
    }
    FitUnique(Values(disk), right, |disk[right].data|, left);
  }

  /** `FirstFit` is the only index with its three properties. */
  lemma FitUnique(disk: seq<Extent>, right: nat, size: nat, left: nat)
    requires right <= |disk| && left <= right
    requires left < right ==> Fits(disk[left], size)
    requires forall k :: 0 <= k < left ==> !Fits(disk[k], size)
    ensures left == FirstFit(disk, right, size)
  {
  }

  /** One file move: `fill` the block at `left` with the data at `right`, then `clear` the block at `right`. */
  method MoveFile(disk: seq<Block>, left: nat, right: nat)
    requires left < right < |disk| && Distinct(disk)
    requires |disk[right].data| <= disk[left].free
    modifies disk[left], disk[right]
    ensures Values(disk) == old(Values(disk))[left := Filled(old(disk[left].Value()), old(disk[right].data))]
                                             [right := Cleared(old(disk[right].Value()))]
  {
    var moved := disk[right].data;
    disk[left].Fill(moved);
    disk[right].Clear();
  }

  /** Moving the data of block `right` into block `left` keeps the file ids on the disk. */
  lemma MoveIds(disk: seq<Extent>, left: nat, right: nat)
    requires left < right < |disk| && |disk[right].data| <= disk[left].free
    ensures FileIds(disk[left := Filled(disk[left], disk[right].data)][right := Cleared(disk[right])]) == FileIds(disk)
  {
    var filled := Filled(disk[left], disk[right].data);
    var middle := disk[left := filled];
    var after := middle[right := Cleared(disk[right])];
    var moved := multiset(disk[right].data);
    FileIdsUpdate(disk, left, filled);
    FileIdsUpdate(middle, right, Cleared(disk[right]));
    assert multiset(filled.data) == multiset(disk[left].data) + moved;
    assert middle[right] == disk[right] && multiset(Cleared(disk[right]).data) == multiset{};
    Cancel(FileIds(middle), FileIds(after), FileIds(disk), multiset(disk[left].data), moved);
  }

  lemma Cancel(a: multiset<nat>, b: multiset<nat>, d: multiset<nat>, l: multiset<nat>, m: multiset<nat>)
    requires a + l == d + (l + m) && b + m == a
    ensures b == d
  {
    forall x
      ensures b[x] == d[x]
    {
      assert (a + l)[x] == (d + (l + m))[x];
    }
  }

  /** Moving data leftwards keeps every file at or left of its starting block. */
  lemma MoveLeftOnly(disk: seq<Extent>, left: nat, right: nat)
    requires left < right < |disk| && |disk[right].data| <= disk[left].free && LeftOnly(disk)
    ensures LeftOnly(disk[left := Filled(disk[left], disk[right].data)][right := Cleared(disk[right])])
  {
    var after := disk[left := Filled(disk[left], disk[right].data)][right := Cleared(disk[right])];
    forall i, x | 0 <= i < |after| && x in after[i].data
      ensures i <= 2 * x
    {
      if i == left && x !in disk[left].data {
        assert x in disk[right].data;
      }
    }
  }

  /** A move of a consistent file block into a block left of it that fits keeps what `Reorganised` says. */
  lemma MoveKeeps(start: seq<Extent>, disk: seq<Extent>, left: nat, right: nat)
    requires left < right < |disk| && Reorganised(start, disk)
    requires disk[right].kind == File && Fits(disk[left], |disk[right].data|)
    ensures Reorganised(start, disk[left := Filled(disk[left], disk[right].data)][right := Cleared(disk[right])])
  {
    MoveIds(disk, left, right);
    MoveLeftOnly(disk, left, right);
  }

  /** One round of the file-move loop, on block `right`. */
  method Round(disk: seq<Block>, right: nat, ghost start: seq<Extent>, ghost top: nat)
    requires 0 < right <= top < |start| == |disk| && Distinct(disk)
    requires Values(disk) == Rounds(start, top, right)
    modifies disk
    ensures Values(disk) == Rounds(start, top, right - 1)
  {
    if disk[right].kind == File {
      var left := FindRoom(disk, right);
      if left < right {
        MoveFile(disk, left, right);
      }
    }
  }

  /**
    The file-move loop of `part_two`: from the last block down to the
    second, each block marked File is moved into the first block left of it
    that fits, if any.
   */
  method MoveFiles(disk: seq<Block>)
    requires 0 < |disk| && Distinct(disk)
    modifies disk
    ensures Values(disk) == Rounds(old(Values(disk)), |disk| - 1, 0)
  {
    ghost var start := Values(disk);
    var right: nat := |disk| - 1;
    ghost var top := right;
    while right > 0
      invariant right <= top < |disk| && Values(disk) == Rounds(start, top, right)
    {
      Round(disk, right, start, top);
      right := right - 1;
    }
  }

  /** The slots of the disk in order: each block's data, then a 0 per free slot. */
  function Layout(disk: seq<Extent>): (r: seq<nat>)
    ensures |r| == SlotCount(disk)
  {
    if disk == [] then []
    else Layout(disk[..|disk| - 1]) + disk[|disk| - 1].data + Repeat(0, disk[|disk| - 1].free)
  }

  function SlotCount(disk: seq<Extent>): nat
  {
    if disk == [] then 0 else SlotCount(disk[..|disk| - 1]) + Capacity(disk[|disk| - 1])
  }

  /** The moves keep the number of slots on the disk. */
  lemma {:induction false} SlotsKept(before: seq<Extent>, after: seq<Extent>)
    requires |after| == |before|
    requires forall i :: 0 <= i < |after| ==> Capacity(after[i]) == Capacity(before[i])
    ensures SlotCount(after) == SlotCount(before)
  {
    if after != [] {
      SlotsKept(before[..|before| - 1], after[..|after| - 1]);
    }
  }

  /** The initial disk spans as many slots as the digits add up to. */
  lemma {:induction false} InitialSlots(diskMap: seq<nat>)
    ensures SlotCount(Initial(diskMap)) == Sum(diskMap)
  {
    if diskMap != [] {
      var n := |diskMap| - 1;
      InitialSlots(diskMap[..n]);
      assert Initial(diskMap)[..n] == Initial(diskMap[..n]);
    }
  }

  /**
    `part_two`: the checksum of the disk after the file moves, over as many
    slots as the digits add up to. `disk.len() - 1` underflows without a
    digit.
   */
  method PartTwo(input: string) returns (r: Option<nat>)
    requires |DiskMap(input)| > 0
    ensures r.Some?
    ensures r == Some(Checksum(Layout(Rounds(Initial(DiskMap(input)), |DiskMap(input)| - 1, 0))))
    ensures exists after :: Reorganised(Initial(DiskMap(input)), after) &&
                            |Layout(after)| == Sum(DiskMap(input)) && r.value == Checksum(Layout(after))
  {
    var diskMap := DiskMap(input);
    var after := Reorganise(diskMap);
    Rearranged(diskMap);
    r := Some(Checksum(Layout(after)));
  }

  /** The blocks after the moves keep what `Reorganised` says and span as many slots as the digits add up to. */
  lemma Rearranged(diskMap: seq<nat>)
    requires |diskMap| > 0
    ensures Reorganised(Initial(diskMap), Rounds(Initial(diskMap), |diskMap| - 1, 0))
    ensures |Layout(Rounds(Initial(diskMap), |diskMap| - 1, 0))| == Sum(diskMap)
  {
    InitialReorganised(diskMap);
    SlotsKept(Initial(diskMap), Rounds(Initial(diskMap), |diskMap| - 1, 0));
    InitialSlots(diskMap);
  }

  /** Builds the blocks of the disk map and runs the file moves on them. */
  method Reorganise(diskMap: seq<nat>) returns (after: seq<Extent>)
    requires |diskMap| > 0
    ensures after == Rounds(Initial(diskMap), |diskMap| - 1, 0)
  {
    var disk := NewDisk(diskMap);
    MoveFiles(disk);
    after := Values(disk);
  }

  lemma LayoutExample(d: seq<Extent>)
    requires d == [Extent(File, [0], 0), Extent(File, [2, 1], 0), Extent(Free, [], 1), Extent(Free, [], 0), Extent(Free, [], 1)]
    ensures Layout(d) == [0, 2, 1, 0, 0]
  {
    assert Repeat(0, 1) == [0] && Repeat(0, 0) == [];
    assert d[..1][..0] == [];
    assert Layout(d[..1]) == [0];
    assert d[..2][..1] == d[..1];
    assert Layout(d[..2]) == [0, 2, 1];
    assert d[..3][..2] == d[..2];
    assert Layout(d[..3]) == [0, 2, 1, 0];
    assert d[..4][..3] == d[..3];
    assert Layout(d[..4]) == [0, 2, 1, 0];
    assert d[..4] == d[..5][..4] && d[..5] == d;
  }

  /** Disk map "12101": a file of id 0, two free slots, a file of id 1, no free slot, a file of id 2. */
  lemma InitialExample()
    ensures Initial([1, 2, 1, 0, 1]) ==
      [Extent(File, [0], 0), Extent(Free, [], 2), Extent(File, [1], 0), Extent(Free, [], 0), Extent(File, [2], 0)]
  {
    assert Repeat(0, 1) == [0] && Repeat(1, 1) == [1] && Repeat(2, 1) == [2];
  }

  /** File 2 moves into the two free slots, then file 1 behind it; file 0 has nowhere to go. */
  lemma RoundsExample(d0: seq<Extent>, d2: seq<Extent>)
    requires d0 == [Extent(File, [0], 0), Extent(Free, [], 2), Extent(File, [1], 0), Extent(Free, [], 0), Extent(File, [2], 0)]
    requires d2 == [Extent(File, [0], 0), Extent(File, [2, 1], 0), Extent(Free, [], 1), Extent(Free, [], 0), Extent(Free, [], 1)]
    ensures Rounds(d0, 4, 0) == d2
  {
    var d1 := [Extent(File, [0], 0), Extent(Free, [2], 1), Extent(File, [1], 0), Extent(Free, [], 0), Extent(Free, [], 1)];
    FitUnique(d0, 4, 1, 1);
    assert Filled(d0[1], [2]) == d1[1] by {
      assert [] + [2] == [2];
    }
    assert Moved(d0, 4) == d1;
    assert Moved(d1, 3) == d1;
    FitUnique(d1, 2, 1, 1);
    assert Filled(d1[1], [1]) == d2[1] by {
      assert [2] + [1] == [2, 1];
    }
    assert Moved(d1, 2) == d2;
    FitUnique(d2, 1, 2, 1);
    assert Moved(d2, 1) == d2;
    assert Rounds(d0, 4, 3) == d1;
    assert Rounds(d0, 4, 2) == d1;
    assert Rounds(d0, 4, 1) == d2;
  }

  /** Disk map "12101": the blocks after the rounds of `part_two`, whose checksum is 4. */
  lemma MovesExample(diskMap: seq<nat>)
    requires diskMap == [1, 2, 1, 0, 1]
    ensures Rounds(Initial(diskMap), 4, 0) ==
      [Extent(File, [0], 0), Extent(File, [2, 1], 0), Extent(Free, [], 1), Extent(Free, [], 0), Extent(Free, [], 1)]
    ensures Checksum(Layout(Rounds(Initial(diskMap), 4, 0))) == 4
  {
    var d2 := [Extent(File, [0], 0), Extent(File, [2, 1], 0), Extent(Free, [], 1), Extent(Free, [], 0), Extent(Free, [], 1)];
    InitialExample();
    RoundsExample(Initial(diskMap), d2);
    LayoutExample(d2);
    ChecksumExample(Layout(d2));
  }
}
