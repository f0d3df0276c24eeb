/** The physical page allocator: a free list threaded through the freed frames, with a bump pointer behind it. */
module PageMemory {
  import opened Wrappers
  import opened Sv39
  import opened PageTree
  import opened AllocTracker

  function Addr(f: int): int { f * PAGE_SIZE }

  lemma FrameOfAddr(f: int)
    ensures Addr(f) / PAGE_SIZE == f && Addr(f) % PAGE_SIZE == 0
  {
  }

  /** The link word of position i: the address of the frame behind it, or null at the end. */
  ghost function LinkAfter(free: seq<int>, i: int): int
    requires -1 <= i < |free|
  {
    if i + 1 < |free| then Addr(free[i + 1]) else 0
  }

  /** The words stored in the frames of free form a null-terminated chain that starts at head. */
  ghost predicate Linked(mem: Memory, head: int, free: seq<int>) {
    && head == LinkAfter(free, -1)
    && forall i {:trigger Entry(mem, free[i], 0)} :: 0 <= i < |free| ==> Entry(mem, free[i], 0) == LinkAfter(free, i)
  }

  /** Every frame of [base, next) is either on the free list, once, or in used; none of [next, limit) is. */
  ghost predicate Partition(base: int, next: int, free: seq<int>, used: set<int>) {
    && (forall i, j :: 0 <= i < j < |free| ==> free[i] != free[j])
    && (forall f :: f in free || f in used ==> base <= f < next)
    && (forall f :: base <= f < next ==> (f in used <==> f !in free))
  }

  ghost function Range(lo: int, hi: int): (s: set<int>)
    ensures forall f :: f in s <==> lo <= f < hi
    decreases hi - lo
  {
    if lo >= hi then {} else {lo} + Range(lo + 1, hi)
  }

  lemma RangeSize(lo: int, hi: int)
    requires lo <= hi
    ensures |Range(lo, hi)| == hi - lo
    decreases hi - lo
  {
    if lo < hi {
      RangeSize(lo + 1, hi);
      assert Range(lo, hi) == {lo} + Range(lo + 1, hi);
    }
  }

  lemma SetOfDistinct(s: seq<int>)
    requires forall i, j :: 0 <= i < j < |s| ==> s[i] != s[j]
    ensures |set f | f in s| == |s|
  {
    if s != [] {
      SetOfDistinct(s[1..]);
      assert (set f | f in s) == {s[0]} + set f | f in s[1..];
    }
  }

  /** Conservation: free and handed-out frames together number exactly the frames bumped so far. */
  lemma Conservation(base: int, next: int, free: seq<int>, used: set<int>)
    requires base <= next && Partition(base, next, free, used)
    ensures |free| + |used| == next - base
  {
    var s := set f | f in free;
    SetOfDistinct(free);
    RangeSize(base, next);
    assert s + used == Range(base, next) && s !! used;
  }

  lemma AvailableFits(base: int, next: int, limit: int, free: seq<int>, used: set<int>)
    requires base <= next <= limit && Partition(base, next, free, used)
    ensures 0 <= |free| + limit - next <= limit - base
  {
    Conservation(base, next, free, used);
  }

  /** Taking the head of the free list, whatever is then stored in the taken frame. */
  lemma PopFree(mem: Memory, base: int, next: int, head: int, free: seq<int>, used: set<int>)
    requires 0 < base && Partition(base, next, free, used) && Linked(mem, head, free) && free != []
    ensures head == Addr(free[0]) && head / PAGE_SIZE == free[0]
    ensures Partition(base, next, free[1..], used + {free[0]})
    ensures Linked(mem, Entry(mem, free[0], 0), free[1..])
    ensures Linked(ZeroFrames(mem, free[0], free[0] + 1), Entry(mem, free[0], 0), free[1..])
  {
    var rest, mem' := free[1..], ZeroFrames(mem, free[0], free[0] + 1);
    assert free[0] in free;
    assert forall f :: f in rest ==> f in free;
    assert Entry(mem, free[0], 0) == LinkAfter(free, 0) == LinkAfter(rest, -1);
    forall i | 0 <= i < |rest| ensures Entry(mem, rest[i], 0) == LinkAfter(rest, i) {
      assert rest[i] == free[i + 1];
      assert Entry(mem, free[i + 1], 0) == LinkAfter(free, i + 1);
    }
    forall i | 0 <= i < |rest| ensures Entry(mem', rest[i], 0) == LinkAfter(rest, i) {
      assert rest[i] == free[i + 1] != free[0];
      assert Entry(mem, rest[i], 0) == LinkAfter(rest, i);
    }
  }

  lemma PushFree(mem: Memory, base: int, next: int, head: int, free: seq<int>, used: set<int>, f: int)
    requires Partition(base, next, free, used) && Linked(mem, head, free) && f in used
    ensures Partition(base, next, [f] + free, used - {f})
    ensures Linked(Store(mem, f, 0, head), Addr(f), [f] + free)
  {
  }

  /** Frames taken from the untouched region do not meet the free list. */
  lemma BumpPartition(base: int, next: int, n: nat, free: seq<int>, used: set<int>, used': set<int>)
    requires base <= next && Partition(base, next, free, used)
    requires forall f :: f in used' <==> f in used || next <= f < next + n
    ensures Partition(base, next + n, free, used')
  {
  }

  lemma BumpLinked(mem: Memory, lo: int, hi: int, head: int, free: seq<int>)
    requires Linked(mem, head, free)
    requires forall f :: f in free ==> f < lo
    ensures Linked(ZeroFrames(mem, lo, hi), head, free)
  {
    var mem' := ZeroFrames(mem, lo, hi);
    forall i | 0 <= i < |free| ensures Entry(mem', free[i], 0) == LinkAfter(free, i) {
      assert free[i] in free;
      assert Entry(mem, free[i], 0) == LinkAfter(free, i);
    }
  }

  lemma StoreLinked(mem: Memory, head: int, free: seq<int>, f: int, k: int, v: int)
    requires Linked(mem, head, free) && f !in free && 0 <= k < ENTRIES
    ensures Linked(Store(mem, f, k, v), head, free)
  {
  }

  /** The roles after the frames [lo, hi) are handed out. */
  ghost function WithPlain(role: Roles, lo: int, hi: int): (r: Roles)
    ensures forall g :: g in r <==> g in role || lo <= g < hi
    ensures forall g :: g in r ==> r[g] == if lo <= g < hi then Plain else role[g]
    decreases hi - lo
  {
    if lo >= hi then role else WithPlain(role, lo, hi - 1)[hi - 1 := Plain]
  }

  lemma WithPlainOne(role: Roles, f: int)
    ensures WithPlain(role, f, f + 1) == role[f := Plain]
  {
  }

  class PageMemory {
    const base: int     // frame of __free_ram
    const limit: int    // frame of __free_ram_end
    const tracker: Tracker
    var mem: Memory
    var freeList: int   // address of the first free page, 0 when there is none
    var nextFrame: int  // next_paddr / PAGE_SIZE
    var freePages: int  // g_free_pages
    var currentPid: int // current_proc ? current_proc->pid : 0

    ghost var free: seq<int>
    ghost var role: Roles

    ghost predicate Valid()
      reads this, tracker, tracker.table
    {
      && 0 < base <= nextFrame <= limit < 0x10_0000_0000_0000
      && Partition(base, nextFrame, free, role.Keys)
      && Linked(mem, freeList, free)
      && freePages == |free|
      && tracker.Valid()
      && tracker.owned.Keys <= role.Keys
    }

    constructor (base: int, limit: int, tracker: Tracker, mem: Memory)
      requires 0 < base <= limit < 0x10_0000_0000_0000
      requires tracker.Valid() && tracker.owned == map[]
      ensures Valid() && this.base == base && this.limit == limit && this.tracker == tracker && this.mem == mem
      ensures free == [] && role == map[] && nextFrame == base && currentPid == 0
    {
      this.base, this.limit, this.tracker, this.mem := base, limit, tracker, mem;
      freeList, nextFrame, freePages, currentPid := 0, base, 0, 0;
      free, role := [], map[];
    }

    /** The number of frames that alloc_pages(1) can still hand out. */
    ghost function Available(): int
      reads `free, `nextFrame
    {
      |free| + Room()
    }

    /** The number of frames above the bump pointer, which is all that alloc_pages(n) looks at for n > 1. */
    ghost function Room(): int
      reads `nextFrame
    {
      limit - nextFrame
    }

    /** alloc_free_list: the head frame, or None when the list is empty. */
    method AllocFreeList() returns (r: Option<int>)
      requires Valid()
      modifies this
      ensures r.None? <==> old(free) == []
      ensures r.None? ==> unchanged(this)
      ensures r.Some? ==>
                && old(free) == [r.value] + free
                && Linked(mem, freeList, free) && freePages == |free|
                && mem == old(mem) && role == old(role) && nextFrame == old(nextFrame) && currentPid == old(currentPid)
    {
      assert free != [] ==> free[0] in free;
      if freeList == 0 {
        return None;
      }
      PopFree(mem, base, nextFrame, freeList, free, role.Keys);
      var pa := freeList / PAGE_SIZE;
      freeList := Entry(mem, pa, 0);
      freePages := freePages - 1;
      free := free[1..];
      return Some(pa);
    }

    /** The free-list branch of alloc_pages(1): the head frame is zeroed and charged to the current process. */
    method RecyclePage() returns (r: Option<int>)
      requires Valid()
      modifies this, tracker, tracker.table
      ensures r.None? <==> old(free) == []
      ensures r.None? ==> unchanged(this, tracker, tracker.table)
      ensures r.Some? ==>
                && Valid() && r.value == old(free)[0] && r.value !in old(role)
                && role == old(role)[r.value := Plain] && free == old(free)[1..] && nextFrame == old(nextFrame)
                && mem == ZeroFrames(old(mem), r.value, r.value + 1)
                && currentPid == old(currentPid)
                && tracker.owned == (if old(Full(tracker.table[..])) then old(tracker.owned)
                                     else old(tracker.owned)[r.value := currentPid])
    {
      if free != [] {
        assert free[0] in free;
        PopFree(mem, base, nextFrame, freeList, free, role.Keys);
      }
      r := AllocFreeList();
      if r.Some? {
        var pa := r.value;
        mem := ZeroFrames(mem, pa, pa + 1);
        role := role[pa := Plain];
        assert free == old(free)[1..] && role.Keys == old(role.Keys) + {pa};
        tracker.TrackAlloc(pa, 1, currentPid);
      }
    }

    /** alloc_pages(1). None stands for PANIC("out of memory"). */
    method AllocPage() returns (r: Option<int>)
      requires Valid()
      modifies this, tracker, tracker.table
      ensures r.None? <==> old(Available()) == 0
      ensures r.Some? ==>
                && Valid()
                && base <= r.value < limit && r.value !in old(role)
                && role == old(role)[r.value := Plain]
                && mem == ZeroFrames(old(mem), r.value, r.value + 1)
                && Available() == old(Available()) - 1 && Room() >= old(Room()) - 1
                && currentPid == old(currentPid)
                && (tracker.owned == old(tracker.owned) || tracker.owned == old(tracker.owned)[r.value := currentPid])
    {
      r := RecyclePage();
      if r.None? {
        r := BumpPages(1);
        if r.Some? { WithPlainOne(old(role), r.value); }
      } else {
        assert r.value in old(free);
      }
    }

    /** The bump-pointer branch of alloc_pages: n contiguous zeroed frames, of which the tracker records one. */
    method BumpPages(n: int) returns (r: Option<int>)
      requires Valid() && 0 < n
      modifies this, tracker, tracker.table
      ensures r.None? <==> old(Room()) < n
      ensures r.Some? ==> Valid() && r.value == old(nextFrame) && currentPid == old(currentPid)
      ensures r.Some? ==>
                && base <= r.value && r.value + n <= limit
                && (forall g :: r.value <= g < r.value + n ==> g !in old(role))
                && mem == ZeroFrames(old(mem), r.value, r.value + n)
                && role == WithPlain(old(role), r.value, r.value + n)
      ensures r.Some? ==> free == old(free) && nextFrame == old(nextFrame) + n
      ensures r.Some? ==> Available() == old(Available()) - n && Room() == old(Room()) - n
      ensures r.Some? ==> tracker.owned == (if old(Full(tracker.table[..])) then old(tracker.owned)
                                            else old(tracker.owned)[r.value := currentPid])
    {
      hide ZeroFrames, Linked;
      var pa := nextFrame;
      var newNext := nextFrame + n;
      if newNext > limit {
        return None;
      }
      tracker.TrackAlloc(pa, 1, currentPid);
      mem := ZeroFrames(mem, pa, newNext);
      nextFrame := newNext;
      role := WithPlain(role, pa, newNext);
      BumpPartition(base, pa, n, free, old(role.Keys), role.Keys);
      BumpLinked(old(mem), pa, nextFrame, freeList, free);
      return Some(pa);
    }

    /** alloc_pages(n): a single frame may be recycled, several always come from the bump pointer. */
    method AllocPages(n: int) returns (r: Option<int>)
      requires Valid() && 0 < n && Addr(nextFrame + n) < 0x1_0000_0000_0000_0000
      modifies this, tracker, tracker.table
      ensures r.None? <==> if n == 1 then old(Available()) == 0 else old(Room()) < n
      ensures r.Some? ==> Available() == old(Available()) - n && Room() >= old(Room()) - n
      ensures r.Some? ==> Valid() && currentPid == old(currentPid)
      ensures r.Some? ==>
                && base <= r.value && r.value + n <= limit
                && (forall g :: r.value <= g < r.value + n ==> g !in old(role))
                && mem == ZeroFrames(old(mem), r.value, r.value + n)
                && role == WithPlain(old(role), r.value, r.value + n)
      ensures r.Some? ==> tracker.owned == old(tracker.owned) || tracker.owned == old(tracker.owned)[r.value := currentPid]
    {
      hide *;
      if n == 1 {
        r := AllocPage();
        if r.Some? { WithPlainOne(old(role), r.value); }
      } else {
        r := BumpPages(n);
      }
    }

    /** free_page: the frame becomes the head of the free list; its first word is the link. */
    method FreePage(f: int)
      requires Valid() && f in role
      modifies this, tracker, tracker.table
      ensures Valid()
      ensures free == [f] + old(free) && role == old(role) - {f} && nextFrame == old(nextFrame)
      ensures mem == Store(old(mem), f, 0, old(freeList)) && freeList == Addr(f)
      ensures freePages == old(freePages) + 1 && currentPid == old(currentPid)
      ensures tracker.owned == old(tracker.owned) - {f}
      ensures tracker.count == old(tracker.count) - (if f in old(tracker.owned) then 1 else 0)
      ensures forall i :: 0 <= i < tracker.table.Length ==>
                tracker.table[i] == old(if tracker.table[i].used && tracker.table[i].frame == f
                                        then tracker.table[i].(used := false) else tracker.table[i])
    {
      PushFree(mem, base, nextFrame, freeList, free, role.Keys, f);
      tracker.TrackFree(f, 1);
      mem := Store(mem, f, 0, freeList);
      freeList := Addr(f);
      free := [f] + free;
      role := role - {f};
      freePages := freePages + 1;
      assert role.Keys == old(role.Keys) - {f};
    }

    /** A store to a word of a frame in use. */
    method StoreWord(f: int, k: int, v: int)
      requires Valid() && f in role && 0 <= k < ENTRIES
      modifies this`mem
      ensures Valid() && mem == Store(old(mem), f, k, v)
    {
      StoreLinked(mem, freeList, free, f, k, v);
      mem := Store(mem, f, k, v);
    }

    /** Frames in use may change their part; the allocator does not care. */
    ghost method SetRole(role': Roles)
      requires Valid() && role'.Keys == role.Keys
      modifies this`role
      ensures Valid() && role == role'
    {
      role := role';
    }
  }
}
