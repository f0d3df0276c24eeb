/** The table of outstanding page allocations and the process each is charged to. */
module AllocTracker {
  datatype Slot = Slot(used: bool, frame: int, npages: int, owner: int)

  const EMPTY_SLOT := Slot(false, 0, 0, 0)

  /** The used slots list each tracked frame once, with the owner that owned gives it. */
  ghost predicate Tracks(s: seq<Slot>, owned: map<int, int>) {
    && (forall i :: 0 <= i < |s| && s[i].used ==>
          s[i].npages == 1 && s[i].frame in owned && owned[s[i].frame] == s[i].owner)
    && (forall i, j :: 0 <= i < j < |s| && s[i].used && s[j].used ==> s[i].frame != s[j].frame)
    && (forall f :: f in owned ==> exists i :: 0 <= i < |s| && s[i].used && s[i].frame == f)
  }

  ghost predicate Full(s: seq<Slot>) {
    forall i :: 0 <= i < |s| ==> s[i].used
  }

  /** The first unused slot at or after i, or |s|. */
  function FirstUnused(s: seq<Slot>, i: nat): (r: nat)
    requires i <= |s|
    ensures i <= r <= |s| && (r < |s| ==> !s[r].used) && forall j :: i <= j < r ==> s[j].used
    decreases |s| - i
  {
    if i == |s| || !s[i].used then i else FirstUnused(s, i + 1)
  }

  lemma TrackOne(s: seq<Slot>, owned: map<int, int>, i: int, frame: int, owner: int)
    requires Tracks(s, owned) && frame !in owned && 0 <= i < |s| && !s[i].used
    ensures Tracks(s[i := Slot(true, frame, 1, owner)], owned[frame := owner])
  {
    var s', owned' := s[i := Slot(true, frame, 1, owner)], owned[frame := owner];
    forall f | f in owned' ensures exists j :: 0 <= j < |s'| && s'[j].used && s'[j].frame == f {
      if f == frame {
        assert s'[i].frame == f;
      } else {
        var j :| 0 <= j < |s| && s[j].used && s[j].frame == f;
        assert s'[j] == s[j];
      }
    }
  }

  lemma UntrackOne(s: seq<Slot>, owned: map<int, int>, i: int, slot: Slot)
    requires Tracks(s, owned) && 0 <= i < |s| && s[i].used && !slot.used
    ensures Tracks(s[i := slot], owned - {s[i].frame})
  {
    var s', owned' := s[i := slot], owned - {s[i].frame};
    forall f | f in owned' ensures exists j :: 0 <= j < |s'| && s'[j].used && s'[j].frame == f {
      var j :| 0 <= j < |s| && s[j].used && s[j].frame == f;
      assert s'[j] == s[j];
    }
  }

  lemma RewriteUnused(s: seq<Slot>, owned: map<int, int>, i: int, slot: Slot)
    requires Tracks(s, owned) && 0 <= i < |s| && !s[i].used && !slot.used
    ensures Tracks(s[i := slot], owned)
  {
    var s' := s[i := slot];
    forall f | f in owned ensures exists j :: 0 <= j < |s'| && s'[j].used && s'[j].frame == f {
      var j :| 0 <= j < |s| && s[j].used && s[j].frame == f;
      assert s'[j] == s[j];
    }
  }

  class Tracker {
    const table: array<Slot>
    var count: int
    ghost var owned: map<int, int>

    ghost predicate Valid()
      reads this, table
    {
      Tracks(table[..], owned)
    }

    constructor (size: nat)
      ensures Valid() && fresh(table) && table.Length == size && owned == map[] && count == 0
    {
      table := new Slot[size](_ => EMPTY_SLOT);
      count := 0;
      owned := map[];
    }

    /** Records one page in the first unused slot; a full table drops the record silently. */
    method TrackAlloc(frame: int, npages: int, owner: int)
      requires Valid() && frame !in owned && npages == 1
      modifies this, table
      ensures Valid()
      ensures if old(Full(table[..])) then owned == old(owned) && count == old(count)
              else owned == old(owned)[frame := owner] && count == old(count) + 1
      ensures var i := FirstUnused(old(table[..]), 0);
              table[..] == if i == table.Length then old(table[..]) else old(table[..])[i := Slot(true, frame, npages, owner)]
    {
      for i := 0 to table.Length
        invariant forall j :: 0 <= j < i ==> table[j].used
        invariant table[..] == old(table[..]) && owned == old(owned) && count == old(count)
      {
        if !table[i].used {
          TrackOne(table[..], owned, i, frame, owner);
          table[i] := Slot(true, frame, npages, owner);
          owned := owned[frame := owner];
          count := count + 1;
          assert !old(table[..])[i].used;
          assert table[..] == old(table[..])[i := Slot(true, frame, 1, owner)];
          return;
        }
      }
    }

    /** Drops the record of one page, if there is one. */
    method TrackFree(frame: int, npages: int)
      requires Valid() && npages == 1
      modifies this, table
      ensures Valid()
      ensures owned == old(owned) - {frame}
      ensures count == old(count) - (if frame in old(owned) then 1 else 0)
      ensures forall i :: 0 <= i < table.Length ==>
                table[i] == old(if table[i].used && table[i].frame == frame then table[i].(used := false) else table[i])
    {
      for i := 0 to table.Length
        invariant forall j :: 0 <= j < i ==> !(table[j].used && table[j].frame == frame)
        invariant table[..] == old(table[..]) && owned == old(owned) && count == old(count)
      {
        if table[i].used && table[i].frame == frame && table[i].npages == npages {
          UntrackOne(table[..], owned, i, table[i].(used := false));
          table[i] := table[i].(used := false);
          owned := owned - {frame};
          count := count - 1;
          assert old(table[..])[i].frame == frame;
          assert table[..] == old(table[..])[i := table[i]];
          return;
        }
        assert old(table[..])[i].used ==> old(table[..])[i].npages == 1;
      }
      assert frame !in owned;
    }
  }
}
