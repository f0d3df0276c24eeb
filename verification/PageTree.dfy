/** The shape of the page tables that map_page builds. Every frame in use has one role, and a frame that
    belongs to a tree names the entry that points to it; so two trees, or two branches, never share a frame. */
module PageTree {
  import opened Sv39

  datatype Role =
    | Plain                      // handed out, not part of any page table
    | Root                       // a level-2 table
    | Mid(up: int, ix: int)      // the level-1 table that entry ix of table up points to
    | Low(up: int, ix: int)      // the level-0 table that entry ix of table up points to
    | User(up: int, ix: int)     // the user page that leaf entry ix of table up points to

  type Roles = map<int, Role>

  function LevelOf(r: Role): int {
    match r
    case Root => 2
    case Mid(_, _) => 1
    case Low(_, _) => 0
    case _ => -1
  }

  ghost predicate IsTable(role: Roles, t: int, level: int) {
    t in role && LevelOf(role[t]) == level
  }

  ghost predicate IsBranch(role: Roles, t: int) {
    t in role && LevelOf(role[t]) >= 1
  }

  /** The role of the table that entry k of branch table t points to. */
  function ChildRole(role: Roles, t: int, k: int): Role
    requires t in role
  {
    if LevelOf(role[t]) == 2 then Mid(t, k) else Low(t, k)
  }

  const NO_PERMS := Perms(false, false, false, false)

  /** A valid branch entry carries no permission bit and points to a table with the matching role. */
  ghost predicate BranchEntry(mem: Memory, role: Roles, t: int, k: int)
    requires t in role && 0 <= k < ENTRIES
  {
    var e := Entry(mem, t, k);
    V(e) ==>
      var c := PteFrame(e);
      e == MakePte(c, NO_PERMS) && c in role && role[c] == ChildRole(role, t, k)
  }

  /** A table below the root is pointed to by the entry its role names. */
  ghost predicate HasParent(mem: Memory, role: Roles, c: int)
    requires c in role && (role[c].Mid? || role[c].Low?)
  {
    var t, k := role[c].up, role[c].ix;
    && IsTable(role, t, LevelOf(role[c]) + 1)
    && 0 <= k < ENTRIES
    && Entry(mem, t, k) == MakePte(c, NO_PERMS)
  }

  /** The tree-shape invariant of all page tables at once. */
  ghost predicate Tables(mem: Memory, role: Roles) {
    && (forall f :: f in role ==> 0 < f)
    && (forall t, k {:trigger Entry(mem, t, k)} :: IsBranch(role, t) && 0 <= k < ENTRIES ==> BranchEntry(mem, role, t, k))
    && (forall c {:trigger role[c]} :: c in role && (role[c].Mid? || role[c].Low?) ==> HasParent(mem, role, c))
  }

  /** A valid level-0 entry has a permission bit and no bits but those of a mapping; if it is a user entry, it owns the
      frame it maps. */
  ghost predicate LeafEntry(mem: Memory, role: Roles, t: int, k: int)
    requires 0 <= k < ENTRIES
  {
    var e := Entry(mem, t, k);
    V(e) ==>
      && Perm(e) && e == MakePte(PteFrame(e), PtePerms(e))
      && 0 < PteFrame(e)
      && (U(e) ==> PteFrame(e) in role && role[PteFrame(e)] == User(t, k))
  }

  /** A user page is mapped by exactly the leaf entry its role names. */
  ghost predicate HasLeaf(mem: Memory, role: Roles, f: int)
    requires f in role && role[f].User?
  {
    var t, k := role[f].up, role[f].ix;
    && IsTable(role, t, 0)
    && 0 <= k < ENTRIES
    && V(Entry(mem, t, k)) && U(Entry(mem, t, k)) && PteFrame(Entry(mem, t, k)) == f
  }

  /** The ownership invariant of user pages. */
  ghost predicate Leaves(mem: Memory, role: Roles) {
    && (forall t, k {:trigger Entry(mem, t, k)} :: IsTable(role, t, 0) && 0 <= k < ENTRIES ==> LeafEntry(mem, role, t, k))
    && (forall f {:trigger role[f]} :: f in role && role[f].User? ==> HasLeaf(mem, role, f))
  }

  /** In every tree, the low ten bits of a valid entry: 1 alone when it points to a table, at least one of R, W, X (2, 4, 8)
      in a leaf, and nothing from 32 on, so no entry is global. */
  lemma EntryBits(mem: Memory, role: Roles, t: int, k: int)
    requires Tables(mem, role) && Leaves(mem, role) && t in role && LevelOf(role[t]) >= 0 && 0 <= k < ENTRIES
    requires Entry(mem, t, k) % 2 == 1
    ensures if LevelOf(role[t]) == 0 then 1 < Entry(mem, t, k) % 1024 < 32 && Entry(mem, t, k) % 1024 != 17
            else Entry(mem, t, k) % 1024 == 1
  {
    var e := Entry(mem, t, k);
    if LevelOf(role[t]) == 0 {
      assert LeafEntry(mem, role, t, k);
      PteBits(PteFrame(e), PtePerms(e));
    } else {
      assert BranchEntry(mem, role, t, k);
      PteBits(PteFrame(e), NO_PERMS);
    }
  }

  // ---------------------------------------------------------------- walks inside a well-shaped tree

  lemma WalkStays(mem: Memory, role: Roles, root: int, v: int)
    requires Tables(mem, role) && IsTable(role, root, 2)
    ensures var m := MidTable(mem, root, v);
            m != NONE ==> m in role && role[m] == Mid(root, Px(2, v))
    ensures var m, t := MidTable(mem, root, v), LowTable(mem, root, v);
            t != NONE ==> m != NONE && t in role && role[t] == Low(m, Px(1, v))
  {
  }

  /** The path from a level-0 table up to its root leads back down to it, for every page it serves. */
  lemma WalkReaches(mem: Memory, role: Roles, t: int, v: int)
    requires Tables(mem, role) && IsTable(role, t, 0)
    requires IsTable(role, role[t].up, 1) ==> Px(1, v) == role[t].ix && Px(2, v) == role[role[t].up].ix
    ensures IsTable(role, role[t].up, 1) && IsTable(role, role[role[t].up].up, 2)
    ensures MidTable(mem, role[role[t].up].up, v) == role[t].up
    ensures LowTable(mem, role[role[t].up].up, v) == t
  {
    assert HasParent(mem, role, t);
    var m := role[t].up;
    assert HasParent(mem, role, m);
    PteRoundTrip(t, NO_PERMS);
    PteRoundTrip(m, NO_PERMS);
  }

  /** Only the words of table frames matter to a tree. */
  lemma TreeFrame(mem: Memory, mem': Memory, role: Roles, role': Roles)
    requires Tables(mem, role)
    requires forall f :: f in role' ==> 0 < f
    requires forall f :: f in role && LevelOf(role[f]) >= 0 ==>
               f in role' && role'[f] == role[f] && SameFrame(mem', f, mem, f)
    requires forall f :: f in role' && LevelOf(role'[f]) >= 0 ==> f in role && LevelOf(role[f]) >= 0
    ensures Tables(mem', role')
    ensures forall r, v :: IsTable(role, r, 2) ==> LeafPte(mem', r, v) == LeafPte(mem, r, v)
  {
    forall t, k | IsBranch(role', t) && 0 <= k < ENTRIES ensures BranchEntry(mem', role', t, k) {
      assert BranchEntry(mem, role, t, k);
    }
    forall c | c in role' && (role'[c].Mid? || role'[c].Low?) ensures HasParent(mem', role', c) {
      assert HasParent(mem, role, c);
    }
    forall r, v | IsTable(role, r, 2) ensures LeafPte(mem', r, v) == LeafPte(mem, r, v) {
      WalkStays(mem, role, r, v);
    }
  }

  // ---------------------------------------------------------------- growing a tree

  ghost function WithTable(mem: Memory, t: int, k: int, c: int): Memory
    requires 0 <= k < ENTRIES
  {
    Store(ZeroFrames(mem, c, c + 1), t, k, MakePte(c, NO_PERMS))
  }

  /** Hanging a fresh zeroed table under an empty branch entry keeps the shape. */
  lemma AddTableShape(mem: Memory, role: Roles, t: int, k: int, c: int)
    requires Tables(mem, role) && IsBranch(role, t) && 0 <= k < ENTRIES
    requires 0 < c && c !in role && !V(Entry(mem, t, k))
    ensures Tables(WithTable(mem, t, k, c), role[c := ChildRole(role, t, k)])
  {
    var mem', role' := WithTable(mem, t, k, c), role[c := ChildRole(role, t, k)];
    PteRoundTrip(c, NO_PERMS);
    forall u, j | IsBranch(role', u) && 0 <= j < ENTRIES ensures BranchEntry(mem', role', u, j) {
      if u == c {
        assert Entry(mem', c, j) == 0;
      } else if (u, j) != (t, k) {
        assert Entry(mem', u, j) == Entry(mem, u, j);
        assert BranchEntry(mem, role, u, j);
      }
    }
    forall d | d in role' && (role'[d].Mid? || role'[d].Low?) ensures HasParent(mem', role', d) {
      if d != c {
        assert HasParent(mem, role, d);
        assert V(Entry(mem, role[d].up, role[d].ix)) by { PteRoundTrip(d, NO_PERMS); }
      }
    }
  }

  /** ... changes no translation of any tree, although the fresh frame is recycled memory ... */
  lemma AddTableLookups(mem: Memory, role: Roles, t: int, k: int, c: int, r: int, v: int)
    requires Tables(mem, role) && IsBranch(role, t) && 0 <= k < ENTRIES
    requires 0 < c && c !in role && !V(Entry(mem, t, k))
    requires IsTable(role, r, 2)
    ensures LeafPte(WithTable(mem, t, k, c), r, v) == LeafPte(mem, r, v)
  {
    var mem' := WithTable(mem, t, k, c);
    WalkStays(mem, role, r, v);
    PteRoundTrip(c, NO_PERMS);
    assert forall j :: 0 <= j < ENTRIES ==> Entry(mem', c, j) == 0;
    if MidTable(mem', r, v) == MidTable(mem, r, v) {
    } else {
      assert MidTable(mem', r, v) == c;
    }
  }

  /** ... and keeps the ownership of user pages. */
  lemma AddTableLeaves(mem: Memory, role: Roles, t: int, k: int, c: int)
    requires Tables(mem, role) && Leaves(mem, role) && IsBranch(role, t) && 0 <= k < ENTRIES
    requires 0 < c && c !in role
    ensures Leaves(WithTable(mem, t, k, c), role[c := ChildRole(role, t, k)])
  {
    var mem', role' := WithTable(mem, t, k, c), role[c := ChildRole(role, t, k)];
    forall u, j | IsTable(role', u, 0) && 0 <= j < ENTRIES ensures LeafEntry(mem', role', u, j) {
      if u != c {
        assert LeafEntry(mem, role, u, j);
        assert Entry(mem', u, j) == Entry(mem, u, j);
      } else {
        assert Entry(mem', c, j) == 0;
      }
    }
    forall f | f in role' && role'[f].User? ensures HasLeaf(mem', role', f) {
      assert HasLeaf(mem, role, f);
    }
  }

  // ---------------------------------------------------------------- writing a leaf

  /** A leaf entry that is overwritten gives up its user page, which stays handed out. */
  ghost function Release(role: Roles, e: int, t: int, k: int): Roles {
    var f := PteFrame(e);
    if V(e) && U(e) && f in role && role[f] == User(t, k) then role[f := Plain] else role
  }

  /** A new user leaf takes ownership of the plain frame it maps. */
  ghost function Claim(role: Roles, f: int, p: Perms, t: int, k: int): Roles {
    if p.u && f in role && role[f] == Plain then role[f := User(t, k)] else role
  }

  /** The roles may change, but no table appears or disappears. */
  ghost predicate SameTables(role: Roles, role': Roles) {
    && role'.Keys == role.Keys
    && (forall f {:trigger role'[f]} {:trigger role[f]} :: f in role && LevelOf(role[f]) >= 0 ==> role'[f] == role[f])
    && (forall f {:trigger role'[f]} {:trigger role[f]} :: f in role && LevelOf(role'[f]) >= 0 ==> role'[f] == role[f])
  }

  lemma SetLeafShape(mem: Memory, role: Roles, role': Roles, t: int, k: int, e: int)
    requires Tables(mem, role) && IsTable(role, t, 0) && 0 <= k < ENTRIES && SameTables(role, role')
    ensures Tables(Store(mem, t, k, e), role')
  {
    var mem' := Store(mem, t, k, e);
    forall u, j | IsBranch(role', u) && 0 <= j < ENTRIES ensures BranchEntry(mem', role', u, j) {
      assert BranchEntry(mem, role, u, j);
    }
    forall d | d in role' && (role'[d].Mid? || role'[d].Low?) ensures HasParent(mem', role', d) {
      assert HasParent(mem, role, d);
    }
  }

  lemma SamePath(mem: Memory, role: Roles, r: int, v: int, r': int, v': int)
    requires Tables(mem, role) && IsTable(role, r, 2) && IsTable(role, r', 2)
    requires 0 <= v < VPNS && 0 <= v' < VPNS
    requires LowTable(mem, r, v) == LowTable(mem, r', v') != NONE && Px(0, v) == Px(0, v')
    ensures r == r' && v == v'
  {
    WalkStays(mem, role, r, v);
    WalkStays(mem, role, r', v');
    JoinIndices(v);
    JoinIndices(v');
  }

  /** Writing one leaf changes the translation of one page in one tree. */
  lemma SetLeafLookups(mem: Memory, role: Roles, root: int, v: int, e: int, r: int, u: int)
    requires Tables(mem, role) && IsTable(role, root, 2) && IsTable(role, r, 2)
    requires 0 <= v < VPNS && 0 <= u < VPNS && LowTable(mem, root, v) != NONE
    ensures LeafPte(Store(mem, LowTable(mem, root, v), Px(0, v), e), r, u)
         == if r == root && u == v then e else LeafPte(mem, r, u)
  {
    var t := LowTable(mem, root, v);
    WalkStays(mem, role, root, v);
    WalkStays(mem, role, r, u);
    if LowTable(mem, r, u) == t && Px(0, u) == Px(0, v) {
      SamePath(mem, role, root, v, r, u);
    }
  }

  lemma SetLeafOwners(mem: Memory, role: Roles, t: int, k: int, f: int, p: Perms)
    requires Tables(mem, role) && Leaves(mem, role) && IsTable(role, t, 0) && 0 <= k < ENTRIES
    requires 0 < f && (p.r || p.w || p.x)
    requires p.u ==> f in role && (role[f] == Plain || role[f] == User(t, k))
    ensures Leaves(Store(mem, t, k, MakePte(f, p)), Claim(Release(role, Entry(mem, t, k), t, k), f, p, t, k))
  {
    hide MakePte;
    var e0 := Entry(mem, t, k);
    var mem', role1 := Store(mem, t, k, MakePte(f, p)), Release(role, e0, t, k);
    var role' := Claim(role1, f, p, t, k);
    PteRoundTrip(f, p);
    assert LeafEntry(mem, role, t, k);
    forall g | g in role && role[g] == User(t, k) ensures V(e0) && U(e0) && PteFrame(e0) == g {
      assert HasLeaf(mem, role, g);
    }
    forall u, j | IsTable(role', u, 0) && 0 <= j < ENTRIES ensures LeafEntry(mem', role', u, j) {
      assert LeafEntry(mem, role, u, j);
    }
    forall g | g in role' && role'[g].User? ensures HasLeaf(mem', role', g) {
      if role'[g] != User(t, k) { assert HasLeaf(mem, role, g); }
    }
  }

  lemma ClearLeafOwners(mem: Memory, role: Roles, t: int, k: int)
    requires Tables(mem, role) && Leaves(mem, role) && IsTable(role, t, 0) && 0 <= k < ENTRIES
    ensures Leaves(Store(mem, t, k, 0), Release(role, Entry(mem, t, k), t, k))
  {
    var mem', role' := Store(mem, t, k, 0), Release(role, Entry(mem, t, k), t, k);
    assert LeafEntry(mem, role, t, k);
    forall u, j | IsTable(role', u, 0) && 0 <= j < ENTRIES ensures LeafEntry(mem', role', u, j) {
      assert LeafEntry(mem, role, u, j);
    }
    forall g | g in role' && role'[g].User? ensures HasLeaf(mem', role', g) {
      assert HasLeaf(mem, role, g);
    }
  }

  /** Two user translations reach the same frame only if they are the same page of the same address space. */
  lemma UserFramesDistinct(mem: Memory, role: Roles, r: int, v: int, r': int, v': int)
    requires Tables(mem, role) && Leaves(mem, role) && IsTable(role, r, 2) && IsTable(role, r', 2)
    requires 0 <= v < VPNS && 0 <= v' < VPNS
    requires var e := LeafPte(mem, r, v); V(e) && U(e)
    requires var e := LeafPte(mem, r', v'); V(e) && U(e)
    requires PteFrame(LeafPte(mem, r, v)) == PteFrame(LeafPte(mem, r', v'))
    ensures r == r' && v == v'
  {
    WalkStays(mem, role, r, v);
    WalkStays(mem, role, r', v');
    assert LeafEntry(mem, role, LowTable(mem, r, v), Px(0, v));
    assert LeafEntry(mem, role, LowTable(mem, r', v'), Px(0, v'));
    SamePath(mem, role, r, v, r', v');
  }
}
