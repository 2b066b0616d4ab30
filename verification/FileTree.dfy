/** The pointer trees of all files: fifteen slots in every inode and n slots in every
    pointer array, each holding a block number or 0. */
module FileTree {
  import opened Answers
  import opened BlockPath

  datatype Slot = InInode(ino: nat, at: nat) | InBlock(block: nat, at: nat)

  /** `blocks[b]`: what block b reads as, taken as an array of block numbers. */
  datatype Tree = Tree(inodes: map<nat, seq<nat>>, blocks: map<nat, seq<nat>>)

  function Read(tr: Tree, s: Slot): nat {
    match s
    case InInode(i, k) => if i in tr.inodes && k < |tr.inodes[i]| then tr.inodes[i][k] else 0
    case InBlock(b, k) => if b in tr.blocks && k < |tr.blocks[b]| then tr.blocks[b][k] else 0
  }

  predicate Exists(tr: Tree, s: Slot) {
    match s
    case InInode(i, k) => i in tr.inodes && k < |tr.inodes[i]|
    case InBlock(b, k) => b in tr.blocks && k < |tr.blocks[b]|
  }

  function Write(tr: Tree, s: Slot, v: nat): (tr': Tree)
    requires Exists(tr, s)
    ensures forall t :: Read(tr', t) == if t == s then v else Read(tr, t)
    ensures forall t :: Exists(tr', t) <==> Exists(tr, t)
    ensures tr'.inodes.Keys == tr.inodes.Keys
  {
    match s
    case InInode(i, k) =>
      var slots: seq<nat> := tr.inodes[i][k := v];
      tr.(inodes := tr.inodes[i := slots])
    case InBlock(b, k) =>
      var slots: seq<nat> := tr.blocks[b][k := v];
      tr.(blocks := tr.blocks[b := slots])
  }

  /** The slot at the end of index path p of a file; None where an array is missing. */
  function SlotAt(tr: Tree, ino: nat, p: seq<nat>): Option<Slot>
    requires p != []
  {
    if |p| == 1 then Some(InInode(ino, p[0]))
    else
      var prev := SlotAt(tr, ino, p[..|p| - 1]);
      if prev.None? || Read(tr, prev.value) == 0 then None
      else Some(InBlock(Read(tr, prev.value), p[|p| - 1]))
  }

  /** What the file maps the path to: a block number, or 0 for a hole. */
  function Lookup(tr: Tree, ino: nat, p: seq<nat>): nat
    requires p != []
  {
    var s := SlotAt(tr, ino, p);
    if s.None? then 0 else Read(tr, s.value)
  }

  /** The walk written out for a direct block and for one, two and three arrays: each index picks
      the next number, and a 0 on the way ends the walk. */
  lemma LookupSteps(tr: Tree, ino: nat, a: nat, b: nat, c: nat, d: nat)
    ensures var x := Read(tr, InInode(ino, a));
            var y := if x == 0 then 0 else Read(tr, InBlock(x, b));
            var z := if y == 0 then 0 else Read(tr, InBlock(y, c));
            && Lookup(tr, ino, [a]) == x && Lookup(tr, ino, [a, b]) == y && Lookup(tr, ino, [a, b, c]) == z
            && Lookup(tr, ino, [a, b, c, d]) == if z == 0 then 0 else Read(tr, InBlock(z, d))
  {
    assert [a, b][..1] == [a];
    assert [a, b, c][..2] == [a, b];
    assert [a, b, c, d][..3] == [a, b, c];
  }

  /** How many levels of arrays hang below a slot; -1 for a slot no file has. `lv` gives
      the level of every block in a file: 0 for data, else the levels its slots span. */
  function LevelOf(n: nat, tr: Tree, lv: map<nat, nat>, s: Slot): int {
    match s
    case InInode(i, k) => if i in tr.inodes && k < NSLOTS then (if k < NDIR then 0 else k - NDIR + 1) else -1
    case InBlock(b, k) => if b in lv && lv[b] >= 1 && k < n then lv[b] - 1 else -1
  }

  /** Every slot of a file that is not a hole is the one parent of the block it names,
      and that block has the slot's level. */
  ghost predicate Linked(n: nat, tr: Tree, lv: map<nat, nat>, par: map<nat, Slot>) {
    && (forall i :: i in tr.inodes ==> |tr.inodes[i]| == NSLOTS)
    && (forall b :: b in lv && lv[b] >= 1 ==> b in tr.blocks && |tr.blocks[b]| == n)
    && (forall s: Slot :: LevelOf(n, tr, lv, s) >= 0 && Read(tr, s) != 0 ==>
          && Read(tr, s) in lv && lv[Read(tr, s)] == LevelOf(n, tr, lv, s)
          && Read(tr, s) in par && par[Read(tr, s)] == s)
    && (forall c :: c in lv ==>
          c != 0 && c in par && LevelOf(n, tr, lv, par[c]) == lv[c] && Read(tr, par[c]) == c)
  }

  /** Along a valid path the slots lose one level a step. */
  lemma {:induction false} PathLevels(n: nat, tr: Tree, lv: map<nat, nat>, par: map<nat, Slot>,
                                      ino: nat, p: seq<nat>, j: nat)
    requires Linked(n, tr, lv, par) && ValidPath(n, p) && ino in tr.inodes && 1 <= j <= |p|
    requires SlotAt(tr, ino, p[..j]).Some?
    ensures LevelOf(n, tr, lv, SlotAt(tr, ino, p[..j]).value) == |p| - j
    ensures Exists(tr, SlotAt(tr, ino, p[..j]).value)
  {
    if j > 1 {
      assert p[..j][..j - 1] == p[..j - 1];
      PathLevels(n, tr, lv, par, ino, p, j - 1);
    }
  }

  /** The array a slot lies in is named by the slot before it, its parent. */
  lemma StepBack(n: nat, tr: Tree, lv: map<nat, nat>, par: map<nat, Slot>, ino: nat, p: seq<nat>, j: nat)
    requires Linked(n, tr, lv, par) && ValidPath(n, p) && ino in tr.inodes && 2 <= j <= |p|
    requires SlotAt(tr, ino, p[..j]).Some?
    ensures var s := SlotAt(tr, ino, p[..j]).value;
            && s.InBlock? && s.at == p[j - 1] && s.block in par
            && SlotAt(tr, ino, p[..j - 1]) == Some(par[s.block])
  {
    assert p[..j][..j - 1] == p[..j - 1];
    PathLevels(n, tr, lv, par, ino, p, j - 1);
  }

  /** A slot is at the end of one path of one file only. */
  lemma {:induction false} SlotUnique(n: nat, tr: Tree, lv: map<nat, nat>, par: map<nat, Slot>,
                                      ino: nat, p: seq<nat>, j: nat, ino': nat, p': seq<nat>, j': nat)
    requires Linked(n, tr, lv, par) && ValidPath(n, p) && ValidPath(n, p')
    requires ino in tr.inodes && ino' in tr.inodes && 1 <= j <= |p| && 1 <= j' <= |p'|
    requires SlotAt(tr, ino, p[..j]).Some? && SlotAt(tr, ino, p[..j]) == SlotAt(tr, ino', p'[..j'])
    ensures ino == ino' && j == j' && p[..j] == p'[..j']
  {
    hide Linked, ValidPath, LevelOf;
    if j > 1 { StepBack(n, tr, lv, par, ino, p, j); }
    if j' > 1 { StepBack(n, tr, lv, par, ino', p', j'); }
    if j > 1 && j' > 1 {
      SlotUnique(n, tr, lv, par, ino, p, j - 1, ino', p', j' - 1);
      assert p[..j] == p[..j - 1] + [p[j - 1]] && p'[..j'] == p'[..j' - 1] + [p'[j' - 1]];
    }
  }

  /** No block is mapped from two places: equal non-hole lookups are the same logical
      block of the same file, and what they name is a data block, not a pointer array. */
  lemma NoSharing(n: nat, tr: Tree, lv: map<nat, nat>, par: map<nat, Slot>,
                  ino: nat, i: nat, ino': nat, i': nat)
    requires n > 0 && Linked(n, tr, lv, par) && ino in tr.inodes && ino' in tr.inodes
    requires i < Domain(n) && i' < Domain(n)
    ensures PathOf(n, i) != [] && PathOf(n, i') != []
    ensures var c := Lookup(tr, ino, PathOf(n, i));
            c != 0 ==> c in lv && lv[c] == 0 && (c == Lookup(tr, ino', PathOf(n, i')) ==> ino == ino' && i == i')
  {
    PathRoundTrip(n, i);
    PathRoundTrip(n, i');
    var p, p' := PathOf(n, i), PathOf(n, i');
    assert p[..|p|] == p && p'[..|p'|] == p';
    var c := Lookup(tr, ino, p);
    if c != 0 {
      PathLevels(n, tr, lv, par, ino, p, |p|);
      if c == Lookup(tr, ino', p') {
        PathLevels(n, tr, lv, par, ino', p', |p'|);
        SlotUnique(n, tr, lv, par, ino, p, |p|, ino', p', |p'|);
        PathInjective(n, i, i');
      }
    }
  }

  /** No pointer of tr is changed or cleared in tr'. */
  ghost predicate Extends(tr: Tree, tr': Tree) {
    forall s :: Read(tr, s) != 0 ==> Read(tr', s) == Read(tr, s)
  }

  /** A walk that succeeds goes on to give the same slot and block. */
  lemma {:induction false} LookupStable(tr: Tree, tr': Tree, ino: nat, p: seq<nat>)
    requires Extends(tr, tr') && p != []
    ensures SlotAt(tr, ino, p).Some? ==> SlotAt(tr', ino, p) == SlotAt(tr, ino, p)
    ensures Lookup(tr, ino, p) != 0 ==> Lookup(tr', ino, p) == Lookup(tr, ino, p)
    decreases |p|
  {
    if |p| > 1 {
      LookupStable(tr, tr', ino, p[..|p| - 1]);
    }
  }
}
