/**
 * Finding the children of a tree cell in the packed store: references are
 * followed through their signed payload offset, the left child sits right
 * after its parent, and the right child is found by scanning the left
 * subtree with a small shift-reduce stack (`_get_right_node`).
 *
 * A term of tree calculus is laid out in prefix order: a tree cell, then
 * its left child, then its right child, with an empty cell for a missing
 * child. `Placed` states that layout, and the lemmas at the end show where
 * the navigation lands on a laid-out term.
 */
module Navigation {
  import opened Machine
  import opened Wrappers
  import opened Memory
  import opened EvalDefs

  /**
   * Where a navigation lands: a cell index, with `failed` set when an
   * `EVAL_ASSERT` on the way stored ERROR_GENERIC; `Aborted` when a C
   * `assert` failed, which ends the process.
   */
  datatype Located = Located(index: nat, failed: bool) | Aborted

  /** Every written cell lies below `bound`. */
  ghost predicate TagsBelow(tags: map<nat, nat>, bound: nat)
  {
    forall i :: i in tags ==> i < bound
  }

  /** The cells the store can hold. */
  function Bound(a: Allocator): nat
    reads a
  {
    a.cellsCapacity * CELLS_PER_WORD
  }

  lemma TagsBounded(a: Allocator)
    requires a.Valid()
    ensures TagsBelow(a.Tags, Bound(a))
  {
    forall i | i in a.Tags
      ensures i < Bound(a)
    {
      assert IndexValid(i, a.cellsCapacity);
    }
  }

  /**
   * The store as a value: the tag of each written cell, the payload of
   * each index that has one, and the number of cells the words can hold.
   */
  datatype Store = Store(tags: map<nat, nat>, words: map<nat, i64>, bound: nat)

  /** Every written cell of the store lies below its bound. */
  ghost predicate Bounded(s: Store)
  {
    TagsBelow(s.tags, s.bound)
  }

  /** The allocator seen as a store. */
  ghost function View(a: Allocator): (s: Store)
    reads a.Repr
    requires a.Valid()
    ensures Bounded(s) && s.tags == a.Tags && s.words == a.Words()
  {
    TagsBounded(a);
    Store(a.Tags, a.Words(), Bound(a))
  }

  /** `eval_cells_get` on the value: the tag, or ERR_VAL for a cell never written. */
  function TagAt(s: Store, i: nat): int
  {
    if i in s.tags then s.tags[i] else ERR_VAL
  }

  /** Whether a reference (a REF cell and two empty cells) starts at `index`. */
  predicate RefAt(s: Store, index: nat)
  {
    IsRef(TagAt(s, index), TagAt(s, index + 1), TagAt(s, index + 2))
  }

  /**
   * `dereference`: a reference leads to its own index plus its payload,
   * taken modulo 2^64; a reference without a payload stays put and stores
   * ERROR_GENERIC; any other cell stays put.
   */
  function Deref(s: Store, index: nat): (r: Located)
    ensures r.Located?
    ensures r.failed <==> RefAt(s, index) && index !in s.words
    ensures !RefAt(s, index) || r.failed ==> r.index == index
  {
    if RefAt(s, index) then
      if index in s.words then Located(WrapAdd(index, s.words[index]), false) else Located(index, true)
    else
      Located(index, false)
  }

  /**
   * A reference whose payload was written as `target - index` leads to
   * `target`: the partner of the offset computation in rules 0a and 0b.
   */
  lemma DerefRoundTrip(s: Store, index: nat, target: u64)
    requires RefAt(s, index) && index in s.words && s.words[index] == OffsetTo(index, target)
    ensures Deref(s, index) == Located(target, false)
  {
    OffsetRoundTrip(index, target);
  }

  /** `dereference` on the allocator, with the same three reads and payload lookup as the C code. */
  method Dereference(a: Allocator, index: nat) returns (r: Located)
    requires a.Valid()
    ensures r == Deref(View(a), index)
  {
    var cell := a.Get(index);
    var left := a.Get(index + 1);
    var right := a.Get(index + 2);
    if !IsRef(cell, left, right) {
      return Located(index, false);
    }
    var word := a.GetWord(index);
    match word
    case None => r := Located(index, true);
    case Some(w) => r := Located(WrapAdd(index, w), false);
  }

  /**
   * `_get_left_node` as a value: a cell that is not a tree is its own left
   * node; the left child of a tree cell is the next cell, which must be
   * written (the C `assert`), dereferenced.
   */
  function LeftAt(s: Store, root: nat): (r: Located)
    ensures TagAt(s, root) != SIGIL_TREE ==> r == Located(root, false)
    ensures TagAt(s, root) == SIGIL_TREE ==> (r.Aborted? <==> root + 1 !in s.tags)
  {
    if TagAt(s, root) != SIGIL_TREE then Located(root, false)
    else if root + 1 !in s.tags then Aborted
    else Deref(s, root + 1)
  }

  /**
   * `_get_left_node` on the allocator. Its three outcomes for a written
   * left cell (an empty cell stays put, a reference is followed, any other
   * cell stays put) are those of `dereference` on that cell.
   */
  method LeftNode(a: Allocator, root: nat) returns (r: Located)
    requires a.Valid()
    ensures r == LeftAt(View(a), root)
  {
    var rootCell := a.Get(root);
    if rootCell == ERR_VAL || rootCell != SIGIL_TREE {
      return Located(root, false);
    }
    var leftCell := a.Get(root + 1);
    if leftCell == ERR_VAL {
      return Aborted;
    }
    r := Dereference(a, root + 1);
  }

  /** The match stack of `_get_right_node`, top last. */
  datatype Stack = Bottom | Push(below: Stack, top: nat)

  function Depth(st: Stack): nat
  {
    match st
    case Bottom => 0
    case Push(below, _) => Depth(below) + 1
  }

  /** The match stack as an array, first entry at the bottom. */
  function AsStack(s: seq<nat>): (st: Stack)
    ensures Depth(st) == |s|
  {
    if s == [] then Bottom else Push(AsStack(s[..|s| - 1]), s[|s| - 1])
  }

  /** Pushing onto the array pushes onto the stack. */
  lemma AsStackPush(s: seq<nat>, c: nat)
    ensures AsStack(s + [c]) == Push(AsStack(s), c)
  {
    assert (s + [c])[..|s|] == s;
  }

  /** The top three entries of an array of at least three. */
  lemma AsStackTop(s: seq<nat>)
    requires |s| >= 3
    ensures var n := |s|;
      AsStack(s) == Push(Push(Push(AsStack(s[..n - 3]), s[n - 3]), s[n - 2]), s[n - 1])
  {
    var n := |s|;
    assert s[..n - 1][..n - 2] == s[..n - 2];
    assert s[..n - 2][..n - 3] == s[..n - 3];
  }

  /** The scan stops on exactly one array: the single empty cell. */
  lemma AsStackStop(s: seq<nat>)
    ensures AsStack(s) == Push(Bottom, SIGIL_NIL) <==> |s| == 1 && s[0] == SIGIL_NIL
  {
    if |s| == 1 {
      assert s[..0] == [];
    }
  }

  /** The pairs on top of the match stack that close a subtree. */
  predicate Closes(lhs: nat, rhs: nat)
  {
    (lhs == SIGIL_NIL && rhs == SIGIL_NIL) || (lhs == SIGIL_REF && rhs == SIGIL_NIL) ||
    (lhs == SIGIL_REF && rhs == SIGIL_REF)
  }

  /**
   * The scanning loop of `_get_right_node`, as a function of the match
   * stack and the cursor: stop once the stack is a single empty cell;
   * replace three entries whose top two close a subtree by one empty cell;
   * otherwise push the cell under the cursor, which must be written
   * (`None` is the failed `assert`), and advance.
   */
  ghost function Scan(tags: map<nat, nat>, bound: nat, st: Stack, cur: nat): Option<nat>
    requires TagsBelow(tags, bound)
    decreases (if cur <= bound then bound - cur else 0) * 3 + Depth(st)
  {
    if st == Push(Bottom, SIGIL_NIL) then Some(cur)
    else if st.Push? && st.below.Push? && st.below.below.Push? && Closes(st.below.top, st.top) then
      assert Depth(st.below) == Depth(st.below.below) + 1;
      Scan(tags, bound, Push(st.below.below.below, SIGIL_NIL), cur)
    else if cur !in tags then None
    else Scan(tags, bound, Push(st, tags[cur]), cur + 1)
  }

  /** The scan ends on the single empty cell. */
  lemma ScanStops(tags: map<nat, nat>, bound: nat, s: seq<nat>, cur: nat)
    requires TagsBelow(tags, bound) && |s| == 1 && s[0] == SIGIL_NIL
    ensures Scan(tags, bound, AsStack(s), cur) == Some(cur)
  {
    AsStackStop(s);
  }

  /** A closing pair on top of the array replaces the top three entries by one empty cell. */
  lemma ScanReduces(tags: map<nat, nat>, bound: nat, s: seq<nat>, cur: nat)
    requires TagsBelow(tags, bound) && |s| >= 3 && Closes(s[|s| - 2], s[|s| - 1])
    ensures Scan(tags, bound, AsStack(s), cur) == Scan(tags, bound, AsStack(s[..|s| - 3] + [SIGIL_NIL]), cur)
  {
    AsStackStop(s);
    AsStackTop(s);
    AsStackPush(s[..|s| - 3], SIGIL_NIL);
  }

  /** Without a stop or a closing pair, the scan pushes the cell under the cursor, or fails on an unwritten one. */
  lemma ScanAdvances(tags: map<nat, nat>, bound: nat, s: seq<nat>, cur: nat)
    requires TagsBelow(tags, bound) && !(|s| == 1 && s[0] == SIGIL_NIL)
    requires !(|s| >= 3 && Closes(s[|s| - 2], s[|s| - 1]))
    ensures cur !in tags ==> Scan(tags, bound, AsStack(s), cur) == None
    ensures cur in tags ==> Scan(tags, bound, AsStack(s), cur) == Scan(tags, bound, AsStack(s + [tags[cur]]), cur + 1)
  {
    AsStackStop(s);
    if |s| >= 3 {
      AsStackTop(s);
    } else if |s| == 2 {
      assert s[..1][..0] == [];
    } else if |s| == 1 {
      assert s[..0] == [];
    }
    if cur in tags {
      AsStackPush(s, tags[cur]);
    }
  }

  /**
   * The scanning loop of `_get_right_node` on the allocator: the cursor
   * where the scan stops (`None` when it meets an unwritten cell) and the
   * match stack it leaves behind.
   */
  method ScanRight(a: Allocator, start: nat) returns (stop: Option<nat>, stack: seq<nat>)
    requires a.Valid()
    ensures stop == Scan(View(a).tags, View(a).bound, Bottom, start)
    ensures stop.Some? ==> stack == [SIGIL_NIL]
  {
    ghost var s := View(a);
    stack := [];
    var cur := start;
    while true
      invariant Scan(s.tags, s.bound, AsStack(stack), cur) == Scan(s.tags, s.bound, Bottom, start)
      decreases (if cur <= s.bound then s.bound - cur else 0) * 3 + |stack|
    {
      if |stack| == 1 && stack[0] == SIGIL_NIL {
        ScanStops(s.tags, s.bound, stack, cur);
        return Some(cur), stack;
      }
      if |stack| >= 3 {
        var last := |stack| - 1;
        if Closes(stack[last - 1], stack[last]) {
          ScanReduces(s.tags, s.bound, stack, cur);
          stack := stack[..last - 2] + [SIGIL_NIL];
          continue;
        }
      }
      ScanAdvances(s.tags, s.bound, stack, cur);
      var cell := a.Get(cur);
      if cell == ERR_VAL {
        return None, stack;
      }
      stack := stack + [cell];
      cur := cur + 1;
    }
  }

  /**
   * `_get_right_node` as a value: a cell that is not a tree is its own
   * right node; otherwise scan the left subtree from the next cell and
   * dereference the cell where the scan stops.
   */
  ghost function RightAt(s: Store, root: nat): Located
    requires Bounded(s)
  {
    if TagAt(s, root) != SIGIL_TREE then Located(root, false)
    else
      match Scan(s.tags, s.bound, Bottom, root + 1)
      case None => Aborted
      case Some(cur) => Deref(s, cur)
  }

  /** `_is_terminal`: the three cells are written and form a leaf, a reference or a native. */
  method IsTerminal(a: Allocator, index: nat) returns (r: bool)
    requires a.Valid()
    ensures r ==> index in a.Tags && index + 1 in a.Tags && index + 2 in a.Tags
    ensures r ==> a.Tags[index + 2] == SIGIL_NIL && a.Tags[index] != SIGIL_NIL
    ensures var s := View(a);
      r <==> IsLeaf(TagAt(s, index), TagAt(s, index + 1), TagAt(s, index + 2)) || RefAt(s, index) ||
             IsNative(TagAt(s, index), TagAt(s, index + 1), TagAt(s, index + 2))
  {
    var root := a.Get(index);
    var left := a.Get(index + 1);
    var right := a.Get(index + 2);
    if root == ERR_VAL || left == ERR_VAL || right == ERR_VAL {
      return false;
    }
    r := IsLeaf(root, left, right) || IsRef(root, left, right) || IsNative(root, left, right);
  }

  // ---------------------------------------------------------------------
  // Terms laid out in the store

  /** A term of tree calculus: a leaf, a stem with one child, a fork with two. */
  datatype Term = Leaf | Stem(child: Term) | Fork(left: Term, right: Term)

  /** The number of cells a term occupies. */
  function Size(t: Term): (n: nat)
    ensures n >= 3
  {
    match t
    case Leaf => 3
    case Stem(c) => Size(c) + 2
    case Fork(l, r) => 1 + Size(l) + Size(r)
  }

  /** Cell `i` is written and holds `v`. */
  ghost predicate CellIs(tags: map<nat, nat>, i: nat, v: nat)
  {
    i in tags && tags[i] == v
  }

  /**
   * The term is laid out from `p` on in prefix order: a tree cell, the
   * left child, the right child, with an empty cell for a missing child.
   */
  ghost predicate Placed(tags: map<nat, nat>, p: nat, t: Term)
    decreases t
  {
    CellIs(tags, p, SIGIL_TREE) &&
    match t
    case Leaf => CellIs(tags, p + 1, SIGIL_NIL) && CellIs(tags, p + 2, SIGIL_NIL)
    case Stem(c) => Placed(tags, p + 1, c) && CellIs(tags, p + 1 + Size(c), SIGIL_NIL)
    case Fork(l, r) => Placed(tags, p + 1, l) && Placed(tags, p + 1 + Size(l), r)
  }

  /** The cells of a term's left part: the empty cell of a leaf, or its first child. */
  function LeftSize(t: Term): nat
  {
    match t
    case Leaf => 1
    case Stem(c) => Size(c)
    case Fork(l, _) => Size(l)
  }

  /**
   * A match stack in the middle of scanning terms: open tree cells, each
   * followed by at most the empty cell that stands for its finished left
   * child.
   */
  ghost predicate Open(st: Stack)
  {
    match st
    case Bottom => true
    case Push(below, top) =>
      (top == SIGIL_TREE && Open(below)) ||
      (top == SIGIL_NIL && below.Push? && below.top == SIGIL_TREE && Open(below.below))
  }

  /** The stack once one more subtree is finished on top of `st`. */
  ghost function Complete(st: Stack): Stack
    requires Open(st)
  {
    if st.Push? && st.top == SIGIL_NIL then Complete(st.below.below) else Push(st, SIGIL_NIL)
  }

  /** On an open stack the scan neither stops nor reduces: it pushes the next cell. */
  lemma ScanPushes(tags: map<nat, nat>, bound: nat, st: Stack, p: nat)
    requires TagsBelow(tags, bound) && Open(st) && p in tags
    ensures Scan(tags, bound, st, p) == Scan(tags, bound, Push(st, tags[p]), p + 1)
  {
  }

  /** An empty cell pushed on an open stack reduces to the completed stack. */
  lemma {:induction false} ScanCollapses(tags: map<nat, nat>, bound: nat, st: Stack, p: nat)
    requires TagsBelow(tags, bound) && Open(st)
    ensures Scan(tags, bound, Push(st, SIGIL_NIL), p) == Scan(tags, bound, Complete(st), p)
    decreases st
  {
    if st.Push? && st.top == SIGIL_NIL {
      ScanCollapses(tags, bound, st.below.below, p);
    }
  }

  /** A tree cell under the cursor is pushed and opens a subtree. */
  lemma ScanOpens(tags: map<nat, nat>, bound: nat, st: Stack, p: nat)
    requires TagsBelow(tags, bound) && Open(st) && CellIs(tags, p, SIGIL_TREE)
    ensures Open(Push(st, SIGIL_TREE)) && Complete(Push(st, SIGIL_TREE)) == Push(Push(st, SIGIL_TREE), SIGIL_NIL)
    ensures Scan(tags, bound, st, p) == Scan(tags, bound, Push(st, SIGIL_TREE), p + 1)
  {
    ScanPushes(tags, bound, st, p);
  }

  /** An empty right child under the cursor, after a finished left child, finishes the subtree. */
  lemma ScanClosesRight(tags: map<nat, nat>, bound: nat, st: Stack, q: nat)
    requires TagsBelow(tags, bound) && Open(st) && CellIs(tags, q, SIGIL_NIL)
    ensures Open(Push(Push(st, SIGIL_TREE), SIGIL_NIL))
    ensures Scan(tags, bound, Push(Push(st, SIGIL_TREE), SIGIL_NIL), q) == Scan(tags, bound, Complete(st), q + 1)
  {
    var sTN := Push(Push(st, SIGIL_TREE), SIGIL_NIL);
    ScanPushes(tags, bound, sTN, q);
    ScanCollapses(tags, bound, sTN, q + 1);
  }

  /** Scanning a laid-out term finishes one subtree on the stack, one cell past the term. */
  lemma {:induction false} ScanTerm(tags: map<nat, nat>, bound: nat, t: Term, st: Stack, p: nat)
    requires TagsBelow(tags, bound) && Open(st) && Placed(tags, p, t)
    ensures Scan(tags, bound, st, p) == Scan(tags, bound, Complete(st), p + Size(t))
    decreases t
  {
    ScanOpens(tags, bound, st, p);
    var sT := Push(st, SIGIL_TREE);
    match t
    case Leaf =>
      ScanPushes(tags, bound, sT, p + 1);
      ScanClosesRight(tags, bound, st, p + 2);
    case Stem(c) =>
      ScanTerm(tags, bound, c, sT, p + 1);
      ScanClosesRight(tags, bound, st, p + 1 + Size(c));
    case Fork(l, r) =>
      ScanTerm(tags, bound, l, sT, p + 1);
      var sTN := Push(sT, SIGIL_NIL);
      assert Open(sTN) && Complete(sTN) == Complete(st);
      ScanTerm(tags, bound, r, sTN, p + 1 + Size(l));
  }
}
