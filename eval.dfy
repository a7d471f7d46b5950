/**
 * The evaluator state of `eval_state_t` and the operations on it: the
 * free-cell search, the right-node scan, one reduction step and reset.
 * Each method is proved against the value-level functions of the modules
 * Vacancy, Navigation and Rules.
 */
module Eval {
  import opened Machine
  import opened Wrappers
  import opened Packing
  import opened Memory
  import opened EvalDefs
  import opened Navigation
  import opened Vacancy
  import opened Rules

  /** How a step ends: it returns, or a C `assert` fails and ends the process. */
  datatype Outcome = Returned(value: bool) | Crashed

  /** The part of the state a step reads and writes, as values. */
  datatype StepState = StepState(
    apply: seq<nat>, result: seq<nat>, tags: map<nat, nat>, words: map<nat, i64>, free: seq<nat>, error: u8)

  /** The effect of an action on the apply stack, the cells and the free bitmap. */
  ghost predicate Acted(s: StepState, t: StepState, d: Decision, z: nat, native: (i64, nat) -> nat, start: nat)
  {
    match d.action
    case CallNative(word) => t.apply == s.apply + [native(word, z)] && t.tags == s.tags && t.words == s.words && t.free == s.free
    case PushEntries(e) => t.apply == s.apply + e && t.tags == s.tags && t.words == s.words && t.free == s.free
    case Fail(_) => t.apply == s.apply && t.tags == s.tags && t.words == s.words && t.free == s.free
    case Abort => true
    case Build0a =>
      Reserved(s.free, 5, start, t.free) && t.apply == s.apply + [start] &&
      t.tags == Tags0a(s.tags, start) && t.words == s.words[start + 1 := OffsetTo(start + 1, z)]
    case Build0b(_) =>
      Reserved(s.free, 7, start, t.free) && t.apply == s.apply + [start] &&
      t.tags == Tags0b(s.tags, start) && t.words == s.words[start + 4 := OffsetTo(start + 4, z)]
  }

  /**
   * One `eval_step` from `s` to `t` on the store `store` (the cells of
   * `s`): unwind the apply stack; without an apply token, or with fewer
   * than two results, return; otherwise reduce.
   */
  ghost predicate Stepped(s: StepState, store: Store, t: StepState, r: Outcome, native: (i64, nat) -> nat, start: nat)
    requires Bounded(store)
  {
    var u := Unwind(store, s.apply, s.result);
    var s1 := s.(apply := u.apply, result := u.result, error := if u.generic then ERROR_GENERIC else s.error);
    if !u.sawApply then r == Returned(s1.error == 0) && t == s1
    else if |u.result| < 2 then r == Returned(false) && t == s1.(error := ERROR_STACK_UNDERFLOW)
    else Reduced(s1, store, t, r, native, start)
  }

  /**
   * The reduction part of `eval_step`: pop `F`, then `z`, and act on the
   * decision for them; a failed C `assert` on the way crashes.
   */
  ghost predicate Reduced(s: StepState, store: Store, t: StepState, r: Outcome, native: (i64, nat) -> nat, start: nat)
    requires Bounded(store) && |s.result| >= 2
  {
    var n := |s.result|;
    var F, z := s.result[n - 1], s.result[n - 2];
    var d := Decide(store, F, z);
    r == (if d.action.Abort? then Crashed else Returned(false)) &&
    (r.Returned? ==>
      t.result == s.result[..n - 2] && t.error == ErrorAfter(s.error, d) && Acted(s, t, d, z, native, start))
  }

  /** An action does not look at the result stack or the error code of the state it starts from. */
  lemma ActedOnlyReads(s: StepState, s': StepState, t: StepState, d: Decision, z: nat, native: (i64, nat) -> nat, start: nat)
    requires s'.apply == s.apply && s'.tags == s.tags && s'.words == s.words && s'.free == s.free
    requires Acted(s', t, d, z, native, start)
    ensures Acted(s, t, d, z, native, start)
  {
  }

  /** A second write to a key replaces the first. */
  lemma Overwritten<K, V>(m: map<K, V>, k: K, first: V, second: V)
    ensures m[k := first][k := second] == m[k := second]
  {
  }

  class EvalState {
    var cells: Allocator
    var applyStack: seq<nat>
    var resultStack: seq<nat>
    var freeBitmap: array<nat>
    var freeCapacity: nat
    var matchStack: seq<nat>
    /** The native registry, a map from name to symbol. */
    var natives: map<string, nat>
    var errorCode: u8
    ghost var Repr: set<object>

    ghost predicate Valid()
      reads this, Repr
      ensures Valid() ==> this in Repr
    {
      this in Repr && cells in Repr && freeBitmap in Repr && cells.Repr <= Repr &&
      Repr == {this, freeBitmap} + cells.Repr &&
      this !in cells.Repr && freeBitmap !in cells.Repr && cells.Valid() &&
      freeBitmap.Length == freeCapacity && 0 < freeCapacity && WordsFit(freeBitmap[..])
    }

    ghost function State(): StepState
      reads this, Repr
      requires Valid()
    {
      StepState(applyStack, resultStack, cells.Tags, cells.Words(), freeBitmap[..], errorCode)
    }

    /**
     * `eval_init`: four words of cells, a free bitmap covering them (two
     * words, all clear), empty stacks, no error.
     */
    constructor Init()
      ensures Valid() && fresh(Repr)
      ensures State() == StepState([], [], map[], map[], [0, 0], 0)
      ensures cells.cellsCapacity == 4 && freeCapacity == 2 && matchStack == [] && natives == map[]
    {
      cells := new Allocator.Init(4);
      var capacity := CellsBitmapSize(4);
      freeCapacity := capacity;
      freeBitmap := new nat[capacity](_ => 0);
      applyStack, resultStack, matchStack := [], [], [];
      natives := map[];
      errorCode := 0;
      new;
      Repr := {this, freeBitmap} + cells.Repr;
      assert freeBitmap[..] == [0, 0];
    }

    /** The doubling half of `next_n_vacant_cells`: twice the words, the new half zero. */
    method Widen()
      requires Valid()
      modifies this`freeBitmap, this`freeCapacity, this`Repr
      ensures Valid() && fresh(Repr - old(Repr)) && fresh(freeBitmap)
      ensures freeBitmap[..] == old(freeBitmap[..]) + seq(old(freeCapacity), _ => 0)
    {
      var oldBitmap := freeBitmap;
      var capacity := freeCapacity * 2;
      var bitmap := new nat[capacity](k requires 0 <= k < capacity reads oldBitmap =>
        if k < oldBitmap.Length then oldBitmap[k] else 0);
      assert bitmap[..] == oldBitmap[..] + seq(freeCapacity, _ => 0);
      freeBitmap, freeCapacity := bitmap, capacity;
      Repr := {this, freeBitmap} + cells.Repr;
    }

    /**
     * `next_n_vacant_cells`: the first run of `n` clear bits inside one
     * word, searched word by word and bit by bit, is set and its index
     * returned; with no room anywhere the bitmap doubles and the search
     * starts again.
     */
    method Reserve(n: nat) returns (start: nat)
      requires Valid() && 0 < n < BITS_PER_WORD
      modifies this`freeBitmap, this`freeCapacity, this`Repr, freeBitmap
      ensures Valid() && fresh(Repr - old(Repr))
      ensures Reserved(old(freeBitmap[..]), n, start, freeBitmap[..])
      decreases if HasFit(freeBitmap[..], n) then 0 else 1
    {
      ghost var words := freeBitmap[..];
      var w := 0;
      while w < freeCapacity
        invariant w <= freeCapacity && freeBitmap[..] == words
        invariant forall w': nat, b': nat :: w' < w ==> !Fits(words, w', b', n)
      {
        if freeBitmap[w] != AllOnes() {
          var b := 0;
          while b < BITS_PER_WORD - n + 1
            invariant b <= BITS_PER_WORD - n + 1
            invariant forall b': nat :: b' < b ==> !Fits(words, w, b', n)
          {
            if RunClear(freeBitmap[w], b, n) {
              start := w * BITS_PER_WORD + b;
              assert Fits(words, w, b, n);
              SetRunFits(freeBitmap[w], b, n);
              freeBitmap[w] := SetRun(freeBitmap[w], b, n);
              assert start / BITS_PER_WORD == w && start % BITS_PER_WORD == b;
              return;
            }
            b := b + 1;
          }
        } else {
          forall b': nat | b' + n <= BITS_PER_WORD
            ensures !Fits(words, w, b', n)
          {
            FullWordHasNoRun(b', n);
          }
        }
        w := w + 1;
      }
      WidenedFirstFit(words, n);
      Widen();
      ghost var wide := freeBitmap[..];
      assert Fits(wide, |words|, 0, n);
      start := Reserve(n);
    }

    /**
     * `_get_right_node`: clear the match stack; a cell that is not a tree
     * is its own right node; otherwise push cells from the next one on,
     * reducing three entries to one empty cell whenever the top two close
     * a subtree, until the stack is a single empty cell, and dereference
     * the cell where the scan stopped.
     */
    method GetRightNode(root: nat) returns (r: Located)
      requires Valid()
      modifies this`matchStack
      ensures r == RightAt(View(cells), root)
      ensures r.Located? ==> matchStack == if TagAt(View(cells), root) == SIGIL_TREE then [SIGIL_NIL] else []
    {
      matchStack := [];
      var rootCell := cells.Get(root);
      if rootCell == ERR_VAL || rootCell != SIGIL_TREE {
        return Located(root, false);
      }
      var stop;
      stop, matchStack := ScanRight(cells, root + 1);
      match stop
      case None => r := Aborted;
      case Some(cur) => r := Dereference(cells, cur);
    }

    /**
     * The pop loop of `eval_step`: pop entries, pushing each one
     * dereferenced onto the result stack, until the apply token.
     */
    method PopArguments() returns (sawApply: bool)
      requires Valid()
      modifies this`applyStack, this`resultStack, this`errorCode
      ensures var u := old(Unwind(View(cells), applyStack, resultStack));
        sawApply == u.sawApply && applyStack == u.apply && resultStack == u.result &&
        errorCode == if u.generic then ERROR_GENERIC else old(errorCode)
    {
      ghost var s := View(cells);
      ghost var u0 := Unwind(s, applyStack, resultStack);
      ghost var g := false;
      sawApply := false;
      while |applyStack| > 0
        invariant !sawApply ==> var u := Unwind(s, applyStack, resultStack); u0 == u.(generic := u.generic || g)
        invariant sawApply ==> u0 == Unwound(applyStack, resultStack, true, g)
        invariant errorCode == if g then ERROR_GENERIC else old(errorCode)
        decreases |applyStack|, if sawApply then 0 else 1
      {
        var i := applyStack[|applyStack| - 1];
        applyStack := applyStack[..|applyStack| - 1];
        if i == TOKEN_APPLY {
          sawApply := true;
          break;
        }
        var d := Dereference(cells, i);
        if d.failed {
          errorCode := ERROR_GENERIC;
        }
        g := g || d.failed;
        resultStack := resultStack + [d.index];
      }
    }

    /** `eval_step`, eval/eval.c lines 293-308: the native test and the tree test on `F`. */
    method Choose(F: nat, z: nat) returns (d: Decision)
      requires Valid()
      modifies this`matchStack, this`errorCode
      ensures d == Decide(View(cells), F, z)
      ensures !d.action.Abort? ==> errorCode == ErrorAfter(old(errorCode), d)
    {
      var cell := cells.Get(F);
      var left := cells.Get(F + 1);
      var right := cells.Get(F + 2);
      if IsNative(cell, left, right) {
        var word := cells.GetWord(F);
        if word.None? {
          errorCode := ERROR_GENERIC;
          return Decision(Fail(ERROR_GENERIC), false);
        }
        return Decision(CallNative(word.value), false);
      }
      if cell != SIGIL_TREE {
        errorCode := ERROR_GENERIC;
        return Decision(Fail(ERROR_GENERIC), false);
      }
      d := ChooseTree(F, z);
    }

    /** `_get_left_node` in `eval_step`: a failed dereference stores ERROR_GENERIC. */
    method NavigateLeft(root: nat) returns (r: Located)
      requires Valid()
      modifies this`errorCode
      ensures r == LeftAt(View(cells), root)
      ensures errorCode == if r.Located? && r.failed then ERROR_GENERIC else old(errorCode)
    {
      r := LeftNode(cells, root);
      if r.Located? && r.failed {
        errorCode := ERROR_GENERIC;
      }
    }

    /** `_get_right_node` in `eval_step`: a failed dereference stores ERROR_GENERIC. */
    method NavigateRight(root: nat) returns (r: Located)
      requires Valid()
      modifies this`matchStack, this`errorCode
      ensures r == RightAt(View(cells), root)
      ensures errorCode == if r.Located? && r.failed then ERROR_GENERIC else old(errorCode)
    {
      r := GetRightNode(root);
      if r.Located? && r.failed {
        errorCode := ERROR_GENERIC;
      }
    }

    /** `eval_step`, eval/eval.c lines 310-315: navigate to `A` and `y`. */
    method ChooseTree(F: nat, z: nat) returns (d: Decision)
      requires Valid()
      modifies this`matchStack, this`errorCode
      ensures d == DecideTree(View(cells), F, z)
      ensures !d.action.Abort? ==> errorCode == ErrorAfter(old(errorCode), d)
    {
      var A := NavigateLeft(F);
      if A.Aborted? {
        return Decision(Abort, false);
      }
      if A.index == F {
        errorCode := ERROR_INVALID_TREE;
        return Decision(Fail(ERROR_INVALID_TREE), A.failed);
      }
      var y := NavigateRight(F);
      if y.Aborted? {
        return Decision(Abort, A.failed);
      }
      if y.index == F {
        errorCode := ERROR_INVALID_TREE;
        return Decision(Fail(ERROR_INVALID_TREE), A.failed || y.failed);
      }
      d := ChooseNodes(A.index, y.index, z, A.failed || y.failed);
    }

    /** `eval_step`, eval/eval.c lines 316-335: navigate to `w` and `x`; rule 0a on an empty `A` and `y`. */
    method ChooseNodes(A: nat, y: nat, z: nat, generic: bool) returns (d: Decision)
      requires Valid() && (generic ==> errorCode == ERROR_GENERIC)
      modifies this`matchStack, this`errorCode
      ensures d == DecideNodes(View(cells), A, y, z, generic)
      ensures generic ==> d.generic
      ensures !d.action.Abort? ==> errorCode == ErrorAfter(old(errorCode), d)
    {
      var w := NavigateLeft(A);
      if w.Aborted? {
        return Decision(Abort, generic);
      }
      var x := NavigateRight(A);
      if x.Aborted? {
        return Decision(Abort, generic || w.failed);
      }
      var g := generic || w.failed || x.failed;
      var aCell := cells.Get(A);
      var yCell := cells.Get(y);
      if aCell == SIGIL_NIL && yCell == SIGIL_NIL {
        return Decision(Build0a, g);
      }
      d := ChooseRule(A, y, w.index, x.index, z, g);
    }

    /** `eval_step`, eval/eval.c lines 336-380: the checks on `w` and `x`, then rules 0b, 1 and 2. */
    method ChooseRule(A: nat, y: nat, w: nat, x: nat, z: nat, generic: bool) returns (d: Decision)
      requires Valid() && (generic ==> errorCode == ERROR_GENERIC)
      modifies this`matchStack, this`errorCode
      ensures d == DecideRule(View(cells), A, y, w, x, z, generic)
      ensures generic ==> d.generic
      ensures !d.action.Abort? ==> errorCode == ErrorAfter(old(errorCode), d)
    {
      if w == A || x == A {
        errorCode := ERROR_INVALID_TREE;
        return Decision(Fail(ERROR_INVALID_TREE), generic);
      }
      var wCell := cells.Get(w);
      var xCell := cells.Get(x);
      var yCell := cells.Get(y);
      if wCell == SIGIL_NIL && xCell == SIGIL_NIL && yCell == SIGIL_NIL {
        return Decision(Build0b(A), generic);
      }
      if wCell == SIGIL_NIL && xCell == SIGIL_NIL {
        return Decision(PushEntries([y]), generic);
      }
      if wCell == SIGIL_NIL && xCell != SIGIL_NIL {
        errorCode := ERROR_INVALID_TREE;
        return Decision(Fail(ERROR_INVALID_TREE), generic);
      }
      if wCell != SIGIL_NIL && xCell == SIGIL_NIL {
        return Decision(PushEntries([TOKEN_APPLY, TOKEN_APPLY, w, z, TOKEN_APPLY, y, z]), generic);
      }
      d := ChooseTriage(w, x, y, z, generic);
    }

    /** `eval_step`, eval/eval.c lines 381-419: rule 3 on the nodes `u` and `v` of `z`. */
    method ChooseTriage(w: nat, x: nat, y: nat, z: nat, generic: bool) returns (d: Decision)
      requires Valid() && (generic ==> errorCode == ERROR_GENERIC)
      modifies this`matchStack, this`errorCode
      ensures d == DecideTriage(View(cells), w, x, y, z, generic)
      ensures generic ==> d.generic
      ensures !d.action.Abort? ==> errorCode == ErrorAfter(old(errorCode), d)
    {
      var u := NavigateLeft(z);
      if u.Aborted? {
        return Decision(Abort, generic);
      }
      if u.index == z {
        errorCode := ERROR_INVALID_TREE;
        return Decision(Fail(ERROR_INVALID_TREE), generic || u.failed);
      }
      var v := NavigateRight(z);
      if v.Aborted? {
        return Decision(Abort, generic || u.failed);
      }
      var g := generic || u.failed || v.failed;
      if v.index == z {
        errorCode := ERROR_INVALID_TREE;
        return Decision(Fail(ERROR_INVALID_TREE), g);
      }
      d := ChooseTriageCells(w, x, y, u.index, v.index, g);
    }

    /** `eval_step`, eval/eval.c lines 387-419: rules 3a, 3b and 3c by the emptiness of `u` and `v`. */
    method ChooseTriageCells(w: nat, x: nat, y: nat, u: nat, v: nat, generic: bool) returns (d: Decision)
      requires Valid() && (generic ==> errorCode == ERROR_GENERIC)
      modifies this`errorCode
      ensures d == DecideTriageCells(View(cells), w, x, y, u, v, generic)
      ensures generic ==> d.generic
      ensures !d.action.Abort? ==> errorCode == ErrorAfter(old(errorCode), d)
    {
      var uCell := cells.Get(u);
      var vCell := cells.Get(v);
      if uCell == ERR_VAL || vCell == ERR_VAL {
        errorCode := ERROR_INVALID_TREE;
        return Decision(Fail(ERROR_INVALID_TREE), generic);
      }
      if uCell == SIGIL_NIL && vCell == SIGIL_NIL {
        return Decision(PushEntries([w]), generic);
      }
      if uCell == SIGIL_NIL && vCell != SIGIL_NIL {
        errorCode := ERROR_INVALID_TREE;
        return Decision(Fail(ERROR_INVALID_TREE), generic);
      }
      if uCell != SIGIL_NIL && vCell == SIGIL_NIL {
        return Decision(PushEntries([TOKEN_APPLY, x, u]), generic);
      }
      return Decision(PushEntries([TOKEN_APPLY, TOKEN_APPLY, y, u, v]), generic);
    }

    /** `eval_cells_set` on the evaluator's store: one tag changes, the rest of the state stays. */
    method SetCell(index: nat, sigil: int)
      requires Valid() && 0 <= sigil < 4
      modifies this`Repr, cells.Repr
      ensures Valid() && fresh(Repr - old(Repr)) && cells == old(cells)
      ensures cells.Tags == old(cells.Tags)[index := sigil] && cells.Words() == old(cells.Words())
    {
      var value := sigil as u8;
      assert value % 4 == sigil;
      cells.Set(index, value);
      Repr := {this, freeBitmap} + cells.Repr;
    }

    /** `eval_cells_set_word` on the evaluator's store, at a cell that holds a tag. */
    method SetCellWord(index: nat, value: i64)
      requires Valid() && index in cells.Tags
      modifies cells`payloadIndex, cells`payloads
      ensures Valid() && cells.Tags == old(cells.Tags)
      ensures cells.Words() == old(cells.Words())[index := value]
    {
      var status := cells.SetWord(index, value);
    }

    /** The three cells of a reference, as rules 0a and 0b write them: the reference and two empty cells. */
    method SetRefCells(q: nat)
      requires Valid()
      modifies this`Repr, cells.Repr
      ensures Valid() && fresh(Repr - old(Repr)) && cells == old(cells)
      ensures cells.Tags == RefCells(old(cells.Tags), q) && cells.Words() == old(cells.Words())
    {
      SetCell(q, SIGIL_REF);
      assert fresh(Repr - old(Repr));
      SetCell(q + 1, SIGIL_NIL);
      assert fresh(Repr - old(Repr));
      SetCell(q + 2, SIGIL_NIL);
    }

    /** Rule 0a's writes: T R N N N from `p`, the reference at `p + 1` leading to `z`. */
    method Write0a(p: nat, z: nat)
      requires Valid()
      modifies this`Repr, cells.Repr
      ensures Valid() && fresh(Repr - old(Repr)) && cells == old(cells)
      ensures cells.Tags == Tags0a(old(cells.Tags), p)
      ensures cells.Words() == old(cells.Words())[p + 1 := OffsetTo(p + 1, z)]
    {
      var ref := p + 1;
      SetCell(p, SIGIL_TREE);
      assert fresh(Repr - old(Repr));
      SetRefCells(ref);
      assert fresh(Repr - old(Repr));
      SetCell(p + 4, SIGIL_NIL);
      SetCellWord(ref, OffsetTo(ref, z));
    }

    /**
     * Rule 0b's writes: T R N N R N N from `p`. Both payload writes go to
     * the second reference at `p + 4`, the last one leading to `z`; the
     * first reference at `p + 1` gets no payload.
     */
    method Write0b(p: nat, A: nat, z: nat)
      requires Valid()
      modifies this`Repr, cells.Repr
      ensures Valid() && fresh(Repr - old(Repr)) && cells == old(cells)
      ensures cells.Tags == Tags0b(old(cells.Tags), p)
      ensures cells.Words() == old(cells.Words())[p + 4 := OffsetTo(p + 4, z)]
    {
      var ref1, ref2 := p + 1, p + 4;
      SetCell(p, SIGIL_TREE);
      assert fresh(Repr - old(Repr));
      SetRefCells(ref1);
      assert fresh(Repr - old(Repr));
      SetRefCells(ref2);
      ghost var words := cells.Words();
      SetCellWord(ref2, OffsetTo(ref1, A));
      SetCellWord(ref2, OffsetTo(ref2, z));
      Overwritten(words, ref2, OffsetTo(ref1, A), OffsetTo(ref2, z));
    }

    /** Carry out a decision: push entries, call the native, or build a node in fresh cells. */
    method Perform(d: Decision, z: nat, native: (i64, nat) -> nat) returns (ghost start: nat)
      requires Valid()
      modifies this`applyStack, this`Repr, this`freeBitmap, this`freeCapacity, freeBitmap, cells.Repr
      ensures Valid() && fresh(Repr - old(Repr)) && cells == old(cells)
      ensures Acted(old(State()), State(), d, z, native, start)
    {
      start := 0;
      match d.action {
        case CallNative(word) =>
          applyStack := applyStack + [native(word, z)];
        case PushEntries(entries) =>
          applyStack := applyStack + entries;
        case Fail(_) =>
        case Abort =>
        case Build0a =>
          var p := Reserve(5);
          Write0a(p, z);
          applyStack := applyStack + [p];
          start := p;
        case Build0b(A) =>
          var p := Reserve(7);
          Write0b(p, A, z);
          applyStack := applyStack + [p];
          start := p;
      }
    }

    /**
     * `eval_step`: one reduction. It returns true when there is nothing
     * left to apply and no error is stored, and false otherwise.
     */
    method Step(native: (i64, nat) -> nat) returns (r: Outcome, ghost start: nat)
      requires Valid()
      modifies Repr
      ensures Valid() && fresh(Repr - old(Repr))
      ensures natives == old(natives)
      ensures Stepped(old(State()), old(View(cells)), State(), r, native, start)
    {
      start := 0;
      if |applyStack| == 0 {
        return Returned(errorCode == 0), start;
      }
      var sawApply := PopArguments();
      if !sawApply {
        return Returned(errorCode == 0), start;
      }
      if |resultStack| < 2 {
        errorCode := ERROR_STACK_UNDERFLOW;
        return Returned(false), start;
      }
      r, start := Reduce(native);
    }

    /** `eval_step`, eval/eval.c lines 289-423: pop `F` and `z`, decide, and act on the decision. */
    method Reduce(native: (i64, nat) -> nat) returns (r: Outcome, ghost start: nat)
      requires Valid() && |resultStack| >= 2
      modifies Repr
      ensures Valid() && fresh(Repr - old(Repr))
      ensures natives == old(natives)
      ensures Reduced(old(State()), old(View(cells)), State(), r, native, start)
    {
      start := 0;
      ghost var s0, store := State(), View(cells);
      var n := |resultStack|;
      var F, z := resultStack[n - 1], resultStack[n - 2];
      resultStack := resultStack[..n - 2];
      var d := Choose(F, z);
      assert d == Decide(store, F, z);
      if d.action.Abort? {
        return Crashed, start;
      }
      ghost var s1 := State();
      assert s1.error == ErrorAfter(s0.error, d);
      start := Perform(d, z, native);
      ActedOnlyReads(s0, s1, State(), d, z, native, start);
      r := Returned(false);
    }

    /** `_eval_reset_cells`: reset the store and clear every bit of the free bitmap. */
    method ResetCells() returns (err: int)
      requires Valid()
      modifies cells.Repr, freeBitmap
      ensures Valid() && err == 0
      ensures cells.Tags == map[] && cells.Words() == map[]
      ensures freeBitmap[..] == seq(freeCapacity, _ => 0)
    {
      cells.Reset();
      forall k | 0 <= k < freeBitmap.Length {
        freeBitmap[k] := 0;
      }
      assert freeBitmap[..] == seq(freeCapacity, _ => 0);
      err := 0;
    }

    /** `eval_reset`: reset the cells, empty the three stacks and the registry, clear the error. */
    method Reset() returns (err: int)
      requires Valid()
      modifies cells.Repr, freeBitmap, this`applyStack, this`resultStack, this`matchStack, this`natives, this`errorCode
      ensures Valid() && err == 0
      ensures State() == StepState([], [], map[], map[], seq(freeCapacity, _ => 0), 0)
      ensures matchStack == [] && natives == map[]
    {
      err := ResetCells();
      applyStack, resultStack, matchStack := [], [], [];
      natives := map[];
      errorCode := 0;
    }

    /** `eval_add_native`: register `symbol` under `name`. */
    method AddNative(name: string, symbol: nat) returns (err: int)
      modifies this`natives
      ensures natives == old(natives)[name := symbol] && err == 0
    {
      natives := natives[name := symbol];
      err := 0;
    }

    /** `eval_get_native`: -1 for an unknown name, otherwise 0 and the symbol. */
    method GetNative(name: string) returns (status: int, symbol: Option<nat>)
      ensures status == (if name in natives then 0 else -1)
      ensures symbol == (if name in natives then Some(natives[name]) else None)
    {
      if name !in natives {
        return -1, None;
      }
      return 0, Some(natives[name]);
    }
  }
}
