/**
 * What one `eval_step` decides, as functions of the cell store: the
 * unwinding of the apply stack into the result stack, and the rule chosen
 * for the function `F` and argument `z` popped off the result stack.
 *
 * The lemmas at the end run the decision on terms laid out in prefix order
 * and show the rules of tree calculus coming out, each with the exact
 * indices it pushes, together with the places where the engine departs
 * from the calculus.
 */
module Rules {
  import opened Machine
  import opened Wrappers
  import opened Memory
  import opened EvalDefs
  import opened Navigation

  /** What the step does once it has looked at `F` and `z`. */
  datatype Action =
    | CallNative(word: i64)          // push the native's result
    | Fail(code: u8)                 // an `EVAL_ASSERT` failed
    | Build0a                        // rule 0a: write a stem of `z` into 5 fresh cells
    | Build0b(left: nat)             // rule 0b: write a fork of `left` and `z` into 7 fresh cells
    | PushEntries(entries: seq<nat>) // rules 1, 2, 3a, 3b, 3c
    | Abort                          // a C `assert` failed

  /** The action, and whether a navigation on the way stored ERROR_GENERIC. */
  datatype Decision = Decision(action: Action, generic: bool)

  /** The error code after a decision: the failed assert's code, else GENERIC if a navigation failed. */
  function ErrorAfter(before: u8, d: Decision): (code: u8)
    ensures d.action.Fail? ==> code == d.action.code
    ensures !d.action.Fail? && d.generic ==> code == ERROR_GENERIC
    ensures !d.action.Fail? && !d.generic ==> code == before
  {
    match d.action
    case Fail(c) => c
    case _ => if d.generic then ERROR_GENERIC else before
  }

  /** `eval_step`, eval/eval.c lines 293-308: a native is called through its payload; any other non-tree `F` is an error. */
  ghost function Decide(s: Store, F: nat, z: nat): Decision
    requires Bounded(s)
  {
    if IsNative(TagAt(s, F), TagAt(s, F + 1), TagAt(s, F + 2)) then
      if F in s.words then Decision(CallNative(s.words[F]), false)
      else Decision(Fail(ERROR_GENERIC), false)
    else if TagAt(s, F) != SIGIL_TREE then Decision(Fail(ERROR_GENERIC), false)
    else DecideTree(s, F, z)
  }

  /** `eval_step`, eval/eval.c lines 310-315: `F` is the tree with left node `A` and right node `y`. */
  ghost function DecideTree(s: Store, F: nat, z: nat): Decision
    requires Bounded(s)
  {
    match LeftAt(s, F)
    case Aborted => Decision(Abort, false)
    case Located(A, failA) =>
      if A == F then Decision(Fail(ERROR_INVALID_TREE), failA)
      else
        match RightAt(s, F)
        case Aborted => Decision(Abort, failA)
        case Located(y, failY) =>
          if y == F then Decision(Fail(ERROR_INVALID_TREE), failA || failY)
          else DecideNodes(s, A, y, z, failA || failY)
  }

  /** `eval_step`, eval/eval.c lines 316-335: `w` and `x` are the nodes of `A`; an empty `A` and `y` make `F` a leaf. */
  ghost function DecideNodes(s: Store, A: nat, y: nat, z: nat, generic: bool): Decision
    requires Bounded(s)
  {
    match LeftAt(s, A)
    case Aborted => Decision(Abort, generic)
    case Located(w, failW) =>
      match RightAt(s, A)
      case Aborted => Decision(Abort, generic || failW)
      case Located(x, failX) =>
        var g := generic || failW || failX;
        if TagAt(s, A) == SIGIL_NIL && TagAt(s, y) == SIGIL_NIL then Decision(Build0a, g)
        else DecideRule(s, A, y, w, x, z, g)
  }

  /** `eval_step`, eval/eval.c lines 336-380: rules 0b, 1 and 2 by the emptiness of `w`, `x` and `y`. */
  ghost function DecideRule(s: Store, A: nat, y: nat, w: nat, x: nat, z: nat, generic: bool): Decision
    requires Bounded(s)
  {
    if w == A || x == A then Decision(Fail(ERROR_INVALID_TREE), generic)
    else
      var wNil, xNil := TagAt(s, w) == SIGIL_NIL, TagAt(s, x) == SIGIL_NIL;
      if wNil && xNil && TagAt(s, y) == SIGIL_NIL then Decision(Build0b(A), generic)
      else if wNil && xNil then Decision(PushEntries([y]), generic)
      else if wNil then Decision(Fail(ERROR_INVALID_TREE), generic)
      else if xNil then
        Decision(PushEntries([TOKEN_APPLY, TOKEN_APPLY, w, z, TOKEN_APPLY, y, z]), generic)
      else DecideTriage(s, w, x, y, z, generic)
  }

  /** `eval_step`, eval/eval.c lines 381-419: rule 3 looks at the nodes `u` and `v` of the argument. */
  ghost function DecideTriage(s: Store, w: nat, x: nat, y: nat, z: nat, generic: bool): Decision
    requires Bounded(s)
  {
    match LeftAt(s, z)
    case Aborted => Decision(Abort, generic)
    case Located(u, failU) =>
      if u == z then Decision(Fail(ERROR_INVALID_TREE), generic || failU)
      else
        match RightAt(s, z)
        case Aborted => Decision(Abort, generic || failU)
        case Located(v, failV) =>
          var g := generic || failU || failV;
          if v == z then Decision(Fail(ERROR_INVALID_TREE), g)
          else DecideTriageCells(s, w, x, y, u, v, g)
  }

  /** `eval_step`, eval/eval.c lines 387-419: rules 3a, 3b and 3c by the emptiness of `u` and `v`. */
  ghost function DecideTriageCells(s: Store, w: nat, x: nat, y: nat, u: nat, v: nat, generic: bool): Decision
  {
    var uCell, vCell := TagAt(s, u), TagAt(s, v);
    if uCell == ERR_VAL || vCell == ERR_VAL then Decision(Fail(ERROR_INVALID_TREE), generic)
    else if uCell == SIGIL_NIL && vCell == SIGIL_NIL then Decision(PushEntries([w]), generic)
    else if uCell == SIGIL_NIL then Decision(Fail(ERROR_INVALID_TREE), generic)
    else if vCell == SIGIL_NIL then Decision(PushEntries([TOKEN_APPLY, x, u]), generic)
    else Decision(PushEntries([TOKEN_APPLY, TOKEN_APPLY, y, u, v]), generic)
  }

  // ---------------------------------------------------------------------
  // Unwinding the apply stack

  /** The stacks after the pop loop, whether it met the apply token, and whether a dereference failed. */
  datatype Unwound = Unwound(apply: seq<nat>, result: seq<nat>, sawApply: bool, generic: bool)

  /**
   * `eval_step`, eval/eval.c lines 274-282: pop entries off the apply stack (top last), pushing each
   * one, dereferenced, onto the result stack, until the apply token is
   * popped or the stack is empty.
   */
  function Unwind(s: Store, apply: seq<nat>, result: seq<nat>): (u: Unwound)
    requires Bounded(s)
    ensures |u.apply| <= |apply| && |result| <= |u.result|
    ensures !u.sawApply ==> u.apply == [] && |u.result| == |result| + |apply|
    ensures u.sawApply ==> |u.apply| < |apply| && apply[|u.apply|] == TOKEN_APPLY &&
                           u.apply == apply[..|u.apply|] && |u.result| == |result| + |apply| - |u.apply| - 1
    ensures u.result[..|result|] == result
    decreases |apply|
  {
    if apply == [] then Unwound([], result, false, false)
    else
      var rest, i := apply[..|apply| - 1], apply[|apply| - 1];
      if i == TOKEN_APPLY then Unwound(rest, result, true, false)
      else
        var d := Deref(s, i);
        var u := Unwind(s, rest, result + [d.index]);
        assert u.sawApply ==> apply[..|u.apply|] == rest[..|u.apply|];
        assert u.result[..|result|] == (u.result[..|result| + 1])[..|result|];
        u.(generic := u.generic || d.failed)
  }

  /** Without an apply token the whole stack moves to the result stack, top first. */
  lemma {:induction false} UnwindNoApply(s: Store, apply: seq<nat>, result: seq<nat>, k: nat)
    requires Bounded(s) && TOKEN_APPLY !in apply && k < |apply|
    ensures var u := Unwind(s, apply, result);
      !u.sawApply && u.result[|result| + k] == Deref(s, apply[|apply| - 1 - k]).index
    decreases |apply|
  {
    var rest, i := apply[..|apply| - 1], apply[|apply| - 1];
    assert i in apply;
    var result' := result + [Deref(s, i).index];
    if k == 0 {
      var u := Unwind(s, rest, result');
      assert u.result[..|result'|] == result';
      assert u.result[|result|] == u.result[..|result'|][|result|];
    } else {
      forall j | j in rest ensures j in apply {
        assert rest == apply[..|rest|];
      }
      UnwindNoApply(s, rest, result', k - 1);
      assert rest[|rest| - 1 - (k - 1)] == apply[|apply| - 1 - k];
    }
  }

  /**
   * An application `f x` pushed as APPLY, f, x on top of any stack is
   * unwound into `F = f` and `z = x`: the popped function is the one
   * pushed first and the argument the one pushed last.
   */
  lemma UnwindApplication(s: Store, rest: seq<nat>, result: seq<nat>, f: nat, x: nat)
    requires Bounded(s) && f != TOKEN_APPLY && x != TOKEN_APPLY
    ensures var u := Unwind(s, rest + [TOKEN_APPLY, f, x], result);
      u.sawApply && u.apply == rest &&
      u.result == result + [Deref(s, x).index, Deref(s, f).index]
  {
    var s1, s2, s3 := rest + [TOKEN_APPLY], rest + [TOKEN_APPLY, f], rest + [TOKEN_APPLY, f, x];
    assert s3[..|s3| - 1] == s2 && s2[..|s2| - 1] == s1 && s1[..|s1| - 1] == rest;
    var x', f' := Deref(s, x).index, Deref(s, f).index;
    assert Unwind(s, s1, result + [x', f']) == Unwound(rest, result + [x', f'], true, false);
    assert Unwind(s, s2, result + [x']).result == result + [x', f'];
    assert Unwind(s, s3, result).result == result + [x', f'];
  }

  // ---------------------------------------------------------------------
  // Navigation on laid-out terms

  /** The left node of a laid-out term is the next cell. */
  lemma {:induction false} LeftOfPlaced(s: Store, p: nat, t: Term)
    requires Bounded(s) && Placed(s.tags, p, t)
    ensures LeftAt(s, p) == Located(p + 1, false)
  {
    assert p + 1 in s.tags && s.tags[p + 1] != SIGIL_REF by {
      match t
      case Leaf =>
      case Stem(c) => assert Placed(s.tags, p + 1, c);
      case Fork(l, _) => assert Placed(s.tags, p + 1, l);
    }
  }

  /** A laid-out term starts with a tree cell. */
  lemma {:induction false} PlacedRoot(tags: map<nat, nat>, p: nat, t: Term)
    requires Placed(tags, p, t)
    ensures p in tags && tags[p] == SIGIL_TREE
  {
  }

  /** The cell after a term's left part: empty for a leaf or a stem, a tree cell for a fork. */
  lemma {:induction false} RightCellOfPlaced(s: Store, p: nat, t: Term)
    requires Bounded(s) && Placed(s.tags, p, t)
    ensures TagAt(s, p + 1 + LeftSize(t)) == if t.Fork? then SIGIL_TREE else SIGIL_NIL
  {
    match t
    case Leaf =>
    case Stem(c) =>
    case Fork(l, r) =>
      var q := p + 1 + Size(l);
      assert Placed(s.tags, q, r);
      PlacedRoot(s.tags, q, r);
  }

  /** The scan from the cell after a laid-out term's root stops right after its left part. */
  lemma {:induction false} ScanLeftPart(tags: map<nat, nat>, bound: nat, p: nat, t: Term)
    requires TagsBelow(tags, bound) && Placed(tags, p, t)
    ensures Scan(tags, bound, Bottom, p + 1) == Some(p + 1 + LeftSize(t))
  {
    match t
    case Leaf =>
      assert Scan(tags, bound, Bottom, p + 1) == Scan(tags, bound, Push(Bottom, SIGIL_NIL), p + 2);
    case Stem(c) =>
      ScanTerm(tags, bound, c, Bottom, p + 1);
    case Fork(l, _) =>
      ScanTerm(tags, bound, l, Bottom, p + 1);
  }

  /** The right node of a laid-out term is the cell after its left part. */
  lemma {:induction false} RightOfPlaced(s: Store, p: nat, t: Term)
    requires Bounded(s) && Placed(s.tags, p, t)
    ensures RightAt(s, p) == Located(p + 1 + LeftSize(t), false)
  {
    ScanLeftPart(s.tags, s.bound, p, t);
    RightCellOfPlaced(s, p, t);
  }

  /** Both nodes of a laid-out term at once. */
  lemma {:induction false} NodesOfPlaced(s: Store, p: nat, t: Term)
    requires Bounded(s) && Placed(s.tags, p, t)
    ensures LeftAt(s, p) == Located(p + 1, false)
    ensures RightAt(s, p) == Located(p + 1 + LeftSize(t), false)
    ensures TagAt(s, p) == SIGIL_TREE
    ensures TagAt(s, p + 1) == if t.Leaf? then SIGIL_NIL else SIGIL_TREE
    ensures TagAt(s, p + 1 + LeftSize(t)) == if t.Fork? then SIGIL_TREE else SIGIL_NIL
    ensures !IsNative(TagAt(s, p), TagAt(s, p + 1), TagAt(s, p + 2))
  {
    LeftOfPlaced(s, p, t);
    RightOfPlaced(s, p, t);
    RightCellOfPlaced(s, p, t);
    match t
    case Leaf =>
    case Stem(c) => assert Placed(s.tags, p + 1, c);
    case Fork(l, _) => assert Placed(s.tags, p + 1, l);
  }

  /** The nodes of an empty cell are the cell itself. */
  lemma NodesOfEmpty(s: Store, p: nat)
    requires Bounded(s) && CellIs(s.tags, p, SIGIL_NIL)
    ensures LeftAt(s, p) == Located(p, false) && RightAt(s, p) == Located(p, false)
  {
  }

  // ---------------------------------------------------------------------
  // The rules of tree calculus on laid-out terms

  /** A laid-out `F` passes the tree checks: its nodes are the cells after its root and after its left part. */
  lemma {:induction false} DecideOnPlaced(s: Store, F: nat, t: Term, z: nat, A: nat, y: nat)
    requires Bounded(s) && Placed(s.tags, F, t)
    requires A == F + 1 && y == F + 1 + LeftSize(t)
    ensures Decide(s, F, z) == DecideNodes(s, A, y, z, false)
    ensures TagAt(s, A) == if t.Leaf? then SIGIL_NIL else SIGIL_TREE
    ensures TagAt(s, y) == if t.Fork? then SIGIL_TREE else SIGIL_NIL
  {
    NodesOfPlaced(s, F, t);
  }

  /** A laid-out `A` passes the node checks and the test for rule 0a. */
  lemma {:induction false} NodesOfPlacedRule(s: Store, A: nat, a: Term, y: nat, z: nat, generic: bool, w: nat, x: nat)
    requires Bounded(s) && Placed(s.tags, A, a)
    requires w == A + 1 && x == A + 1 + LeftSize(a)
    ensures DecideNodes(s, A, y, z, generic) == DecideRule(s, A, y, w, x, z, generic)
    ensures TagAt(s, w) == if a.Leaf? then SIGIL_NIL else SIGIL_TREE
    ensures TagAt(s, x) == if a.Fork? then SIGIL_TREE else SIGIL_NIL
  {
    NodesOfPlaced(s, A, a);
  }

  /** Rule 2 fires on a non-empty `w` and an empty `x`. */
  lemma RuleShare(s: Store, A: nat, y: nat, w: nat, x: nat, z: nat, generic: bool)
    requires Bounded(s) && w != A && x != A
    requires TagAt(s, w) == SIGIL_TREE && TagAt(s, x) == SIGIL_NIL
    ensures DecideRule(s, A, y, w, x, z, generic) ==
      Decision(PushEntries([TOKEN_APPLY, TOKEN_APPLY, w, z, TOKEN_APPLY, y, z]), generic)
  {
  }

  /** With `w` and `x` both empty, rule 0b fires on an empty `y` and rule 1 on any other. */
  lemma RuleEmptyNodes(s: Store, A: nat, y: nat, w: nat, x: nat, z: nat, generic: bool)
    requires Bounded(s) && w != A && x != A
    requires TagAt(s, w) == SIGIL_NIL && TagAt(s, x) == SIGIL_NIL
    ensures DecideRule(s, A, y, w, x, z, generic) ==
      if TagAt(s, y) == SIGIL_NIL then Decision(Build0b(A), generic) else Decision(PushEntries([y]), generic)
  {
  }

  /** Rule 3 is reached on a non-empty `w` and a non-empty `x`. */
  lemma RuleTriage(s: Store, A: nat, y: nat, w: nat, x: nat, z: nat, generic: bool)
    requires Bounded(s) && w != A && x != A
    requires TagAt(s, w) == SIGIL_TREE && TagAt(s, x) == SIGIL_TREE
    ensures DecideRule(s, A, y, w, x, z, generic) == DecideTriage(s, w, x, y, z, generic)
  {
  }

  /** A laid-out argument `z` passes the checks of rule 3: its nodes are the cells after its root and after its left part. */
  lemma {:induction false} TriageOnPlaced(s: Store, w: nat, x: nat, y: nat, z: nat, t: Term, generic: bool, u: nat, v: nat)
    requires Bounded(s) && Placed(s.tags, z, t)
    requires u == z + 1 && v == z + 1 + LeftSize(t)
    ensures DecideTriage(s, w, x, y, z, generic) == DecideTriageCells(s, w, x, y, u, v, generic)
    ensures TagAt(s, u) == if t.Leaf? then SIGIL_NIL else SIGIL_TREE
    ensures TagAt(s, v) == if t.Fork? then SIGIL_TREE else SIGIL_NIL
  {
    NodesOfPlaced(s, z, t);
  }

  /** Rule 0a: a leaf applied to `z` builds the stem of `z`. */
  lemma DecideLeaf(s: Store, F: nat, z: nat)
    requires Bounded(s) && Placed(s.tags, F, Leaf)
    ensures Decide(s, F, z) == Decision(Build0a, false)
  {
    DecideOnPlaced(s, F, Leaf, z, F + 1, F + 2);
    NodesOfEmpty(s, F + 1);
  }

  /** Rule 0b: the stem of a leaf applied to `z` builds the fork of the leaf at `F + 1` and `z`. */
  lemma DecideStemLeaf(s: Store, F: nat, z: nat)
    requires Bounded(s) && Placed(s.tags, F, Stem(Leaf))
    ensures Decide(s, F, z) == Decision(Build0b(F + 1), false)
  {
    DecideOnPlaced(s, F, Stem(Leaf), z, F + 1, F + 4);
    NodesOfPlacedRule(s, F + 1, Leaf, F + 4, z, false, F + 2, F + 3);
    RuleEmptyNodes(s, F + 1, F + 4, F + 2, F + 3, z, false);
  }

  /** Rule 1: `^(^)y z` reduces to `y`, the right node of `F`. */
  lemma {:induction false} DecideKernel(s: Store, F: nat, y: Term, z: nat)
    requires Bounded(s) && Placed(s.tags, F, Fork(Leaf, y))
    ensures Decide(s, F, z) == Decision(PushEntries([F + 4]), false)
  {
    DecideOnPlaced(s, F, Fork(Leaf, y), z, F + 1, F + 4);
    NodesOfPlacedRule(s, F + 1, Leaf, F + 4, z, false, F + 2, F + 3);
    RuleEmptyNodes(s, F + 1, F + 4, F + 2, F + 3, z, false);
  }

  /** Rule 2: `^(^w)y z` reduces to `(w z)(y z)`, pushed in prefix order. */
  lemma {:induction false} DecideShare(s: Store, F: nat, w: Term, y: Term, z: nat)
    requires Bounded(s) && Placed(s.tags, F, Fork(Stem(w), y))
    ensures var yAt := F + 1 + Size(Stem(w));
      Decide(s, F, z) == Decision(PushEntries([TOKEN_APPLY, TOKEN_APPLY, F + 2, z, TOKEN_APPLY, yAt, z]), false)
  {
    var A, yAt, wAt, xAt := F + 1, F + 1 + Size(Stem(w)), F + 2, F + 2 + Size(w);
    DecideOnPlaced(s, F, Fork(Stem(w), y), z, A, yAt);
    NodesOfPlacedRule(s, A, Stem(w), yAt, z, false, wAt, xAt);
    RuleShare(s, A, yAt, wAt, xAt, z, false);
  }

  /** The first steps of rule 3, on `F = ^(^w x)y`: nodes `A = F + 1`, `w = F + 2`, `x`, `y`. */
  lemma {:induction false} DecideTriageStart(s: Store, F: nat, w: Term, x: Term, y: Term, z: nat)
    requires Bounded(s) && Placed(s.tags, F, Fork(Fork(w, x), y))
    ensures Decide(s, F, z) ==
      DecideTriage(s, F + 2, F + 2 + Size(w), F + 1 + Size(Fork(w, x)), z, false)
  {
    var A, yAt, wAt, xAt := F + 1, F + 1 + Size(Fork(w, x)), F + 2, F + 2 + Size(w);
    DecideOnPlaced(s, F, Fork(Fork(w, x), y), z, A, yAt);
    NodesOfPlacedRule(s, A, Fork(w, x), yAt, z, false, wAt, xAt);
    RuleTriage(s, A, yAt, wAt, xAt, z, false);
  }

  /** Rule 3a: `^(^w x)y` applied to a leaf reduces to `w`. */
  lemma {:induction false} DecideTriageLeaf(s: Store, F: nat, w: Term, x: Term, y: Term, z: nat)
    requires Bounded(s) && Placed(s.tags, F, Fork(Fork(w, x), y)) && Placed(s.tags, z, Leaf)
    ensures Decide(s, F, z) == Decision(PushEntries([F + 2]), false)
  {
    var wAt, xAt, yAt := F + 2, F + 2 + Size(w), F + 1 + Size(Fork(w, x));
    DecideTriageStart(s, F, w, x, y, z);
    TriageOnPlaced(s, wAt, xAt, yAt, z, Leaf, false, z + 1, z + 2);
  }

  /** Rule 3b: `^(^w x)y` applied to a stem `^u` reduces to `x u`. */
  lemma {:induction false} DecideTriageStem(s: Store, F: nat, w: Term, x: Term, y: Term, z: nat, u: Term)
    requires Bounded(s) && Placed(s.tags, F, Fork(Fork(w, x), y)) && Placed(s.tags, z, Stem(u))
    ensures Decide(s, F, z) == Decision(PushEntries([TOKEN_APPLY, F + 2 + Size(w), z + 1]), false)
  {
    var wAt, xAt, yAt := F + 2, F + 2 + Size(w), F + 1 + Size(Fork(w, x));
    DecideTriageStart(s, F, w, x, y, z);
    TriageOnPlaced(s, wAt, xAt, yAt, z, Stem(u), false, z + 1, z + 1 + Size(u));
  }

  /** Rule 3c: `^(^w x)y` applied to a fork `^u v` reduces to `(y u) v`. */
  lemma {:induction false} DecideTriageFork(s: Store, F: nat, w: Term, x: Term, y: Term, z: nat, u: Term, v: Term)
    requires Bounded(s) && Placed(s.tags, F, Fork(Fork(w, x), y)) && Placed(s.tags, z, Fork(u, v))
    ensures var yAt := F + 1 + Size(Fork(w, x));
      Decide(s, F, z) == Decision(PushEntries([TOKEN_APPLY, TOKEN_APPLY, yAt, z + 1, z + 1 + Size(u)]), false)
  {
    var wAt, xAt, yAt := F + 2, F + 2 + Size(w), F + 1 + Size(Fork(w, x));
    DecideTriageStart(s, F, w, x, y, z);
    TriageOnPlaced(s, wAt, xAt, yAt, z, Fork(u, v), false, z + 1, z + 1 + Size(u));
  }

  /**
   * The engine departs from tree calculus on a stem of a non-leaf: the
   * stem `^(^c)` applied to `z` should be the value `^(^c)z`, but its empty
   * right cell is taken for `y` and rule 2 fires with it.
   */
  lemma {:induction false} DecideStemOfStem(s: Store, F: nat, c: Term, z: nat)
    requires Bounded(s) && Placed(s.tags, F, Stem(Stem(c)))
    ensures var yAt := F + 1 + Size(Stem(c));
      TagAt(s, yAt) == SIGIL_NIL &&
      Decide(s, F, z) == Decision(PushEntries([TOKEN_APPLY, TOKEN_APPLY, F + 2, z, TOKEN_APPLY, yAt, z]), false)
  {
    var A, yAt, wAt, xAt := F + 1, F + 1 + Size(Stem(c)), F + 2, F + 2 + Size(c);
    DecideOnPlaced(s, F, Stem(Stem(c)), z, A, yAt);
    NodesOfPlacedRule(s, A, Stem(c), yAt, z, false, wAt, xAt);
    RuleShare(s, A, yAt, wAt, xAt, z, false);
  }

  // ---------------------------------------------------------------------
  // The cells written by rules 0a and 0b

  /** A reference cell at `q` followed by its two empty cells. */
  ghost function RefCells(tags: map<nat, nat>, q: nat): map<nat, nat>
  {
    tags[q := SIGIL_REF][q + 1 := SIGIL_NIL][q + 2 := SIGIL_NIL]
  }

  /** The five cells of rule 0a: a tree cell, a reference with its two empty cells, and an empty cell. */
  ghost function Tags0a(tags: map<nat, nat>, p: nat): map<nat, nat>
  {
    RefCells(tags[p := SIGIL_TREE], p + 1)[p + 4 := SIGIL_NIL]
  }

  /** The seven cells of rule 0b: a tree cell and two references, each with its two empty cells. */
  ghost function Tags0b(tags: map<nat, nat>, p: nat): map<nat, nat>
  {
    RefCells(RefCells(tags[p := SIGIL_TREE], p + 1), p + 4)
  }

  /** The node built by rule 0a is the stem of `z`: its left node leads to `z`, its right node is empty. */
  lemma Built0a(s: Store, p: nat, z: u64)
    requires Bounded(s) && s.tags == Tags0a(s.tags, p)
    requires p + 1 in s.words && s.words[p + 1] == OffsetTo(p + 1, z)
    ensures LeftAt(s, p) == Located(z, false)
    ensures RightAt(s, p) == Located(p + 4, false) && TagAt(s, p + 4) == SIGIL_NIL
  {
    DerefRoundTrip(s, p + 1, z);
    var tags, bound := s.tags, s.bound;
    var sR := Push(Bottom, SIGIL_REF);
    assert Scan(tags, bound, Bottom, p + 1) == Scan(tags, bound, sR, p + 2);
    assert Scan(tags, bound, sR, p + 2) == Scan(tags, bound, Push(sR, SIGIL_NIL), p + 3);
    assert Scan(tags, bound, Push(sR, SIGIL_NIL), p + 3) ==
           Scan(tags, bound, Push(Push(sR, SIGIL_NIL), SIGIL_NIL), p + 4);
  }

  /**
   * The node built by rule 0b: its right node leads to `z`, but the
   * payload meant for the left reference went to the right one, so a left
   * reference without a payload of its own stays put and stores
   * ERROR_GENERIC instead of leading to `A`.
   */
  lemma Built0b(s: Store, p: nat, z: u64)
    requires Bounded(s) && s.tags == Tags0b(s.tags, p)
    requires p + 4 in s.words && s.words[p + 4] == OffsetTo(p + 4, z)
    requires p + 1 !in s.words
    ensures LeftAt(s, p) == Located(p + 1, true)
    ensures RightAt(s, p) == Located(z, false)
  {
    DerefRoundTrip(s, p + 4, z);
    var tags, bound := s.tags, s.bound;
    var sR := Push(Bottom, SIGIL_REF);
    assert Scan(tags, bound, Bottom, p + 1) == Scan(tags, bound, sR, p + 2);
    assert Scan(tags, bound, sR, p + 2) == Scan(tags, bound, Push(sR, SIGIL_NIL), p + 3);
    assert Scan(tags, bound, Push(sR, SIGIL_NIL), p + 3) ==
           Scan(tags, bound, Push(Push(sR, SIGIL_NIL), SIGIL_NIL), p + 4);
    assert Scan(tags, bound, Push(Push(sR, SIGIL_NIL), SIGIL_NIL), p + 4) ==
           Scan(tags, bound, Push(Bottom, SIGIL_NIL), p + 4);
    assert Scan(tags, bound, Bottom, p + 1) == Some(p + 4);
  }

  /**
   * The reducing pair (REF, NIL) also fires on a tree cell followed by a
   * reference: in `^ ^ $ * * * *` (the stem of the stem of a reference,
   * the reference occupying cells 2 to 4) the left subtree of cell 0 ends
   * at cell 5, so its right node is cell 6, yet the scan stops at cell 4,
   * inside the reference.
   */
  lemma ScanStopsInsideReference(tags: map<nat, nat>, bound: nat)
    requires tags == map[0 := SIGIL_TREE, 1 := SIGIL_TREE, 2 := SIGIL_REF, 3 := SIGIL_NIL,
                         4 := SIGIL_NIL, 5 := SIGIL_NIL, 6 := SIGIL_NIL]
    requires TagsBelow(tags, bound)
    ensures IsRef(tags[2], tags[3], tags[4])
    ensures Scan(tags, bound, Bottom, 1) == Some(4)
  {
    var sT := Push(Bottom, SIGIL_TREE);
    assert Scan(tags, bound, Bottom, 1) == Scan(tags, bound, sT, 2);
    assert Scan(tags, bound, sT, 2) == Scan(tags, bound, Push(sT, SIGIL_REF), 3);
    assert Scan(tags, bound, Push(sT, SIGIL_REF), 3) ==
           Scan(tags, bound, Push(Push(sT, SIGIL_REF), SIGIL_NIL), 4);
    assert Scan(tags, bound, Push(Push(sT, SIGIL_REF), SIGIL_NIL), 4) ==
           Scan(tags, bound, Push(Bottom, SIGIL_NIL), 4);
  }
}
