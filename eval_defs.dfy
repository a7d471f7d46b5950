/**
 * The vocabulary of the evaluator: the cell sigils, the apply token, the
 * error codes and the shape tests on a cell and its two successors.
 */
module EvalDefs {
  import opened Machine

  const SIGIL_NIL: int := 0
  const SIGIL_TREE: int := 1
  const SIGIL_REF: int := 2

  /** `SIZE_MAX`: the apply-stack entry that marks an application. */
  const TOKEN_APPLY: nat := U64_MODULUS - 1

  const ERROR_PARSE: u8 := 1
  const ERROR_STACK_UNDERFLOW: u8 := 2
  const ERROR_APPLY_TO_VALUE: u8 := 3
  const ERROR_INVALID_TREE: u8 := 4
  const ERROR_INVALID_CAST: u8 := 5
  const ERROR_GENERIC: u8 := 127

  /** `_is_leaf`: a tree cell whose two children are empty. */
  predicate IsLeaf(root: int, left: int, right: int)
  {
    root == SIGIL_TREE && left == SIGIL_NIL && right == SIGIL_NIL
  }

  /** `_is_ref`: a reference cell followed by two empty cells. */
  predicate IsRef(root: int, left: int, right: int)
  {
    root == SIGIL_REF && left == SIGIL_NIL && right == SIGIL_NIL
  }

  /** `_is_native`: two reference cells followed by an empty cell. */
  predicate IsNative(root: int, left: int, right: int)
  {
    root == SIGIL_REF && left == SIGIL_REF && right == SIGIL_NIL
  }

  /** The three shapes never overlap; a reference and a native share only their first cell. */
  lemma ShapesDisjoint(root: int, left: int, right: int)
    ensures !(IsLeaf(root, left, right) && IsRef(root, left, right))
    ensures !(IsLeaf(root, left, right) && IsNative(root, left, right))
    ensures !(IsRef(root, left, right) && IsNative(root, left, right))
  {
  }
}
