# vetochka evaluator and front end in Dafny

This project models the core of vetochka, a tree-calculus evaluator. It has four parts:
- The C term store of `eval/memory.c` and `eval/memory.h`.
- The navigator and reduction engine of `eval/eval.c` and `eval/eval.h`.
- The string buffer of `eval/util.c`.
- The Python tokenizer and parser of the front end.

Each modelled operation is tied to a partner: a reference function it is proved to compute, an invariant it preserves, or lemmas about its results. Where the contract is weaker than the code, "## Left out" names it.

## What is modelled

**Words and packing.** These live in `machine.dfy`, `packing.dfy` and `tagged_value.dfy`.
- A `u64` is a `nat` below 2^64, and an `i64` is a two's-complement integer.
- A packed word is read as digits: bits in base 2, and 2-bit cells in base 4. `Digit(w, B, k)` is `(w >> k·log B) & (B-1)`, and `Update` writes one digit.
- The 4-bit tag / 60-bit payload helpers are functions. Lemmas give their round trips: `NewTag`, `NewUnsignedPayload`, `NewSignedPayload`, `SetTagKeepsPayload` and `SetPayloadKeepsTag`.

**The term store (`memory.dfy`).** The class `Allocator` keeps the word arrays `cells` and `cellsBitmap`, and the payload side table: `payloadIndex` as a map and `payloads` as a sequence.
- Its abstract state is the ghost map `Tags`, from each written cell to its tag, together with `Words()`, the payload of each mapped index.
- `Valid()` ties both to the packed arrays through `CellStore` and `SlotsInjective`.
- Every operation states its effect on that state and is proved through value-level lemmas. `StoreSet`, `StoreGrow`, `OverwriteSlot` and `AppendSlot` are the examples.

**Navigation (`navigation.dfy`).**
- `Deref`, `LeftAt` and `RightAt` model `dereference`, `_get_left_node` and `_get_right_node` as functions of a store value.
- `RightAt` is built on `Scan`, the shift-reduce loop of `_get_right_node` as a function of the match stack and the cursor.
- The methods `Dereference`, `LeftNode`, `ScanRight` and `IsTerminal` run on the allocator and are proved equal to those functions.
- `ScanTerm` proves that scanning a correctly laid-out term (`Placed`) finishes exactly one subtree, one cell past the term.

**The free-cell search (`vacancy.dfy`).** It specifies `next_n_vacant_cells` as the first fitting run of clear bits, in word-then-bit order, over the bitmap, widened first when nothing fits.

**The decision of `eval_step` (`rules.dfy`).**
- `Decide(store, F, z)` follows `eval_step` from the native test to rule 3c. It returns the action (push entries, call the native, build a node, fail with a code, or abort on a failed C `assert`) and whether a navigation stored ERROR_GENERIC on the way.
- `Unwind` is the pop loop.
- The lemmas `DecideLeaf` … `DecideTriageFork` prove that, on laid-out terms, each rule pushes exactly the reduct of the tree-calculus rule it implements.

**The evaluator (`eval.dfy`).** The class `EvalState` holds the fields of `eval_state_t`.
- `Step` is `eval_step`. It is proved to satisfy `Stepped`: unwind, check the stack, then `Reduced`, which pops `F`, then `z`, decides and acts.
- The free-cell search, the right-node scan and the writes of rules 0a and 0b are methods of their own, each proved against its specification.

**The string buffer (`string_buffer.dfy`).** The class `StringBuffer` has `buf` as an array of `char`, plus `len` and `cap`. The content is `buf[..len]`, always followed by a NUL.

**The tokenizer (`tokenizer.dfy`).**
- `Feed` is one iteration of the character loop as a function of the loop variables.
- `Prefix` folds it over a prefix, and `Tokenization` is the whole run.
- The method `Tokenize` runs the loop on a mutable `Word` and is proved to compute `Tokenization`.

**The parser (`parser.dfy`).** The class `Parser` holds the cursor and the two flags. Each method's contract gives its effect on them, case by case.
- A reference parse is written as functions of the token list and a `Cursor` (index, end flag, error flag): `ExpressionFrom`, `ListFrom`, `ListItems` (the loop of `parse_list_expression`) and `ParseOf`.
- The methods `ParseExpression`, `ParseListExpression`, `ParseSource` and `Parse` are proved to return exactly the node, cursor and hang flag of the reference parse.
- `ListOfElements` and `ParseList` prove what the reference parse gives on a list built from trees and commas: the expressions in order, with an empty expression for each bare comma.
- A hang is reported only on a token that no branch of the loop consumes (`Stuck`), and such a token always hangs (`StuckHangs`).

### Where the model follows the code rather than its apparent intent

- **Premature collapse in `_get_right_node`.** The reducing pair (REF, NIL) also fires when a tree cell is followed by a reference. On `^ ^ $ * * * *`, the scan from cell 1 therefore stops at cell 4, inside the reference, instead of at cell 6 (`Rules.ScanStopsInsideReference`). The model keeps the scan as written. The laid-out terms of the rule lemmas contain no references, so they are unaffected.
- **Rule 0b writes both payloads to the second reference.** The first reference of the new node has no payload. Its left navigation therefore stays put and stores ERROR_GENERIC (`Rules.Built0b`). The model reproduces this.
- **A stem of a non-leaf is not a value.** For `^(^c)` applied to `z`, the empty right cell is taken for `y`, and rule 2 fires (`Rules.DecideStemOfStem`).
- **Tokens carry locations.** `flush_word` gives every flushed word the location `(-1, -1, line, col)` of the previous flush. Tree and delimiter tokens carry their index.
  - Because token equality includes the location, the four tokenizer tests that compare token lists (`test_simplest`, `test_all_kinds_of_stuff`, `test_simplest_application`, `test_all_tokens`) compare unequal as written. The kinds and texts do match them: `Tokenizer.TwoSymbols` and `Tokenizer.LoneTree`.
  - `tokenize('{}')` fails the `assert` in string mode rather than giving an empty string token (`Tokenizer.EmptyString`).
  - The three unbalanced strings of `test_very_bad_string1`–`3` fail an `assert` (tokenizer.py:150, 139 and 119) instead of raising the expected RuntimeError (`Tokenizer.UnbalancedStrings`).
  - The RuntimeError for an unbalanced string can never be raised (`Tokenizer.NeverUnbalanced`).
- **The parser matches tokens including their locations.** It compares against tokens built with the default location. No token produced by the tokenizer equals one of those (`Parser.TokenizedTokensAreStuck`). So a fresh parser returns no tree for any non-empty tokenization, for example the tokenization of `^` (`Parser.ParseTokenizedTree`). Only hand-built default-located tokens parse (`Parser.ParseLoneTree`).
- **Reset loops.** `eval_cells_reset` and `eval_reset` delete from hash maps while iterating forward, which can leave entries behind. The model gives the intended effect instead: every mapping and every registered native is gone.
- **Zero-filled growth.** When `eval_cells_set` doubles the capacity, the grown words are modelled as zero. `realloc` leaves them unspecified.

## Model

| member | source | states |
|---|---|---|
| Machine.ToSigned | eval/memory.h:30-32 | the `(i64)` reinterpretation agrees with the `u64` modulo 2^64 |
| Machine.ToUnsigned | eval/memory.h:42-44 | the `(u64)` cast agrees with the signed value modulo 2^64, and casting back recovers it |
| Machine.WrapAdd | eval/eval.c:234 | `size_t` addition of a signed offset is the sum modulo 2^64 |
| Machine.OffsetRoundTrip | eval/eval.c:331 | the offset `z - ref` written by rule 0a, added back to `ref`, gives `z` |
| Packing.DigitUpdate | eval/memory.c:40-45 | writing digit `k` of a packed word reads back as written, and every other digit is unchanged |
| Packing.UpdateBound | eval/memory.c:43-44 | writing a digit below position `n` keeps the word below `base^n`, so a cell write keeps a 64-bit word |
| Packing.AllOnesDigit | eval/eval.c:122 | the mask `(1 << n) - 1` has each of its low `n` bits set |
| TaggedValue.GetTag | eval/memory.h:26-28 | the tag is below 16 and congruent to the word modulo 16 |
| TaggedValue.GetPayloadUnsigned | eval/memory.h:34-36 | the unsigned payload is below 2^60 |
| TaggedValue.GetPayloadSigned | eval/memory.h:30-32 | the tag bits cleared, the word read as an `i64`, then an arithmetic shift right by four (a division by 16 of the two's-complement value) |
| TaggedValue.SetTag | eval/memory.h:38-40 | the payload bits kept and the tag replaced by `newTag & 0xF` |
| TaggedValue.SetPayloadSigned | eval/memory.h:42-45 | the payload cast to `u64` and shifted into place, above the old four tag bits |
| TaggedValue.SetPayloadUnsigned | eval/memory.h:47-50 | the payload shifted into place modulo 2^64, above the old four tag bits |
| TaggedValue.NewSigned | eval/memory.h:52-54 | the payload cast to `u64` and shifted into place, with `tag & 0xF` below it |
| TaggedValue.NewUnsigned | eval/memory.h:56-58 | the payload shifted into place modulo 2^64, with `tag & 0xF` below it |
| TaggedValue.ShiftedPayload | eval/memory.h:44 | a payload shifted into place leaves the four tag bits clear |
| TaggedValue.BitmapSize | eval/memory.h:9 | `BITMAP_SIZE(cap)` is the least `k` with `64k >= cap` |
| TaggedValue.NewTag | eval/memory.h:52-58 | both constructors store `tag & 0xF` as the tag |
| TaggedValue.NewUnsignedPayload | eval/memory.h:56-58 | the unsigned payload reads back modulo 2^60 |
| TaggedValue.NewSignedPayload | eval/memory.h:52-54 | a signed payload in `[-2^59, 2^59)` reads back exactly through the arithmetic shift |
| TaggedValue.SetTagKeepsPayload | eval/memory.h:38-40 | setting the tag stores `newTag & 0xF` and keeps both payload readings |
| TaggedValue.SetPayloadKeepsTag | eval/memory.h:42-50 | setting a payload keeps the tag bits, and the payload reads back as for a fresh value |
| Memory.CellsBitmapSize | eval/memory.c:12 | the occupancy bitmap has one bit for every cell of the capacity |
| Memory.BitmapGetBit | eval/memory.c:18-22 | a bitmap read yields 0 or 1 |
| Memory.BitmapWithBit | eval/memory.c:24-32 | the bitmap with bit `index % 64` of word `index / 64` set when `value` holds and cleared otherwise; same length |
| Memory.BitmapSetGet | eval/memory.c:24-32 | after setting bit `i` to `v`, reading bit `i` gives `v`, and every other bit reads as before |
| Memory.BitmapSetFits | eval/memory.c:24-32 | setting a bit keeps every word a 64-bit value |
| Memory.BitmapSetBit | eval/memory.c:24-32 | the array after the in-place write is the bitmap with that one bit set or cleared |
| Memory.CellVal | eval/memory.c:34-38 | a cell read yields a value below 4 |
| Memory.CellsWithVal | eval/memory.c:40-45 | the cell words with the 2-bit cell `index % 32` of word `index / 32` replaced by `value & 3`; same length |
| Memory.IndexValid | eval/memory.c:47-49 | the word holding the cell, `index / 32`, lies below the capacity |
| Memory.CellSetGet | eval/memory.c:40-45 | after writing `v` at cell `i`, reading cell `i` gives `v & 3`, and every other cell reads as before |
| Memory.CellSetFits | eval/memory.c:40-45 | writing a cell keeps every word a 64-bit value |
| Memory.EmptyStore | eval/memory.c:51-71 | zeroed cell and bitmap arrays represent the store with no written cell |
| Memory.StoreSet | eval/memory.c:119-121 | writing a valid cell and setting its occupancy bit stores exactly that tag and leaves every other cell |
| Memory.StoreGrow | eval/memory.c:105-117 | doubling the capacity with zeroed new words keeps every written cell and its tag |
| Memory.OverwriteSlot | eval/memory.c:128-133 | overwriting the slot of a mapped index changes only that index's payload |
| Memory.AppendSlot | eval/memory.c:135-138 | appending a slot for an unmapped index adds only that index's payload |
| Memory.Grown | eval/memory.c:104-118 | the final capacity exceeds the word index and never shrinks; when it grew, half of it did not cover the index |
| Memory.GrownIsDoubling | eval/memory.c:104-118 | the final capacity is the old one times a power of two |
| Memory.Allocator.Init | eval/memory.c:51-71 | a new store has the given capacity, no written cell and no payload |
| Memory.Allocator.Get | eval/memory.c:84-89 | the last tag written at the index, or ERR_VAL for a cell never written, including one beyond the capacity |
| Memory.Allocator.IsSet | eval/memory.c:141-147 | true exactly when the cell was written |
| Memory.Allocator.GetWord | eval/memory.c:91-102 | the last payload set for the index, or none when it has no payload |
| Memory.Allocator.SetCellVal | eval/memory.c:40-45 | the cells array after the in-place write is the packed words with one cell replaced by `value & 3` |
| Memory.Allocator.Set | eval/memory.c:104-122 | the tag map gains `index ↦ value & 3` and is otherwise unchanged; payloads are unchanged; the capacity is the doubled capacity `Grown` |
| Memory.Allocator.SetValid | eval/memory.c:119-121 | a write within capacity stores the tag and keeps the store valid |
| Memory.Allocator.Grow | eval/memory.c:105-116 | the capacity doubles, and every written cell and payload is kept |
| Memory.Allocator.SetWord | eval/memory.c:124-139 | ERR_VAL with nothing changed for an unwritten cell; otherwise the index's payload becomes `value`, overwriting its slot or appending one slot |
| Memory.Allocator.Reset | eval/memory.c:149-170 | the capacity is kept, no cell is written, no index has a payload, and every payload value is zero |
| EvalDefs.IsLeaf | eval/eval.h:56-58 | a tree cell followed by two empty cells |
| EvalDefs.IsRef | eval/eval.h:60-62 | a reference cell followed by two empty cells |
| EvalDefs.IsNative | eval/eval.h:64-66 | two reference cells followed by an empty cell |
| EvalDefs.ShapesDisjoint | eval/eval.h:56-66 | no cell triple is two of leaf, reference and native |
| Navigation.TagsBounded | eval/memory.c:47-49 | every written cell lies within the capacity |
| Navigation.Deref | eval/eval.c:226-238 | a reference with a payload leads to its index plus the payload; a reference without one stays put and fails; any other cell stays put |
| Navigation.DerefRoundTrip | eval/eval.c:226-238 | a reference whose payload was written as `target - index` leads to `target` |
| Navigation.Dereference | eval/eval.c:226-238 | the dereference on the allocator equals `Deref` on its store |
| Navigation.LeftAt | eval/eval.c:148-174 | a non-tree cell is its own left node; below a tree cell, the result aborts exactly when the next cell was never written |
| Navigation.LeftNode | eval/eval.c:148-174 | the left-node method on the allocator equals `LeftAt` on its store |
| Navigation.AsStackStop | eval/eval.c:185 | the scan's stop test holds exactly on the one-entry match stack `[NIL]` |
| Navigation.ScanStops | eval/eval.c:185-187 | on the stack `[NIL]` the scan stops at the cursor |
| Navigation.ScanReduces | eval/eval.c:189-200 | a closing pair on top of three or more entries is replaced, with its root, by one NIL |
| Navigation.ScanAdvances | eval/eval.c:203-206 | otherwise the cell under the cursor is pushed and the cursor advances; an unwritten cell fails the `assert` |
| Navigation.Scan | eval/eval.c:183-207 | the scanning loop: stop with the cursor once the stack is the single empty cell; replace three entries whose top pair is (NIL, NIL), (REF, NIL) or (REF, REF) by one empty cell; otherwise push the written cell under the cursor and advance, or fail the `assert` on an unwritten one |
| Navigation.RightAt | eval/eval.c:176-224 | a cell that is not a tree is its own right node; otherwise scan from the next cell with an empty stack and dereference the cell where the scan stops, or abort with the scan |
| Navigation.ScanRight | eval/eval.c:183-207 | the scanning loop stops where `Scan` says, leaving the match stack `[NIL]` |
| Navigation.IsTerminal | eval/eval.c:240-254 | true exactly when the three cells are written and form a leaf, a reference or a native |
| Navigation.ScanCollapses | eval/eval.c:189-200 | an empty cell pushed on an open stack reduces to the stack with one more finished subtree |
| Navigation.ScanTerm | eval/eval.c:184-207 | scanning a laid-out term finishes one subtree on the stack, one cell past the term |
| Vacancy.RunClearDigits | eval/eval.c:124 | a run with `(word & mask) == 0` has every one of its bits clear |
| Vacancy.SetRunDigits | eval/eval.c:125 | `word \| mask` sets the run's bits and leaves every other bit |
| Vacancy.SetRunFits | eval/eval.c:125 | setting a run inside a word keeps it a 64-bit value |
| Vacancy.FullWordHasNoRun | eval/eval.c:121 | a word with all bits set holds no clear run, so skipping it loses nothing |
| Vacancy.FirstFitUnique | eval/eval.c:120-131 | the first fit in word-then-bit order is unique |
| Vacancy.WidenedFirstFit | eval/eval.c:132-137 | when no word has room, the doubled bitmap's first fit is bit 0 of the first new word |
| Vacancy.ReservationBits | eval/eval.c:118-131 | the reserved run's bits were clear and are now set, every other bit of the word and every other word is unchanged |
| Vacancy.RunClear | eval/eval.c:122-124 | `(word & mask) == 0` for the mask of `n` bits from `b`: each of those bits is clear |
| Vacancy.SetRun | eval/eval.c:125 | the word OR-ed with the mask: the `n` bits from `b` set, the others kept |
| Vacancy.FirstFit | eval/eval.c:120-131 | a clear run of `n` bits within one word, with no other such run earlier in word-then-bit order |
| Vacancy.Reserved | eval/eval.c:118-138 | the result starts the first fit of the bitmap, doubled with zero words while nothing fits, and exactly that run becomes set |
| Rules.ErrorAfter | eval/eval.h:20-30 | a failed assert stores its code; otherwise a failed navigation stores ERROR_GENERIC, else the code is kept |
| Rules.Decide | eval/eval.c:293-308 | the native test (call through the payload, or ERROR_GENERIC when it has none), then the tree test (ERROR_GENERIC), then `DecideTree` |
| Rules.DecideTree | eval/eval.c:310-315 | `A` as the left node with the `A != F` assert, then `y` as the right node with the `y != F` assert; an aborted navigation aborts |
| Rules.DecideNodes | eval/eval.c:316-335 | `w` and `x` as the nodes of `A`, then rule 0a when `A` and `y` are both empty |
| Rules.DecideRule | eval/eval.c:336-380 | the `w != A` and `x != A` asserts, then rule 0b, rule 1, the INVALID case of an empty `w` with a non-empty `x`, rule 2, and otherwise rule 3 |
| Rules.DecideTriage | eval/eval.c:381-386 | `u` and `v` as the nodes of `z`, with the `u != z` and `v != z` asserts |
| Rules.DecideTriageCells | eval/eval.c:387-419 | the asserts on unwritten `u` and `v`, then rule 3a, the INVALID case of an empty `u` with a non-empty `v`, rule 3b, and rule 3c, with the entries each pushes |
| Rules.Unwind | eval/eval.c:274-282 | the pop loop moves entries, top first, onto the result stack until the apply token, which is consumed, or until the stack is empty |
| Rules.UnwindNoApply | eval/eval.c:274-287 | without an apply token, the whole stack moves dereferenced onto the result stack, the top first |
| Rules.UnwindApplication | eval/eval.c:274-292 | an application pushed as APPLY, f, x is unwound so that `F` is `f` and `z` is `x` |
| Rules.LeftOfPlaced | eval/eval.c:148-174 | the left node of a laid-out term is the next cell |
| Rules.RightOfPlaced | eval/eval.c:176-224 | the right node of a laid-out term is the cell after its left part |
| Rules.ScanLeftPart | eval/eval.c:183-207 | the scan from the cell after a laid-out term's root stops right after its left part |
| Rules.NodesOfPlaced | eval/eval.c:148-224 | both nodes and the tags of a laid-out term, which is never taken for a native |
| Rules.NodesOfEmpty | eval/eval.c:148-181 | an empty cell is its own left node and its own right node |
| Rules.DecideOnPlaced | eval/eval.c:293-315 | a laid-out `F` passes the native, tree, `A != F` and `y != F` checks with `A = F + 1` |
| Rules.NodesOfPlacedRule | eval/eval.c:316-337 | a laid-out `A` passes the `w != A` and `x != A` checks, and rule 0a's test is decided by the tags |
| Rules.RuleShare | eval/eval.c:368-380 | a non-empty `w` with an empty `x` pushes exactly APPLY, APPLY, w, z, APPLY, y, z |
| Rules.RuleEmptyNodes | eval/eval.c:339-363 | empty `w` and `x` give rule 0b on an empty `y` and rule 1, pushing `y`, on any other |
| Rules.RuleTriage | eval/eval.c:381 | non-empty `w` and `x` lead to rule 3 |
| Rules.TriageOnPlaced | eval/eval.c:383-390 | a laid-out `z` passes the `u != z` and `v != z` checks with `u = z + 1` |
| Rules.DecideLeaf | eval/eval.c:322-335 | a leaf `F` builds a new node (rule 0a) without error |
| Rules.DecideStemLeaf | eval/eval.c:339-356 | the stem of a leaf builds the fork of the leaf and `z` (rule 0b) without error |
| Rules.DecideKernel | eval/eval.c:358-363 | `^(^)y z` pushes exactly `y` (rule 1) |
| Rules.DecideShare | eval/eval.c:368-380 | `^(^w)y z` pushes exactly APPLY, APPLY, w, z, APPLY, y, z (rule 2) |
| Rules.DecideTriageStart | eval/eval.c:381-386 | `^(^w x)y` reaches rule 3 with the nodes `w`, `x` and `y` at their cells |
| Rules.DecideTriageLeaf | eval/eval.c:391-396 | applied to a leaf, `^(^w x)y` pushes exactly `w` (rule 3a) |
| Rules.DecideTriageStem | eval/eval.c:401-408 | applied to `^u`, `^(^w x)y` pushes exactly APPLY, x, u (rule 3b) |
| Rules.DecideTriageFork | eval/eval.c:409-418 | applied to `^u v`, `^(^w x)y` pushes exactly APPLY, APPLY, y, u, v (rule 3c) |
| Rules.DecideStemOfStem | eval/eval.c:368-380 | a stem of a non-leaf has an empty right cell taken for `y`, and rule 2 fires with it |
| Rules.Built0a | eval/eval.c:322-335 | the node built by rule 0a is the stem of `z`: its left node leads to `z` and its right node is empty |
| Rules.Built0b | eval/eval.c:339-356 | the node built by rule 0b has its right node leading to `z`; its left reference has no payload, so it stays put and fails |
| Rules.ScanStopsInsideReference | eval/eval.c:189-200 | on `^ ^ $ * * * *` the scan from cell 1 stops at cell 4, inside the reference, not at cell 6 |
| Eval.EvalState.Init | eval/eval.c:38-55 | a store of capacity 4 with no written cell, a free bitmap of two clear words, empty stacks, no native and no error |
| Eval.EvalState.Widen | eval/eval.c:132-136 | the free bitmap doubles with a zero upper half and keeps its lower half |
| Eval.EvalState.Reserve | eval/eval.c:118-138 | the returned start is the first fit of `n` clear bits in the bitmap, widened first when nothing fits; those bits are now set and nothing else changes |
| Eval.EvalState.GetRightNode | eval/eval.c:176-224 | the result equals `RightAt`, and the match stack is left as `[NIL]` below a tree cell and empty otherwise |
| Eval.EvalState.PopArguments | eval/eval.c:274-282 | the stacks and the error code after the pop loop are those of `Unwind` |
| Eval.EvalState.Choose | eval/eval.c:293-308 | the decision equals `Decide`, and the error code is the one the asserts and navigations leave |
| Eval.EvalState.NavigateLeft | eval/eval.c:148-174 | the left node equals `LeftAt`; a failed dereference stores ERROR_GENERIC |
| Eval.EvalState.NavigateRight | eval/eval.c:176-224 | the right node equals `RightAt`; a failed dereference stores ERROR_GENERIC |
| Eval.EvalState.ChooseTree | eval/eval.c:310-315 | the decision equals `DecideTree` |
| Eval.EvalState.ChooseNodes | eval/eval.c:316-335 | the decision equals `DecideNodes` |
| Eval.EvalState.ChooseRule | eval/eval.c:336-380 | the decision equals `DecideRule` |
| Eval.EvalState.ChooseTriage | eval/eval.c:381-390 | the decision equals `DecideTriage` |
| Eval.EvalState.ChooseTriageCells | eval/eval.c:387-419 | the decision equals `DecideTriageCells` |
| Eval.EvalState.SetCell | eval/eval.c:326-330 | one tag changes, and the payloads and the rest of the state stay |
| Eval.EvalState.SetCellWord | eval/eval.c:331 | one payload changes, and the tags stay |
| Eval.EvalState.SetRefCells | eval/eval.c:327-330 | a reference cell and its two empty cells are written |
| Eval.EvalState.Write0a | eval/eval.c:324-331 | the cells T R N N N from `p`, and the payload at `p + 1` leading to `z` |
| Eval.EvalState.Write0b | eval/eval.c:341-352 | the cells T R N N R N N from `p`, and only the payload at `p + 4`, leading to `z` |
| Eval.EvalState.Perform | eval/eval.c:297-419 | the apply stack, the cells and the free bitmap change as the decision says |
| Eval.Acted | eval/eval.c:297-419 | the effect of an action: a native's result or the rule's entries are pushed; a failure changes nothing; rules 0a and 0b reserve 5 or 7 cells by first fit, write their layout and the payload leading to `z`, and push the new node |
| Eval.Stepped | eval/eval.c:268-292 | one step: unwind; without the apply token return the state check; with fewer than two results store ERROR_STACK_UNDERFLOW; otherwise `Reduced` |
| Eval.Reduced | eval/eval.c:289-423 | pop `F`, then `z`, decide; an aborted navigation crashes; otherwise the error code follows `ErrorAfter` and the state follows `Acted` |
| Eval.EvalState.Step | eval/eval.c:268-423 | one step satisfies `Stepped`: true with nothing to apply and no error; STACK_UNDERFLOW below two results; otherwise exactly one reduction or failure |
| Eval.EvalState.Reduce | eval/eval.c:289-423 | `F` is popped before `z`; the result stack loses both, the error code follows `ErrorAfter`, and the effect follows the decision; a failed C `assert` crashes |
| Eval.EvalState.ResetCells | eval/eval.c:70-74 | no cell is written, no payload is mapped, and every bit of the free bitmap is clear |
| Eval.EvalState.Reset | eval/eval.c:76-95 | empty stacks, a clear store and bitmap, no native and no error |
| Eval.EvalState.AddNative | eval/eval.c:97-100 | the registry maps `name` to `symbol` and is otherwise unchanged |
| Eval.EvalState.GetNative | eval/eval.c:102-109 | -1 for an unknown name; otherwise 0 and the registered symbol |
| StringBuffers.EnsuredCapIsLeast | eval/util.c:37-50 | the grown capacity suffices, is the old one times a power of two, and one doubling fewer would not suffice |
| StringBuffers.EnsuredCap | eval/util.c:37-50 | the capacity kept when it suffices, and doubled until it does otherwise |
| StringBuffers.EndsWith | eval/util.c:106-119 | the suffix is no longer than the content and equals its last characters, the test `len >= slen` and `memcmp` make |
| StringBuffers.CString | eval/util.c:61-63 | `strlen` stops at the first NUL: the result is a NUL-free prefix followed by a NUL or the end |
| StringBuffers.ChopAfterAppend | eval/util.c:106-119 | an appended suffix is recognised, and chopping it gives back the content before it |
| StringBuffers.StringBuffer.Init | eval/util.c:14-22 | an empty, NUL-terminated buffer of capacity 64 |
| StringBuffers.StringBuffer.Free | eval/util.c:25-29 | no array, and zero length and capacity |
| StringBuffers.StringBuffer.Clear | eval/util.c:31-34 | empty content, with the capacity and the array kept |
| StringBuffers.StringBuffer.Ensure | eval/util.c:37-50 | the content is kept, and the capacity becomes `EnsuredCap`, at least `len + needed + 1` |
| StringBuffers.StringBuffer.AppendData | eval/util.c:53-58 | the content becomes the old content followed by the data, NUL-terminated |
| StringBuffers.StringBuffer.AppendStr | eval/util.c:61-63 | the content grows by the string's characters before its NUL |
| StringBuffers.StringBuffer.AppendChar | eval/util.c:66-70 | the content grows by one character, NUL-terminated |
| StringBuffers.StringBuffer.Detach | eval/util.c:96-102 | the old array is returned, and the buffer is left with no array and zero length and capacity |
| StringBuffers.StringBuffer.TryChopSuffix | eval/util.c:106-119 | 1 exactly when the content ends with the suffix, which is then removed; 0 with nothing changed otherwise, a shorter content and a freed buffer with a non-empty suffix included |
| Tokenizer.Word.constructor | tokenizer.py:64-69 | an empty word with the given location fields |
| Tokenizer.Word.Add | tokenizer.py:71-72 | the word gains one letter at the end |
| Tokenizer.Word.Reset | tokenizer.py:74-75 | the word is empty |
| Tokenizer.Word.IsValid | tokenizer.py:80-81 | true exactly when the word is non-empty |
| Tokenizer.Flush | tokenizer.py:93-103 | an empty word changes nothing; a non-empty one becomes a token with the word's location, and the next word starts at the current position |
| Tokenizer.Feed | tokenizer.py:105-147 | one iteration of the character loop, branch by branch: outside a string `^`, delimiters, `{`, `}` (failed assert), newline, space and word characters; inside, `{`, `}` by brace depth with the failed `assert word.valid()`, newline and the rest |
| Tokenizer.Prefix | tokenizer.py:105-147 | the loop state after the first `n` characters, or the failed assert once one failed |
| Tokenizer.Finish | tokenizer.py:149-156 | after the loop: a word left open in a string fails the assert; the rest is flushed as a symbol; an open brace depth is the RuntimeError |
| Tokenizer.Tokenization | tokenizer.py:84-156 | the whole run: `Finish` of the state after every character, or the failed assert |
| Tokenizer.FlushWord | tokenizer.py:93-103 | the closure on the mutable word does what `Flush` says |
| Tokenizer.Tokenize | tokenizer.py:84-156 | the loop computes `Tokenization`, the fold of one iteration over every character followed by the final flush |
| Tokenizer.FeedGood | tokenizer.py:105-147 | one character keeps the string mode and the brace depth consistent, and the tokens well formed |
| Tokenizer.PrefixGood | tokenizer.py:105-147 | every state the loop reaches is consistent |
| Tokenizer.NeverUnbalanced | tokenizer.py:149-155 | the RuntimeError is never raised, because an open nested brace fails the `assert` first |
| Tokenizer.TokensWellFormed | tokenizer.py:93-156 | every token is non-empty and located; symbols hold no space, delimiter, `^` or brace; tree and delimiter tokens span one character |
| Tokenizer.CloseOutsideString | tokenizer.py:118-119 | a `}` outside a string fails the `assert` |
| Tokenizer.LoneTree | tokenizer.py:108-110 | `^` gives one tree token at index 0, line 1, column 1 |
| Tokenizer.TwoSymbols | tokenizer.py:105-151 | `a b` gives the symbols `a` and `b`, at columns 1 and 2 with no index |
| Tokenizer.EmptyString | tokenizer.py:129-140 | `{}` fails the `assert` instead of giving an empty string |
| Tokenizer.UnbalancedStrings | tokenizer.py:114-155 | `{{}`, `{}}` and `{ }}` each fail an `assert` rather than raising the RuntimeError |
| Parser.Parser.constructor | parser.py:37-41 | a parser starts at token 0 with both flags clear |
| Parser.Parser.Next | parser.py:46-51 | the cursor advances by one, and the end flag is raised once it passes the last token |
| Parser.Parser.MatchToken | parser.py:53-61 | false at the end; otherwise whole-token equality, or kind equality without contents |
| Parser.Parser.Expect | parser.py:63-76 | nothing at the end; a match advances exactly once; a mismatch sets both flags without advancing |
| Parser.Parser.ParseTree | parser.py:107-110 | a leaf holding the current token, which is consumed when it is `Tree()` |
| Parser.Parser.SkipComma | parser.py:101-102 | a `,` under the cursor is consumed by `expect`, anything else leaves the cursor; the error flag is kept |
| Parser.Parser.ParseExpression | parser.py:83-90 | `Tree()` gives a tree leaf and one step; `[` gives a list and progress; anything else gives an empty expression and consumes nothing; node, cursor and hang flag are those of `ExpressionFrom` |
| Parser.Parser.ParseListExpression | parser.py:92-105 | node, cursor and hang flag are those of `ListFrom`: a list of expressions that ends on a consumed `]` or at the end, or a hang on a stuck token, the point where the loop repeats forever |
| Parser.Parser.ParseSource | parser.py:78-81 | a source node with exactly one expression child, which with the cursor and hang flag is what `ExpressionFrom` gives; a hang stops on a stuck token |
| Parser.Parser.Parse | parser.py:112-122 | the outcome is `ParseOf` of the tokens and the old cursor; none for no tokens; for tokens, a tree exactly when the end was reached; a hang only on a stuck token; a reused parser's outcomes as documented |
| Parser.ParseOf | parser.py:112-122 | no tokens give none; a cursor past a new token list gives IndexError; otherwise `ExpressionFrom` from the cursor, a hang giving Hangs, a stop before the end giving none, and the end giving the source holding the expression |
| Parser.ExpressionFrom | parser.py:83-90 | the reference expression parse: an expression node with at most one child, the cursor never moves back, and a hang stops on a stuck token |
| Parser.ListFrom | parser.py:92-105 | the reference list parse: a list of expression nodes; progress from a live cursor; without a hang and before the end, the last token consumed is `]` |
| Parser.ListItems | parser.py:95-103 | the reference loop: the items gathered so far stay expressions, a hang stops on a stuck token, and a normal exit before the end has consumed `]` |
| Parser.ListTurn | parser.py:95-102 | one turn of the loop: an expression, then an optional comma, then either the hang check or the next turn |
| Parser.StuckHangs | parser.py:95-102 | a stuck token hangs the loop after one empty expression |
| Parser.ElementStep | parser.py:100-102 | a tree, a tree and a comma, or a bare comma adds exactly its expression and moves past its tokens |
| Parser.ListClose | parser.py:96-104 | a `]` under the cursor ends the loop and is consumed |
| Parser.ListOfElements | parser.py:92-105 | a run of trees and commas closed by `]` gives one expression per element, in order, and stops just past the `]` |
| Parser.ParseList | parser.py:83-122 | `[`, trees and commas, `]` parses to a source holding that list |
| Parser.ParseTreeAndComma | parser.py:92-105 | `[ Tree() , , ]` parses to a list of a tree expression and an empty expression |
| Parser.ParseStuckList | parser.py:95-102 | `[` followed by a symbol hangs |
| Parser.TokenizedTokensAreStuck | parser.py:85-87 | no token from the tokenizer starts an expression, closes a list or separates, because all of them carry a location |
| Parser.ParseEmpty | parser.py:112-114 | `parse([])` is none |
| Parser.ParseLoneTree | parser.py:78-122 | the lone default-located `Tree()` parses to `Source[Expression[TreeNode]]` |
| Parser.ParseTokenizedTree | parser.py:83-90 | the tokenization of `^` parses to none |

## Left out

- `eval/encode.c` (JSON checkpoints), `eval/native.c`, `eval/node.c`, `eval/common.h` and the Python wrappers, REPL and build scripts are not part of this model.
- The error string buffer (`_errbuf_clear`, `_errbuf_write`) and the parser's logging are left out. Only `error_code` and the return values are modelled.
- `eval_free`, `eval_cells_free`, `_bitmap_init` and every allocation-failure path are left out. The model has no manual memory management.
- `_sb_printf` is left out: `vsnprintf` formatting is outside the model. `_sb_str_view` only returns the array pointer and has no member.
- Eval.EvalState.Step: a native is a function parameter from its payload and `z` to the entry pushed. The model does not capture a native that reads or changes the evaluator state through its pointer.
- Eval.EvalState.Reserve: requires `0 < n < 64`. The C code asserts `n != 0`, and a shift by 64 or more is undefined.
- Memory.Allocator.Grow: the grown words are assumed zero, while `realloc` leaves them unspecified.
- Memory.Allocator.Reset: gives the intended "every mapping removed". The delete-while-iterating loop over the hash map can leave entries behind, and that is not modelled.
- Eval.EvalState.Reset: gives the intended "every native removed", for the same reason.
- StringBuffers.StringBuffer.Ensure: capacities are unbounded. A `size_t` overflow while doubling is not modelled.
- StringBuffers.StringBuffer.Ensure: requires a live buffer. On a freed or detached buffer (capacity 0) the doubling loop of `sb_ensure` never terminates (eval/util.c:38-42), and the model does not capture that non-termination.
- StringBuffers.StringBuffer.AppendData: requires a live buffer, because it calls `sb_ensure`, which never terminates at capacity 0.
- StringBuffers.StringBuffer.AppendStr: requires a live buffer, for the same non-termination of `sb_ensure` at capacity 0.
- StringBuffers.StringBuffer.AppendChar: requires a live buffer, for the same non-termination of `sb_ensure` at capacity 0.
- StringBuffers.StringBuffer.TryChopSuffix: a freed buffer with an empty suffix is excluded. The C code then matches zero bytes and writes the NUL through the null pointer.
- StringBuffers.StringBuffer.Clear: requires a live buffer. The C code dereferences a freed buffer's null pointer.
- Parser.Parser.ParseListExpression: where the source loops forever, the model returns and reports the hang, after the first iteration that changes neither the cursor nor the end flag.
- Parser.Parser.Parse: a reused parser whose cursor lies past the new token list gives `IndexError`, decided before parsing. The source raises it inside the first `match_token`.
- Tokenizer.Tokenize: the input is a string of characters. `Word.compose` is the word's character sequence itself.
