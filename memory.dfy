/**
 * The packed term store (`allocator_t`). Every cell holds a 2-bit tag,
 * 32 cells to a 64-bit word of `cells`; a separate occupancy bitmap, one bit
 * per cell, tells a cell that was never written apart from one holding NIL.
 * A side table maps a cell index to a signed 64-bit payload: the payload
 * values live densely in `payloads` and `payloadIndex` maps an index to its
 * slot. Words are numbers below 2^64 and their bit fields are digits in base
 * 2 (bitmap) or base 4 (cells), see module Packing.
 */
module Memory {
  import opened Machine
  import opened Packing
  import opened Wrappers
  import TaggedValue

  /** The error return of the store's operations. */
  const ERR_VAL: int := -1

  const BITS_PER_CELL: nat := 2
  const BITS_PER_WORD: nat := 64
  const CELLS_PER_WORD: nat := 32

  /** Every word of the array is a 64-bit unsigned value. */
  ghost predicate WordsFit(words: seq<nat>)
  {
    forall k :: 0 <= k < |words| ==> words[k] < Pow(2, BITS_PER_WORD)
  }

  /** `CELLS_BITMAP_SIZE(cap)`: bitmap words covering `cap` words of cells. */
  function CellsBitmapSize(cap: nat): (k: nat)
    ensures BITS_PER_WORD * k >= cap * CELLS_PER_WORD
  {
    TaggedValue.BitmapSize(cap * CELLS_PER_WORD)
  }

  /** `index_valid`: the word holding the cell lies within the capacity. */
  function IndexValid(index: nat, cap: nat): bool
  {
    index / CELLS_PER_WORD < cap
  }

  /** `_bitmap_get_bit`. */
  function BitmapGetBit(bitmap: seq<nat>, index: nat): (b: nat)
    requires index / BITS_PER_WORD < |bitmap|
    ensures b < 2
  {
    Digit(bitmap[index / BITS_PER_WORD], 2, index % BITS_PER_WORD)
  }

  /** The bitmap after `_bitmap_set_bit(bitmap, index, value)`. */
  function BitmapWithBit(bitmap: seq<nat>, index: nat, value: bool): (r: seq<nat>)
    requires index / BITS_PER_WORD < |bitmap|
    ensures |r| == |bitmap|
  {
    var w := index / BITS_PER_WORD;
    bitmap[w := Update(bitmap[w], 2, index % BITS_PER_WORD, if value then 1 else 0)]
  }

  /** Setting a bit reads back as set and leaves every other bit as it was. */
  lemma BitmapSetGet(bitmap: seq<nat>, index: nat, value: bool, j: nat)
    requires index / BITS_PER_WORD < |bitmap| && j / BITS_PER_WORD < |bitmap|
    ensures BitmapGetBit(BitmapWithBit(bitmap, index, value), j)
         == if j == index then (if value then 1 else 0) else BitmapGetBit(bitmap, j)
  {
    var w := index / BITS_PER_WORD;
    if j / BITS_PER_WORD == w {
      DigitUpdate(bitmap[w], 2, index % BITS_PER_WORD, if value then 1 else 0, j % BITS_PER_WORD);
    }
  }

  /** Setting a bit keeps every word a 64-bit value. */
  lemma BitmapSetFits(bitmap: seq<nat>, index: nat, value: bool)
    requires index / BITS_PER_WORD < |bitmap| && WordsFit(bitmap)
    ensures WordsFit(BitmapWithBit(bitmap, index, value))
  {
    var w := index / BITS_PER_WORD;
    UpdateBound(bitmap[w], 2, index % BITS_PER_WORD, if value then 1 else 0, BITS_PER_WORD);
  }

  /** `_bitmap_set_bit`: or the bit in when `value` is non-zero, mask it out otherwise. */
  method BitmapSetBit(bitmap: array<nat>, index: nat, value: u8)
    requires index / BITS_PER_WORD < bitmap.Length
    modifies bitmap
    ensures bitmap[..] == BitmapWithBit(old(bitmap[..]), index, value != 0)
  {
    var wordIdx := index / BITS_PER_WORD;
    var bitIdx := index % BITS_PER_WORD;
    if value != 0 {
      bitmap[wordIdx] := Update(bitmap[wordIdx], 2, bitIdx, 1);
    } else {
      bitmap[wordIdx] := Update(bitmap[wordIdx], 2, bitIdx, 0);
    }
  }

  /** `get_cell_val`: the two bits of cell `index`. */
  function CellVal(cells: seq<nat>, index: nat): (v: nat)
    requires index / CELLS_PER_WORD < |cells|
    ensures v < 4
  {
    Digit(cells[index / CELLS_PER_WORD], 4, index % CELLS_PER_WORD)
  }

  /** The cells after `set_cell_val(index, value)`: only the low two bits of `value` are stored. */
  function CellsWithVal(cells: seq<nat>, index: nat, value: u8): (r: seq<nat>)
    requires index / CELLS_PER_WORD < |cells|
    ensures |r| == |cells|
  {
    var w := index / CELLS_PER_WORD;
    cells[w := Update(cells[w], 4, index % CELLS_PER_WORD, value % 4)]
  }

  /** Writing a cell reads back as `value & 3` and leaves every other cell as it was. */
  lemma CellSetGet(cells: seq<nat>, index: nat, value: u8, j: nat)
    requires index / CELLS_PER_WORD < |cells| && j / CELLS_PER_WORD < |cells|
    ensures CellVal(CellsWithVal(cells, index, value), j)
         == if j == index then value % 4 else CellVal(cells, j)
  {
    var w := index / CELLS_PER_WORD;
    if j / CELLS_PER_WORD == w {
      DigitUpdate(cells[w], 4, index % CELLS_PER_WORD, value % 4, j % CELLS_PER_WORD);
    }
  }

  /** Writing a cell keeps every word a 64-bit value. */
  lemma CellSetFits(cells: seq<nat>, index: nat, value: u8)
    requires index / CELLS_PER_WORD < |cells| && WordsFit(cells)
    ensures WordsFit(CellsWithVal(cells, index, value))
  {
    PowSquare(CELLS_PER_WORD);
    UpdateBound(cells[index / CELLS_PER_WORD], 4, index % CELLS_PER_WORD, value % 4, CELLS_PER_WORD);
  }

  /** No occupancy bit is set beyond the last valid index. */
  ghost predicate HighBitsClear(bitmap: seq<nat>, cap: nat)
  {
    forall i: nat :: cap * CELLS_PER_WORD <= i < |bitmap| * BITS_PER_WORD ==> BitmapGetBit(bitmap, i) == 0
  }

  /**
   * The word arrays agree with the capacity, every word is a 64-bit value,
   * and `tags` holds exactly the cells whose occupancy bit is set, with the
   * tag stored in the cells words.
   */
  ghost predicate CellStore(cells: seq<nat>, bitmap: seq<nat>, cap: nat, tags: map<nat, nat>)
  {
    cap > 0 && |cells| == cap && |bitmap| == CellsBitmapSize(cap) &&
    WordsFit(cells) && WordsFit(bitmap) && HighBitsClear(bitmap, cap) &&
    TagsMarked(tags, bitmap, cap) && TagsStored(tags, cells)
  }

  /** The written cells are exactly the valid indices whose occupancy bit is set. */
  ghost predicate TagsMarked(tags: map<nat, nat>, bitmap: seq<nat>, cap: nat)
    requires |bitmap| == CellsBitmapSize(cap)
  {
    (forall i :: i in tags ==> IndexValid(i, cap)) &&
    forall i: nat {:trigger BitmapGetBit(bitmap, i)} ::
      IndexValid(i, cap) ==> (i in tags <==> BitmapGetBit(bitmap, i) == 1)
  }

  /** Each written cell's tag is the one stored in its word. */
  ghost predicate TagsStored(tags: map<nat, nat>, cells: seq<nat>)
  {
    (forall i :: i in tags ==> i / CELLS_PER_WORD < |cells|) &&
    forall i: nat {:trigger CellVal(cells, i)} :: i in tags && i / CELLS_PER_WORD < |cells| ==> tags[i] == CellVal(cells, i)
  }

  /** A bitmap of zero words has no bit set. */
  lemma ZeroBits(bitmap: seq<nat>)
    requires forall k :: 0 <= k < |bitmap| ==> bitmap[k] == 0
    ensures forall i: nat :: i / BITS_PER_WORD < |bitmap| ==> BitmapGetBit(bitmap, i) == 0
  {
    forall i: nat | i / BITS_PER_WORD < |bitmap|
      ensures BitmapGetBit(bitmap, i) == 0
    {
      DigitZero(2, i % BITS_PER_WORD);
    }
  }

  /** Zeroed arrays hold no written cell. */
  lemma EmptyStore(cells: seq<nat>, bitmap: seq<nat>, cap: nat)
    requires cap > 0 && |cells| == cap && |bitmap| == CellsBitmapSize(cap)
    requires forall k :: 0 <= k < |cells| ==> cells[k] == 0
    requires forall k :: 0 <= k < |bitmap| ==> bitmap[k] == 0
    ensures CellStore(cells, bitmap, cap, map[])
  {
    ZeroBits(bitmap);
  }

  /** Writing a valid cell and setting its occupancy bit stores exactly that tag. */
  lemma StoreSet(cells: seq<nat>, bitmap: seq<nat>, cap: nat, tags: map<nat, nat>, index: nat, value: u8)
    requires CellStore(cells, bitmap, cap, tags) && IndexValid(index, cap)
    ensures CellStore(CellsWithVal(cells, index, value), BitmapWithBit(bitmap, index, true), cap, tags[index := value % 4])
  {
    var cells', bitmap' := CellsWithVal(cells, index, value), BitmapWithBit(bitmap, index, true);
    CellSetFits(cells, index, value);
    BitmapSetFits(bitmap, index, true);
    forall i: nat | i / BITS_PER_WORD < |bitmap|
      ensures BitmapGetBit(bitmap', i) == if i == index then 1 else BitmapGetBit(bitmap, i)
    {
      BitmapSetGet(bitmap, index, true, i);
    }
    forall i: nat | i / CELLS_PER_WORD < cap
      ensures CellVal(cells', i) == if i == index then value % 4 else CellVal(cells, i)
    {
      CellSetGet(cells, index, value, i);
    }
  }

  /** Appending zero words to a bitmap keeps its bits and adds clear ones. */
  lemma ExtendBits(bitmap: seq<nat>, bitmap': seq<nat>)
    requires |bitmap| <= |bitmap'|
    requires forall k :: 0 <= k < |bitmap'| ==> bitmap'[k] == if k < |bitmap| then bitmap[k] else 0
    ensures forall i: nat :: i / BITS_PER_WORD < |bitmap'| ==>
      BitmapGetBit(bitmap', i) == if i / BITS_PER_WORD < |bitmap| then BitmapGetBit(bitmap, i) else 0
  {
    forall i: nat | i / BITS_PER_WORD < |bitmap'|
      ensures BitmapGetBit(bitmap', i) == if i / BITS_PER_WORD < |bitmap| then BitmapGetBit(bitmap, i) else 0
    {
      if i / BITS_PER_WORD >= |bitmap| {
        DigitZero(2, i % BITS_PER_WORD);
      }
    }
  }

  /** Doubling the capacity with zeroed new words keeps every written cell. */
  lemma StoreGrow(cells: seq<nat>, bitmap: seq<nat>, cap: nat, tags: map<nat, nat>, cells': seq<nat>, bitmap': seq<nat>)
    requires CellStore(cells, bitmap, cap, tags)
    requires |cells'| == 2 * cap && |bitmap'| == CellsBitmapSize(2 * cap)
    requires forall k :: 0 <= k < |cells'| ==> cells'[k] == if k < cap then cells[k] else 0
    requires forall k :: 0 <= k < |bitmap'| ==> bitmap'[k] == if k < |bitmap| then bitmap[k] else 0
    ensures CellStore(cells', bitmap', 2 * cap, tags)
  {
    GrowMarks(tags, bitmap, cap, bitmap');
    GrowStored(tags, cells, cells');
  }

  /** Appending zeroed bitmap words for a doubled capacity keeps the marks. */
  lemma GrowMarks(tags: map<nat, nat>, bitmap: seq<nat>, cap: nat, bitmap': seq<nat>)
    requires |bitmap| == CellsBitmapSize(cap) && |bitmap'| == CellsBitmapSize(2 * cap)
    requires HighBitsClear(bitmap, cap) && TagsMarked(tags, bitmap, cap)
    requires forall k :: 0 <= k < |bitmap'| ==> bitmap'[k] == if k < |bitmap| then bitmap[k] else 0
    ensures HighBitsClear(bitmap', 2 * cap) && TagsMarked(tags, bitmap', 2 * cap)
  {
    ExtendBits(bitmap, bitmap');
  }

  /** Appending zeroed cell words keeps every stored tag. */
  lemma GrowStored(tags: map<nat, nat>, cells: seq<nat>, cells': seq<nat>)
    requires TagsStored(tags, cells) && |cells| <= |cells'|
    requires forall k :: 0 <= k < |cells'| ==> cells'[k] == if k < |cells| then cells[k] else 0
    ensures TagsStored(tags, cells')
  {
    assert forall i :: i in tags ==> CellVal(cells', i) == CellVal(cells, i);
  }

  /** Slots lie within the payload array and no two indices share one. */
  ghost predicate SlotsInjective(payloadIndex: map<nat, nat>, count: nat)
  {
    (forall i :: i in payloadIndex ==> payloadIndex[i] < count) &&
    (forall i, j :: i in payloadIndex && j in payloadIndex && i != j ==> payloadIndex[i] != payloadIndex[j])
  }

  /** The payload of every mapped index. */
  ghost function WordsOf(payloadIndex: map<nat, nat>, payloads: seq<i64>): map<nat, i64>
    requires SlotsInjective(payloadIndex, |payloads|)
  {
    map i | i in payloadIndex :: payloads[payloadIndex[i]]
  }

  /** Overwriting the slot of a mapped index changes that index's payload only. */
  lemma OverwriteSlot(payloadIndex: map<nat, nat>, payloads: seq<i64>, key: nat, value: i64)
    requires SlotsInjective(payloadIndex, |payloads|) && key in payloadIndex
    ensures SlotsInjective(payloadIndex, |payloads[payloadIndex[key] := value]|)
    ensures WordsOf(payloadIndex, payloads[payloadIndex[key] := value])
         == WordsOf(payloadIndex, payloads)[key := value]
  {
  }

  /** Appending a slot for an unmapped index adds that index's payload only. */
  lemma AppendSlot(payloadIndex: map<nat, nat>, payloads: seq<i64>, key: nat, value: i64)
    requires SlotsInjective(payloadIndex, |payloads|) && key !in payloadIndex
    ensures SlotsInjective(payloadIndex[key := |payloads|], |payloads + [value]|)
    ensures WordsOf(payloadIndex[key := |payloads|], payloads + [value])
         == WordsOf(payloadIndex, payloads)[key := value]
  {
  }

  /** The capacity `eval_cells_set` ends with: doubled until the word index fits. */
  function Grown(cap: nat, wordIndex: nat): (r: nat)
    requires cap > 0
    ensures wordIndex < r && cap <= r
    ensures r == cap || r / 2 <= wordIndex
    decreases if wordIndex < cap then 0 else wordIndex + 1 - cap
  {
    if wordIndex < cap then cap else Grown(cap * 2, wordIndex)
  }

  /** The grown capacity is the old one times a power of two. */
  lemma {:induction false} GrownIsDoubling(cap: nat, wordIndex: nat) returns (k: nat)
    requires cap > 0
    ensures Grown(cap, wordIndex) == cap * Pow(2, k)
    decreases if wordIndex < cap then 0 else wordIndex + 1 - cap
  {
    if wordIndex < cap {
      k := 0;
    } else {
      var k' := GrownIsDoubling(cap * 2, wordIndex);
      k := k' + 1;
    }
  }

  class Allocator {
    var cells: array<nat>
    var cellsBitmap: array<nat>
    var cellsCapacity: nat
    var payloadIndex: map<nat, nat>
    var payloads: seq<i64>

    /** The written cells and their tags. */
    ghost var Tags: map<nat, nat>
    ghost var Repr: set<object>

    ghost predicate Valid()
      reads this, Repr
      ensures Valid() ==> this in Repr
    {
      Repr == {this, cells, cellsBitmap} && cells != cellsBitmap &&
      CellStore(cells[..], cellsBitmap[..], cellsCapacity, Tags) &&
      SlotsInjective(payloadIndex, |payloads|) &&
      (forall i :: i in payloadIndex ==> i in Tags)
    }

    /** The payload attached to each index. */
    ghost function Words(): map<nat, i64>
      reads this
      requires SlotsInjective(payloadIndex, |payloads|)
    {
      WordsOf(payloadIndex, payloads)
    }

    /** `eval_cells_init`: `wordsCount` zeroed words of cells, nothing written, no payloads. */
    constructor Init(wordsCount: nat)
      requires wordsCount > 0
      ensures Valid() && fresh(Repr)
      ensures cellsCapacity == wordsCount
      ensures Tags == map[] && Words() == map[] && payloads == []
    {
      cells := new nat[wordsCount](_ => 0);
      cellsBitmap := new nat[CellsBitmapSize(wordsCount)](_ => 0);
      cellsCapacity := wordsCount;
      payloadIndex := map[];
      payloads := [];
      Tags := map[];
      Repr := {this, cells, cellsBitmap};
      new;
      EmptyStore(cells[..], cellsBitmap[..], cellsCapacity);
    }

    /** `eval_cells_get`: the tag of a written cell, ERR_VAL otherwise. */
    method Get(index: nat) returns (r: int)
      requires Valid()
      ensures r == if index in Tags then Tags[index] else ERR_VAL
    {
      if !IndexValid(index, cellsCapacity) || BitmapGetBit(cellsBitmap[..], index) == 0 {
        return ERR_VAL;
      }
      r := CellVal(cells[..], index);
    }

    /** `eval_cells_is_set`: whether the cell was written. */
    method IsSet(index: nat) returns (r: bool)
      requires Valid()
      ensures r <==> index in Tags
    {
      var v := Get(index);
      r := v != ERR_VAL;
    }

    /** `eval_cells_get_word`: the payload of a written cell, if it has one. */
    method GetWord(index: nat) returns (r: Option<i64>)
      requires Valid()
      ensures r == if index in Words() then Some(Words()[index]) else None
    {
      if !IndexValid(index, cellsCapacity) || BitmapGetBit(cellsBitmap[..], index) == 0 {
        return None;
      }
      if index !in payloadIndex {
        return None;
      }
      r := Some(payloads[payloadIndex[index]]);
    }

    /** `set_cell_val`: overwrite the two bits of one cell in place. */
    method SetCellVal(index: nat, value: u8)
      requires cells.Length == cellsCapacity && IndexValid(index, cellsCapacity)
      modifies cells
      ensures cells[..] == CellsWithVal(old(cells[..]), index, value)
    {
      var wordIndex := index / CELLS_PER_WORD;
      var shift := index % CELLS_PER_WORD;
      cells[wordIndex] := Update(cells[wordIndex], 4, shift, value % 4);
    }

    /**
     * `eval_cells_set`: when the index lies beyond the capacity, double the
     * capacity and retry; then write the tag and mark the cell as written.
     */
    method Set(index: nat, value: u8)
      requires Valid()
      modifies Repr
      ensures Valid() && fresh(Repr - old(Repr))
      ensures Tags == old(Tags)[index := value % 4]
      ensures payloadIndex == old(payloadIndex) && payloads == old(payloads)
      ensures cellsCapacity == Grown(old(cellsCapacity), index / CELLS_PER_WORD)
      decreases if IndexValid(index, cellsCapacity) then 0 else index / CELLS_PER_WORD + 1 - cellsCapacity
    {
      if !IndexValid(index, cellsCapacity) {
        ghost var grown := Grown(cellsCapacity, index / CELLS_PER_WORD);
        assert grown == Grown(2 * cellsCapacity, index / CELLS_PER_WORD);
        Grow();
        Set(index, value);
        assert cellsCapacity == grown;
        return;
      }
      SetValid(index, value);
    }

    /** The second half of `eval_cells_set`: write the tag and set the occupancy bit. */
    method SetValid(index: nat, value: u8)
      requires Valid() && IndexValid(index, cellsCapacity)
      modifies cells, cellsBitmap, this`Tags
      ensures Valid()
      ensures Tags == old(Tags)[index := value % 4]
    {
      StoreSet(cells[..], cellsBitmap[..], cellsCapacity, Tags, index, value);
      SetCellVal(index, value);
      BitmapSetBit(cellsBitmap, index, 1);
      Tags := Tags[index := value % 4];
    }

    /**
     * The doubling half of `eval_cells_set`: both word arrays are reallocated
     * at twice the capacity. The new words are zero, an assumption of the
     * model: `realloc` leaves them unspecified.
     */
    method Grow()
      requires Valid()
      modifies this`cells, this`cellsBitmap, this`cellsCapacity, this`Repr
      ensures Valid() && fresh(Repr - old(Repr))
      ensures cellsCapacity == 2 * old(cellsCapacity)
    {
      var oldCells, oldBitmap := cells, cellsBitmap;
      var capacity := cellsCapacity * 2;
      var bitmapSize := CellsBitmapSize(capacity);
      var newCells := new nat[capacity](k requires 0 <= k < capacity reads oldCells =>
        if k < oldCells.Length then oldCells[k] else 0);
      var newBitmap := new nat[bitmapSize](k requires 0 <= k < bitmapSize reads oldBitmap =>
        if k < oldBitmap.Length then oldBitmap[k] else 0);
      StoreGrow(oldCells[..], oldBitmap[..], cellsCapacity, Tags, newCells[..], newBitmap[..]);
      cells, cellsBitmap, cellsCapacity := newCells, newBitmap, capacity;
      Repr := {this, cells, cellsBitmap};
    }

    /**
     * `eval_cells_set_word`: ERR_VAL for a cell never written; otherwise
     * overwrite the index's slot, or append a new slot and map the index to it.
     */
    method SetWord(index: nat, value: i64) returns (status: int)
      requires Valid()
      modifies this`payloadIndex, this`payloads
      ensures Valid()
      ensures status == if index in Tags then 0 else ERR_VAL
      ensures Words() == if status == 0 then old(Words())[index := value] else old(Words())
      ensures status != 0 ==> payloadIndex == old(payloadIndex) && payloads == old(payloads)
      ensures status == 0 && index in old(payloadIndex) ==>
        payloadIndex == old(payloadIndex) && |payloads| == old(|payloads|)
      ensures status == 0 && index !in old(payloadIndex) ==>
        payloads == old(payloads) + [value] && payloadIndex == old(payloadIndex)[index := old(|payloads|)]
    {
      if !IndexValid(index, cellsCapacity) || BitmapGetBit(cellsBitmap[..], index) == 0 {
        return ERR_VAL;
      }
      if index in payloadIndex {
        OverwriteSlot(payloadIndex, payloads, index, value);
        var wordIdx := payloadIndex[index];
        payloads := payloads[wordIdx := value];
        return 0;
      }
      AppendSlot(payloadIndex, payloads, index, value);
      var wordIdx := |payloads|;
      payloads := payloads + [value];
      payloadIndex := payloadIndex[index := wordIdx];
      return 0;
    }

    /**
     * `eval_cells_reset`: zero every word of cells and of the bitmap, drop
     * every payload mapping and zero the payload values in place.
     */
    method Reset()
      requires Valid()
      modifies Repr
      ensures Valid() && Repr == old(Repr)
      ensures cellsCapacity == old(cellsCapacity)
      ensures Tags == map[] && Words() == map[] && payloadIndex == map[]
      ensures |payloads| == old(|payloads|) && forall k :: 0 <= k < |payloads| ==> payloads[k] == 0
    {
      forall k | 0 <= k < cells.Length {
        cells[k] := 0;
      }
      forall k | 0 <= k < cellsBitmap.Length {
        cellsBitmap[k] := 0;
      }
      payloadIndex := map[];
      payloads := seq(|payloads|, _ => 0);
      Tags := map[];
      EmptyStore(cells[..], cellsBitmap[..], cellsCapacity);
    }
  }
}
