/**
 * The growable string buffer of `util.c`: a character array `buf` of
 * `cap` bytes whose first `len` bytes are the content, always followed by
 * a NUL. Growth doubles the capacity; a freed or detached buffer has no
 * array and zero length and capacity.
 */
module StringBuffers {
  import opened Packing

  const NUL: char := '\0'

  /** The capacity `sb_ensure` grows to: `cap` doubled until it reaches `need`. */
  ghost function EnsuredCap(cap: nat, need: nat): nat
    requires cap > 0
    decreases if cap < need then need - cap else 0
  {
    if cap >= need then cap else EnsuredCap(cap * 2, need)
  }

  /** How many doublings `sb_ensure` performs. */
  ghost function Doublings(cap: nat, need: nat): nat
    requires cap > 0
    decreases if cap < need then need - cap else 0
  {
    if cap >= need then 0 else Doublings(cap * 2, need) + 1
  }

  /**
   * The grown capacity suffices, is the old one times a power of two, and
   * is the least such: one doubling fewer would not suffice.
   */
  lemma {:induction false} EnsuredCapIsLeast(cap: nat, need: nat)
    requires cap > 0
    ensures var r, k := EnsuredCap(cap, need), Doublings(cap, need);
      r >= need && r >= cap && r == cap * Pow(2, k) &&
      (k > 0 ==> cap * Pow(2, k - 1) < need)
    decreases if cap < need then need - cap else 0
  {
    if cap < need {
      EnsuredCapIsLeast(cap * 2, need);
      var k := Doublings(cap * 2, need);
      PowShift(cap, k);
      if k > 0 {
        PowShift(cap, k - 1);
      }
    }
  }

  /** Doubling first and then `k` times is doubling `k + 1` times. */
  lemma PowShift(cap: nat, k: nat)
    ensures (cap * 2) * Pow(2, k) == cap * Pow(2, k + 1)
  {
    assert Pow(2, k + 1) == 2 * Pow(2, k);
  }

  /** `strlen`: the characters before the first NUL. */
  function CString(s: seq<char>): (r: seq<char>)
    ensures |r| <= |s| && r == s[..|r|] && NUL !in r
    ensures |r| < |s| ==> s[|r|] == NUL
  {
    if s == [] || s[0] == NUL then [] else [s[0]] + CString(s[1..])
  }

  /** The suffix test of `_sb_try_chop_suffix`: whether `s` ends with `suffix`. */
  predicate EndsWith(s: seq<char>, suffix: seq<char>)
  {
    |suffix| <= |s| && s[|s| - |suffix|..] == suffix
  }

  /** Chopping a suffix that was just appended gives back the content before it. */
  lemma ChopAfterAppend(s: seq<char>, t: seq<char>)
    ensures EndsWith(s + t, t)
    ensures (s + t)[..|s + t| - |t|] == s
  {
    assert (s + t)[|s|..] == t;
  }

  class StringBuffer {
    var buf: array?<char>
    var len: nat
    var cap: nat

    /** A live buffer holds its NUL-terminated content; a freed one holds nothing. */
    ghost predicate Valid()
      reads this, buf
    {
      if buf == null then len == 0 && cap == 0
      else buf.Length == cap && len < cap && buf[len] == NUL
    }

    ghost predicate Live()
      reads this, buf
    {
      Valid() && buf != null
    }

    /** The characters before the terminating NUL; none for a freed buffer. */
    ghost function Content(): seq<char>
      reads this, buf
      requires Valid()
    {
      if buf == null then [] else buf[..len]
    }

    /** `_sb_init`: an empty buffer with capacity 64. */
    constructor Init()
      ensures Live() && Content() == [] && cap == 64 && buf[0] == NUL && fresh(buf)
    {
      len := 0;
      cap := 64;
      buf := new char[64](_ => NUL);
    }

    /** `_sb_free`: release the array and zero the length and capacity. */
    method Free()
      modifies this
      ensures Valid() && buf == null && len == 0 && cap == 0
    {
      buf := null;
      len, cap := 0, 0;
    }

    /** `_sb_clear`: empty the content, keep the capacity. */
    method Clear()
      requires Live()
      modifies this, buf
      ensures Live() && Content() == [] && cap == old(cap) && buf == old(buf)
    {
      buf[0] := NUL;
      len := 0;
    }

    /**
     * `sb_ensure`: make room for `needed` more bytes and the NUL, doubling
     * the capacity as often as that takes; the content is kept.
     */
    method Ensure(needed: nat)
      requires Live()
      modifies this
      ensures Live() && len == old(len) && Content() == old(Content())
      ensures cap == EnsuredCap(old(cap), old(len) + needed + 1) && cap >= len + needed + 1
      ensures buf == old(buf) || fresh(buf)
    {
      EnsuredCapIsLeast(cap, len + needed + 1);
      if len + needed + 1 > cap {
        var need := len + needed + 1;
        var newcap := cap;
        while newcap < need
          invariant cap <= newcap && EnsuredCap(newcap, need) == EnsuredCap(cap, need)
          decreases need - newcap
        {
          newcap := newcap * 2;
        }
        var oldBuf := buf;
        var newBuf := new char[newcap](i requires 0 <= i < newcap reads oldBuf =>
          if i < oldBuf.Length then oldBuf[i] else NUL);
        assert newBuf[..len] == oldBuf[..len];
        buf, cap := newBuf, newcap;
      }
    }

    /** `_sb_append_data`: copy the bytes after the content and re-terminate. */
    method AppendData(data: seq<char>)
      requires Live()
      modifies this, buf
      ensures Live() && Content() == old(Content()) + data
      ensures cap == EnsuredCap(old(cap), old(len) + |data| + 1)
      ensures buf == old(buf) || fresh(buf)
    {
      Ensure(|data|);
      forall i | 0 <= i < |data| {
        buf[len + i] := data[i];
      }
      len := len + |data|;
      buf[len] := NUL;
    }

    /** `_sb_append_str`: append the characters of `str` before its NUL. */
    method AppendStr(str: seq<char>)
      requires Live()
      modifies this, buf
      ensures Live() && Content() == old(Content()) + CString(str)
      ensures buf == old(buf) || fresh(buf)
    {
      AppendData(CString(str));
    }

    /** `_sb_append_char`. */
    method AppendChar(c: char)
      requires Live()
      modifies this, buf
      ensures Live() && Content() == old(Content()) + [c]
      ensures cap == EnsuredCap(old(cap), old(len) + 2)
      ensures buf == old(buf) || fresh(buf)
    {
      Ensure(1);
      buf[len] := c;
      len := len + 1;
      buf[len] := NUL;
    }

    /** `_sb_detach`: hand the array over and leave the buffer empty. */
    method Detach() returns (ret: array?<char>)
      modifies this
      ensures ret == old(buf) && Valid() && buf == null && len == 0 && cap == 0
    {
      ret := buf;
      buf := null;
      len, cap := 0, 0;
    }

    /**
     * `_sb_try_chop_suffix`: 1 and the content without the suffix when the
     * content ends with the characters of `suffix` before its NUL, and 0
     * with nothing changed otherwise, a content shorter than the suffix
     * included. A freed buffer is shorter than any non-empty suffix; an
     * empty one would be matched and written through the null array.
     */
    method TryChopSuffix(suffix: seq<char>) returns (r: int)
      requires Valid() && (buf == null ==> CString(suffix) != [])
      modifies this, buf
      ensures Valid() && buf == old(buf) && cap == old(cap)
      ensures var s, t := old(Content()), CString(suffix);
        (r == 1 <==> EndsWith(s, t)) && (r == 0 <==> !EndsWith(s, t)) &&
        Content() == if r == 1 then s[..|s| - |t|] else s
    {
      var t := CString(suffix);
      var slen := |t|;
      if len < slen {
        return 0;
      }
      if buf[len - slen..len] == t {
        len := len - slen;
        buf[len] := NUL;
        return 1;
      }
      return 0;
    }
  }
}
