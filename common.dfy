/** Small value types and sequence helpers shared by every other module. */
module Common {

  /** A value that may be absent: Java's `null`. */
  datatype Option<+T> = None | Some(value: T)

  /** `String.startsWith`. */
  predicate StartsWith<T(==)>(s: seq<T>, prefix: seq<T>) {
    |prefix| <= |s| && s[..|prefix|] == prefix
  }

  /** `String.contains`: `part` occurs as a contiguous slice of `s`. Also used for
      "these lines occur, in this order and adjacent, in that output". */
  predicate Contains<T(==)>(s: seq<T>, part: seq<T>) {
    exists k | 0 <= k <= |s| - |part| :: OccursAt(s, part, k)
  }

  /** `part` occurs in `s` starting at index `k`. */
  predicate OccursAt<T(==)>(s: seq<T>, part: seq<T>, k: int) {
    0 <= k <= |s| - |part| && s[k..k + |part|] == part
  }

  lemma ContainsAt<T>(s: seq<T>, part: seq<T>, k: int)
    requires OccursAt(s, part, k)
    ensures Contains(s, part)
  {
  }

  /** A prefix extended on the right still starts with the same prefix. */
  lemma StartsWithExtend<T>(s: seq<T>, prefix: seq<T>, more: seq<T>)
    requires StartsWith(s, prefix)
    ensures StartsWith(s + more, prefix)
  {
    assert (s + more)[..|prefix|] == s[..|prefix|];
  }

  /** Containment is transitive: a slice of a slice is a slice. */
  lemma ContainsTransitive<T>(outer: seq<T>, middle: seq<T>, inner: seq<T>)
    requires Contains(outer, middle) && Contains(middle, inner)
    ensures Contains(outer, inner)
  {
    var k :| OccursAt(outer, middle, k);
    assert OccursAt(outer, middle, k);
    var j :| OccursAt(middle, inner, j);
    assert OccursAt(middle, inner, j);
    forall i | 0 <= i < |inner|
      ensures outer[k + j + i] == inner[i]
    {
      assert outer[k + j + i] == middle[j + i];
    }
    assert outer[k + j..k + j + |inner|] == inner;
    ContainsAt(outer, inner, k + j);
  }

  /** Whatever `s` contains, `a + s + b` contains too. */
  lemma ContainsFrame<T>(a: seq<T>, s: seq<T>, b: seq<T>, part: seq<T>)
    requires Contains(s, part)
    ensures Contains(a + s + b, part)
  {
    var k :| OccursAt(s, part, k);
    assert OccursAt(s, part, k);
    assert (a + s + b)[|a| + k..|a| + k + |part|] == s[k..k + |part|];
    ContainsAt(a + s + b, part, |a| + k);
  }

  /** A sequence holding `c` once cannot contain a part that holds `c` twice. */
  lemma LoneElementRulesOut<T>(a: seq<T>, c: T, b: seq<T>, part: seq<T>, i: int, j: int)
    requires c !in a && c !in b
    requires 0 <= i < j < |part| && part[i] == c && part[j] == c
    ensures !Contains(a + [c] + b, part)
  {
  }

  /** Flattening a list of blocks into one list, block after block. */
  function Concat<T>(blocks: seq<seq<T>>): seq<T> {
    if blocks == [] then [] else Concat(blocks[..|blocks| - 1]) + blocks[|blocks| - 1]
  }

  /** Flattening one more block appends it. */
  lemma ConcatSnoc<T>(blocks: seq<seq<T>>, b: seq<T>)
    ensures Concat(blocks + [b]) == Concat(blocks) + b
  {
    assert (blocks + [b])[..|blocks|] == blocks;
  }

  /** Every block occurs, whole and contiguous, in the flattening. */
  lemma {:induction false} ConcatContainsBlock<T>(blocks: seq<seq<T>>, i: int)
    requires 0 <= i < |blocks|
    ensures Contains(Concat(blocks), blocks[i])
  {
    var last := |blocks| - 1;
    if i == last {
      ContainsAt(blocks[i], blocks[i], 0);
      ContainsFrame(Concat(blocks[..last]), blocks[i], [], blocks[i]);
      assert Concat(blocks[..last]) + blocks[i] + [] == Concat(blocks);
    } else {
      ConcatContainsBlock(blocks[..last], i);
      ContainsFrame([], Concat(blocks[..last]), blocks[last], blocks[i]);
      assert [] + Concat(blocks[..last]) + blocks[last] == Concat(blocks);
    }
  }

  /** A non-empty flattening starts with its first block. */
  lemma {:induction false} ConcatStartsWithFirst<T>(blocks: seq<seq<T>>)
    requires blocks != []
    ensures StartsWith(Concat(blocks), blocks[0])
  {
    var last := |blocks| - 1;
    if last == 0 {
      assert Concat(blocks) == Concat(blocks[..0]) + blocks[0];
      assert blocks[..0] == [];
    } else {
      ConcatStartsWithFirst(blocks[..last]);
      StartsWithExtend(Concat(blocks[..last]), blocks[0], blocks[last]);
    }
  }

  /** `lines.forEach(writer::println)`: writes `lines` after what `written` already holds,
      one line at a time. */
  method AppendLines(written: seq<string>, lines: seq<string>) returns (out: seq<string>)
    ensures out == written + lines
  {
    out := written;
    for i := 0 to |lines|
      invariant out == written + lines[..i]
    {
      out := out + [lines[i]];
      assert lines[..i + 1] == lines[..i] + [lines[i]];
    }
    assert lines[..|lines|] == lines;
  }
}
