/** Small vocabulary shared by the component models. */
module Common {

  /** A value that may be absent: Go's nil, or a lookup that may miss. */
  datatype Option<+T> = None | Some(value: T)

  /** The elements that are present, in order. */
  function Present<T>(s: seq<Option<T>>): (r: seq<T>)
  {
    if s == [] then []
    else (if s[0].Some? then [s[0].value] else []) + Present(s[1..])
  }

  lemma {:induction false} PresentOfConcat<T>(a: seq<Option<T>>, b: seq<Option<T>>)
    ensures Present(a + b) == Present(a) + Present(b)
  {
    if a == [] {
      assert a + b == b;
    } else {
      PresentOfConcat(a[1..], b);
      assert (a + b)[1..] == a[1..] + b;
      var first := if a[0].Some? then [a[0].value] else [];
      assert first + (Present(a[1..]) + Present(b)) == (first + Present(a[1..])) + Present(b);
    }
  }

  /** All parts joined end to end. */
  function Flatten<T>(parts: seq<seq<T>>): (r: seq<T>)
  {
    if parts == [] then [] else parts[0] + Flatten(parts[1..])
  }

  lemma {:induction false} FlattenOfConcat<T>(a: seq<seq<T>>, b: seq<seq<T>>)
    ensures Flatten(a + b) == Flatten(a) + Flatten(b)
  {
    if a == [] {
      assert a + b == b;
    } else {
      FlattenOfConcat(a[1..], b);
      assert (a + b)[1..] == a[1..] + b;
      assert a[0] + (Flatten(a[1..]) + Flatten(b)) == (a[0] + Flatten(a[1..])) + Flatten(b);
    }
  }

  lemma FlattenAppend<T>(parts: seq<seq<T>>, last: seq<T>)
    ensures Flatten(parts + [last]) == Flatten(parts) + last
  {
    FlattenOfConcat(parts, [last]);
    assert Flatten([last]) == last + Flatten([]);
  }

  ghost predicate AllOfLength<T>(blocks: seq<seq<T>>, w: nat) { forall k :: 0 <= k < |blocks| ==> |blocks[k]| == w }

  lemma {:induction false} FlattenLength<T>(blocks: seq<seq<T>>, w: nat)
    requires AllOfLength(blocks, w)
    ensures |Flatten(blocks)| == |blocks| * w
  {
    if blocks != [] {
      FlattenLength(blocks[1..], w);
      assert |blocks| * w == w + (|blocks| - 1) * w;
    }
  }

  lemma SliceAfter<T>(x: seq<T>, y: seq<T>, i: nat, j: nat)
    requires i <= j <= |y|
    ensures (x + y)[|x| + i..|x| + j] == y[i..j]
  {
  }

  /** The block lies in s at this position. */
  ghost predicate Has<T>(s: seq<T>, at: int, block: seq<T>)
  {
    0 <= at && at + |block| <= |s| && s[at..at + |block|] == block
  }

  lemma HasWithin<T>(s: seq<T>, at: int, block: seq<T>, off: int, inner: seq<T>)
    requires Has(s, at, block) && Has(block, off, inner)
    ensures Has(s, at + off, inner)
  {
    forall k | 0 <= k < |inner| ensures s[at + off + k] == inner[k] {
      assert s[at + off + k] == block[off + k];
    }
  }

  lemma HasAfter<T>(x: seq<T>, y: seq<T>, at: int, block: seq<T>)
    requires Has(y, at, block)
    ensures Has(x + y, |x| + at, block)
  {
    SliceAfter(x, y, at, at + |block|);
  }

  /** Equal blocks lie at multiples of their length. */
  lemma {:induction false} BlockAt<T>(blocks: seq<seq<T>>, w: nat, k: nat)
    requires AllOfLength(blocks, w) && k < |blocks|
    ensures Has(Flatten(blocks), k * w, blocks[k])
  {
    if k > 0 {
      BlockAt(blocks[1..], w, k - 1);
      HasAfter(blocks[0], Flatten(blocks[1..]), (k - 1) * w, blocks[k]);
      assert k * w == w + (k - 1) * w;
    }
  }

  /** Blocks within blocks lie at the sum of the two offsets. */
  lemma NestedBlockAt<T>(outer: seq<seq<T>>, width: nat, i: nat, inner: seq<seq<T>>, w: nat, k: nat)
    requires AllOfLength(outer, width) && i < |outer| && outer[i] == Flatten(inner)
    requires AllOfLength(inner, w) && k < |inner|
    ensures Has(Flatten(outer), i * width + k * w, inner[k])
  {
    BlockAt(outer, width, i);
    BlockAt(inner, w, k);
    HasWithin(Flatten(outer), i * width, outer[i], k * w, inner[k]);
  }
}
