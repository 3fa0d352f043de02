/** A sequence split over blocks, as plain values: the block contents are the
    columns, their concatenation is the document order. */
module Columns {
  import opened Values
  import opened Objects
  import opened Fenwick
  import TextSplice

  type Cols = seq<seq<Elem>>

  function Flatten(cols: Cols): seq<Elem> {
    if cols == [] then [] else Flatten(cols[..|cols| - 1]) + cols[|cols| - 1]
  }

  /** Elements before block i. */
  function Offset(cols: Cols, i: nat): nat
    requires i <= |cols|
  {
    |Flatten(cols[..i])|
  }

  function VisCounts(cols: Cols): (r: seq<int>)
    ensures |r| == |cols| && NonNegative(r)
    ensures forall i :: 0 <= i < |r| ==> r[i] == |Visible(cols[i])|
  {
    seq(|cols|, i requires 0 <= i < |cols| => |Visible(cols[i])|)
  }

  lemma {:induction false} FlattenConcat(a: Cols, b: Cols)
    ensures Flatten(a + b) == Flatten(a) + Flatten(b)
  {
    if b == [] {
      assert a + b == a;
    } else {
      FlattenConcat(a, b[..|b| - 1]);
      assert (a + b)[..|a + b| - 1] == a + b[..|b| - 1];
    }
  }

  lemma FlattenOne(col: seq<Elem>)
    ensures Flatten([col]) == col
  {
    assert [col][..0] == [];
  }

  lemma FlattenAround(cols: Cols, i: nat)
    requires i < |cols|
    ensures Flatten(cols) == Flatten(cols[..i]) + cols[i] + Flatten(cols[i + 1..])
    ensures Flatten(cols[..i + 1]) == Flatten(cols[..i]) + cols[i]
  {
    hide Flatten;
    assert cols == cols[..i + 1] + cols[i + 1..];
    FlattenConcat(cols[..i + 1], cols[i + 1..]);
    assert cols[..i + 1] == cols[..i] + [cols[i]];
    FlattenConcat(cols[..i], [cols[i]]);
    FlattenOne(cols[i]);
  }

  /** Element k of block i in document order. */
  lemma FlattenAt(cols: Cols, i: nat, k: nat)
    requires i < |cols| && k < |cols[i]|
    ensures Offset(cols, i) + k < |Flatten(cols)|
    ensures Flatten(cols)[Offset(cols, i) + k] == cols[i][k]
  {
    FlattenAround(cols, i);
  }

  lemma OffsetNext(cols: Cols, i: nat)
    requires i < |cols|
    ensures Offset(cols, i + 1) == Offset(cols, i) + |cols[i]|
    ensures Offset(cols, i + 1) <= |Flatten(cols)|
  {
    FlattenAround(cols, i);
  }

  lemma OffsetEnd(cols: Cols)
    ensures Offset(cols, |cols|) == |Flatten(cols)|
  {
    assert cols[..|cols|] == cols;
  }

  /** Every element of the document order lies in some block. */
  lemma {:induction false} Owner(cols: Cols, p: nat) returns (i: nat, k: nat)
    requires p < |Flatten(cols)|
    ensures i < |cols| && k < |cols[i]| && Offset(cols, i) + k == p && cols[i][k] == Flatten(cols)[p]
    decreases |cols|
  {
    var n := |cols| - 1;
    if p < |Flatten(cols[..n])| {
      i, k := Owner(cols[..n], p);
      assert cols[..n][..i] == cols[..i];
    } else {
      i, k := n, p - |Flatten(cols[..n])|;
    }
  }

  lemma {:induction false} PrefixVisible(cols: Cols, i: nat)
    requires i <= |cols|
    ensures Sum(VisCounts(cols), 0, i) == |Visible(Flatten(cols[..i]))|
  {
    if i > 0 {
      PrefixVisible(cols, i - 1);
      assert cols[..i][..i - 1] == cols[..i - 1];
      TextSplice.VisibleConcat(Flatten(cols[..i - 1]), cols[i - 1]);
    }
  }

  lemma TotalVisible(cols: Cols)
    ensures Sum(VisCounts(cols), 0, |cols|) == |Visible(Flatten(cols))|
  {
    PrefixVisible(cols, |cols|);
    assert cols[..|cols|] == cols;
  }

  lemma CutInside(a: seq<Elem>, b: seq<Elem>, c: seq<Elem>, k: nat)
    requires k <= |b|
    ensures (a + b + c)[..|a| + k] == a + b[..k]
    ensures (a + b + c)[|a| + k..] == b[k..] + c
  {
  }

  /** The visible elements before element k of block i. */
  lemma VisibleBefore(cols: Cols, i: nat, k: nat)
    requires i < |cols| && k <= |cols[i]|
    ensures Offset(cols, i) + k <= |Flatten(cols)|
    ensures |Visible(Flatten(cols)[..Offset(cols, i) + k])| == Sum(VisCounts(cols), 0, i) + |Visible(cols[i][..k])|
  {
    hide Flatten, Visible, Sum;
    FlattenAround(cols, i);
    PrefixVisible(cols, i);
    TextSplice.VisibleConcat(Flatten(cols[..i]), cols[i][..k]);
    CutInside(Flatten(cols[..i]), cols[i], Flatten(cols[i + 1..]), k);
  }

  // ---- one column changes ----

  lemma FlattenUpdate(cols: Cols, i: nat, col: seq<Elem>)
    requires i < |cols|
    ensures Flatten(cols[i := col]) == Flatten(cols[..i]) + col + Flatten(cols[i + 1..])
  {
    var t := cols[i := col];
    FlattenAround(t, i);
    assert t[..i] == cols[..i] && t[i + 1..] == cols[i + 1..];
  }

  /** Inserting into a block inserts at the matching place of the order. */
  lemma InsertColumn(cols: Cols, i: nat, k: nat, e: Elem)
    requires i < |cols| && k <= |cols[i]|
    ensures var p := Offset(cols, i) + k;
            && p <= |Flatten(cols)|
            && Flatten(cols[i := cols[i][..k] + [e] + cols[i][k..]]) == Flatten(cols)[..p] + [e] + Flatten(cols)[p..]
  {
    hide Flatten;
    var a, b, c := Flatten(cols[..i]), cols[i], Flatten(cols[i + 1..]);
    FlattenAround(cols, i);
    FlattenUpdate(cols, i, b[..k] + [e] + b[k..]);
    CutInside(a, b, c, k);
    assert a + (b[..k] + [e] + b[k..]) + c == (a + b[..k]) + [e] + (b[k..] + c);
  }

  lemma UpdateInside(a: seq<Elem>, b: seq<Elem>, c: seq<Elem>, k: nat, e: Elem)
    requires k < |b|
    ensures (a + b + c)[|a| + k := e] == a + b[k := e] + c
  {
  }

  lemma UpdateColumn(cols: Cols, i: nat, k: nat, e: Elem)
    requires i < |cols| && k < |cols[i]|
    ensures var p := Offset(cols, i) + k;
            && p < |Flatten(cols)|
            && Flatten(cols[i := cols[i][k := e]]) == Flatten(cols)[p := e]
  {
    hide Flatten;
    FlattenAround(cols, i);
    FlattenUpdate(cols, i, cols[i][k := e]);
    UpdateInside(Flatten(cols[..i]), cols[i], Flatten(cols[i + 1..]), k, e);
  }

  function SplitCols(cols: Cols, i: nat, cut: nat): Cols
    requires i < |cols| && cut <= |cols[i]|
  {
    cols[..i] + [cols[i][..cut], cols[i][cut..]] + cols[i + 1..]
  }

  /** Splitting a block does not change the order. */
  lemma SplitKeepsOrder(cols: Cols, i: nat, cut: nat)
    requires i < |cols| && cut <= |cols[i]|
    ensures Flatten(SplitCols(cols, i, cut)) == Flatten(cols)
  {
    var a, b := cols[i][..cut], cols[i][cut..];
    FlattenAround(cols, i);
    FlattenConcat(cols[..i] + [a, b], cols[i + 1..]);
    FlattenConcat(cols[..i], [a, b]);
    assert [a, b][..1] == [a];
    FlattenOne(a);
    assert a + b == cols[i];
  }
}
