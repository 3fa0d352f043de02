/** The map from identities to blocks, as plain values. */
module BlockIndex {
  import opened OpIds
  import opened Values
  import opened Rga
  import opened Columns
  import Histories

  /** The map leads to a block that holds the identity. */
  ghost predicate Placed<B>(byID: map<OpID, B>, blocks: seq<B>, cols: Cols, id: OpID)
    requires id in byID && |blocks| == |cols|
  {
    exists i :: 0 <= i < |cols| && byID[id] == blocks[i] && Contains(cols[i], id)
  }

  /** Every element's identity leads to its block, and nothing else is mapped. */
  ghost predicate IndexOK<B>(byID: map<OpID, B>, blocks: seq<B>, cols: Cols) {
    && |blocks| == |cols|
    && (forall i, id :: 0 <= i < |cols| && Contains(cols[i], id) ==> id in byID && byID[id] == blocks[i])
    && (forall id :: id in byID ==> Placed(byID, blocks, cols, id))
  }

  ghost predicate Distinct<B>(blocks: seq<B>) {
    forall i, j :: 0 <= i < j < |blocks| ==> blocks[i] != blocks[j]
  }

  lemma {:induction false} FlattenContains(cols: Cols, id: OpID)
    ensures Contains(Flatten(cols), id) <==> exists i :: 0 <= i < |cols| && Contains(cols[i], id)
  {
    hide Flatten;
    if i :| 0 <= i < |cols| && Contains(cols[i], id) {
      FlattenAt(cols, i, IndexOf(cols[i], id));
    }
    if Contains(Flatten(cols), id) {
      var i, k := Owner(cols, IndexOf(Flatten(cols), id));
      assert Contains(cols[i], id);
    }
  }

  /** The map answers whether an identity is present, and where. */
  lemma Lookup<B>(byID: map<OpID, B>, blocks: seq<B>, cols: Cols, id: OpID)
    requires IndexOK(byID, blocks, cols)
    ensures id in byID <==> Contains(Flatten(cols), id)
    ensures id in byID ==> Placed(byID, blocks, cols, id)
  {
    hide Flatten, Contains;
    FlattenContains(cols, id);
    if id in byID { assert Placed(byID, blocks, cols, id); }
  }

  lemma ContainsInsert(s: seq<Elem>, k: nat, e: Elem, id: OpID)
    requires k <= |s|
    ensures Contains(s[..k] + [e] + s[k..], id) <==> Contains(s, id) || id == e.id
  {
    var t := s[..k] + [e] + s[k..];
    var i, j := IndexOf(s, id), IndexOf(t, id);
    assert t[k] == e;
    if i >= 0 { assert t[if i < k then i else i + 1] == s[i]; }
    if j >= 0 && j != k { assert t[j] == s[if j < k then j else j - 1]; }
  }

  lemma IndexInsert<B>(byID: map<OpID, B>, blocks: seq<B>, cols: Cols, i: nat, k: nat, e: Elem)
    requires IndexOK(byID, blocks, cols) && i < |cols| && k <= |cols[i]|
    requires e.id !in byID
    ensures IndexOK(byID[e.id := blocks[i]], blocks, cols[i := cols[i][..k] + [e] + cols[i][k..]])
  {
    hide Contains;
    var col := cols[i][..k] + [e] + cols[i][k..];
    var cols': Cols := cols[i := col];
    var byID' := byID[e.id := blocks[i]];
    forall j, id | 0 <= j < |cols'| && Contains(cols'[j], id) ensures id in byID' && byID'[id] == blocks[j] {
      ContainsInsert(cols[i], k, e, id);
    }
    forall id | id in byID' ensures Placed(byID', blocks, cols', id) {
      ContainsInsert(cols[i], k, e, id);
      if id == e.id {
        assert Contains(cols'[i], id);
      } else {
        assert Placed(byID, blocks, cols, id);
        var j :| 0 <= j < |cols| && byID[id] == blocks[j] && Contains(cols[j], id);
        assert Contains(cols'[j], id);
      }
    }
  }

  lemma ContainsUpdate(s: seq<Elem>, k: nat, e: Elem, id: OpID)
    requires k < |s| && s[k].id == e.id
    ensures Contains(s[k := e], id) <==> Contains(s, id)
  {
    Histories.SameIdsContain(s, s[k := e], id);
  }

  lemma IndexUpdate<B>(byID: map<OpID, B>, blocks: seq<B>, cols: Cols, i: nat, k: nat, e: Elem)
    requires IndexOK(byID, blocks, cols) && i < |cols| && k < |cols[i]| && e.id == cols[i][k].id
    ensures IndexOK(byID, blocks, cols[i := cols[i][k := e]])
  {
    hide Contains;
    var cols': Cols := cols[i := cols[i][k := e]];
    forall j, id | 0 <= j < |cols| ensures Contains(cols'[j], id) <==> Contains(cols[j], id) {
      ContainsUpdate(cols[i], k, e, id);
    }
    forall id | id in byID ensures Placed(byID, blocks, cols', id) {
      assert Placed(byID, blocks, cols, id);
      var j :| 0 <= j < |cols| && byID[id] == blocks[j] && Contains(cols[j], id);
      assert Contains(cols'[j], id);
    }
  }

  /** The map after the elements have moved to block b. */
  function Reindex<B>(byID: map<OpID, B>, moved: seq<Elem>, b: B): (r: map<OpID, B>)
    ensures forall id :: id in r <==> id in byID || Contains(moved, id)
    ensures forall id :: id in r ==> r[id] == if Contains(moved, id) then b else byID[id]
  {
    if moved == [] then byID
    else
      var n := |moved| - 1;
      var r := Reindex(byID, moved[..n], b)[moved[n].id := b];
      assert forall id :: Contains(moved, id) <==> Contains(moved[..n], id) || id == moved[n].id by { ContainsLast(moved); }
      r
  }

  lemma ContainsLast(s: seq<Elem>)
    requires s != []
    ensures forall id :: Contains(s, id) <==> Contains(s[..|s| - 1], id) || id == s[|s| - 1].id
  {
    var n := |s| - 1;
    forall id ensures Contains(s, id) <==> Contains(s[..n], id) || id == s[n].id {
      var i, j := IndexOf(s, id), IndexOf(s[..n], id);
      if 0 <= i < n { assert s[..n][i].id == id; }
    }
  }

  lemma ContainsSlices(s: seq<Elem>, cut: nat, id: OpID)
    requires cut <= |s| && UniqueIds(s)
    ensures Contains(s, id) <==> Contains(s[..cut], id) || Contains(s[cut..], id)
    ensures !(Contains(s[..cut], id) && Contains(s[cut..], id))
  {
    var i := IndexOf(s, id);
    assert forall k :: 0 <= k < cut ==> s[..cut][k] == s[k];
    assert forall k :: 0 <= k < |s| - cut ==> s[cut..][k] == s[cut + k];
    if i >= 0 {
      assert if i < cut then s[..cut][i].id == id else s[cut..][i - cut].id == id;
    }
  }

  lemma ColumnUnique(cols: Cols, i: nat)
    requires i < |cols| && UniqueIds(Flatten(cols))
    ensures UniqueIds(cols[i])
  {
    hide Flatten;
    forall a, b | 0 <= a < b < |cols[i]| ensures cols[i][a].id != cols[i][b].id {
      FlattenAt(cols, i, a);
      FlattenAt(cols, i, b);
    }
  }

  lemma ColumnsApart(cols: Cols, i: nat, j: nat, id: OpID)
    requires i < |cols| && j < |cols| && i != j && UniqueIds(Flatten(cols)) && Contains(cols[i], id)
    ensures !Contains(cols[j], id)
  {
    hide Flatten;
    if Contains(cols[j], id) {
      var a, b := IndexOf(cols[i], id), IndexOf(cols[j], id);
      FlattenAt(cols, i, a);
      FlattenAt(cols, j, b);
      if i < j { OffsetRises(cols, i, j, a); } else { OffsetRises(cols, j, i, b); }
    }
  }

  lemma {:induction false} OffsetRises(cols: Cols, i: nat, j: nat, a: nat)
    requires i < j < |cols| && a < |cols[i]|
    ensures Offset(cols, i) + a < Offset(cols, j)
    decreases j
  {
    hide Flatten;
    OffsetNext(cols, j - 1);
    if i < j - 1 { OffsetRises(cols, i, j - 1, a); }
  }

  function SplitBlocks<B>(blocks: seq<B>, i: nat, b: B): seq<B>
    requires i < |blocks|
  {
    blocks[..i + 1] + [b] + blocks[i + 1..]
  }

  lemma IndexSplit<B>(byID: map<OpID, B>, blocks: seq<B>, cols: Cols, i: nat, cut: nat, b: B)
    requires IndexOK(byID, blocks, cols) && UniqueIds(Flatten(cols))
    requires i < |cols| && cut <= |cols[i]|
    ensures IndexOK(Reindex(byID, cols[i][cut..], b), SplitBlocks(blocks, i, b), SplitCols(cols, i, cut))
  {
    hide Flatten, UniqueIds, Contains;
    var r := Reindex(byID, cols[i][cut..], b);
    var cols': Cols := SplitCols(cols, i, cut);
    var blocks' := SplitBlocks(blocks, i, b);
    ColumnUnique(cols, i);
    forall j, id | 0 <= j < |cols'| && Contains(cols'[j], id) ensures id in r && r[id] == blocks'[j] {
      ContainsSlices(cols[i], cut, id);
      var j0 := if j <= i then j else j - 1;
      if j != i && j != i + 1 {
        assert cols'[j] == cols[j0];
        ColumnsApart(cols, j0, i, id);
      }
    }
    forall id | id in r ensures Placed(r, blocks', cols', id) {
      SplitPlaced(byID, blocks, cols, i, cut, b, id);
    }
  }

  lemma SplitPlaced<B>(byID: map<OpID, B>, blocks: seq<B>, cols: Cols, i: nat, cut: nat, b: B, id: OpID)
    requires IndexOK(byID, blocks, cols) && i < |cols| && cut <= |cols[i]| && UniqueIds(cols[i])
    requires id in Reindex(byID, cols[i][cut..], b)
    ensures Placed(Reindex(byID, cols[i][cut..], b), SplitBlocks(blocks, i, b), SplitCols(cols, i, cut), id)
  {
    hide UniqueIds, Contains;
    var cols': Cols := SplitCols(cols, i, cut);
    var blocks' := SplitBlocks(blocks, i, b);
    if Contains(cols[i][cut..], id) {
      assert cols'[i + 1] == cols[i][cut..] && blocks'[i + 1] == b;
    } else {
      assert Placed(byID, blocks, cols, id);
      var j0 :| 0 <= j0 < |cols| && byID[id] == blocks[j0] && Contains(cols[j0], id);
      ContainsSlices(cols[i], cut, id);
      var j := if j0 <= i then j0 else j0 + 1;
      assert blocks'[j] == blocks[j0];
      assert j0 != i ==> cols'[j] == cols[j0];
      assert Contains(cols'[j], id);
    }
  }

  lemma ConcatApart(f: seq<Elem>, piece: seq<Elem>, i: nat, k: nat)
    requires UniqueIds(f + piece) && i < |f| && k < |piece|
    ensures f[i].id != piece[k].id
  {
    assert (f + piece)[i] == f[i] && (f + piece)[|f| + k] == piece[k];
  }

  lemma AppendApart(cols: Cols, piece: seq<Elem>, j: nat, id: OpID)
    requires j < |cols| && UniqueIds(Flatten(cols) + piece) && Contains(cols[j], id)
    ensures !Contains(piece, id)
  {
    hide Flatten, UniqueIds;
    var a := IndexOf(cols[j], id);
    FlattenAt(cols, j, a);
    forall k | 0 <= k < |piece| ensures piece[k].id != id {
      ConcatApart(Flatten(cols), piece, Offset(cols, j) + a, k);
    }
  }

  lemma IndexAppend<B>(byID: map<OpID, B>, blocks: seq<B>, cols: Cols, piece: seq<Elem>, b: B)
    requires IndexOK(byID, blocks, cols) && UniqueIds(Flatten(cols) + piece)
    ensures IndexOK(Reindex(byID, piece, b), blocks + [b], cols + [piece])
  {
    hide Flatten, UniqueIds, Contains;
    var r := Reindex(byID, piece, b);
    var cols': Cols := cols + [piece];
    var blocks' := blocks + [b];
    forall j, id | 0 <= j < |cols'| && Contains(cols'[j], id) ensures id in r && r[id] == blocks'[j] {
      if j < |cols| { AppendApart(cols, piece, j, id); }
    }
    forall id | id in r ensures Placed(r, blocks', cols', id) {
      if Contains(piece, id) {
        assert cols'[|cols|] == piece && blocks'[|cols|] == b;
      } else {
        assert Placed(byID, blocks, cols, id);
        var j :| 0 <= j < |cols| && byID[id] == blocks[j] && Contains(cols[j], id);
        assert cols'[j] == cols[j] && blocks'[j] == blocks[j];
      }
    }
  }

  lemma ReindexStep<B>(byID: map<OpID, B>, piece: seq<Elem>, i: nat, b: B)
    requires i < |piece|
    ensures Reindex(byID, piece[..i + 1], b) == Reindex(byID, piece[..i], b)[piece[i].id := b]
  {
    assert piece[..i + 1][..i] == piece[..i];
  }
}
