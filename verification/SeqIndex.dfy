/** The blocked sequence of crdt/seq.go: blocks of bounded size, a map from
    identities to blocks, and a Fenwick tree over the visible counts. Every
    operation does to the document order what the flat list does. */
module SeqIndex {
  import opened OpIds
  import opened Values
  import opened Rga
  import opened Objects
  import opened Fenwick
  import opened Columns
  import opened BlockIndex
  import TextSplice
  import Documents
  import Runes

  /** The size a block is loaded with. */
  const BLOCK_TARGET: nat := 128
  /** The size that triggers a split. */
  const BLOCK_MAX: nat := 256

  class Block {
    var elems: seq<Elem>
    var visible: int
    var pos: int

    constructor (elems: seq<Elem>, visible: int, pos: int)
      ensures this.elems == elems && this.visible == visible && this.pos == pos
    {
      this.elems, this.visible, this.pos := elems, visible, pos;
    }
  }

  ghost function Contents(blocks: seq<Block>): (cols: Cols)
    reads blocks
    ensures |cols| == |blocks| && forall i :: 0 <= i < |blocks| ==> cols[i] == blocks[i].elems
  {
    seq(|blocks|, i requires 0 <= i < |blocks| reads blocks => blocks[i].elems)
  }

  ghost predicate CountsExact(blocks: seq<Block>)
    reads blocks
  {
    forall i :: 0 <= i < |blocks| ==> blocks[i].visible == |Visible(blocks[i].elems)|
  }

  ghost predicate PositionsExact(blocks: seq<Block>)
    reads blocks
  {
    forall i :: 0 <= i < |blocks| ==> blocks[i].pos == i
  }

  /** seqTree. */
  class Tree {
    var nodes: seq<int>
    var n: nat
    var dirty: bool

    constructor ()
      ensures nodes == [] && n == 0 && !dirty
    {
      nodes, n, dirty := [], 0, false;
    }

    /** A clean tree describes these counts. */
    ghost predicate Clean(counts: seq<int>)
      reads this
    {
      !dirty && n == |counts| && Holds(nodes, counts)
    }

    /** The counts themselves, before anything is passed on. */
    method Fill(blocks: seq<Block>, ghost counts: seq<int>)
      requires |counts| == |blocks| && forall i :: 0 <= i < |blocks| ==> blocks[i].visible == counts[i]
      modifies this
      ensures n == |blocks| && |nodes| == n + 1 && nodes[0] == 0
      ensures forall j :: 0 < j <= n ==> nodes[j] == counts[j - 1]
    {
      n := |blocks|;
      nodes := seq(n + 1, i => 0);
      for i := 0 to n
        invariant n == |blocks| && |nodes| == n + 1 && nodes[0] == 0
        invariant forall j :: 0 < j <= i ==> nodes[j] == counts[j - 1]
      {
        nodes := nodes[i + 1 := blocks[i].visible];
      }
    }

    /** Every node passes its sum on to its parent. */
    method PassOn(ghost counts: seq<int>)
      requires n == |counts| && |nodes| == n + 1 && nodes[0] == 0
      requires forall j :: 0 < j <= n ==> nodes[j] == counts[j - 1]
      modifies this`nodes
      ensures Holds(nodes, counts)
    {
      hide LowBit, Span;
      for i := 1 to n + 1
        invariant |nodes| == n + 1 && nodes[0] == 0
        invariant forall j :: 0 < j <= n ==> nodes[j] == counts[j - 1] + FromChildren(counts, j, i - 1)
      {
        var parent := i + LowBit(i);
        ChildrenCover(counts, i, i - 1);
        if parent <= n {
          nodes := nodes[parent := nodes[parent] + nodes[i]];
        }
      }
      forall j | 0 < j <= n ensures nodes[j] == Span(counts, j) {
        ChildrenCover(counts, j, n);
      }
    }

    /** build. */
    method Build(blocks: seq<Block>)
      requires CountsExact(blocks)
      modifies this
      ensures Clean(VisCounts(Contents(blocks)))
    {
      hide Holds;
      ghost var counts := VisCounts(Contents(blocks));
      Fill(blocks, counts);
      PassOn(counts);
      dirty := false;
    }

    /** ensure. */
    method Ensure(blocks: seq<Block>)
      requires CountsExact(blocks)
      requires !dirty && n == |blocks| ==> Clean(VisCounts(Contents(blocks)))
      modifies this
      ensures Clean(VisCounts(Contents(blocks)))
    {
      if !dirty && n == |blocks| {
        return;
      }
      Build(blocks);
    }

    /** add: a clean tree follows the change of one count; a stale one stays stale. */
    method Add(bi: int, delta: int, ghost counts: seq<int>)
      requires !dirty ==> Clean(counts)
      modifies this
      ensures old(dirty) ==> dirty
      ensures !dirty && delta != 0 ==> 0 <= bi < |counts| && Clean(counts[bi := counts[bi] + delta])
      ensures !dirty && delta == 0 ==> Clean(counts)
    {
      if delta == 0 {
        return;
      }
      if dirty {
        return;
      }
      if bi < 0 || bi >= n {
        dirty := true;
        return;
      }
      var i := bi + 1;
      while i <= n
        invariant i > 0 && n == |counts| && |nodes| == n + 1 && nodes[0] == 0 && !dirty
        invariant i == bi + 1 || bi + 1 < i
        invariant forall j :: 0 < j <= n ==>
                    nodes[j] == Span(counts, j) + (if j < i && InSpan(bi + 1, j) then delta else 0)
        invariant forall j :: i <= j <= n ==> (InSpan(bi + 1, j) <==> InSpan(i, j))
        decreases n + 1 - i
      {
        var next := i + LowBit(i);
        assert InSpan(i, i);
        ghost var was := nodes;
        nodes := nodes[i := nodes[i] + delta];
        forall j | 0 < j <= n
          ensures nodes[j] == Span(counts, j) + (if j < next && InSpan(bi + 1, j) then delta else 0)
          ensures next <= j ==> (InSpan(bi + 1, j) <==> InSpan(next, j))
        {
          assert was[j] == Span(counts, j) + (if j < i && InSpan(bi + 1, j) then delta else 0);
          if i <= j { assert InSpan(bi + 1, j) <==> InSpan(i, j); }
          if i < j { ClimbStep(i, j); }
        }
        i := next;
      }
      forall j | 0 < j <= n ensures nodes[j] == Span(counts[bi := counts[bi] + delta], j) {
        SpanUpdate(counts, bi, delta, j);
      }
    }

    /** prefixSum: the visible elements in the blocks before bi. */
    method PrefixSum(bi: nat, ghost counts: seq<int>) returns (sum: int)
      requires Clean(counts)
      ensures sum == Sum(counts, 0, if bi > n then n else bi)
    {
      var b := if bi > n then n else bi;
      sum := 0;
      var i := b;
      while i > 0
        invariant 0 <= i <= b
        invariant sum + Sum(counts, 0, i) == Sum(counts, 0, b)
      {
        SumSplit(counts, 0, i - LowBit(i), i);
        sum := sum + nodes[i];
        i := i - LowBit(i);
      }
    }

    /** search: the block that holds a visible index, and the index inside it. */
    method Search(index: int, ghost counts: seq<int>) returns (bi: nat, remaining: int)
      requires Clean(counts) && NonNegative(counts)
      requires n > 0 ==> 0 <= index < Sum(counts, 0, |counts|)
      ensures n > 0 ==> bi < |counts| && remaining == index - Sum(counts, 0, bi)
      ensures n > 0 ==> Sum(counts, 0, bi) <= index < Sum(counts, 0, bi + 1)
      ensures n == 0 ==> bi == 0 && remaining == index
    {
      if n == 0 {
        return 0, index;
      }
      var pos: nat := 0;
      remaining := index;
      var bit := TopBit(n);
      SearchStart(counts, bit, index);
      hide *;
      while bit > 0
        invariant |nodes| == n + 1 && n == |counts| && Holds(nodes, counts) && NonNegative(counts)
        invariant Between(counts, pos, bit, index, remaining)
        decreases bit
      {
        var next := pos + bit;
        SearchStep(nodes, counts, pos, bit, index, remaining);
        if next <= n && nodes[next] <= remaining {
          remaining := remaining - nodes[next];
          pos := next;
        }
        bit := bit / 2;
      }
      SearchEnd(counts, pos, index, remaining);
      bi := pos;
    }
  }

  /** While bit is tried: the first pos counts stay at or below index, those bit above go past it. */
  ghost predicate Between(counts: seq<int>, pos: nat, bit: nat, index: int, remaining: int) {
    && pos <= |counts| && remaining == index - Sum(counts, 0, pos) && remaining >= 0
    && (bit > 0 ==> PowerOfTwo(bit) && PowerOfTwo(2 * bit) && Aligned(pos, 2 * bit))
    && (bit > 0 ==> pos + 2 * bit > |counts| || Sum(counts, 0, pos + 2 * bit) > index)
    && (bit == 0 ==> pos + 1 > |counts| || Sum(counts, 0, pos + 1) > index)
  }

  lemma SearchStart(counts: seq<int>, bit: nat, index: int)
    requires PowerOfTwo(bit) && PowerOfTwo(2 * bit) && bit > 0 && 2 * bit > |counts| && index >= 0
    ensures Between(counts, 0, bit, index, index)
  {
    ZeroAligned(2 * bit);
  }

  lemma SearchStep(nodes: seq<int>, counts: seq<int>, pos: nat, bit: nat, index: int, remaining: int)
    requires Between(counts, pos, bit, index, remaining) && bit > 0
    requires |nodes| == |counts| + 1 && Holds(nodes, counts) && NonNegative(counts)
    ensures if pos + bit <= |counts| && nodes[pos + bit] <= remaining
            then Between(counts, pos + bit, bit / 2, index, remaining - nodes[pos + bit])
            else Between(counts, pos, bit / 2, index, remaining)
  {
    hide Sum;
    var next := pos + bit;
    AlignedStep(pos, bit);
    assert bit > 1 ==> 2 * (bit / 2) == bit;
    if next <= |counts| {
      SumSplit(counts, 0, pos, next);
      assert nodes[next] == Sum(counts, pos, next);
    }
  }

  lemma SearchEnd(counts: seq<int>, pos: nat, index: int, remaining: int)
    requires Between(counts, pos, 0, index, remaining) && index < Sum(counts, 0, |counts|)
    ensures pos < |counts| && Sum(counts, 0, pos) <= index < Sum(counts, 0, pos + 1)
    ensures remaining == index - Sum(counts, 0, pos)
  {
    hide Sum;
  }

  ghost predicate SizesOK(cols: Cols) {
    forall i :: 0 <= i < |cols| ==> |cols[i]| < BLOCK_MAX
  }

  lemma VisibleNext(s: seq<Elem>, i: nat)
    requires i < |s|
    ensures |Visible(s[..i + 1])| == |Visible(s[..i])| + if s[i].deleted then 0 else 1
  {
    assert s[..i + 1][..i] == s[..i];
  }

  /** The visible elements before an offset of a block. */
  method CountVisible(elems: seq<Elem>, off: nat) returns (count: nat)
    requires off <= |elems|
    ensures count == |Visible(elems[..off])|
  {
    count := 0;
    for i := 0 to off
      invariant count == |Visible(elems[..i])|
    {
      VisibleNext(elems, i);
      if !elems[i].deleted {
        count := count + 1;
      }
    }
  }

  /** The offset of a visible index inside a block. */
  method ScanVisible(elems: seq<Elem>, index: int) returns (off: nat)
    requires 0 <= index < |Visible(elems)|
    ensures off < |elems| && !elems[off].deleted && |Visible(elems[..off])| == index
  {
    hide Visible;
    var remaining := index;
    off := 0;
    VisibleStart(elems);
    EnoughLeft(elems, 0);
    while elems[off].deleted || remaining != 0
      invariant off < |elems| && remaining >= 0
      invariant remaining + |Visible(elems[..off])| == index
      decreases |elems| - off
    {
      VisibleNext(elems, off);
      EnoughLeft(elems, off + 1);
      if !elems[off].deleted {
        remaining := remaining - 1;
      }
      off := off + 1;
    }
  }

  lemma VisibleFrom(s: seq<Elem>, i: nat)
    requires i < |s|
    ensures Visible(s[i..]) == (if s[i].deleted then [] else [s[i]]) + Visible(s[i + 1..])
  {
    assert s[i..] == [s[i]] + s[i + 1..];
    TextSplice.VisibleConcat([s[i]], s[i + 1..]);
    assert [s[i]][..0] == [];
  }

  /** The inner loop of collectVisibleRange: up to count identities of a block. */
  method TakeVisible(elems: seq<Elem>, off: nat, count: nat) returns (ids: seq<OpID>)
    requires off <= |elems|
    ensures var v := Visible(elems[off..]); ids == Documents.Ids(v[..if count < |v| then count else |v|])
  {
    hide Visible;
    ghost var v := Visible(elems[off..]);
    ids := [];
    var i := off;
    while i < |elems| && |ids| < count
      invariant off <= i <= |elems| && |ids| <= |v| && |ids| <= count
      invariant ids == Documents.Ids(v[..|ids|])
      invariant v[|ids|..] == Visible(elems[i..])
    {
      VisibleFrom(elems, i);
      if !elems[i].deleted {
        ids := ids + [elems[i].id];
      }
      i := i + 1;
    }
    if i == |elems| { VisibleNothing(elems[i..]); }
  }

  lemma VisibleNothing(s: seq<Elem>)
    requires s == []
    ensures Visible(s) == []
  {
  }

  /** The text of one block. */
  method BlockText(elems: seq<Elem>) returns (text: Str)
    ensures text == VisibleText(elems)
  {
    text := [];
    for i := 0 to |elems|
      invariant text == VisibleText(elems[..i])
    {
      assert elems[..i + 1] == elems[..i] + [elems[i]];
      TextConcat(elems[..i], [elems[i]]);
      OneText(elems[i]);
      if !elems[i].deleted {
        text := text + StrOf(elems[i].value);
      }
    }
    assert elems[..|elems|] == elems;
  }

  lemma OneText(e: Elem)
    ensures VisibleText([e]) == if e.deleted then [] else StrOf(e.value)
  {
    assert [e][..0] == [];
    if !e.deleted {
      assert Visible([e]) == [e];
      var t := Texts([e]);
      assert t == [StrOf(e.value)] && t[1..] == [];
      assert Runes.Concat(t) == t[0] + Runes.Concat(t[1..]);
    }
  }

  lemma TextConcat(a: seq<Elem>, b: seq<Elem>)
    ensures VisibleText(a + b) == VisibleText(a) + VisibleText(b)
  {
    hide Visible, Runes.Concat;
    TextSplice.VisibleConcat(a, b);
    assert Texts(Visible(a) + Visible(b)) == Texts(Visible(a)) + Texts(Visible(b));
    Runes.ConcatAppend(Texts(Visible(a)), Texts(Visible(b)));
  }

  /** What is left of the order from element off of block i. */
  lemma RestOfOrder(cols: Cols, i: nat, off: nat)
    requires i < |cols| && off <= |cols[i]|
    ensures Offset(cols, i) + off <= |Flatten(cols)|
    ensures Flatten(cols)[Offset(cols, i) + off..] == cols[i][off..] + Flatten(cols[i + 1..])
  {
    FlattenAround(cols, i);
  }

  /** seq. Order() is the document order it stands for. */
  class Seq {
    var blocks: seq<Block>
    var byID: map<OpID, Block>
    var total: int
    var vis: int
    const tree: Tree

    ghost function Order(): seq<Elem>
      reads this, blocks
    {
      Flatten(Contents(blocks))
    }

    /** Everything but the size limit, which a split restores. */
    ghost predicate Linked()
      reads this, tree, blocks
    {
      && blocks != [] && Distinct(blocks)
      && PositionsExact(blocks) && CountsExact(blocks)
      && IndexOK(byID, blocks, Contents(blocks))
      && UniqueIds(Order())
      && total == |Order()| && vis == |Visible(Order())|
      && (!tree.dirty ==> tree.Clean(VisCounts(Contents(blocks))))
    }

    ghost predicate Valid()
      reads this, tree, blocks
    {
      Linked() && SizesOK(Contents(blocks))
    }

    /** The fields of a new sequence. */
    ghost predicate Blank()
      reads this, blocks
    {
      && |blocks| == 1 && blocks[0].elems == [] && blocks[0].visible == 0 && blocks[0].pos == 0
      && byID == map[] && total == 0 && vis == 0
    }

    /** newSeq. */
    constructor ()
      ensures Valid() && Order() == []
      ensures fresh(tree) && fresh(blocks)
    {
      var first := new Block([], 0, 0);
      blocks, byID, total, vis := [first], map[], 0, 0;
      tree := new Tree();
      new;
      assert Blank();
      hide *;
      Begin();
    }

    /** The state of an empty sequence. */
    method Begin()
      requires Blank()
      modifies tree
      ensures Valid() && Order() == []
    {
      hide Flatten, Visible, IndexOK, Holds, UniqueIds;
      EmptyReset([], byID, []);
      EmptyBlock(byID, blocks[0]);
      assert blocks == [blocks[0]] && Contents(blocks) == [[]];
      tree.Build(blocks);
    }

    /** One block of a loaded list, entered into the map. */
    method Load(piece: seq<Elem>) returns (block: Block)
      modifies this`byID
      ensures fresh(block) && block.elems == piece && block.pos == |blocks| && block.visible == |Visible(piece)|
      ensures byID == Reindex(old(byID), piece, block)
    {
      hide Visible, Reindex;
      block := new Block(piece, 0, |blocks|);
      VisibleNone(piece);
      for i := 0 to |piece|
        invariant block.elems == piece && block.pos == |blocks| && block.visible == |Visible(piece[..i])|
        invariant byID == Reindex(old(byID), piece[..i], block)
      {
        VisibleNext(piece, i);
        ReindexStep(old(byID), piece, i, block);
        if !piece[i].deleted {
          block.visible := block.visible + 1;
        }
        byID := byID[piece[i].id := block];
      }
      assert piece[..|piece|] == piece;
    }

    /** The blocks so far hold the first start elements of a list. */
    ghost predicate Loading(elems: seq<Elem>, start: nat)
      reads this, blocks
    {
      && start <= |elems| && Distinct(blocks)
      && PositionsExact(blocks) && CountsExact(blocks) && SizesOK(Contents(blocks))
      && IndexOK(byID, blocks, Contents(blocks))
      && Order() == elems[..start] && total == start && vis == |Visible(elems[..start])|
      && (start > 0 ==> blocks != [])
    }

    /** One turn of the loop of reset. */
    method LoadPiece(elems: seq<Elem>, start: nat) returns (end: nat)
      requires UniqueIds(elems) && Loading(elems, start) && start < |elems|
      modifies this
      ensures Loading(elems, end) && start < end <= |elems|
      ensures |blocks| == |old(blocks)| + 1 && blocks[..|old(blocks)|] == old(blocks) && fresh(blocks[|old(blocks)|])
    {
      hide Flatten, Contains, UniqueIds, IndexOK, Visible, Reindex, Distinct, CountsExact, PositionsExact, SizesOK;
      end := if start + BLOCK_TARGET < |elems| then start + BLOCK_TARGET else |elems|;
      ghost var cols, before := Contents(blocks), byID;
      var block := Load(elems[start..end]);
      total := total + |block.elems|;
      vis := vis + block.visible;
      ResetStep(before, blocks, cols, elems, start, end, block);
      OneMoreBlock(blocks, cols, block);
      blocks := blocks + [block];
    }

    /** An empty list still has one block. */
    method EnsureBlock(elems: seq<Elem>)
      requires UniqueIds(elems) && Loading(elems, |elems|) && tree.dirty
      modifies this`blocks
      ensures Valid() && Order() == elems
      ensures if old(blocks) == [] then fresh(blocks) else blocks == old(blocks)
    {
      hide Flatten, Contains, IndexOK, Visible;
      assert elems[..|elems|] == elems;
      if |blocks| == 0 {
        var only := new Block([], 0, 0);
        EmptyBlock(byID, only);
        blocks := [only];
        assert Contents(blocks) == [[]];
      }
    }

    method Clear(ghost elems: seq<Elem>)
      modifies this, tree
      ensures blocks == [] && tree.dirty && Loading(elems, 0)
    {
      hide Flatten, Contains, IndexOK, Visible;
      blocks, byID, total, vis := [], map[], 0, 0;
      tree.dirty := true;
      EmptyReset(elems, byID, blocks);
      assert Contents(blocks) == [];
    }

    /** reset. */
    method Reset(elems: seq<Elem>)
      requires UniqueIds(elems)
      modifies this, tree
      ensures Valid() && Order() == elems && fresh(blocks)
    {
      hide Loading, Valid, Order, UniqueIds;
      Clear(elems);
      var start := 0;
      while start < |elems|
        invariant start <= |elems| && Loading(elems, start) && tree.dirty && fresh(blocks)
      {
        start := LoadPiece(elems, start);
      }
      EnsureBlock(elems);
    }

    // ---- queries ----

    /** The block of an identity and its place there. */
    method Locate(id: OpID) returns (block: Block?, off: nat, ok: bool)
      requires Valid()
      ensures ok <==> Contains(Order(), id)
      ensures ok ==> block != null && 0 <= block.pos < |blocks| && blocks[block.pos] == block
      ensures ok ==> off < |block.elems| && block.elems[off].id == id
      ensures ok ==> Offset(Contents(blocks), block.pos) + off == IndexOf(Order(), id)
    {
      hide Flatten, Contains, UniqueIds, Visible;
      Lookup(byID, blocks, Contents(blocks), id);
      if id !in byID {
        return null, 0, false;
      }
      block, off := byID[id], 0;
      assert Contains(block.elems, id);
      PresentSomewhere(block.elems, id);
      while off < |block.elems| && block.elems[off].id != id
        invariant off <= |block.elems| && forall k :: 0 <= k < off ==> block.elems[k].id != id
      {
        off := off + 1;
      }
      ok := off < |block.elems|;
      PlaceInOrder(Contents(blocks), block.pos, off);
    }

    method ContainsId(id: OpID) returns (ok: bool)
      requires Valid()
      ensures ok <==> Contains(Order(), id)
    {
      var _, _, found := Locate(id);
      ok := found;
    }

    method ElemByID(id: OpID) returns (r: Option<Elem>)
      requires Valid()
      ensures r == if Contains(Order(), id) then Some(Order()[IndexOf(Order(), id)]) else None
    {
      hide Flatten, UniqueIds, Visible;
      var block, off, ok := Locate(id);
      if !ok {
        return None;
      }
      r := Some(block.elems[off]);
      FlattenAt(Contents(blocks), block.pos, off);
    }

    /** A clean tree for the blocks. */
    method EnsureTree()
      requires Valid()
      modifies tree
      ensures Valid() && Contents(blocks) == old(Contents(blocks))
      ensures tree.Clean(VisCounts(Contents(blocks)))
    {
      hide Flatten, UniqueIds, Visible, IndexOK, Distinct, Holds;
      ghost var cols := Contents(blocks);
      tree.Ensure(blocks);
      assert Contents(blocks) == cols;
    }

    /** visibleIndexOf. */
    method VisibleIndex(id: OpID) returns (index: nat)
      requires Valid()
      modifies tree
      ensures Valid() && Order() == old(Order())
      ensures index == VisibleIndexOf(Order(), id)
    {
      hide Flatten, UniqueIds, Visible, IndexOK, Distinct, Holds, PositionsExact;
      var block, off, ok := Locate(id);
      ghost var cols := Contents(blocks);
      if ok { FlattenAt(cols, block.pos, off); }
      if !ok || block.elems[off].deleted {
        return vis;
      }
      EnsureTree();
      hide Valid;
      var sum := tree.PrefixSum(block.pos, VisCounts(cols));
      var inside := CountVisible(block.elems, off);
      VisibleBefore(cols, block.pos, off);
      index := sum + inside;
    }

    /** blockAtVisible: the block and offset of a visible index. */
    method BlockAtVisible(index: nat) returns (block: Block, off: nat)
      requires Valid() && index < vis
      modifies tree
      ensures Valid() && Order() == old(Order())
      ensures 0 <= block.pos < |blocks| && blocks[block.pos] == block
      ensures off < |block.elems| && !block.elems[off].deleted
      ensures VisiblePlace(Contents(blocks), block.pos, off, index)
    {
      hide Flatten, UniqueIds, Visible, IndexOK, Distinct, Sum, Holds;
      EnsureTree();
      ghost var cols := Contents(blocks);
      TotalVisible(cols);
      var bi, remaining := tree.Search(index, VisCounts(cols));
      block := blocks[bi];
      NextSum(VisCounts(cols), bi);
      off := ScanVisible(block.elems, remaining);
      VisibleBefore(cols, bi, off);
      FlattenAt(cols, bi, off);
    }

    /** visibleAt. */
    method VisibleAt(index: int) returns (r: Option<Elem>)
      requires Valid()
      modifies tree
      ensures Valid() && Order() == old(Order())
      ensures r == if 0 <= index < |Visible(Order())| then Some(Visible(Order())[index]) else None
    {
      hide Flatten, UniqueIds, Visible, IndexOK, Distinct;
      if index < 0 || index >= vis {
        return None;
      }
      var block, off := BlockAtVisible(index);
      PlaceIsVisible(Contents(blocks), block.pos, off, index);
      r := Some(block.elems[off]);
    }

    /** visibleIDAt. */
    method VisibleIDAt(index: int) returns (r: Option<OpID>)
      requires Valid()
      modifies tree
      ensures Valid() && Order() == old(Order())
      ensures r == if 0 <= index < |Visible(Order())| then Some(Visible(Order())[index].id) else None
    {
      hide Flatten, UniqueIds, Visible, IndexOK, Distinct;
      var elem := VisibleAt(index);
      match elem
      case None => r := None;
      case Some(e) => r := Some(e.id);
    }

    // ---- edits ----

    /** New contents and count for one block. */
    method StoreBlock(bi: nat, elems: seq<Elem>, delta: int)
      requires bi < |blocks| && Distinct(blocks) && CountsExact(blocks) && PositionsExact(blocks)
      requires |Visible(elems)| == |Visible(blocks[bi].elems)| + delta
      modifies blocks[bi]
      ensures Contents(blocks) == old(Contents(blocks))[bi := elems]
      ensures CountsExact(blocks) && PositionsExact(blocks)
    {
      hide Visible;
      ghost var cols := Contents(blocks);
      OnlyBlock(blocks, bi);
      var block := blocks[bi];
      block.elems := elems;
      if delta != 0 {
        block.visible := block.visible + delta;
      }
      SetBlocks(blocks, cols, bi, elems);
    }

    /** The same, with the total and the tree kept in step. */
    method SetElems(bi: nat, elems: seq<Elem>, delta: int)
      requires Linked() && bi < |blocks|
      requires |Visible(elems)| == |Visible(blocks[bi].elems)| + delta
      modifies this`vis, tree, blocks[bi]
      ensures Contents(blocks) == old(Contents(blocks))[bi := elems]
      ensures CountsExact(blocks) && PositionsExact(blocks) && vis == old(vis) + delta
      ensures !tree.dirty ==> tree.Clean(VisCounts(Contents(blocks)))
    {
      hide Flatten, UniqueIds, Visible, IndexOK, Contains, Holds, VisCounts, CountsExact, PositionsExact, Distinct;
      ghost var cols := Contents(blocks);
      CountsUpdate(cols, bi, elems, delta);
      StoreBlock(bi, elems, delta);
      if delta != 0 {
        vis := vis + delta;
        tree.Add(bi, delta, VisCounts(cols));
      }
    }

    /** insertAt without the split. */
    method PutElem(bi: nat, off: nat, elem: Elem)
      requires Valid() && bi < |blocks| && off <= |blocks[bi].elems| && !Contains(Order(), elem.id)
      modifies this, tree, blocks[bi]
      ensures Linked() && blocks == old(blocks)
      ensures Contents(blocks) == old(Contents(blocks))[bi := old(blocks[bi].elems[..off] + [elem] + blocks[bi].elems[off..])]
      ensures var p := Offset(old(Contents(blocks)), bi) + off;
              p <= |old(Order())| && Order() == old(Order())[..p] + [elem] + old(Order())[p..]
    {
      hide Flatten, UniqueIds, Visible, IndexOK, Contains, Holds, CountsExact, PositionsExact;
      ghost var cols := Contents(blocks);
      InsertFacts(byID, blocks, cols, bi, off, elem);
      VisibleInsert(cols[bi], off, elem);
      SetElems(bi, blocks[bi].elems[..off] + [elem] + blocks[bi].elems[off..], if elem.deleted then 0 else 1);
      total := total + 1;
      byID := byID[elem.id := blocks[bi]];
    }

    /** Block positions from a place on. */
    method Renumber(start: nat)
      requires Distinct(blocks) && start <= |blocks|
      requires forall j :: 0 <= j < start ==> blocks[j].pos == j
      modifies blocks`pos
      ensures PositionsExact(blocks)
      ensures Contents(blocks) == old(Contents(blocks))
      ensures old(CountsExact(blocks)) ==> CountsExact(blocks)
    {
      hide Visible;
      for i := start to |blocks|
        invariant forall j :: 0 <= j < i ==> blocks[j].pos == j
      {
        blocks[i].pos := i;
      }
    }

    /** The upper half of a block, moved to a block of its own. */
    method CutBlock(bi: nat) returns (next: Block)
      requires bi < |blocks| && CountsExact(blocks)
      modifies this`byID, blocks[bi]
      ensures var elems := old(blocks[bi].elems); var cut := |elems| / 2;
              && blocks[bi].elems == elems[..cut] && next.elems == elems[cut..]
              && byID == Reindex(old(byID), elems[cut..], next)
      ensures fresh(next) && blocks[bi].pos == old(blocks[bi].pos)
      ensures blocks[bi].visible == |Visible(blocks[bi].elems)| && next.visible == |Visible(next.elems)|
    {
      hide Visible, Reindex;
      var block := blocks[bi];
      var cut := |block.elems| / 2;
      CutVisible(block.elems, cut);
      next := Load(block.elems[cut..]);
      block.elems := block.elems[..cut];
      block.visible := block.visible - next.visible;
    }

    /** The two halves of a block in the block list. */
    method Halve(bi: nat)
      requires Linked() && bi < |blocks|
      modifies this`byID, this`blocks, blocks[bi]
      ensures |blocks| == |old(blocks)| + 1 && fresh(blocks[bi + 1])
      ensures blocks == SplitBlocks(old(blocks), bi, blocks[bi + 1]) && Distinct(blocks)
      ensures Contents(blocks) == SplitCols(old(Contents(blocks)), bi, |old(blocks[bi].elems)| / 2)
      ensures CountsExact(blocks) && IndexOK(byID, blocks, Contents(blocks)) && Order() == old(Order())
      ensures forall j :: 0 <= j <= bi ==> blocks[j].pos == j
    {
      hide Flatten, UniqueIds, Visible, IndexOK, Contains, Holds, VisCounts, Reindex;
      ghost var cols, theirs, these := Contents(blocks), byID, blocks;
      ghost var cut := |blocks[bi].elems| / 2;
      var next := CutBlock(bi);
      SplitFacts(theirs, these, cols, bi, cut, next);
      HalvedBlocks(these, cols, bi, cut, next);
      hide Distinct, SplitBlocks, SplitCols, CountsExact;
      blocks := SplitBlocks(blocks, bi, next);
    }

    /** split. */
    method Split(bi: nat)
      requires Linked() && bi < |blocks|
      requires forall i :: 0 <= i < |blocks| ==> |blocks[i].elems| < BLOCK_MAX || (i == bi && |blocks[i].elems| == BLOCK_MAX)
      modifies this, tree, blocks
      ensures Valid() && Order() == old(Order())
      ensures |blocks| == |old(blocks)| + 1 && fresh(blocks[bi + 1])
      ensures blocks == SplitBlocks(old(blocks), bi, blocks[bi + 1])
    {
      hide Flatten, UniqueIds, Visible, IndexOK, Contains, Holds, VisCounts, CountsExact, PositionsExact, Distinct, SplitBlocks;
      SplitSizes(Contents(blocks), bi);
      Halve(bi);
      SplitMembers(old(blocks), bi, blocks[bi + 1], blocks);
      Renumber(bi + 1);
      tree.dirty := true;
    }

    /** insertAt. */
    method InsertAt(bi: nat, off: nat, elem: Elem)
      requires Valid() && bi < |blocks| && off <= |blocks[bi].elems| && !Contains(Order(), elem.id)
      modifies this, tree, blocks
      ensures Valid() && forall b :: b in blocks ==> b in old(blocks) || fresh(b)
      ensures var p := Offset(old(Contents(blocks)), bi) + off;
              p <= |old(Order())| && Order() == old(Order())[..p] + [elem] + old(Order())[p..]
    {
      hide Flatten, UniqueIds, Visible, IndexOK, Contains, Holds, VisCounts, CountsExact, PositionsExact, Distinct;
      PutElem(bi, off, elem);
      if |blocks[bi].elems| >= BLOCK_MAX {
        Split(bi);
      }
    }

    /** append. */
    method Append(elem: Elem)
      requires Valid() && !Contains(Order(), elem.id)
      modifies this, tree, blocks
      ensures Valid() && forall b :: b in blocks ==> b in old(blocks) || fresh(b)
      ensures Order() == old(Order()) + [elem]
    {
      hide Flatten, UniqueIds, Visible, IndexOK, Contains, Holds, VisCounts, CountsExact, PositionsExact, Distinct;
      var bi := |blocks| - 1;
      OffsetNext(Contents(blocks), bi);
      OffsetEnd(Contents(blocks));
      InsertAt(bi, |blocks[bi].elems|, elem);
    }

    /** The place behind a reference; the end when it is unknown. */
    method StartPlace(after: Option<OpID>) returns (bi: nat, off: nat)
      requires Valid()
      ensures bi < |blocks| && off <= |blocks[bi].elems|
      ensures Offset(Contents(blocks), bi) + off
                == if after.None? then 0 else if Contains(Order(), after.value) then IndexOf(Order(), after.value) + 1
                   else |Order()|
    {
      hide Flatten, UniqueIds, Visible, IndexOK, Holds, VisCounts, CountsExact, PositionsExact, Distinct, Contains;
      ghost var cols := Contents(blocks);
      bi, off := 0, 0;
      StartOffset(cols);
      if after.Some? {
        var block, o, ok := Locate(after.value);
        if ok {
          bi, off := block.pos, o + 1;
        } else {
          bi := |blocks| - 1;
          off := |blocks[bi].elems|;
          OffsetNext(cols, bi);
          OffsetEnd(cols);
        }
      }
    }

    /** The step over larger identities, across block borders. */
    method SkipLarger(bi0: nat, off0: nat, id: OpID) returns (bi: nat, off: nat)
      requires Valid() && bi0 < |blocks| && off0 <= |blocks[bi0].elems|
      ensures bi < |blocks| && off <= |blocks[bi].elems|
      ensures Offset(Contents(blocks), bi0) + off0 <= |Order()|
      ensures Offset(Contents(blocks), bi) + off == SkipGreater(Order(), Offset(Contents(blocks), bi0) + off0, id)
    {
      hide Flatten, Valid, OpID.Less;
      ghost var cols := Contents(blocks);
      ghost var order := Order();
      bi, off := bi0, off0;
      OffsetNext(cols, bi);
      ghost var start := Offset(cols, bi) + off;
      while true
        invariant bi < |blocks| && off <= |cols[bi]|
        invariant Offset(cols, bi) + off <= |order|
        invariant SkipGreater(order, start, id) == SkipGreater(order, Offset(cols, bi) + off, id)
        decreases |blocks| - bi, |cols[bi]| - off
      {
        OffsetNext(cols, bi);
        if off >= |blocks[bi].elems| {
          if bi + 1 >= |blocks| {
            OffsetEnd(cols);
            break;
          }
          bi := bi + 1;
          off := 0;
          OffsetNext(cols, bi);
          continue;
        }
        FlattenAt(cols, bi, off);
        if blocks[bi].elems[off].id.Greater(id) {
          off := off + 1;
          continue;
        }
        break;
      }
    }

    /** insertAfter. */
    method InsertAfterRef(after: Option<OpID>, elem: Elem)
      requires Valid() && !Contains(Order(), elem.id)
      modifies this, tree, blocks
      ensures Valid() && forall b :: b in blocks ==> b in old(blocks) || fresh(b)
      ensures Order() == InsertAfter(old(Order()), after, elem)
    {
      hide *;
      ghost var order := Order();
      var bi, off := StartPlace(after);
      bi, off := SkipLarger(bi, off, elem.id);
      PlacedAfter(order, after, elem, Offset(Contents(blocks), bi) + off);
      InsertAt(bi, off, elem);
    }

    /** setVisibility: the stored element, if there is one. */
    method SetElementVisibility(id: OpID, deleted: bool, visId: OpID) returns (r: Option<Elem>)
      requires Valid()
      modifies this`vis, tree, blocks
      ensures Valid() && blocks == old(blocks)
      ensures Order() == SetVisibility(old(Order()), id, deleted, visId)
      ensures r == if Contains(Order(), id) then Some(Order()[IndexOf(Order(), id)]) else None
    {
      hide Flatten, UniqueIds, Visible, Valid, OpID.Less;
      var block, off, ok := Locate(id);
      if !ok {
        return None;
      }
      FlattenAt(Contents(blocks), block.pos, off);
      var elem := block.elems[off];
      var current := if elem.visId.actor == [] then elem.id else elem.visId;
      if !visId.Greater(current) {
        SameOrder(Order(), IndexOf(Order(), id));
        return Some(elem);
      }
      var next := elem.(deleted := deleted, visId := visId);
      ReplaceElem(block.pos, off, next);
      r := Some(next);
    }

    /** One element takes another state. */
    method ReplaceElem(bi: nat, off: nat, next: Elem)
      requires Valid() && bi < |blocks| && off < |blocks[bi].elems| && blocks[bi].elems[off].id == next.id
      modifies this`vis, tree, blocks[bi]
      ensures Valid()
      ensures var p := IndexOf(old(Order()), next.id);
              && 0 <= p < |old(Order())| && Order() == old(Order())[p := next]
              && IndexOf(Order(), next.id) == p
    {
      hide Flatten, UniqueIds, Visible, IndexOK, Holds, VisCounts, CountsExact, PositionsExact;
      var block := blocks[bi];
      var was := block.elems[off].deleted;
      VisibilityFacts(byID, blocks, Contents(blocks), bi, off, next);
      UpdateSize(Contents(blocks), bi, off, next);
      SetElems(bi, block.elems[off := next], if was == next.deleted then 0 else if next.deleted then -1 else 1);
    }

    /** collectVisibleRange. */
    method CollectVisibleRange(index: int, count: int) returns (ids: seq<OpID>, ok: bool)
      requires Valid()
      modifies tree
      ensures Valid() && Order() == old(Order())
      ensures ok <==> count <= 0 || 0 <= index <= |Visible(Order())| - count
      ensures ids == if ok && count > 0 then Documents.Ids(Visible(Order())[index..index + count]) else []
    {
      hide Flatten, UniqueIds, Visible, IndexOK, Distinct;
      if count <= 0 {
        return [], true;
      }
      if index < 0 || index + count > vis {
        return [], false;
      }
      var block, off := BlockAtVisible(index);
      ghost var want := Documents.Ids(Visible(Order())[index..index + count]);
      CollectStart(Contents(blocks), block.pos, off, index, count);
      ids := CollectFrom(block.pos, off, count, want);
      ok := true;
    }

    /** The outer loop of collectVisibleRange. */
    method CollectFrom(start: nat, offset: nat, count: nat, ghost want: seq<OpID>) returns (ids: seq<OpID>)
      requires count > 0 && Remains(Contents(blocks), start, offset, count, [], want)
      ensures ids == want
    {
      hide *;
      ghost var cols := Contents(blocks);
      var bi: nat, off: nat, left: nat := start, offset, count;
      ids := [];
      while left > 0
        invariant |cols| == |blocks| && forall i :: 0 <= i < |cols| ==> cols[i] == blocks[i].elems
        invariant Remains(cols, bi, off, left, ids, want)
        invariant left == 0 ==> ids == want
        decreases |blocks| - bi, left
      {
        RemainsBounds(cols, bi, off, left, ids, want);
        var taken := TakeVisible(blocks[bi].elems, off, left);
        CollectStep(cols, bi, off, left, taken, ids, want);
        ids := ids + taken;
        left := left - |taken|;
        if left == 0 {
          return;
        }
        bi := bi + 1;
        off := 0;
      }
    }

    /** visibleText. */
    method VisibleString() returns (text: Str)
      requires Valid()
      ensures text == VisibleText(Order())
    {
      hide UniqueIds, Visible, IndexOK, Distinct, VisibleText;
      ghost var cols := Contents(blocks);
      text := [];
      NoText([]);
      for i := 0 to |blocks|
        invariant text == VisibleText(Flatten(cols[..i]))
      {
        FlattenAround(cols, i);
        TextConcat(Flatten(cols[..i]), cols[i]);
        if blocks[i].visible == 0 {
          NoText(cols[i]);
          continue;
        }
        var piece := BlockText(blocks[i].elems);
        text := text + piece;
      }
      assert cols[..|cols|] == cols;
    }

    /** elems. */
    method Elems() returns (out: seq<Elem>)
      requires Valid()
      ensures out == Order()
    {
      hide UniqueIds, Visible, IndexOK, Distinct;
      ghost var cols := Contents(blocks);
      out := [];
      for i := 0 to |blocks|
        invariant out == Flatten(cols[..i])
      {
        out := out + blocks[i].elems;
        assert cols[..i + 1][..i] == cols[..i];
      }
      assert cols[..|cols|] == cols;
    }
  }

  /** Behind the reference and past the larger identities is where the flat list inserts. */
  lemma PlacedAfter(s: seq<Elem>, after: Option<OpID>, e: Elem, p: nat)
    requires var start := if after.None? then 0
                          else if Contains(s, after.value) then IndexOf(s, after.value) + 1 else |s|;
             p == SkipGreater(s, start, e.id)
    ensures InsertAfter(s, after, e) == s[..p] + [e] + s[p..]
  {
    hide SkipGreater, Contains;
  }

  lemma NoText(s: seq<Elem>)
    requires |Visible(s)| == 0
    ensures VisibleText(s) == []
  {
  }

  /** ids and the next left visible elements from element off of block i on make up want. */
  ghost predicate Remains(cols: Cols, i: nat, off: nat, left: nat, ids: seq<OpID>, want: seq<OpID>) {
    && i < |cols| && off <= |cols[i]|
    && var rest := Visible(cols[i][off..] + Flatten(cols[i + 1..]));
       left <= |rest| && ids + Documents.Ids(rest[..left]) == want
  }

  lemma RemainsBounds(cols: Cols, i: nat, off: nat, left: nat, ids: seq<OpID>, want: seq<OpID>)
    requires Remains(cols, i, off, left, ids, want)
    ensures i < |cols| && off <= |cols[i]|
  {
  }

  lemma CollectStart(cols: Cols, i: nat, off: nat, index: nat, count: nat)
    requires i < |cols| && VisiblePlace(cols, i, off, index) && index + count <= |Visible(Flatten(cols))|
    ensures var want := Documents.Ids(Visible(Flatten(cols))[index..index + count]);
            Remains(cols, i, off, count, [], want)
  {
    hide Flatten, Visible;
    var p := Offset(cols, i) + off;
    var all := Flatten(cols);
    RestOfOrder(cols, i, off);
    assert all == all[..p] + all[p..];
    TextSplice.VisibleConcat(all[..p], all[p..]);
    assert Visible(all[p..])[..count] == Visible(all)[index..index + count];
  }

  /** One block of a collection: either it is enough or all of it is taken. */
  lemma CollectStep(cols: Cols, i: nat, off: nat, left: nat, taken: seq<OpID>, ids: seq<OpID>, want: seq<OpID>)
    requires Remains(cols, i, off, left, ids, want) && left > 0
    requires var v := Visible(cols[i][off..]); taken == Documents.Ids(v[..if left < |v| then left else |v|])
    ensures |taken| <= left
    ensures |taken| == left ==> ids + taken == want
    ensures |taken| < left ==> Remains(cols, i + 1, 0, left - |taken|, ids + taken, want)
  {
    hide Flatten, Visible;
    var a, b := Visible(cols[i][off..]), Visible(Flatten(cols[i + 1..]));
    TextSplice.VisibleConcat(cols[i][off..], Flatten(cols[i + 1..]));
    if |taken| < left {
      assert |a| < left;
      if i + 1 == |cols| {
        VisibleEmpty(cols[i + 1..]);
      } else {
        NextRest(cols, i);
      }
      assert (a + b)[..left] == a + b[..left - |a|];
      assert ids + Documents.Ids(a + b[..left - |a|]) == ids + taken + Documents.Ids(b[..left - |a|]);
    } else {
      assert (a + b)[..left] == a[..left];
    }
  }

  lemma VisibleEmpty(cols: Cols)
    requires cols == []
    ensures Visible(Flatten(cols)) == []
  {
  }

  lemma NextRest(cols: Cols, i: nat)
    requires i + 1 < |cols|
    ensures Flatten(cols[i + 1..]) == cols[i + 1][0..] + Flatten(cols[i + 2..])
  {
    assert cols[i + 1..] == [cols[i + 1]] + cols[i + 2..];
    FlattenConcat([cols[i + 1]], cols[i + 2..]);
    FlattenOne(cols[i + 1]);
  }

  /** All that a split must establish, as plain values. */
  lemma SplitFacts(byID: map<OpID, Block>, blocks: seq<Block>, cols: Cols, i: nat, cut: nat, next: Block)
    requires IndexOK(byID, blocks, cols) && UniqueIds(Flatten(cols)) && Distinct(blocks)
    requires i < |cols| == |blocks| && cut <= |cols[i]| && next !in blocks
    ensures IndexOK(Reindex(byID, cols[i][cut..], next), SplitBlocks(blocks, i, next), SplitCols(cols, i, cut))
    ensures Flatten(SplitCols(cols, i, cut)) == Flatten(cols)
    ensures Distinct(SplitBlocks(blocks, i, next))
    ensures |Visible(cols[i])| == |Visible(cols[i][..cut])| + |Visible(cols[i][cut..])|
  {
    hide IndexOK, Flatten, Visible, Reindex, UniqueIds;
    IndexSplit(byID, blocks, cols, i, cut, next);
    SplitKeepsOrder(cols, i, cut);
    assert cols[i] == cols[i][..cut] + cols[i][cut..];
    TextSplice.VisibleConcat(cols[i][..cut], cols[i][cut..]);
    SplitDistinct(blocks, i, next);
  }

  lemma StartOffset(cols: Cols)
    ensures Offset(cols, 0) == 0
  {
  }

  lemma SameOrder(s: seq<Elem>, k: nat)
    requires k < |s|
    ensures s[k := s[k]] == s
  {
  }

  lemma VisibleUpdate(s: seq<Elem>, k: nat, e: Elem)
    requires k < |s|
    ensures |Visible(s[k := e])| + (if s[k].deleted then 0 else 1) == |Visible(s)| + (if e.deleted then 0 else 1)
  {
    assert s == s[..k] + [s[k]] + s[k + 1..];
    assert s[k := e] == s[..k] + [e] + s[k + 1..];
    TextSplice.VisibleConcat(s[..k] + [s[k]], s[k + 1..]);
    TextSplice.VisibleConcat(s[..k], [s[k]]);
    TextSplice.VisibleConcat(s[..k] + [e], s[k + 1..]);
    TextSplice.VisibleConcat(s[..k], [e]);
    assert [e][..0] == [] && [s[k]][..0] == [];
  }

  /** All that a visibility change must establish, as plain values. */
  lemma VisibilityFacts(byID: map<OpID, Block>, blocks: seq<Block>, cols: Cols, i: nat, k: nat, e: Elem)
    requires IndexOK(byID, blocks, cols) && UniqueIds(Flatten(cols))
    requires i < |cols| && k < |cols[i]| && e.id == cols[i][k].id
    ensures var cols': Cols := cols[i := cols[i][k := e]]; var p := Offset(cols, i) + k;
            && p < |Flatten(cols)| && Flatten(cols') == Flatten(cols)[p := e]
            && IndexOK(byID, blocks, cols') && UniqueIds(Flatten(cols'))
            && p == IndexOf(Flatten(cols), e.id) == IndexOf(Flatten(cols'), e.id)
            && |Visible(Flatten(cols'))| - |Visible(Flatten(cols))|
                 == |Visible(cols[i][k := e])| - |Visible(cols[i])|
    ensures |Visible(cols[i][k := e])| + (if cols[i][k].deleted then 0 else 1)
              == |Visible(cols[i])| + (if e.deleted then 0 else 1)
  {
    hide Flatten, IndexOK, Visible;
    var p := Offset(cols, i) + k;
    FlattenAt(cols, i, k);
    UpdateColumn(cols, i, k, e);
    IndexUpdate(byID, blocks, cols, i, k, e);
    VisibleUpdate(cols[i], k, e);
    VisibleUpdate(Flatten(cols), p, e);
    IndexOfUnique(Flatten(cols), p);
    IndexOfUnique(Flatten(cols)[p := e], p);
  }

  lemma CutVisible(s: seq<Elem>, cut: nat)
    requires cut <= |s|
    ensures |Visible(s)| == |Visible(s[..cut])| + |Visible(s[cut..])|
  {
    assert s == s[..cut] + s[cut..];
    TextSplice.VisibleConcat(s[..cut], s[cut..]);
  }

  /** The block list after a block was cut: contents, counts and positions. */
  lemma HalvedBlocks(blocks: seq<Block>, cols: Cols, i: nat, cut: nat, next: Block)
    requires i < |blocks| == |cols| && cut <= |cols[i]| && Distinct(blocks) && next !in blocks
    requires forall j :: 0 <= j < |blocks| ==>
               && blocks[j].visible == |Visible(blocks[j].elems)| && blocks[j].pos == j
               && blocks[j].elems == if j == i then cols[i][..cut] else cols[j]
    requires next.elems == cols[i][cut..] && next.visible == |Visible(next.elems)|
    ensures var s := SplitBlocks(blocks, i, next);
            && |s| == |blocks| + 1 && s[i + 1] == next
            && CountsExact(s) && Contents(s) == SplitCols(cols, i, cut)
            && forall j :: 0 <= j <= i ==> s[j].pos == j
  {
    hide Visible;
    SplitDistinct(blocks, i, next);
    hide Distinct;
    var s := SplitBlocks(blocks, i, next);
    forall j | 0 <= j < |s| ensures s[j].visible == |Visible(s[j].elems)| {
      var m := if j <= i then j else j - 1;
      assert s[j] == if j == i + 1 then next else blocks[m];
    }
    assert Contents(s) == SplitCols(cols, i, cut);
  }

  lemma UpdateSize(cols: Cols, i: nat, k: nat, e: Elem)
    requires i < |cols| && k < |cols[i]| && SizesOK(cols)
    ensures SizesOK(cols[i := cols[i][k := e]])
  {
  }

  lemma CountsUpdate(cols: Cols, i: nat, col: seq<Elem>, delta: int)
    requires i < |cols| && |Visible(col)| == |Visible(cols[i])| + delta
    ensures var counts := VisCounts(cols);
            && VisCounts(cols[i := col]) == counts[i := counts[i] + delta]
            && (delta == 0 ==> VisCounts(cols[i := col]) == counts)
  {
    hide Visible;
    assert VisCounts(cols[i := col]) == VisCounts(cols)[i := VisCounts(cols)[i] + delta];
  }

  /** The block list with a loaded block at its end. */
  lemma OneMoreBlock(blocks: seq<Block>, cols: Cols, block: Block)
    requires Distinct(blocks) && CountsExact(blocks) && PositionsExact(blocks) && SizesOK(cols)
    requires Contents(blocks) == cols && block !in blocks
    requires block.visible == |Visible(block.elems)| && block.pos == |blocks| && |block.elems| < BLOCK_MAX
    ensures var s := blocks + [block];
            && Distinct(s) && CountsExact(s) && PositionsExact(s)
            && Contents(s) == cols + [block.elems] && SizesOK(Contents(s))
  {
    hide Visible;
    assert Contents(blocks + [block]) == cols + [block.elems];
  }

  /** The block list after one block has new contents. */
  lemma SetBlocks(blocks: seq<Block>, cols: Cols, i: nat, elems: seq<Elem>)
    requires i < |blocks| == |cols|
    requires forall j :: 0 <= j < |blocks| ==>
               && blocks[j].visible == |Visible(blocks[j].elems)| && blocks[j].pos == j
               && blocks[j].elems == if j == i then elems else cols[j]
    ensures CountsExact(blocks) && PositionsExact(blocks) && Contents(blocks) == cols[i := elems]
  {
    hide Visible;
    assert Contents(blocks) == cols[i := elems];
  }

  lemma SplitMembers(blocks: seq<Block>, i: nat, next: Block, s: seq<Block>)
    requires i < |blocks| && s == SplitBlocks(blocks, i, next)
    ensures forall j :: 0 <= j < |s| ==> s[j] == next || s[j] in blocks
  {
  }

  lemma SplitSizes(cols: Cols, i: nat)
    requires i < |cols|
    requires forall j :: 0 <= j < |cols| ==> |cols[j]| < BLOCK_MAX || (j == i && |cols[j]| == BLOCK_MAX)
    ensures SizesOK(SplitCols(cols, i, |cols[i]| / 2))
  {
    var s: Cols := SplitCols(cols, i, |cols[i]| / 2);
    forall j | 0 <= j < |s| ensures |s[j]| < BLOCK_MAX {
      if j < i { assert s[j] == cols[j]; } else if j > i + 1 { assert s[j] == cols[j - 1]; }
    }
  }

  lemma SplitDistinct(blocks: seq<Block>, i: nat, next: Block)
    requires Distinct(blocks) && i < |blocks| && next !in blocks
    ensures Distinct(SplitBlocks(blocks, i, next))
    ensures forall j :: 0 <= j <= |blocks| ==>
              SplitBlocks(blocks, i, next)[j] == if j <= i then blocks[j] else if j == i + 1 then next else blocks[j - 1]
  {
    var s := SplitBlocks(blocks, i, next);
    forall a, b | 0 <= a < b < |s| ensures s[a] != s[b] {
      var a0, b0 := if a <= i then a else a - 1, if b <= i then b else b - 1;
      assert a != i + 1 ==> s[a] == blocks[a0];
      assert b != i + 1 ==> s[b] == blocks[b0];
      assert s[i + 1] == next;
    }
  }

  lemma OnlyBlock(blocks: seq<Block>, i: nat)
    requires Distinct(blocks) && i < |blocks|
    ensures forall j :: 0 <= j < |blocks| && j != i ==> blocks[j] != blocks[i]
  {
  }

  lemma VisibleInsert(s: seq<Elem>, k: nat, e: Elem)
    requires k <= |s|
    ensures |Visible(s[..k] + [e] + s[k..])| == |Visible(s)| + if e.deleted then 0 else 1
  {
    TextSplice.VisibleConcat(s[..k] + [e], s[k..]);
    TextSplice.VisibleConcat(s[..k], [e]);
    TextSplice.VisibleConcat(s[..k], s[k..]);
    assert s == s[..k] + s[k..];
    assert [e][..0] == [];
  }

  /** All that an insert into block i must establish, as plain values. */
  lemma InsertFacts(byID: map<OpID, Block>, blocks: seq<Block>, cols: Cols, i: nat, k: nat, e: Elem)
    requires IndexOK(byID, blocks, cols) && UniqueIds(Flatten(cols))
    requires i < |cols| && k <= |cols[i]| && !Contains(Flatten(cols), e.id)
    ensures var cols': Cols := cols[i := cols[i][..k] + [e] + cols[i][k..]]; var p := Offset(cols, i) + k;
            && p <= |Flatten(cols)|
            && Flatten(cols') == Flatten(cols)[..p] + [e] + Flatten(cols)[p..]
            && IndexOK(byID[e.id := blocks[i]], blocks, cols')
            && UniqueIds(Flatten(cols'))
            && |Visible(Flatten(cols'))| == |Visible(Flatten(cols))| + if e.deleted then 0 else 1
  {
    hide Flatten, IndexOK, Visible, Contains;
    Lookup(byID, blocks, cols, e.id);
    InsertColumn(cols, i, k, e);
    IndexInsert(byID, blocks, cols, i, k, e);
    VisibleInsert(Flatten(cols), Offset(cols, i) + k, e);
    InsertUnique(Flatten(cols), Offset(cols, i) + k, e);
  }

  lemma InsertUnique(s: seq<Elem>, p: nat, e: Elem)
    requires p <= |s| && UniqueIds(s) && !Contains(s, e.id)
    ensures UniqueIds(s[..p] + [e] + s[p..])
  {
    InsertKeepsUnique(s, s[..p] + [e] + s[p..], p, e);
  }

  /** Element off of block i is the index-th visible element. */
  ghost predicate VisiblePlace(cols: Cols, i: nat, off: nat, index: nat)
    requires i < |cols|
  {
    && off < |cols[i]| && Offset(cols, i) + off < |Flatten(cols)|
    && |Visible(Flatten(cols)[..Offset(cols, i) + off])| == index
  }

  lemma PlaceIsVisible(cols: Cols, i: nat, off: nat, index: nat)
    requires i < |cols| && VisiblePlace(cols, i, off, index) && !cols[i][off].deleted
    ensures index < |Visible(Flatten(cols))| && Visible(Flatten(cols))[index] == cols[i][off]
  {
    hide Flatten, Visible;
    FlattenAt(cols, i, off);
    TextSplice.VisibleAround(Flatten(cols), Offset(cols, i) + off);
  }

  lemma PresentSomewhere(s: seq<Elem>, id: OpID)
    requires Contains(s, id)
    ensures exists k :: 0 <= k < |s| && s[k].id == id
  {
  }

  lemma PlaceInOrder(cols: Cols, i: nat, off: nat)
    requires i < |cols| && off < |cols[i]| && UniqueIds(Flatten(cols))
    ensures Offset(cols, i) + off == IndexOf(Flatten(cols), cols[i][off].id)
  {
    hide Flatten;
    FlattenAt(cols, i, off);
    IndexOfUnique(Flatten(cols), Offset(cols, i) + off);
  }

  lemma VisibleStart(s: seq<Elem>)
    ensures Visible(s[..0]) == []
  {
  }

  lemma NextSum(counts: seq<int>, i: nat)
    requires i < |counts|
    ensures Sum(counts, 0, i + 1) == Sum(counts, 0, i) + counts[i]
  {
  }

  /** While visible elements remain, so do elements. */
  lemma EnoughLeft(s: seq<Elem>, off: nat)
    requires off <= |s|
    ensures |Visible(s[..off])| < |Visible(s)| ==> off < |s|
  {
    assert s[..|s|] == s;
  }

  lemma EmptyReset(elems: seq<Elem>, byID: map<OpID, Block>, blocks: seq<Block>)
    requires blocks == [] && byID == map[]
    ensures IndexOK(byID, blocks, []) && Flatten([]) == elems[..0] && Visible(elems[..0]) == []
  {
  }

  lemma VisibleNone(piece: seq<Elem>)
    ensures Visible(piece[..0]) == [] && forall byID: map<OpID, Block>, b :: Reindex(byID, piece[..0], b) == byID
  {
  }

  lemma EmptyBlock(byID: map<OpID, Block>, only: Block)
    requires IndexOK(byID, [], [])
    ensures IndexOK(byID, [only], [[]]) && Flatten([[]]) == [] && UniqueIds([]) && Visible([]) == []
  {
    FlattenOne([]);
    assert forall id :: id in byID ==> Placed(byID, [], [], id);
  }

  lemma ResetStep(before: map<OpID, Block>, blocks: seq<Block>, cols: Cols, elems: seq<Elem>, start: nat, end: nat, block: Block)
    requires IndexOK(before, blocks, cols) && UniqueIds(elems)
    requires start <= end <= |elems| && Flatten(cols) == elems[..start]
    ensures IndexOK(Reindex(before, elems[start..end], block), blocks + [block], cols + [elems[start..end]])
    ensures Flatten(cols + [elems[start..end]]) == elems[..end]
    ensures |Visible(elems[..end])| == |Visible(elems[..start])| + |Visible(elems[start..end])|
  {
    hide IndexOK;
    var piece := elems[start..end];
    assert elems[..end] == elems[..start] + piece;
    IndexAppend(before, blocks, cols, piece, block);
    FlattenConcat(cols, [piece]);
    FlattenOne(piece);
    TextSplice.VisibleConcat(elems[..start], piece);
  }
}
