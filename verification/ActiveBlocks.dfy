/** Which blocks of the live preview are shown as editable source. */
module ActiveBlocks {
  import opened Basics
  import opened BlockSplitter
  import opened BlockTiling

  predicate Within(p: nat, from: nat, to: nat) {
    from <= p < to
  }

  /** A block is active exactly if some position is both in its source and in the
      active range. */
  lemma ActiveExact(b: Block, active: Range)
    requires b.from < b.sourceTo && active.from < active.to
    ensures IsActive(b, active) <==>
      exists p: nat :: Within(p, b.from, b.sourceTo) && Within(p, active.from, active.to)
  {
    if IsActive(b, active) {
      var p := if b.from < active.from then active.from else b.from;
      assert Within(p, b.from, b.sourceTo) && Within(p, active.from, active.to);
    }
  }

  /** How block `i` appears among the pieces. */
  predicate Appears(pieces: seq<Piece>, b: Block, active: bool) {
    if active then Source(b.from, b.sourceTo) in pieces && (b.sourceTo < b.to ==> Hidden(b.sourceTo, b.to) in pieces)
    else Widget(b.from, b.to) in pieces
  }

  lemma {:induction false} EachAppears(blocks: seq<Block>, active: Range, i: nat)
    requires i < |blocks|
    ensures Appears(Pieces(blocks, active), blocks[i], IsActive(blocks[i], active))
    decreases |blocks|
  {
    var n := |blocks| - 1;
    var here := PiecesOf(blocks[n], active);
    if i < n {
      EachAppears(blocks[..n], active, i);
    } else if IsActive(blocks[n], active) {
      assert here[0] == Source(blocks[n].from, blocks[n].sourceTo);
      assert blocks[n].sourceTo < blocks[n].to ==> here[1] == Hidden(blocks[n].sourceTo, blocks[n].to);
    } else {
      assert here[0] == Widget(blocks[n].from, blocks[n].to);
    }
  }

  ghost predicate IsSourceOf(q: Piece, blocks: seq<Block>, active: Range) {
    exists i :: 0 <= i < |blocks| && IsActive(blocks[i], active) && q == Source(blocks[i].from, blocks[i].sourceTo)
  }

  lemma {:induction false} SourcesAreActive(blocks: seq<Block>, active: Range, q: Piece)
    requires q in Pieces(blocks, active) && q.Source?
    ensures IsSourceOf(q, blocks, active)
    decreases |blocks|
  {
    if blocks != [] {
      var n := |blocks| - 1;
      if q in Pieces(blocks[..n], active) {
        SourcesAreActive(blocks[..n], active, q);
        var i :| 0 <= i < n && IsActive(blocks[i], active) && q == Source(blocks[i].from, blocks[i].sourceTo);
        assert blocks[..n][i] == blocks[i];
      } else {
        assert q in PiecesOf(blocks[n], active);
        assert blocks[n] == blocks[|blocks| - 1] && IsActive(blocks[n], active);
      }
    }
  }

  lemma {:induction false} BlocksApart(blocks: seq<Block>, i: nat, k: nat)
    requires Abut(blocks) && i < k < |blocks|
    ensures blocks[i].to <= blocks[k].from
    decreases k
  {
    assert blocks[k - 1].to == blocks[k].from && blocks[k - 1].from < blocks[k - 1].sourceTo <= blocks[k - 1].to;
    if i < k - 1 {
      BlocksApart(blocks, i, k - 1);
    }
  }

  lemma ActiveAlone(blocks: seq<Block>, k: nat, i: nat)
    requires Abut(blocks) && k < |blocks| && i < |blocks|
    ensures IsActive(blocks[i], Range(blocks[k].from, blocks[k].sourceTo)) <==> i == k
  {
    assert blocks[i].from < blocks[i].sourceTo <= blocks[i].to;
    assert blocks[k].from < blocks[k].sourceTo <= blocks[k].to;
    if i < k {
      BlocksApart(blocks, i, k);
    } else if k < i {
      BlocksApart(blocks, k, i);
    }
  }

  /** When the active range is the source of one block, exactly this block is shown
      as source and every other one as a widget. */
  lemma OneBlockActive(content: string, k: nat)
    requires k < |Blocks(content)|
    ensures var blocks := Blocks(content); var b := blocks[k];
      var pieces := Shown(content, Some(Range(b.from, b.sourceTo)));
      && Source(b.from, b.sourceTo) in pieces
      && (forall q :: q in pieces && q.Source? ==> q == Source(b.from, b.sourceTo))
      && (forall i :: 0 <= i < |blocks| && i != k ==> Widget(blocks[i].from, blocks[i].to) in pieces)
  {
    var blocks := Blocks(content);
    var active := Range(blocks[k].from, blocks[k].sourceTo);
    BlocksTile(content);
    TilesAbut(blocks, content);
    forall i | 0 <= i < |blocks|
      ensures Appears(Pieces(blocks, active), blocks[i], i == k)
    {
      ActiveAlone(blocks, k, i);
      EachAppears(blocks, active, i);
    }
    assert Appears(Pieces(blocks, active), blocks[k], true);
    forall q | q in Pieces(blocks, active) && q.Source? ensures q == Source(blocks[k].from, blocks[k].sourceTo) {
      SourcesAreActive(blocks, active, q);
      var i :| 0 <= i < |blocks| && IsActive(blocks[i], active) && q == Source(blocks[i].from, blocks[i].sourceTo);
      ActiveAlone(blocks, k, i);
    }
    forall i | 0 <= i < |blocks| && i != k ensures Widget(blocks[i].from, blocks[i].to) in Pieces(blocks, active) {
      assert Appears(Pieces(blocks, active), blocks[i], false);
    }
  }
}
