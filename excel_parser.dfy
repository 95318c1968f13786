/** The pure half of `parse_from_excel` (app.py:218-237): the column's cells,
    already read as `(text, highlighted)` pairs, grouped into runs separated
    by empty cells, each run of three cells or more becoming a question. */
module ExcelParser {
  import opened TextUtil
  import opened QuizModel

  /** A cell of column A: its stripped text and whether it is filled solid
      yellow. A highlighted answer cell is a correct answer, so a cell has
      the shape of an answer. */
  type Cell = Answer

  const ShortBlockMessage := "Потрібно питання + ≥2 відповіді"

  /** The loop state of app.py:218-225: the closed blocks and the open one. */
  datatype Grouping = Grouping(blocks: seq<seq<Cell>>, current: seq<Cell>)

  /** One turn of the grouping loop: an empty cell closes the open block, if
      there is one; a non-empty cell joins it. */
  function Step(g: Grouping, cell: Cell): Grouping
  {
    if cell.text == [] && g.current != [] then Grouping(g.blocks + [g.current], [])
    else if cell.text != [] then Grouping(g.blocks, g.current + [cell])
    else g
  }

  /** The grouping loop run over `cells` from the state `g`. */
  function Fold(g: Grouping, cells: seq<Cell>): Grouping
  {
    if cells == [] then g else Step(Fold(g, cells[..|cells| - 1]), cells[|cells| - 1])
  }

  /** The blocks, the open one closed at the end (app.py:226-227). */
  function Close(g: Grouping): seq<seq<Cell>>
  {
    if g.current != [] then g.blocks + [g.current] else g.blocks
  }

  /** The blocks of a column. */
  function Group(cells: seq<Cell>): seq<seq<Cell>>
  {
    Close(Fold(Grouping([], []), cells))
  }

  /** The cells that hold text, in column order. */
  function Filled(cells: seq<Cell>): (r: seq<Cell>)
    ensures |r| <= |cells|
  {
    if cells == [] then []
    else Filled(cells[..|cells| - 1]) + (if cells[|cells| - 1].text != [] then [cells[|cells| - 1]] else [])
  }

  /** The cells of a list of blocks, one block after the other. */
  function Flatten(blocks: seq<seq<Cell>>): seq<Cell>
  {
    if blocks == [] then [] else Flatten(blocks[..|blocks| - 1]) + blocks[|blocks| - 1]
  }

  /** Every block is non-empty and holds only cells with text. */
  predicate Solid(blocks: seq<seq<Cell>>)
  {
    forall i :: 0 <= i < |blocks| ==> blocks[i] != [] && forall j :: 0 <= j < |blocks[i]| ==> blocks[i][j].text != []
  }

  /** What `blk` adds: an error when it lacks a question and two answers,
      else the question made of its first cell's text and the other cells. */
  function BlockQuestion(blk: seq<Cell>): Option<Question>
  {
    if |blk| < 3 then None else Some(Question(blk[0].text, blk[1..]))
  }

  /** The second loop of `parse_from_excel` (app.py:229-237) over `blocks`,
      numbered from 1: the questions and the errors. */
  function Build(blocks: seq<seq<Cell>>): (r: (seq<Question>, seq<BlockError>))
    ensures |r.0| + |r.1| == |blocks|
    ensures forall k :: 0 <= k < |r.0| ==> |r.0[k].answers| >= 2
    ensures forall k :: 0 <= k < |r.1| ==>
      1 <= r.1[k].block <= |blocks| && |blocks[r.1[k].block - 1]| < 3 && r.1[k].message == ShortBlockMessage
  {
    if blocks == [] then ([], [])
    else
      var n := |blocks| - 1;
      var before := Build(blocks[..n]);
      match BlockQuestion(blocks[n])
      case None => (before.0, before.1 + [BlockError(n + 1, ShortBlockMessage)])
      case Some(q) => (before.0 + [q], before.1)
  }

  /** What `parse_from_excel` returns for a column read as `cells`. */
  function ParseCells(cells: seq<Cell>): (seq<Question>, seq<BlockError>)
  {
    Build(Group(cells))
  }

  // ---------------------------------------------------------------------
  // The loops as the source runs them

  /** The grouping loop of app.py:218-227. */
  method GroupCells(cells: seq<Cell>) returns (blocks: seq<seq<Cell>>)
    ensures blocks == Group(cells)
  {
    blocks := [];
    var current: seq<Cell> := [];
    for i := 0 to |cells|
      invariant Grouping(blocks, current) == Fold(Grouping([], []), cells[..i])
    {
      assert cells[..i + 1][..i] == cells[..i];
      var cell := cells[i];
      if cell.text == [] && current != [] {
        blocks := blocks + [current];
        current := [];
      } else if cell.text != [] {
        current := current + [cell];
      }
    }
    assert cells[..|cells|] == cells;
    if current != [] {
      blocks := blocks + [current];
    }
  }

  /** `parse_from_excel` from app.py:218 on: groups the cells, then turns
      each block into a question or an error. */
  method ParseFromCells(cells: seq<Cell>) returns (questions: seq<Question>, errors: seq<BlockError>)
    ensures (questions, errors) == ParseCells(cells)
  {
    var blocks := GroupCells(cells);
    questions, errors := [], [];
    for idx := 1 to |blocks| + 1
      invariant (questions, errors) == Build(blocks[..idx - 1])
    {
      var blk := blocks[idx - 1];
      assert blocks[..idx][..idx - 1] == blocks[..idx - 1];
      if |blk| < 3 {
        errors := errors + [BlockError(idx, ShortBlockMessage)];
        continue;
      }
      questions := questions + [Question(blk[0].text, blk[1..])];
    }
    assert blocks[..|blocks|] == blocks;
  }

  // ---------------------------------------------------------------------
  // Properties of the grouping

  /** Running the loop over two runs of cells is running it over the first,
      then over the second from where it stopped. */
  lemma {:induction false} FoldAppend(g: Grouping, x: seq<Cell>, y: seq<Cell>)
    ensures Fold(g, x + y) == Fold(Fold(g, x), y)
    decreases |y|
  {
    if y == [] {
      assert x + y == x;
    } else {
      assert (x + y)[..|x + y| - 1] == x + y[..|y| - 1];
      FoldAppend(g, x, y[..|y| - 1]);
    }
  }

  /** From a state with no open block, the loop only adds the blocks it
      would have found from the start. */
  lemma {:induction false} FoldFromClosed(g: Grouping, cells: seq<Cell>)
    requires g.current == []
    ensures Fold(g, cells)
      == Grouping(g.blocks + Fold(Grouping([], []), cells).blocks, Fold(Grouping([], []), cells).current)
    decreases |cells|
  {
    if cells == [] {
      assert g.blocks + [] == g.blocks;
    } else {
      var init := cells[..|cells| - 1];
      FoldFromClosed(g, init);
      var f := Fold(Grouping([], []), init);
      AppendAssoc(g.blocks, f.blocks, [f.current]);
    }
  }

  /** An empty cell separates: the blocks on either side of it are grouped
      independently, so no block spans an empty cell. */
  lemma GroupSplit(a: seq<Cell>, e: Cell, b: seq<Cell>)
    requires e.text == []
    ensures Group(a + [e] + b) == Group(a) + Group(b)
  {
    var g0 := Grouping([], []);
    FoldAppend(g0, a + [e], b);
    FoldAppend(g0, a, [e]);
    assert [e][..0] == [];
    var closed := Fold(g0, a + [e]);
    assert closed == Grouping(Group(a), []);
    FoldFromClosed(closed, b);
    var fb := Fold(g0, b);
    if fb.current != [] {
      AppendAssoc(Group(a), fb.blocks, [fb.current]);
    }
  }

  /** A run of cells that all hold text is a single block, so blocks are
      maximal. */
  lemma GroupRun(run: seq<Cell>)
    requires run != [] && forall j :: 0 <= j < |run| ==> run[j].text != []
    ensures Group(run) == [run]
  {
    FoldRun(run);
  }

  lemma {:induction false} FoldRun(run: seq<Cell>)
    requires forall j :: 0 <= j < |run| ==> run[j].text != []
    ensures Fold(Grouping([], []), run) == Grouping([], run)
    decreases |run|
  {
    if run != [] {
      FoldRun(run[..|run| - 1]);
      assert run[..|run| - 1] + [run[|run| - 1]] == run;
    }
  }

  /** The loop state keeps every cell with text, in order, and only those. */
  lemma {:induction false} FoldKeepsFilled(cells: seq<Cell>)
    ensures Flatten(Fold(Grouping([], []), cells).blocks) + Fold(Grouping([], []), cells).current == Filled(cells)
    decreases |cells|
  {
    if cells != [] {
      var init := cells[..|cells| - 1];
      var cell := cells[|cells| - 1];
      FoldKeepsFilled(init);
      var g := Fold(Grouping([], []), init);
      assert Fold(Grouping([], []), cells) == Step(g, cell);
      if cell.text == [] && g.current != [] {
        assert (g.blocks + [g.current])[..|g.blocks|] == g.blocks;
        assert Flatten(g.blocks + [g.current]) == Flatten(g.blocks) + g.current;
        assert Filled(cells) == Filled(init) + [];
      } else if cell.text != [] {
        AppendAssoc(Flatten(g.blocks), g.current, [cell]);
        assert Filled(cells) == Filled(init) + [cell];
      } else {
        assert Filled(cells) == Filled(init) + [];
      }
    }
  }

  /** Every block the loop closes is non-empty and holds only cells with text,
      and so does the open one. */
  lemma {:induction false} FoldSolid(cells: seq<Cell>)
    ensures Solid(Fold(Grouping([], []), cells).blocks)
    ensures forall j :: 0 <= j < |Fold(Grouping([], []), cells).current| ==> Fold(Grouping([], []), cells).current[j].text != []
    decreases |cells|
  {
    if cells != [] {
      FoldSolid(cells[..|cells| - 1]);
    }
  }

  /** The blocks hold every cell with text, in column order, and nothing
      else; every block is non-empty and holds no empty cell. */
  lemma GroupKeepsFilled(cells: seq<Cell>)
    ensures Flatten(Group(cells)) == Filled(cells)
    ensures Solid(Group(cells))
  {
    FoldKeepsFilled(cells);
    FoldSolid(cells);
    var g := Fold(Grouping([], []), cells);
    if g.current != [] {
      var bs := g.blocks + [g.current];
      assert Group(cells) == bs;
      assert bs[..|g.blocks|] == g.blocks;
      assert Flatten(bs) == Flatten(g.blocks) + g.current;
      forall i | 0 <= i < |bs|
        ensures bs[i] != [] && forall j :: 0 <= j < |bs[i]| ==> bs[i][j].text != []
      {
        if i < |g.blocks| {
          assert bs[i] == g.blocks[i];
        } else {
          assert bs[i] == g.current;
        }
      }
    } else {
      assert Group(cells) == g.blocks;
      assert Flatten(g.blocks) + [] == Flatten(g.blocks);
    }
  }

  /** Each block is accounted for: a short one by its error, any other by the
      question made of its first cell and the remaining cells, whose
      highlight flags are the answers' correctness. */
  lemma {:induction false} BuildCovers(blocks: seq<seq<Cell>>, i: nat)
    requires i < |blocks|
    ensures |blocks[i]| < 3 ==> BlockError(i + 1, ShortBlockMessage) in Build(blocks).1
    ensures |blocks[i]| >= 3 ==> Question(blocks[i][0].text, blocks[i][1..]) in Build(blocks).0
    decreases |blocks|
  {
    var n := |blocks| - 1;
    if i < n {
      BuildCovers(blocks[..n], i);
      assert blocks[..n][i] == blocks[i];
    }
  }

  /** Every question comes from a block of three cells or more. */
  lemma {:induction false} BuildQuestionsFromBlocks(blocks: seq<seq<Cell>>, k: nat)
    requires k < |Build(blocks).0|
    ensures exists i :: (0 <= i < |blocks| && |blocks[i]| >= 3
      && Build(blocks).0[k] == Question(blocks[i][0].text, blocks[i][1..]))
    decreases |blocks|
  {
    var n := |blocks| - 1;
    var before := Build(blocks[..n]);
    if k < |before.0| {
      BuildQuestionsFromBlocks(blocks[..n], k);
      var i :| 0 <= i < n && |blocks[..n][i]| >= 3
        && before.0[k] == Question(blocks[..n][i][0].text, blocks[..n][i][1..]);
      assert blocks[..n][i] == blocks[i];
    } else {
      assert |blocks[n]| >= 3;
    }
  }

  /** `errors` with every block number moved on by `d`. */
  function Renumber(errors: seq<BlockError>, d: nat): (r: seq<BlockError>)
    ensures |r| == |errors|
    ensures forall k :: 0 <= k < |r| ==> r[k].block == errors[k].block + d && r[k].message == errors[k].message
  {
    seq(|errors|, k requires 0 <= k < |errors| => BlockError(errors[k].block + d, errors[k].message))
  }

  /** Renumbering one more error renumbers it too. */
  lemma RenumberSnoc(errors: seq<BlockError>, e: BlockError, d: nat)
    ensures Renumber(errors + [e], d) == Renumber(errors, d) + [BlockError(e.block + d, e.message)]
  {
  }

  /** One more block adds its question or its error, numbered after the
      blocks before it. */
  lemma BuildSnoc(blocks: seq<seq<Cell>>, blk: seq<Cell>)
    ensures Build(blocks + [blk]) ==
      if |blk| < 3 then (Build(blocks).0, Build(blocks).1 + [BlockError(|blocks| + 1, ShortBlockMessage)])
      else (Build(blocks).0 + [Question(blk[0].text, blk[1..])], Build(blocks).1)
  {
  }

  /** A single block gives its question, or its error numbered 1. */
  lemma BuildOne(blk: seq<Cell>)
    ensures Build([blk]) ==
      if |blk| < 3 then ([], [BlockError(1, ShortBlockMessage)]) else ([Question(blk[0].text, blk[1..])], [])
  {
    assert [] + [blk] == [blk];
    assert Build([]) == ([], []);
    BuildSnoc([], blk);
    if |blk| < 3 {
      assert [] + [BlockError(1, ShortBlockMessage)] == [BlockError(1, ShortBlockMessage)];
    } else {
      assert [] + [Question(blk[0].text, blk[1..])] == [Question(blk[0].text, blk[1..])];
    }
  }

  /** Two runs of blocks one after the other give the questions of the first
      run, then those of the second, and the errors likewise, the second
      run's numbered on from the first: with `BuildOne`, questions and errors
      come in block order. */
  lemma {:induction false} BuildAppend(a: seq<seq<Cell>>, b: seq<seq<Cell>>)
    ensures Build(a + b) == (Build(a).0 + Build(b).0, Build(a).1 + Renumber(Build(b).1, |a|))
    decreases |b|
  {
    if b == [] {
      assert a + b == a;
      assert Build(a).0 + [] == Build(a).0 && Build(a).1 + [] == Build(a).1;
    } else {
      var n := |b| - 1;
      var init, blk := b[..n], b[n];
      assert a + b == (a + init) + [blk] && b == init + [blk];
      BuildAppend(a, init);
      BuildSnoc(a + init, blk);
      BuildSnoc(init, blk);
      var x, y := Build(a), Build(init);
      if |blk| < 3 {
        RenumberSnoc(y.1, BlockError(n + 1, ShortBlockMessage), |a|);
        AppendAssoc(x.1, Renumber(y.1, |a|), [BlockError(|a| + n + 1, ShortBlockMessage)]);
      } else {
        AppendAssoc(x.0, y.0, [Question(blk[0].text, blk[1..])]);
      }
    }
  }
}
