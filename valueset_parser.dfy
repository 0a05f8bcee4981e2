/**
 * The value-set parser for the second sheet of a data dictionary: the
 * sheet is cut into blocks at blank rows, each block is read row by row
 * into a code -> label map (expanding code ranges and continuation rows),
 * and the blocks trusted with at least two codes are merged.
 */
module ValuesetParser {
  import opened Wrappers
  import opened Text
  import opened Cells
  import opened Seqs

  /** A sheet row; a missing cell (NaN) is None. */
  type Row = seq<Option<Cell>>

  type Block = seq<Row>

  /** row.isna().all(). */
  predicate Blank(row: Row) {
    forall i :: 0 <= i < |row| ==> row[i].None?
  }

  // ---------------------------------------------------------------------
  // split_into_blocks
  // ---------------------------------------------------------------------

  /** The blocks closed so far and the block being collected. */
  datatype Splitter = Splitter(blocks: seq<Block>, current: Block)

  const Fresh := Splitter([], [])

  /** A blank row closes a non-empty current block; any other row joins it. */
  function SplitStep(st: Splitter, row: Row): Splitter {
    if Blank(row) then
      if st.current != [] then Splitter(st.blocks + [st.current], []) else st
    else Splitter(st.blocks, st.current + [row])
  }

  function SplitFrom(st: Splitter, rows: seq<Row>): Splitter {
    if rows == [] then st else SplitStep(SplitFrom(st, rows[..|rows| - 1]), rows[|rows| - 1])
  }

  /** The closed blocks, and the current one when it is not empty. */
  function Close(st: Splitter): seq<Block> {
    st.blocks + (if st.current != [] then [st.current] else [])
  }

  function Blocks(rows: seq<Row>): seq<Block> {
    Close(SplitFrom(Fresh, rows))
  }

  /** split_into_blocks: the row loop growing and flushing the current block. */
  method SplitIntoBlocks(rows: seq<Row>) returns (blocks: seq<Block>)
    ensures blocks == Blocks(rows)
  {
    blocks := [];
    var current: Block := [];
    var i := 0;
    while i < |rows|
      invariant 0 <= i <= |rows|
      invariant Splitter(blocks, current) == SplitFrom(Fresh, rows[..i])
    {
      if Blank(rows[i]) {
        if current != [] {
          blocks := blocks + [current];
          current := [];
        }
      } else {
        current := current + [rows[i]];
      }
      PrefixStep(rows, i);
      i := i + 1;
    }
    if current != [] {
      blocks := blocks + [current];
    }
    WholePrefix(rows, i);
  }

  /** The rows of the blocks, one block after another. */
  function Flatten(bs: seq<Block>): seq<Row> {
    if bs == [] then [] else Flatten(bs[..|bs| - 1]) + bs[|bs| - 1]
  }

  /** The rows that are not blank, in order. */
  function NonBlank(rows: seq<Row>): seq<Row> {
    if rows == [] then []
    else NonBlank(rows[..|rows| - 1]) + (if Blank(rows[|rows| - 1]) then [] else [rows[|rows| - 1]])
  }

  /** No empty block and no blank row inside one. */
  predicate GoodBlocks(bs: seq<Block>) {
    forall k :: 0 <= k < |bs| ==> bs[k] != [] && forall j :: 0 <= j < |bs[k]| ==> !Blank(bs[k][j])
  }

  lemma FlattenSnoc(bs: seq<Block>, b: Block)
    ensures Flatten(bs + [b]) == Flatten(bs) + b
  {
    assert (bs + [b])[..|bs|] == bs;
  }

  /** The splitter's blocks are never empty and hold no blank row, nor does its current block. */
  lemma {:induction false} SplitWellFormed(rows: seq<Row>)
    ensures GoodBlocks(SplitFrom(Fresh, rows).blocks)
    ensures forall j :: 0 <= j < |SplitFrom(Fresh, rows).current| ==> !Blank(SplitFrom(Fresh, rows).current[j])
  {
    if rows != [] {
      SplitWellFormed(rows[..|rows| - 1]);
    }
  }

  /** The closed blocks followed by the current one are the non-blank rows read so far. */
  lemma {:induction false} SplitKeeps(rows: seq<Row>)
    ensures Flatten(SplitFrom(Fresh, rows).blocks) + SplitFrom(Fresh, rows).current == NonBlank(rows)
  {
    if rows != [] {
      var front := rows[..|rows| - 1];
      var row := rows[|rows| - 1];
      SplitKeeps(front);
      var st := SplitFrom(Fresh, front);
      var rest := NonBlank(front);
      assert NonBlank(rows) == rest + (if Blank(row) then [] else [row]);
      if Blank(row) {
        if st.current != [] {
          FlattenSnoc(st.blocks, st.current);
          assert SplitFrom(Fresh, rows) == Splitter(st.blocks + [st.current], []);
        } else {
          assert SplitFrom(Fresh, rows) == st;
        }
      } else {
        assert SplitFrom(Fresh, rows) == Splitter(st.blocks, st.current + [row]);
        assert Flatten(st.blocks) + (st.current + [row]) == (Flatten(st.blocks) + st.current) + [row];
      }
    }
  }

  /**
   * The blocks are never empty and hold no blank row, and read one after
   * another they give back exactly the sheet's non-blank rows in order.
   */
  lemma BlocksExact(rows: seq<Row>)
    ensures GoodBlocks(Blocks(rows))
    ensures Flatten(Blocks(rows)) == NonBlank(rows)
  {
    SplitWellFormed(rows);
    SplitKeeps(rows);
    var st := SplitFrom(Fresh, rows);
    if st.current != [] {
      FlattenSnoc(st.blocks, st.current);
    } else {
      assert Blocks(rows) == st.blocks;
      assert Flatten(st.blocks) + [] == Flatten(st.blocks);
    }
  }

  /** Reading two stretches of rows is reading the first, then the second from where the first left off. */
  lemma {:induction false} SplitAppend(st: Splitter, a: seq<Row>, b: seq<Row>)
    ensures SplitFrom(st, a + b) == SplitFrom(SplitFrom(st, a), b)
  {
    if b == [] {
      assert a + b == a;
    } else {
      var front := b[..|b| - 1];
      SplitAppend(st, a, front);
      assert (a + b)[..|a + b| - 1] == a + front;
      assert (a + b)[|a + b| - 1] == b[|b| - 1];
    }
  }

  /** Blocks closed before a stretch of rows stay in front of everything that stretch closes. */
  lemma {:induction false} SplitShift(pre: seq<Block>, st: Splitter, rows: seq<Row>)
    ensures SplitFrom(Splitter(pre + st.blocks, st.current), rows) ==
      Splitter(pre + SplitFrom(st, rows).blocks, SplitFrom(st, rows).current)
  {
    if rows != [] {
      var front := rows[..|rows| - 1];
      SplitShift(pre, st, front);
      var inner := SplitFrom(st, front);
      assert pre + (inner.blocks + [inner.current]) == (pre + inner.blocks) + [inner.current];
    }
  }

  /** A blank row closes the current block: the blocks around it are read independently. */
  lemma BlankSeparates(a: seq<Row>, blank: Row, b: seq<Row>)
    requires Blank(blank)
    ensures Blocks(a + [blank] + b) == Blocks(a) + Blocks(b)
  {
    SplitAppend(Fresh, a + [blank], b);
    SplitAppend(Fresh, a, [blank]);
    assert [blank][..0] == [];
    var closed := SplitFrom(Fresh, a + [blank]);
    assert closed == Splitter(Blocks(a), []);
    assert Blocks(a) + [] == Blocks(a);
    SplitShift(Blocks(a), Fresh, b);
    var inner := SplitFrom(Fresh, b);
    assert Blocks(a) + inner.blocks + (if inner.current != [] then [inner.current] else []) ==
      Blocks(a) + Close(inner);
  }

  // ---------------------------------------------------------------------
  // extract_valueset
  // ---------------------------------------------------------------------

  /** The numbers of a row, in order: its present numeric cells. */
  function Numbers(row: Row): (r: seq<int>)
    ensures |r| <= |row|
  {
    if row == [] then []
    else Numbers(row[..|row| - 1]) + (match row[|row| - 1] case Some(Num(n)) => [n] case _ => [])
  }

  /** One more cell adds its number, if it holds one. */
  lemma NumbersSnoc(front: Row, c: Option<Cell>)
    ensures Numbers(front + [c]) == Numbers(front) + (match c case Some(Num(n)) => [n] case _ => [])
  {
    assert (front + [c])[..|front|] == front;
  }

  /** The row's label: its first text cell, stripped and upper-cased. */
  function Label(row: Row): Option<string> {
    if row == [] then None
    else
      var prev := Label(row[..|row| - 1]);
      if prev.Some? then prev
      else match row[|row| - 1] case Some(Str(s)) => Some(Upper(Strip(s))) case _ => None
  }

  /** A cell that holds text. */
  predicate IsText(c: Option<Cell>) {
    c.Some? && c.value.Str?
  }

  /** One more cell: it supplies the label only when none was found before it and it holds text. */
  lemma LabelSnoc(front: Row, c: Option<Cell>)
    ensures Label(front + [c]) ==
      if Label(front).Some? then Label(front) else if IsText(c) then Some(Upper(Strip(c.value.s))) else None
  {
    assert (front + [c])[..|front|] == front;
  }

  /** The label is the first text cell's text, and rows without text have none. */
  lemma LabelIsFirstText(row: Row)
    ensures Label(row).None? <==> forall j :: 0 <= j < |row| ==> !IsText(row[j])
    ensures Label(row).Some? ==>
      exists j :: 0 <= j < |row| && IsText(row[j]) &&
        Label(row).value == Upper(Strip(row[j].value.s)) &&
        (forall m :: 0 <= m < j ==> !IsText(row[m]))
  {
    LabelAtFirst(row);
    FirstTextNone(row);
    FirstTextSome(row);
    if FirstText(row).Some? {
      FirstTextWitness(row, FirstText(row).value, Label(row).value);
    }
  }

  /** The position of the first text cell, if any. */
  function FirstText(row: Row): (r: Option<nat>)
    ensures r.Some? ==> r.value < |row| && IsText(row[r.value])
  {
    if row == [] then None
    else if FirstText(row[..|row| - 1]).Some? then FirstText(row[..|row| - 1])
    else if IsText(row[|row| - 1]) then Some(|row| - 1)
    else None
  }

  /** The label is the text of the first text cell. */
  lemma {:induction false} LabelAtFirst(row: Row)
    ensures FirstText(row).None? ==> Label(row).None?
    ensures FirstText(row).Some? ==> Label(row) == Some(Upper(Strip(row[FirstText(row).value].value.s)))
  {
    if row != [] {
      var front := row[..|row| - 1];
      LabelAtFirst(front);
      if FirstText(front).Some? {
        assert row[FirstText(front).value] == front[FirstText(front).value];
      }
    }
  }

  /** There is no first text cell exactly when the row holds no text. */
  lemma {:induction false} FirstTextNone(row: Row)
    ensures FirstText(row).None? <==> forall j :: 0 <= j < |row| ==> !IsText(row[j])
  {
    if row != [] {
      var front := row[..|row| - 1];
      FirstTextNone(front);
      assert forall j :: 0 <= j < |front| ==> front[j] == row[j];
    }
  }

  /** The first text cell holds text and no cell before it does. */
  lemma {:induction false} FirstTextSome(row: Row)
    ensures FirstText(row).Some? ==> forall m :: 0 <= m < FirstText(row).value ==> !IsText(row[m])
  {
    if row != [] {
      var front := row[..|row| - 1];
      FirstTextSome(front);
      FirstTextNone(front);
      assert forall j :: 0 <= j < |front| ==> front[j] == row[j];
    }
  }

  /** A text cell with none before it witnesses the first-text property for its text. */
  lemma FirstTextWitness(row: Row, j: nat, v: string)
    requires j < |row| && IsText(row[j]) && v == Upper(Strip(row[j].value.s))
    requires forall m :: 0 <= m < j ==> !IsText(row[m])
    ensures exists k ::
      0 <= k < |row| && IsText(row[k]) && v == Upper(Strip(row[k].value.s)) &&
      (forall m :: 0 <= m < k ==> !IsText(row[m]))
  {
  }

  /** The cell loop of one row: numbers collected, the first text taken as label. */
  method ReadRow(row: Row) returns (nums: seq<int>, text: Option<string>)
    ensures nums == Numbers(row) && text == Label(row)
  {
    nums, text := [], None;
    var j := 0;
    while j < |row|
      invariant 0 <= j <= |row|
      invariant nums == Numbers(row[..j]) && text == Label(row[..j])
    {
      ReadStep(row, j);
      match row[j] {
        case Some(Num(n)) => nums := nums + [n];
        case Some(Str(s)) =>
          if text.None? {
            text := Some(Upper(Strip(s)));
          }
        case None =>
      }
      j := j + 1;
    }
    WholePrefix(row, j);
  }

  /** One more cell of the row: its number is added, and its text is the label if none was found before. */
  lemma ReadStep(row: Row, j: nat)
    requires j < |row|
    ensures Numbers(row[..j + 1]) == Numbers(row[..j]) + (match row[j] case Some(Num(n)) => [n] case _ => [])
    ensures Label(row[..j + 1]) ==
      if Label(row[..j]).Some? then Label(row[..j])
      else if IsText(row[j]) then Some(Upper(Strip(row[j].value.s))) else None
  {
    assert row[..j + 1] == row[..j] + [row[j]];
    NumbersSnoc(row[..j], row[j]);
    LabelSnoc(row[..j], row[j]);
  }

  /** A row counts when it has a number and a non-empty label. */
  predicate Accepts(nums: seq<int>, text: Option<string>) {
    nums != [] && text.Some? && text.value != ""
  }

  /**
   * The code range of an accepted row: the first two numbers; a lone number
   * continues from the previous accepted row's end; otherwise just itself.
   */
  function RowRange(nums: seq<int>, prevEnd: Option<int>): (int, int)
    requires nums != []
  {
    if |nums| >= 2 then (nums[0], nums[1])
    else if prevEnd.Some? then (prevEnd.value + 1, nums[0])
    else (nums[0], nums[0])
  }

  /** pairs[c] = label for c in range(start, end + 1). */
  function Assign(pairs: map<int, string>, start: int, end: int, text: string): map<int, string>
    decreases end - start
  {
    if start > end then pairs else Assign(pairs[start := text], start + 1, end, text)
  }

  /** Assigning a range labels exactly the codes in it and leaves the others as they were. */
  lemma {:induction false} AssignAt(pairs: map<int, string>, start: int, end: int, text: string, k: int)
    ensures k in Assign(pairs, start, end, text) <==> k in pairs || start <= k <= end
    ensures start <= k <= end ==> Assign(pairs, start, end, text)[k] == text
    ensures !(start <= k <= end) && k in pairs ==> Assign(pairs, start, end, text)[k] == pairs[k]
    decreases end - start
  {
    if start <= end {
      AssignAt(pairs[start := text], start + 1, end, text, k);
    }
  }

  /** The map built so far and the end of the last accepted row. */
  datatype Extractor = Extractor(pairs: map<int, string>, prevEnd: Option<int>)

  function RowStep(st: Extractor, row: Row): Extractor {
    var nums, text := Numbers(row), Label(row);
    if !Accepts(nums, text) then st
    else
      var (start, end) := RowRange(nums, st.prevEnd);
      Extractor(Assign(st.pairs, start, end, text.value), Some(end))
  }

  function ExtractFrom(st: Extractor, rows: seq<Row>): Extractor {
    if rows == [] then st else RowStep(ExtractFrom(st, rows[..|rows| - 1]), rows[|rows| - 1])
  }

  /** The code -> label map of a block. */
  function Valueset(block: Block): map<int, string> {
    ExtractFrom(Extractor(map[], None), block).pairs
  }

  datatype Confidence = High | Low

  /** HIGH with two or more codes, LOW otherwise. */
  function ConfidenceOf(pairs: map<int, string>): Confidence {
    if |pairs| >= 2 then High else Low
  }

  /**
   * One row's effect: a row without a number or without a non-empty label
   * changes nothing; otherwise the codes of its range get its label, every
   * other code keeps its label, and its range's end becomes prev_end.
   */
  lemma RowEffect(st: Extractor, row: Row, k: int)
    ensures !Accepts(Numbers(row), Label(row)) ==> RowStep(st, row) == st
    ensures Accepts(Numbers(row), Label(row)) ==>
      var (start, end) := RowRange(Numbers(row), st.prevEnd);
      var next := RowStep(st, row);
      next.prevEnd == Some(end) &&
      (k in next.pairs <==> k in st.pairs || start <= k <= end) &&
      (start <= k <= end ==> next.pairs[k] == Label(row).value) &&
      (!(start <= k <= end) && k in st.pairs ==> next.pairs[k] == st.pairs[k])
  {
    var nums, text := Numbers(row), Label(row);
    if Accepts(nums, text) {
      var (start, end) := RowRange(nums, st.prevEnd);
      AssignAt(st.pairs, start, end, text.value, k);
    }
  }

  /** The range rule: two numbers give [n0, n1] (empty when n0 > n1); a lone number gives prev_end + 1 .. n after an accepted row and n alone before one. */
  lemma RangeRule(nums: seq<int>, prevEnd: Option<int>, k: int)
    requires nums != []
    ensures |nums| >= 2 ==> (RowRange(nums, prevEnd).0 <= k <= RowRange(nums, prevEnd).1 <==> nums[0] <= k <= nums[1])
    ensures |nums| == 1 && prevEnd.Some? ==>
      (RowRange(nums, prevEnd).0 <= k <= RowRange(nums, prevEnd).1 <==> prevEnd.value < k <= nums[0])
    ensures |nums| == 1 && prevEnd.None? ==>
      (RowRange(nums, prevEnd).0 <= k <= RowRange(nums, prevEnd).1 <==> k == nums[0])
  {
  }

  /** HIGH exactly when the block labels two different codes. */
  lemma ConfidenceHigh(pairs: map<int, string>)
    ensures ConfidenceOf(pairs) == High <==> exists a, b :: a in pairs && b in pairs && a != b
  {
    if exists a, b :: a in pairs && b in pairs && a != b {
      var a, b :| a in pairs && b in pairs && a != b;
      var rest := pairs.Keys - {a};
      assert b in rest;
      assert pairs.Keys == rest + {a};
      assert |rest| >= 1;
    }
    if |pairs| >= 2 {
      var keys := pairs.Keys;
      if forall z :: z !in keys {
        assert false;
      }
      var a :| a in keys;
      var rest := keys - {a};
      assert |rest| >= 1;
      if forall z :: z !in rest {
        assert false;
      }
      var b :| b in rest;
      assert a in pairs && b in pairs && a != b;
    }
  }

  /** extract_valueset: the row loop over the block. */
  method ExtractValueset(block: Block) returns (pairs: map<int, string>, confidence: Confidence)
    ensures pairs == Valueset(block)
    ensures confidence == ConfidenceOf(pairs)
  {
    pairs := map[];
    var prevEnd: Option<int> := None;
    var i := 0;
    while i < |block|
      invariant 0 <= i <= |block|
      invariant Extractor(pairs, prevEnd) == ExtractFrom(Extractor(map[], None), block[..i])
    {
      pairs, prevEnd := ReadValueRow(pairs, prevEnd, block[i]);
      PrefixStep(block, i);
      i := i + 1;
    }
    WholePrefix(block, i);
    confidence := if |pairs| >= 2 then High else Low;
  }

  /** One row of extract_valueset: the range loop assigning the label. */
  method ReadValueRow(pairs: map<int, string>, prevEnd: Option<int>, row: Row) returns (pairs': map<int, string>, prevEnd': Option<int>)
    ensures Extractor(pairs', prevEnd') == RowStep(Extractor(pairs, prevEnd), row)
  {
    var nums, text := ReadRow(row);
    if nums == [] || text.None? || text.value == "" {
      return pairs, prevEnd;
    }
    var start, end;
    if |nums| >= 2 {
      start, end := nums[0], nums[1];
    } else if prevEnd.Some? {
      start, end := prevEnd.value + 1, nums[0];
    } else {
      start, end := nums[0], nums[0];
    }
    pairs' := pairs;
    var c := start;
    while c <= end
      invariant (start <= c <= end + 1 || (c == start && start > end))
      invariant Assign(pairs', c, end, text.value) == Assign(pairs, start, end, text.value)
      decreases end - c
    {
      pairs' := pairs'[c := text.value];
      c := c + 1;
    }
    prevEnd' := Some(end);
  }

  // ---------------------------------------------------------------------
  // parse_dictionary_valuesets
  // ---------------------------------------------------------------------

  /** A block's map when it is trusted (HIGH), else nothing. */
  function Trusted(block: Block): Option<map<int, string>> {
    var pairs := Valueset(block);
    if ConfidenceOf(pairs) != Low then Some(pairs) else None
  }

  /** valuesets.update(pairs) for each map in turn. */
  function MergeAll(ms: seq<map<int, string>>): map<int, string> {
    if ms == [] then map[] else MergeAll(ms[..|ms| - 1]) + ms[|ms| - 1]
  }

  /** The merged value sets of a sheet: the trusted blocks' maps, later blocks winning. */
  function SheetValuesets(rows: seq<Row>): map<int, string> {
    MergeAll(Kept(Mapped(Trusted, Blocks(rows))))
  }

  /** parse_dictionary_valuesets on the second sheet's rows. */
  method ParseDictionaryValuesets(rows: seq<Row>) returns (valuesets: map<int, string>)
    ensures valuesets == SheetValuesets(rows)
  {
    var blocks := SplitIntoBlocks(rows);
    valuesets := map[];
    var i := 0;
    while i < |blocks|
      invariant 0 <= i <= |blocks|
      invariant valuesets == MergeAll(Kept(Mapped(Trusted, blocks[..i])))
    {
      valuesets := MergeBlock(valuesets, blocks, i);
      i := i + 1;
    }
    WholePrefix(blocks, i);
  }

  /** One pass of the merge loop: the block's map is merged when it is trusted. */
  method MergeBlock(valuesets: map<int, string>, blocks: seq<Block>, i: nat) returns (r: map<int, string>)
    requires i < |blocks| && valuesets == MergeAll(Kept(Mapped(Trusted, blocks[..i])))
    ensures r == MergeAll(Kept(Mapped(Trusted, blocks[..i + 1])))
  {
    var pairs, confidence := ExtractValueset(blocks[i]);
    ghost var ms := Kept(Mapped(Trusted, blocks[..i]));
    ghost var trusted := Trusted(blocks[i]);
    MappedPrefix(Trusted, blocks, i);
    KeptSnoc(Mapped(Trusted, blocks[..i]), trusted);
    assert trusted == (if confidence != Low then Some(pairs) else None);
    r := valuesets;
    if confidence != Low {
      MergeAllSnoc(ms, pairs);
      r := r + pairs;
    } else {
      assert Kept(Mapped(Trusted, blocks[..i + 1])) == ms + [];
      assert ms + [] == ms;
    }
  }

  lemma MergeAllSnoc(ms: seq<map<int, string>>, m: map<int, string>)
    ensures MergeAll(ms + [m]) == MergeAll(ms) + m
  {
    assert (ms + [m])[..|ms|] == ms;
  }

  /** A code is merged exactly when some merged map has it. */
  lemma {:induction false} MergeAllKeys(ms: seq<map<int, string>>, k: int)
    ensures k in MergeAll(ms) <==> exists j :: 0 <= j < |ms| && k in ms[j]
  {
    if ms != [] {
      var front := ms[..|ms| - 1];
      MergeAllKeys(front, k);
      if exists j :: 0 <= j < |ms| && k in ms[j] {
        var j :| 0 <= j < |ms| && k in ms[j];
        if j < |front| {
          assert front[j] == ms[j];
        }
      }
      if exists j :: 0 <= j < |front| && k in front[j] {
        var j :| 0 <= j < |front| && k in front[j];
        assert ms[j] == front[j];
      }
    }
  }

  /** Later maps override: a code takes its label from the last map that has it. */
  lemma {:induction false} MergeAllLastWins(ms: seq<map<int, string>>, j: nat, k: int)
    requires j < |ms| && k in ms[j]
    requires forall m :: j < m < |ms| ==> k !in ms[m]
    ensures k in MergeAll(ms) && MergeAll(ms)[k] == ms[j][k]
  {
    var front := ms[..|ms| - 1];
    if j < |front| {
      assert front[j] == ms[j];
      forall m | j < m < |front| ensures k !in front[m] {
        assert front[m] == ms[m];
      }
      MergeAllLastWins(front, j, k);
    }
  }

  /** The merged maps are exactly the trusted blocks' maps. */
  lemma TrustedMaps(rows: seq<Row>, m: map<int, string>)
    ensures m in Kept(Mapped(Trusted, Blocks(rows))) <==>
      exists i :: 0 <= i < |Blocks(rows)| && ConfidenceOf(Valueset(Blocks(rows)[i])) == High && Valueset(Blocks(rows)[i]) == m
  {
    var blocks := Blocks(rows);
    var opts := Mapped(Trusted, blocks);
    KeptExact(opts, m);
    forall i | 0 <= i < |blocks| ensures opts[i] == Trusted(blocks[i]) {
      MappedAt(Trusted, blocks, i);
    }
  }
}
