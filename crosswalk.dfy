/**
 * Crosswalk-driven harmonization: every block of the crosswalk names a
 * master variable and its source variables, and the harmonized table takes
 * for each master one raw column, chosen by name, or missing values when no
 * candidate column is present. A column is identified here by its name;
 * its values are copied unchanged.
 */
module Crosswalk {
  import opened Wrappers
  import opened Seqs

  /** The raw employment status variables, most preferred first. */
  const EmpstatPrecedence: seq<string> := ["NEWEMPST", "CEMPST2", "CEMPST1", "ANSOEMPSTAT"]

  /** The master variable whose sources come from the precedence list rather than the crosswalk. */
  const EmpstatMaster: string := "PUFNEWEMPSTAT"

  /** One block of the crosswalk: a master name and its source variables (none when the block lists none). */
  datatype Block = Block(name: string, variables: seq<string>)

  /** The first of the candidate names that is a column of the raw table. */
  function FirstPresent(candidates: seq<string>, columns: set<string>): Option<string> {
    match FirstIn(candidates, columns)
    case None => None
    case Some(i) => Some(candidates[i])
  }

  /** The candidates searched for a master that is not itself a column. */
  function Candidates(block: Block): seq<string> {
    if block.name == EmpstatMaster then EmpstatPrecedence else block.variables
  }

  /** The raw column a block takes, or None for missing values. */
  function SourceOf(block: Block, columns: set<string>): (r: Option<string>)
    ensures r.Some? ==> r.value in columns
  {
    if block.name in columns then Some(block.name)
    else FirstPresent(Candidates(block), columns)
  }

  /**
   * The master's own column, when the raw table has it, wins over every
   * candidate; otherwise the first candidate present wins, every earlier
   * one being absent, and the value is missing exactly when none is present.
   */
  lemma SourceExact(block: Block, columns: set<string>)
    ensures block.name in columns ==> SourceOf(block, columns) == Some(block.name)
    ensures block.name !in columns ==>
      (SourceOf(block, columns).None? <==>
         forall j :: 0 <= j < |Candidates(block)| ==> Candidates(block)[j] !in columns)
    ensures block.name !in columns && SourceOf(block, columns).Some? ==>
      exists i :: 0 <= i < |Candidates(block)| && Candidates(block)[i] == SourceOf(block, columns).value &&
        forall j :: 0 <= j < i ==> Candidates(block)[j] !in columns
  {
    if block.name !in columns {
      var c := FirstIn(Candidates(block), columns);
      if c.Some? {
        assert Candidates(block)[c.value] == SourceOf(block, columns).value;
      }
    }
  }

  /** The employment status master ignores the variables its block lists. */
  lemma EmpstatIgnoresBlock(variables: seq<string>, other: seq<string>, columns: set<string>)
    ensures SourceOf(Block(EmpstatMaster, variables), columns) == SourceOf(Block(EmpstatMaster, other), columns)
    ensures SourceOf(Block(EmpstatMaster, variables), columns).Some? ==>
      SourceOf(Block(EmpstatMaster, variables), columns).value in [EmpstatMaster] + EmpstatPrecedence
  {
    var c := FirstIn(EmpstatPrecedence, columns);
    if EmpstatMaster !in columns && c.Some? {
      assert EmpstatPrecedence[c.value] in EmpstatPrecedence;
    }
  }

  /** The harmonized table: one entry per block name, a later block of the same name replacing an earlier one. */
  function Harmonized(blocks: seq<Block>, columns: set<string>): map<string, Option<string>> {
    if blocks == [] then map[]
    else
      var last := blocks[|blocks| - 1];
      Harmonized(blocks[..|blocks| - 1], columns)[last.name := SourceOf(last, columns)]
  }

  /** The harmonized table has exactly the masters the crosswalk names. */
  lemma {:induction false} HarmonizedKeys(blocks: seq<Block>, columns: set<string>, name: string)
    ensures name in Harmonized(blocks, columns) <==> exists i :: 0 <= i < |blocks| && blocks[i].name == name
  {
    if blocks != [] {
      var front := blocks[..|blocks| - 1];
      HarmonizedKeys(front, columns, name);
      if exists i :: 0 <= i < |blocks| && blocks[i].name == name {
        var i :| 0 <= i < |blocks| && blocks[i].name == name;
        if i < |blocks| - 1 {
          assert front[i] == blocks[i];
        }
      }
    }
  }

  /** A master takes the source chosen by the last block of its name. */
  lemma {:induction false} LastBlockWins(blocks: seq<Block>, columns: set<string>, i: nat)
    requires i < |blocks|
    requires forall j :: i < j < |blocks| ==> blocks[j].name != blocks[i].name
    ensures blocks[i].name in Harmonized(blocks, columns)
    ensures Harmonized(blocks, columns)[blocks[i].name] == SourceOf(blocks[i], columns)
  {
    if i < |blocks| - 1 {
      var front := blocks[..|blocks| - 1];
      assert front[i] == blocks[i];
      LastBlockWins(front, columns, i);
    }
  }

  /** The first candidate present, by a loop that stops at the first match. */
  method FirstPresentLoop(candidates: seq<string>, columns: set<string>) returns (value: Option<string>)
    ensures value == FirstPresent(candidates, columns)
  {
    value := None;
    var i := 0;
    while i < |candidates|
      invariant 0 <= i <= |candidates|
      invariant forall j :: 0 <= j < i ==> candidates[j] !in columns
    {
      if candidates[i] in columns {
        value := Some(candidates[i]);
        assert FirstIn(candidates, columns) == Some(i) by {
          FirstAt(candidates, columns, i);
        }
        return;
      }
      i := i + 1;
    }
  }

  /** A position holding a member, with no member before it, is the first. */
  lemma {:induction false} FirstAt(xs: seq<string>, s: set<string>, i: nat)
    requires i < |xs| && xs[i] in s
    requires forall j :: 0 <= j < i ==> xs[j] !in s
    ensures FirstIn(xs, s) == Some(i)
  {
    if i > 0 {
      FirstAt(xs[1..], s, i - 1);
    }
  }

  /**
   * pd.DataFrame(harmonized): a master without a column holds the NA
   * scalar, which pandas broadcasts over the rows of the other columns; when
   * there is at least one master and every one holds a scalar, pandas has
   * no index to broadcast over and raises ValueError (None here).
   */
  function OutputTable(h: map<string, Option<string>>): (r: Option<map<string, Option<string>>>)
    ensures r.None? <==> h != map[] && forall m :: m in h ==> h[m].None?
    ensures r.Some? ==> r.value == h
  {
    if h != map[] && forall m :: m in h ==> h[m].None? then None else Some(h)
  }

  /** A crosswalk of which no block finds a column cannot be written out. */
  lemma {:induction false} NoSourceNoTable(blocks: seq<Block>, columns: set<string>)
    requires blocks != []
    requires forall i :: 0 <= i < |blocks| ==> SourceOf(blocks[i], columns).None?
    ensures OutputTable(Harmonized(blocks, columns)).None?
  {
    assert blocks[|blocks| - 1].name in Harmonized(blocks, columns);
    forall m | m in Harmonized(blocks, columns)
      ensures Harmonized(blocks, columns)[m].None?
    {
      AllMissing(blocks, columns, m);
    }
  }

  lemma {:induction false} AllMissing(blocks: seq<Block>, columns: set<string>, m: string)
    requires forall i :: 0 <= i < |blocks| ==> SourceOf(blocks[i], columns).None?
    requires m in Harmonized(blocks, columns)
    ensures Harmonized(blocks, columns)[m].None?
  {
    var front := blocks[..|blocks| - 1];
    if m != blocks[|blocks| - 1].name {
      AllMissing(front, columns, m);
    }
  }

  /** A table is produced as soon as some master finds its column. */
  lemma ResolvedGivesTable(blocks: seq<Block>, columns: set<string>, i: nat)
    requires i < |blocks| && SourceOf(blocks[i], columns).Some?
    requires forall j :: i < j < |blocks| ==> blocks[j].name != blocks[i].name
    ensures OutputTable(Harmonized(blocks, columns)) == Some(Harmonized(blocks, columns))
  {
    LastBlockWins(blocks, columns, i);
  }

  /**
   * The main loop over the crosswalk blocks, then the output table: the
   * harmonized entries, or None when pandas would refuse to build the table.
   */
  method Harmonize(blocks: seq<Block>, columns: set<string>)
    returns (harmonized: map<string, Option<string>>, table: Option<map<string, Option<string>>>)
    ensures harmonized == Harmonized(blocks, columns)
    ensures table == OutputTable(harmonized)
  {
    harmonized := map[];
    var i := 0;
    while i < |blocks|
      invariant 0 <= i <= |blocks|
      invariant harmonized == Harmonized(blocks[..i], columns)
    {
      PrefixStep(blocks, i);
      var block := blocks[i];
      var value;
      if block.name in columns {
        value := Some(block.name);
      } else if block.name == EmpstatMaster {
        value := FirstPresentLoop(EmpstatPrecedence, columns);
      } else {
        value := FirstPresentLoop(block.variables, columns);
      }
      harmonized := harmonized[block.name := value];
      i := i + 1;
    }
    WholePrefix(blocks, i);
    table := OutputTable(harmonized);
  }
}
