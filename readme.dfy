/**
 * The "Input" section of the generated README (in `main`): the variables
 * table built from the extracted `variable` blocks and rendered by the
 * markdown table renderer, with the Required column shown as yes/no.
 */
module Readme {
  import opened Wrappers
  import opened Values
  import opened Hcl
  import opened Markdown

  /** `boolFmt`: a bool shown as "yes" or "no"; on any other value it panics. */
  function BoolFmt(v: Value): (r: Value)
    requires v.Bool?
    ensures r.Str?
    ensures r.s == "yes" <==> v.b
    ensures r.s == "no" <==> !v.b
  {
    if v.b then Str("yes") else Str("no")
  }

  /** The five columns of the variables table. */
  const VariablesColumns: seq<MdColumn> := [
    MdColumn("Name", NoAlign, None),
    MdColumn("Description", Left, None),
    MdColumn("Type", Center, None),
    MdColumn("Default", Center, None),
    MdColumn("Required", Center, Some(BoolFmt))
  ]

  /** The row of the variables table for one variable. */
  function VariableRow(v: HclVar): seq<Value>
  {
    [Str(v.name), Str(v.description), Str(v.varType), Str(v.defaultVal), Bool(v.required)]
  }

  /** The variables table: the five columns and one row per variable, in order. */
  function VariablesTable(hclVars: seq<HclVar>): MdTable
  {
    MdTable(VariablesColumns, seq(|hclVars|, k requires 0 <= k < |hclVars| => VariableRow(hclVars[k])))
  }

  /** Appends one row per variable, in order, as main fills `variablesTable.rows`. */
  method VariablesRows(hclVars: seq<HclVar>) returns (rows: seq<seq<Value>>)
    ensures |rows| == |hclVars|
    ensures forall k :: 0 <= k < |rows| ==> |rows[k]| == 5
    ensures forall k :: 0 <= k < |rows| ==>
      rows[k][0] == Str(hclVars[k].name) && rows[k][1] == Str(hclVars[k].description)
      && rows[k][2] == Str(hclVars[k].varType) && rows[k][3] == Str(hclVars[k].defaultVal)
      && rows[k][4] == Bool(hclVars[k].required)
    ensures rows == VariablesTable(hclVars).rows
    ensures Renderable(MdTable(VariablesColumns, rows))
  {
    rows := [];
    for k := 0 to |hclVars|
      invariant rows == seq(k, n requires 0 <= n < k => VariableRow(hclVars[n]))
    {
      var hclvar := hclVars[k];
      rows := rows + [[Str(hclvar.name), Str(hclvar.description), Str(hclvar.varType),
                       Str(hclvar.defaultVal), Bool(hclvar.required)]];
    }
    VariablesRenderable(hclVars);
  }

  /** Every row of the variables table fits its columns; in particular boolFmt only ever sees a bool. */
  lemma VariablesRenderable(hclVars: seq<HclVar>)
    ensures Renderable(VariablesTable(hclVars))
  {
    var table := VariablesTable(hclVars);
    forall row | row in table.rows
      ensures Fits(table.columns, row)
    {
      var k :| 0 <= k < |table.rows| && table.rows[k] == row;
      assert row == VariableRow(hclVars[k]);
    }
  }

  /** The header row holds the five column titles. */
  lemma VariablesHeader()
    ensures HeaderLine(VariablesColumns)
      == Line("| ", [" Name ", " Description ", " Type ", " Default ", " Required "])
  {
    var cells := HeaderLine(VariablesColumns).cells;
    assert cells[0] == " Name ";
    assert cells[1] == " Description ";
    assert cells[2] == " Type ";
    assert cells[3] == " Default ";
    assert cells[4] == " Required ";
  }

  /** The delimiter row: an unaligned first column, a left-aligned one, then three centred ones. */
  lemma VariablesSeparator()
    ensures SeparatorLine(VariablesColumns)
      == Line("|", ["------", ":------------", ":----:", ":-------:", ":--------:"])
  {
    var cells := SeparatorLine(VariablesColumns).cells;
    assert cells[0] == "------";
    assert cells[1] == ":------------";
    assert cells[2] == ":----:";
    assert cells[3] == ":-------:";
    assert cells[4] == ":--------:";
  }

  /** A variable's data row: its name, description, type and default, and "yes" or "no" for Required. */
  lemma VariableDataLine(v: HclVar)
    ensures Fits(VariablesColumns, VariableRow(v))
    ensures DataLine(VariablesColumns, VariableRow(v))
      == Line("|", [" " + v.name + " ", " " + v.description + " ", " " + v.varType + " ",
                    " " + v.defaultVal + " ", if v.required then " yes " else " no "])
  {
    var cells := DataLine(VariablesColumns, VariableRow(v)).cells;
    assert cells[0] == " " + v.name + " ";
    assert cells[1] == " " + v.description + " ";
    assert cells[2] == " " + v.varType + " ";
    assert cells[3] == " " + v.defaultVal + " ";
    assert cells[4] == " " + Verb(BoolFmt(Bool(v.required))) + " ";
    assert cells[4] == if v.required then " yes " else " no ";
  }

  /** The rendered variables table: header, delimiter row, then one data row per variable, in order. */
  lemma VariablesRendering(hclVars: seq<HclVar>)
    ensures Renderable(VariablesTable(hclVars))
    ensures Render(VariablesTable(hclVars)).Ok?
    ensures |Render(VariablesTable(hclVars)).value| == |hclVars| + 2
    ensures Render(VariablesTable(hclVars)).value[0]
      == Line("| ", [" Name ", " Description ", " Type ", " Default ", " Required "])
    ensures Render(VariablesTable(hclVars)).value[1]
      == Line("|", ["------", ":------------", ":----:", ":-------:", ":--------:"])
    ensures forall k :: 0 <= k < |hclVars| ==>
      Render(VariablesTable(hclVars)).value[k + 2]
      == Line("|", [" " + hclVars[k].name + " ", " " + hclVars[k].description + " ",
                    " " + hclVars[k].varType + " ", " " + hclVars[k].defaultVal + " ",
                    if hclVars[k].required then " yes " else " no "])
  {
    VariablesRenderable(hclVars);
    VariablesHeader();
    VariablesSeparator();
    var table := VariablesTable(hclVars);
    var lines := Render(table).value;
    forall k | 0 <= k < |hclVars|
      ensures lines[k + 2]
        == Line("|", [" " + hclVars[k].name + " ", " " + hclVars[k].description + " ",
                      " " + hclVars[k].varType + " ", " " + hclVars[k].defaultVal + " ",
                      if hclVars[k].required then " yes " else " no "])
    {
      assert table.rows[k] == VariableRow(hclVars[k]);
      VariableDataLine(hclVars[k]);
    }
  }

  /**
   * The Input section of a document: one data row per declared variable, and
   * a row's Required cell says "yes" exactly when its Default cell is blank.
   */
  lemma InputSection(doc: seq<VarMap>)
    ensures Renderable(VariablesTable(Flatten(doc)))
    ensures Render(VariablesTable(Flatten(doc))).Ok?
    ensures |Render(VariablesTable(Flatten(doc))).value| == EntryCount(doc) + 2
    ensures forall k :: 2 <= k < |Render(VariablesTable(Flatten(doc))).value| ==>
      (Render(VariablesTable(Flatten(doc))).value[k].cells[4] == " yes "
       <==> Render(VariablesTable(Flatten(doc))).value[k].cells[3] == "  ")
  {
    var hclVars := Flatten(doc);
    VariablesRendering(hclVars);
    FlattenLength(doc);
    FlattenRequired(doc);
    var lines := Render(VariablesTable(hclVars)).value;
    forall k | 2 <= k < |lines|
      ensures lines[k].cells[4] == " yes " <==> lines[k].cells[3] == "  "
    {
      var v := hclVars[k - 2];
      assert v in hclVars;
      assert lines[k].cells[3] == " " + v.defaultVal + " ";
      assert lines[k].cells[3] == "  " <==> v.defaultVal == "" by {
        if lines[k].cells[3] == "  " {
          assert |v.defaultVal| == 0;
        }
      }
    }
  }
}
