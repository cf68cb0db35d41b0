# tfreadme core, modelled in Dafny

tfreadme generates a markdown README for a Terraform module. It reads the
`variable` and `output` blocks of two HCL files and renders them as markdown
tables under fixed headings. This project models the two parts of `main.go`
that carry logic, and the glue between them:

- **Block extraction** (`hclTable`). A parsed HCL document has the shape
  `[ {name: [ {field: value} ] } ]`. Extraction flattens it into a list of
  `HCLVar` rows. Each field is read with a checked type assertion, so a
  missing or wrongly typed field becomes Go's zero value. `Required` means
  "the default is empty". Module `Hcl`, file `hcl.dfy`. Each of the three
  nested loops is its own method (`HclTable`, `AppendMapRows`,
  `AppendEntryRows`), so that each loop is proved on its own.
- **The markdown table renderer** (`markdownTable` with `mdAlign`,
  `mdColumn`, `mdTable`). It writes a header row, a delimiter row and one
  row per data row. Module `Markdown`, file `markdown.dfy`.
- **The Input section** of `main`: `boolFmt`, the five-column variables
  table and its rows. Module `Readme`, file `readme.dfy`.

Dynamic values (`interface{}`) are `Values.Value`: a string, a bool, or any
other value carried with the text that `%v` prints for it. Go's `error`
return is `Wrappers.Result`.

A Go map has no fixed iteration order. A map is therefore modelled as the
sequence of its (name, objects) pairs in whatever order the runtime picks.
Row order is claimed only across the maps of the list (`Hcl.FlattenAppend`).
Within one map, `Hcl.MapRowsOrderIndependent` shows that any other order
yields a permutation of the same rows.

The renderer is modelled up to the point where text enters
`text/tabwriter`. A rendered row is a `Markdown.Line`: the text written
before the first cell (`"| "` for the header, `"|"` otherwise), then the
cells. Each cell reaches the tabwriter followed by a tab, and each row is
followed by a newline. The delimiter cells follow the pipe-table delimiter
row of section 4.10 of the GitHub Flavored Markdown specification.
`Markdown.ReadDelimiter` reads a cell the way that section does, and
`Markdown.SeparatorCellReadsBack` shows every delimiter cell reads back as
its column's alignment. The one exception is a centred column with an
empty title. That column gets `"::"`, which has no dash and is not a
delimiter cell (`Markdown.CenteredEmptyNameIsNoDelimiter`). The program's
own column titles are never empty.

## Model

| member | source | states |
|---|---|---|
| `Hcl.ToVar` | main.go:45-52 | A row carries the key it came from, and is required exactly when its default is "". |
| `Hcl.ToVarFields` | main.go:48-52 | Description, type and default are the field's string, or "" when the field is missing or not a string. Sensitive is true only for a present bool field holding true, and false when it is missing or not a bool. |
| `Hcl.HclTable` | main.go:39-60 | The loops yield the flattened rows in order. There are as many rows as objects, summed over every name of every map. Every row is required iff its default is empty. A row appears iff some object of the document produced it under its own name. |
| `Hcl.AppendMapRows` | main.go:43-56 | The middle loop appends the rows of one map, name after name: as many rows as the map declares objects. |
| `Hcl.AppendEntryRows` | main.go:44-55 | The inner loop appends one row per object under one name, in order; row k is object k converted under that name. |
| `Hcl.EntryRowsAt` | main.go:44-55 | The objects under one name give one row each, in order, each with that name. |
| `Hcl.FlattenAppend` | main.go:42-57 | Rows from an earlier map of the list come before rows from a later map. |
| `Hcl.FlattenLength` | main.go:39-57 | The number of rows equals the number of inner objects summed over every name in every map. |
| `Hcl.FlattenMembers` | main.go:42-54 | A row is in the result iff some object declared under some name of some input map converts to it under that name. |
| `Hcl.FlattenRequired` | main.go:50-51 | Every produced row is required exactly when its default is the empty string. |
| `Hcl.MapRowsOrderIndependent` | main.go:43-56 | Iterating a map's names in any other order yields a permutation of the same rows. |
| `Hcl.FlattenOrderIndependent` | main.go:42-57 | A document's rows are the same up to permutation, whatever order each map is iterated in. |
| `Markdown.Dashes` | main.go:104 | `strings.Repeat("-", n)` is exactly n dashes. |
| `Markdown.SeparatorCell` | main.go:97-112 | A delimiter cell has `len(Name)+2` characters. It starts with ':' iff the column is left or centre aligned. It ends with ':' iff the column is centre or right aligned. Its middle is exactly `len(Name)` dashes. |
| `Markdown.MarkdownTable` | main.go:82-129 | Without columns the result is the error "no columns to render" and no line. Otherwise there are a header line, a delimiter line and one line per data row, each with one cell per column, equal to `Render`. |
| `Markdown.SeparatorCellReadsBack` | main.go:97-112 | Read as a GFM delimiter cell, every delimiter cell gives back its column's alignment, except for a centred column with an empty title. |
| `Markdown.CenteredEmptyNameIsNoDelimiter` | main.go:98-110 | A centred column with an empty title gets "::", which is not a GFM delimiter cell. |
| `Markdown.RenderedAlignments` | main.go:95-113 | With non-empty titles, the delimiter row has as many cells as the header row, and each cell declares its column's alignment. |
| `Markdown.RenderedDataCells` | main.go:115-126 | Data line k has one cell per column. Cell i is `" " + %v(Mapping(row[i])) + " "` when the column has a mapping, and `" " + %v(row[i]) + " "` otherwise. |
| `Readme.BoolFmt` | main.go:166-171 | boolFmt gives "yes" for true and "no" for false. It applies only to bools; any other value panics. |
| `Readme.VariablesRows` | main.go:184-192 | One row per variable, in order, holding (Name, Description, VarType, DefaultVal, Required). The rows fit the five columns, so rendering neither indexes past a row nor hands boolFmt a non-bool. |
| `Readme.VariablesRenderable` | main.go:175-192 | Every row of the variables table fits its columns, and the Required column's boolFmt only sees bools. |
| `Readme.VariablesHeader` | main.go:176-182 | The header row holds the five titles Name, Description, Type, Default and Required. |
| `Readme.VariablesSeparator` | main.go:176-182 | The delimiter row is unaligned for Name, left for Description and centred for Type, Default and Required. |
| `Readme.VariableDataLine` | main.go:184-192 | A variable's data row shows its name, description, type, default, and "yes" or "no" for Required. |
| `Readme.VariablesRendering` | main.go:175-196 | The rendered variables table has a header, a delimiter row and one data row per variable, in order. |
| `Readme.InputSection` | main.go:164-194 | For a parsed document, the Input table has one data row per declared object. A row's Required cell reads "yes" exactly when its Default cell is blank. |

## Left out

- `printTitle` depends on the working directory and on Unicode `strings.ToTitle`, so it is not modelled.
- Reading files, `hcl.Unmarshal`, flag parsing and the `log.Fatalf` exits of `main` are I/O or an external parser, so they are not modelled. The model starts from the parsed document.
- The type assertions that panic when the `variable`/`output` key is missing or mis-shaped are not modelled. The types of `Hcl.VarMap` make the document well shaped by construction.
- `text/tabwriter` padding and its `Debug` column separators come from a library, so they are not modelled. The model stops at the cells handed to it.
- `markdownTable` writes to `os.Stdout` rather than to its writer argument. That is an I/O detail, so the model just returns the lines.
- The Output section is rendered through `html/template`, whose HTML escaping is library behaviour, so it is not modelled. Its row prints "yes" exactly when `Sensitive` is true.
- The static headings (Overview, Input, Output, Usage, Troubleshooting) are fixed text, so they are not modelled.
- logger.go is a logging wrapper with no logic, so it is not part of this model.
- `Markdown.SeparatorCell`: Go's `len` counts UTF-8 bytes, while the model counts characters. The two agree for ASCII titles, and every title the program uses is ASCII.
- The model does not require the names of one map to be distinct, as a Go map's keys are. Every property holds without that assumption.
