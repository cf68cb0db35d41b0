/**
 * Block extraction: flattening the parsed `variable` / `output` blocks of an
 * HCL document into a list of rows (`hclTable` in main.go).
 *
 * The parsed document has the shape `[ {name: [ {field: value} ] } ]`: a list
 * of Go maps, each from a block name to the list of field objects declared
 * under that name. A Go map is iterated in an order the runtime picks, so a
 * map is modelled as the sequence of its (name, objects) pairs in that order;
 * nothing here depends on which order it is, and `FlattenOrderIndependent`
 * shows that the rows are the same up to permutation whatever the order.
 */
module Hcl {
  import opened Values

  /** One `{field: value}` object of a block. */
  type Block = map<string, Value>

  /** A Go `map[string]interface{}` as its (name, objects) pairs, in iteration order. */
  type VarMap = seq<(string, seq<Block>)>

  /** A parsed HCL variable or output (`HCLVar`). */
  datatype HclVar = HclVar(
    name: string,
    description: string,
    varType: string,
    defaultVal: string,
    required: bool,
    sensitive: bool)

  /** The field names hclTable reads from each object. */
  const DescriptionKey: string := "description"
  const TypeKey: string := "type"
  const DefaultKey: string := "default"
  const SensitiveKey: string := "sensitive"

  /** The field `key` is present and holds a string. */
  predicate HasString(x: Block, key: string)
  {
    key in x && x[key].Str?
  }

  /** The field `key` is present and holds a bool. */
  predicate HasBool(x: Block, key: string)
  {
    key in x && x[key].Bool?
  }

  /** A checked assertion `x[key].(string)`: the string, or "" when absent or not a string. */
  function StringField(x: Block, key: string): string
  {
    if HasString(x, key) then x[key].s else ""
  }

  /** A checked assertion `x[key].(bool)`: the bool, or false when absent or not a bool. */
  function BoolField(x: Block, key: string): bool
  {
    if HasBool(x, key) then x[key].b else false
  }

  /** The row built from one object declared under `name`; it is required exactly when it has no default. */
  function ToVar(name: string, x: Block): (r: HclVar)
    ensures r.name == name
    ensures r.required <==> r.defaultVal == ""
  {
    var defaultVal := StringField(x, DefaultKey);
    HclVar(name, StringField(x, DescriptionKey), StringField(x, TypeKey),
           defaultVal, defaultVal == "", BoolField(x, SensitiveKey))
  }

  /**
   * Each field of a row is the object's field when it is present with the
   * right type, and Go's zero value ("" or false) when it is missing or holds
   * another type.
   */
  lemma ToVarFields(name: string, x: Block)
    ensures HasString(x, DescriptionKey) ==> ToVar(name, x).description == x[DescriptionKey].s
    ensures !HasString(x, DescriptionKey) ==> ToVar(name, x).description == ""
    ensures HasString(x, TypeKey) ==> ToVar(name, x).varType == x[TypeKey].s
    ensures !HasString(x, TypeKey) ==> ToVar(name, x).varType == ""
    ensures HasString(x, DefaultKey) ==> ToVar(name, x).defaultVal == x[DefaultKey].s
    ensures !HasString(x, DefaultKey) ==> ToVar(name, x).defaultVal == ""
    ensures ToVar(name, x).sensitive <==> HasBool(x, SensitiveKey) && x[SensitiveKey].b
  {
  }

  // ---------------------------------------------------------------------------
  // Specification of the flattening, one function per loop of hclTable

  /** The rows of the objects declared under one name, in order. */
  function EntryRows(name: string, blocks: seq<Block>): seq<HclVar>
  {
    if blocks == [] then []
    else EntryRows(name, blocks[..|blocks| - 1]) + [ToVar(name, blocks[|blocks| - 1])]
  }

  /** The rows of one map, name after name in iteration order. */
  function MapRows(m: VarMap): seq<HclVar>
  {
    if m == [] then []
    else MapRows(m[..|m| - 1]) + EntryRows(m[|m| - 1].0, m[|m| - 1].1)
  }

  /** The rows of a whole document, map after map. */
  function Flatten(vars: seq<VarMap>): seq<HclVar>
  {
    if vars == [] then []
    else Flatten(vars[..|vars| - 1]) + MapRows(vars[|vars| - 1])
  }

  /** The number of objects declared in one map, summed over its names. */
  function MapEntryCount(m: VarMap): nat
  {
    if m == [] then 0 else |m[0].1| + MapEntryCount(m[1..])
  }

  /** The number of objects declared in a document, summed over its maps. */
  function EntryCount(vars: seq<VarMap>): nat
  {
    if vars == [] then 0 else MapEntryCount(vars[0]) + EntryCount(vars[1..])
  }

  /** The row was built from one object of the document, under the name it was declared with. */
  predicate FromDocument(vars: seq<VarMap>, r: HclVar)
  {
    exists m, p :: m in vars && p in m && FromEntry(p, r)
  }

  /** The row was built from one of the objects of `p`, under `p`'s name. */
  predicate FromEntry(p: (string, seq<Block>), r: HclVar)
  {
    exists b :: b in p.1 && r == ToVar(p.0, b)
  }

  // ---------------------------------------------------------------------------
  // hclTable

  /**
   * Flattens the parsed blocks into rows, as hclTable does: map after map,
   * name after name, object after object. The two inner loops are the
   * methods AppendMapRows and AppendEntryRows.
   */
  method HclTable(vars: seq<VarMap>) returns (hclVars: seq<HclVar>)
    ensures hclVars == Flatten(vars)
    ensures |hclVars| == EntryCount(vars)
    ensures forall r :: r in hclVars ==> (r.required <==> r.defaultVal == "")
    ensures forall r :: r in hclVars <==> FromDocument(vars, r)
  {
    hclVars := [];
    for i := 0 to |vars|
      invariant hclVars == Flatten(vars[..i])
    {
      hclVars := AppendMapRows(hclVars, vars[i]);
      FlattenSnoc(vars, i);
    }
    assert vars[..|vars|] == vars;
    FlattenFacts(vars);
  }

  /** The middle loop of hclTable: appends the rows of one map, name after name. */
  method AppendMapRows(hclVars: seq<HclVar>, varmap: VarMap) returns (out: seq<HclVar>)
    ensures out == hclVars + MapRows(varmap)
    ensures |out| == |hclVars| + MapEntryCount(varmap)
  {
    out := hclVars;
    for j := 0 to |varmap|
      invariant out == hclVars + MapRows(varmap[..j])
    {
      out := AppendEntryRows(out, varmap[j].0, varmap[j].1);
      MapRowsSnoc(varmap, j);
    }
    assert varmap[..|varmap|] == varmap;
    MapRowsLength(varmap);
  }

  /** The innermost loop of hclTable: appends one row per object declared under `name`, in order. */
  method AppendEntryRows(hclVars: seq<HclVar>, name: string, v: seq<Block>) returns (out: seq<HclVar>)
    ensures out == hclVars + EntryRows(name, v)
    ensures |out| == |hclVars| + |v|
    ensures forall k :: 0 <= k < |v| ==> out[|hclVars| + k] == ToVar(name, v[k])
  {
    out := hclVars;
    for k := 0 to |v|
      invariant out == hclVars + EntryRows(name, v[..k])
    {
      EntryRowsSnoc(name, v, k);
      out := out + [ToVar(name, v[k])];
    }
    assert v[..|v|] == v;
    EntryRowsAt(name, v);
  }

  // ---------------------------------------------------------------------------
  // Lemmas

  lemma EntryRowsSnoc(name: string, blocks: seq<Block>, k: nat)
    requires k < |blocks|
    ensures EntryRows(name, blocks[..k + 1]) == EntryRows(name, blocks[..k]) + [ToVar(name, blocks[k])]
  {
    assert blocks[..k + 1][..k] == blocks[..k];
  }

  lemma MapRowsSnoc(m: VarMap, j: nat)
    requires j < |m|
    ensures MapRows(m[..j + 1]) == MapRows(m[..j]) + EntryRows(m[j].0, m[j].1)
  {
    assert m[..j + 1][..j] == m[..j];
  }

  lemma FlattenSnoc(vars: seq<VarMap>, i: nat)
    requires i < |vars|
    ensures Flatten(vars[..i + 1]) == Flatten(vars[..i]) + MapRows(vars[i])
  {
    assert vars[..i + 1][..i] == vars[..i];
  }

  /** One row per object, in order, each carrying the name it was declared under. */
  lemma {:induction false} EntryRowsAt(name: string, blocks: seq<Block>)
    ensures |EntryRows(name, blocks)| == |blocks|
    ensures forall k :: 0 <= k < |blocks| ==> EntryRows(name, blocks)[k] == ToVar(name, blocks[k])
  {
    if blocks != [] {
      EntryRowsAt(name, blocks[..|blocks| - 1]);
    }
  }

  lemma SeqAssoc<T>(x: seq<T>, y: seq<T>, z: seq<T>)
    ensures (x + y) + z == x + (y + z)
  {
  }

  /** The rows of a map split at any point are the rows of the two parts, in order. */
  lemma {:induction false} MapRowsAppend(a: VarMap, b: VarMap)
    ensures MapRows(a + b) == MapRows(a) + MapRows(b)
  {
    if b == [] {
      assert a + b == a;
    } else {
      var b', x := b[..|b| - 1], b[|b| - 1];
      assert (a + b)[..|a + b| - 1] == a + b';
      assert (a + b)[|a + b| - 1] == x;
      var e := EntryRows(x.0, x.1);
      calc {
        MapRows(a + b);
        MapRows(a + b') + e;
        { MapRowsAppend(a, b'); }
        (MapRows(a) + MapRows(b')) + e;
        { SeqAssoc(MapRows(a), MapRows(b'), e); }
        MapRows(a) + (MapRows(b') + e);
        MapRows(a) + MapRows(b);
      }
    }
  }

  /** Rows from an earlier map of the list come before rows from a later one. */
  lemma {:induction false} FlattenAppend(a: seq<VarMap>, b: seq<VarMap>)
    ensures Flatten(a + b) == Flatten(a) + Flatten(b)
  {
    if b == [] {
      assert a + b == a;
    } else {
      var b', x := b[..|b| - 1], b[|b| - 1];
      assert (a + b)[..|a + b| - 1] == a + b';
      assert (a + b)[|a + b| - 1] == x;
      var e := MapRows(x);
      calc {
        Flatten(a + b);
        Flatten(a + b') + e;
        { FlattenAppend(a, b'); }
        (Flatten(a) + Flatten(b')) + e;
        { SeqAssoc(Flatten(a), Flatten(b'), e); }
        Flatten(a) + (Flatten(b') + e);
        Flatten(a) + Flatten(b);
      }
    }
  }

  lemma {:induction false} MapEntryCountAppend(a: VarMap, b: VarMap)
    ensures MapEntryCount(a + b) == MapEntryCount(a) + MapEntryCount(b)
  {
    if a != [] {
      assert (a + b)[1..] == a[1..] + b;
      MapEntryCountAppend(a[1..], b);
    } else {
      assert a + b == b;
    }
  }

  lemma {:induction false} EntryCountAppend(a: seq<VarMap>, b: seq<VarMap>)
    ensures EntryCount(a + b) == EntryCount(a) + EntryCount(b)
  {
    if a != [] {
      assert (a + b)[1..] == a[1..] + b;
      EntryCountAppend(a[1..], b);
    } else {
      assert a + b == b;
    }
  }

  /** A map yields as many rows as it declares objects, summed over its names. */
  lemma {:induction false} MapRowsLength(m: VarMap)
    ensures |MapRows(m)| == MapEntryCount(m)
  {
    if m != [] {
      var m' := m[..|m| - 1];
      MapRowsLength(m');
      EntryRowsAt(m[|m| - 1].0, m[|m| - 1].1);
      MapEntryCountAppend(m', [m[|m| - 1]]);
      assert m' + [m[|m| - 1]] == m;
    }
  }

  /** The document yields as many rows as it declares objects, summed over every name of every map. */
  lemma {:induction false} FlattenLength(vars: seq<VarMap>)
    ensures |Flatten(vars)| == EntryCount(vars)
  {
    if vars != [] {
      var v' := vars[..|vars| - 1];
      FlattenLength(v');
      MapRowsLength(vars[|vars| - 1]);
      EntryCountAppend(v', [vars[|vars| - 1]]);
      assert v' + [vars[|vars| - 1]] == vars;
    }
  }

  /** A row of a name's objects is exactly one of them converted under that name. */
  lemma {:induction false} EntryRowsMembers(name: string, blocks: seq<Block>, r: HclVar)
    ensures r in EntryRows(name, blocks) <==> exists b :: b in blocks && r == ToVar(name, b)
  {
    EntryRowsAt(name, blocks);
    if r in EntryRows(name, blocks) {
      var k :| 0 <= k < |blocks| && EntryRows(name, blocks)[k] == r;
      assert blocks[k] in blocks;
    }
    if b :| b in blocks && r == ToVar(name, b) {
      var k :| 0 <= k < |blocks| && blocks[k] == b;
      assert EntryRows(name, blocks)[k] == r;
    }
  }

  /** A row of a map comes from exactly one of its (name, objects) pairs. */
  lemma {:induction false} MapRowsMembers(m: VarMap, r: HclVar)
    ensures r in MapRows(m) <==> exists p :: p in m && FromEntry(p, r)
  {
    if m != [] {
      var m' := m[..|m| - 1];
      var last := m[|m| - 1];
      MapRowsMembers(m', r);
      EntryRowsMembers(last.0, last.1, r);
      assert m == m' + [last];
      if r in MapRows(m) {
        if r in MapRows(m') {
          var p :| p in m' && FromEntry(p, r);
          assert p in m;
        } else {
          assert r in EntryRows(last.0, last.1);
          assert last in m && FromEntry(last, r);
        }
      }
      if p :| p in m && FromEntry(p, r) {
        if p in m' {
          assert r in MapRows(m');
        } else {
          assert p == last;
          var b :| b in p.1 && r == ToVar(p.0, b);
          assert r in EntryRows(last.0, last.1);
        }
      }
    }
  }

  /** The rows of a document are exactly the objects it declares, each under its own name. */
  lemma {:induction false} FlattenMembers(vars: seq<VarMap>, r: HclVar)
    ensures r in Flatten(vars) <==> FromDocument(vars, r)
  {
    if vars != [] {
      var v' := vars[..|vars| - 1];
      var last := vars[|vars| - 1];
      FlattenMembers(v', r);
      MapRowsMembers(last, r);
      assert vars == v' + [last];
      assert forall m :: m in vars <==> m in v' || m == last;
    }
  }

  /** Every row is required exactly when its default is empty. */
  lemma {:induction false} FlattenRequired(vars: seq<VarMap>)
    ensures forall r :: r in Flatten(vars) ==> (r.required <==> r.defaultVal == "")
  {
    forall r | r in Flatten(vars)
      ensures r.required <==> r.defaultVal == ""
    {
      FlattenMembers(vars, r);
      var m, p :| m in vars && p in m && FromEntry(p, r);
      var b :| b in p.1 && r == ToVar(p.0, b);
    }
  }

  /** Taking the same element out of two permutations of each other leaves permutations. */
  lemma RemoveFromPermutation<T>(rest: seq<T>, before: seq<T>, after: seq<T>, x: T)
    requires multiset(rest + [x]) == multiset(before + [x] + after)
    ensures multiset(rest) == multiset(before + after)
  {
    calc {
      multiset(rest) + multiset{x};
      multiset(rest + [x]);
      multiset(before + [x] + after);
      multiset(before) + multiset{x} + multiset(after);
      multiset(before + after) + multiset{x};
    }
    assert multiset(rest) == multiset(rest) + multiset{x} - multiset{x};
    assert multiset(before + after) == multiset(before + after) + multiset{x} - multiset{x};
  }

  /** The facts hclTable's result is promised to satisfy, gathered for one call. */
  lemma FlattenFacts(vars: seq<VarMap>)
    ensures |Flatten(vars)| == EntryCount(vars)
    ensures forall r :: r in Flatten(vars) ==> (r.required <==> r.defaultVal == "")
    ensures forall r :: r in Flatten(vars) <==> FromDocument(vars, r)
  {
    FlattenLength(vars);
    FlattenRequired(vars);
    forall r ensures r in Flatten(vars) <==> FromDocument(vars, r) {
      FlattenMembers(vars, r);
    }
  }

  /** Iterating a map in another order permutes its rows and nothing more. */
  lemma {:induction false} MapRowsOrderIndependent(m: VarMap, m': VarMap)
    requires multiset(m) == multiset(m')
    ensures multiset(MapRows(m)) == multiset(MapRows(m'))
  {
    if m == [] {
      assert |m'| == |multiset(m')| == 0;
    } else {
      var rest, x := m[..|m| - 1], m[|m| - 1];
      assert m == rest + [x];
      assert x in multiset(m');
      var j :| 0 <= j < |m'| && m'[j] == x;
      var before, after := m'[..j], m'[j + 1..];
      assert m' == before + [x] + after;
      RemoveFromPermutation(rest, before, after, x);
      MapRowsOrderIndependent(rest, before + after);
      MapRowsAppend(before + [x], after);
      MapRowsAppend(before, after);
      assert (before + [x])[..|before|] == before;
      var e := EntryRows(x.0, x.1);
      calc {
        multiset(MapRows(m));
        multiset(MapRows(rest) + e);
        multiset(MapRows(rest)) + multiset(e);
        multiset(MapRows(before + after)) + multiset(e);
        multiset(MapRows(before) + MapRows(after)) + multiset(e);
        multiset(MapRows(before)) + multiset(e) + multiset(MapRows(after));
        multiset(MapRows(before) + e + MapRows(after));
        multiset(MapRows(before + [x]) + MapRows(after));
        multiset(MapRows(m'));
      }
    }
  }

  /** The rows of a document do not depend on the order its maps are iterated in, up to permutation. */
  lemma {:induction false} FlattenOrderIndependent(vars: seq<VarMap>, vars': seq<VarMap>)
    requires |vars| == |vars'|
    requires forall i :: 0 <= i < |vars| ==> multiset(vars[i]) == multiset(vars'[i])
    ensures multiset(Flatten(vars)) == multiset(Flatten(vars'))
  {
    if vars != [] {
      var n := |vars| - 1;
      FlattenOrderIndependent(vars[..n], vars'[..n]);
      MapRowsOrderIndependent(vars[n], vars'[n]);
    }
  }
}
