/**
 * The field-selection panel of the GUI: the catalogue of fields grouped by
 * category, one checkbox flag per field path, the Select All / Deselect All
 * / Reset to Default buttons, and the checks `start_export` makes before it
 * starts an export.
 */
module FieldSelection {
  import opened Wrappers
  import opened Text

  /** One catalogue entry: its dotted path, its label and whether it starts ticked. */
  datatype FieldSpec = FieldSpec(path: string, display: string, default: bool)

  /** `field_structure` flattened in declaration order: the Primary Fields, Basic, Info, Meta and Other categories. */
  const Catalog: seq<FieldSpec> := [
    FieldSpec("name", "Name", true),
    FieldSpec("info.meta.description", "Description", true),
    FieldSpec("info.params.system", "System Prompt", true),
    FieldSpec("id", "Model ID", false),
    FieldSpec("object", "Object Type", false),
    FieldSpec("created", "Creation Timestamp", false),
    FieldSpec("owned_by", "Owner", false),
    FieldSpec("info.id", "Info ID", false),
    FieldSpec("info.base_model_id", "Base Model", true),
    FieldSpec("info.name", "Info Name", false),
    FieldSpec("info.is_active", "Is Active", false),
    FieldSpec("info.created_at", "Info Created At", false),
    FieldSpec("info.updated_at", "Info Updated At", false),
    FieldSpec("info.meta.profile_image_url", "Profile Image URL", false),
    FieldSpec("info.meta.capabilities.usage", "Usage Capability", false),
    FieldSpec("info.meta.capabilities.vision", "Vision Capability", false),
    FieldSpec("info.meta.capabilities.citations", "Citations Capability", false),
    FieldSpec("info.meta.tags", "Tags", false),
    FieldSpec("preset", "Is Preset", false),
    FieldSpec("actions", "Actions", false)
  ]

  function Paths(fields: seq<FieldSpec>): (ps: seq<string>)
    ensures |ps| == |fields|
    ensures forall i :: 0 <= i < |fields| ==> ps[i] == fields[i].path
  {
    seq(|fields|, i requires 0 <= i < |fields| => fields[i].path)
  }

  /** The paths ticked by default, in catalogue order. */
  function DefaultPaths(fields: seq<FieldSpec>): seq<string>
    decreases |fields|
  {
    if |fields| == 0 then []
    else (if fields[0].default then [fields[0].path] else []) + DefaultPaths(fields[1..])
  }

  /** `[field for field, var in field_vars.items() if var.get()]`. */
  function Picked(order: seq<string>, flags: map<string, bool>): seq<string>
    decreases |order|
  {
    if |order| == 0 then []
    else (if order[0] in flags && flags[order[0]] then [order[0]] else []) + Picked(order[1..], flags)
  }

  lemma {:induction false} DefaultPathsAppend(a: seq<FieldSpec>, b: seq<FieldSpec>)
    ensures DefaultPaths(a + b) == DefaultPaths(a) + DefaultPaths(b)
    decreases |a|
  {
    if |a| > 0 {
      assert (a + b)[0] == a[0] && (a + b)[1..] == a[1..] + b;
      DefaultPathsAppend(a[1..], b);
    } else {
      assert a + b == b;
    }
  }

  lemma FirstPathsDistinct()
    ensures forall i, j :: 0 <= i < 10 && i < j < |Catalog| ==> Catalog[i].path != Catalog[j].path
  {
  }

  lemma LastPathsDistinct()
    ensures forall i, j :: 10 <= i < j < |Catalog| ==> Catalog[i].path != Catalog[j].path
  {
  }

  /** Twenty fields with twenty different paths. */
  lemma CatalogPathsDistinct()
    ensures |Catalog| == 20
    ensures Distinct(Paths(Catalog))
  {
    FirstPathsDistinct();
    LastPathsDistinct();
  }

  lemma DefaultPathsStep(fields: seq<FieldSpec>, k: int)
    requires 0 <= k < |fields|
    ensures DefaultPaths(fields[k..]) ==
            (if fields[k].default then [fields[k].path] else []) + DefaultPaths(fields[k + 1..])
  {
    assert fields[k..][1..] == fields[k + 1..];
  }

  /** A run of fields none of which starts ticked contributes nothing. */
  lemma {:induction false} NoDefaults(fields: seq<FieldSpec>)
    requires forall k :: 0 <= k < |fields| ==> !fields[k].default
    ensures DefaultPaths(fields) == []
    decreases |fields|
  {
    if |fields| > 0 {
      NoDefaults(fields[1..]);
    }
  }

  /** The first nine catalogue entries tick the first three and the last. */
  lemma LeadingDefaults(fields: seq<FieldSpec>)
    requires |fields| == 9
    requires fields[0].default && fields[1].default && fields[2].default && fields[8].default
    requires !fields[3].default && !fields[4].default && !fields[5].default && !fields[6].default && !fields[7].default
    ensures DefaultPaths(fields) == [fields[0].path, fields[1].path, fields[2].path, fields[8].path]
  {
    NoDefaults(fields[3..8]);
    DefaultPathsAppend(fields[3..8], fields[8..]);
    assert fields[3..8] + fields[8..] == fields[3..];
    DefaultPathsStep(fields, 8);
    assert fields[9..] == [];
    DefaultPathsStep(fields, 2);
    DefaultPathsStep(fields, 1);
    DefaultPathsStep(fields, 0);
    assert fields[0..] == fields;
  }

  /** Which catalogue entries start ticked: the first three and the ninth. */
  lemma DefaultFlags()
    ensures |Catalog| == 20
    ensures forall k :: 0 <= k < |Catalog| ==> (Catalog[k].default <==> k < 3 || k == 8)
  {
  }

  lemma DefaultPathsPattern(fields: seq<FieldSpec>)
    requires |fields| >= 9
    requires forall k :: 0 <= k < |fields| ==> (fields[k].default <==> k < 3 || k == 8)
    ensures DefaultPaths(fields) == [fields[0].path, fields[1].path, fields[2].path, fields[8].path]
  {
    var lead, rest := fields[..9], fields[9..];
    assert fields == lead + rest;
    DefaultPathsAppend(lead, rest);
    assert forall k :: 0 <= k < |rest| ==> rest[k] == fields[k + 9];
    NoDefaults(rest);
    assert forall k :: 0 <= k < 9 ==> lead[k] == fields[k];
    LeadingDefaults(lead);
  }

  /** Four fields start ticked: the three primary fields and the base model. */
  lemma CatalogDefaults()
    ensures DefaultPaths(Catalog) == ["name", "info.meta.description", "info.params.system", "info.base_model_id"]
  {
    DefaultFlags();
    DefaultPathsPattern(Catalog);
  }

  lemma {:induction false} PickedAll(order: seq<string>, flags: map<string, bool>)
    requires forall p :: p in order ==> p in flags && flags[p]
    ensures Picked(order, flags) == order
    decreases |order|
  {
    if |order| > 0 {
      PickedAll(order[1..], flags);
      assert order == [order[0]] + order[1..];
    }
  }

  lemma {:induction false} PickedNone(order: seq<string>, flags: map<string, bool>)
    requires forall p :: p in order ==> p in flags && !flags[p]
    ensures Picked(order, flags) == []
    decreases |order|
  {
    if |order| > 0 {
      PickedNone(order[1..], flags);
    }
  }

  /** The selection is empty exactly when no listed field is ticked. */
  lemma {:induction false} PickedEmpty(order: seq<string>, flags: map<string, bool>)
    ensures Picked(order, flags) == [] <==> forall p :: p in order && p in flags ==> !flags[p]
    decreases |order|
  {
    if |order| > 0 {
      PickedEmpty(order[1..], flags);
      assert forall p :: p in order ==> p == order[0] || p in order[1..];
    }
  }

  /** The selection is the listed fields that are ticked, in listing order. */
  lemma {:induction false} PickedMembers(order: seq<string>, flags: map<string, bool>)
    ensures forall p :: p in Picked(order, flags) <==> p in order && p in flags && flags[p]
    decreases |order|
  {
    if |order| > 0 {
      PickedMembers(order[1..], flags);
      assert forall p :: p in order ==> p == order[0] || p in order[1..];
    }
  }

  /** A selection from distinct paths names no field twice. */
  lemma {:induction false} PickedDistinct(order: seq<string>, flags: map<string, bool>)
    requires Distinct(order)
    ensures Distinct(Picked(order, flags))
    decreases |order|
  {
    if |order| > 0 {
      var rest := order[1..];
      assert Distinct(rest) by {
        forall i, j | 0 <= i < j < |rest| ensures rest[i] != rest[j] {
          assert rest[i] == order[i + 1] && rest[j] == order[j + 1];
        }
      }
      PickedDistinct(rest, flags);
      PickedMembers(rest, flags);
      assert order[0] !in rest by {
        forall i | 0 <= i < |rest| ensures rest[i] != order[0] {
          assert rest[i] == order[i + 1];
        }
      }
    }
  }

  lemma {:induction false} PickedDefaults(fields: seq<FieldSpec>, flags: map<string, bool>)
    requires forall i :: 0 <= i < |fields| ==> fields[i].path in flags && flags[fields[i].path] == fields[i].default
    ensures Picked(Paths(fields), flags) == DefaultPaths(fields)
    decreases |fields|
  {
    if |fields| > 0 {
      PickedDefaults(fields[1..], flags);
      assert Paths(fields)[1..] == Paths(fields[1..]);
    }
  }

  /**
   * `initialize_field_checkboxes` on an empty `field_vars`: a flag per path in
   * catalogue order, set to its default; a path already present is skipped.
   */
  method InitialFlags(fields: seq<FieldSpec>) returns (order: seq<string>, flags: map<string, bool>)
    ensures Distinct(order)
    ensures forall p :: p in flags <==> p in order
    ensures forall p :: p in order <==> p in Paths(fields)
    ensures Distinct(Paths(fields)) ==>
              order == Paths(fields) && forall i :: 0 <= i < |fields| ==> flags[fields[i].path] == fields[i].default
    ensures Distinct(Paths(fields)) ==> Picked(order, flags) == DefaultPaths(fields)
  {
    order, flags := [], map[];
    for i := 0 to |fields|
      invariant Distinct(order)
      invariant forall p :: p in flags <==> p in order
      invariant forall p :: p in order <==> p in Paths(fields[..i])
      invariant Distinct(Paths(fields)) ==>
                  order == Paths(fields[..i]) && forall k :: 0 <= k < i ==> flags[fields[k].path] == fields[k].default
    {
      var key := fields[i].path;
      assert Paths(fields[..i + 1]) == Paths(fields[..i]) + [key];
      if Distinct(Paths(fields)) {
        assert key !in Paths(fields[..i]) by {
          assert forall k :: 0 <= k < i ==> Paths(fields[..i])[k] == Paths(fields)[k];
        }
      }
      if key !in flags {
        flags := flags[key := fields[i].default];
        order := order + [key];
      }
    }
    assert fields[..|fields|] == fields;
    if Distinct(Paths(fields)) {
      PickedDefaults(fields, flags);
    }
  }

  /** What `start_export` refuses, in the order it checks. */
  datatype StartError =
    | NoInputFile
    | NoOutputDir
    | InputMissing
    | CannotCreateOutputDir
    | NoFieldSelected

  /** The checkbox panel: `field_structure` and `field_vars`, keyed by path in creation order. */
  class FieldPanel {
    const catalog: seq<FieldSpec>
    const order: seq<string>
    var selected: map<string, bool>

    ghost predicate Valid()
      reads this
    {
      order == Paths(catalog) && Distinct(order) && forall p :: p in selected <==> p in order
    }

    /** `[field for field, var in self.field_vars.items() if var.get()]`. */
    function Selection(): seq<string>
      reads this
    {
      Picked(order, selected)
    }

    /**
     * `__init__` with `field_structure` flattened to `fields`, followed by
     * `initialize_field_checkboxes`: one flag per path, set to its default.
     * Once the paths are distinct, as those of `Catalog` are, the panel is
     * valid and shows the default selection.
     */
    constructor (fields: seq<FieldSpec>)
      ensures catalog == fields
      ensures Distinct(order) && forall p :: p in selected <==> p in order
      ensures forall p :: p in order <==> p in Paths(fields)
      ensures Distinct(Paths(fields)) ==> Valid()
      ensures Distinct(Paths(fields)) ==> forall i :: 0 <= i < |fields| ==> selected[fields[i].path] == fields[i].default
      ensures Distinct(Paths(fields)) ==> Selection() == DefaultPaths(fields)
    {
      var o, flags := InitialFlags(fields);
      catalog := fields;
      order := o;
      selected := flags;
    }

    /** `select_all_fields`. */
    method SelectAll()
      requires Valid()
      modifies this
      ensures Valid()
      ensures forall p :: p in order ==> selected[p]
      ensures Selection() == order
    {
      for i := 0 to |order|
        invariant forall p :: p in selected <==> p in order
        invariant forall k :: 0 <= k < i ==> selected[order[k]]
      {
        selected := selected[order[i] := true];
      }
      PickedAll(order, selected);
    }

    /** `deselect_all_fields`. */
    method DeselectAll()
      requires Valid()
      modifies this
      ensures Valid()
      ensures forall p :: p in order ==> !selected[p]
      ensures Selection() == []
    {
      for i := 0 to |order|
        invariant forall p :: p in selected <==> p in order
        invariant forall k :: 0 <= k < i ==> !selected[order[k]]
      {
        selected := selected[order[i] := false];
      }
      PickedNone(order, selected);
    }

    /** `reset_to_default`: every catalogue field back to its default. */
    method ResetToDefault()
      requires Valid()
      modifies this
      ensures Valid()
      ensures forall i :: 0 <= i < |catalog| ==> selected[catalog[i].path] == catalog[i].default
      ensures Selection() == DefaultPaths(catalog)
    {
      for i := 0 to |catalog|
        invariant forall p :: p in selected <==> p in order
        invariant forall k :: 0 <= k < i ==> selected[order[k]] == catalog[k].default
      {
        selected := selected[catalog[i].path := catalog[i].default];
      }
      PickedDefaults(catalog, selected);
    }

    /** The selection loop at the start of `perform_export`. */
    method SelectedFields() returns (fields: seq<string>)
      ensures fields == Selection()
    {
      fields := [];
      var i := |order|;
      while i > 0
        invariant 0 <= i <= |order|
        invariant fields == Picked(order[i..], selected)
      {
        i := i - 1;
        assert order[i..][1..] == order[i + 1..];
        if order[i] in selected && selected[order[i]] {
          fields := [order[i]] + fields;
        }
      }
    }

    /** `any(var.get() for var in self.field_vars.values())`. */
    method AnySelected() returns (any: bool)
      requires Valid()
      ensures any <==> Selection() != []
    {
      any := false;
      var i := 0;
      while i < |order|
        invariant 0 <= i <= |order|
        invariant any <==> exists k :: 0 <= k < i && selected[order[k]]
      {
        if selected[order[i]] {
          any := true;
        }
        i := i + 1;
      }
      PickedEmpty(order, selected);
    }

    /**
     * The checks of `start_export`, in order. The file system is given as
     * facts: whether the input exists, whether the output directory exists,
     * and whether creating it would succeed.
     */
    method StartExport(inputPath: string, outputDir: string, inputExists: bool, outputExists: bool, canCreate: bool)
      returns (r: Option<StartError>)
      requires Valid()
      ensures r == Some(NoInputFile) <==> inputPath == ""
      ensures r == Some(NoOutputDir) <==> inputPath != "" && outputDir == ""
      ensures r == Some(InputMissing) <==> inputPath != "" && outputDir != "" && !inputExists
      ensures r == Some(CannotCreateOutputDir) <==>
                inputPath != "" && outputDir != "" && inputExists && !outputExists && !canCreate
      ensures r == None <==>
                inputPath != "" && outputDir != "" && inputExists && (outputExists || canCreate) && Selection() != []
    {
      if inputPath == "" {
        return Some(NoInputFile);
      }
      if outputDir == "" {
        return Some(NoOutputDir);
      }
      if !inputExists {
        return Some(InputMissing);
      }
      if !outputExists && !canCreate {
        return Some(CannotCreateOutputDir);
      }
      var any := AnySelected();
      if !any {
        return Some(NoFieldSelected);
      }
      return None;
    }
  }
}
