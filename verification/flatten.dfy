/** `flatten_schema`: the depth-bounded walk of a model's fields that turns
    nested, optional and repeated fields into an ordered list of flat column
    names. Pydantic reflection (`get_model_fields`, `get_field_type`,
    `is_pydantic_model`) is replaced by an explicit environment from model
    names to their fields in declaration order. */
module Flatten {
  import opened Text
  import opened Naming
  import opened Types
  import opened Optional

  datatype Field = Field(name: string, ty: Ty)

  /** The fields of every model class, in declaration order. */
  type Env = map<string, seq<Field>>

  /** The `schema` section of the configuration, resolved. */
  datatype Config = Config(
    separator: string,
    caseStyle: string,
    maxDepth: int,
    maxArrayItems: int,
    includeFields: set<string>,
    excludeFields: set<string>)

  /** The `schema` section as written: any entry may be missing. */
  datatype SchemaOptions = SchemaOptions(
    separator: Option<string>,
    caseStyle: Option<string>,
    maxDepth: Option<int>,
    maxArrayItems: Option<int>,
    includeFields: Option<seq<string>>,
    excludeFields: Option<seq<string>>)

  /** Reading the `schema` section with the defaults of `flatten_schema`:
      a given entry is used as it is; a missing one defaults to separator
      `_`, snake case, depth 3, three array items, no inclusion or
      exclusion list. Lists become sets. */
  function Resolve(o: SchemaOptions): (c: Config)
    ensures o.separator.None? ==> c.separator == "_"
    ensures o.caseStyle.None? ==> c.caseStyle == "snake"
    ensures o.maxDepth.None? ==> c.maxDepth == 3
    ensures o.maxArrayItems.None? ==> c.maxArrayItems == 3
    ensures o.separator.Some? ==> c.separator == o.separator.value
    ensures o.caseStyle.Some? ==> c.caseStyle == o.caseStyle.value
    ensures o.maxDepth.Some? ==> c.maxDepth == o.maxDepth.value
    ensures o.maxArrayItems.Some? ==> c.maxArrayItems == o.maxArrayItems.value
    ensures o.includeFields.None? ==> c.includeFields == {}
    ensures o.excludeFields.None? ==> c.excludeFields == {}
    ensures o.includeFields.Some? ==> forall x :: x in c.includeFields <==> x in o.includeFields.value
    ensures o.excludeFields.Some? ==> forall x :: x in c.excludeFields <==> x in o.excludeFields.value
  {
    Config(
      GetOr(o.separator, "_"),
      GetOr(o.caseStyle, "snake"),
      GetOr(o.maxDepth, 3),
      GetOr(o.maxArrayItems, 3),
      set x | x in GetOr(o.includeFields, []),
      set x | x in GetOr(o.excludeFields, []))
  }

  /** `get_model_fields`: an unknown model has no fields. */
  function ModelFields(env: Env, model: string): seq<Field>
  {
    if model in env then env[model] else []
  }

  /** `column_base`: the field name, behind the prefix and the separator
      when there is a prefix. */
  function ColumnBase(prefix: string, sep: string, name: string): string
  {
    if prefix == "" then name else prefix + sep + name
  }

  /** The name of array item `i`: `f"{column_base}{separator}{i}"`. */
  function Indexed(base: string, sep: string, i: nat): string
  {
    base + sep + Decimal(i)
  }

  /** How many items `range(max_array_items)` yields. */
  function ItemCount(cfg: Config): nat
  {
    if cfg.maxArrayItems > 0 then cfg.maxArrayItems else 0
  }

  /** Whether the field filters let a field through at this depth: the
      exclusion list applies at every depth and first, the inclusion list
      only at the top and only when it is not empty. */
  predicate Admitted(cfg: Config, name: string, depth: int)
  {
    name !in cfg.excludeFields &&
    !(|cfg.includeFields| > 0 && depth == 0 && name !in cfg.includeFields)
  }

  /** `flatten_schema(model, config, prefix, depth)`. */
  function Flatten(env: Env, cfg: Config, model: string, prefix: string, depth: int): seq<string>
    decreases cfg.maxDepth - depth, 3, 0
  {
    if depth >= cfg.maxDepth then []
    else FieldsColumns(env, cfg, ModelFields(env, model), prefix, depth)
  }

  /** The loop over the fields: each field's columns, in field order. */
  function FieldsColumns(env: Env, cfg: Config, fields: seq<Field>, prefix: string, depth: int): seq<string>
    requires depth < cfg.maxDepth
    decreases cfg.maxDepth - depth, 2, |fields|
  {
    if |fields| == 0 then []
    else FieldColumns(env, cfg, fields[0], prefix, depth) + FieldsColumns(env, cfg, fields[1..], prefix, depth)
  }

  /** One iteration of the loop over the fields. */
  function FieldColumns(env: Env, cfg: Config, f: Field, prefix: string, depth: int): seq<string>
    requires depth < cfg.maxDepth
    decreases cfg.maxDepth - depth, 1, 0
  {
    if !Admitted(cfg, f.name, depth) then []
    else
      var u := Unwrap(f.ty);
      var base := ColumnBase(prefix, cfg.separator, f.name);
      if u.isList then
        if IsPrimitive(u.inner) then LeafItems(cfg, base, ItemCount(cfg))
        else ItemsColumns(env, cfg, u.inner, base, depth, ItemCount(cfg))
      else if u.inner.Model? then Flatten(env, cfg, u.inner.name, base, depth + 1)
      else [ApplyCase(base, cfg.caseStyle)]
  }

  /** The columns of the first `n` items of a list of primitives: one
      case-styled indexed name each. */
  function LeafItems(cfg: Config, base: string, n: nat): seq<string>
  {
    if n == 0 then []
    else LeafItems(cfg, base, n - 1) + [ApplyCase(Indexed(base, cfg.separator, n - 1), cfg.caseStyle)]
  }

  /** The columns of the first `n` items of a list of anything else: a
      model item is flattened one level deeper under the raw indexed name;
      any other item becomes one case-styled indexed column. */
  function ItemsColumns(env: Env, cfg: Config, inner: Ty, base: string, depth: int, n: nat): seq<string>
    requires depth < cfg.maxDepth
    decreases cfg.maxDepth - depth, 0, n
  {
    if n == 0 then []
    else
      var itemPrefix := Indexed(base, cfg.separator, n - 1);
      ItemsColumns(env, cfg, inner, base, depth, n - 1) +
      (if inner.Model? then Flatten(env, cfg, inner.name, itemPrefix, depth + 1)
       else [ApplyCase(itemPrefix, cfg.caseStyle)])
  }

  /** The column list of a resource: `flatten_schema(resource_class, config)`. */
  function SchemaColumns(env: Env, cfg: Config, root: string): seq<string>
  {
    Flatten(env, cfg, root, "", 0)
  }

  /** Past the depth limit nothing is emitted, whatever the model: with a
      limit of zero or less a schema has no columns at all. */
  lemma DepthCutoff(env: Env, cfg: Config, model: string, prefix: string, depth: int)
    requires depth >= cfg.maxDepth
    ensures Flatten(env, cfg, model, prefix, depth) == []
    ensures cfg.maxDepth <= 0 ==> SchemaColumns(env, cfg, model) == []
  {
  }

  /** The columns of a field list are those of its fields, in field order:
      splitting the list splits the columns. */
  lemma {:induction false} FieldsColumnsAppend(env: Env, cfg: Config, a: seq<Field>, b: seq<Field>, prefix: string, depth: int)
    requires depth < cfg.maxDepth
    ensures FieldsColumns(env, cfg, a + b, prefix, depth) ==
            FieldsColumns(env, cfg, a, prefix, depth) + FieldsColumns(env, cfg, b, prefix, depth)
    decreases |a|
  {
    if |a| == 0 {
      assert a + b == b;
    } else {
      assert (a + b)[0] == a[0];
      assert (a + b)[1..] == a[1..] + b;
      FieldsColumnsAppend(env, cfg, a[1..], b, prefix, depth);
    }
  }

  // ---- Exclusion applies at every depth ----

  /** The fields whose name is not in `names`, in order. */
  function Without(fields: seq<Field>, names: set<string>): (r: seq<Field>)
    ensures forall f :: f in r <==> f in fields && f.name !in names
  {
    if |fields| == 0 then []
    else (if fields[0].name in names then [] else [fields[0]]) + Without(fields[1..], names)
  }

  /** Every model with the excluded fields deleted. */
  function WithoutEnv(env: Env, names: set<string>): (r: Env)
    ensures r.Keys == env.Keys
  {
    map m | m in env :: Without(env[m], names)
  }

  /** Deleting the excluded fields from every model, at every depth,
      changes no column: an excluded field contributes nothing wherever it
      occurs. */
  lemma {:induction false} ExcludedNeverMatter(env: Env, cfg: Config, model: string, prefix: string, depth: int)
    ensures Flatten(env, cfg, model, prefix, depth) ==
            Flatten(WithoutEnv(env, cfg.excludeFields), cfg, model, prefix, depth)
    decreases cfg.maxDepth - depth, 3, 0
  {
    if depth < cfg.maxDepth {
      var env' := WithoutEnv(env, cfg.excludeFields);
      assert ModelFields(env', model) == Without(ModelFields(env, model), cfg.excludeFields);
      ExcludedNeverMatterFields(env, cfg, ModelFields(env, model), prefix, depth);
    }
  }

  lemma {:induction false} ExcludedNeverMatterFields(env: Env, cfg: Config, fields: seq<Field>, prefix: string, depth: int)
    requires depth < cfg.maxDepth
    ensures FieldsColumns(env, cfg, fields, prefix, depth) ==
            FieldsColumns(WithoutEnv(env, cfg.excludeFields), cfg, Without(fields, cfg.excludeFields), prefix, depth)
    decreases cfg.maxDepth - depth, 2, |fields|
  {
    if |fields| > 0 {
      var env' := WithoutEnv(env, cfg.excludeFields);
      var f := fields[0];
      ExcludedNeverMatterFields(env, cfg, fields[1..], prefix, depth);
      if f.name in cfg.excludeFields {
        assert Without(fields, cfg.excludeFields) == Without(fields[1..], cfg.excludeFields);
      } else {
        var kept := Without(fields, cfg.excludeFields);
        assert kept == [f] + Without(fields[1..], cfg.excludeFields);
        assert kept[0] == f && kept[1..] == Without(fields[1..], cfg.excludeFields);
        ExcludedNeverMatterField(env, cfg, f, prefix, depth);
      }
    }
  }

  lemma {:induction false} ExcludedNeverMatterField(env: Env, cfg: Config, f: Field, prefix: string, depth: int)
    requires depth < cfg.maxDepth
    ensures FieldColumns(env, cfg, f, prefix, depth) ==
            FieldColumns(WithoutEnv(env, cfg.excludeFields), cfg, f, prefix, depth)
    decreases cfg.maxDepth - depth, 1, 0
  {
    if Admitted(cfg, f.name, depth) {
      var u := Unwrap(f.ty);
      var base := ColumnBase(prefix, cfg.separator, f.name);
      if u.isList {
        if !IsPrimitive(u.inner) {
          ExcludedNeverMatterItems(env, cfg, u.inner, base, depth, ItemCount(cfg));
        }
      } else if u.inner.Model? {
        ExcludedNeverMatter(env, cfg, u.inner.name, base, depth + 1);
      }
    }
  }

  lemma {:induction false} ExcludedNeverMatterItems(env: Env, cfg: Config, inner: Ty, base: string, depth: int, n: nat)
    requires depth < cfg.maxDepth
    ensures ItemsColumns(env, cfg, inner, base, depth, n) ==
            ItemsColumns(WithoutEnv(env, cfg.excludeFields), cfg, inner, base, depth, n)
    decreases cfg.maxDepth - depth, 0, n
  {
    if n > 0 {
      ExcludedNeverMatterItems(env, cfg, inner, base, depth, n - 1);
      if inner.Model? {
        ExcludedNeverMatter(env, cfg, inner.name, Indexed(base, cfg.separator, n - 1), depth + 1);
      }
    }
  }

  // ---- Inclusion applies at the top only ----

  /** The configuration without an inclusion list. */
  function IncludeAll(cfg: Config): Config
  {
    cfg.(includeFields := {})
  }

  /** Below the top level the inclusion list is never consulted: flattening
      a nested model is the same with or without it. */
  lemma {:induction false} IncludeIgnoredBelowTop(env: Env, cfg: Config, model: string, prefix: string, depth: int)
    requires depth > 0
    ensures Flatten(env, cfg, model, prefix, depth) == Flatten(env, IncludeAll(cfg), model, prefix, depth)
    decreases cfg.maxDepth - depth, 3, 0
  {
    if depth < cfg.maxDepth {
      IncludeIgnoredBelowTopFields(env, cfg, ModelFields(env, model), prefix, depth);
    }
  }

  lemma {:induction false} IncludeIgnoredBelowTopFields(env: Env, cfg: Config, fields: seq<Field>, prefix: string, depth: int)
    requires 0 < depth < cfg.maxDepth
    ensures FieldsColumns(env, cfg, fields, prefix, depth) ==
            FieldsColumns(env, IncludeAll(cfg), fields, prefix, depth)
    decreases cfg.maxDepth - depth, 2, |fields|
  {
    if |fields| > 0 {
      if Admitted(cfg, fields[0].name, depth) {
        IncludeIgnoredField(env, cfg, fields[0], prefix, depth);
      }
      IncludeIgnoredBelowTopFields(env, cfg, fields[1..], prefix, depth);
    }
  }

  /** Once a field is admitted, what it emits does not depend on the
      inclusion list (everything below it lies deeper than the top). */
  lemma {:induction false} IncludeIgnoredField(env: Env, cfg: Config, f: Field, prefix: string, depth: int)
    requires 0 <= depth < cfg.maxDepth
    requires Admitted(cfg, f.name, depth)
    ensures FieldColumns(env, cfg, f, prefix, depth) ==
            FieldColumns(env, IncludeAll(cfg), f, prefix, depth)
    decreases cfg.maxDepth - depth, 1, 0
  {
    var u := Unwrap(f.ty);
    var base := ColumnBase(prefix, cfg.separator, f.name);
    assert ApplyCase(base, cfg.caseStyle) == ApplyCase(base, IncludeAll(cfg).caseStyle);
    if u.isList {
      if !IsPrimitive(u.inner) {
        IncludeIgnoredItems(env, cfg, u.inner, base, depth, ItemCount(cfg));
      } else {
        LeafItemsConfig(cfg, IncludeAll(cfg), base, ItemCount(cfg));
      }
    } else if u.inner.Model? {
      IncludeIgnoredBelowTop(env, cfg, u.inner.name, base, depth + 1);
    }
  }

  lemma {:induction false} IncludeIgnoredItems(env: Env, cfg: Config, inner: Ty, base: string, depth: int, n: nat)
    requires 0 <= depth < cfg.maxDepth
    ensures ItemsColumns(env, cfg, inner, base, depth, n) ==
            ItemsColumns(env, IncludeAll(cfg), inner, base, depth, n)
    decreases cfg.maxDepth - depth, 0, n
  {
    if n > 0 {
      IncludeIgnoredItems(env, cfg, inner, base, depth, n - 1);
      if inner.Model? {
        IncludeIgnoredBelowTop(env, cfg, inner.name, Indexed(base, cfg.separator, n - 1), depth + 1);
      }
    }
  }

  /** Leaf items depend on the configuration only through its separator
      and case style. */
  lemma {:induction false} LeafItemsConfig(cfg: Config, cfg': Config, base: string, n: nat)
    requires cfg.separator == cfg'.separator && cfg.caseStyle == cfg'.caseStyle
    ensures LeafItems(cfg, base, n) == LeafItems(cfg', base, n)
  {
    if n > 0 {
      LeafItemsConfig(cfg, cfg', base, n - 1);
    }
  }

  /** The fields named in `names`, in order. */
  function Only(fields: seq<Field>, names: set<string>): (r: seq<Field>)
    ensures forall f :: f in r <==> f in fields && f.name in names
  {
    if |fields| == 0 then []
    else (if fields[0].name in names then [fields[0]] else []) + Only(fields[1..], names)
  }

  /** A non-empty inclusion list keeps exactly the top-level fields it
      names and then plays no further part; an empty one keeps every
      field. */
  lemma {:induction false} IncludeFiltersTop(env: Env, cfg: Config, fields: seq<Field>, prefix: string)
    requires 0 < cfg.maxDepth
    ensures |cfg.includeFields| > 0 ==>
              FieldsColumns(env, cfg, fields, prefix, 0) ==
              FieldsColumns(env, IncludeAll(cfg), Only(fields, cfg.includeFields), prefix, 0)
    ensures |cfg.includeFields| == 0 ==>
              FieldsColumns(env, cfg, fields, prefix, 0) == FieldsColumns(env, IncludeAll(cfg), fields, prefix, 0)
    decreases |fields|
  {
    if |fields| > 0 {
      var f := fields[0];
      IncludeFiltersTop(env, cfg, fields[1..], prefix);
      var only := Only(fields, cfg.includeFields);
      if f.name in cfg.includeFields || |cfg.includeFields| == 0 {
        if f.name in cfg.includeFields {
          assert only == [f] + Only(fields[1..], cfg.includeFields);
          assert only[0] == f && only[1..] == Only(fields[1..], cfg.includeFields);
        }
        if Admitted(cfg, f.name, 0) {
          IncludeIgnoredField(env, cfg, f, prefix, 0);
        }
      } else {
        assert only == Only(fields[1..], cfg.includeFields);
      }
    }
  }

  // ---- What each kind of field emits ----

  /** The items of a list of primitives: exactly `n` columns, item `i`
      being the case-styled name `base + sep + str(i)`, in ascending
      order. */
  lemma {:induction false} LeafItemsShape(cfg: Config, base: string, n: nat)
    ensures |LeafItems(cfg, base, n)| == n
    ensures forall i :: 0 <= i < n ==>
              LeafItems(cfg, base, n)[i] == ApplyCase(Indexed(base, cfg.separator, i), cfg.caseStyle)
  {
    if n > 0 {
      LeafItemsShape(cfg, base, n - 1);
    }
  }

  /** Items that are not models are emitted exactly like primitive ones:
      one case-styled indexed column each. */
  lemma {:induction false} ItemsColumnsOfLeaves(env: Env, cfg: Config, inner: Ty, base: string, depth: int, n: nat)
    requires depth < cfg.maxDepth
    requires !inner.Model?
    ensures ItemsColumns(env, cfg, inner, base, depth, n) == LeafItems(cfg, base, n)
  {
    if n > 0 {
      ItemsColumnsOfLeaves(env, cfg, inner, base, depth, n - 1);
    }
  }

  /** What one field emits, by kind: nothing when the filters reject it;
      one case-styled column for a plain field; the nested model's columns
      one level deeper under the raw column base for a model field; for a
      list whose items are not models, exactly `max_array_items` indexed
      columns in ascending order (none when that setting is zero or less);
      and nothing at all for any list when that setting is zero or less. */
  lemma FieldShapes(env: Env, cfg: Config, f: Field, prefix: string, depth: int)
    requires depth < cfg.maxDepth
    ensures !Admitted(cfg, f.name, depth) ==> FieldColumns(env, cfg, f, prefix, depth) == []
    ensures Admitted(cfg, f.name, depth) && !Unwrap(f.ty).isList && !Unwrap(f.ty).inner.Model? ==>
              FieldColumns(env, cfg, f, prefix, depth) ==
              [ApplyCase(ColumnBase(prefix, cfg.separator, f.name), cfg.caseStyle)]
    ensures Admitted(cfg, f.name, depth) && !Unwrap(f.ty).isList && Unwrap(f.ty).inner.Model? ==>
              FieldColumns(env, cfg, f, prefix, depth) ==
              Flatten(env, cfg, Unwrap(f.ty).inner.name, ColumnBase(prefix, cfg.separator, f.name), depth + 1)
    ensures Admitted(cfg, f.name, depth) && Unwrap(f.ty).isList && !Unwrap(f.ty).inner.Model? ==>
              var cols := FieldColumns(env, cfg, f, prefix, depth);
              |cols| == ItemCount(cfg) &&
              forall i :: 0 <= i < |cols| ==>
                cols[i] == ApplyCase(Indexed(ColumnBase(prefix, cfg.separator, f.name), cfg.separator, i), cfg.caseStyle)
    ensures Unwrap(f.ty).isList && cfg.maxArrayItems <= 0 ==> FieldColumns(env, cfg, f, prefix, depth) == []
  {
    var u := Unwrap(f.ty);
    var base := ColumnBase(prefix, cfg.separator, f.name);
    if Admitted(cfg, f.name, depth) && u.isList {
      LeafItemsShape(cfg, base, ItemCount(cfg));
      if !IsPrimitive(u.inner) && !u.inner.Model? {
        ItemsColumnsOfLeaves(env, cfg, u.inner, base, depth, ItemCount(cfg));
      }
    }
  }

  /** An excluded field emits nothing at any depth, even when the
      inclusion list names it. */
  lemma ExclusionWins(env: Env, cfg: Config, f: Field, prefix: string, depth: int)
    requires depth < cfg.maxDepth
    requires f.name in cfg.excludeFields
    ensures FieldColumns(env, cfg, f, prefix, depth) == []
  {
  }

  // ---- Case style is applied once, to the whole raw path ----

  /** `f` applied to every element, in order. */
  function MapSeq<A, B>(f: A -> B, s: seq<A>): (r: seq<B>)
    ensures |r| == |s|
    ensures forall i :: 0 <= i < |s| ==> r[i] == f(s[i])
  {
    seq(|s|, i requires 0 <= i < |s| => f(s[i]))
  }

  lemma MapSeqAppend<A, B>(f: A -> B, a: seq<A>, b: seq<A>)
    ensures MapSeq(f, a + b) == MapSeq(f, a) + MapSeq(f, b)
  {
    var l, r := MapSeq(f, a + b), MapSeq(f, a) + MapSeq(f, b);
    forall i | 0 <= i < |a + b|
      ensures l[i] == r[i]
    {
      if i < |a| {
        assert (a + b)[i] == a[i];
      } else {
        assert (a + b)[i] == b[i - |a|];
      }
    }
  }

  function Styler(style: string): string -> string
  {
    c => ApplyCase(c, style)
  }

  /** Every column case-styled. */
  function StyleAll(cols: seq<string>, style: string): (r: seq<string>)
    ensures |r| == |cols|
    ensures forall i :: 0 <= i < |cols| ==> r[i] == ApplyCase(cols[i], style)
  {
    MapSeq(Styler(style), cols)
  }

  lemma StyleAllAppend(a: seq<string>, b: seq<string>, style: string)
    ensures StyleAll(a + b, style) == StyleAll(a, style) + StyleAll(b, style)
  {
    MapSeqAppend(Styler(style), a, b);
  }

  /** The same configuration with a case style that leaves names as they
      are. */
  function Raw(cfg: Config): (c: Config)
    ensures forall name :: ApplyCase(name, c.caseStyle) == name
  {
    cfg.(caseStyle := "raw")
  }

  /** Nested prefixes are passed down unstyled and the case style is
      applied only to each finished column: the styled schema is the raw
      schema with every column styled. */
  lemma {:induction false} StyledOnce(env: Env, cfg: Config, model: string, prefix: string, depth: int)
    ensures Flatten(env, cfg, model, prefix, depth) ==
            StyleAll(Flatten(env, Raw(cfg), model, prefix, depth), cfg.caseStyle)
    decreases cfg.maxDepth - depth, 3, 0
  {
    if depth < cfg.maxDepth {
      StyledOnceFields(env, cfg, ModelFields(env, model), prefix, depth);
    }
  }

  lemma {:induction false} StyledOnceFields(env: Env, cfg: Config, fields: seq<Field>, prefix: string, depth: int)
    requires depth < cfg.maxDepth
    ensures FieldsColumns(env, cfg, fields, prefix, depth) ==
            StyleAll(FieldsColumns(env, Raw(cfg), fields, prefix, depth), cfg.caseStyle)
    decreases cfg.maxDepth - depth, 2, |fields|
  {
    if |fields| > 0 {
      StyledOnceField(env, cfg, fields[0], prefix, depth);
      StyledOnceFields(env, cfg, fields[1..], prefix, depth);
      StyleAllAppend(FieldColumns(env, Raw(cfg), fields[0], prefix, depth),
                     FieldsColumns(env, Raw(cfg), fields[1..], prefix, depth), cfg.caseStyle);
    }
  }

  lemma {:induction false} StyledOnceField(env: Env, cfg: Config, f: Field, prefix: string, depth: int)
    requires depth < cfg.maxDepth
    ensures FieldColumns(env, cfg, f, prefix, depth) ==
            StyleAll(FieldColumns(env, Raw(cfg), f, prefix, depth), cfg.caseStyle)
    decreases cfg.maxDepth - depth, 1, 0
  {
    if Admitted(cfg, f.name, depth) {
      var u := Unwrap(f.ty);
      var base := ColumnBase(prefix, cfg.separator, f.name);
      if u.isList {
        if IsPrimitive(u.inner) {
          StyledOnceLeaves(cfg, base, ItemCount(cfg));
        } else {
          StyledOnceItems(env, cfg, u.inner, base, depth, ItemCount(cfg));
        }
      } else if u.inner.Model? {
        StyledOnce(env, cfg, u.inner.name, base, depth + 1);
      }
    }
  }

  lemma {:induction false} StyledOnceLeaves(cfg: Config, base: string, n: nat)
    ensures LeafItems(cfg, base, n) == StyleAll(LeafItems(Raw(cfg), base, n), cfg.caseStyle)
  {
    LeafItemsShape(cfg, base, n);
    LeafItemsShape(Raw(cfg), base, n);
  }

  lemma {:induction false} StyledOnceItems(env: Env, cfg: Config, inner: Ty, base: string, depth: int, n: nat)
    requires depth < cfg.maxDepth
    ensures ItemsColumns(env, cfg, inner, base, depth, n) ==
            StyleAll(ItemsColumns(env, Raw(cfg), inner, base, depth, n), cfg.caseStyle)
    decreases cfg.maxDepth - depth, 0, n
  {
    if n > 0 {
      var itemPrefix := Indexed(base, cfg.separator, n - 1);
      StyledOnceItems(env, cfg, inner, base, depth, n - 1);
      if inner.Model? {
        StyledOnce(env, cfg, inner.name, itemPrefix, depth + 1);
      }
      StyleAllAppend(ItemsColumns(env, Raw(cfg), inner, base, depth, n - 1),
                     if inner.Model? then Flatten(env, Raw(cfg), inner.name, itemPrefix, depth + 1)
                     else [itemPrefix], cfg.caseStyle);
    }
  }

  // ---- Every raw column extends its prefix ----

  /** With names left as they are, every column emitted under a non-empty
      prefix starts with the prefix and the separator. */
  lemma {:induction false} RawPathPrefix(env: Env, cfg: Config, model: string, prefix: string, depth: int)
    requires prefix != ""
    ensures forall c :: c in Flatten(env, Raw(cfg), model, prefix, depth) ==> prefix + cfg.separator <= c
    decreases cfg.maxDepth - depth, 3, 0
  {
    if depth < cfg.maxDepth {
      RawPathPrefixFields(env, cfg, ModelFields(env, model), prefix, depth);
    }
  }

  lemma {:induction false} RawPathPrefixFields(env: Env, cfg: Config, fields: seq<Field>, prefix: string, depth: int)
    requires prefix != ""
    requires depth < cfg.maxDepth
    ensures forall c :: c in FieldsColumns(env, Raw(cfg), fields, prefix, depth) ==> prefix + cfg.separator <= c
    decreases cfg.maxDepth - depth, 2, |fields|
  {
    if |fields| > 0 {
      RawFieldBase(env, cfg, fields[0], prefix, depth);
      RawPathPrefixFields(env, cfg, fields[1..], prefix, depth);
      forall c | c in FieldColumns(env, Raw(cfg), fields[0], prefix, depth)
        ensures prefix + cfg.separator <= c
      {
        PrefixTrans(prefix + cfg.separator, ColumnBase(prefix, cfg.separator, fields[0].name), c);
      }
    }
  }

  /** With names left as they are, every column of a field starts with the
      field's column base. */
  lemma {:induction false} RawFieldBase(env: Env, cfg: Config, f: Field, prefix: string, depth: int)
    requires depth < cfg.maxDepth
    ensures forall c :: c in FieldColumns(env, Raw(cfg), f, prefix, depth) ==>
              ColumnBase(prefix, cfg.separator, f.name) <= c
    decreases cfg.maxDepth - depth, 1, 0
  {
    var rc := Raw(cfg);
    if Admitted(rc, f.name, depth) {
      var u := Unwrap(f.ty);
      var base := ColumnBase(prefix, cfg.separator, f.name);
      if u.isList {
        RawListBase(env, cfg, u.inner, base, depth);
      } else if u.inner.Model? {
        if base != "" {
          RawPathPrefix(env, cfg, u.inner.name, base, depth + 1);
          var nested := Flatten(env, rc, u.inner.name, base, depth + 1);
          forall c | c in nested ensures base <= c {
            PrefixTrans(base, base + cfg.separator, c);
          }
        }
      }
    }
  }

  /** The list branch of `RawFieldBase`: every item column of a list field extends its base. */
  lemma {:induction false} RawListBase(env: Env, cfg: Config, inner: Ty, base: string, depth: int)
    requires depth < cfg.maxDepth
    ensures IsPrimitive(inner) ==>
              forall c :: c in LeafItems(Raw(cfg), base, ItemCount(Raw(cfg))) ==> base <= c
    ensures !IsPrimitive(inner) ==>
              forall c :: c in ItemsColumns(env, Raw(cfg), inner, base, depth, ItemCount(Raw(cfg))) ==> base <= c
    decreases cfg.maxDepth - depth, 0, ItemCount(Raw(cfg)) + 1
  {
    var rc := Raw(cfg);
    if IsPrimitive(inner) {
      LeafItemsShape(rc, base, ItemCount(rc));
      forall c | c in LeafItems(rc, base, ItemCount(rc)) ensures base <= c {
        var i :| 0 <= i < ItemCount(rc) && LeafItems(rc, base, ItemCount(rc))[i] == c;
        assert c == base + (cfg.separator + Decimal(i));
      }
    } else {
      RawItemsBase(env, cfg, inner, base, depth, ItemCount(rc));
      forall c | c in ItemsColumns(env, rc, inner, base, depth, ItemCount(rc)) ensures base <= c {
        PrefixTrans(base, base + cfg.separator, c);
      }
    }
  }

  lemma {:induction false} RawItemsBase(env: Env, cfg: Config, inner: Ty, base: string, depth: int, n: nat)
    requires depth < cfg.maxDepth
    ensures forall c :: c in ItemsColumns(env, Raw(cfg), inner, base, depth, n) ==> base + cfg.separator <= c
    decreases cfg.maxDepth - depth, 0, n
  {
    if n > 0 {
      var itemPrefix := Indexed(base, cfg.separator, n - 1);
      assert itemPrefix == (base + cfg.separator) + Decimal(n - 1);
      RawItemsBase(env, cfg, inner, base, depth, n - 1);
      if inner.Model? {
        RawPathPrefix(env, cfg, inner.name, itemPrefix, depth + 1);
        var nested := Flatten(env, Raw(cfg), inner.name, itemPrefix, depth + 1);
        forall c | c in nested ensures base + cfg.separator <= c {
          PrefixTrans(base + cfg.separator, itemPrefix, c);
          PrefixTrans(itemPrefix, itemPrefix + cfg.separator, c);
        }
      }
    }
  }

  lemma PrefixTrans(a: string, b: string, c: string)
    requires a <= b && b <= c
    ensures a <= c
  {
  }

  // ---- The number of columns is bounded ----

  /** Every model has at most `fanout` fields. */
  predicate FanOut(env: Env, fanout: nat)
  {
    forall m :: m in env ==> |env[m]| <= fanout
  }

  /** How many items a list may contribute, counting a list cut to no
      items as one. */
  function Width(cfg: Config): (w: nat)
    ensures 1 <= w && ItemCount(cfg) <= w
  {
    if ItemCount(cfg) > 0 then ItemCount(cfg) else 1
  }

  /** The most columns a model can produce from `depth` on: a function of
      the depth limit, the item count and the fan-out only. */
  function ColumnBound(cfg: Config, fanout: nat, depth: int): nat
    decreases cfg.maxDepth - depth, 1
  {
    if depth >= cfg.maxDepth then 0 else fanout * FieldBound(cfg, fanout, depth)
  }

  /** The most columns one field can produce at `depth`. */
  function FieldBound(cfg: Config, fanout: nat, depth: int): nat
    requires depth < cfg.maxDepth
    decreases cfg.maxDepth - depth, 0
  {
    Width(cfg) * (ColumnBound(cfg, fanout, depth + 1) + 1)
  }

  lemma MulMono(a: nat, b: nat, c: nat)
    requires a <= b
    ensures a * c <= b * c
  {
  }

  lemma MulSucc(k: nat, x: nat)
    requires k > 0
    ensures k * x == x + (k - 1) * x
  {
  }

  /** The number of columns never exceeds the bound. */
  lemma {:induction false} FlattenBounded(env: Env, cfg: Config, fanout: nat, model: string, prefix: string, depth: int)
    requires FanOut(env, fanout)
    ensures |Flatten(env, cfg, model, prefix, depth)| <= ColumnBound(cfg, fanout, depth)
    decreases cfg.maxDepth - depth, 3, 0
  {
    if depth < cfg.maxDepth {
      var fields := ModelFields(env, model);
      FieldsBounded(env, cfg, fanout, fields, prefix, depth);
      MulMono(|fields|, fanout, FieldBound(cfg, fanout, depth));
    }
  }

  lemma {:induction false} FieldsBounded(env: Env, cfg: Config, fanout: nat, fields: seq<Field>, prefix: string, depth: int)
    requires FanOut(env, fanout)
    requires depth < cfg.maxDepth
    ensures |FieldsColumns(env, cfg, fields, prefix, depth)| <= |fields| * FieldBound(cfg, fanout, depth)
    decreases cfg.maxDepth - depth, 2, |fields|
  {
    if |fields| > 0 {
      FieldBounded(env, cfg, fanout, fields[0], prefix, depth);
      FieldsBounded(env, cfg, fanout, fields[1..], prefix, depth);
      MulSucc(|fields|, FieldBound(cfg, fanout, depth));
    }
  }

  lemma {:induction false} FieldBounded(env: Env, cfg: Config, fanout: nat, f: Field, prefix: string, depth: int)
    requires FanOut(env, fanout)
    requires depth < cfg.maxDepth
    ensures |FieldColumns(env, cfg, f, prefix, depth)| <= FieldBound(cfg, fanout, depth)
    decreases cfg.maxDepth - depth, 1, 0
  {
    WidthBounds(Width(cfg), ColumnBound(cfg, fanout, depth + 1), ItemCount(cfg));
    if Admitted(cfg, f.name, depth) {
      var u := Unwrap(f.ty);
      var base := ColumnBase(prefix, cfg.separator, f.name);
      if u.isList {
        ListBounded(env, cfg, fanout, u.inner, base, depth);
      } else if u.inner.Model? {
        FlattenBounded(env, cfg, fanout, u.inner.name, base, depth + 1);
      }
    }
  }

  /** The list branch of `FieldBounded`. */
  lemma {:induction false} ListBounded(env: Env, cfg: Config, fanout: nat, inner: Ty, base: string, depth: int)
    requires FanOut(env, fanout)
    requires depth < cfg.maxDepth
    ensures IsPrimitive(inner) ==> |LeafItems(cfg, base, ItemCount(cfg))| <= FieldBound(cfg, fanout, depth)
    ensures !IsPrimitive(inner) ==>
              |ItemsColumns(env, cfg, inner, base, depth, ItemCount(cfg))| <= FieldBound(cfg, fanout, depth)
    decreases cfg.maxDepth - depth, 0, ItemCount(cfg) + 1
  {
    var below, n := ColumnBound(cfg, fanout, depth + 1), ItemCount(cfg);
    WidthBounds(Width(cfg), below, n);
    if IsPrimitive(inner) {
      LeafItemsShape(cfg, base, n);
    } else {
      ItemsBounded(env, cfg, fanout, inner, base, depth, n);
    }
  }

  /** The arithmetic behind the per-field bound: with a width of at least
      one and at most `w` items, a single column, a list and a nested model
      each fit in `w * (below + 1)`. */
  lemma WidthBounds(w: nat, below: nat, n: nat)
    requires 1 <= w && n <= w
    ensures 1 <= w * (below + 1)
    ensures n <= w * (below + 1)
    ensures below <= w * (below + 1)
    ensures n * (below + 1) <= w * (below + 1)
  {
    MulMono(1, w, below + 1);
    MulMono(n, w, below + 1);
  }

  lemma {:induction false} ItemsBounded(env: Env, cfg: Config, fanout: nat, inner: Ty, base: string, depth: int, n: nat)
    requires FanOut(env, fanout)
    requires depth < cfg.maxDepth
    ensures |ItemsColumns(env, cfg, inner, base, depth, n)| <= n * (ColumnBound(cfg, fanout, depth + 1) + 1)
    decreases cfg.maxDepth - depth, 0, n
  {
    if n > 0 {
      var below := ColumnBound(cfg, fanout, depth + 1);
      var itemPrefix := Indexed(base, cfg.separator, n - 1);
      var item := if inner.Model? then Flatten(env, cfg, inner.name, itemPrefix, depth + 1)
                  else [ApplyCase(itemPrefix, cfg.caseStyle)];
      assert ItemsColumns(env, cfg, inner, base, depth, n) ==
             ItemsColumns(env, cfg, inner, base, depth, n - 1) + item;
      ItemsBounded(env, cfg, fanout, inner, base, depth, n - 1);
      if inner.Model? {
        FlattenBounded(env, cfg, fanout, inner.name, itemPrefix, depth + 1);
      }
      assert |item| <= below + 1;
      MulSucc(n, below + 1);
    }
  }

  // ---- A worked example ----

  /** A resource with a primitive `name` and a list of `Address` models,
      each with one primitive `line`. */
  function ExampleEnv(): Env
  {
    map["Resource" := [Field("name", Prim(Str)), Field("address", ListOf(Model("Address")))],
        "Address" := [Field("line", Prim(Str))]]
  }

  function ExampleConfig(depth: int): Config
  {
    Config("_", "snake", depth, 2, {}, {})
  }

  lemma ExampleNameColumn(depth: int)
    requires depth > 0
    ensures FieldColumns(ExampleEnv(), ExampleConfig(depth), Field("name", Prim(Str)), "", 0) == ["name"]
  {
    SnakeOfLowerIdentity("name");
  }

  lemma ExampleLineColumn(i: nat, s: string)
    requires i < 2 && s == "address_" + Decimal(i) + "_line"
    ensures Flatten(ExampleEnv(), ExampleConfig(2), "Address", Indexed("address", "_", i), 1) == [s]
  {
    var cfg := ExampleConfig(2);
    var f := Field("line", Prim(Str));
    var prefix := Indexed("address", "_", i);
    assert ColumnBase(prefix, "_", "line") == s;
    assert NoUpper(s);
    SnakeOfLowerIdentity(s);
    assert FieldColumns(ExampleEnv(), cfg, f, prefix, 1) == [s];
    assert ModelFields(ExampleEnv(), "Address") == [f];
    assert FieldsColumns(ExampleEnv(), cfg, [f], prefix, 1) == [s] + [];
  }

  /** A list of two model items is the first item's columns, then the
      second's. */
  lemma TwoModelItems(env: Env, cfg: Config, inner: Ty, base: string, depth: int)
    requires depth < cfg.maxDepth && inner.Model?
    ensures ItemsColumns(env, cfg, inner, base, depth, 2) ==
            Flatten(env, cfg, inner.name, Indexed(base, cfg.separator, 0), depth + 1) +
            Flatten(env, cfg, inner.name, Indexed(base, cfg.separator, 1), depth + 1)
  {
    assert ItemsColumns(env, cfg, inner, base, depth, 0) == [];
  }

  lemma ExampleFirstItem()
    ensures Flatten(ExampleEnv(), ExampleConfig(2), "Address", Indexed("address", "_", 0), 1) == ["address_0_line"]
  {
    assert Decimal(0) == "0";
    ExampleLineColumn(0, "address_0_line");
  }

  lemma ExampleSecondItem()
    ensures Flatten(ExampleEnv(), ExampleConfig(2), "Address", Indexed("address", "_", 1), 1) == ["address_1_line"]
  {
    assert Decimal(1) == "1";
    ExampleLineColumn(1, "address_1_line");
  }

  lemma ExampleAddressItems()
    ensures ItemsColumns(ExampleEnv(), ExampleConfig(2), Model("Address"), "address", 0, 2) ==
            ["address_0_line", "address_1_line"]
  {
    TwoModelItems(ExampleEnv(), ExampleConfig(2), Model("Address"), "address", 0);
    ExampleFirstItem();
    ExampleSecondItem();
    assert ["address_0_line"] + ["address_1_line"] == ["address_0_line", "address_1_line"];
  }

  lemma ExampleAddressColumns()
    ensures FieldsColumns(ExampleEnv(), ExampleConfig(2), [Field("address", ListOf(Model("Address")))], "", 0) ==
            ["address_0_line", "address_1_line"]
  {
    var address := Field("address", ListOf(Model("Address")));
    ExampleAddressItems();
    assert Unwrap(address.ty) == Unwrapped(false, true, Model("Address"));
    assert FieldColumns(ExampleEnv(), ExampleConfig(2), address, "", 0) == ["address_0_line", "address_1_line"];
  }

  /** With depth 2 and two array items, the address list is unrolled into
      one column per item, named by the raw item path. */
  lemma ExampleDepthTwo()
    ensures SchemaColumns(ExampleEnv(), ExampleConfig(2), "Resource") ==
            ["name", "address_0_line", "address_1_line"]
  {
    var name := Field("name", Prim(Str));
    var address := Field("address", ListOf(Model("Address")));
    ExampleNameColumn(2);
    ExampleAddressColumns();
    assert [name, address][1..] == [address];
  }

  /** With depth 1 the nested addresses lie past the limit: only `name`
      remains. */
  lemma ExampleDepthOne()
    ensures SchemaColumns(ExampleEnv(), ExampleConfig(1), "Resource") == ["name"]
  {
    var env := ExampleEnv();
    var cfg := ExampleConfig(1);
    var name := Field("name", Prim(Str));
    var address := Field("address", ListOf(Model("Address")));
    ExampleNameColumn(1);
    ExampleAddressPastLimit();
    assert FieldsColumns(env, cfg, [address], "", 0) == [] + [];
    assert [name, address][1..] == [address];
  }

  lemma ExampleAddressPastLimit()
    ensures FieldColumns(ExampleEnv(), ExampleConfig(1), Field("address", ListOf(Model("Address"))), "", 0) == []
  {
    var env := ExampleEnv();
    var cfg := ExampleConfig(1);
    var address := Field("address", ListOf(Model("Address")));
    TwoModelItems(env, cfg, Model("Address"), "address", 0);
    DepthCutoff(env, cfg, "Address", Indexed("address", "_", 0), 1);
    DepthCutoff(env, cfg, "Address", Indexed("address", "_", 1), 1);
    assert ItemsColumns(env, cfg, Model("Address"), "address", 0, 2) == [];
    assert Unwrap(address.ty) == Unwrapped(false, true, Model("Address"));
  }
}
