/** index.js: the public `validate` and `check`, and the recursive filling
    of schema-declared default values into a copy of the instance. */
module Index {
  import opened Wrappers
  import opened JsonValue
  import Jsv

  // The default-value walk (applyDefaultValues)

  /** `node.properties`, when the schema node is an object that declares it. */
  function PropertiesOf(node: Json): Option<Json>
  {
    if node.JObj? && "properties" in node.fields then Some(node.fields["properties"]) else None
  }

  /** `node['default']`, when the schema node is an object that declares it;
      an explicitly declared `null` is a default like any other. */
  function DefaultOf(node: Json): Option<Json>
  {
    if node.JObj? && "default" in node.fields then Some(node.fields["default"]) else None
  }

  /** The keys of `f` that the walk over the declared names in `done` adds:
      absent from the instance and given a default by their schema node. */
  function Added(f: map<string, Json>, p: map<string, Json>, done: set<string>): set<string>
  {
    set k | k in done && k in p && k !in f && DefaultOf(p[k]).Some?
  }

  /** The value of `applyDefaultValues(v, props)` when `props` is defined: for
      an object instance and an object `props`, every declared name is
      visited; otherwise nothing changes. Null and arrays count as leaves. */
  function Fill(v: Json, props: Json): Json
    decreases props, 1
  {
    if v.JObj? && props.JObj? then JObj(FillFields(v.fields, props.fields, props.fields.Keys)) else v
  }

  /** The fields of an object instance after the iterations for the declared
      names in `done`: such a name that is present keeps its value, one that
      is absent takes its node's default if there is one, and in both cases
      the walk recurses into the value with the node's own `properties`.
      Names not yet visited, or not declared, keep their value. */
  function FillFields(f: map<string, Json>, p: map<string, Json>, done: set<string>): map<string, Json>
    decreases JObj(p), 0
  {
    map k | k in f.Keys + Added(f, p, done) ::
      if k in done && k in p then FillUnder(if k in f then f[k] else DefaultOf(p[k]).value, p[k])
      else f[k]
  }

  /** The recursive call `applyDefaultValues(v, node.properties)`: a node
      without `properties` (PropertiesOf is None) leaves `v` as it is. The
      test is written out rather than through PropertiesOf so that the
      termination measure sees `properties` as part of `node`. */
  function FillUnder(v: Json, node: Json): Json
    decreases node, 2
  {
    if node.JObj? && "properties" in node.fields then Fill(v, node.fields["properties"]) else v
  }

  /** The instance being defaulted: a JavaScript object that the walk updates
      in place. A nested object is updated through its own Instance and then
      stored back, which in a value model is what updating it in place means. */
  class Instance {
    var value: Json

    constructor (v: Json)
      ensures value == v
    {
      value := v;
    }

    /** applyDefaultValues(instance, properties): fills the defaults declared
        under `properties` into this instance, visiting the declared names in
        any order. `None` is an undefined `properties`. */
    method ApplyDefaultValues(properties: Option<Json>)
      modifies this
      decreases properties.Some?, if properties.Some? then properties.value else JNull
      ensures properties.None? ==> value == old(value)
      ensures properties.Some? ==> value == Fill(old(value), properties.value)
    {
      if value.JObj? && properties.Some? && properties.value.JObj? {
        var p := properties.value.fields;
        ghost var start := value.fields;
        var todo := p.Keys;
        while todo != {}
          invariant todo <= p.Keys
          invariant value == JObj(FillFields(start, p, p.Keys - todo))
          decreases todo
        {
          var name :| name in todo;
          ghost var done := p.Keys - todo;
          VisitName(start, p, done, name);
          var node := p[name];
          var fields := value.fields;
          if name !in fields {
            var d := DefaultOf(node);
            if d.Some? {
              fields := fields[name := d.value];
            }
          }
          if name in fields {
            var child := new Instance(fields[name]);
            child.ApplyDefaultValues(PropertiesOf(node));
            assert child.value == FillUnder(fields[name], node);
            fields := fields[name := child.value];
          }
          value := JObj(fields);
          todo := todo - {name};
          assert p.Keys - todo == done + {name};
        }
        assert p.Keys - todo == p.Keys;
      }
    }
  }

  /** One iteration of the walk: visiting `name` updates exactly that entry. */
  lemma VisitName(f: map<string, Json>, p: map<string, Json>, done: set<string>, name: string)
    requires name in p && name !in done
    ensures var before, after := FillFields(f, p, done), FillFields(f, p, done + {name});
      (name in before <==> name in f)
      && (name in f ==> before[name] == f[name])
      && (name in f || DefaultOf(p[name]).Some? ==>
            after == before[name := FillUnder(if name in f then f[name] else DefaultOf(p[name]).value, p[name])])
      && (name !in f && DefaultOf(p[name]).None? ==> after == before)
  {
    var before, after := FillFields(f, p, done), FillFields(f, p, done + {name});
    if name in f || DefaultOf(p[name]).Some? {
      var base := if name in f then f[name] else DefaultOf(p[name]).value;
      assert Added(f, p, done + {name}) == Added(f, p, done) + (if name in f then {} else {name});
      assert after.Keys == before.Keys + {name};
      assert after == before[name := FillUnder(base, p[name])];
    } else {
      assert Added(f, p, done + {name}) == Added(f, p, done);
    }
  }

  // Properties of the walk

  /** What the walk does to one key of an object instance: a present key
      stays present and, when declared, is walked into; an absent declared key
      appears exactly when its node declares a default, and then holds that
      default walked into; an undeclared key keeps its value. */
  lemma FillAt(f: map<string, Json>, p: map<string, Json>, k: string)
    ensures var r := Fill(JObj(f), JObj(p));
      r.JObj?
      && (k in r.fields <==> k in f || (k in p && DefaultOf(p[k]).Some?))
      && (k in f && k !in p ==> r.fields[k] == f[k])
      && (k in f && k in p ==> r.fields[k] == FillUnder(f[k], p[k]))
      && (k !in f && k in p && DefaultOf(p[k]).Some? ==> r.fields[k] == FillUnder(DefaultOf(p[k]).value, p[k]))
  {
  }

  /** A non-object instance, or a `properties` that is not an object, is left
      as it is. */
  lemma FillGuard(v: Json, props: Json)
    requires !v.JObj? || !props.JObj?
    ensures Fill(v, props) == v
  {
  }

  /** A present value that is not an object, whatever it is (`null`, 0,
      `false`, "" included), is kept exactly. */
  lemma PresentLeafKept(f: map<string, Json>, p: map<string, Json>, k: string)
    requires k in f && !f[k].JObj?
    ensures var r := Fill(JObj(f), JObj(p));
      r.JObj? && k in r.fields && r.fields[k] == f[k]
  {
    FillAt(f, p, k);
    if k in p {
      var node := p[k];
      if node.JObj? && "properties" in node.fields {
        FillGuard(f[k], node.fields["properties"]);
      }
    }
  }

  /** `b` is `a` with, at any depth, only keys added: no present value is
      replaced or removed. */
  ghost predicate Extends(a: Json, b: Json)
    decreases a
  {
    if a.JObj? then
      b.JObj? && a.fields.Keys <= b.fields.Keys
      && forall k :: k in a.fields ==> Extends(a.fields[k], b.fields[k])
    else b == a
  }

  lemma {:induction false} ExtendsReflexive(a: Json)
    ensures Extends(a, a)
    decreases a
  {
    if a.JObj? {
      forall k | k in a.fields ensures Extends(a.fields[k], a.fields[k]) {
        ExtendsReflexive(a.fields[k]);
      }
    }
  }

  /** The walk never overrides a present value at any depth: it only adds
      keys. */
  lemma {:induction false} FillExtends(v: Json, props: Json)
    ensures Extends(v, Fill(v, props))
    decreases props, 1
  {
    if v.JObj? && props.JObj? {
      var f, p := v.fields, props.fields;
      var r := Fill(v, props);
      forall k | k in f ensures k in r.fields {
        FillAt(f, p, k);
      }
      forall k | k in f ensures Extends(f[k], r.fields[k]) {
        FillAt(f, p, k);
        if k in p {
          FillUnderExtends(f[k], p[k]);
        } else {
          ExtendsReflexive(f[k]);
        }
      }
    } else {
      ExtendsReflexive(v);
    }
  }

  lemma {:induction false} FillUnderExtends(v: Json, node: Json)
    ensures Extends(v, FillUnder(v, node))
    decreases node, 2
  {
    if node.JObj? && "properties" in node.fields {
      FillExtends(v, node.fields["properties"]);
    } else {
      ExtendsReflexive(v);
    }
  }

  /** Applying the defaults a second time changes nothing. */
  lemma {:induction false} FillIdempotent(v: Json, props: Json)
    ensures Fill(Fill(v, props), props) == Fill(v, props)
    decreases props, 1
  {
    if v.JObj? && props.JObj? {
      var p := props.fields;
      var g := FillFields(v.fields, p, p.Keys);
      var h := FillFields(g, p, p.Keys);
      assert Added(g, p, p.Keys) == {};
      forall k | k in g ensures h[k] == g[k] {
        if k in p {
          FillUnderIdempotent(if k in v.fields then v.fields[k] else DefaultOf(p[k]).value, p[k]);
        }
      }
      assert h == g;
    }
  }

  lemma {:induction false} FillUnderIdempotent(v: Json, node: Json)
    ensures FillUnder(FillUnder(v, node), node) == FillUnder(v, node)
    decreases node, 2
  {
    if node.JObj? && "properties" in node.fields {
      FillIdempotent(v, node.fields["properties"]);
    }
  }

  // Worked examples

  /** `{a: {default: 1}, b: {properties: {c: {default: 2}}}}` under `properties`,
      where `b` itself declares no default. */
  const NestedSchema: Json := JObj(map["properties" := JObj(map[
    "a" := JObj(map["default" := JNum(1.0)]),
    "b" := JObj(map["properties" := JObj(map["c" := JObj(map["default" := JNum(2.0)])])])])])

  /** The same, with `b` declaring the default `{}`. */
  const NestedSchemaWithObjectDefault: Json := JObj(map["properties" := JObj(map[
    "a" := JObj(map["default" := JNum(1.0)]),
    "b" := JObj(map["default" := JObj(map[]), "properties" := JObj(map["c" := JObj(map["default" := JNum(2.0)])])])])])

  /** An absent `b` without a default stays absent, so nothing is filled
      under it; a present `a`, even 0, is kept. */
  lemma NestedExample()
    ensures FillUnder(JObj(map[]), NestedSchema) == JObj(map["a" := JNum(1.0)])
    ensures FillUnder(JObj(map["a" := JNum(0.0)]), NestedSchema) == JObj(map["a" := JNum(0.0)])
  {
    var p := NestedSchema.fields["properties"].fields;
    FillAt(map[], p, "a");
    FillAt(map[], p, "b");
    FillAt(map["a" := JNum(0.0)], p, "a");
    FillAt(map["a" := JNum(0.0)], p, "b");
    assert Fill(JObj(map[]), JObj(p)).fields.Keys == {"a"};
    assert Fill(JObj(map["a" := JNum(0.0)]), JObj(p)).fields.Keys == {"a"};
  }

  /** A default object that was just assigned is filled in the same pass. */
  lemma NestedObjectDefaultExample()
    ensures FillUnder(JObj(map[]), NestedSchemaWithObjectDefault)
      == JObj(map["a" := JNum(1.0), "b" := JObj(map["c" := JNum(2.0)])])
  {
    var p := NestedSchemaWithObjectDefault.fields["properties"].fields;
    var q := p["b"].fields["properties"].fields;
    FillAt(map[], q, "c");
    assert Fill(JObj(map[]), JObj(q)).fields.Keys == {"c"};
    assert FillUnder(JObj(map[]), p["b"]) == JObj(map["c" := JNum(2.0)]);
    FillAt(map[], p, "a");
    FillAt(map[], p, "b");
    assert Fill(JObj(map[]), JObj(p)).fields.Keys == {"a", "b"};
  }

  // The walk as written reads a property of null

  /** Whether applyDefaultValues as written reads a property of `null`: its
      guard `typeof instance === 'object'` also lets `null` through, and the
      first declared name then reads `null[name]`. Arrays are not followed. */
  ghost predicate NullReadAsWritten(v: Json, props: Json)
    decreases props, 1
  {
    TypeOf(Some(v)) == "object" && props.JObj?
    && ((v.JNull? && |props.fields| > 0)
        || (v.JObj? && exists k :: k in props.fields && NullReadInMember(v.fields, props.fields, k)))
  }

  /** Whether the iteration for `k` reaches such a read in its recursive call. */
  ghost predicate NullReadInMember(f: map<string, Json>, p: map<string, Json>, k: string)
    requires k in p
    decreases JObj(p), 0
  {
    (k in f || DefaultOf(p[k]).Some?)
    && NullReadUnder(if k in f then f[k] else DefaultOf(p[k]).value, p[k])
  }

  ghost predicate NullReadUnder(v: Json, node: Json)
    decreases node, 2
  {
    node.JObj? && "properties" in node.fields && NullReadAsWritten(v, node.fields["properties"])
  }

  /** `{a: null}` against `{a: {properties: {b: {}}}}`: as written the walk
      reads `null.b` and throws a TypeError, whereas Fill keeps the instance. */
  lemma NullMemberAsWritten()
    ensures var instance := JObj(map["a" := JNull]);
      var props := JObj(map["a" := JObj(map["properties" := JObj(map["b" := JObj(map[])])])]);
      NullReadAsWritten(instance, props) && Fill(instance, props) == instance
  {
    var instance := JObj(map["a" := JNull]);
    var p := map["a" := JObj(map["properties" := JObj(map["b" := JObj(map[])])])];
    assert NullReadAsWritten(JNull, JObj(map["b" := JObj(map[])]));
    assert NullReadInMember(instance.fields, p, "a");
    PresentLeafKept(instance.fields, p, "a");
    FillAt(instance.fields, p, "a");
    assert Fill(instance, JObj(p)).fields.Keys == {"a"};
  }

  // The public operations

  /** The TypeError that reading `schema.properties` of a `null` schema throws.
      Its message is the wording of current V8 releases; it depends on the
      JavaScript runtime (older Node releases say "Cannot read property
      'properties' of null"). */
  const NullSchemaError: Jsv.Error := Jsv.Error("TypeError", "Cannot read properties of null (reading 'properties')")

  /** validate(instance, schema): copies the instance, fills the defaults into
      the copy, has the engine validate the copy and returns it. The caller's
      instance is not changed. */
  method Validate(env: Jsv.Environment, show: Json -> string, instance: Instance, schema: Json)
    returns (r: Result<Json, Jsv.Error>)
    ensures instance.value == old(instance.value)
    ensures schema.JNull? ==> r == Err(NullSchemaError)
    ensures !schema.JNull? ==>
      var filled := FillUnder(instance.value, schema);
      var errors := env.validate(filled, schema);
      (r.Ok? <==> |errors| == 0)
      && (r.Ok? ==> r.value == filled)
      && (r.Err? ==> r.error == Jsv.AggregateError(Jsv.ValidationFailed, errors, show))
  {
    var copy := new Instance(instance.value);
    if schema.JNull? {
      return Err(NullSchemaError);
    }
    copy.ApplyDefaultValues(PropertiesOf(schema));
    assert copy.value == FillUnder(instance.value, schema);
    r := Jsv.Validate(env, show, copy.value, schema);
  }

  /** check(schema): returns the schema unchanged when the engine finds it a
      valid JSON Schema, and throws the aggregated error otherwise. */
  method Check(env: Jsv.Environment, show: Json -> string, schema: Json) returns (r: Result<Json, Jsv.Error>)
    ensures r.Ok? <==> |env.validate(schema, env.defaultSchema)| == 0
    ensures r.Ok? ==> r.value == schema
    ensures r.Err? ==> r.error == Jsv.AggregateError(Jsv.InvalidSchema, env.validate(schema, env.defaultSchema), show)
  {
    var outcome := Jsv.Check(env, show, schema);
    if outcome.Fail? {
      return Err(outcome.error);
    }
    return Ok(schema);
  }
}
