/**
 * What a served template and a served guide say about the operation fields of a class
 * (packages/dt-module/src/operation-fields.ts): which fields there are, the controls that bind them, and the guide's entries.
 */
module OperationServed {
  import opened Prelude
  import opened OperationFields

  /** The fields a class type carries, in order. */
  function FieldsOf(ct: ClassType): seq<string> {
    match ct
    case Component => ["dethernety_operated_by", "dethernety_product", "dethernety_product_version"]
    case SecurityBoundary => ["dethernety_operated_by", "dethernety_product"]
    case OtherClass => []
  }

  /** The value at the end of a chain of keys. */
  function Follow(e: Json, keys: seq<string>): Option<Json>
    decreases |keys|
  {
    if keys == [] then Some(e)
    else if !e.Obj? then None
    else match Get(e.fields, keys[0]) case None => None case Some(next) => Follow(next, keys[1..])
  }

  lemma FollowOne(e: Json, key: string)
    requires e.Obj?
    ensures Follow(e, [key]) == Get(e.fields, key)
  {
    assert [key][1..] == [];
  }

  lemma FollowMore(e: Json, key: string, keys: seq<string>)
    requires e.Obj?
    ensures Follow(e, [key] + keys) == match Get(e.fields, key) case None => None case Some(next) => Follow(next, keys)
  {
    assert ([key] + keys)[1..] == keys;
  }

  // ----- the scopes that may bind -----

  predicate GoodKey(key: string) {
    key != "" && !("dethernety_" <= key)
    && forall k :: 0 <= k < |key| ==> var c := key[k];
         c != '/' && c != '~' && c != '.' && c != '[' && c != ']' && c != '"' && c != '\'' && c != '\\'
  }

  predicate GoodKeys(keys: seq<string>) { forall k :: 0 <= k < |keys| ==> GoodKey(keys[k]) }

  function Chain(keys: seq<string>): string { if keys == [] then "" else "/properties/" + keys[0] + Chain(keys[1..]) }

  function PartsOf(keys: seq<string>): seq<string> { if keys == [] then [] else ["properties", keys[0]] + PartsOf(keys[1..]) }

  function JoinRest(parts: seq<string>): string { if parts == [] then "" else "/" + parts[0] + JoinRest(parts[1..]) }

  predicate NoSlash(s: string) { forall k :: 0 <= k < |s| ==> s[k] != '/' }

  lemma {:induction false} SplitJoin(s: string)
    ensures var parts := SplitSlash(s); s == parts[0] + JoinRest(parts[1..])
    decreases |s|
  {
    if s != "" {
      SplitJoin(s[1..]);
      var rest := SplitSlash(s[1..]);
      if s[0] == '/' {
        assert ([""] + rest)[1..] == rest;
      } else {
        assert ([[s[0]] + rest[0]] + rest[1..])[1..] == rest[1..];
      }
    }
  }

  lemma {:induction false} SplitPart(a: string, rest: string)
    requires NoSlash(a)
    ensures SplitSlash(a + "/" + rest) == [a] + SplitSlash(rest) && SplitSlash(a) == [a]
    decreases |a|
  {
    if a == "" {
      assert (a + "/" + rest)[1..] == rest;
    } else {
      SplitPart(a[1..], rest);
      assert (a + "/" + rest)[1..] == a[1..] + "/" + rest;
      assert [a[0]] + a[1..] == a && ([a[1..]] + SplitSlash(rest))[1..] == SplitSlash(rest);
      assert SplitSlash(a + "/" + rest) == [[a[0]] + a[1..]] + SplitSlash(rest);
      assert SplitSlash(a) == [[a[0]] + a[1..]];
    }
  }

  lemma {:induction false} SplitChain(head: string, keys: seq<string>)
    requires NoSlash(head) && GoodKeys(keys)
    ensures SplitSlash(head + Chain(keys)) == [head] + PartsOf(keys)
    decreases |keys|
  {
    hide SplitSlash, GoodKey, NoSlash, Chain, PartsOf;
    if keys == [] {
      NoChain(head);
    } else {
      KeyNoSlash(keys[0]);
      SplitChain(keys[0], keys[1..]);
      SplitKey(head, keys[0] + Chain(keys[1..]));
      ChainStep(head, keys);
    }
  }

  lemma NoChain(head: string)
    requires NoSlash(head)
    ensures SplitSlash(head + Chain([])) == [head] + PartsOf([])
  {
    hide SplitSlash, NoSlash;
    assert head + "" == head && [head] + [] == [head];
    SplitPart(head, "");
  }

  lemma SplitKey(head: string, tail: string)
    requires NoSlash(head)
    ensures SplitSlash(head + "/" + ("properties" + "/" + tail)) == [head] + (["properties"] + SplitSlash(tail))
  {
    hide SplitSlash;
    SplitPart("properties", tail);
    SplitPart(head, "properties" + "/" + tail);
  }

  lemma KeyNoSlash(key: string)
    requires GoodKey(key)
    ensures NoSlash(key)
  {
  }

  lemma ChainStep(head: string, keys: seq<string>)
    requires keys != []
    ensures head + Chain(keys) == head + "/" + ("properties" + "/" + (keys[0] + Chain(keys[1..])))
    ensures [head] + (["properties"] + ([keys[0]] + PartsOf(keys[1..]))) == [head] + PartsOf(keys)
  {
    assert "/" + "properties" + "/" == "/properties/";
    Regroup(head, "/", "properties", keys[0], Chain(keys[1..]));
    assert ["properties"] + ([keys[0]] + PartsOf(keys[1..])) == ["properties", keys[0]] + PartsOf(keys[1..]);
  }

  lemma Regroup(head: string, slash: string, word: string, key: string, rest: string)
    ensures head + ((slash + word + slash) + key + rest) == head + slash + (word + slash + (key + rest))
  {
  }

  lemma PlainGood(key: string)
    ensures PlainKey(key) && !IsReserved(key) <==> GoodKey(key)
  {
  }

  lemma WordsUnreserved()
    ensures !IsReserved("properties") && !IsReserved("#")
  {
    assert "properties"[0] != "dethernety_"[0];
  }

  lemma {:induction false} ChainPlain(keys: seq<string>)
    requires keys != [] && GoodKeys(keys)
    ensures PlainChain(PartsOf(keys)) && !AnyReserved(PartsOf(keys))
    decreases |keys|
  {
    hide PlainKey, IsReserved, GoodKey;
    PlainGood(keys[0]);
    WordsUnreserved();
    var rest := PartsOf(keys[1..]);
    assert PartsOf(keys)[2..] == rest;
    if |keys| > 1 { ChainPlain(keys[1..]); }
    assert forall k :: 2 <= k < |PartsOf(keys)| ==> PartsOf(keys)[k] == rest[k - 2];
  }

  lemma {:induction false} PlainChained(parts: seq<string>) returns (keys: seq<string>)
    requires PlainChain(parts) && !AnyReserved(parts)
    ensures keys != [] && GoodKeys(keys) && JoinRest(parts) == Chain(keys)
    decreases |parts|
  {
    hide PlainKey, IsReserved, GoodKey;
    PlainGood(parts[1]);
    assert !IsReserved(parts[1]);
    var more: seq<string> := [];
    if |parts| == 2 {
      assert parts[2..] == [];
    } else {
      assert !AnyReserved(parts[2..]) by { TailUnreserved(parts); }
      more := PlainChained(parts[2..]);
    }
    keys := [parts[1]] + more;
    JoinStep(parts, more);
  }

  lemma JoinStep(parts: seq<string>, more: seq<string>)
    requires |parts| >= 2 && parts[0] == "properties" && JoinRest(parts[2..]) == Chain(more)
    ensures JoinRest(parts) == Chain([parts[1]] + more)
  {
    assert parts[1..][1..] == parts[2..] && ([parts[1]] + more)[1..] == more;
    assert JoinRest(parts[1..]) == "/" + parts[1] + JoinRest(parts[2..]);
    assert "/" + "properties" + "/" == "/properties/";
  }

  lemma TailUnreserved(parts: seq<string>)
    requires |parts| >= 2 && !AnyReserved(parts)
    ensures !AnyReserved(parts[1..]) && !AnyReserved(parts[2..])
  {
    hide IsReserved;
    assert forall k :: 0 <= k < |parts| - 1 ==> parts[1..][k] == parts[k + 1];
    assert forall k :: 0 <= k < |parts| - 2 ==> parts[2..][k] == parts[k + 2];
  }

  /**
   * A scope may bind exactly when it is `#` and one or more `/properties/<key>`, whose keys are not empty, hold no
   * path syntax and are not reserved.
   */
  lemma ScopeIff(scope: Json)
    ensures ScopeMayBind(scope) <==> exists keys :: keys != [] && GoodKeys(keys) && scope == Str("#" + Chain(keys))
  {
    hide PlainChain, AnyReserved, GoodKeys, Chain, JoinRest, SplitSlash;
    if ScopeMayBind(scope) {
      SplitJoin(scope.text);
      var parts := SplitSlash(scope.text);
      assert |parts| >= 2 by { ChainLong(parts[1..]); }
      TailUnreserved(parts);
      var keys := PlainChained(parts[1..]);
    }
    if keys :| keys != [] && GoodKeys(keys) && scope == Str("#" + Chain(keys)) {
      SplitChain("#", keys);
      ChainPlain(keys);
      assert ([ "#" ] + PartsOf(keys))[1..] == PartsOf(keys);
      HeadUnreserved(PartsOf(keys));
    }
  }

  lemma ChainLong(parts: seq<string>)
    requires PlainChain(parts)
    ensures |parts| >= 2
  {
  }

  lemma HeadUnreserved(parts: seq<string>)
    requires !AnyReserved(parts)
    ensures !AnyReserved(["#"] + parts)
  {
    hide IsReserved;
    WordsUnreserved();
    assert forall k :: 1 <= k < |parts| + 1 ==> (["#"] + parts)[k] == parts[k - 1];
  }

  // ----- the schema -----

  lemma ThreeFields(a: Field, b: Field, c: Field, key: string)
    ensures Get([a], key) == if a.key == key then Some(a.value) else None
    ensures Get([a, b], key) == if a.key == key then Some(a.value) else if b.key == key then Some(b.value) else None
    ensures Get([a, b, c], key)
         == if a.key == key then Some(a.value) else if b.key == key then Some(b.value) else if c.key == key then Some(c.value) else None
  {
    hide Get;
    NoEntries("", Null, key);
    GetHead([c], key);
    GetHead([b], key);
    GetHead([a], key);
    GetHead([b, c], key);
    GetHead([a, b], key);
    GetHead([a, b, c], key);
    assert [a][1..] == [] && [b][1..] == [] && [c][1..] == [];
    assert [a, b][1..] == [b] && [b, c][1..] == [c] && [a, b, c][1..] == [b, c];
  }

  lemma FieldsDeclared(ct: ClassType, key: string)
    requires IsOperated(ct)
    ensures Get(Properties(ct), key).Some? <==> key in FieldsOf(ct)
    ensures Get(Properties(ct), "dethernety_operated_by") == Some(OperatorField(ct))
    ensures Get(Properties(ct), "dethernety_product") == Some(TextField("Product", PRODUCT_DESCRIPTION, 200))
    ensures ct == Component ==> Get(Properties(ct), "dethernety_product_version") == Some(TextField("Version", VERSION_DESCRIPTION, 64))
  {
    hide Get, OperatorField, TextField;
    var a := Field(OPERATION_OPERATOR_KEY, OperatorField(ct));
    var b := Field(OPERATION_PRODUCT_KEY, TextField("Product", PRODUCT_DESCRIPTION, 200));
    var c := Field(OPERATION_VERSION_KEY, TextField("Version", VERSION_DESCRIPTION, 64));
    assert Properties(ct) == if ct == Component then [a, b, c] else [a, b];
    assert |OPERATION_OPERATOR_KEY| == 22 && |OPERATION_PRODUCT_KEY| == 18 && |OPERATION_VERSION_KEY| == 26;
    ThreeFields(a, b, c, key);
    ThreeFields(a, b, c, OPERATION_OPERATOR_KEY);
    ThreeFields(a, b, c, OPERATION_PRODUCT_KEY);
    ThreeFields(a, b, c, OPERATION_VERSION_KEY);
  }

  predicate Limited(field: Json, title: string, limit: int) {
    Follow(field, ["type"]) == Some(Str("string")) && Follow(field, ["title"]) == Some(Str(title))
    && Follow(field, ["maxLength"]) == Some(Num(limit))
  }

  lemma TextLimited(title: string, description: string, limit: int)
    ensures Limited(TextField(title, description, limit), title, limit)
  {
    hide Get;
    var fs := TextField(title, description, limit).fields;
    FollowOne(Obj(fs), "type");
    FollowOne(Obj(fs), "title");
    FollowOne(Obj(fs), "maxLength");
    GetHead(fs, "type");
    GetHead(fs, "title");
    GetHead(fs, "maxLength");
    ThreeFields(fs[1], fs[2], fs[3], "title");
    ThreeFields(fs[1], fs[2], fs[3], "maxLength");
    assert fs[1..] == [fs[1], fs[2], fs[3]];
  }

  /** The constants of a choice. */
  function Constants(items: seq<Json>): seq<Option<Json>> {
    if items == [] then [] else [Follow(items[0], ["const"])] + Constants(items[1..])
  }

  const OPERATORS := [Str("CUSTOMER"), Str("VENDOR")]

  predicate OperatorChoice(field: Json) {
    Follow(field, ["type"]) == Some(Str("string"))
    && match Follow(field, ["oneOf"])
       case Some(Arr(items)) => Constants(items) == [Some(OPERATORS[0]), Some(OPERATORS[1])]
       case _ => false
  }

  lemma OperatorChosen(ct: ClassType)
    ensures OperatorChoice(OperatorField(ct))
  {
    hide Get;
    var fs := OperatorField(ct).fields;
    FollowOne(Obj(fs), "type");
    FollowOne(Obj(fs), "oneOf");
    GetHead(fs, "type");
    GetHead(fs, "oneOf");
    ThreeFields(fs[1], fs[2], fs[3], "oneOf");
    assert fs[1..] == [fs[1], fs[2], fs[3]];
    var items := fs[3].value.items;
    FollowOne(items[0], "const");
    FollowOne(items[1], "const");
    GetHead(items[0].fields, "const");
    GetHead(items[1].fields, "const");
    assert items[1..] == [items[1]] && [items[1]][1..] == [];
    assert Constants([items[1]]) == [Some(OPERATORS[1])] + Constants([]);
  }

  // ----- the controls -----

  /** The scopes of an element and of everything in its layouts, in order. */
  function Scopes(e: Json): seq<Json>
    decreases e, 0
  {
    if !e.Obj? then []
    else
      (match Get(e.fields, "scope") case Some(scope) => [scope] case None => [])
      + (match Get(e.fields, "elements")
         case Some(Arr(items)) => ScopesOf(items)
         case _ => [])
  }

  function ScopesOf(items: seq<Json>): seq<Json>
    decreases items, 1
  {
    if items == [] then [] else Scopes(items[0]) + ScopesOf(items[1..])
  }

  function ScopesFor(keys: seq<string>): seq<Json> {
    if keys == [] then [] else [Str("#/properties/" + keys[0])] + ScopesFor(keys[1..])
  }

  lemma ControlScopes(key: string)
    ensures Scopes(Control(key)) == [Str("#/properties/" + key)] && Scopes(VersionControl()) == [Str("#/properties/" + "dethernety_product_version")]
  {
    hide Get;
    var a, b := Control(key).fields, VersionControl().fields;
    ThreeFields(a[0], a[1], a[1], "scope");
    ThreeFields(a[0], a[1], a[1], "elements");
    ThreeFields(b[0], b[1], b[2], "scope");
    ThreeFields(b[0], b[1], b[2], "elements");
  }

  lemma TwoScopes(a: Json, b: Json)
    ensures ScopesOf([a]) == Scopes(a) && ScopesOf([a, b]) == Scopes(a) + Scopes(b)
  {
    hide Scopes;
    assert [a, b][1..] == [b] && [a][1..] == [] && [b][1..] == [];
    assert ScopesOf([]) == [];
    assert ScopesOf([b]) == Scopes(b) + ScopesOf([]);
  }

  lemma CategoryScopes(ct: ClassType)
    requires IsOperated(ct)
    ensures Scopes(Category(ct)) == ScopesFor(FieldsOf(ct))
  {
    hide Get, Control, VersionControl, ScopesOf, CategoryElements;
    var product := FieldsOf(ct)[1..];
    ControlScopes(OPERATION_OPERATOR_KEY);
    ControlScopes(OPERATION_PRODUCT_KEY);
    TwoScopes(Control(OPERATION_OPERATOR_KEY), Control(OPERATION_PRODUCT_KEY));
    RowShape();
    CategoryShape(ct);
    TwoScopes(OperatorRow(), VersionControl());
    assert CategoryElements(ct) == if ct == Component then [OperatorRow(), VersionControl()] else [OperatorRow()] by { Elements(ct); }
    assert ScopesFor(FieldsOf(ct)) == [Str("#/properties/" + "dethernety_operated_by")] + ScopesFor(product);
    assert ScopesFor(product) == [Str("#/properties/" + "dethernety_product")] + ScopesFor(product[1..]);
    if ct == Component {
      assert product[1..] == ["dethernety_product_version"] && product[1..][1..] == [];
      assert ScopesFor(product[1..]) == [Str("#/properties/" + "dethernety_product_version")] + ScopesFor([]);
    } else {
      assert product[1..] == [];
    }
  }

  lemma Elements(ct: ClassType)
    ensures CategoryElements(ct) == if ct == Component then [OperatorRow(), VersionControl()] else [OperatorRow()]
  {
    hide OperatorRow, VersionControl;
  }

  /** The control is hidden while the operator is a vendor. */
  predicate HiddenFromVendors(control: Json) {
    Follow(control, ["type"]) == Some(Str("Control")) && Follow(control, ["rule", "effect"]) == Some(Str("HIDE"))
    && Follow(control, ["rule", "condition", "scope"]) == Some(Str("#/properties/" + "dethernety_operated_by"))
    && Follow(control, ["rule", "condition", "schema", "const"]) == Some(OPERATORS[1])
  }

  lemma VersionHidden()
    ensures HiddenFromVendors(VersionControl())
  {
    hide Get;
    var fs := VersionControl().fields;
    ThreeFields(fs[0], fs[1], fs[2], "rule");
    ThreeFields(fs[0], fs[1], fs[2], "type");
    FollowOne(VersionControl(), "type");
    var rule := fs[2].value;
    ThreeFields(rule.fields[0], rule.fields[1], rule.fields[1], "effect");
    ThreeFields(rule.fields[0], rule.fields[1], rule.fields[1], "condition");
    var condition := rule.fields[1].value;
    ThreeFields(condition.fields[0], condition.fields[1], condition.fields[1], "scope");
    ThreeFields(condition.fields[0], condition.fields[1], condition.fields[1], "schema");
    var schema := condition.fields[1].value;
    ThreeFields(schema.fields[0], schema.fields[0], schema.fields[0], "const");
    FollowMore(VersionControl(), "rule", ["effect"]);
    FollowOne(rule, "effect");
    FollowMore(VersionControl(), "rule", ["condition", "scope"]);
    FollowMore(rule, "condition", ["scope"]);
    FollowOne(condition, "scope");
    FollowMore(VersionControl(), "rule", ["condition", "schema", "const"]);
    FollowMore(rule, "condition", ["schema", "const"]);
    FollowMore(condition, "schema", ["const"]);
    FollowOne(schema, "const");
    assert ["rule"] + ["effect"] == ["rule", "effect"] && ["rule"] + ["condition", "scope"] == ["rule", "condition", "scope"];
    assert ["condition"] + ["scope"] == ["condition", "scope"] && ["schema"] + ["const"] == ["schema", "const"];
    assert ["rule"] + ["condition", "schema", "const"] == ["rule", "condition", "schema", "const"];
    assert ["condition"] + ["schema", "const"] == ["condition", "schema", "const"];
  }

  // ----- the served template -----

  /** The served template's declared properties. */
  function Declared(served: Json): seq<Field>
    requires served.Obj? && IsRecordAt(served.fields, "schema") && IsRecordAt(Get(served.fields, "schema").value.fields, "properties")
  {
    Get(Get(served.fields, "schema").value.fields, "properties").value.fields
  }

  /**
   * A template that takes the fields is served, for a component or a boundary, with exactly that class type's
   * fields under the reserved prefix: the operator a choice of two, the product and the version texts of at
   * most 200 and 64 characters. For any other class type it is served as it came.
   */
  lemma FieldsServed(template: Json, ct: ClassType, key: string)
    requires template.Obj? && TakesFields(template.fields)
    ensures var served := WithOperationFields(template, ct);
            if ct == OtherClass then served == template
            else served.Obj? && IsRecordAt(served.fields, "schema") && IsRecordAt(Get(served.fields, "schema").value.fields, "properties")
                 && var declared := Declared(served);
                    (IsReserved(key) ==> (Get(declared, key).Some? <==> key in FieldsOf(ct)))
                    && Get(declared, "dethernety_operated_by").Some? && OperatorChoice(Get(declared, "dethernety_operated_by").value)
                    && Get(declared, "dethernety_product").Some? && Limited(Get(declared, "dethernety_product").value, "Product", 200)
                    && (ct == Component ==> Get(declared, "dethernety_product_version").Some?
                                            && Limited(Get(declared, "dethernety_product_version").value, "Version", 64))
  {
    hide Get, Properties, NextSchema, NextUi, TakesFields, OperatorChoice, Limited, IsReserved, OperatorField, TextField;
    if ct != OtherClass {
      SchemaOwnsReserved(template, ct, key);
      SchemaOwnsReserved(template, ct, OPERATION_OPERATOR_KEY);
      SchemaOwnsReserved(template, ct, OPERATION_PRODUCT_KEY);
      SchemaOwnsReserved(template, ct, OPERATION_VERSION_KEY);
      OperationKeysReserved(OPERATION_OPERATOR_KEY);
      OperationKeysReserved(OPERATION_PRODUCT_KEY);
      OperationKeysReserved(OPERATION_VERSION_KEY);
      FieldsDeclared(ct, key);
      OperatorChosen(ct);
      TextLimited("Product", PRODUCT_DESCRIPTION, 200);
      TextLimited("Version", VERSION_DESCRIPTION, 64);
    }
  }

  /**
   * The served form binds each of those fields by one control, in order, in the category that stands first in
   * the uischema; the version's is hidden while the operator is a vendor.
   */
  lemma ControlsBindFields(template: Json, ct: ClassType)
    requires template.Obj? && TakesFields(template.fields) && ct != OtherClass
    ensures var served := WithOperationFields(template, ct);
            served.Obj? && IsRecordAt(served.fields, "uischema")
            && var first := Reach(Get(served.fields, "uischema").value, [Child(0)]);
               first.Some? && Scopes(first.value) == ScopesFor(FieldsOf(ct))
               && (ct == Component ==>
                     var version := Reach(first.value, [Child(1)]);
                     version.Some? && Scopes(version.value) == [Str("#/properties/" + "dethernety_product_version")] && HiddenFromVendors(version.value))
  {
    hide Get, Category, CategoryElements, VersionControl, Scopes, HiddenFromVendors, NextSchema, NextUi;
    NothingUnboundLeft(template, ct, []);
    CategoryScopes(ct);
    if ct == Component {
      CategoryShape(ct);
      Elements(ct);
      ControlScopes("");
      VersionHidden();
      assert [Child(1)][1..] == [] && Reach(VersionControl(), []) == Some(VersionControl());
      assert Into(Category(ct), Child(1)) == Some(VersionControl());
    }
  }

  // ----- the served guide -----

  /** The names of a guide's entries for reserved keys, in order. */
  function ReservedNames(items: seq<Json>): seq<Json> {
    if items == [] then []
    else (if ReservedEntry(items[0]) then [Get(items[0].fields, "option_name").value] else []) + ReservedNames(items[1..])
  }

  lemma {:induction false} OwnNamesNone(items: seq<Json>, added: seq<Json>)
    ensures ReservedNames(OwnEntries(items) + added) == ReservedNames(added)
    decreases |items|
  {
    hide ReservedEntry, Get;
    if items == [] {
      assert OwnEntries(items) + added == added;
    } else {
      OwnNamesNone(items[1..], added);
      if !ReservedEntry(items[0]) {
        assert OwnEntries(items) + added == [items[0]] + (OwnEntries(items[1..]) + added);
      } else {
        assert OwnEntries(items) == OwnEntries(items[1..]);
      }
    }
  }

  lemma EntryNames(key: string, valueType: string, typical: seq<Json>)
    requires IsReserved(key)
    ensures var e := GuideEntry(key, valueType, typical);
            ReservedEntry(e) && Get(e.fields, "option_name") == Some(Str(key)) && Follow(e, ["typical_values"]) == Some(Arr(typical))
  {
    hide Get, IsReserved;
    var fs := GuideEntry(key, valueType, typical).fields;
    ThreeFields(fs[0], fs[1], fs[2], "option_name");
    ThreeFields(fs[0], fs[1], fs[2], "typical_values");
    FollowOne(Obj(fs), "typical_values");
  }

  function Names(keys: seq<string>): seq<Json> { seq(|keys|, k requires 0 <= k < |keys| => Str(keys[k])) }

  /**
   * The served guide answers for the same fields as the form: after its own entries, which stay in order, stand
   * one for each field of the class type, the operator's with the two choices the form offers. For any other
   * class type, or if it is no list, it is served as it came.
   */
  lemma GuideServed(guide: Json, ct: ClassType)
    ensures var served := WithOperationGuide(guide, ct);
            if ct == OtherClass || !guide.Arr? then served == guide
            else served.Arr? && OwnEntries(served.items) == OwnEntries(guide.items)
                 && ReservedNames(served.items) == Names(FieldsOf(ct)) && OwnEntries(guide.items) <= served.items
                 && var added := served.items[|OwnEntries(guide.items)|..];
                    |added| == |FieldsOf(ct)| && ReservedNames(added) == Names(FieldsOf(ct))
                    && Follow(added[0], ["typical_values"]) == Some(Arr(OPERATORS))
  {
    hide ReservedEntry, Get, GuideEntry, IsReserved;
    if ct != OtherClass && guide.Arr? {
      var added := GuideEntries(ct);
      GuideEntriesReserved(ct);
      OwnEntriesTwice(guide.items, added);
      OwnNamesNone(guide.items, added);
      OperationKeysReserved(OPERATION_OPERATOR_KEY);
      OperationKeysReserved(OPERATION_PRODUCT_KEY);
      OperationKeysReserved(OPERATION_VERSION_KEY);
      EntryNames(OPERATION_OPERATOR_KEY, "enum", OPERATORS);
      EntryNames(OPERATION_PRODUCT_KEY, "string", []);
      EntryNames(OPERATION_VERSION_KEY, "string", []);
      AddedNames(ct);
      assert (OwnEntries(guide.items) + added)[|OwnEntries(guide.items)|..] == added;
    }
  }

  lemma AddedNames(ct: ClassType)
    requires ct != OtherClass
    ensures ReservedNames(GuideEntries(ct)) == Names(FieldsOf(ct)) && |GuideEntries(ct)| == |FieldsOf(ct)|
  {
    hide ReservedEntry, Get, GuideEntry, IsReserved;
    OperationKeysReserved(OPERATION_OPERATOR_KEY);
    OperationKeysReserved(OPERATION_PRODUCT_KEY);
    OperationKeysReserved(OPERATION_VERSION_KEY);
    EntryNames(OPERATION_OPERATOR_KEY, "enum", OPERATORS);
    EntryNames(OPERATION_PRODUCT_KEY, "string", []);
    EntryNames(OPERATION_VERSION_KEY, "string", []);
    var a, b := GuideEntry(OPERATION_OPERATOR_KEY, "enum", OPERATORS), GuideEntry(OPERATION_PRODUCT_KEY, "string", []);
    var c := GuideEntry(OPERATION_VERSION_KEY, "string", []);
    ThreeNames(a, b, c);
    assert GuideEntries(ct) == if ct == Component then [a, b, c] else [a, b];
  }

  lemma ThreeNames(a: Json, b: Json, c: Json)
    requires ReservedEntry(a) && ReservedEntry(b) && ReservedEntry(c)
    ensures ReservedNames([a, b])
         == [Get(a.fields, "option_name").value, Get(b.fields, "option_name").value]
    ensures ReservedNames([a, b, c])
         == [Get(a.fields, "option_name").value, Get(b.fields, "option_name").value, Get(c.fields, "option_name").value]
  {
    hide Get;
    assert [a, b][1..] == [b] && [b][1..] == [] && [a, b, c][1..] == [b, c] && [b, c][1..] == [c] && [c][1..] == [];
    assert ReservedNames([]) == [];
    assert ReservedNames([b]) == [Get(b.fields, "option_name").value] + ReservedNames([]);
    assert ReservedNames([c]) == [Get(c.fields, "option_name").value] + ReservedNames([]);
    assert ReservedNames([b, c]) == [Get(b.fields, "option_name").value] + ReservedNames([c]);
  }
}
