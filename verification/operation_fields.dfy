/**
 * The operation fields (packages/dt-module/src/operation-fields.ts): what the platform adds to a
 * class template and guide, and what it takes out of the template's uischema.
 */
module OperationFields {
  import opened Prelude

  datatype Json = Null | Bool(flag: bool) | Num(value: int) | Str(text: string) | Arr(items: seq<Json>) | Obj(fields: seq<Field>)

  /** One entry of an object; entries keep their order. */
  datatype Field = Field(key: string, value: Json)

  predicate HasKey(fs: seq<Field>, k: string) { exists i :: 0 <= i < |fs| && fs[i].key == k }

  function At(fs: seq<Field>, k: string): (i: nat)
    requires HasKey(fs, k)
    ensures i < |fs| && fs[i].key == k
  {
    if fs[0].key == k then 0 else 1 + At(fs[1..], k)
  }

  function Get(fs: seq<Field>, k: string): Option<Json> { if HasKey(fs, k) then Some(fs[At(fs, k)].value) else None }

  /** A spread with one key given a new value: in its place, or last. */
  function Put(fs: seq<Field>, k: string, v: Json): seq<Field> {
    if fs == [] then [Field(k, v)]
    else if fs[0].key == k then [Field(k, v)] + fs[1..]
    else [fs[0]] + Put(fs[1..], k, v)
  }

  function Without(fs: seq<Field>, k: string): seq<Field> {
    if fs == [] then [] else (if fs[0].key == k then [] else [fs[0]]) + Without(fs[1..], k)
  }

  // ----- scopes -----

  const RESERVED_ATTRIBUTE_PREFIX := "dethernety_"

  predicate IsReserved(key: string) { RESERVED_ATTRIBUTE_PREFIX <= key }

  function SplitSlash(s: string): (parts: seq<string>)
    ensures parts != []
  {
    if s == "" then [""]
    else
      var rest := SplitSlash(s[1..]);
      if s[0] == '/' then [""] + rest else [[s[0]] + rest[0]] + rest[1..]
  }

  /** A key of a plain scope: not empty, and without path syntax. */
  predicate PlainKey(s: string) {
    s != "" && forall k :: 0 <= k < |s| ==> s[k] !in "/~.[]\"'\\"
  }

  /** properties/<key>, once or more. */
  predicate PlainChain(parts: seq<string>) {
    |parts| >= 2 && parts[0] == "properties" && PlainKey(parts[1]) && (|parts| == 2 || PlainChain(parts[2..]))
  }

  predicate PlainScope(s: string) { SplitSlash(s)[0] == "#" && PlainChain(SplitSlash(s)[1..]) }

  predicate AnyReserved(parts: seq<string>) { exists k :: 0 <= k < |parts| && IsReserved(parts[k]) }

  predicate ScopeMayBind(scope: Json) { scope.Str? && PlainScope(scope.text) && !AnyReserved(SplitSlash(scope.text)) }

  /** An element carries no scope, or one that may bind. */
  predicate ScopeOk(e: Json) {
    e.Obj? ==> match Get(e.fields, "scope") case None => true case Some(scope) => ScopeMayBind(scope)
  }

  // ----- taking out what may not bind -----

  function PutOptions(e: Json, before: seq<Field>, kept: seq<Field>): Json
    requires e.Obj?
  {
    if kept == before then e else Obj(Put(e.fields, "options", Obj(kept)))
  }

  /** The entries of an options record: nested elements walked, and left out when nothing of them is left. */
  function KeptOptions(fs: seq<Field>): seq<Field> {
    if fs == [] then []
    else
      var rest := KeptOptions(fs[1..]);
      if !fs[0].value.Obj? then [fs[0]] + rest
      else var kept := WithoutUnboundElements(fs[0].value); if kept == Null then rest else [Field(fs[0].key, kept)] + rest
  }

  function KeptItems(items: seq<Json>): seq<Json> {
    if items == [] then []
    else
      var kept := WithoutUnboundElements(items[0]);
      (if kept == Null then [] else [kept]) + KeptItems(items[1..])
  }

  function WithoutUnboundElements(e: Json): Json
    decreases e
  {
    if !e.Obj? then e
    else if !ScopeOk(e) then Null
    else
      var children := Get(e.fields, "elements");
      if children.Some? && !children.value.Arr? then Null
      else
        var kept := if children.Some? then KeptItems(children.value.items) else [];
        var changed := children.Some? && kept != children.value.items;
        if changed && kept == [] then Null
        else
          var next := if changed then Obj(Put(e.fields, "elements", Arr(kept))) else e;
          var options := Get(e.fields, "options");
          if options.Some? && options.value.Obj? then PutOptions(next, options.value.fields, KeptOptions(options.value.fields)) else next
  }

  function WithoutUnboundOptions(e: Json): Json
    requires e.Obj?
  {
    var options := Get(e.fields, "options");
    if options.Some? && options.value.Obj? then PutOptions(e, options.value.fields, KeptOptions(options.value.fields)) else e
  }

  // ----- entries -----

  lemma {:induction false} GetHead(fs: seq<Field>, k: string)
    requires fs != []
    ensures Get(fs, k) == if fs[0].key == k then Some(fs[0].value) else Get(fs[1..], k)
  {
    if HasKey(fs, k) && fs[0].key != k {
      var i :| 0 <= i < |fs| && fs[i].key == k;
      assert fs[1..][i - 1].key == k;
    }
    if HasKey(fs[1..], k) {
      var i :| 0 <= i < |fs| - 1 && fs[1..][i].key == k;
      assert fs[i + 1].key == k;
    }
  }

  lemma {:induction false} GetPut(fs: seq<Field>, k: string, v: Json, other: string)
    ensures Get(Put(fs, k, v), other) == if other == k then Some(v) else Get(fs, other)
    decreases |fs|
  {
    hide Get;
    GetHead(Put(fs, k, v), other);
    if fs == [] {
      NoEntries(k, v, other);
    } else {
      GetHead(fs, other);
      if fs[0].key != k {
        assert Put(fs, k, v)[1..] == Put(fs[1..], k, v);
        GetPut(fs[1..], k, v, other);
      } else {
        assert Put(fs, k, v)[1..] == fs[1..];
      }
    }
  }

  lemma NoEntries(k: string, v: Json, other: string)
    ensures Get([], other) == None && Put([], k, v)[1..] == []
  {
  }

  lemma {:induction false} PutSame(fs: seq<Field>, k: string, v: Json)
    requires Get(fs, k) == Some(v)
    ensures Put(fs, k, v) == fs
    decreases |fs|
  {
    if fs == [] {
    } else {
      GetHead(fs, k);
      if fs[0].key != k { PutSame(fs[1..], k, v); }
    }
  }

  lemma {:induction false} GetWithout(fs: seq<Field>, k: string, other: string)
    ensures Get(Without(fs, k), other) == if other == k then None else Get(fs, other)
    decreases |fs|
  {
    hide Get;
    if fs == [] {
      NoEntries(k, Null, other);
    } else {
      GetHead(fs, other);
      GetWithout(fs[1..], k, other);
      if fs[0].key != k {
        GetHead(Without(fs, k), other);
        assert Without(fs, k)[1..] == Without(fs[1..], k);
      } else {
        assert Without(fs, k) == Without(fs[1..], k);
      }
    }
  }

  lemma {:induction false} WithoutMissing(fs: seq<Field>, k: string)
    requires Get(fs, k) == None
    ensures Without(fs, k) == fs
    decreases |fs|
  {
    if fs != [] {
      GetHead(fs, k);
      WithoutMissing(fs[1..], k);
    }
  }

  // ----- clean elements -----

  /** Nothing to take out: scopes that may bind, elements that are lists without nulls, all the way down. */
  predicate Clean(e: Json)
    decreases e
  {
    e.Obj? ==>
      ScopeOk(e)
      && (var children := Get(e.fields, "elements");
          children.Some? ==> children.value.Arr? && CleanItems(children.value.items))
      && (var options := Get(e.fields, "options");
          options.Some? && options.value.Obj? ==> CleanOptions(options.value.fields))
  }

  predicate CleanItems(items: seq<Json>) { items != [] ==> items[0] != Null && Clean(items[0]) && CleanItems(items[1..]) }

  predicate CleanOptions(fs: seq<Field>) {
    fs != [] ==> (fs[0].value.Obj? ==> Clean(fs[0].value)) && CleanOptions(fs[1..])
  }

  /** The keys the walk looks at are looked at one by one. */
  lemma Looks(e: Json, k: string, v: Json)
    requires e.Obj? && (k == "elements" || k == "options")
    ensures var f := Obj(Put(e.fields, k, v));
            ScopeOk(f) == ScopeOk(e) && Get(f.fields, "scope") == Get(e.fields, "scope") && Get(f.fields, "type") == Get(e.fields, "type")
            && Get(f.fields, "elements") == (if k == "elements" then Some(v) else Get(e.fields, "elements"))
            && Get(f.fields, "options") == (if k == "options" then Some(v) else Get(e.fields, "options"))
  {
    hide Get, ScopeMayBind;
    GetPut(e.fields, k, v, "scope");
    GetPut(e.fields, k, v, "type");
    GetPut(e.fields, k, v, "elements");
    GetPut(e.fields, k, v, "options");
  }

  /** What is left of an element is clean. */
  lemma {:induction false} LeavesClean(e: Json)
    ensures WithoutUnboundElements(e) != Null ==> Clean(WithoutUnboundElements(e))
    decreases e
  {
    hide Put, ScopeOk;
    var r := WithoutUnboundElements(e);
    if e.Obj? && r != Null {
      var children := Get(e.fields, "elements");
      var options := Get(e.fields, "options");
      var next := e;
      if children.Some? {
        var kept := KeptItems(children.value.items);
        ItemsLeftClean(children.value.items);
        Looks(e, "elements", Arr(kept));
        next := if kept != children.value.items then Obj(Put(e.fields, "elements", Arr(kept))) else e;
      }
      if options.Some? && options.value.Obj? {
        OptionsLeftClean(options.value.fields);
        Looks(next, "options", Obj(KeptOptions(options.value.fields)));
      }
    }
  }

  lemma {:induction false} ItemsLeftClean(items: seq<Json>)
    ensures CleanItems(KeptItems(items))
    decreases items
  {
    hide WithoutUnboundElements, Clean;
    if items != [] {
      LeavesClean(items[0]);
      ItemsLeftClean(items[1..]);
      var kept := WithoutUnboundElements(items[0]);
      assert if kept == Null then KeptItems(items) == KeptItems(items[1..]) else KeptItems(items)[1..] == KeptItems(items[1..]);
    }
  }

  lemma {:induction false} OptionsLeftClean(fs: seq<Field>)
    ensures CleanOptions(KeptOptions(fs))
    decreases fs
  {
    hide WithoutUnboundElements, Clean;
    if fs != [] {
      LeavesClean(fs[0].value);
      OptionsLeftClean(fs[1..]);
      var rest := KeptOptions(fs[1..]);
      assert KeptOptions(fs) == rest || KeptOptions(fs)[1..] == rest;
    }
  }

  /** A clean element is returned as it is. */
  lemma {:induction false} CleanStays(e: Json)
    requires Clean(e)
    ensures WithoutUnboundElements(e) == e
    decreases e
  {
    hide Put, ScopeOk;
    if e.Obj? {
      var children := Get(e.fields, "elements");
      var options := Get(e.fields, "options");
      if children.Some? { CleanItemsStay(children.value.items); }
      if options.Some? && options.value.Obj? { CleanOptionsStay(options.value.fields); }
    }
  }

  lemma {:induction false} CleanItemsStay(items: seq<Json>)
    requires CleanItems(items)
    ensures KeptItems(items) == items
    decreases items
  {
    hide WithoutUnboundElements, Clean;
    if items != [] {
      CleanStays(items[0]);
      CleanItemsStay(items[1..]);
    }
  }

  lemma {:induction false} CleanOptionsStay(fs: seq<Field>)
    requires CleanOptions(fs)
    ensures KeptOptions(fs) == fs
    decreases fs
  {
    hide WithoutUnboundElements, Clean;
    if fs != [] {
      if fs[0].value.Obj? { CleanStays(fs[0].value); }
      CleanOptionsStay(fs[1..]);
    }
  }

  /** An element is returned as it is exactly when there is nothing in it to take out. */
  lemma UnchangedIffClean(e: Json)
    requires e != Null
    ensures WithoutUnboundElements(e) == e <==> Clean(e)
  {
    if Clean(e) { CleanStays(e); }
    if WithoutUnboundElements(e) == e { LeavesClean(e); }
  }

  /** Nothing of an element can stay: its scope may not bind, its `elements` is no list, or all it holds is gone. */
  predicate Gone(e: Json)
    decreases e
  {
    if !e.Obj? then e == Null
    else
      !ScopeOk(e)
      || (var children := Get(e.fields, "elements");
          children.Some? && (!children.value.Arr? || (children.value.items != [] && AllGone(children.value.items))))
  }

  predicate AllGone(items: seq<Json>) { items != [] ==> Gone(items[0]) && AllGone(items[1..]) }

  /** An element is taken out exactly when nothing of it can stay. */
  lemma {:induction false} TakenOutIffGone(e: Json)
    ensures WithoutUnboundElements(e) == Null <==> Gone(e)
    decreases e
  {
    hide Put, ScopeOk, KeptOptions;
    if e.Obj? {
      var children := Get(e.fields, "elements");
      if children.Some? && children.value.Arr? { AllTakenOutIffGone(children.value.items); }
    }
  }

  lemma {:induction false} AllTakenOutIffGone(items: seq<Json>)
    ensures KeptItems(items) == [] <==> AllGone(items)
    decreases items
  {
    hide WithoutUnboundElements, Gone;
    if items != [] {
      TakenOutIffGone(items[0]);
      AllTakenOutIffGone(items[1..]);
    }
  }

  /** What stays keeps its order and every entry but the two that are walked. */
  lemma OthersStay(e: Json, key: string)
    requires e.Obj? && !Gone(e) && key != "elements" && key != "options"
    ensures var kept := WithoutUnboundElements(e); kept.Obj? && Get(kept.fields, key) == Get(e.fields, key)
  {
    hide Get, Put, ScopeOk, KeptItems, KeptOptions, Gone;
    TakenOutIffGone(e);
    var children, options := Get(e.fields, "elements"), Get(e.fields, "options");
    var next := e;
    if children.Some? {
      var kept := KeptItems(children.value.items);
      GetPut(e.fields, "elements", Arr(kept), key);
      next := if kept != children.value.items then Obj(Put(e.fields, "elements", Arr(kept))) else e;
    }
    if options.Some? && options.value.Obj? { GetPut(next.fields, "options", Obj(KeptOptions(options.value.fields)), key); }
  }

  // ----- reach -----

  datatype Step = Child(index: nat) | Nested(key: string)

  /** One step into a uischema: an entry of `elements`, or a record an option holds. */
  function Into(e: Json, step: Step): Option<Json> {
    if !e.Obj? then None
    else match step
         case Child(i) =>
           var children := Get(e.fields, "elements");
           if children.Some? && children.value.Arr? && i < |children.value.items| then Some(children.value.items[i]) else None
         case Nested(k) =>
           var options := Get(e.fields, "options");
           if options.Some? && options.value.Obj? then
             var held := Get(options.value.fields, k);
             if held.Some? && held.value.Obj? then held else None
           else None
  }

  function Reach(e: Json, path: seq<Step>): Option<Json> {
    if path == [] then Some(e)
    else match Into(e, path[0])
         case None => None
         case Some(inner) => Reach(inner, path[1..])
  }

  lemma {:induction false} CleanItem(items: seq<Json>, i: nat)
    requires CleanItems(items) && i < |items|
    ensures Clean(items[i])
  {
    hide Clean;
    if i > 0 { CleanItem(items[1..], i - 1); }
  }

  lemma {:induction false} CleanOption(fs: seq<Field>, k: string)
    requires CleanOptions(fs) && Get(fs, k).Some? && Get(fs, k).value.Obj?
    ensures Clean(Get(fs, k).value)
    decreases |fs|
  {
    hide Clean, Get;
    if fs == [] {
      NoEntries(k, Null, k);
    } else {
      GetHead(fs, k);
      if fs[0].key != k { CleanOption(fs[1..], k); }
    }
  }

  /** Every element reached from a clean one is clean. */
  lemma {:induction false} CleanReach(e: Json, path: seq<Step>)
    requires Clean(e) && Reach(e, path).Some?
    ensures Clean(Reach(e, path).value) && ScopeOk(Reach(e, path).value)
    decreases |path|
  {
    hide Get, ScopeMayBind;
    if path != [] {
      match path[0]
      case Child(i) =>
        CleanItem(Get(e.fields, "elements").value.items, i);
        CleanReach(Into(e, path[0]).value, path[1..]);
      case Nested(k) =>
        CleanOption(Get(e.fields, "options").value.fields, k);
        CleanReach(Into(e, path[0]).value, path[1..]);
    }
  }

  // ----- the template -----

  const OPERATION_OPERATOR_KEY := "dethernety_operated_by"
  const OPERATION_PRODUCT_KEY := "dethernety_product"
  const OPERATION_VERSION_KEY := "dethernety_product_version"

  /** The class types; only the first two carry operation fields. */
  datatype ClassType = Component | SecurityBoundary | OtherClass

  predicate IsOperated(ct: ClassType) { ct != OtherClass }

  const OPERATOR_OF_COMPONENT := "Who builds or runs the software of this element: you, or a vendor whose service you use."
  const OPERATOR_OF_BOUNDARY := "Who runs the execution environment of what is drawn directly in this boundary: you, or a vendor."
  const PRODUCT_DESCRIPTION := "The vendor and product name, for example \"PostgreSQL\" or the name of the service you use."
  const VERSION_DESCRIPTION := "The version you run. Not asked for an element a vendor operates."

  function OperatorField(ct: ClassType): Json {
    Obj([Field("type", Str("string")), Field("title", Str("Operated by")),
         Field("description", Str(if ct == Component then OPERATOR_OF_COMPONENT else OPERATOR_OF_BOUNDARY)),
         Field("oneOf", Arr([Obj([Field("const", Str("CUSTOMER")), Field("title", Str("You (your organisation)"))]),
                             Obj([Field("const", Str("VENDOR")), Field("title", Str("A vendor"))])]))])
  }

  function TextField(title: string, description: string, maxLength: int): Json {
    Obj([Field("type", Str("string")), Field("title", Str(title)), Field("description", Str(description)), Field("maxLength", Num(maxLength))])
  }

  function Properties(ct: ClassType): seq<Field> {
    [Field(OPERATION_OPERATOR_KEY, OperatorField(ct)), Field(OPERATION_PRODUCT_KEY, TextField("Product", PRODUCT_DESCRIPTION, 200))]
    + if ct == Component then [Field(OPERATION_VERSION_KEY, TextField("Version", VERSION_DESCRIPTION, 64))] else []
  }

  function ScopeOf(key: string): Json { Str("#/properties/" + key) }

  function Control(key: string): Json { Obj([Field("type", Str("Control")), Field("scope", ScopeOf(key))]) }

  function VersionControl(): Json {
    Obj([Field("type", Str("Control")), Field("scope", ScopeOf(OPERATION_VERSION_KEY)),
         Field("rule", Obj([Field("effect", Str("HIDE")),
                            Field("condition", Obj([Field("scope", ScopeOf(OPERATION_OPERATOR_KEY)),
                                                    Field("schema", Obj([Field("const", Str("VENDOR"))]))]))]))])
  }

  function OperatorRow(): Json {
    Obj([Field("type", Str("HorizontalLayout")), Field("elements", Arr([Control(OPERATION_OPERATOR_KEY), Control(OPERATION_PRODUCT_KEY)]))])
  }

  function CategoryElements(ct: ClassType): seq<Json> { [OperatorRow()] + if ct == Component then [VersionControl()] else [] }

  function Category(ct: ClassType): Json {
    Obj([Field("type", Str("Category")), Field("label", Str(if ct == Component then "Operation & version" else "Operation")),
         Field("elements", Arr(CategoryElements(ct)))])
  }

  const EMPTY_LAYOUT := Obj([Field("type", Str("VerticalLayout")), Field("elements", Arr([]))])

  function NotReserved(fs: seq<Field>): seq<Field> {
    if fs == [] then [] else (if IsReserved(fs[0].key) then [] else [fs[0]]) + NotReserved(fs[1..])
  }

  predicate ReservedText(j: Json) { j.Str? && IsReserved(j.text) }

  function NotReservedTexts(items: seq<Json>): seq<Json> {
    if items == [] then [] else (if ReservedText(items[0]) then [] else [items[0]]) + NotReservedTexts(items[1..])
  }

  predicate SomeReserved(items: seq<Json>) { exists k :: 0 <= k < |items| && ReservedText(items[k]) }

  predicate IsRecordAt(fs: seq<Field>, k: string) { Get(fs, k).Some? && Get(fs, k).value.Obj? }

  /** The template takes the fields: it has schema.properties and a root Categorization. */
  predicate TakesFields(fs: seq<Field>) {
    IsRecordAt(fs, "schema") && IsRecordAt(Get(fs, "schema").value.fields, "properties") && IsRecordAt(fs, "uischema")
    && (var ui := Get(fs, "uischema").value.fields;
        Get(ui, "type") == Some(Str("Categorization")) && Get(ui, "elements").Some? && Get(ui, "elements").value.Arr?)
  }

  function NextSchema(schema: seq<Field>, ct: ClassType): seq<Field>
    requires IsRecordAt(schema, "properties")
  {
    var next := Put(schema, "properties", Obj(NotReserved(Get(schema, "properties").value.fields) + Properties(ct)));
    var required := Get(schema, "required");
    if required.Some? && required.value.Arr? && SomeReserved(required.value.items)
    then Put(next, "required", Arr(NotReservedTexts(required.value.items)))
    else next
  }

  function UnscopedRoot(ui: Json): Json
    requires ui.Obj?
  {
    var held := WithoutUnboundOptions(ui);
    if ScopeOk(held) then held else Obj(Without(held.fields, "scope"))
  }

  function NextUi(ui: Json, ct: ClassType): Json
    requires ui.Obj? && Get(ui.fields, "elements").Some? && Get(ui.fields, "elements").value.Arr?
  {
    Obj(Put(UnscopedRoot(ui).fields, "elements", Arr([Category(ct)] + KeptItems(Get(ui.fields, "elements").value.items))))
  }

  function WithOperationFields(template: Json, ct: ClassType): Json {
    if !IsOperated(ct) || !template.Obj? || !IsRecordAt(template.fields, "uischema") then template
    else
      var ui := Get(template.fields, "uischema").value;
      if !TakesFields(template.fields) then
        var walked := WithoutUnboundElements(ui);
        var kept := if walked == Null then EMPTY_LAYOUT else walked;
        if kept == ui then template else Obj(Put(template.fields, "uischema", kept))
      else
        var schema := Get(template.fields, "schema").value.fields;
        Obj(Put(Put(template.fields, "schema", Obj(NextSchema(schema, ct))), "uischema", NextUi(ui, ct)))
  }

  // ----- what the platform serves -----

  /** A prefix and one word more: a chain of one key. */
  lemma {:induction false} SplitOne(s: string)
    requires forall k :: 0 <= k < |s| ==> s[k] != '/'
    ensures SplitSlash(s) == [s]
    decreases |s|
  {
    if s != "" {
      SplitOne(s[1..]);
      assert s == [s[0]] + s[1..];
    }
  }

  lemma ReservedUnbound(key: string)
    requires IsReserved(key) && forall k :: 0 <= k < |key| ==> key[k] != '/'
    ensures !ScopeMayBind(ScopeOf(key))
  {
    var s := "#/properties/" + key;
    assert s[13..] == key;
    SplitOne(key);
    SplitTail(s, 13);
  }

  /** The last part of a path is a part of the whole. */
  lemma {:induction false} SplitTail(s: string, n: nat)
    requires 0 < n <= |s| && s[n - 1] == '/'
    ensures |SplitSlash(s[n..])| < |SplitSlash(s)|
    ensures SplitSlash(s)[|SplitSlash(s)| - 1] == SplitSlash(s[n..])[|SplitSlash(s[n..])| - 1]
    decreases n
  {
    if n == 1 {
    } else {
      assert s[1..][n - 1..] == s[n..];
      SplitTail(s[1..], n - 1);
    }
  }

  predicate OperationKey(key: string) { key == OPERATION_OPERATOR_KEY || key == OPERATION_PRODUCT_KEY || key == OPERATION_VERSION_KEY }

  lemma OperationKeysReserved(key: string)
    requires OperationKey(key)
    ensures IsReserved(key) && forall k :: 0 <= k < |key| ==> key[k] != '/'
  {
  }

  /** An element whose second entry is a reserved scope goes. */
  lemma ReservedControlGoes(e: Json, key: string)
    requires e.Obj? && |e.fields| >= 2 && e.fields[0].key == "type" && e.fields[1] == Field("scope", ScopeOf(key))
    requires OperationKey(key)
    ensures WithoutUnboundElements(e) == Null
  {
    hide Get, ScopeOf, ScopeMayBind, OperationKey;
    OperationKeysReserved(key);
    ReservedUnbound(key);
    GetHead(e.fields, "scope");
    GetHead(e.fields[1..], "scope");
  }

  /** A layout without a scope goes when all it holds goes. */
  lemma EmptiedLayoutGoes(e: Json, items: seq<Json>)
    requires e.Obj? && Get(e.fields, "scope") == None && Get(e.fields, "elements") == Some(Arr(items))
    requires items != [] && KeptItems(items) == []
    ensures WithoutUnboundElements(e) == Null
  {
    hide Get;
  }

  lemma TwoGone(a: Json, b: Json)
    requires WithoutUnboundElements(a) == Null && WithoutUnboundElements(b) == Null
    ensures KeptItems([a, b]) == [] && KeptItems([a]) == []
  {
    hide WithoutUnboundElements;
    assert [a, b][1..] == [b] && [a][1..] == [];
    assert KeptItems([]) == [];
    assert KeptItems([b]) == [] by { assert [b][1..] == []; }
  }

  /** The platform's own category is taken out whole, which is what makes a second application the same as one. */
  lemma CategoryGoes(ct: ClassType)
    ensures WithoutUnboundElements(Category(ct)) == Null
  {
    hide WithoutUnboundElements, Control, VersionControl, Get, KeptItems, ScopeOf;
    ControlShape();
    ReservedControlGoes(Control(OPERATION_OPERATOR_KEY), OPERATION_OPERATOR_KEY);
    ReservedControlGoes(Control(OPERATION_PRODUCT_KEY), OPERATION_PRODUCT_KEY);
    ReservedControlGoes(VersionControl(), OPERATION_VERSION_KEY);
    TwoGone(Control(OPERATION_OPERATOR_KEY), Control(OPERATION_PRODUCT_KEY));
    RowShape();
    EmptiedLayoutGoes(OperatorRow(), [Control(OPERATION_OPERATOR_KEY), Control(OPERATION_PRODUCT_KEY)]);
    TwoGone(OperatorRow(), VersionControl());
    CategoryShape(ct);
    assert CategoryElements(ct) == if ct == Component then [OperatorRow(), VersionControl()] else [OperatorRow()];
    EmptiedLayoutGoes(Category(ct), CategoryElements(ct));
  }

  lemma ControlShape()
    ensures forall key :: Control(key).Obj? && |Control(key).fields| == 2 && Control(key).fields[0].key == "type" && Control(key).fields[1] == Field("scope", ScopeOf(key))
    ensures VersionControl().Obj? && |VersionControl().fields| == 3 && VersionControl().fields[0].key == "type"
            && VersionControl().fields[1] == Field("scope", ScopeOf(OPERATION_VERSION_KEY))
  {
    hide ScopeOf;
  }

  lemma RowShape()
    ensures OperatorRow().Obj? && Get(OperatorRow().fields, "scope") == None
    ensures Get(OperatorRow().fields, "elements") == Some(Arr([Control(OPERATION_OPERATOR_KEY), Control(OPERATION_PRODUCT_KEY)]))
  {
    hide Get, Control;
    var fs := OperatorRow().fields;
    GetHead(fs, "scope");
    GetHead(fs[1..], "scope");
    GetHead(fs, "elements");
    GetHead(fs[1..], "elements");
    NoEntries("", Null, "scope");
    assert fs[1..][1..] == [];
  }

  lemma CategoryShape(ct: ClassType)
    ensures Category(ct).Obj? && Get(Category(ct).fields, "scope") == None
    ensures Get(Category(ct).fields, "elements") == Some(Arr(CategoryElements(ct)))
  {
    hide Get, CategoryElements;
    var fs := Category(ct).fields;
    GetHead(fs, "scope");
    GetHead(fs[1..], "scope");
    GetHead(fs[1..][1..], "scope");
    GetHead(fs, "elements");
    GetHead(fs[1..], "elements");
    GetHead(fs[1..][1..], "elements");
    NoEntries("", Null, "scope");
    assert fs[1..][1..][1..] == [];
  }

  lemma {:induction false} NotReservedTwice(own: seq<Field>, added: seq<Field>)
    requires forall k :: 0 <= k < |added| ==> IsReserved(added[k].key)
    ensures NotReserved(NotReserved(own) + added) == NotReserved(own)
    decreases |own|
  {
    hide IsReserved;
    if own == [] {
      assert NotReserved(own) + added == added;
      AllReservedGone(added);
    } else {
      NotReservedTwice(own[1..], added);
      var rest := NotReserved(own[1..]);
      if IsReserved(own[0].key) {
        assert NotReserved(own) == rest;
      } else {
        assert NotReserved(own) + added == [own[0]] + (rest + added);
        assert (NotReserved(own) + added)[1..] == rest + added;
      }
    }
  }

  lemma {:induction false} AllReservedGone(added: seq<Field>)
    requires forall k :: 0 <= k < |added| ==> IsReserved(added[k].key)
    ensures NotReserved(added) == []
    decreases |added|
  {
    hide IsReserved;
    if added != [] { AllReservedGone(added[1..]); }
  }

  lemma {:induction false} NotReservedTextsClean(items: seq<Json>)
    ensures !SomeReserved(NotReservedTexts(items))
    decreases |items|
  {
    hide ReservedText;
    if items != [] {
      NotReservedTextsClean(items[1..]);
      var r, rest := NotReservedTexts(items), NotReservedTexts(items[1..]);
      if ReservedText(items[0]) {
        assert r == rest;
      } else {
        forall k | 0 <= k < |r| ensures !ReservedText(r[k]) { if k > 0 { assert r[k] == rest[k - 1]; } }
      }
    }
  }

  lemma PropertiesReserved(ct: ClassType)
    ensures forall k :: 0 <= k < |Properties(ct)| ==> IsReserved(Properties(ct)[k].key)
  {
    hide IsReserved, OperatorField, TextField;
    OperationKeysReserved(OPERATION_OPERATOR_KEY);
    OperationKeysReserved(OPERATION_PRODUCT_KEY);
    OperationKeysReserved(OPERATION_VERSION_KEY);
  }

  /** The schema with the fields takes them again without change. */
  lemma NextSchemaTwice(schema: seq<Field>, ct: ClassType)
    requires IsRecordAt(schema, "properties")
    ensures IsRecordAt(NextSchema(schema, ct), "properties")
    ensures NextSchema(NextSchema(schema, ct), ct) == NextSchema(schema, ct)
  {
    hide Get, Put, Properties, NotReserved, SomeReserved, NotReservedTexts;
    var own := Get(schema, "properties").value.fields;
    var props := Obj(NotReserved(own) + Properties(ct));
    var next := Put(schema, "properties", props);
    var required := Get(schema, "required");
    var once := NextSchema(schema, ct);
    PropertiesReserved(ct);
    NotReservedTwice(own, Properties(ct));
    GetPut(schema, "properties", props, "properties");
    GetPut(schema, "properties", props, "required");
    if required.Some? && required.value.Arr? && SomeReserved(required.value.items) {
      var left := Arr(NotReservedTexts(required.value.items));
      GetPut(next, "required", left, "properties");
      GetPut(next, "required", left, "required");
      NotReservedTextsClean(required.value.items);
    }
    PutSame(once, "properties", props);
  }

  // ----- twice is once -----

  lemma WithoutUnboundOptionsKeeps(ui: Json)
    requires ui.Obj?
    ensures var held := WithoutUnboundOptions(ui);
            held.Obj? && WithoutUnboundOptions(held) == held && ScopeOk(held) == ScopeOk(ui)
            && Get(held.fields, "type") == Get(ui.fields, "type") && Get(held.fields, "elements") == Get(ui.fields, "elements")
            && (IsRecordAt(held.fields, "options") ==> CleanOptions(Get(held.fields, "options").value.fields))
  {
    hide Get, Put, ScopeOk;
    var options := Get(ui.fields, "options");
    if options.Some? && options.value.Obj? {
      var kept := KeptOptions(options.value.fields);
      Looks(ui, "options", Obj(kept));
      OptionsLeftClean(options.value.fields);
      CleanOptionsStay(kept);
    }
  }

  /** The root keeps its type and elements, and loses what may not bind. */
  lemma RootKept(ui: Json)
    requires ui.Obj?
    ensures var root := UnscopedRoot(ui);
            root.Obj? && ScopeOk(root) && WithoutUnboundOptions(root) == root
            && Get(root.fields, "type") == Get(ui.fields, "type") && Get(root.fields, "elements") == Get(ui.fields, "elements")
            && (IsRecordAt(root.fields, "options") ==> CleanOptions(Get(root.fields, "options").value.fields))
  {
    hide Get, Put, ScopeMayBind, WithoutUnboundOptions, Without;
    WithoutUnboundOptionsKeeps(ui);
    var held := WithoutUnboundOptions(ui);
    if !ScopeOk(held) {
      GetWithout(held.fields, "scope", "scope");
      GetWithout(held.fields, "scope", "type");
      GetWithout(held.fields, "scope", "elements");
      GetWithout(held.fields, "scope", "options");
      SameOptions(held, Obj(Without(held.fields, "scope")));
    }
  }

  lemma SameOptions(a: Json, b: Json)
    requires a.Obj? && b.Obj? && Get(a.fields, "options") == Get(b.fields, "options") && WithoutUnboundOptions(a) == a
    ensures WithoutUnboundOptions(b) == b
  {
    hide Get;
    var options := Get(a.fields, "options");
    if options.Some? && options.value.Obj? {
      var kept := KeptOptions(options.value.fields);
      GetPut(a.fields, "options", Obj(kept), "options");
    }
  }

  /** The uischema with the category takes it again without change. */
  lemma NextUiTwice(ui: Json, ct: ClassType)
    requires ui.Obj? && Get(ui.fields, "elements").Some? && Get(ui.fields, "elements").value.Arr?
    ensures var once := NextUi(ui, ct);
            once.Obj? && Get(once.fields, "type") == Get(ui.fields, "type")
            && Get(once.fields, "elements") == Some(Arr([Category(ct)] + KeptItems(Get(ui.fields, "elements").value.items)))
            && ScopeOk(once) && (IsRecordAt(once.fields, "options") ==> CleanOptions(Get(once.fields, "options").value.fields))
            && NextUi(once, ct) == once
  {
    hide Get, Put, ScopeOk, WithoutUnboundOptions, UnscopedRoot, Category, WithoutUnboundElements;
    RootKept(ui);
    var root := UnscopedRoot(ui);
    var kept := KeptItems(Get(ui.fields, "elements").value.items);
    var items := [Category(ct)] + kept;
    var once := NextUi(ui, ct);
    Looks(root, "elements", Arr(items));
    assert WithoutUnboundOptions(once) == once by { SameOptions(root, once); }
    assert UnscopedRoot(once) == once by { Rooted(once); }
    CategoryGoes(ct);
    ItemsLeftClean(Get(ui.fields, "elements").value.items);
    CleanItemsStay(kept);
    assert items[1..] == kept;
    assert KeptItems(items) == kept;
    PutSame(once.fields, "elements", Arr(items));
  }

  lemma Rooted(ui: Json)
    requires ui.Obj? && ScopeOk(ui) && WithoutUnboundOptions(ui) == ui
    ensures UnscopedRoot(ui) == ui
  {
    hide ScopeOk, WithoutUnboundOptions;
  }

  /** A uischema that does not take the category keeps not taking it. */
  lemma PartialTwice(ui: Json)
    requires ui.Obj?
    ensures var walked := WithoutUnboundElements(ui); var kept := if walked == Null then EMPTY_LAYOUT else walked;
            kept.Obj? && Clean(kept) && WithoutUnboundElements(kept) == kept
            && (Get(kept.fields, "type") == Some(Str("Categorization")) ==> Get(ui.fields, "type") == Some(Str("Categorization")))
            && (Get(kept.fields, "elements").Some? && Get(kept.fields, "type") == Some(Str("Categorization")) ==>
                  Get(ui.fields, "elements").Some? && Get(ui.fields, "elements").value.Arr?)
  {
    hide Get, Put, ScopeOk;
    var walked := WithoutUnboundElements(ui);
    if walked == Null {
      EmptyLayoutClean();
      CleanStays(EMPTY_LAYOUT);
    } else {
      LeavesClean(ui);
      CleanStays(walked);
      WalkKeepsKeys(ui);
    }
  }

  lemma EmptyLayoutClean()
    ensures Clean(EMPTY_LAYOUT) && EMPTY_LAYOUT.Obj? && Get(EMPTY_LAYOUT.fields, "type") == Some(Str("VerticalLayout"))
  {
    hide Get;
    var fs := EMPTY_LAYOUT.fields;
    GetHead(fs, "type");
    GetHead(fs, "scope");
    GetHead(fs[1..], "scope");
    GetHead(fs, "options");
    GetHead(fs[1..], "options");
    GetHead(fs, "elements");
    GetHead(fs[1..], "elements");
    NoEntries("", Null, "scope");
    NoEntries("", Null, "options");
    assert fs[1..][1..] == [];
  }

  lemma WalkKeepsKeys(ui: Json)
    requires ui.Obj? && WithoutUnboundElements(ui) != Null
    ensures var walked := WithoutUnboundElements(ui);
            walked.Obj? && Get(walked.fields, "type") == Get(ui.fields, "type")
            && (Get(walked.fields, "elements").Some? ==> Get(ui.fields, "elements").Some? && Get(ui.fields, "elements").value.Arr?)
  {
    hide Get, Put, ScopeOk, KeptItems, KeptOptions;
    var children := Get(ui.fields, "elements");
    var options := Get(ui.fields, "options");
    var next := ui;
    if children.Some? {
      var kept := KeptItems(children.value.items);
      Looks(ui, "elements", Arr(kept));
      next := if kept != children.value.items then Obj(Put(ui.fields, "elements", Arr(kept))) else ui;
    }
    if options.Some? && options.value.Obj? { Looks(next, "options", Obj(KeptOptions(options.value.fields))); }
  }

  /** Applying the fields twice gives what applying them once gives, on every JSON template. */
  lemma FieldsTwice(template: Json, ct: ClassType)
    ensures WithOperationFields(WithOperationFields(template, ct), ct) == WithOperationFields(template, ct)
  {
    hide Get, Put, NextSchema, NextUi, WithoutUnboundElements;
    if IsOperated(ct) && template.Obj? && IsRecordAt(template.fields, "uischema") {
      var fs := template.fields;
      var ui := Get(fs, "uischema").value;
      var once := WithOperationFields(template, ct);
      if TakesFields(fs) {
        var schema := Obj(NextSchema(Get(fs, "schema").value.fields, ct));
        var next := NextUi(ui, ct);
        NextSchemaTwice(Get(fs, "schema").value.fields, ct);
        NextUiTwice(ui, ct);
        FullAgain(fs, schema, next);
        assert TakesFields(once.fields);
        PutSame(once.fields, "schema", schema);
        PutSame(once.fields, "uischema", next);
      } else {
        var walked := WithoutUnboundElements(ui);
        var kept := if walked == Null then EMPTY_LAYOUT else walked;
        PartialTwice(ui);
        if kept != ui {
          GetPut(fs, "uischema", kept, "uischema");
          GetPut(fs, "uischema", kept, "schema");
          assert !TakesFields(once.fields);
        }
      }
    }
  }

  lemma FullAgain(fs: seq<Field>, schema: Json, ui: Json)
    ensures var once := Put(Put(fs, "schema", schema), "uischema", ui);
            Get(once, "schema") == Some(schema) && Get(once, "uischema") == Some(ui)
  {
    hide Get, Put;
    GetPut(fs, "schema", schema, "schema");
    GetPut(Put(fs, "schema", schema), "uischema", ui, "schema");
    GetPut(Put(fs, "schema", schema), "uischema", ui, "uischema");
  }

  // ----- nothing unbound is left -----

  /** The path goes into the category the platform puts first. */
  predicate InCategory(template: Json, path: seq<Step>) {
    template.Obj? && TakesFields(template.fields) && path != [] && path[0] == Child(0)
  }

  /**
   * In the result, no element reached from the root through `elements` or records held by `options`
   * carries a scope that may not bind, outside the platform's own category, which stands first.
   */
  lemma NothingUnboundLeft(template: Json, ct: ClassType, path: seq<Step>)
    requires IsOperated(ct) && template.Obj? && IsRecordAt(template.fields, "uischema")
    ensures var once := WithOperationFields(template, ct);
            once.Obj? && IsRecordAt(once.fields, "uischema")
            && (var ui := Get(once.fields, "uischema").value;
                (TakesFields(template.fields) ==> Reach(ui, [Child(0)]) == Some(Category(ct)))
                && (Reach(ui, path).Some? && !InCategory(template, path) ==> ScopeOk(Reach(ui, path).value)))
  {
    hide Get, Put, NextSchema, NextUi, WithoutUnboundElements, ScopeOk, Category;
    var fs := template.fields;
    var ui := Get(fs, "uischema").value;
    if TakesFields(fs) {
      var next := NextUi(ui, ct);
      FullAgain(fs, Obj(NextSchema(Get(fs, "schema").value.fields, ct)), next);
      NextUiTwice(ui, ct);
      RootReach(next, ui, ct, path);
    } else {
      var walked := WithoutUnboundElements(ui);
      var kept := if walked == Null then EMPTY_LAYOUT else walked;
      PartialTwice(ui);
      if kept != ui { GetPut(fs, "uischema", kept, "uischema"); }
      if Reach(kept, path).Some? { CleanReach(kept, path); }
    }
  }

  lemma RootReach(next: Json, ui: Json, ct: ClassType, path: seq<Step>)
    requires ui.Obj? && Get(ui.fields, "elements").Some? && Get(ui.fields, "elements").value.Arr?
    requires next.Obj? && ScopeOk(next)
    requires Get(next.fields, "elements") == Some(Arr([Category(ct)] + KeptItems(Get(ui.fields, "elements").value.items)))
    requires IsRecordAt(next.fields, "options") ==> CleanOptions(Get(next.fields, "options").value.fields)
    ensures Reach(next, [Child(0)]) == Some(Category(ct))
    ensures Reach(next, path).Some? && !(path != [] && path[0] == Child(0)) ==> ScopeOk(Reach(next, path).value)
  {
    hide Get, ScopeOk, Category, KeptItems;
    var kept := KeptItems(Get(ui.fields, "elements").value.items);
    var items := [Category(ct)] + kept;
    ItemsLeftClean(Get(ui.fields, "elements").value.items);
    assert [Child(0)][1..] == [] && Reach(Category(ct), []) == Some(Category(ct));
    assert Into(next, Child(0)) == Some(Category(ct));
    if path != [] && path[0] != Child(0) && Reach(next, path).Some? {
      var inner := Into(next, path[0]).value;
      match path[0]
      case Child(i) =>
        assert items[i] == kept[i - 1];
        CleanItem(kept, i - 1);
        CleanReach(inner, path[1..]);
      case Nested(k) =>
        CleanOption(Get(next.fields, "options").value.fields, k);
        CleanReach(inner, path[1..]);
    }
  }

  /** A template the platform adds nothing to is returned as it is exactly when its uischema is clean. */
  lemma UntouchedIffClean(template: Json, ct: ClassType)
    requires IsOperated(ct) && template.Obj? && IsRecordAt(template.fields, "uischema") && !TakesFields(template.fields)
    ensures WithOperationFields(template, ct) == template <==> Clean(Get(template.fields, "uischema").value)
  {
    hide Get, Put, WithoutUnboundElements, Clean;
    var ui := Get(template.fields, "uischema").value;
    UnchangedIffClean(ui);
    PartialTwice(ui);
    var walked := WithoutUnboundElements(ui);
    var kept := if walked == Null then EMPTY_LAYOUT else walked;
    if kept != ui { GetPut(template.fields, "uischema", kept, "uischema"); }
  }

  /** Under the reserved prefix the schema declares the platform's fields and no others; its own properties stay. */
  lemma SchemaOwnsReserved(template: Json, ct: ClassType, key: string)
    requires IsOperated(ct) && template.Obj? && TakesFields(template.fields)
    ensures var once := WithOperationFields(template, ct);
            once.Obj? && IsRecordAt(once.fields, "schema") && IsRecordAt(Get(once.fields, "schema").value.fields, "properties")
            && Get(Get(Get(once.fields, "schema").value.fields, "properties").value.fields, key)
               == if IsReserved(key) then Get(Properties(ct), key)
                  else Get(Get(Get(template.fields, "schema").value.fields, "properties").value.fields, key)
  {
    hide Get, Put, Properties, NextUi, IsReserved, SomeReserved, NotReserved, NotReservedTexts;
    var schema := Get(template.fields, "schema").value.fields;
    var next := NextSchema(schema, ct);
    FullAgain(template.fields, Obj(next), NextUi(Get(template.fields, "uischema").value, ct));
    var own := Get(schema, "properties").value.fields;
    var props := Obj(NotReserved(own) + Properties(ct));
    GetPut(schema, "properties", props, "properties");
    var required := Get(schema, "required");
    if required.Some? && required.value.Arr? {
      GetPut(Put(schema, "properties", props), "required", Arr(NotReservedTexts(required.value.items)), "properties");
    }
    PropertiesReserved(ct);
    GetJoined(own, Properties(ct), key);
  }

  lemma {:induction false} GetJoined(own: seq<Field>, added: seq<Field>, key: string)
    requires forall k :: 0 <= k < |added| ==> IsReserved(added[k].key)
    ensures Get(NotReserved(own) + added, key) == if IsReserved(key) then Get(added, key) else Get(own, key)
    decreases |own|
  {
    hide IsReserved, Get;
    if own == [] {
      assert NotReserved(own) + added == added;
      NoEntries("", Null, key);
      if !IsReserved(key) { NoneReserved(added, key); }
    } else {
      GetJoined(own[1..], added, key);
      GetHead(own, key);
      var rest := NotReserved(own[1..]);
      if IsReserved(own[0].key) {
        assert NotReserved(own) == rest;
      } else {
        var all := NotReserved(own) + added;
        assert all[0] == own[0] && all[1..] == rest + added;
        GetHead(all, key);
      }
    }
  }

  lemma NoneReserved(added: seq<Field>, key: string)
    requires !IsReserved(key) && forall k :: 0 <= k < |added| ==> IsReserved(added[k].key)
    ensures Get(added, key) == None
  {
    hide IsReserved;
  }

  // ----- the guide -----

  predicate ReservedEntry(e: Json) { e.Obj? && Get(e.fields, "option_name").Some? && ReservedText(Get(e.fields, "option_name").value) }

  function OwnEntries(items: seq<Json>): seq<Json> {
    if items == [] then [] else (if ReservedEntry(items[0]) then [] else [items[0]]) + OwnEntries(items[1..])
  }

  function GuideEntry(key: string, valueType: string, typical: seq<Json>): Json {
    Obj([Field("option_name", Str(key)), Field("typical_values", Arr(typical)), Field("value_type", Str(valueType))])
  }

  function GuideEntries(ct: ClassType): seq<Json> {
    [GuideEntry(OPERATION_OPERATOR_KEY, "enum", [Str("CUSTOMER"), Str("VENDOR")]), GuideEntry(OPERATION_PRODUCT_KEY, "string", [])]
    + if ct == Component then [GuideEntry(OPERATION_VERSION_KEY, "string", [])] else []
  }

  function WithOperationGuide(guide: Json, ct: ClassType): Json {
    if !IsOperated(ct) || !guide.Arr? then guide else Arr(OwnEntries(guide.items) + GuideEntries(ct))
  }

  lemma GuideEntriesReserved(ct: ClassType)
    ensures forall k :: 0 <= k < |GuideEntries(ct)| ==> ReservedEntry(GuideEntries(ct)[k])
  {
    hide Get, IsReserved;
    OperationKeysReserved(OPERATION_OPERATOR_KEY);
    OperationKeysReserved(OPERATION_PRODUCT_KEY);
    OperationKeysReserved(OPERATION_VERSION_KEY);
    forall k | 0 <= k < |GuideEntries(ct)| ensures ReservedEntry(GuideEntries(ct)[k]) {
      GetHead(GuideEntries(ct)[k].fields, "option_name");
    }
  }

  lemma {:induction false} OwnEntriesTwice(items: seq<Json>, added: seq<Json>)
    requires forall k :: 0 <= k < |added| ==> ReservedEntry(added[k])
    ensures OwnEntries(OwnEntries(items) + added) == OwnEntries(items)
    decreases |items|
  {
    hide ReservedEntry, Get, IsReserved, ReservedText, HasKey;
    if items == [] {
      assert OwnEntries(items) + added == added;
      EntriesGone(added);
    } else {
      OwnEntriesTwice(items[1..], added);
      var rest := OwnEntries(items[1..]);
      if ReservedEntry(items[0]) {
        assert OwnEntries(items) == rest;
      } else {
        var all := OwnEntries(items) + added;
        assert OwnEntries(items) == [items[0]] + rest;
        assert all[0] == items[0] && all[1..] == rest + added;
        assert OwnEntries(all) == [items[0]] + OwnEntries(rest + added);
      }
    }
  }

  lemma {:induction false} EntriesGone(added: seq<Json>)
    requires forall k :: 0 <= k < |added| ==> ReservedEntry(added[k])
    ensures OwnEntries(added) == []
    decreases |added|
  {
    hide ReservedEntry;
    if added != [] { EntriesGone(added[1..]); }
  }

  /** The guide too is the same applied twice as once. */
  lemma GuideTwice(guide: Json, ct: ClassType)
    ensures WithOperationGuide(WithOperationGuide(guide, ct), ct) == WithOperationGuide(guide, ct)
  {
    hide GuideEntries, ReservedEntry;
    if guide.Arr? {
      GuideEntriesReserved(ct);
      OwnEntriesTwice(guide.items, GuideEntries(ct));
    }
  }
}
