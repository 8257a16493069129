/**
 * The Rego engine registry (packages/dt-module/src/rego-engine.ts), said of the text of a source and of the
 * policies registered: what stripping blanks, when a registration is refused, and what a key holds.
 */
module RegoLaws {
  import opened Prelude
  import opened RegoEngines

  // ----- what stripping blanks -----

  predicate AllBlank(s: string) { forall k :: 0 <= k < |s| ==> s[k] == ' ' || s[k] == '\n' }

  /** The block is blanked, and what follows is stripped on its own. */
  predicate BlanksBlock(block: string, rest: string) {
    var all := Strip(block + rest, Code);
    |block| <= |all| && AllBlank(all[..|block|]) && all[|block|..] == Strip(rest, Code)
  }

  lemma BlocksOut(open: Mode, block: string, rest: string)
    requires block != "" && Next(Code, block[0]) == open && open != Code && StaysOut(block[1..], open, Code)
    ensures BlanksBlock(block, rest)
  {
    StripOut(block[1..], rest, open, Code);
    assert (block + rest)[0] == block[0] && (block + rest)[1..] == block[1..] + rest;
    assert BlankAll(block) == [Blanked(block[0])] + BlankAll(block[1..]);
    assert Strip(block + rest, Code) == BlankAll(block) + Strip(rest, Code);
  }

  lemma EndsOut(open: Mode, block: string, after: Mode)
    requires block != "" && Next(Code, block[0]) == open && open != Code && StaysOut(block[1..], open, after)
    ensures AllBlank(Strip(block, Code)) && |Strip(block, Code)| == |block|
  {
    StripOut(block[1..], "", open, after);
    assert block[1..] + "" == block[1..];
    assert BlankAll(block) == [Blanked(block[0])] + BlankAll(block[1..]);
    assert Strip(block, Code) == BlankAll(block);
  }

  /** A comment is blanked up to its line break; one that ends the source is blanked whole. */
  lemma StripComment(body: string, rest: string)
    requires '\n' !in body
    ensures BlanksBlock("#" + body + "\n", rest)
    ensures AllBlank(Strip("#" + body, Code)) && |Strip("#" + body, Code)| == 1 + |body|
  {
    var block := "#" + body + "\n";
    CommentStays(body);
    StaysSnoc(body, '\n', Comment, Comment);
    assert block[1..] == body + "\n" && ("#" + body)[1..] == body;
    BlocksOut(Comment, block, rest);
    EndsOut(Comment, "#" + body, Comment);
  }

  /** A raw string is blanked up to its closing backquote; one that does not close is blanked whole. */
  lemma StripRaw(body: string, rest: string)
    requires '`' !in body
    ensures BlanksBlock("`" + body + "`", rest)
    ensures AllBlank(Strip("`" + body, Code)) && |Strip("`" + body, Code)| == 1 + |body|
  {
    var block := "`" + body + "`";
    RawStays(body);
    assert block[1..] == body + "`" && ("`" + body)[1..] == body;
    BlocksOut(Raw, block, rest);
    EndsOut(Raw, "`" + body, Raw);
  }

  /** The inside of a quoted string: characters that are neither a quote nor a backslash, and backslashes with one more character each. */
  predicate QuotedBody(s: string)
    decreases |s|
  {
    s == "" || (s[0] != '"' && s[0] != '\\' && QuotedBody(s[1..])) || (s[0] == '\\' && |s| >= 2 && QuotedBody(s[2..]))
  }

  lemma {:induction false} QuotedStays(s: string)
    requires QuotedBody(s)
    ensures StaysOut(s, Quoted, Quoted)
    decreases |s|
  {
    if s != "" && s[0] != '\\' {
      QuotedStays(s[1..]);
    } else if s != "" {
      assert s[1..][1..] == s[2..];
      QuotedStays(s[2..]);
    }
  }

  /** A quoted string is blanked up to its closing quote, escaped quotes inside it included; one that does not close is blanked whole. */
  lemma StripQuoted(body: string, rest: string)
    requires QuotedBody(body)
    ensures BlanksBlock("\"" + body + "\"", rest)
    ensures AllBlank(Strip("\"" + body, Code)) && |Strip("\"" + body, Code)| == 1 + |body|
  {
    var block := "\"" + body + "\"";
    QuotedStays(body);
    StaysSnoc(body, '"', Quoted, Quoted);
    assert block[1..] == body + "\"" && ("\"" + body)[1..] == body;
    BlocksOut(Quoted, block, rest);
    EndsOut(Quoted, "\"" + body, Quoted);
  }

  /** Code before the first delimiter is kept as it is. */
  lemma {:induction false} StripCode(text: string, rest: string)
    requires forall k :: 0 <= k < |text| ==> text[k] != '#' && text[k] != '`' && text[k] != '"'
    ensures Strip(text + rest, Code) == text + Strip(rest, Code)
    decreases |text|
  {
    if text == "" {
      assert text + rest == rest;
    } else {
      assert (text + rest)[0] == text[0] && (text + rest)[1..] == text[1..] + rest;
      StripCode(text[1..], rest);
    }
  }

  // ----- when a registration is refused -----

  /** The source passes the checks and parses, under this package. */
  predicate Compiles(b: Binding, source: string, path: string) {
    var name := b.packageOf(source);
    name.Some? && name.value != "" && b.isolated(source, name.value) && b.addPolicy(source) == Ok(path)
  }

  /** The key holds this source already. */
  predicate Holding(r: Registry, b: Binding, key: string, source: string) {
    key in r.policies && b.hash(r.policies[key].source) == b.hash(source)
  }

  /** Another key holds a policy of this package. */
  predicate HeldElsewhere(r: Registry, key: string, path: string, owner: string) {
    owner in r.policies && owner != key && r.policies[owner].packagePath == path
  }

  /**
   * A registration is refused for one reason, said of the source and of the policies held: the registry is
   * disposed; the key is empty; the source names no package, is not isolated or does not parse; or another
   * key holds a policy of its package. Otherwise the key holds the source, and no other key is touched.
   */
  lemma RegistrationOutcome(r: Registry, b: Binding, key: string, source: string)
    requires Sound(r)
    ensures var answer := RegisterStep(r, b, key, source).1; var after := RegisterStep(r, b, key, source).0;
            if r.disposed then answer == Err(Disposed)
            else if key == "" then answer == Err(EmptyKey)
            else if Holding(r, b, key, source) then answer == Ok(r.policies[key].packagePath) && after == r
            else if b.packageOf(source) == None || b.packageOf(source) == Some("") then answer == Err(NoPackage)
            else if !b.isolated(source, b.packageOf(source).value) then answer == Err(NotIsolated)
            else match b.addPolicy(source)
                 case Err(message) => answer == Err(ParseFailed(message))
                 case Ok(path) =>
                   Compiles(b, source, path)
                   && if exists owner :: HeldElsewhere(r, key, path, owner)
                      then answer.Err? && answer.error.Claimed? && HeldElsewhere(r, key, path, answer.error.owner)
                      else answer == Ok(path) && after.policies == r.policies[key := Policy(path, source)] && !after.disposed
  {
    hide Sound;
    SoundParts(r);
    if !r.disposed && b.addPolicy(source).Ok? {
      var path := b.addPolicy(source).value;
      if path in r.owners && r.owners[path] != key { assert HeldElsewhere(r, key, path, r.owners[path]); }
    }
  }

  lemma SoundParts(r: Registry)
    requires Sound(r)
    ensures Inverse(r)
  {
  }

  // ----- what a key holds, over a history -----

  /** The operation takes what the key holds away. */
  predicate TakesAway(op: Operation, key: string) {
    match op
    case DoPrune(keep) => key !in keep
    case DoDispose => true
    case _ => false
  }

  /** The source registered last under the key that was not refused, unless it was taken away since. */
  function LastRegistered(b: Binding, ops: seq<Operation>, key: string): Option<string>
    decreases |ops|
  {
    if ops == [] then None
    else
      var n := |ops| - 1;
      var op, r := ops[n], ApplyAll(Registry(map[], map[], false), b, ops[..n]);
      if op.DoRegister? && op.key == key && RegisterStep(r, b, key, op.source).1.Ok? then Some(op.source)
      else if TakesAway(op, key) then None
      else LastRegistered(b, ops[..n], key)
  }

  lemma {:induction false} ApplyLast(r: Registry, b: Binding, ops: seq<Operation>, op: Operation)
    ensures ApplyAll(r, b, ops + [op]) == Apply(ApplyAll(r, b, ops), b, op)
    decreases |ops|
  {
    hide Apply;
    if ops == [] {
      assert [] + [op] == [op] && [op][1..] == [];
    } else {
      assert (ops + [op])[1..] == ops[1..] + [op];
      ApplyLast(Apply(r, b, ops[0]), b, ops[1..], op);
    }
  }

  /** What one operation does to what a key holds. */
  lemma HeldAfter(r: Registry, b: Binding, op: Operation, key: string)
    requires Sound(r)
    ensures var t := Apply(r, b, op);
            if op.DoRegister? && op.key == key && RegisterStep(r, b, key, op.source).1.Ok? then Holding(t, b, key, op.source)
            else if TakesAway(op, key) then key !in t.policies
            else (key in t.policies <==> key in r.policies) && (key in r.policies ==> t.policies[key] == r.policies[key])
  {
    hide Sound, Compiled;
    if op.DoRegister? { ThrowChangesNothing(r, b, op.key, op.source); }
    if r.disposed { DisposedEmpty(r); }
  }

  lemma DisposedEmpty(r: Registry)
    requires Sound(r) && r.disposed
    ensures r.policies == map[]
  {
  }

  /**
   * In every history a key holds the source it was last registered with without being refused, until the key
   * is pruned or the registry disposed of: then it holds none. Other keys' registrations change nothing.
   */
  lemma {:induction false} HoldsLastRegistered(b: Binding, ops: seq<Operation>, key: string)
    ensures var r := ApplyAll(Registry(map[], map[], false), b, ops); var last := LastRegistered(b, ops, key);
            if last.Some? then Holding(r, b, key, last.value) else key !in r.policies
    decreases |ops|
  {
    hide Apply, Sound, RegisterStep, TakesAway;
    if ops != [] {
      var n := |ops| - 1;
      HoldsLastRegistered(b, ops[..n], key);
      EveryRegistrySound(Registry(map[], map[], false), b, ops[..n]) by { StartsSound(); }
      assert ops == ops[..n] + [ops[n]];
      ApplyLast(Registry(map[], map[], false), b, ops[..n], ops[n]);
      HeldAfter(ApplyAll(Registry(map[], map[], false), b, ops[..n]), b, ops[n], key);
    }
  }

  lemma StartsSound()
    ensures Sound(Registry(map[], map[], false))
  {
  }

  /** Once disposed of, a registry stays so, holds nothing, and refuses every registration and every evaluation. */
  lemma {:induction false} DisposedForGood(r: Registry, b: Binding, ops: seq<Operation>, key: string, source: string,
          rule: string, input: Option<string>)
    requires Sound(r)
    ensures var t := ApplyAll(Apply(r, b, DoDispose), b, ops);
            t == Registry(map[], map[], true)
            && RegisterStep(t, b, key, source) == (t, Err(Disposed)) && Evaluated(t, b, key, rule, input) == Err(EvalDisposed)
    decreases |ops|
  {
    if ops != [] {
      var n := |ops| - 1;
      assert ops == ops[..n] + [ops[n]];
      DisposedForGood(r, b, ops[..n], key, source, rule, input);
      ApplyLast(Apply(r, b, DoDispose), b, ops[..n], ops[n]);
    }
  }
}
