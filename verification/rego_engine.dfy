/**
 * The Rego engine registry (packages/dt-module/src/rego-engine.ts): one WASM engine for each
 * registered policy, freed by hand, and the blanking of comments and strings it checks sources with.
 */
module RegoEngines {
  import opened Prelude

  // ----- stripNonCode -----

  /** Where a character stands. */
  datatype Mode = Code | Comment | Raw | Quoted | Escaped

  function Next(m: Mode, c: char): Mode {
    match m
    case Code => if c == '#' then Comment else if c == '`' then Raw else if c == '"' then Quoted else Code
    case Comment => if c == '\n' then Code else Comment
    case Raw => if c == '`' then Code else Raw
    case Quoted => if c == '"' then Code else if c == '\\' then Escaped else Quoted
    case Escaped => Quoted
  }

  /** A character of a comment or a string, its delimiters included. */
  predicate NonCode(m: Mode, c: char) { m != Code || c == '#' || c == '`' || c == '"' }

  function Blanked(c: char): char { if c == '\n' then '\n' else ' ' }

  /** The source with comments and strings blanked, read one character at a time. */
  function Strip(s: string, m: Mode): string {
    if s == "" then "" else [if NonCode(m, s[0]) then Blanked(s[0]) else s[0]] + Strip(s[1..], Next(m, s[0]))
  }

  function BlankAll(s: string): string { seq(|s|, k requires 0 <= k < |s| => Blanked(s[k])) }

  /** While the mode does not fall back to code, everything is blanked. */
  predicate StaysOut(s: string, m: Mode, after: Mode)
    decreases |s|
  {
    if s == "" then m == after else m != Code && StaysOut(s[1..], Next(m, s[0]), after)
  }

  lemma {:induction false} StripOut(s: string, rest: string, m: Mode, after: Mode)
    requires StaysOut(s, m, after)
    ensures Strip(s + rest, m) == BlankAll(s) + Strip(rest, after)
    decreases |s|
  {
    if s == "" {
      assert s + rest == rest && BlankAll(s) == "";
    } else {
      assert (s + rest)[0] == s[0] && (s + rest)[1..] == s[1..] + rest;
      StripOut(s[1..], rest, Next(m, s[0]), after);
      assert BlankAll(s) == [Blanked(s[0])] + BlankAll(s[1..]);
    }
  }

  /** From code through an opening delimiter. */
  lemma StripBlock(s: string, i: nat, stop: nat, open: Mode, after: Mode)
    requires i < stop <= |s| && open != Code && Next(Code, s[i]) == open && StaysOut(s[i + 1..stop], open, after)
    ensures Strip(s[i..], Code) == BlankAll(s[i..stop]) + Strip(s[stop..], after)
  {
    assert s[i..][1..] == s[i + 1..] && s[i + 1..] == s[i + 1..stop] + s[stop..];
    StripOut(s[i + 1..stop], s[stop..], open, after);
    assert BlankAll(s[i..stop]) == [Blanked(s[i])] + BlankAll(s[i + 1..stop]);
  }

  /** The index of a character from `from` on, or the length. */
  method IndexOf(s: string, c: char, from: nat) returns (i: nat)
    requires from <= |s|
    ensures from <= i <= |s| && (i < |s| ==> s[i] == c) && forall k :: from <= k < i ==> s[k] != c
  {
    i := from;
    while i < |s| && s[i] != c
      invariant from <= i <= |s| && forall k :: from <= k < i ==> s[k] != c
    {
      i := i + 1;
    }
  }

  lemma {:induction false} CommentStays(s: string)
    requires forall k :: 0 <= k < |s| ==> s[k] != '\n'
    ensures StaysOut(s, Comment, Comment)
    decreases |s|
  {
    if s != "" { CommentStays(s[1..]); }
  }

  lemma {:induction false} RawStays(s: string)
    requires forall k :: 0 <= k < |s| ==> s[k] != '`'
    ensures StaysOut(s, Raw, Raw) && StaysOut(s + "`", Raw, Code)
    decreases |s|
  {
    if s == "" {
      assert (s + "`")[1..] == "";
    } else {
      assert (s + "`")[1..] == s[1..] + "`";
      RawStays(s[1..]);
    }
  }

  lemma {:induction false} StaysSnoc(s: string, c: char, m: Mode, before: Mode)
    requires StaysOut(s, m, before) && before != Code
    ensures StaysOut(s + [c], m, Next(before, c))
    decreases |s|
  {
    if s == "" {
      assert (s + [c])[1..] == "";
    } else {
      assert (s + [c])[1..] == s[1..] + [c];
      StaysSnoc(s[1..], c, Next(m, s[0]), before);
    }
  }

  method Blank(out: array<char>, from: nat, to: nat)
    requires from <= to <= out.Length
    modifies out
    ensures out[..] == old(out[..from]) + BlankAll(old(out[from..to])) + old(out[to..])
  {
    var j := from;
    while j < to
      invariant from <= j <= to
      invariant forall k :: 0 <= k < out.Length ==> out[k] == if from <= k < j then Blanked(old(out[k])) else old(out[k])
    {
      if out[j] != '\n' { out[j] := ' '; }
      j := j + 1;
    }
  }

  /** The end of a quoted string that opens at i: past its closing quote, or the end of the source. */
  method QuotedEnd(s: string, i: nat) returns (stop: nat, ghost after: Mode)
    requires i < |s| && s[i] == '"'
    ensures i < stop <= |s| && StaysOut(s[i + 1..stop], Quoted, after)
    ensures after == Code || stop == |s|
  {
    var j := i + 1;
    assert s[i + 1..j] == "";
    while j < |s| && s[j] != '"'
      invariant i + 1 <= j <= |s| + 1
      invariant j <= |s| ==> StaysOut(s[i + 1..j], Quoted, Quoted)
      invariant j == |s| + 1 ==> StaysOut(s[i + 1..], Quoted, Escaped)
    {
      StaysSnoc(s[i + 1..j], s[j], Quoted, Quoted);
      assert s[i + 1..j] + [s[j]] == s[i + 1..j + 1];
      if s[j] == '\\' {
        j := j + 1;
        if j < |s| {
          StaysSnoc(s[i + 1..j], s[j], Quoted, Escaped);
          assert s[i + 1..j] + [s[j]] == s[i + 1..j + 1];
        } else {
          assert s[i + 1..j] == s[i + 1..];
        }
      }
      j := j + 1;
    }
    stop := if j + 1 < |s| then j + 1 else |s|;
    if j < |s| {
      StaysSnoc(s[i + 1..j], s[j], Quoted, Quoted);
      assert s[i + 1..j] + [s[j]] == s[i + 1..stop];
      after := Code;
    } else {
      assert s[i + 1..stop] == s[i + 1..];
      after := if j == |s| then Quoted else Escaped;
    }
  }

  method RawEnd(s: string, i: nat) returns (stop: nat, ghost after: Mode)
    requires i < |s| && s[i] == '`'
    ensures i < stop <= |s| && StaysOut(s[i + 1..stop], Raw, after)
    ensures after == Code || stop == |s|
  {
    var end := IndexOf(s, '`', i + 1);
    RawStays(s[i + 1..end]);
    if end == |s| { return |s|, Raw; }
    assert s[i + 1..end] + "`" == s[i + 1..end + 1];
    return end + 1, Code;
  }

  /** stripNonCode: an array of the characters, blanked in place block by block. */
  method StripNonCode(source: string) returns (r: string)
    ensures r == Strip(source, Code)
  {
    hide Strip, StaysOut, BlankAll;
    var out := new char[|source|](k requires 0 <= k < |source| => source[k]);
    assert out[..] == source;
    var i := 0;
    ghost var done := "";
    while i < |source|
      invariant 0 <= i <= |source| && out[i..] == source[i..] && out[..i] == done
      invariant done + Strip(source[i..], Code) == Strip(source, Code)
      decreases |source| - i
    {
      var ch := source[i];
      if ch == '#' || ch == '`' || ch == '"' {
        var stop: nat;
        ghost var open, after;
        if ch == '#' {
          stop := IndexOf(source, '\n', i);
          CommentStays(source[i + 1..stop]);
          open, after := Comment, Comment;
        } else if ch == '`' {
          stop, after := RawEnd(source, i);
          open := Raw;
        } else {
          stop, after := QuotedEnd(source, i);
          open := Quoted;
        }
        StripBlock(source, i, stop, open, after);
        ghost var block := out[i..stop];
        assert block == source[i..stop] by { assert out[i..stop] == out[i..][..stop - i] && source[i..stop] == source[i..][..stop - i]; }
        ghost var later := out[stop..];
        assert later == source[stop..] by { assert out[i..][stop - i..] == source[i..][stop - i..]; }
        Blank(out, i, stop);
        BlankLength(block);
        assert out[..] == done + BlankAll(block) + later;
        assert out[..stop] == done + BlankAll(block) && out[stop..] == later;
        StripFrom(source, stop, after);
        Assoc(done, BlankAll(block), Strip(source[stop..], after));
        done := done + BlankAll(block);
        i := stop;
      } else {
        StripPlain(source, i);
        assert out[i..][0] == source[i..][0] && out[i..][1..] == source[i..][1..];
        Assoc(done, [ch], Strip(source[i + 1..], Code));
        assert out[..i + 1] == done + [ch];
        done := done + [ch];
        i := i + 1;
      }
    }
    StripEmpty(source, i);
    assert out[..] == done;
    return out[..];
  }

  lemma BlankLength(s: string)
    ensures |BlankAll(s)| == |s|
  {
  }

  lemma Assoc(a: string, b: string, c: string)
    ensures (a + b) + c == a + (b + c)
  {
  }

  lemma StripPlain(s: string, i: nat)
    requires i < |s| && s[i] != '#' && s[i] != '`' && s[i] != '"'
    ensures Strip(s[i..], Code) == [s[i]] + Strip(s[i + 1..], Code)
  {
    assert s[i..][1..] == s[i + 1..];
  }

  /** After a block the scan is back in code, at a line break, or at the end. */
  lemma StripFrom(s: string, stop: nat, after: Mode)
    requires stop <= |s|
    requires after == Code || stop == |s| || (after == Comment && s[stop] == '\n')
    ensures Strip(s[stop..], after) == Strip(s[stop..], Code)
  {
  }

  lemma StripEmpty(s: string, i: nat)
    requires i == |s|
    ensures Strip(s[i..], Code) == ""
  {
  }

  /** Offsets and line breaks stay; each character is the source's own or a blank. */
  lemma {:induction false} StripKeepsPlaces(s: string, m: Mode)
    ensures |Strip(s, m)| == |s|
    ensures forall k :: 0 <= k < |s| ==> (Strip(s, m)[k] == '\n' <==> s[k] == '\n') && (Strip(s, m)[k] == s[k] || Strip(s, m)[k] == ' ')
    decreases |s|
  {
    if s != "" {
      StripKeepsPlaces(s[1..], Next(m, s[0]));
      var rest := Strip(s[1..], Next(m, s[0]));
      forall k | 0 <= k < |s|
        ensures (Strip(s, m)[k] == '\n' <==> s[k] == '\n') && (Strip(s, m)[k] == s[k] || Strip(s, m)[k] == ' ')
      {
        if k > 0 { assert Strip(s, m)[k] == rest[k - 1] && s[k] == s[1..][k - 1]; }
      }
    }
  }

  predicate Opens(c: char) { c == '#' || c == '`' || c == '"' }

  lemma {:induction false} NoDelimitersLeft(s: string, m: Mode)
    ensures forall k :: 0 <= k < |Strip(s, m)| ==> !Opens(Strip(s, m)[k])
    decreases |s|
  {
    if s != "" {
      var rest := Strip(s[1..], Next(m, s[0]));
      NoDelimitersLeft(s[1..], Next(m, s[0]));
      forall k | 0 <= k < |Strip(s, m)| ensures !Opens(Strip(s, m)[k]) {
        if k > 0 { assert Strip(s, m)[k] == rest[k - 1]; }
      }
    }
  }

  lemma {:induction false} PlainStays(s: string)
    requires forall k :: 0 <= k < |s| ==> !Opens(s[k])
    ensures Strip(s, Code) == s
    decreases |s|
  {
    if s != "" { PlainStays(s[1..]); }
  }

  /** Stripping twice is stripping once, because no delimiter survives. */
  lemma StripTwice(s: string)
    ensures Strip(Strip(s, Code), Code) == Strip(s, Code)
  {
    NoDelimitersLeft(s, Code);
    PlainStays(Strip(s, Code));
  }

  // ----- the registry, as a value -----

  /** What the binding and the source checks answer; each is a function of the text it is given. */
  datatype Binding = Binding(
    hash: string -> string,
    packageOf: string -> Option<string>,
    isolated: (string, string) -> bool,
    addPolicy: string -> Result<string, string>,
    evalQuery: (string, string, string) -> Evaluation)

  datatype Evaluation = Halted(message: string) | Undefined | NotAnArray(found: string) | Array(items: seq<string>)

  datatype Policy = Policy(packagePath: string, source: string)

  datatype Registry = Registry(policies: map<string, Policy>, owners: map<string, string>, disposed: bool)

  datatype RegisterError = Disposed | EmptyKey | NoPackage | NotIsolated | ParseFailed(message: string) | Claimed(owner: string)

  function Compiled(b: Binding, source: string): Result<string, RegisterError> {
    var name := b.packageOf(source);
    if name.None? || name.value == "" then Err(NoPackage)
    else if !b.isolated(source, name.value) then Err(NotIsolated)
    else match b.addPolicy(source) case Err(message) => Err(ParseFailed(message)) case Ok(path) => Ok(path)
  }

  function RegisterStep(r: Registry, b: Binding, key: string, source: string): (Registry, Result<string, RegisterError>) {
    if r.disposed then (r, Err(Disposed))
    else if key == "" then (r, Err(EmptyKey))
    else if key in r.policies && b.hash(r.policies[key].source) == b.hash(source) then (r, Ok(r.policies[key].packagePath))
    else
      match Compiled(b, source)
      case Err(e) => (r, Err(e))
      case Ok(path) =>
        if path in r.owners && r.owners[path] != key then (r, Err(Claimed(r.owners[path])))
        else
          var owners := if key in r.policies then r.owners - {r.policies[key].packagePath} else r.owners;
          (Registry(r.policies[key := Policy(path, source)], owners[path := key], false), Ok(path))
  }

  function PruneStep(r: Registry, keep: set<string>): Registry {
    if r.disposed then r
    else
      var gone := r.policies.Keys - keep;
      r.(policies := r.policies - gone, owners := r.owners - (set k | k in gone :: r.policies[k].packagePath))
  }

  function DisposeStep(r: Registry): Registry { Registry(map[], map[], true) }

  /** The owner map is the exact inverse of the registrations. */
  predicate Inverse(r: Registry) {
    (forall k :: k in r.policies ==> r.policies[k].packagePath in r.owners && r.owners[r.policies[k].packagePath] == k)
    && (forall p :: p in r.owners ==> r.owners[p] in r.policies && r.policies[r.owners[p]].packagePath == p)
  }

  predicate Sound(r: Registry) { Inverse(r) && (r.disposed ==> r.policies == map[] && r.owners == map[]) }

  datatype Operation = DoRegister(key: string, source: string) | DoPrune(keep: set<string>) | DoDispose

  function Apply(r: Registry, b: Binding, op: Operation): Registry {
    match op
    case DoRegister(key, source) => RegisterStep(r, b, key, source).0
    case DoPrune(keep) => PruneStep(r, keep)
    case DoDispose => DisposeStep(r)
  }

  function ApplyAll(r: Registry, b: Binding, ops: seq<Operation>): Registry
    decreases |ops|
  {
    if ops == [] then r else ApplyAll(Apply(r, b, ops[0]), b, ops[1..])
  }

  lemma ApplySound(r: Registry, b: Binding, op: Operation)
    requires Sound(r)
    ensures Sound(Apply(r, b, op))
  {
    hide Compiled;
  }

  /** In every history of registrations, prunings and disposals the owners are the exact inverse. */
  lemma {:induction false} EveryRegistrySound(r: Registry, b: Binding, ops: seq<Operation>)
    requires Sound(r)
    ensures Sound(ApplyAll(r, b, ops))
    decreases |ops|
  {
    hide Sound, Apply;
    if ops != [] {
      ApplySound(r, b, ops[0]);
      EveryRegistrySound(Apply(r, b, ops[0]), b, ops[1..]);
    }
  }

  /** So no two keys ever hold the same package, and each key's package is the one its source compiles to. */
  lemma {:induction false} PackagesDiffer(b: Binding, ops: seq<Operation>, j: string, k: string)
    ensures var r := ApplyAll(Registry(map[], map[], false), b, ops);
            j in r.policies && k in r.policies && j != k ==> r.policies[j].packagePath != r.policies[k].packagePath
  {
    EveryRegistrySound(Registry(map[], map[], false), b, ops);
  }

  /** A registration that throws changes nothing. */
  lemma ThrowChangesNothing(r: Registry, b: Binding, key: string, source: string)
    ensures RegisterStep(r, b, key, source).1.Err? ==> RegisterStep(r, b, key, source).0 == r
    ensures RegisterStep(r, b, key, source).1.Ok? ==>
              var after := RegisterStep(r, b, key, source).0;
              key in after.policies && RegisterStep(r, b, key, source).1.value == after.policies[key].packagePath
              && b.hash(after.policies[key].source) == b.hash(source)
  {
    hide Compiled;
  }

  predicate Throws(r: Registry, b: Binding, op: Operation) { op.DoRegister? && RegisterStep(r, b, op.key, op.source).1.Err? }

  /** The operations of a history that did not throw. */
  function Succeeding(r: Registry, b: Binding, ops: seq<Operation>): seq<Operation>
    decreases |ops|
  {
    if ops == [] then []
    else (if Throws(r, b, ops[0]) then [] else [ops[0]]) + Succeeding(Apply(r, b, ops[0]), b, ops[1..])
  }

  /** In every history the registrations that threw leave no trace: without them the registry is the same. */
  lemma {:induction false} ThrowsLeaveNoTrace(r: Registry, b: Binding, ops: seq<Operation>)
    ensures ApplyAll(r, b, Succeeding(r, b, ops)) == ApplyAll(r, b, ops)
    decreases |ops|
  {
    hide RegisterStep;
    if ops != [] {
      var op, next := ops[0], Apply(r, b, ops[0]);
      var rest := Succeeding(next, b, ops[1..]);
      ThrowsLeaveNoTrace(next, b, ops[1..]);
      if Throws(r, b, op) {
        ThrowChangesNothing(r, b, op.key, op.source);
        assert Succeeding(r, b, ops) == rest;
      } else {
        assert Succeeding(r, b, ops) == [op] + rest && ([op] + rest)[1..] == rest;
      }
    }
  }

  // ----- engines, allocated and freed by hand -----

  class Engine {
    var freed: bool
    var policy: Option<string>

    constructor ()
      ensures !freed && policy == None
    {
      freed, policy := false, None;
    }

    /** Freeing twice is what the registry must never do. */
    method Free()
      requires !freed
      modifies this
      ensures freed && policy == old(policy)
    {
      freed := true;
    }

    method AddPolicy(b: Binding, source: string) returns (r: Result<string, string>)
      requires !freed && policy == None
      modifies this
      ensures !freed && r == b.addPolicy(source) && policy == if r.Ok? then Some(source) else None
    {
      r := b.addPolicy(source);
      if r.Ok? { policy := Some(source); }
    }

    /** Using a freed engine is the other thing. */
    method EvalQuery(b: Binding, query: string, input: string) returns (e: Evaluation)
      requires !freed && policy.Some?
      ensures e == b.evalQuery(policy.value, query, input)
    {
      e := b.evalQuery(policy.value, query, input);
    }
  }

  datatype Registration = Registration(engine: Engine, packagePath: string, sourceHash: string)

  predicate IsRuleStart(c: char) { 'a' <= c <= 'z' || 'A' <= c <= 'Z' || c == '_' }

  predicate RuleName(rule: string) {
    rule != "" && IsRuleStart(rule[0]) && forall k :: 0 <= k < |rule| ==> IsRuleStart(rule[k]) || '0' <= rule[k] <= '9'
  }

  datatype EvalError = EvalDisposed | BadRule | NoPolicy | NotSerialisable | EvaluationFailed(message: string) | NotList(found: string)

  /** What an evaluation answers, from the policy registered under the key and nothing else. */
  function Evaluated(r: Registry, b: Binding, key: string, rule: string, input: Option<string>): Result<seq<string>, EvalError> {
    if r.disposed then Err(EvalDisposed)
    else if !RuleName(rule) then Err(BadRule)
    else if key !in r.policies then Err(NoPolicy)
    else if input.None? then Err(NotSerialisable)
    else
      match b.evalQuery(r.policies[key].source, r.policies[key].packagePath + "." + rule, input.value)
      case Halted(message) => Err(EvaluationFailed(message))
      case Undefined => Ok([])
      case NotAnArray(found) => Err(NotList(found))
      case Array(items) => Ok(items)
  }

  /** An empty answer means the rule is not defined or gives an empty list: no failure reads as nothing found. */
  lemma EmptyIsNoFailure(r: Registry, b: Binding, key: string, rule: string, input: Option<string>)
    ensures Evaluated(r, b, key, rule, input) == Ok([]) <==>
            !r.disposed && RuleName(rule) && key in r.policies && input.Some?
            && b.evalQuery(r.policies[key].source, r.policies[key].packagePath + "." + rule, input.value) in {Undefined, Array([])}
  {
  }

  /** The operation can change what is registered under the key. */
  predicate Touches(op: Operation, key: string) {
    match op
    case DoRegister(k, _) => k == key
    case DoPrune(keep) => key !in keep
    case DoDispose => true
  }

  /** A registry that holds one policy. */
  function Only(key: string, policy: Policy): Registry { Registry(map[key := policy], map[policy.packagePath := key], false) }

  lemma {:induction false} UntouchedStays(r: Registry, b: Binding, key: string, ops: seq<Operation>)
    requires key in r.policies && !r.disposed && forall op :: op in ops ==> !Touches(op, key)
    ensures var t := ApplyAll(r, b, ops); !t.disposed && key in t.policies && t.policies[key] == r.policies[key]
    decreases |ops|
  {
    hide Compiled;
    if ops != [] {
      assert ops[0] in ops;
      UntouchedStays(Apply(r, b, ops[0]), b, key, ops[1..]);
    }
  }

  /**
   * A key evaluates by the policy registered under it, whatever other keys do meanwhile: the answer is
   * that of a registry holding this policy alone, at the package its registration returned.
   */
  lemma EvaluatesRegistered(r: Registry, b: Binding, key: string, source: string, ops: seq<Operation>,
          rule: string, input: Option<string>)
    returns (held: string)
    requires !r.disposed && RegisterStep(r, b, key, source).1.Ok? && forall op :: op in ops ==> !Touches(op, key)
    ensures b.hash(held) == b.hash(source)
    ensures var registered := RegisterStep(r, b, key, source);
            Evaluated(ApplyAll(registered.0, b, ops), b, key, rule, input)
            == Evaluated(Only(key, Policy(registered.1.value, held)), b, key, rule, input)
  {
    hide Compiled;
    var after := RegisterStep(r, b, key, source).0;
    ThrowChangesNothing(r, b, key, source);
    held := after.policies[key].source;
    UntouchedStays(after, b, key, ops);
    hide RegisterStep;
  }

  type Registrations = map<string, Registration>

  ghost function EngineSet(regs: Registrations): set<Engine> { set k | k in regs :: regs[k].engine }

  predicate EnginesDiffer(regs: Registrations) {
    forall j, k :: j in regs && k in regs && j != k ==> regs[j].engine != regs[k].engine
  }

  ghost function RegistryOf(regs: Registrations, sources: map<string, string>, owners: map<string, string>, disposed: bool): Registry
    requires sources.Keys == regs.Keys
  {
    Registry(map k | k in regs :: Policy(regs[k].packagePath, sources[k]), owners, disposed)
  }

  /** The engines alive are exactly the registered ones. */
  ghost predicate Alive(regs: Registrations, engines: set<Engine>)
    reads engines
  {
    EnginesDiffer(regs) && EngineSet(regs) <= engines && forall e :: e in engines ==> (!e.freed <==> e in EngineSet(regs))
  }

  /** A registered engine holds its own key's source and nothing else. */
  ghost predicate Holds(regs: Registrations, sources: map<string, string>, b: Binding, k: string)
    requires sources.Keys == regs.Keys && k in regs
    reads regs[k].engine
  {
    regs[k].engine.policy == Some(sources[k]) && regs[k].sourceHash == b.hash(sources[k])
  }

  lemma RemoveKey(regs: Registrations, key: string)
    requires EnginesDiffer(regs) && key in regs
    ensures EnginesDiffer(regs - {key}) && EngineSet(regs - {key}) == EngineSet(regs) - {regs[key].engine}
  {
    forall e | e in EngineSet(regs) && e != regs[key].engine ensures e in EngineSet(regs - {key}) {
      var k :| k in regs && regs[k].engine == e;
      assert (regs - {key})[k].engine == e;
    }
    forall k | k in regs - {key} ensures regs[k].engine in EngineSet(regs) && regs[k].engine != regs[key].engine {}
  }

  lemma PutKey(regs: Registrations, key: string, reg: Registration)
    requires EnginesDiffer(regs) && key !in regs && reg.engine !in EngineSet(regs)
    ensures EnginesDiffer(regs[key := reg]) && EngineSet(regs[key := reg]) == EngineSet(regs) + {reg.engine}
  {
    forall k | k in regs ensures regs[k].engine != reg.engine { assert regs[k].engine in EngineSet(regs); }
    forall e | e in EngineSet(regs) ensures e in EngineSet(regs[key := reg]) {
      var k :| k in regs && regs[k].engine == e;
      assert regs[key := reg][k].engine == e;
    }
    assert regs[key := reg][key].engine == reg.engine;
  }

  lemma InstalledAlive(regs: Registrations, engines: set<Engine>, key: string, reg: Registration, born: set<Engine>)
    requires Alive(regs, engines) && key !in regs && reg.engine in born && !reg.engine.freed
    requires (forall e :: e in born ==> e.freed || e == reg.engine) && born !! engines
    ensures Alive(regs[key := reg], engines + born)
  {
    assert reg.engine !in EngineSet(regs);
    PutKey(regs, key, reg);
    hide EngineSet, EnginesDiffer;
  }

  /** Each engine registered is among these and holds its own source. */
  ghost predicate AllHold(regs: Registrations, sources: map<string, string>, b: Binding, engines: set<Engine>)
    requires sources.Keys == regs.Keys
    reads engines
  {
    forall k :: k in regs ==> regs[k].engine in engines && Holds(regs, sources, b, k)
  }

  lemma InstalledHolds(regs: Registrations, sources: map<string, string>, b: Binding, engines: set<Engine>,
          key: string, reg: Registration, source: string)
    requires sources.Keys == regs.Keys && AllHold(regs, sources, b, engines)
    requires reg.engine in engines && reg.engine.policy == Some(source) && reg.sourceHash == b.hash(source)
    ensures AllHold(regs[key := reg], sources[key := source], b, engines)
  {
  }

  lemma RegistryRemove(regs: Registrations, sources: map<string, string>, owners: map<string, string>, key: string)
    requires sources.Keys == regs.Keys && key in regs
    ensures (sources - {key}).Keys == (regs - {key}).Keys
    ensures var r := RegistryOf(regs, sources, owners, false);
            RegistryOf(regs - {key}, sources - {key}, owners, false) == r.(policies := r.policies - {key})
  {
  }

  lemma RegistryPut(regs: Registrations, sources: map<string, string>, owners: map<string, string>,
          key: string, reg: Registration, source: string)
    requires sources.Keys == regs.Keys
    ensures sources[key := source].Keys == regs[key := reg].Keys
    ensures var r := RegistryOf(regs, sources, owners, false);
            RegistryOf(regs[key := reg], sources[key := source], owners, false) == r.(policies := r.policies[key := Policy(reg.packagePath, source)])
  {
    var r := RegistryOf(regs, sources, owners, false);
    assert RegistryOf(regs[key := reg], sources[key := source], owners, false).policies == r.policies[key := Policy(reg.packagePath, source)];
  }

  class RegoEngine {
    const b: Binding
    var registrations: Registrations
    var owners: map<string, string>
    var disposed: bool
    /** Every engine ever allocated for this registry. */
    ghost var engines: set<Engine>
    /** The source each registered engine holds. */
    ghost var sources: map<string, string>

    ghost function View(): Registry
      requires sources.Keys == registrations.Keys
      reads this
    {
      RegistryOf(registrations, sources, owners, disposed)
    }

    ghost predicate Valid()
      reads this, engines
    {
      sources.Keys == registrations.Keys && Sound(View()) && Alive(registrations, engines) && AllHold(registrations, sources, b, engines)
    }

    constructor (b: Binding)
      ensures Valid() && View() == Registry(map[], map[], false) && engines == {} && this.b == b
    {
      this.b := b;
      registrations, owners, disposed := map[], map[], false;
      engines, sources := {}, map[];
    }

    /** compile: an engine with the policy, or none left behind. */
    method Compile(source: string) returns (r: Result<(Engine, string), RegisterError>, ghost born: set<Engine>)
      ensures match Compiled(b, source)
              case Err(e) => r == Err(e)
              case Ok(path) => r.Ok? && r.value.1 == path && r.value.0 in born && !r.value.0.freed && r.value.0.policy == Some(source)
      ensures fresh(born) && forall e :: e in born ==> e.freed || (r.Ok? && e == r.value.0)
    {
      born := {};
      var name := b.packageOf(source);
      if name.None? || name.value == "" { return Err(NoPackage), {}; }
      if !b.isolated(source, name.value) { return Err(NotIsolated), {}; }
      var engine := new Engine();
      born := {engine};
      var added := engine.AddPolicy(b, source);
      if added.Err? {
        engine.Free();
        return Err(ParseFailed(added.error)), born;
      }
      return Ok((engine, added.value)), born;
    }

    /** register */
    method Register(key: string, regoSource: string) returns (r: Result<string, RegisterError>)
      requires Valid()
      modifies this, engines
      ensures Valid() && (View(), r) == RegisterStep(old(View()), b, key, regoSource)
      ensures old(engines) <= engines && fresh(engines - old(engines))
      ensures r.Err? ==> registrations == old(registrations) && owners == old(owners) && disposed == old(disposed)
                         && forall e :: e in old(engines) ==> e.freed == old(e.freed)
    {
      hide Compiled, Sound, EngineSet, EnginesDiffer, RegistryOf;
      RegistryFacts(registrations, sources, owners, disposed);
      if disposed { return Err(Disposed); }
      if key == "" { return Err(EmptyKey); }
      var sourceHash := b.hash(regoSource);
      if key in registrations && registrations[key].sourceHash == sourceHash {
        return Ok(registrations[key].packagePath);
      }
      // The new engine exists before the old one is given up.
      var compiled, born := Compile(regoSource);
      if compiled.Err? {
        engines := engines + born;
        return Err(compiled.error);
      }
      var engine, packagePath := compiled.value.0, compiled.value.1;
      if packagePath in owners && owners[packagePath] != key {
        engine.Free();
        engines := engines + born;
        return Err(Claimed(owners[packagePath]));
      }
      Replace(key, regoSource, engine, packagePath, sourceHash, born);
      return Ok(packagePath);
    }

    /** The end of register: the old engine is freed only now. */
    method Replace(key: string, ghost source: string, engine: Engine, packagePath: string, sourceHash: string,
            ghost born: set<Engine>)
      requires Valid() && !disposed && (packagePath in owners ==> owners[packagePath] == key)
      requires engine in born && engine !in engines && !engine.freed && engine.policy == Some(source) && sourceHash == b.hash(source)
      requires (forall e :: e in born ==> e.freed || e == engine) && born !! engines
      modifies this, engines
      ensures Valid() && engines == old(engines) + born
      ensures View() == Replaced(old(View()), key, packagePath, source)
    {
      hide Sound, EngineSet, EnginesDiffer, RegistryOf, Alive, Holds;
      ghost var was := View();
      RegistryKeys(registrations, sources, owners);
      OwnerGone(was, key, packagePath);
      if key in registrations {
        assert registrations[key].engine in engines;
        Release(key);
        PutAgain(was, key, Policy(packagePath, source));
        RegistryKeys(registrations, sources, owners);
      }
      Install(key, source, engine, packagePath, sourceHash, born);
    }

    /** One registration goes: its engine, its entry and its package's owner. */
    method Release(key: string)
      requires Valid() && key in registrations && !disposed
      modifies this, registrations[key].engine
      ensures Valid() && engines == old(engines) && !disposed
      ensures registrations == old(registrations) - {key}
      ensures View() == Registry(old(View()).policies - {key}, old(View()).owners - {old(View()).policies[key].packagePath}, false)
    {
      hide Sound, EngineSet, EnginesDiffer, RegistryOf;
      ghost var was := View();
      var reg := registrations[key];
      RemoveKey(registrations, key);
      InSet(registrations, key);
      RegistryRemove(registrations, sources, owners, key);
      RegistryParts(registrations, sources, owners, key);
      reg.engine.Free();
      owners := owners - {reg.packagePath};
      registrations := registrations - {key};
      sources := sources - {key};
      OwnersOnly(registrations, sources, old(owners), owners);
      ReleasedSound(was, View(), key);
    }

    /** The end of register: the new engine takes the key. */
    method Install(key: string, ghost source: string, engine: Engine, packagePath: string, sourceHash: string,
            ghost born: set<Engine>)
      requires Valid() && !disposed && key !in registrations && packagePath !in owners
      requires engine in born && engine !in engines && !engine.freed && engine.policy == Some(source) && sourceHash == b.hash(source)
      requires (forall e :: e in born ==> e.freed || e == engine) && born !! engines
      modifies this
      ensures Valid() && engines == old(engines) + born
      ensures View() == Registry(old(View()).policies[key := Policy(packagePath, source)], old(View()).owners[packagePath := key], false)
    {
      hide Sound, EngineSet, EnginesDiffer, RegistryOf, Alive, Holds;
      ghost var was := View();
      var reg := Registration(engine, packagePath, sourceHash);
      InstalledAlive(registrations, engines, key, reg, born);
      InstalledHolds(registrations, sources, b, engines + born, key, reg, source);
      RegistryPut(registrations, sources, owners, key, reg, source);
      RegistryKeys(registrations, sources, owners);
      registrations := registrations[key := reg];
      sources := sources[key := source];
      owners := owners[packagePath := key];
      engines := engines + born;
      OwnersOnly(registrations, sources, old(owners), owners);
      InstalledSound(was, View(), key, packagePath, source);
    }

    /** evaluate: the engine looked up is alive, so it can be used; nothing changes. */
    method Evaluate(key: string, rule: string, input: Option<string>) returns (r: Result<seq<string>, EvalError>)
      requires Valid()
      ensures r == Evaluated(View(), b, key, rule, input)
    {
      hide Sound, EnginesDiffer;
      if disposed { return Err(EvalDisposed); }
      if !RuleName(rule) { return Err(BadRule); }
      if key !in registrations { return Err(NoPolicy); }
      if input.None? { return Err(NotSerialisable); }
      var registration := registrations[key];
      InSet(registrations, key);
      assert Holds(registrations, sources, b, key);
      var answer := registration.engine.EvalQuery(b, registration.packagePath + "." + rule, input.value);
      match answer {
        case Halted(message) => return Err(EvaluationFailed(message));
        case Undefined => return Ok([]);
        case NotAnArray(found) => return Err(NotList(found));
        case Array(items) => return Ok(items);
      }
    }

    /** One key of the loop in prune. */
    method PruneKey(key: string, ghost was: Registry, ghost gone: set<string>)
      requires Valid() && !disposed && key in registrations && gone <= was.policies.Keys && key in was.policies && key !in gone
      requires View() == Pruned(was, gone) && !was.disposed
      modifies this, engines
      ensures Valid() && !disposed && engines == old(engines) && registrations == old(registrations) - {key}
      ensures View() == Pruned(was, gone + {key})
    {
      hide Sound, EngineSet, EnginesDiffer, Alive, Holds, RegistryOf, Pruned;
      assert registrations[key].engine in engines;
      PrunedOne(was, gone, key);
      Release(key);
    }

    /** prune */
    method Prune(keepKeys: set<string>) returns (thrown: bool, freed: nat)
      requires Valid()
      modifies this, engines
      ensures Valid() && engines == old(engines) && thrown == old(disposed)
      ensures View() == PruneStep(old(View()), keepKeys)
      ensures freed == if thrown then 0 else |old(registrations).Keys - keepKeys|
    {
      hide RegistryOf, Pruned, Sound, Alive, Holds, Swept;
      SweptStart();
      freed := 0;
      RegistryFacts(registrations, sources, owners, disposed);
      if disposed { return true, 0; }
      ghost var was := View();
      var todo := registrations.Keys;
      ghost var gone: set<string> := {};
      PrunedNone(was);
      while todo != {}
        invariant Valid() && sources.Keys == registrations.Keys
        invariant engines == old(engines) && !disposed && todo <= registrations.Keys && todo <= was.policies.Keys
        invariant Swept(was.policies.Keys, keepKeys, todo, gone) && gone <= was.policies.Keys
        invariant View() == Pruned(was, gone)
        invariant freed == |gone|
        decreases |todo|
      {
        var key :| key in todo;
        SweptStep(was.policies.Keys, keepKeys, todo, gone, key);
        if key !in keepKeys {
          PruneKey(key, was, gone);
          gone := gone + {key};
          freed := freed + 1;
        }
        todo := todo - {key};
      }
      SweptAll(was.policies.Keys, keepKeys, gone);
      PrunedAll(was, keepKeys);
      return false, freed;
    }

    /** The loop in dispose. */
    method ReleaseAll()
      requires Valid() && !disposed
      modifies this, engines
      ensures Valid() && !disposed && engines == old(engines) && registrations == map[]
    {
      hide EnginesDiffer, Holds, Sound, RegistryOf, EngineSet, Alive;
      var todo := registrations.Keys;
      while todo != {}
        invariant Valid() && todo == registrations.Keys && !disposed && engines == old(engines)
        decreases |todo|
      {
        var key :| key in todo;
        assert registrations[key].engine in engines;
        Release(key);
        todo := todo - {key};
      }
    }

    /** dispose: every engine freed, once. */
    method Dispose()
      requires Valid()
      modifies this, engines
      ensures Valid() && View() == DisposeStep(old(View())) && engines == old(engines)
      ensures forall e :: e in engines ==> e.freed
    {
      hide EnginesDiffer, Holds, Sound, RegistryOf, EngineSet;
      RegistryFacts(registrations, sources, owners, disposed);
      if disposed {
        SoundDisposed(View());
        NothingLeft(registrations, sources, owners);
        return;
      }
      ReleaseAll();
      RegistryFacts(registrations, sources, owners, disposed);
      NothingOwned(View());
      NothingRegistered(sources);
      owners := map[];
      disposed := true;
      NothingSound();
    }
  }

  ghost function Replaced(r: Registry, key: string, path: string, source: string): Registry {
    var owners := if key in r.policies then r.owners - {r.policies[key].packagePath} else r.owners;
    Registry(r.policies[key := Policy(path, source)], owners[path := key], false)
  }

  lemma PutAgain(r: Registry, key: string, policy: Policy)
    ensures (r.policies - {key})[key := policy] == r.policies[key := policy]
  {
  }

  lemma InSet(regs: Registrations, key: string)
    requires key in regs
    ensures regs[key].engine in EngineSet(regs)
  {
  }

  lemma RegistryParts(regs: Registrations, sources: map<string, string>, owners: map<string, string>, key: string)
    requires sources.Keys == regs.Keys && key in regs
    ensures var r := RegistryOf(regs, sources, owners, false);
            r.owners == owners && !r.disposed && key in r.policies && r.policies[key] == Policy(regs[key].packagePath, sources[key])
  {
  }

  lemma RegistryFacts(regs: Registrations, sources: map<string, string>, owners: map<string, string>, disposed: bool)
    requires sources.Keys == regs.Keys
    ensures var r := RegistryOf(regs, sources, owners, disposed);
            r.policies.Keys == regs.Keys && r.owners == owners && r.disposed == disposed
            && forall k :: k in regs ==> r.policies[k] == Policy(regs[k].packagePath, sources[k])
  {
  }

  lemma RegistryKeys(regs: Registrations, sources: map<string, string>, owners: map<string, string>)
    requires sources.Keys == regs.Keys
    ensures RegistryOf(regs, sources, owners, false).policies.Keys == regs.Keys && RegistryOf(regs, sources, owners, false).owners == owners
    ensures !RegistryOf(regs, sources, owners, false).disposed
  {
  }

  lemma OwnersOnly(regs: Registrations, sources: map<string, string>, before: map<string, string>, after: map<string, string>)
    requires sources.Keys == regs.Keys
    ensures RegistryOf(regs, sources, after, false) == RegistryOf(regs, sources, before, false).(owners := after)
  {
  }

  lemma SoundDisposed(r: Registry)
    requires Sound(r) && r.disposed
    ensures r == Registry(map[], map[], true)
  {
  }

  lemma NothingRegistered(sources: map<string, string>)
    requires sources.Keys == {}
    ensures EngineSet(map[]) == {} && EnginesDiffer(map[])
    ensures forall owners, disposed :: RegistryOf(map[], sources, owners, disposed) == Registry(map[], owners, disposed)
  {
  }

  lemma NothingOwned(r: Registry)
    requires Sound(r) && r.policies == map[]
    ensures r.owners == map[]
  {
    assert forall p :: p !in r.owners;
  }

  lemma NothingLeft(regs: Registrations, sources: map<string, string>, owners: map<string, string>)
    requires sources.Keys == regs.Keys && RegistryOf(regs, sources, owners, true).policies == map[]
    ensures EngineSet(regs) == {}
  {
    assert RegistryOf(regs, sources, owners, true).policies.Keys == regs.Keys;
  }

  /** The package a key may claim is free once the key's old one is given up. */
  lemma OwnerGone(r: Registry, key: string, path: string)
    requires Sound(r) && (path in r.owners ==> r.owners[path] == key)
    ensures path !in (if key in r.policies then r.owners - {r.policies[key].packagePath} else r.owners)
  {
  }

  lemma NothingSound()
    ensures Sound(Registry(map[], map[], true))
  {
  }

  /** Which keys have gone once only `todo` is left to look at. */
  ghost predicate Swept(all: set<string>, keep: set<string>, todo: set<string>, gone: set<string>) {
    gone == all - keep - todo
  }

  lemma SweptStart()
    ensures forall all: set<string>, keep :: Swept(all, keep, all, {})
  {
    forall all: set<string>, keep: set<string> ensures Swept(all, keep, all, {}) {
      assert all - keep - all == {};
    }
  }

  lemma SweptStep(all: set<string>, keep: set<string>, todo: set<string>, gone: set<string>, key: string)
    requires Swept(all, keep, todo, gone) && key in todo && todo <= all
    ensures gone <= all && key !in gone && |gone + {key}| == |gone| + 1
    ensures Swept(all, keep, todo - {key}, if key in keep then gone else gone + {key})
  {
  }

  lemma SweptAll(all: set<string>, keep: set<string>, gone: set<string>)
    requires Swept(all, keep, {}, gone)
    ensures gone == all - keep
  {
  }

  lemma PrunedAll(r: Registry, keep: set<string>)
    requires !r.disposed
    ensures Pruned(r, r.policies.Keys - keep) == PruneStep(r, keep)
  {
  }

  lemma PrunedNone(r: Registry)
    ensures Pruned(r, {}) == r
  {
    assert r.policies - {} == r.policies;
    assert r.owners - {} == r.owners;
  }

  /** The registry without some of its keys. */
  ghost function Pruned(r: Registry, gone: set<string>): Registry
    requires gone <= r.policies.Keys
  {
    r.(policies := r.policies - gone, owners := r.owners - (set k | k in gone :: r.policies[k].packagePath))
  }

  lemma PrunedOne(r: Registry, gone: set<string>, key: string)
    requires gone <= r.policies.Keys && key in r.policies && key !in gone && !r.disposed
    ensures var p := Pruned(r, gone);
            key in p.policies && Pruned(r, gone + {key}) == Registry(p.policies - {key}, p.owners - {p.policies[key].packagePath}, false)
  {
    assert (set k | k in gone + {key} :: r.policies[k].packagePath) == (set k | k in gone :: r.policies[k].packagePath) + {r.policies[key].packagePath};
  }

  lemma ReleasedSound(r: Registry, after: Registry, key: string)
    requires Sound(r) && key in r.policies && !r.disposed
    requires after == Registry(r.policies - {key}, r.owners - {r.policies[key].packagePath}, false)
    ensures Sound(after)
  {
  }

  lemma InstalledSound(r: Registry, after: Registry, key: string, path: string, source: string)
    requires Sound(r) && !r.disposed && path !in r.owners && key !in r.policies
    requires after == Registry(r.policies[key := Policy(path, source)], r.owners[path := key], false)
    ensures Sound(after)
  {
  }
}
