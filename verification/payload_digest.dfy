/**
 * The payload digest (pkg/payloaddigest/digest.go): the bytes fed to the hash for an installed tree.
 * A string stands for a byte string here, one character a byte; the hash itself is not part of the model.
 */
module PayloadDigest {
  import opened Prelude
  import opened Decimals
  import opened StringOrder

  // ----- the tree -----

  datatype File = Readable(data: string) | Unreadable

  datatype Entry =
    | Dir(name: string, entries: seq<Entry>)
    | Unlistable(name: string)
    | Regular(name: string, file: File)
    | Irregular(name: string)

  datatype Problem = NotRegular(path: string) | CannotList(path: string) | CannotRead(path: string)

  const STAMP_FILENAME := ".dethernety-module.json"

  const NUL: char := '\0'

  /** What a file system allows as a name: no separator and no NUL. */
  predicate GoodName(name: string) { name != "" && forall k :: 0 <= k < |name| ==> name[k] != '/' && name[k] != NUL }

  /** Names are good and differ within a directory. */
  predicate GoodTree(es: seq<Entry>)
    decreases es
  {
    (forall k :: 0 <= k < |es| ==> GoodName(es[k].name) && (es[k].Dir? ==> GoodTree(es[k].entries)))
    && forall i, j :: 0 <= i < j < |es| ==> es[i].name != es[j].name
  }

  // ----- paths -----

  /** The part of a path before its first separator. */
  function Top(path: string): (t: string)
    ensures t <= path
  {
    if path == "" || path[0] == '/' then "" else [path[0]] + Top(path[1..])
  }

  predicate Nested(path: string) { |Top(path)| < |path| }

  /** The part after it. */
  function Rest(path: string): string
    requires Nested(path)
  {
    path[|Top(path)| + 1..]
  }

  predicate HasName(es: seq<Entry>, name: string) { exists k :: 0 <= k < |es| && es[k].name == name }

  /** The regular file a path leads to. */
  function FileAt(es: seq<Entry>, path: string): Option<File>
    decreases es
  {
    if es == [] then None
    else if es[0].name == Top(path) then
      match es[0]
      case Dir(_, entries) => if Nested(path) then FileAt(entries, Rest(path)) else None
      case Regular(_, file) => if Nested(path) then None else Some(file)
      case _ => None
    else FileAt(es[1..], path)
  }

  // ----- the walk -----

  /** The relative paths of the regular files, in listing order, or the first entry that stops the walk. */
  function Walk(prefix: string, es: seq<Entry>): Result<seq<string>, Problem>
    decreases es
  {
    if es == [] then Ok([])
    else
      match WalkEntry(prefix, es[0])
      case Err(problem) => Err(problem)
      case Ok(first) =>
        match Walk(prefix, es[1..])
        case Err(problem) => Err(problem)
        case Ok(rest) => Ok(first + rest)
  }

  function WalkEntry(prefix: string, e: Entry): Result<seq<string>, Problem>
    decreases e
  {
    match e
    case Dir(name, entries) => Walk(prefix + name + "/", entries)
    case Unlistable(name) => Err(CannotList(prefix + name))
    case Regular(name, _) => Ok([prefix + name])
    case Irregular(name) => Err(NotRegular(prefix + name))
  }

  /** walkFiles: appends to the list it is given. */
  method WalkFiles(prefix: string, es: seq<Entry>, sofar: seq<string>) returns (r: Result<seq<string>, Problem>)
    ensures r == match Walk(prefix, es) case Err(problem) => Err(problem) case Ok(paths) => Ok(sofar + paths)
    decreases es
  {
    var all := sofar;
    var i := 0;
    while i < |es|
      invariant 0 <= i <= |es|
      invariant match Walk(prefix, es)
                case Err(problem) => Walk(prefix, es[i..]) == Err(problem)
                case Ok(paths) => Walk(prefix, es[i..]).Ok? && all + Walk(prefix, es[i..]).value == sofar + paths
    {
      var e := es[i];
      assert es[i..][0] == e && es[i..][1..] == es[i + 1..];
      match e {
        case Dir(name, entries) =>
          var below := WalkFiles(prefix + name + "/", entries, all);
          if below.Err? { return below; }
          all := below.value;
        case Unlistable(name) => return Err(CannotList(prefix + name));
        case Regular(name, _) => all := all + [prefix + name];
        case Irregular(name) => return Err(NotRegular(prefix + name));
      }
      i := i + 1;
    }
    assert es[i..] == [];
    assert Walk(prefix, es[i..]) == Ok([]);
    assert Walk(prefix, es).Ok? && all + [] == all;
    return Ok(all);
  }

  // ----- the records -----

  function DropStamp(paths: seq<string>): seq<string> {
    if paths == [] then [] else DropStamp(paths[..|paths| - 1]) + if paths[|paths| - 1] == STAMP_FILENAME then [] else [paths[|paths| - 1]]
  }

  function Record(path: string, data: string): string { path + [NUL] + Decimal(|data|) + [NUL] + data }

  /** The records of the paths in turn; a file that cannot be read stops it. */
  function Records(root: seq<Entry>, paths: seq<string>): Result<string, Problem> {
    if paths == [] then Ok("")
    else
      var file := FileAt(root, paths[0]);
      if file.None? || file.value.Unreadable? then Err(CannotRead(paths[0]))
      else
        match Records(root, paths[1..])
        case Err(problem) => Err(problem)
        case Ok(rest) => Ok(Record(paths[0], file.value.data) + rest)
  }

  /** What the hash is fed. */
  function Stream(root: seq<Entry>): Result<string, Problem> {
    match Walk("", root)
    case Err(problem) => Err(problem)
    case Ok(paths) => Records(root, Sort(DropStamp(paths)))
  }

  /** The running hash, known by what has been written to it. */
  class RunningHash {
    var written: string

    constructor ()
      ensures written == ""
    {
      written := "";
    }

    method Write(bytes: string)
      modifies this
      ensures written == old(written) + bytes
    {
      written := written + bytes;
    }
  }

  /** The in-place filter over the list of files: the kept ones move to the front. */
  method KeepInPlace(files: array<string>) returns (n: nat)
    modifies files
    ensures n <= files.Length && files[..n] == DropStamp(old(files[..]))
  {
    n := 0;
    ghost var was := files[..];
    var i := 0;
    while i < files.Length
      invariant 0 <= n <= i <= files.Length
      invariant files[..n] == DropStamp(was[..i]) && files[i..] == was[i..]
    {
      var rel := files[i];
      assert rel == was[i] by { assert files[i..][0] == was[i..][0]; }
      assert was[..i + 1][..i] == was[..i];
      ghost var front, back := files[..n], files[i + 1..];
      assert back == was[i + 1..] by { assert files[i..][1..] == was[i..][1..]; }
      if rel != STAMP_FILENAME {
        files[n] := rel;
        assert files[..n] == front;
        n := n + 1;
        assert files[..n] == front + [rel];
      }
      assert files[i + 1..] == back;
      i := i + 1;
    }
    assert was[..i] == was;
  }

  /** Writes one record after another. */
  method WriteRecords(root: seq<Entry>, kept: seq<string>) returns (r: Result<string, Problem>)
    ensures r == Records(root, kept)
  {
    hide FileAt, Record, Decimal;
    var h := new RunningHash();
    var i := 0;
    while i < |kept|
      invariant 0 <= i <= |kept|
      invariant match Records(root, kept)
                case Err(problem) => Records(root, kept[i..]) == Err(problem)
                case Ok(all) => Records(root, kept[i..]).Ok? && h.written + Records(root, kept[i..]).value == all
    {
      var rel := kept[i];
      assert kept[i..][0] == rel && kept[i..][1..] == kept[i + 1..];
      var file := FileAt(root, rel);
      if file.None? || file.value.Unreadable? {
        assert Records(root, kept[i..]) == Err(CannotRead(rel));
        return Err(CannotRead(rel));
      }
      var data := file.value.data;
      ghost var before := h.written;
      h.Write(rel);
      h.Write([NUL]);
      h.Write(Decimal(|data|));
      h.Write([NUL]);
      h.Write(data);
      RecordWritten(before, rel, data);
      if Records(root, kept).Ok? { Assoc(before, Record(rel, data), Records(root, kept[i + 1..]).value); }
      i := i + 1;
    }
    assert kept[i..] == [];
    assert Records(root, kept[i..]) == Ok("") && h.written + "" == h.written;
    return Ok(h.written);
  }

  /** Compute, up to the hash: what has been written when it is asked for its sum. */
  method Compute(root: seq<Entry>) returns (r: Result<string, Problem>)
    ensures r == Stream(root)
  {
    hide Walk, Records, DropStamp, Sort;
    var walked := WalkFiles("", root, []);
    if walked.Err? { return Err(walked.error); }
    assert [] + Walk("", root).value == Walk("", root).value;
    var files := new string[|walked.value|](k requires 0 <= k < |walked.value| => walked.value[k]);
    assert files[..] == walked.value;
    var n := KeepInPlace(files);
    r := WriteRecords(root, Sort(files[..n]));
  }

  lemma RecordWritten(before: string, rel: string, data: string)
    ensures before + rel + [NUL] + Decimal(|data|) + [NUL] + data == before + Record(rel, data)
  {
    hide Decimal;
    var d := Decimal(|data|);
    Assoc(before, rel, [NUL]);
    Assoc(before, rel + [NUL], d);
    Assoc(before, rel + [NUL] + d, [NUL]);
    Assoc(before, rel + [NUL] + d + [NUL], data);
  }

  lemma Assoc(a: string, b: string, c: string)
    ensures (a + b) + c == a + (b + c)
  {
  }

  // ----- the framing -----

  predicate NulFree(s: string) { forall k :: 0 <= k < |s| ==> s[k] != NUL }

  /** What stands before the first NUL, and after it, can be told. */
  lemma FirstNul(a: string, b: string, x: string, y: string)
    requires NulFree(a) && NulFree(b) && a + [NUL] + x == b + [NUL] + y
    ensures a == b && x == y
  {
    var s := a + [NUL] + x;
    assert s[|a|] == NUL && s[|b|] == NUL;
    assert forall k :: 0 <= k < |a| ==> s[k] == a[k];
    assert forall k :: 0 <= k < |b| ==> s[k] == b[k];
    assert |a| == |b|;
    assert a == s[..|a|] && b == s[..|b|] && x == s[|a| + 1..] && y == s[|b| + 1..];
  }

  datatype Rec = Rec(path: string, data: string)

  function Frame(records: seq<Rec>): string { if records == [] then "" else Record(records[0].path, records[0].data) + Frame(records[1..]) }

  predicate PathsNulFree(records: seq<Rec>) { forall k :: 0 <= k < |records| ==> NulFree(records[k].path) }

  lemma DecimalNulFree(n: nat)
    ensures NulFree(Decimal(n))
  {
  }

  lemma DecimalInjective(a: nat, b: nat)
    requires Decimal(a) == Decimal(b)
    ensures a == b
  {
    DecimalRoundTrip(a);
    DecimalRoundTrip(b);
  }

  lemma OneRecord(p: string, q: string, a: string, b: string, x: string, y: string)
    requires NulFree(p) && NulFree(q) && Record(p, a) + x == Record(q, b) + y
    ensures p == q && a == b && x == y
  {
    hide Decimal;
    var d, e := Decimal(|a|), Decimal(|b|);
    DecimalNulFree(|a|);
    DecimalNulFree(|b|);
    assert Record(p, a) + x == p + [NUL] + (d + [NUL] + (a + x));
    assert Record(q, b) + y == q + [NUL] + (e + [NUL] + (b + y));
    FirstNul(p, q, d + [NUL] + (a + x), e + [NUL] + (b + y));
    FirstNul(d, e, a + x, b + y);
    DecimalInjective(|a|, |b|);
    assert a == (a + x)[..|a|] && b == (b + y)[..|b|] && x == (a + x)[|a|..] && y == (b + y)[|b|..];
  }

  /** The framing is uniquely decodable: two lists of records with the same bytes are the same list. */
  lemma {:induction false} FrameInjective(a: seq<Rec>, b: seq<Rec>)
    requires PathsNulFree(a) && PathsNulFree(b) && Frame(a) == Frame(b)
    ensures a == b
    decreases |a|
  {
    hide Record, NulFree;
    if a == [] || b == [] {
      if a != [] { NotEmpty(a); }
      if b != [] { NotEmpty(b); }
    } else {
      OneRecord(a[0].path, b[0].path, a[0].data, b[0].data, Frame(a[1..]), Frame(b[1..]));
      FrameInjective(a[1..], b[1..]);
      assert a == [a[0]] + a[1..] && b == [b[0]] + b[1..];
    }
  }

  lemma NotEmpty(a: seq<Rec>)
    requires a != []
    ensures Frame(a) != ""
  {
    assert Record(a[0].path, a[0].data)[|a[0].path|] == NUL;
  }

  // ----- what the walk finds -----

  lemma {:induction false} TopPlain(name: string, rest: string)
    requires GoodName(name) && (rest == "" || rest[0] == '/')
    ensures Top(name + rest) == name
    decreases |name|
  {
    if |name| == 1 {
      assert (name + rest)[1..] == rest;
    } else {
      assert (name + rest)[1..] == name[1..] + rest;
      TopPlain(name[1..], rest);
    }
  }

  lemma {:induction false} TopSlash(path: string)
    requires Nested(path)
    ensures path[|Top(path)|] == '/' && path == Top(path) + "/" + Rest(path)
  {
    if path[0] != '/' { TopSlash(path[1..]); }
  }

  lemma NestedPath(name: string, inner: string)
    requires GoodName(name)
    ensures var path := name + "/" + inner; Top(path) == name && Nested(path) && Rest(path) == inner
  {
    assert name + "/" + inner == name + ("/" + inner);
    TopPlain(name, "/" + inner);
  }

  /** The prefix only stands in front. */
  lemma {:induction false} WalkPrefix(prefix: string, es: seq<Entry>)
    ensures Walk(prefix, es).Ok? <==> Walk("", es).Ok?
    ensures Walk(prefix, es).Ok? ==> Walk(prefix, es).value == Prefixed(prefix, Walk("", es).value)
    decreases es
  {
    if es != [] {
      EntryPrefix(prefix, es[0]);
      WalkPrefix(prefix, es[1..]);
      if Walk(prefix, es).Ok? { PrefixedConcat(prefix, WalkEntry("", es[0]).value, Walk("", es[1..]).value); }
    }
  }

  lemma {:induction false} EntryPrefix(prefix: string, e: Entry)
    ensures WalkEntry(prefix, e).Ok? <==> WalkEntry("", e).Ok?
    ensures WalkEntry(prefix, e).Ok? ==> WalkEntry(prefix, e).value == Prefixed(prefix, WalkEntry("", e).value)
    decreases e
  {
    match e {
      case Dir(name, entries) =>
        WalkPrefix(prefix + name + "/", entries);
        WalkPrefix("" + name + "/", entries);
        if Walk("", entries).Ok? { PrefixedTwice(prefix, "" + name + "/", prefix + name + "/", Walk("", entries).value); }
      case Regular(name, _) =>
        assert Prefixed(prefix, [name]) == [prefix + name];
        assert "" + name == name;
      case _ =>
    }
  }

  function Prefixed(prefix: string, paths: seq<string>): seq<string> {
    if paths == [] then [] else [prefix + paths[0]] + Prefixed(prefix, paths[1..])
  }

  lemma {:induction false} PrefixedConcat(prefix: string, a: seq<string>, b: seq<string>)
    ensures Prefixed(prefix, a + b) == Prefixed(prefix, a) + Prefixed(prefix, b)
    decreases |a|
  {
    if a == [] { assert a + b == b; } else { assert (a + b)[1..] == a[1..] + b; PrefixedConcat(prefix, a[1..], b); }
  }

  lemma {:induction false} PrefixedTwice(p: string, q: string, pq: string, paths: seq<string>)
    requires pq == p + q
    ensures Prefixed(pq, paths) == Prefixed(p, Prefixed(q, paths))
    decreases |paths|
  {
    if paths != [] {
      PrefixedTwice(p, q, pq, paths[1..]);
      assert Prefixed(q, paths)[1..] == Prefixed(q, paths[1..]);
      Assoc(p, q, paths[0]);
    }
  }

  lemma {:induction false} PrefixedMembers(prefix: string, paths: seq<string>)
    ensures forall x :: x in Prefixed(prefix, paths) <==> prefix <= x && x[|prefix|..] in paths
    ensures Distinct(paths) ==> Distinct(Prefixed(prefix, paths))
    decreases |paths|
  {
    if paths != [] {
      PrefixedMembers(prefix, paths[1..]);
      forall x ensures x in Prefixed(prefix, paths) <==> prefix <= x && x[|prefix|..] in paths {
        assert (prefix + paths[0])[|prefix|..] == paths[0];
        if prefix <= x {
          assert x == prefix + x[|prefix|..];
          assert x[|prefix|..] in paths <==> x[|prefix|..] == paths[0] || x[|prefix|..] in paths[1..];
        }
      }
      if Distinct(paths) {
        var rest := Prefixed(prefix, paths[1..]);
        assert Distinct(paths[1..]);
        assert paths[0] !in paths[1..];
        assert (prefix + paths[0])[|prefix|..] == paths[0];
        assert prefix + paths[0] !in rest;
      }
    }
  }

  /** One entry's paths are those that start with its name and lead to a file. */
  lemma {:induction false} EntryPaths(e: Entry)
    requires GoodTree([e]) && WalkEntry("", e).Ok?
    ensures Distinct(WalkEntry("", e).value)
    ensures forall x :: x in WalkEntry("", e).value <==> Top(x) == e.name && FileAt([e], x).Some?
    decreases e, 0
  {
    match e {
      case Dir(name, entries) =>
        var prefix := "" + name + "/";
        assert GoodTree([e][0].entries);
        WalkPrefix(prefix, entries);
        WalkPaths(entries);
        var inner := Walk("", entries).value;
        PrefixedMembers(prefix, inner);
        forall x ensures x in WalkEntry("", e).value <==> Top(x) == name && FileAt([e], x).Some? { DirPath(e, x, inner); }
      case Regular(name, _) =>
        assert GoodName([e][0].name);
        assert "" + name == name && name + "" == name;
        TopPlain(name, "");
        forall x ensures x in WalkEntry("", e).value <==> Top(x) == name && FileAt([e], x).Some? {
          if Top(x) == name && !Nested(x) { assert x == name; }
        }
      case _ =>
    }
  }

  lemma DirPath(e: Entry, x: string, inner: seq<string>)
    requires e.Dir? && GoodName(e.name)
    requires forall y :: y in inner <==> FileAt(e.entries, y).Some?
    ensures var prefix := "" + e.name + "/";
            (prefix <= x && x[|prefix|..] in inner) <==> Top(x) == e.name && FileAt([e], x).Some?
  {
    var prefix := "" + e.name + "/";
    if prefix <= x {
      assert x == e.name + "/" + x[|prefix|..];
      NestedPath(e.name, x[|prefix|..]);
    }
    if Top(x) == e.name && Nested(x) { TopSlash(x); }
  }

  lemma FileAtStep(es: seq<Entry>, x: string)
    requires es != []
    ensures FileAt(es, x) == if es[0].name == Top(x) then FileAt([es[0]], x) else FileAt(es[1..], x)
  {
    assert [es[0]][1..] == [];
  }

  /** The walk finds each regular file's path, once. */
  lemma {:induction false} WalkPaths(es: seq<Entry>)
    requires GoodTree(es) && Walk("", es).Ok?
    ensures Distinct(Walk("", es).value)
    ensures forall x :: x in Walk("", es).value <==> FileAt(es, x).Some?
    decreases es
  {
    hide WalkEntry;
    if es != [] {
      var first, rest := WalkEntry("", es[0]).value, Walk("", es[1..]).value;
      GoodTail(es);
      EntryPaths(es[0]);
      WalkPaths(es[1..]);
      forall x ensures x in first + rest <==> FileAt(es, x).Some? {
        FileAtStep(es, x);
        if Top(x) == es[0].name { NoOther(es[1..], x); }
      }
      forall x | x in first ensures x !in rest { NoOther(es[1..], x); }
      DistinctConcat(first, rest);
    }
  }

  lemma GoodTail(es: seq<Entry>)
    requires GoodTree(es) && es != []
    ensures GoodTree(es[1..]) && GoodTree([es[0]])
    ensures forall k :: 0 <= k < |es| - 1 ==> es[1..][k].name != es[0].name
  {
  }

  lemma {:induction false} NoOther(es: seq<Entry>, x: string)
    requires forall k :: 0 <= k < |es| ==> es[k].name != Top(x)
    ensures FileAt(es, x) == None
    decreases |es|
  {
    if es != [] { NoOther(es[1..], x); }
  }

  lemma DistinctConcat(a: seq<string>, b: seq<string>)
    requires Distinct(a) && Distinct(b) && forall x :: x in a ==> x !in b
    ensures Distinct(a + b)
  {
    forall i, j | 0 <= i < j < |a + b| ensures (a + b)[i] != (a + b)[j] {
      if i < |a| && j >= |a| { assert a[i] in a; }
    }
  }

  // ----- the stream and the files -----

  lemma {:induction false} DropStampKeeps(paths: seq<string>)
    ensures forall x :: x in DropStamp(paths) <==> x in paths && x != STAMP_FILENAME
    ensures Distinct(paths) ==> Distinct(DropStamp(paths))
    decreases |paths|
  {
    if paths != [] {
      var front, last := paths[..|paths| - 1], paths[|paths| - 1];
      DropStampKeeps(front);
      assert forall x :: x in paths <==> x in front || x == last;
      if Distinct(paths) {
        assert last !in front;
        DistinctConcat(DropStamp(front), if last == STAMP_FILENAME then [] else [last]);
      }
    }
  }

  /** The paths hashed, in the order they are hashed. */
  function Hashed(root: seq<Entry>): seq<string>
    requires Walk("", root).Ok?
  {
    Sort(DropStamp(Walk("", root).value))
  }

  lemma HashedPaths(root: seq<Entry>)
    requires GoodTree(root) && Walk("", root).Ok?
    ensures Distinct(Hashed(root)) && Sorted(Hashed(root))
    ensures forall x :: x in Hashed(root) <==> FileAt(root, x).Some? && x != STAMP_FILENAME
  {
    hide GoodTree, Sort, Walk;
    var paths := Walk("", root).value;
    WalkPaths(root);
    DropStampKeeps(paths);
    SortSorts(DropStamp(paths));
    SortKeepsMembers(DropStamp(paths));
  }

  /** A file the walk finds has a path without NUL. */
  lemma {:induction false} PathNulFree(es: seq<Entry>, x: string)
    requires GoodTree(es) && FileAt(es, x).Some?
    ensures NulFree(x)
    decreases es
  {
    if es[0].name == Top(x) {
      assert GoodName(es[0].name);
      if Nested(x) {
        TopSlash(x);
        PathNulFree(es[0].entries, Rest(x));
      } else {
        assert x == Top(x);
      }
    } else {
      GoodTail(es);
      PathNulFree(es[1..], x);
    }
  }

  function RecordsOf(root: seq<Entry>, paths: seq<string>): (r: seq<Rec>)
    requires AllReadable(root, paths)
    ensures |r| == |paths| && forall k :: 0 <= k < |r| ==> r[k] == Rec(paths[k], FileAt(root, paths[k]).value.data)
  {
    if paths == [] then [] else [Rec(paths[0], FileAt(root, paths[0]).value.data)] + RecordsOf(root, paths[1..])
  }

  predicate AllReadable(root: seq<Entry>, paths: seq<string>) {
    forall k :: 0 <= k < |paths| ==> FileAt(root, paths[k]).Some? && FileAt(root, paths[k]).value.Readable?
  }

  lemma {:induction false} RecordsFramed(root: seq<Entry>, paths: seq<string>)
    ensures Records(root, paths).Ok? <==> AllReadable(root, paths)
    ensures Records(root, paths).Ok? ==> Records(root, paths).value == Frame(RecordsOf(root, paths))
    decreases |paths|
  {
    hide FileAt, Record;
    if paths != [] {
      RecordsFramed(root, paths[1..]);
      if AllReadable(root, paths) {
        var r := RecordsOf(root, paths);
        assert r == [Rec(paths[0], FileAt(root, paths[0]).value.data)] + RecordsOf(root, paths[1..]);
        assert r[1..] == RecordsOf(root, paths[1..]);
      } else if AllReadable(root, paths[1..]) {
        assert forall k :: 1 <= k < |paths| ==> paths[k] == paths[1..][k - 1];
      }
    }
  }

  /** Both trees lead to the same files, the root stamp apart. */
  ghost predicate SameFiles(a: seq<Entry>, b: seq<Entry>) {
    forall x :: x != STAMP_FILENAME ==> FileAt(a, x) == FileAt(b, x)
  }

  lemma StreamFramed(root: seq<Entry>)
    requires GoodTree(root) && Stream(root).Ok?
    ensures Walk("", root).Ok? && AllReadable(root, Hashed(root)) && PathsNulFree(RecordsOf(root, Hashed(root)))
    ensures Stream(root).value == Frame(RecordsOf(root, Hashed(root)))
  {
    hide FileAt, GoodTree, NulFree, Walk, Frame;
    var paths := Hashed(root);
    RecordsFramed(root, paths);
    HashedPaths(root);
    forall k | 0 <= k < |paths| ensures NulFree(paths[k]) {
      assert paths[k] in paths;
      PathNulFree(root, paths[k]);
    }
  }

  /**
   * Two trees feed the hash the same bytes exactly when they hold the same regular files with the
   * same contents, the root stamp apart. The order of listings cannot matter.
   */
  lemma SameStreamIffSameFiles(a: seq<Entry>, b: seq<Entry>)
    requires GoodTree(a) && GoodTree(b) && Stream(a).Ok? && Stream(b).Ok?
    ensures Stream(a) == Stream(b) <==> SameFiles(a, b)
  {
    hide FileAt, GoodTree, Stream, Walk, Frame, Sort, DropStamp;
    StreamFramed(a);
    StreamFramed(b);
    HashedPaths(a);
    HashedPaths(b);
    var p, q := Hashed(a), Hashed(b);
    var r, t := RecordsOf(a, p), RecordsOf(b, q);
    if SameFiles(a, b) {
      SameMembers(p, q);
      assert forall k :: 0 <= k < |p| ==> p[k] in p;
      assert r == t;
    }
    if Stream(a) == Stream(b) {
      FrameInjective(r, t);
      assert forall k :: 0 <= k < |r| ==> r[k].path == p[k] && t[k].path == q[k];
      assert p == q;
      forall x | x != STAMP_FILENAME ensures FileAt(a, x) == FileAt(b, x) {
        assert x in p <==> x in q;
        if x in p {
          var k :| 0 <= k < |p| && p[k] == x;
          assert r[k] == t[k];
        }
      }
    }
  }

  lemma SameMembers(p: seq<string>, q: seq<string>)
    requires Distinct(p) && Distinct(q) && Sorted(p) && Sorted(q) && forall x :: x in p <==> x in q
    ensures p == q
  {
    hide Sorted;
    DistinctCounts(p);
    DistinctCounts(q);
    forall x ensures multiset(p)[x] == multiset(q)[x] {
      assert x in p <==> x in multiset(p);
      assert x in q <==> x in multiset(q);
    }
    assert multiset(p) == multiset(q);
    SortedUnique(p, q);
  }

  // ----- when there is a digest -----

  /** Nothing but directories that can be listed and regular files. */
  predicate AllRegular(es: seq<Entry>) { es != [] ==> EntryRegular(es[0]) && AllRegular(es[1..]) }

  predicate EntryRegular(e: Entry) { e.Regular? || (e.Dir? && AllRegular(e.entries)) }

  lemma {:induction false} WalkOkIff(prefix: string, es: seq<Entry>)
    ensures Walk(prefix, es).Ok? <==> AllRegular(es)
    decreases es, 1
  {
    if es != [] {
      EntryOkIff(prefix, es[0]);
      WalkOkIff(prefix, es[1..]);
    }
  }

  lemma {:induction false} EntryOkIff(prefix: string, e: Entry)
    ensures WalkEntry(prefix, e).Ok? <==> EntryRegular(e)
    decreases e, 0
  {
    if e.Dir? { WalkOkIff(prefix + e.name + "/", e.entries); }
  }

  ghost predicate OthersReadable(root: seq<Entry>) {
    forall x :: x != STAMP_FILENAME && FileAt(root, x).Some? ==> FileAt(root, x).value.Readable?
  }

  lemma HashedReadable(root: seq<Entry>)
    requires GoodTree(root) && Walk("", root).Ok?
    ensures AllReadable(root, Hashed(root)) <==> OthersReadable(root)
  {
    hide FileAt, GoodTree, Walk, Hashed;
    var paths := Hashed(root);
    HashedPaths(root);
    forall k | 0 <= k < |paths| ensures FileAt(root, paths[k]).Some? && paths[k] != STAMP_FILENAME { assert paths[k] in paths; }
    if AllReadable(root, paths) {
      forall x | x != STAMP_FILENAME && FileAt(root, x).Some? ensures FileAt(root, x).value.Readable? {
        assert x in paths;
        var k :| 0 <= k < |paths| && paths[k] == x;
      }
    }
  }

  /** A tree has a digest exactly when it holds regular files only, all readable but perhaps the root stamp. */
  lemma DigestIff(root: seq<Entry>)
    requires GoodTree(root)
    ensures Stream(root).Ok? <==> AllRegular(root) && OthersReadable(root)
  {
    hide FileAt, GoodTree, Walk, AllRegular, OthersReadable, AllReadable, Sort, DropStamp;
    WalkOkIff("", root);
    if AllRegular(root) {
      HashedReadable(root);
      RecordsFramed(root, Hashed(root));
    }
  }

  // ----- listing order -----

  /** The same directory listed in another order, at every level. */
  ghost predicate Relisted(a: seq<Entry>, b: seq<Entry>)
    decreases a
  {
    (forall i :: 0 <= i < |a| ==> exists j :: 0 <= j < |b| && RelistedEntry(a[i], b[j]))
    && (forall j :: 0 <= j < |b| ==> HasName(a, b[j].name))
  }

  ghost predicate RelistedEntry(e: Entry, f: Entry)
    decreases e
  {
    if e.Dir? then f.Dir? && f.name == e.name && Relisted(e.entries, f.entries) else e == f
  }

  /** Where the entry with a name stands. */
  lemma {:induction false} FileAtEntry(es: seq<Entry>, k: nat, x: string)
    requires GoodTree(es) && k < |es| && es[k].name == Top(x)
    ensures FileAt(es, x) == FileAt([es[k]], x)
    decreases |es|
  {
    hide Top, Nested, Rest;
    FileAtStep(es, x);
    if k > 0 {
      GoodTail(es);
      assert es[0].name != es[k].name;
      FileAtEntry(es[1..], k - 1, x);
    } else {
      assert [es[0]][0] == es[0];
    }
  }

  /** The order of listings changes no file. */
  lemma {:induction false} RelistedSame(a: seq<Entry>, b: seq<Entry>, x: string)
    requires GoodTree(a) && GoodTree(b) && Relisted(a, b)
    ensures FileAt(a, x) == FileAt(b, x)
    decreases a
  {
    hide GoodTree, Top, Nested, Rest;
    if HasName(a, Top(x)) {
      var i :| 0 <= i < |a| && a[i].name == Top(x);
      var j :| 0 <= j < |b| && RelistedEntry(a[i], b[j]);
      FileAtEntry(a, i, x);
      FileAtEntry(b, j, x);
      if a[i].Dir? && Nested(x) {
        GoodEntry(a, i);
        GoodEntry(b, j);
        RelistedSame(a[i].entries, b[j].entries, Rest(x));
      }
    } else {
      NoOther(a, x);
      NoOther(b, x);
    }
  }

  lemma GoodEntry(es: seq<Entry>, k: nat)
    requires GoodTree(es) && k < |es| && es[k].Dir?
    ensures GoodTree(es[k].entries)
  {
  }

  lemma {:induction false} AllRegularIff(es: seq<Entry>)
    ensures AllRegular(es) <==> forall k :: 0 <= k < |es| ==> EntryRegular(es[k])
    decreases |es|
  {
    hide EntryRegular;
    if es != [] {
      AllRegularIff(es[1..]);
      assert forall k :: 0 < k < |es| ==> es[k] == es[1..][k - 1];
      assert forall k :: 0 <= k < |es| - 1 ==> es[1..][k] == es[k + 1];
    }
  }

  /** Every listed entry was there before. */
  lemma RelistedBack(a: seq<Entry>, b: seq<Entry>, j: nat) returns (i: nat)
    requires GoodTree(b) && Relisted(a, b) && j < |b|
    ensures i < |a| && RelistedEntry(a[i], b[j])
  {
    hide GoodTree;
    assert HasName(a, b[j].name);
    var at :| 0 <= at < |a| && a[at].name == b[j].name;
    i := at;
    var again :| 0 <= again < |b| && RelistedEntry(a[i], b[again]);
    NamesApart(b, again, j);
  }

  /** It makes no entry regular and none irregular. */
  lemma {:induction false} RelistedRegular(a: seq<Entry>, b: seq<Entry>)
    requires GoodTree(a) && GoodTree(b) && Relisted(a, b)
    ensures AllRegular(a) <==> AllRegular(b)
    decreases a, 1
  {
    hide AllRegular, GoodTree, EntryRegular, RelistedEntry;
    AllRegularIff(a);
    AllRegularIff(b);
    if AllRegular(a) {
      forall j | 0 <= j < |b| ensures EntryRegular(b[j]) {
        var i := RelistedBack(a, b, j);
        RelistedEntryRegular(a, b, i, j);
      }
    }
    if AllRegular(b) {
      forall i | 0 <= i < |a| ensures EntryRegular(a[i]) {
        var j :| 0 <= j < |b| && RelistedEntry(a[i], b[j]);
        RelistedEntryRegular(a, b, i, j);
      }
    }
  }

  lemma {:induction false} RelistedEntryRegular(a: seq<Entry>, b: seq<Entry>, i: nat, j: nat)
    requires GoodTree(a) && GoodTree(b) && i < |a| && j < |b| && RelistedEntry(a[i], b[j])
    ensures EntryRegular(a[i]) <==> EntryRegular(b[j])
    decreases a, 0
  {
    hide GoodTree, AllRegular, Relisted;
    if a[i].Dir? {
      GoodEntry(a, i);
      GoodEntry(b, j);
      RelistedRegular(a[i].entries, b[j].entries);
    }
  }

  lemma NamesApart(es: seq<Entry>, j: nat, k: nat)
    requires GoodTree(es) && j < |es| && k < |es| && es[j].name == es[k].name
    ensures j == k
  {
  }

  /** So a directory has a stream however it is listed or not at all, and always the same one. */
  lemma OrderLeavesNoTrace(a: seq<Entry>, b: seq<Entry>)
    requires GoodTree(a) && GoodTree(b) && Relisted(a, b)
    ensures Stream(a).Ok? <==> Stream(b).Ok?
    ensures Stream(a).Ok? ==> Stream(a) == Stream(b)
  {
    hide GoodTree, FileAt, Stream, Relisted, AllRegular;
    forall x ensures FileAt(a, x) == FileAt(b, x) { RelistedSame(a, b, x); }
    RelistedRegular(a, b);
    DigestIff(a);
    DigestIff(b);
    if Stream(a).Ok? { SameStreamIffSameFiles(a, b); }
  }
}
