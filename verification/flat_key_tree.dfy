/**
 * The rebuild of flat keys as a function on trees (packages/dt-module/src/flat-keys.ts):
 * what one key adds, what it costs, and the laws of adding many.
 */
module FlatKeyTree {
  import opened Prelude
  import opened FlatKeyPath

  /** A value an input property or a container entry holds; an object or list is a reference. */
  datatype Val = Undefined | Null | Scalar(text: string) | Ref(at: nat)

  predicate Absent(v: Val) { v == Undefined || v == Null }

  /** A nested value. References left in it are the caller's own objects, which are never entered. */
  datatype Tree = Leaf(value: Val) | Obj(fields: map<string, Tree>) | Arr(slots: seq<Tree>)

  predicate Missing(t: Tree) { t.Leaf? && Absent(t.value) }

  const NOTHING: Tree := Leaf(Undefined)

  // ----- one step down -----

  predicate Fits(t: Tree, s: Segment) { if s.Index? then t.Arr? else t.Obj? }

  function Child(t: Tree, s: Segment): Tree
    requires Fits(t, s)
  {
    match s
    case Name(name) => if name in t.fields then t.fields[name] else NOTHING
    case Index(i) => if i < |t.slots| then t.slots[i] else NOTHING
  }

  function Fresh(s: Segment): Tree { if s.Index? then Arr([]) else Obj(map[]) }

  /** The container a segment is written into: one is made where there is none. */
  function Base(t: Tree, s: Segment): Tree { if Missing(t) then Fresh(s) else t }

  /** List entries that writing at `s` adds. */
  function Extra(t: Tree, s: Segment): nat
    requires Fits(t, s)
  {
    if s.Index? && s.index >= |t.slots| then s.index + 1 - |t.slots| else 0
  }

  function PutSlot<X>(slots: seq<X>, i: nat, x: X, fill: X): (r: seq<X>)
    ensures |r| == if i < |slots| then |slots| else i + 1
    ensures forall k :: 0 <= k < |r| ==> r[k] == if k == i then x else if k < |slots| then slots[k] else fill
  {
    if i < |slots| then slots[i := x] else slots + seq(i - |slots|, _ => fill) + [x]
  }

  function Put(t: Tree, s: Segment, child: Tree, fill: Val): Tree
    requires Fits(t, s)
  {
    match s
    case Name(name) => Obj(t.fields[name := child])
    case Index(i) => Arr(PutSlot(t.slots, i, child, Leaf(fill)))
  }

  // ----- whole paths -----

  /** List entries that writing at `p` adds, or none when the place cannot be written. */
  function Growth(t: Tree, p: Path): Option<nat>
    decreases |p|
  {
    if p == [] then if Missing(t) then Some(0) else None
    else
      var base := Base(t, p[0]);
      if !Fits(base, p[0]) then None
      else
        match Growth(Child(base, p[0]), p[1..])
        case None => None
        case Some(g) => Some(Extra(base, p[0]) + g)
  }

  function Insert(t: Tree, p: Path, v: Val, fill: Val): Tree
    decreases |p|
  {
    if p == [] then Leaf(v)
    else
      var base := Base(t, p[0]);
      if !Fits(base, p[0]) then t
      else Put(base, p[0], Insert(Child(base, p[0]), p[1..], v, fill), fill)
  }

  function Lookup(t: Tree, p: Path): Tree
    decreases |p|
  {
    if p == [] then t else if Fits(t, p[0]) then Lookup(Child(t, p[0]), p[1..]) else NOTHING
  }

  lemma ChildPut(t: Tree, s: Segment, child: Tree, fill: Val, other: Segment)
    requires Fits(t, s) && Fits(t, other) && Absent(fill)
    ensures Fits(Put(t, s, child, fill), s) && Fits(Put(t, s, child, fill), other)
    ensures Child(Put(t, s, child, fill), s) == child
    ensures other != s ==>
              Child(Put(t, s, child, fill), other) == Child(t, other)
              || (Missing(Child(t, other)) && Missing(Child(Put(t, s, child, fill), other)))
  {
  }

  /** A key that was written reads back at its place. */
  lemma {:induction false} InsertThenLookup(t: Tree, p: Path, v: Val, fill: Val)
    requires Growth(t, p).Some? && Absent(fill)
    ensures Lookup(Insert(t, p, v, fill), p) == Leaf(v)
    decreases |p|
  {
    if p != [] {
      var base := Base(t, p[0]);
      InsertThenLookup(Child(base, p[0]), p[1..], v, fill);
      ChildPut(base, p[0], Insert(Child(base, p[0]), p[1..], v, fill), fill, p[0]);
    }
  }

  /** No later key changes it: the first to claim a place keeps it. */
  lemma {:induction false} InsertKeeps(t: Tree, q: Path, v: Val, fill: Val, p: Path)
    requires Growth(t, q).Some? && Absent(fill)
    requires Lookup(t, p).Leaf? && !Missing(Lookup(t, p))
    ensures Lookup(Insert(t, q, v, fill), p) == Lookup(t, p)
    decreases |p|
  {
    if p != [] && q != [] {
      assert Fits(t, p[0]);
      ChildPut(t, q[0], Insert(Child(t, q[0]), q[1..], v, fill), fill, p[0]);
      if p[0] == q[0] {
        InsertKeeps(Child(t, q[0]), q[1..], v, fill, p[1..]);
      }
    }
  }

  // ----- list entries in a tree -----

  /** The summed lengths of all lists in a tree. */
  ghost function Slots(t: Tree): nat
    decreases t, 1
  {
    match t
    case Leaf(_) => 0
    case Arr(slots) => |slots| + SlotsOf(slots)
    case Obj(fields) => SlotsIn(t, fields.Keys)
  }

  ghost function SlotsOf(slots: seq<Tree>): nat {
    if slots == [] then 0 else Slots(slots[0]) + SlotsOf(slots[1..])
  }

  ghost function SlotsIn(t: Tree, names: set<string>): nat
    requires t.Obj? && names <= t.fields.Keys
    decreases t, 0, |names|
  {
    if names == {} then 0
    else
      var name :| name in names;
      Slots(t.fields[name]) + SlotsIn(t, names - {name})
  }

  lemma {:induction false} SlotsInRemove(t: Tree, names: set<string>, name: string)
    requires t.Obj? && names <= t.fields.Keys && name in names
    ensures SlotsIn(t, names) == Slots(t.fields[name]) + SlotsIn(t, names - {name})
    decreases |names|
  {
    var first :| first in names && SlotsIn(t, names) == Slots(t.fields[first]) + SlotsIn(t, names - {first});
    if first != name {
      SlotsInRemove(t, names - {first}, name);
      SlotsInRemove(t, names - {name}, first);
      assert names - {first} - {name} == names - {name} - {first};
    }
  }

  lemma {:induction false} SlotsInSame(t: Tree, u: Tree, names: set<string>)
    requires t.Obj? && u.Obj? && names <= t.fields.Keys && names <= u.fields.Keys
    requires forall name :: name in names ==> t.fields[name] == u.fields[name]
    ensures SlotsIn(t, names) == SlotsIn(u, names)
    decreases |names|
  {
    if names != {} {
      var name :| name in names;
      SlotsInRemove(t, names, name);
      SlotsInRemove(u, names, name);
      SlotsInSame(t, u, names - {name});
    }
  }

  lemma {:induction false} SlotsOfUpdate(slots: seq<Tree>, i: nat, x: Tree)
    requires i < |slots|
    ensures SlotsOf(slots[i := x]) + Slots(slots[i]) == SlotsOf(slots) + Slots(x)
    decreases |slots|
  {
    if i > 0 {
      SlotsOfUpdate(slots[1..], i - 1, x);
      assert slots[i := x][1..] == slots[1..][i - 1 := x];
    } else {
      assert slots[i := x][1..] == slots[1..];
    }
  }

  lemma {:induction false} SlotsOfConcat(a: seq<Tree>, b: seq<Tree>)
    ensures SlotsOf(a + b) == SlotsOf(a) + SlotsOf(b)
    decreases |a|
  {
    if a == [] {
      assert a + b == b;
    } else {
      assert (a + b)[1..] == a[1..] + b;
      SlotsOfConcat(a[1..], b);
    }
  }

  lemma {:induction false} SlotsOfLeaves(slots: seq<Tree>)
    requires forall k :: 0 <= k < |slots| ==> slots[k].Leaf?
    ensures SlotsOf(slots) == 0
    decreases |slots|
  {
    if slots != [] { SlotsOfLeaves(slots[1..]); }
  }

  lemma SlotsPut(t: Tree, s: Segment, child: Tree, fill: Val)
    requires Fits(t, s)
    ensures Slots(Put(t, s, child, fill)) + Slots(Child(t, s)) == Slots(t) + Extra(t, s) + Slots(child)
  {
    match s {
      case Index(i) =>
        if i < |t.slots| {
          SlotsOfUpdate(t.slots, i, child);
        } else {
          var gap := seq(i - |t.slots|, _ => Leaf(fill));
          SlotsOfConcat(t.slots + gap, [child]);
          SlotsOfConcat(t.slots, gap);
          SlotsOfLeaves(gap);
          assert SlotsOf([child]) == Slots(child) by { assert [child][1..] == []; }
        }
      case Name(name) =>
        var u := Put(t, s, child, fill);
        SlotsInRemove(u, u.fields.Keys, name);
        SlotsInSame(t, u, t.fields.Keys - {name});
        assert u.fields.Keys - {name} == t.fields.Keys - {name};
        if name in t.fields {
          SlotsInRemove(t, t.fields.Keys, name);
        } else {
          assert t.fields.Keys - {name} == t.fields.Keys;
        }
    }
  }

  /** Conservation: a key adds exactly the list entries it was charged for. */
  lemma {:induction false} InsertGrowth(t: Tree, p: Path, v: Val, fill: Val)
    requires Growth(t, p).Some?
    ensures Slots(Insert(t, p, v, fill)) == Slots(t) + Growth(t, p).value
    decreases |p|
  {
    if p != [] {
      var base := Base(t, p[0]);
      var child := Child(base, p[0]);
      InsertGrowth(child, p[1..], v, fill);
      SlotsPut(base, p[0], Insert(child, p[1..], v, fill), fill);
      assert Slots(base) == Slots(t) by {
        if Missing(t) {
          assert SlotsOf([]) == 0;
          var e: Tree := Obj(map[]);
          assert e.fields.Keys == {};
        }
      }
    }
  }
}
