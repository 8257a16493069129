/**
 * The rebuild as the code runs it (packages/dt-module/src/flat-keys.ts): `growthOf` walks and
 * `write` changes objects and lists in place on a heap that also holds the caller's own objects.
 * Proved against the function on trees in FlatKeyTree and FlatKeyRebuild.
 */
module FlatKeys {
  import opened Prelude
  import opened FlatKeyPath
  import opened FlatKeyTree
  import opened FlatKeyRebuild
  import opened StringOrder

  /** One object or list of the heap. */
  datatype Cell = ObjCell(fields: map<string, Val>) | ArrCell(slots: seq<Val>)

  predicate CellFits(c: Cell, s: Segment) { if s.Index? then c.ArrCell? else c.ObjCell? }

  /** A container's own entry. */
  function Entry(c: Cell, s: Segment): Val
    requires CellFits(c, s)
  {
    match s
    case Name(name) => if name in c.fields then c.fields[name] else Undefined
    case Index(i) => if i < |c.slots| then c.slots[i] else Undefined
  }

  function SetEntry(c: Cell, s: Segment, v: Val, fill: Val): Cell
    requires CellFits(c, s)
  {
    match s
    case Name(name) => ObjCell(c.fields[name := v])
    case Index(i) => ArrCell(PutSlot(c.slots, i, v, fill))
  }

  function FreshCell(s: Segment): Cell { if s.Index? then ArrCell([]) else ObjCell(map[]) }

  // ----- what a heap stands for -----

  /**
   * The cells from `own` on were made by the rebuild; each is found at one place. An entry that
   * refers to such a cell refers forward, to the cell placed one step below.
   */
  ghost predicate Placed(cells: seq<Cell>, own: nat, places: seq<Path>) {
    own < |cells| && |places| == |cells| && places[own] == [] && cells[own].ObjCell?
    && forall i: nat, s: Segment ::
         own <= i < |cells| && CellFits(cells[i], s) && Entry(cells[i], s).Ref? && own <= Entry(cells[i], s).at ==>
           i < Entry(cells[i], s).at < |cells| && places[Entry(cells[i], s).at] == places[i] + [s]
  }

  predicate IsOwn(cells: seq<Cell>, own: nat, v: Val) { v.Ref? && own <= v.at < |cells| }

  /** The tree a value stands for; the caller's own objects stay references. */
  ghost function Abs(cells: seq<Cell>, own: nat, places: seq<Path>, v: Val): Tree
    requires Placed(cells, own, places)
    decreases if IsOwn(cells, own, v) then |cells| - v.at else 0
  {
    if IsOwn(cells, own, v) then AbsCell(cells, own, places, v.at) else Leaf(v)
  }

  ghost function AbsCell(cells: seq<Cell>, own: nat, places: seq<Path>, i: nat): Tree
    requires Placed(cells, own, places) && own <= i < |cells|
    decreases |cells| - i, 0
  {
    match cells[i]
    case ObjCell(fields) =>
      Obj(map k | k in fields :: (assert Entry(cells[i], Name(k)) == fields[k]; Abs(cells, own, places, fields[k])))
    case ArrCell(slots) =>
      Arr(seq(|slots|, k requires 0 <= k < |slots| =>
              (assert Entry(cells[i], Index(k)) == slots[k]; Abs(cells, own, places, slots[k]))))
  }

  lemma AbsChild(cells: seq<Cell>, own: nat, places: seq<Path>, i: nat, s: Segment)
    requires Placed(cells, own, places) && own <= i < |cells|
    ensures Fits(AbsCell(cells, own, places, i), s) <==> CellFits(cells[i], s)
    ensures CellFits(cells[i], s) ==>
              Child(AbsCell(cells, own, places, i), s) == Abs(cells, own, places, Entry(cells[i], s))
              && Extra(AbsCell(cells, own, places, i), s) == (if s.Index? && s.index >= |cells[i].slots| then s.index + 1 - |cells[i].slots| else 0)
              && (Within(AbsCell(cells, own, places, i), s) <==>
                    match s case Name(name) => name in cells[i].fields case Index(k) => k < |cells[i].slots|)
  {
  }

  /** Two heaps that agree but for the one cell `c`, the second possibly with more cells. */
  ghost predicate Agree(a: seq<Cell>, b: seq<Cell>, own: nat, pa: seq<Path>, pb: seq<Path>, c: nat) {
    Placed(a, own, pa) && Placed(b, own, pb) && own <= c < |a| <= |b|
    && forall i :: own <= i < |a| ==> pb[i] == pa[i] && (i != c ==> b[i] == a[i])
  }

  predicate Known(cells: seq<Cell>, own: nat, v: Val) { v.Ref? && own <= v.at ==> v.at < |cells| }

  /** A part of the heap that is not above the changed cell stands for what it did. */
  lemma {:induction false} AbsSame(a: seq<Cell>, b: seq<Cell>, own: nat, pa: seq<Path>, pb: seq<Path>, c: nat, v: Val)
    requires Agree(a, b, own, pa, pb, c) && Known(a, own, v)
    requires IsOwn(a, own, v) ==> !(pa[v.at] <= pa[c])
    ensures Abs(b, own, pb, v) == Abs(a, own, pa, v)
    decreases if IsOwn(a, own, v) then |a| - v.at else 0
  {
    if IsOwn(a, own, v) {
      var i := v.at;
      assert i != c && b[i] == a[i];
      forall s | CellFits(a[i], s) ensures Abs(b, own, pb, Entry(a[i], s)) == Abs(a, own, pa, Entry(a[i], s)) {
        var e := Entry(a[i], s);
        if IsOwn(a, own, e) {
          assert pa[e.at] == pa[i] + [s];
          assert pa[i] <= pa[e.at];
          PrefixTrans(pa[i], pa[e.at], pa[c]);
        }
        AbsSame(a, b, own, pa, pb, c, e);
      }
      CellSame(a, b, own, pa, pb, i);
    }
  }

  lemma PrefixTrans(p: Path, q: Path, r: Path)
    requires p <= q
    ensures q <= r ==> p <= r
  {
  }

  lemma CellSame(a: seq<Cell>, b: seq<Cell>, own: nat, pa: seq<Path>, pb: seq<Path>, i: nat)
    requires Placed(a, own, pa) && Placed(b, own, pb) && own <= i < |a| <= |b| && b[i] == a[i]
    requires forall s | CellFits(a[i], s) :: Abs(b, own, pb, Entry(a[i], s)) == Abs(a, own, pa, Entry(a[i], s))
    ensures AbsCell(b, own, pb, i) == AbsCell(a, own, pa, i)
  {
    match a[i] {
      case ObjCell(fields) =>
        forall k | k in fields ensures Abs(b, own, pb, fields[k]) == Abs(a, own, pa, fields[k]) {
          assert Entry(a[i], Name(k)) == fields[k];
        }
        assert AbsCell(b, own, pb, i).fields == AbsCell(a, own, pa, i).fields;
      case ArrCell(slots) =>
        forall k | 0 <= k < |slots| ensures Abs(b, own, pb, slots[k]) == Abs(a, own, pa, slots[k]) {
          assert Entry(a[i], Index(k)) == slots[k];
        }
        assert AbsCell(b, own, pb, i).slots == AbsCell(a, own, pa, i).slots;
    }
  }

  // ----- replacing what is at a place -----

  /** `p` leads through entries of `t` that are there. */
  predicate Present(t: Tree, p: Path)
    decreases |p|
  {
    p == [] || (Within(t, p[0]) && Present(Child(t, p[0]), p[1..]))
  }

  function Splice(t: Tree, p: Path, x: Tree): Tree
    requires Present(t, p)
    decreases |p|
  {
    if p == [] then x else Put(t, p[0], Splice(Child(t, p[0]), p[1..], x), Undefined)
  }

  lemma PutPut(t: Tree, s: Segment, x: Tree, y: Tree, fill: Val)
    requires Within(t, s)
    ensures Within(Put(t, s, x, Undefined), s) && Child(Put(t, s, x, Undefined), s) == x
    ensures Put(Put(t, s, x, Undefined), s, y, fill) == Put(t, s, y, Undefined)
    ensures Put(t, s, Child(t, s), Undefined) == t
  {
    match s {
      case Name(name) => assert t.fields[name := t.fields[name]] == t.fields;
      case Index(i) => assert t.slots[i := t.slots[i]] == t.slots;
    }
  }

  /** Inserting below a place changes only what is at the place. */
  lemma {:induction false} InsertBelow(t: Tree, p: Path, x: Tree, q: Path, v: Val, fill: Val)
    requires Present(t, p)
    ensures Insert(Splice(t, p, x), p + q, v, fill) == Splice(t, p, Insert(x, q, v, fill))
    ensures Splice(t, p, Lookup(t, p)) == t
    decreases |p|
  {
    if p == [] {
      assert p + q == q;
    } else {
      var s, c := p[0], Child(t, p[0]);
      InsertBelow(c, p[1..], x, q, v, fill);
      PutPut(t, s, Splice(c, p[1..], x), Splice(c, p[1..], Insert(x, q, v, fill)), fill);
      assert (p + q)[0] == s && (p + q)[1..] == p[1..] + q;
    }
  }

  lemma {:induction false} SpliceLookup(t: Tree, p: Path, x: Tree, s: Segment)
    requires Present(t, p) && Within(x, s)
    ensures Lookup(Splice(t, p, x), p) == x
    ensures Present(Splice(t, p, x), p + [s]) && Lookup(Splice(t, p, x), p + [s]) == Child(x, s)
    decreases |p|
  {
    if p == [] {
      assert p + [s] == [s] && [s][1..] == [];
    } else {
      SpliceLookup(Child(t, p[0]), p[1..], x, s);
      PutPut(t, p[0], Splice(Child(t, p[0]), p[1..], x), x, Undefined);
      assert (p + [s])[0] == p[0] && (p + [s])[1..] == p[1..] + [s];
    }
  }

  lemma GrowthFresh(t: Tree, p: Path)
    requires Missing(t) && p != []
    ensures Growth(t, p) == Growth(Fresh(p[0]), p)
  {
  }

  /** Growing the place a key goes through does not change what inserting the key gives. */
  lemma InsertThroughFresh(x: Tree, q: Path, v: Val, fill: Val)
    requires |q| > 1 && Fits(x, q[0]) && Missing(Child(x, q[0])) && Absent(fill)
    ensures Insert(Put(x, q[0], Fresh(q[1]), fill), q, v, fill) == Insert(x, q, v, fill)
    ensures Growth(x, q).Some? ==> Growth(Fresh(q[1]), q[1..]).Some?
  {
    var s := q[0];
    var y := Put(x, s, Fresh(q[1]), fill);
    var below := Insert(Child(x, s), q[1..], v, fill);
    assert Base(Fresh(q[1]), q[1]) == Base(Child(x, s), q[1]) == Fresh(q[1]);
    assert Child(y, s) == Fresh(q[1]) && q[1..][0] == q[1];
    GrowthFresh(Child(x, s), q[1..]);
    assert Insert(Fresh(q[1]), q[1..], v, fill) == below;
    match s {
      case Name(name) => assert x.fields[name := Fresh(q[1])][name := below] == x.fields[name := below];
      case Index(i) => assert Put(y, s, below, fill).slots == Put(x, s, below, fill).slots;
    }
  }

  /** Where a place is reached from: entries of own cells, one segment at a time. */
  ghost predicate Reaches(cells: seq<Cell>, own: nat, i: nat, p: Path, c: nat)
    decreases |p|
  {
    own <= i < |cells|
    && if p == [] then i == c
       else CellFits(cells[i], p[0]) && IsOwn(cells, own, Entry(cells[i], p[0]))
            && Reaches(cells, own, Entry(cells[i], p[0]).at, p[1..], c)
  }

  lemma {:induction false} ReachesStep(cells: seq<Cell>, own: nat, i: nat, p: Path, c: nat, s: Segment)
    requires Reaches(cells, own, i, p, c) && c < |cells|
    requires CellFits(cells[c], s) && IsOwn(cells, own, Entry(cells[c], s))
    ensures Reaches(cells, own, i, p + [s], Entry(cells[c], s).at)
    decreases |p|
  {
    if p == [] {
      assert p + [s] == [s] && [s][1..] == [];
    } else {
      ReachesStep(cells, own, Entry(cells[i], p[0]).at, p[1..], c, s);
      assert (p + [s])[1..] == p[1..] + [s];
    }
  }

  /** The way to a cell does not go through it, so changing it keeps the way. */
  lemma {:induction false} ReachesKept(a: seq<Cell>, b: seq<Cell>, own: nat, pa: seq<Path>, pb: seq<Path>,
          i: nat, p: Path, c: nat)
    requires Agree(a, b, own, pa, pb, c) && Reaches(a, own, i, p, c) && pa[c] == pa[i] + p
    ensures Reaches(b, own, i, p, c)
    decreases |p|
  {
    if p != [] {
      var next := Entry(a[i], p[0]).at;
      assert i != c && b[i] == a[i];
      assert pa[next] == pa[i] + [p[0]] && pa[c] == pa[next] + p[1..];
      ReachesKept(a, b, own, pa, pb, next, p[1..], c);
    }
  }

  /** Changing one cell changes the tree at that cell's place, and nowhere else. */
  lemma {:induction false} AbsSplice(a: seq<Cell>, b: seq<Cell>, own: nat, pa: seq<Path>, pb: seq<Path>, i: nat, p: Path, c: nat)
    requires Agree(a, b, own, pa, pb, c) && Reaches(a, own, i, p, c) && pa[c] == pa[i] + p
    ensures Present(AbsCell(a, own, pa, i), p)
    ensures Lookup(AbsCell(a, own, pa, i), p) == AbsCell(a, own, pa, c)
    ensures AbsCell(b, own, pb, i) == Splice(AbsCell(a, own, pa, i), p, AbsCell(b, own, pb, c))
    decreases |p|
  {
    if p != [] {
      var s := p[0];
      var e := Entry(a[i], s);
      assert i != c && b[i] == a[i];
      assert pa[e.at] == pa[i] + [s] && pa[c] == pa[e.at] + p[1..];
      AbsSplice(a, b, own, pa, pb, e.at, p[1..], c);
      AbsChild(a, own, pa, i, s);
      forall o | CellFits(a[i], o) && o != s ensures Abs(b, own, pb, Entry(a[i], o)) == Abs(a, own, pa, Entry(a[i], o)) {
        var u := Entry(a[i], o);
        if IsOwn(a, own, u) {
          assert pa[u.at] == pa[i] + [o];
          assert pa[c][|pa[i]|] == s;
          assert pa[u.at][|pa[i]|] == o;
        }
        AbsSame(a, b, own, pa, pb, c, u);
      }
      CellPut(a, b, own, pa, pb, i, s);
    }
  }

  lemma CellPut(a: seq<Cell>, b: seq<Cell>, own: nat, pa: seq<Path>, pb: seq<Path>, i: nat, s: Segment)
    requires Placed(a, own, pa) && Placed(b, own, pb) && own <= i < |a| <= |b| && b[i] == a[i]
    requires CellFits(a[i], s) && IsOwn(a, own, Entry(a[i], s))
    requires forall o | CellFits(a[i], o) && o != s :: Abs(b, own, pb, Entry(a[i], o)) == Abs(a, own, pa, Entry(a[i], o))
    ensures Within(AbsCell(a, own, pa, i), s)
    ensures AbsCell(b, own, pb, i) == Put(AbsCell(a, own, pa, i), s, Abs(b, own, pb, Entry(a[i], s)), Undefined)
  {
    var t, u := AbsCell(a, own, pa, i), AbsCell(b, own, pb, i);
    match a[i] {
      case ObjCell(fields) =>
        forall k | k in fields && Name(k) != s ensures u.fields[k] == t.fields[k] {
          assert Entry(a[i], Name(k)) == fields[k];
        }
        assert u.fields == Put(t, s, Abs(b, own, pb, Entry(a[i], s)), Undefined).fields;
      case ArrCell(slots) =>
        forall k | 0 <= k < |slots| && Index(k) != s ensures u.slots[k] == t.slots[k] {
          assert Entry(a[i], Index(k)) == slots[k];
        }
        assert u.slots == Put(t, s, Abs(b, own, pb, Entry(a[i], s)), Undefined).slots;
    }
  }

  // ----- writing one entry of a cell -----

  /** A heap with entry `s` of cell `c` set, and perhaps one new cell at the end. */
  function WithEntry(cells: seq<Cell>, c: nat, s: Segment, v: Val, fill: Val, more: seq<Cell>): seq<Cell>
    requires c < |cells| && CellFits(cells[c], s)
  {
    cells[c := SetEntry(cells[c], s, v, fill)] + more
  }

  lemma EntrySet(c: Cell, s: Segment, v: Val, fill: Val, o: Segment)
    requires CellFits(c, s) && Absent(fill)
    ensures CellFits(SetEntry(c, s, v, fill), o) <==> CellFits(c, o)
    ensures CellFits(c, o) ==>
              if o == s then Entry(SetEntry(c, s, v, fill), o) == v
              else Entry(SetEntry(c, s, v, fill), o) == Entry(c, o)
                   || (Absent(Entry(c, o)) && Absent(Entry(SetEntry(c, s, v, fill), o)))
  {
  }

  lemma PlacedWithLeaf(cells: seq<Cell>, own: nat, places: seq<Path>, c: nat, s: Segment, v: Val, fill: Val)
    requires Placed(cells, own, places) && own <= c < |cells| && CellFits(cells[c], s)
    requires Absent(fill) && !(v.Ref? && own <= v.at)
    ensures Agree(cells, WithEntry(cells, c, s, v, fill, []), own, places, places, c)
  {
    var b := WithEntry(cells, c, s, v, fill, []);
    forall i: nat, o: Segment | own <= i < |b| && CellFits(b[i], o) && Entry(b[i], o).Ref? && own <= Entry(b[i], o).at
      ensures i < Entry(b[i], o).at < |b| && places[Entry(b[i], o).at] == places[i] + [o]
    {
      EntrySet(cells[c], s, v, fill, o);
      assert Entry(cells[i], o) == Entry(b[i], o);
    }
  }

  lemma PlacedWithCell(cells: seq<Cell>, own: nat, places: seq<Path>, c: nat, s: Segment, fill: Val, next: Segment)
    requires Placed(cells, own, places) && own <= c < |cells| && CellFits(cells[c], s) && Absent(fill)
    ensures Agree(cells, WithEntry(cells, c, s, Ref(|cells|), fill, [FreshCell(next)]), own,
                  places, places + [places[c] + [s]], c)
  {
    var b, pb := WithEntry(cells, c, s, Ref(|cells|), fill, [FreshCell(next)]), places + [places[c] + [s]];
    forall i: nat, o: Segment | own <= i < |b| && CellFits(b[i], o) && Entry(b[i], o).Ref? && own <= Entry(b[i], o).at
      ensures i < Entry(b[i], o).at < |b| && pb[Entry(b[i], o).at] == pb[i] + [o]
    {
      EntrySet(cells[c], s, Ref(|cells|), fill, o);
      assert i < |cells|;
      assert (i == c && o == s) || Entry(cells[i], o) == Entry(b[i], o);
    }
  }

  /** The changed cell itself: its tree with the entry put in. */
  lemma AbsWithEntry(a: seq<Cell>, own: nat, pa: seq<Path>, pb: seq<Path>, c: nat, s: Segment, v: Val, fill: Val, more: seq<Cell>)
    requires own <= c < |a| && CellFits(a[c], s) && Absent(fill)
    requires Agree(a, WithEntry(a, c, s, v, fill, more), own, pa, pb, c)
    ensures var b := WithEntry(a, c, s, v, fill, more);
            AbsCell(b, own, pb, c) == Put(AbsCell(a, own, pa, c), s, Abs(b, own, pb, v), fill)
  {
    var b := WithEntry(a, c, s, v, fill, more);
    forall o | CellFits(a[c], o) ensures Abs(b, own, pb, Entry(a[c], o)) == Abs(a, own, pa, Entry(a[c], o)) {
      var u := Entry(a[c], o);
      if IsOwn(a, own, u) {
        assert pa[u.at] == pa[c] + [o];
      }
      AbsSame(a, b, own, pa, pb, c, u);
    }
    var t, u := AbsCell(a, own, pa, c), AbsCell(b, own, pb, c);
    match s {
      case Name(name) =>
        forall k | k in a[c].fields ensures Abs(b, own, pb, a[c].fields[k]) == Abs(a, own, pa, a[c].fields[k]) {
          assert Entry(a[c], Name(k)) == a[c].fields[k];
        }
        assert u.fields == Put(t, s, Abs(b, own, pb, v), fill).fields;
      case Index(i) =>
        forall k | 0 <= k < |a[c].slots| ensures Abs(b, own, pb, a[c].slots[k]) == Abs(a, own, pa, a[c].slots[k]) {
          assert Entry(a[c], Index(k)) == a[c].slots[k];
        }
        var w := Put(t, s, Abs(b, own, pb, v), fill);
        assert Abs(b, own, pb, fill) == Leaf(fill);
        forall k | 0 <= k < |u.slots| ensures u.slots[k] == w.slots[k] {
          assert u.slots[k] == Abs(b, own, pb, b[c].slots[k]);
        }
        assert u.slots == w.slots;
    }
  }

  // ----- what each step of write does to the tree -----

  /** write at `segments[i]`, about to work on the container `c` it has reached. */
  ghost predicate Writing(cells: seq<Cell>, own: nat, places: seq<Path>, c: nat, segments: Path, i: nat, v: Val, fill: Val, goal: Tree) {
    Placed(cells, own, places) && own <= c < |cells| && i < |segments| && Absent(fill)
    && Reaches(cells, own, own, segments[..i], c) && places[c] == segments[..i]
    && Growth(AbsCell(cells, own, places, c), segments[i..]).Some?
    && Insert(AbsCell(cells, own, places, own), segments, v, fill) == goal
  }

  lemma WriteStart(cells: seq<Cell>, own: nat, places: seq<Path>, segments: Path, v: Val, fill: Val)
    requires Placed(cells, own, places) && segments != [] && Absent(fill)
    requires Growth(AbsCell(cells, own, places, own), segments).Some?
    ensures Writing(cells, own, places, own, segments, 0, v, fill, Insert(AbsCell(cells, own, places, own), segments, v, fill))
  {
    assert segments[..0] == [] && segments[0..] == segments;
  }

  lemma WritingShape(cells: seq<Cell>, own: nat, places: seq<Path>, c: nat, segments: Path, i: nat, v: Val, fill: Val, goal: Tree)
    requires Writing(cells, own, places, c, segments, i, v, fill, goal)
    ensures own <= c < |cells| == |places| && i < |segments| && CellFits(cells[c], segments[i])
  {
    AbsChild(cells, own, places, c, segments[i]);
  }

  lemma WriteLast(a: seq<Cell>, own: nat, pa: seq<Path>, c: nat, segments: Path, i: nat, v: Val, fill: Val, goal: Tree)
    requires Writing(a, own, pa, c, segments, i, v, fill, goal) && i == |segments| - 1
    requires CellFits(a[c], segments[i]) && !(v.Ref? && own <= v.at)
    ensures var b := WithEntry(a, c, segments[i], v, fill, []);
            Placed(b, own, pa) && AbsCell(b, own, pa, own) == goal
  {
    var p, s := segments[..i], segments[i];
    var b := WithEntry(a, c, s, v, fill, []);
    var t, x := AbsCell(a, own, pa, own), AbsCell(a, own, pa, c);
    assert segments == p + [s];
    PlacedWithLeaf(a, own, pa, c, s, v, fill);
    AbsSplice(a, b, own, pa, pa, own, p, c);
    AbsWithEntry(a, own, pa, pa, c, s, v, fill, []);
    AbsChild(a, own, pa, c, s);
    InsertBelow(t, p, x, [s], v, fill);
    InsertOne(x, s, v, fill);
  }

  lemma InsertOne(x: Tree, s: Segment, v: Val, fill: Val)
    requires Fits(x, s)
    ensures Insert(x, [s], v, fill) == Put(x, s, Leaf(v), fill)
  {
    assert [s][1..] == [];
  }

  lemma WriteFresh(a: seq<Cell>, own: nat, pa: seq<Path>, c: nat, segments: Path, i: nat, v: Val, fill: Val, goal: Tree)
    requires Writing(a, own, pa, c, segments, i, v, fill, goal) && i + 1 < |segments|
    requires CellFits(a[c], segments[i]) && Absent(Entry(a[c], segments[i]))
    ensures var b, pb := WithEntry(a, c, segments[i], Ref(|a|), fill, [FreshCell(segments[i + 1])]), pa + [segments[..i + 1]];
            Placed(b, own, pb) && Writing(b, own, pb, |a|, segments, i + 1, v, fill, goal)
  {
    hide Insert, Growth, AbsCell;
    var p, q, s := segments[..i], segments[i..], segments[i];
    assert segments == p + q && q[0] == s && q[1] == segments[i + 1] && segments[..i + 1] == p + [s] && q[1..] == segments[i + 1..];
    var b, pb := WithEntry(a, c, s, Ref(|a|), fill, [FreshCell(q[1])]), pa + [p + [s]];
    var t, x := AbsCell(a, own, pa, own), AbsCell(a, own, pa, c);
    PlacedWithCell(a, own, pa, c, s, fill, q[1]);
    AbsSplice(a, b, own, pa, pb, own, p, c);
    AbsWithEntry(a, own, pa, pb, c, s, Ref(|a|), fill, [FreshCell(q[1])]);
    FreshAbs(b, own, pb, |a|, q[1]);
    AbsChild(a, own, pa, c, s);
    InsertThroughFresh(x, q, v, fill);
    InsertBelow(t, p, x, q, v, fill);
    InsertBelow(t, p, AbsCell(b, own, pb, c), q, v, fill);
    ReachesKept(a, b, own, pa, pb, own, p, c);
    EntrySet(a[c], s, Ref(|a|), fill, s);
    ReachesStep(b, own, own, p, c, s);
  }

  lemma FreshAbs(b: seq<Cell>, own: nat, pb: seq<Path>, i: nat, s: Segment)
    requires Placed(b, own, pb) && own <= i < |b| && b[i] == FreshCell(s)
    ensures AbsCell(b, own, pb, i) == Fresh(s)
  {
    if s.Name? { assert AbsCell(b, own, pb, i).fields == map[]; }
  }

  lemma WriteEnter(a: seq<Cell>, own: nat, pa: seq<Path>, c: nat, segments: Path, i: nat, v: Val, fill: Val, goal: Tree)
    requires Writing(a, own, pa, c, segments, i, v, fill, goal) && i + 1 < |segments|
    requires CellFits(a[c], segments[i]) && !Absent(Entry(a[c], segments[i]))
    ensures var next := Entry(a[c], segments[i]);
            next.Ref? && Writing(a, own, pa, next.at, segments, i + 1, v, fill, goal)
  {
    var p, q := segments[..i], segments[i..];
    assert q[0] == segments[i] && q[1..] == segments[i + 1..] && segments[..i + 1] == p + [q[0]];
    AbsChild(a, own, pa, c, q[0]);
    assert q[1..][0] == q[1];
    GrowthFits(Child(AbsCell(a, own, pa, c), q[0]), q[1..]);
    ReachesStep(a, own, own, p, c, q[0]);
  }

  lemma GrowthFits(x: Tree, q: Path)
    requires q != [] && !Missing(x) && Growth(x, q).Some?
    ensures Fits(x, q[0])
  {
  }

  lemma GrowthMissing(t: Tree, u: Tree, p: Path)
    requires Missing(t) && Missing(u)
    ensures Growth(t, p) == Growth(u, p)
  {
  }

  lemma PadThenSet(c: Cell, padded: Cell, s: Segment, v: Val, padLists: bool)
    requires CellFits(c, s)
    requires if padLists && s.Index?
             then padded.ArrCell? && |padded.slots| == (if |c.slots| <= s.index then s.index + 1 else |c.slots|)
                  && forall j :: 0 <= j < |padded.slots| ==> padded.slots[j] == if j < |c.slots| then c.slots[j] else Null
             else padded == c
    ensures CellFits(padded, s) && SetEntry(padded, s, v, Undefined) == SetEntry(c, s, v, Fill(padLists))
    ensures Entry(padded, s) == Entry(c, s) || (Absent(Entry(padded, s)) && Absent(Entry(c, s)))
  {
    if padLists && s.Index? {
      assert SetEntry(padded, s, v, Undefined).slots == SetEntry(c, s, v, Null).slots;
    }
  }

  // ----- the rebuild on the heap -----

  class FlatKeyHeap {
    /** Every object and list there is: the caller's own first, then what this rebuild made. */
    var cells: seq<Cell>
    /** The references of what this rebuild made; only these are entered. */
    var created: set<nat>
    var slots: nat
    var dropped: seq<Dropped>
    const root: nat
    ghost var places: seq<Path>

    ghost predicate Valid()
      reads this
    {
      Placed(cells, root, places) && forall i: nat :: i in created <==> root <= i < |cells|
    }

    ghost function Value(): Tree
      reads this
      requires Valid()
    {
      AbsCell(cells, root, places, root)
    }

    ghost function State(): Progress
      reads this
      requires Valid()
    {
      Progress(Value(), slots, dropped)
    }

    /** A fresh result object on a heap that holds the caller's objects, whatever they refer to. */
    constructor (callerCells: seq<Cell>)
      ensures Valid() && State() == START && root == |callerCells| && cells[..root] == callerCells
    {
      root := |callerCells|;
      cells := callerCells + [ObjCell(map[])];
      created := {|callerCells|};
      slots := 0;
      dropped := [];
      places := seq(|callerCells|, _ => []) + [[]];
      new;
      assert AbsCell(cells, root, places, root).fields == map[];
    }

    /** growthOf: the list entries that writing the key would add, or none for a conflict. */
    method GrowthOf(segments: Path) returns (growth: Option<nat>)
      requires Valid() && segments != []
      ensures growth == Growth(Value(), segments)
    {
      var current: Val := Ref(root);
      var total := 0;
      assert segments[0..] == segments;
      for i := 0 to |segments|
        invariant Known(cells, root, current)
        invariant i == |segments| ==> Absent(current)
        invariant match Growth(Abs(cells, root, places, current), segments[i..])
                  case None => Growth(Value(), segments) == None
                  case Some(g) => Growth(Value(), segments) == Some(total + g)
      {
        var seg := segments[i];
        ghost var rest := segments[i..];
        assert rest[0] == seg && rest[1..] == segments[i + 1..];
        ghost var t := Abs(cells, root, places, current);
        if Absent(current) {
          GrowthMissing(t, NOTHING, rest[1..]);
          if seg.Index? {
            total := total + seg.index + 1;
          }
          continue;
        }
        if !current.Ref? || current.at !in created {
          return None;
        }
        var cell := cells[current.at];
        AbsChild(cells, root, places, current.at, seg);
        if seg.Index? != cell.ArrCell? {
          return None;
        }
        if seg.Index? && seg.index >= |cell.slots| {
          total := total + (seg.index + 1 - |cell.slots|);
        }
        var child := Entry(cell, seg);
        if i == |segments| - 1 && !Absent(child) {
          assert rest[1..] == [];
          return None;
        }
        current := child;
      }
      assert segments[|segments|..] == [];
      return Some(total);
    }

    /** write: every container on the way is made or entered, then the last entry is set. */
    method Write(segments: Path, value: Val, padLists: bool)
      requires Valid() && segments != [] && Growth(Value(), segments).Some?
      requires !(value.Ref? && root <= value.at)
      modifies this
      ensures Valid() && Value() == Insert(old(Value()), segments, value, Fill(padLists))
      ensures slots == old(slots) && dropped == old(dropped)
      ensures root <= |cells| && cells[..root] == old(cells[..root])
    {
      PlacedShape(cells, root, places);
      ghost var fill := Fill(padLists);
      ghost var goal := Insert(Value(), segments, value, fill);
      WriteStart(cells, root, places, segments, value, fill);
      hide Placed, Growth, Insert, AbsCell, Writing, Entry, SetEntry, Fill;
      var current := root;
      for i := 0 to |segments|
        invariant Valid() && root <= |cells|
        invariant cells[..root] == old(cells[..root]) && slots == old(slots) && dropped == old(dropped)
        invariant if i < |segments| then Writing(cells, root, places, current, segments, i, value, fill, goal)
                  else Value() == goal
      {
        if i == |segments| - 1 {
          SetLast(current, segments, value, padLists, goal);
        } else {
          current := Descend(current, segments, i, padLists, value, goal);
        }
      }
    }

    /** The last step of write: the entry itself. */
    method SetLast(current: nat, segments: Path, value: Val, padLists: bool, ghost goal: Tree)
      requires Valid() && segments != [] && !(value.Ref? && root <= value.at)
      requires Writing(cells, root, places, current, segments, |segments| - 1, value, Fill(padLists), goal)
      modifies this`cells
      ensures Valid() && Value() == goal
      ensures root <= |cells| && root <= |old(cells)| && cells[..root] == old(cells[..root])
    {
      ghost var fill, a := Fill(padLists), cells;
      var seg := segments[|segments| - 1];
      WritingShape(cells, root, places, current, segments, |segments| - 1, value, fill, goal);
      WriteLast(a, root, places, current, segments, |segments| - 1, value, fill, goal);
      hide Placed, Growth, Insert, AbsCell, Writing, Entry, SetEntry, Fill;
      var cell := PadList(cells[current], seg, padLists);
      cells := cells[current := SetEntry(cell, seg, value, Undefined)];
      assert cells == WithEntry(a, current, seg, value, fill, []);
    }

    /** Any other step: the container at the entry, made when there is none. */
    method Descend(current: nat, segments: Path, i: nat, padLists: bool, ghost value: Val, ghost goal: Tree) returns (next: nat)
      requires Valid() && i + 1 < |segments|
      requires Writing(cells, root, places, current, segments, i, value, Fill(padLists), goal)
      modifies this`cells, this`created, this`places
      ensures Valid() && Writing(cells, root, places, next, segments, i + 1, value, Fill(padLists), goal)
      ensures root <= |cells| && root <= |old(cells)| && cells[..root] == old(cells[..root])
    {
      ghost var fill, a := Fill(padLists), cells;
      var seg := segments[i];
      WritingShape(cells, root, places, current, segments, i, value, fill, goal);
      hide Placed, Growth, Insert, AbsCell, Writing, Entry, SetEntry, Fill;
      var cell := PadList(cells[current], seg, padLists);
      var child := Entry(cell, seg);
      if Absent(child) {
        WriteFresh(a, root, places, current, segments, i, value, fill, goal);
        next := |cells|;
        created := created + {next};
        cells := cells[current := SetEntry(cell, seg, Ref(next), Undefined)] + [FreshCell(segments[i + 1])];
        places := places + [segments[..i + 1]];
        assert cells == WithEntry(a, current, seg, Ref(next), fill, [FreshCell(segments[i + 1])]);
      } else {
        WriteEnter(a, root, places, current, segments, i, value, fill, goal);
        next := child.at;
      }
    }

    /** The list with null up to the index, when lists are padded. */
    static method PadList(c: Cell, s: Segment, padLists: bool) returns (cell: Cell)
      requires CellFits(c, s)
      ensures CellFits(cell, s) && forall v: Val :: SetEntry(cell, s, v, Undefined) == SetEntry(c, s, v, Fill(padLists))
      ensures Entry(cell, s) == Entry(c, s) || (Absent(Entry(cell, s)) && Absent(Entry(c, s)))
    {
      cell := c;
      if padLists && c.ArrCell? {
        while |cell.slots| <= s.index
          invariant cell.ArrCell? && |c.slots| <= |cell.slots|
          invariant |cell.slots| <= s.index + 1 || cell == c
          invariant forall j :: 0 <= j < |cell.slots| ==> cell.slots[j] == if j < |c.slots| then c.slots[j] else Null
        {
          cell := ArrCell(cell.slots + [Null]);
        }
      }
      forall v: Val ensures SetEntry(cell, s, v, Undefined) == SetEntry(c, s, v, Fill(padLists)) {
        PadThenSet(c, cell, s, v, padLists);
      }
      PadThenSet(c, cell, s, Undefined, padLists);
    }

    /** One key: written, or added to the report. */
    method TakeKey(key: string, value: Val, padLists: bool)
      requires Valid() && !(value.Ref? && root <= value.at)
      modifies this
      ensures Valid() && State() == Step(old(State()), key, value, padLists)
      ensures root <= |cells| && root <= |old(cells)| && cells[..root] == old(cells[..root])
    {
      PlacedShape(cells, root, places);
      hide Placed, Growth, Insert, AbsCell, ParseFrom;
      var parsed := ParseFlatKey(key);
      if parsed.Err? {
        dropped := dropped + [Dropped(key, parsed.error)];
        return;
      }
      ParseKeepsLimits(key, []);
      var growth := GrowthOf(parsed.value);
      if growth.None? {
        dropped := dropped + [Dropped(key, Conflict)];
        return;
      }
      if slots + growth.value > MAX_LIST_SLOTS {
        dropped := dropped + [Dropped(key, Budget)];
        return;
      }
      slots := slots + growth.value;
      Write(parsed.value, value, padLists);
    }

    /** unflattenFlatKeys over the record's keys, which arrive in any order. */
    method Unflatten(arrival: seq<string>, flat: map<string, Val>, leaf: Val -> Val, padLists: bool)
      requires Valid() && State() == START
      requires Distinct(arrival) && forall key :: key in arrival <==> key in flat
      requires forall key :: key in flat ==> !(leaf(flat[key]).Ref? && root <= leaf(flat[key]).at)
      modifies this
      ensures Valid() && forall k :: 0 <= k < |Sort(arrival)| ==> Sort(arrival)[k] in flat
      ensures State() == Rebuild(Sort(arrival), map key | key in flat :: leaf(flat[key]), padLists)
      ensures root <= |cells| && cells[..root] == old(cells[..root])
    {
      PlacedShape(cells, root, places);
      assert root <= |cells|;
      hide Valid, Placed, AbsCell, Rebuild, Sort, Step, Distinct;
      var keys := Sort(arrival);
      SortKeepsMembers(arrival);
      ghost var values := map key | key in flat :: leaf(flat[key]);
      RebuildSnoc(keys, 0, values, padLists);
      for i := 0 to |keys|
        invariant Valid() && root <= |cells| && State() == Rebuild(keys[..i], values, padLists)
        invariant cells[..root] == old(cells[..root])
      {
        var key := keys[i];
        assert values[key] == leaf(flat[key]);
        RebuildSnoc(keys, i, values, padLists);
        TakeKey(key, leaf(flat[key]), padLists);
      }
      assert keys[..|keys|] == keys;
    }
  }

  lemma RebuildSnoc(keys: seq<string>, i: nat, values: map<string, Val>, padLists: bool)
    requires i <= |keys| && forall k :: 0 <= k < |keys| ==> keys[k] in values
    ensures i < |keys| ==> Rebuild(keys[..i + 1], values, padLists)
                           == Step(Rebuild(keys[..i], values, padLists), keys[i], values[keys[i]], padLists)
    ensures Rebuild(keys[..0], values, padLists) == START
  {
    if i < |keys| {
      assert keys[..i + 1][..i] == keys[..i];
    }
  }

  lemma PlacedShape(cells: seq<Cell>, own: nat, places: seq<Path>)
    requires Placed(cells, own, places)
    ensures own < |cells| == |places| && places[own] == []
  {
  }
}
