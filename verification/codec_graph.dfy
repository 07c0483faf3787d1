/** When the encoder succeeds on an arbitrary heap graph, and what it then writes. */
module CodecGraph {
  import opened Core
  import opened CodecTree
  import opened CodecHeap

  /** A finite unfolding of a value: the objects in the order in which they are reached. */
  datatype Unfolding = Atom(p: Prim) | Cell(ref: Ref, kids: seq<Unfolding>)

  ghost predicate Unfolds(h: Heap, v: Value, u: Unfolding)
    decreases u
  {
    match u
    case Atom(p) => v == Plain(p)
    case Cell(ref, us) =>
      && v == Object(ref) && ref in h && |h[ref].kids| == |us|
      && forall i :: 0 <= i < |us| ==> Unfolds(h, h[ref].kids[i], us[i])
  }

  ghost predicate UnfoldAll(h: Heap, vs: seq<Value>, us: seq<Unfolding>) {
    |vs| == |us| && forall i :: 0 <= i < |us| ==> Unfolds(h, vs[i], us[i])
  }

  function Reached(u: Unfolding): seq<Ref>
    decreases u
  {
    match u
    case Atom(_) => []
    case Cell(ref, us) => [ref] + ReachedAll(us)
  }

  function ReachedAll(us: seq<Unfolding>): seq<Ref>
    decreases us
  {
    if us == [] then [] else ReachedAll(us[..|us|-1]) + Reached(us[|us|-1])
  }

  ghost predicate NoRepeat(refs: seq<Ref>) {
    forall i, j :: 0 <= i < j < |refs| ==> refs[i] != refs[j]
  }

  ghost predicate Fresh(refs: seq<Ref>, seen: set<Ref>) {
    NoRepeat(refs) && forall r :: r in refs ==> r !in seen
  }

  ghost predicate ValidDates(h: Heap, refs: seq<Ref>) {
    forall r :: r in refs && r in h ==> h[r].shape != Shaped(DateKind(None))
  }

  function RefSet(refs: seq<Ref>): set<Ref> {
    set r | r in refs
  }

  /** The tree that the encoder keeps of an unfolding. */
  function Kept(h: Heap, u: Unfolding): Option<Tree>
    decreases u
  {
    match u
    case Atom(p) => if Unsaveable(p) then None else Some(Leaf(p))
    case Cell(ref, us) => if ref in h then Some(Save(h[ref].shape, KeptAll(h, us))) else None
  }

  function KeptAll(h: Heap, us: seq<Unfolding>): (r: seq<Option<Tree>>)
    ensures |r| == |us|
    decreases us
  {
    if us == [] then [] else KeptAll(h, us[..|us|-1]) + [Kept(h, us[|us|-1])]
  }

  // ----- Assembling JSON is writing the saved tree ----------------------------

  function WriteOption(e: Engine, o: Option<Tree>): Option<Json> {
    if o.Some? then Some(Write(e, o.value)) else None
  }

  function WriteOptions(e: Engine, os: seq<Option<Tree>>): seq<Option<Json>> {
    seq(|os|, i requires 0 <= i < |os| => WriteOption(e, os[i]))
  }

  lemma {:induction false} PairsWrite(e: Engine, os: seq<Option<Tree>>)
    ensures Pairs(WriteOptions(e, os)) == WriteAll(e, Pairs(os))
  {
    if |os| >= 2 {
      PairsWrite(e, os[2..]);
      assert WriteOptions(e, os)[2..] == WriteOptions(e, os[2..]);
    }
  }

  lemma {:induction false} PresentWrite(e: Engine, os: seq<Option<Tree>>)
    ensures Present(WriteOptions(e, os)) == WriteAll(e, Present(os))
  {
    if os != [] {
      PresentWrite(e, os[1..]);
      assert WriteOptions(e, os)[1..] == WriteOptions(e, os[1..]);
    }
  }

  lemma {:induction false} AssignWrite(e: Engine, keys: seq<string>, os: seq<Option<Tree>>)
    ensures var m := Assign(keys, os);
      Assign(keys, WriteOptions(e, os)) == map k | k in m :: Write(e, m[k])
  {
    if keys != [] && os != [] {
      AssignWrite(e, keys[1..], os[1..]);
      assert WriteOptions(e, os)[1..] == WriteOptions(e, os[1..]);
    }
  }

  lemma AssembleWrites(e: Engine, shape: Shape, os: seq<Option<Tree>>)
    ensures Assemble(e, shape, WriteOptions(e, os)) == Write(e, Save(shape, os))
  {
    var w := WriteOptions(e, os);
    match shape
    case Fields(keys) => AssignWrite(e, keys, os);
    case Shaped(kind) =>
      var t := SaveNode(kind, os);
      assert Write(e, t) == WriteNode(e, kind, WriteAll(e, t.kids));
      match kind
      case MapKind => PairsWrite(e, os);
      case SetKind => PresentWrite(e, os);
      case ArrayKind => assert OrElse(w, JNull) == WriteAll(e, OrElse(os, Leaf(Null)));
      case _ =>
  }

  // ----- Success gives an unfolding; an unfolding gives success -----------------

  lemma FreshSplit(a: seq<Ref>, b: seq<Ref>, seen: set<Ref>)
    ensures Fresh(a + b, seen) <==> Fresh(a, seen) && Fresh(b, seen + RefSet(a))
    ensures RefSet(a + b) == RefSet(a) + RefSet(b)
  {
    var c := a + b;
    if Fresh(c, seen) {
      assert forall i :: 0 <= i < |a| ==> c[i] == a[i];
      assert forall j :: 0 <= j < |b| ==> c[|a| + j] == b[j];
      assert forall r :: r in a || r in b ==> r in c;
    } else if Fresh(a, seen) && Fresh(b, seen + RefSet(a)) {
      forall i, j | 0 <= i < j < |c| ensures c[i] != c[j] {
        if i < |a| <= j {
          assert c[i] in RefSet(a) && c[j] in b;
        }
      }
    }
  }

  /** A value with a finite unfolding that reaches no object twice is encoded, as the tree kept of it. */
  lemma {:induction false} TagFollows(e: Engine, h: Heap, v: Value, u: Unfolding, seen: set<Ref>)
    requires Unfolds(h, v, u) && Fresh(Reached(u), seen) && ValidDates(h, Reached(u))
    ensures Tag(e, h, v, seen) == (OfOption(WriteOption(e, Kept(h, u))), seen + RefSet(Reached(u)))
    decreases u
  {
    match u
    case Atom(_) => assert seen + RefSet([]) == seen;
    case Cell(ref, us) =>
      var obj := h[ref];
      assert Reached(u)[0] == ref;
      FreshSplit([ref], ReachedAll(us), seen);
      assert RefSet([ref]) == {ref};
      TagAllFollows(e, h, obj.kids, us, seen + {ref});
      AssembleWrites(e, obj.shape, KeptAll(h, us));
      assert seen + RefSet(Reached(u)) == seen + {ref} + RefSet(ReachedAll(us));
  }

  lemma {:induction false} TagAllFollows(e: Engine, h: Heap, vs: seq<Value>, us: seq<Unfolding>, seen: set<Ref>)
    requires UnfoldAll(h, vs, us) && Fresh(ReachedAll(us), seen) && ValidDates(h, ReachedAll(us))
    ensures TagAll(e, h, vs, seen) == (Some(WriteOptions(e, KeptAll(h, us))), seen + RefSet(ReachedAll(us)))
    decreases us
  {
    if us == [] {
      assert seen + RefSet([]) == seen;
    } else {
      var n := |us| - 1;
      var a, b := ReachedAll(us[..n]), Reached(us[n]);
      FreshSplit(a, b, seen);
      TagAllFollows(e, h, vs[..n], us[..n], seen);
      TagFollows(e, h, vs[n], us[n], seen + RefSet(a));
      assert WriteOptions(e, KeptAll(h, us))
          == WriteOptions(e, KeptAll(h, us[..n])) + [WriteOption(e, Kept(h, us[n]))];
      assert seen + RefSet(a + b) == seen + RefSet(a) + RefSet(b);
    }
  }

  /** An encoded value has such an unfolding. */
  lemma {:induction false} TagUnfolds(e: Engine, h: Heap, v: Value, seen: set<Ref>) returns (u: Unfolding)
    requires !Tag(e, h, v, seen).0.Threw?
    ensures Unfolds(h, v, u) && Fresh(Reached(u), seen) && ValidDates(h, Reached(u))
    ensures Tag(e, h, v, seen).1 == seen + RefSet(Reached(u))
    decreases h.Keys - seen, 0
  {
    match v
    case Plain(p) =>
      u := Atom(p);
      assert seen + RefSet([]) == seen;
    case Object(ref) =>
      var obj := h[ref];
      assert ref in h.Keys - seen;
      var us := TagAllUnfolds(e, h, obj.kids, seen + {ref});
      u := Cell(ref, us);
      FreshSplit([ref], ReachedAll(us), seen);
      assert RefSet([ref]) == {ref};
      assert seen + RefSet(Reached(u)) == seen + {ref} + RefSet(ReachedAll(us));
  }

  lemma {:induction false} TagAllUnfolds(e: Engine, h: Heap, vs: seq<Value>, seen: set<Ref>)
    returns (us: seq<Unfolding>)
    requires TagAll(e, h, vs, seen).0.Some?
    ensures UnfoldAll(h, vs, us) && Fresh(ReachedAll(us), seen) && ValidDates(h, ReachedAll(us))
    ensures TagAll(e, h, vs, seen).1 == seen + RefSet(ReachedAll(us))
    decreases h.Keys - seen, |vs|
  {
    if vs == [] {
      us := [];
      assert seen + RefSet([]) == seen;
    } else {
      var n := |vs| - 1;
      var front := TagAllUnfolds(e, h, vs[..n], seen);
      var s1 := seen + RefSet(ReachedAll(front));
      assert h.Keys - s1 <= h.Keys - seen;
      var last := TagUnfolds(e, h, vs[n], s1);
      us := front + [last];
      assert us[..n] == front;
      FreshSplit(ReachedAll(front), Reached(last), seen);
    }
  }

  /** A finite unfolding that reaches no object twice and no invalid date. */
  ghost predicate TreeShaped(h: Heap, v: Value, u: Unfolding) {
    Unfolds(h, v, u) && NoRepeat(Reached(u)) && ValidDates(h, Reached(u))
  }

  /** On every heap, cyclic or shared: the encoder succeeds exactly on the values that unfold into
      a finite tree reaching no object twice and no invalid date, and then it writes the tree kept of it. */
  lemma EncodesExactly(e: Engine, h: Heap, v: Value)
    ensures !Tag(e, h, v, {}).0.Threw? <==> exists u :: TreeShaped(h, v, u)
    ensures forall u :: TreeShaped(h, v, u) ==> Tag(e, h, v, {}).0 == OfOption(WriteOption(e, Kept(h, u)))
  {
    if !Tag(e, h, v, {}).0.Threw? {
      var u := TagUnfolds(e, h, v, {});
      assert TreeShaped(h, v, u);
    }
    forall u | TreeShaped(h, v, u)
      ensures Tag(e, h, v, {}).0 == OfOption(WriteOption(e, Kept(h, u)))
    {
      TagFollows(e, h, v, u, {});
    }
  }

  // ----- Cycles -------------------------------------------------------------------

  /** A path of references, each object holding the next. */
  ghost predicate IsPath(h: Heap, path: seq<Ref>) {
    && (forall i :: 0 <= i < |path| ==> path[i] in h)
    && forall i :: 0 <= i < |path| - 1 ==> Object(path[i+1]) in h[path[i]].kids
  }

  lemma {:induction false} ReachedMember(us: seq<Unfolding>, i: nat)
    requires i < |us|
    ensures forall r :: r in Reached(us[i]) ==> r in ReachedAll(us)
    ensures NoRepeat(ReachedAll(us)) ==> NoRepeat(Reached(us[i]))
  {
    var n := |us| - 1;
    var a, b := ReachedAll(us[..n]), Reached(us[n]);
    FreshSplit(a, b, {});
    if i < n {
      ReachedMember(us[..n], i);
    }
  }

  lemma {:induction false} PathIsReached(h: Heap, u: Unfolding, path: seq<Ref>)
    requires path != [] && IsPath(h, path) && Unfolds(h, Object(path[0]), u)
    ensures forall i :: 0 <= i < |path| ==> path[i] in Reached(u)
    decreases |path|
  {
    assert u.Cell? && Reached(u)[0] == path[0];
    if |path| > 1 {
      var i :| 0 <= i < |h[path[0]].kids| && h[path[0]].kids[i] == Object(path[1]);
      PathIsReached(h, u.kids[i], path[1..]);
      ReachedMember(u.kids, i);
      assert forall j :: 1 <= j < |path| ==> path[j] == path[1..][j-1];
    }
  }

  lemma {:induction false} CycleRepeats(h: Heap, u: Unfolding, path: seq<Ref>, i: nat, j: nat)
    requires i < j < |path| && path[i] == path[j]
    requires IsPath(h, path) && Unfolds(h, Object(path[0]), u)
    ensures !NoRepeat(Reached(u))
    decreases |path|
  {
    var k :| 0 <= k < |h[path[0]].kids| && h[path[0]].kids[k] == Object(path[1]);
    var tail := path[1..];
    ReachedMember(u.kids, k);
    FreshSplit([u.ref], ReachedAll(u.kids), {});
    if i == 0 {
      PathIsReached(h, u.kids[k], tail);
      assert tail[j-1] == path[0];
      assert path[0] in ReachedAll(u.kids);
      assert RefSet([u.ref]) == {u.ref};
    } else {
      CycleRepeats(h, u.kids[k], tail, i - 1, j - 1);
    }
  }

  /** A value from which a cycle can be reached throws. */
  lemma CyclicThrows(e: Engine, h: Heap, path: seq<Ref>, i: nat, j: nat)
    requires i < j < |path| && path[i] == path[j] && IsPath(h, path)
    ensures Tag(e, h, Object(path[0]), {}).0.Threw?
  {
    if !Tag(e, h, Object(path[0]), {}).0.Threw? {
      var u := TagUnfolds(e, h, Object(path[0]), {});
      CycleRepeats(h, u, path, i, j);
    }
  }

  lemma {:induction false} PrefixNoRepeat(us: seq<Unfolding>, k: nat)
    requires k <= |us| && NoRepeat(ReachedAll(us))
    ensures NoRepeat(ReachedAll(us[..k]))
  {
    if k == |us| {
      assert us[..k] == us;
    } else {
      var n := |us| - 1;
      FreshSplit(ReachedAll(us[..n]), Reached(us[n]), {});
      PrefixNoRepeat(us[..n], k);
      assert us[..n][..k] == us[..k];
    }
  }

  lemma SharedRepeats(h: Heap, u: Unfolding, a: Ref, i: nat, j: nat)
    requires Unfolds(h, Object(a), u)
    requires i < j < |h[a].kids| && h[a].kids[i] == h[a].kids[j] && h[a].kids[i].Object?
    ensures !NoRepeat(Reached(u))
  {
    var us, b := u.kids, h[a].kids[i].ref;
    var front := us[..j+1];
    assert front[..j] == us[..j];
    assert Reached(us[i])[0] == b && Reached(us[j])[0] == b;
    hide Unfolds;
    ReachedMember(us[..j], i);
    assert b in RefSet(ReachedAll(us[..j])) && b in Reached(us[j]);
    FreshSplit(ReachedAll(us[..j]), Reached(us[j]), {});
    assert !NoRepeat(ReachedAll(front));
    FreshSplit([a], ReachedAll(us), {});
    if NoRepeat(ReachedAll(us)) {
      PrefixNoRepeat(us, j + 1);
      assert false;
    }
  }

  /** So does an object that holds one and the same object twice, although nothing is cyclic. */
  lemma SharedThrows(e: Engine, h: Heap, a: Ref, i: nat, j: nat)
    requires a in h && i < j < |h[a].kids| && h[a].kids[i] == h[a].kids[j] && h[a].kids[i].Object?
    ensures Tag(e, h, Object(a), {}).0.Threw?
  {
    if !Tag(e, h, Object(a), {}).0.Threw? {
      var u := TagUnfolds(e, h, Object(a), {});
      SharedRepeats(h, u, a, i, j);
    }
  }

  /** The array [x, x] of one empty array x. */
  lemma SharedExample(e: Engine)
    ensures var h: Heap := map[0 := Obj(Shaped(ArrayKind), [Object(1), Object(1)]), 1 := Obj(Shaped(ArrayKind), [])];
      Tag(e, h, Object(0), {}).0.Threw?
  {
    var h: Heap := map[0 := Obj(Shaped(ArrayKind), [Object(1), Object(1)]), 1 := Obj(Shaped(ArrayKind), [])];
    SharedThrows(e, h, 0, 0, 1);
  }

  // ----- What is kept of an object, child by child ------------------------------------

  /** The children that can be saved. */
  function Savable(parts: seq<Option<Tree>>): seq<bool> {
    seq(|parts|, i requires 0 <= i < |parts| => parts[i].Some?)
  }

  /** The entries, of two children each, that can be saved. */
  function SavableEntries(parts: seq<Option<Tree>>): seq<bool> {
    seq(|parts| / 2, i requires 0 <= i < |parts| / 2 => parts[2*i].Some? && parts[2*i+1].Some?)
  }

  /** An array keeps its length, with null for what cannot be saved. */
  ghost predicate ArrayKept(parts: seq<Option<Tree>>, kids: seq<Tree>) {
    |kids| == |parts| && forall i :: 0 <= i < |kids| ==>
      kids[i] == if parts[i].Some? then parts[i].value else Leaf(Null)
  }

  /** A Set keeps the members that can be saved, in order. */
  ghost predicate SetKept(parts: seq<Option<Tree>>, kids: seq<Tree>) {
    exists pos :: Places(pos, Savable(parts)) && |kids| == |pos|
                  && forall j :: 0 <= j < |pos| ==> parts[pos[j]] == Some(kids[j])
  }

  /** A Map keeps the entries of which both parts can be saved, in order. */
  ghost predicate MapKept(parts: seq<Option<Tree>>, kids: seq<Tree>) {
    exists pos :: Places(pos, SavableEntries(parts)) && |kids| == 2 * |pos| && EntriesAt(parts, kids, pos)
  }

  ghost predicate EntriesAt(parts: seq<Option<Tree>>, kids: seq<Tree>, pos: seq<nat>)
    requires |kids| == 2 * |pos|
  {
    forall j :: 0 <= j < |pos| ==>
      && 2 * pos[j] + 1 < |parts|
      && parts[2*pos[j]] == Some(kids[2*j])
      && parts[2*pos[j]+1] == Some(kids[2*j+1])
  }

  /** Field i is the last one of its name that can be saved. */
  ghost predicate LastOf(keys: seq<string>, parts: seq<Option<Tree>>, i: nat) {
    && i < |parts| && i < |keys| && parts[i].Some?
    && forall j :: i < j < |parts| && j < |keys| && keys[j] == keys[i] ==> parts[j].None?
  }

  /** A record keeps exactly the fields that can be saved and are not called `__proto__`; if a name
      came twice, which no object has, the last would count. */
  ghost predicate FieldsKept(keys: seq<string>, parts: seq<Option<Tree>>, m: map<string, Tree>) {
    && "__proto__" !in m
    && (forall k :: k in m ==> exists i :: 0 <= i < |parts| && LastOf(keys, parts, i) && keys[i] == k)
    && forall i :: 0 <= i < |parts| && LastOf(keys, parts, i) && keys[i] != "__proto__" ==>
         keys[i] in m && m[keys[i]] == parts[i].value
  }

  /** The tree kept of an object of the given shape, from what is kept of each child. */
  ghost predicate KeptAs(shape: Shape, parts: seq<Option<Tree>>, t: Tree) {
    match shape
    case Shaped(ArrayKind) => t.Node? && t.kind == ArrayKind && ArrayKept(parts, t.kids)
    case Shaped(SetKind) => t.Node? && t.kind == SetKind && SetKept(parts, t.kids)
    case Shaped(MapKind) => t.Node? && t.kind == MapKind && MapKept(parts, t.kids)
    case Shaped(kind) => t == Node(kind, [])
    case Fields(keys) => t.Record? && FieldsKept(keys, parts, t.fields)
  }

  lemma {:induction false} KeptAllAt(h: Heap, us: seq<Unfolding>)
    ensures forall i :: 0 <= i < |us| ==> KeptAll(h, us)[i] == Kept(h, us[i])
    decreases |us|
  {
    if us != [] { KeptAllAt(h, us[..|us|-1]); }
  }

  /** `r` are the places of `pos` one further on, after 0 if `base` is 1. */
  ghost predicate Shifted(pos: seq<nat>, base: nat, r: seq<nat>) {
    && base <= 1 && |r| == base + |pos| && (base == 1 ==> r[0] == 0)
    && forall j :: base <= j < |r| ==> r[j] == pos[j - base] + 1
  }

  /** The places in a list, from those in its tail. */
  lemma PlacesShift(pos: seq<nat>, b: bool, tail: seq<bool>) returns (r: seq<nat>)
    requires Places(pos, tail)
    ensures Shifted(pos, if b then 1 else 0, r)
    ensures Places(r, [b] + tail)
  {
    var base: nat := if b then 1 else 0;
    r := seq(base + |pos|, j requires 0 <= j < base + |pos| => if j < base then 0 else pos[j - base] + 1);
    ShiftFinds(pos, base, r, tail);
    var flags := [b] + tail;
    forall j | 0 <= j < |r| ensures r[j] < |flags| && flags[r[j]] {
      if j >= base { assert flags[r[j]] == tail[pos[j - base]]; }
    }
    forall i | 0 <= i < |flags| && flags[i] ensures i in r {
      if i > 0 { assert flags[i] == tail[i - 1]; }
    }
    hide Shifted;
  }

  lemma ShiftFinds(pos: seq<nat>, base: nat, r: seq<nat>, tail: seq<bool>)
    requires Shifted(pos, base, r) && Places(pos, tail)
    ensures base == 1 ==> 0 in r
    ensures forall i :: 0 < i <= |tail| && tail[i-1] ==> i in r
    ensures forall i, j :: 0 <= i < j < |r| ==> r[i] < r[j]
  {
    if base == 1 { assert r[0] == 0; }
    forall i | 0 < i <= |tail| && tail[i-1] ensures i in r {
      var j :| 0 <= j < |pos| && pos[j] == i - 1;
      assert r[base + j] == i;
    }
  }

  lemma {:induction false} PresentPlaces(os: seq<Option<Tree>>) returns (pos: seq<nat>)
    ensures Places(pos, Savable(os)) && |Present(os)| == |pos|
    ensures forall j :: 0 <= j < |pos| ==> os[pos[j]] == Some(Present(os)[j])
  {
    if os == [] {
      pos := [];
    } else {
      var rest := PresentPlaces(os[1..]);
      pos := PlacesShift(rest, os[0].Some?, Savable(os[1..]));
      assert Savable(os) == [os[0].Some?] + Savable(os[1..]);
      var base := |pos| - |rest|;
      forall j | 0 <= j < |pos| ensures os[pos[j]] == Some(Present(os)[j]) {
        if j >= base { assert pos[j] == rest[j - base] + 1; }
      }
    }
  }

  lemma PairsHead(os: seq<Option<Tree>>)
    requires |os| >= 2
    ensures Pairs(os) == (if os[0].Some? && os[1].Some? then [os[0].value, os[1].value] else []) + Pairs(os[2..])
  {}

  lemma {:induction false} PairsPlaces(os: seq<Option<Tree>>) returns (pos: seq<nat>)
    ensures Places(pos, SavableEntries(os)) && |Pairs(os)| == 2 * |pos| && EntriesAt(os, Pairs(os), pos)
  {
    if |os| < 2 {
      pos := [];
    } else {
      var both := os[0].Some? && os[1].Some?;
      var rest := PairsPlaces(os[2..]);
      pos := PlacesShift(rest, both, SavableEntries(os[2..]));
      EntriesCons(os);
      PairsHead(os);
      hide Pairs, SavableEntries, Places;
      EntriesShift(os, Pairs(os), Pairs(os[2..]), rest, pos);
    }
  }

  lemma EntriesShift(os: seq<Option<Tree>>, all: seq<Tree>, kids: seq<Tree>, rest: seq<nat>, pos: seq<nat>)
    requires |os| >= 2 && |kids| == 2 * |rest| && EntriesAt(os[2..], kids, rest)
    requires Shifted(rest, if os[0].Some? && os[1].Some? then 1 else 0, pos)
    requires all == (if os[0].Some? && os[1].Some? then [os[0].value, os[1].value] else []) + kids
    ensures |all| == 2 * |pos| && EntriesAt(os, all, pos)
  {
    var base := |pos| - |rest|;
    forall j | 0 <= j < |pos|
      ensures 2 * pos[j] + 1 < |os|
      ensures os[2*pos[j]] == Some(all[2*j]) && os[2*pos[j]+1] == Some(all[2*j+1])
    {
      if j >= base {
        var i := j - base;
        assert pos[j] == rest[i] + 1;
        assert os[2..][2*rest[i]] == Some(kids[2*i]) && os[2..][2*rest[i]+1] == Some(kids[2*i+1]);
        assert all[2*j] == kids[2*i] && all[2*j+1] == kids[2*i+1];
      }
    }
  }

  lemma EntriesCons(os: seq<Option<Tree>>)
    requires |os| >= 2
    ensures SavableEntries(os) == [os[0].Some? && os[1].Some?] + SavableEntries(os[2..])
  {
    var n := |os| / 2;
    assert |os[2..]| / 2 == n - 1;
    forall i | 0 <= i < n
      ensures SavableEntries(os)[i] == ([os[0].Some? && os[1].Some?] + SavableEntries(os[2..]))[i]
    {
      if i > 0 { assert os[2*i] == os[2..][2*(i-1)] && os[2*i+1] == os[2..][2*(i-1)+1]; }
    }
  }

  lemma {:induction false} AssignKeeps(keys: seq<string>, os: seq<Option<Tree>>)
    ensures FieldsKept(keys, os, Assign(keys, os))
  {
    if keys != [] && os != [] {
      AssignKeeps(keys[1..], os[1..]);
      FieldsCons(keys, os, Assign(keys[1..], os[1..]));
    }
  }

  lemma LastShift(keys: seq<string>, os: seq<Option<Tree>>, i: nat)
    requires keys != [] && os != []
    ensures LastOf(keys, os, i + 1) <==> LastOf(keys[1..], os[1..], i)
  {
    var ks, xs := keys[1..], os[1..];
    if LastOf(keys, os, i + 1) {
      forall j | i < j < |xs| && j < |ks| && ks[j] == ks[i] ensures xs[j].None? {
        assert keys[j+1] == keys[i+1] && os[j+1].None?;
      }
    }
    if LastOf(ks, xs, i) {
      forall j | i + 1 < j < |os| && j < |keys| && keys[j] == keys[i+1] ensures os[j].None? {
        assert ks[j-1] == ks[i] && xs[j-1].None?;
      }
    }
  }

  lemma LastFirst(keys: seq<string>, os: seq<Option<Tree>>, rest: map<string, Tree>)
    requires keys != [] && os != [] && keys[0] != "__proto__" && FieldsKept(keys[1..], os[1..], rest)
    ensures LastOf(keys, os, 0) <==> os[0].Some? && keys[0] !in rest
  {
    var ks, xs := keys[1..], os[1..];
    if keys[0] in rest {
      var i :| 0 <= i < |xs| && LastOf(ks, xs, i) && ks[i] == keys[0];
      assert keys[i+1] == keys[0] && os[i+1].Some?;
    }
    forall j | 0 < j < |os| && j < |keys| && keys[j] == keys[0] && os[j].Some? ensures keys[0] in rest {
      var l := FindLast(ks, xs, j - 1);
      assert ks[l] in rest;
    }
  }

  lemma {:induction false} FindLast(keys: seq<string>, os: seq<Option<Tree>>, i: nat) returns (l: nat)
    requires i < |keys| && i < |os| && os[i].Some?
    ensures l < |os| && LastOf(keys, os, l) && keys[l] == keys[i]
    decreases |keys| - i
  {
    if j :| i < j < |os| && j < |keys| && keys[j] == keys[i] && os[j].Some? {
      l := FindLast(keys, os, j);
    } else {
      l := i;
    }
  }

  lemma FieldsCons(keys: seq<string>, os: seq<Option<Tree>>, rest: map<string, Tree>)
    requires keys != [] && os != [] && FieldsKept(keys[1..], os[1..], rest)
    ensures FieldsKept(keys, os, if os[0].Some? && keys[0] != "__proto__" && keys[0] !in rest
                                 then rest[keys[0] := os[0].value] else rest)
  {
    var ks, xs := keys[1..], os[1..];
    var m := if os[0].Some? && keys[0] != "__proto__" && keys[0] !in rest then rest[keys[0] := os[0].value] else rest;
    if keys[0] != "__proto__" { LastFirst(keys, os, rest); }
    forall k | k in m ensures exists i :: 0 <= i < |os| && LastOf(keys, os, i) && keys[i] == k {
      if k in rest {
        var i :| 0 <= i < |xs| && LastOf(ks, xs, i) && ks[i] == k;
        LastShift(keys, os, i);
        assert keys[i+1] == k;
      } else {
        assert LastOf(keys, os, 0);
      }
    }
    forall i | 0 <= i < |os| && LastOf(keys, os, i) && keys[i] != "__proto__"
      ensures keys[i] in m && m[keys[i]] == os[i].value
    {
      if i > 0 {
        LastShift(keys, os, i - 1);
        assert ks[i-1] == keys[i] && xs[i-1] == os[i];
      }
    }
  }

  /** What the encoder keeps of any object, child by child: a primitive child is lost exactly if it is
      undefined, a function or a symbol, and the object keeps the others as its shape demands. */
  lemma KeptExactly(h: Heap, v: Value, u: Unfolding)
    requires Unfolds(h, v, u)
    ensures Kept(h, u).None? <==> v.Plain? && Unsaveable(v.p)
    ensures v.Plain? && Kept(h, u).Some? ==> Kept(h, u).value == Leaf(v.p)
    ensures v.Object? ==> KeptAs(h[v.ref].shape, KeptAll(h, u.kids), Kept(h, u).value)
    ensures v.Object? ==> |u.kids| == |h[v.ref].kids| && forall i :: 0 <= i < |u.kids| ==>
      Unfolds(h, h[v.ref].kids[i], u.kids[i]) && KeptAll(h, u.kids)[i] == Kept(h, u.kids[i])
  {
    if u.Cell? {
      var os := KeptAll(h, u.kids);
      KeptAllAt(h, u.kids);
      hide KeptAll;
      SaveKeeps(h[u.ref].shape, os);
    }
  }

  lemma SaveKeeps(shape: Shape, os: seq<Option<Tree>>)
    ensures KeptAs(shape, os, Save(shape, os))
  {
    match shape
    case Shaped(SetKind) => var pos := PresentPlaces(os);
    case Shaped(MapKind) => var pos := PairsPlaces(os);
    case Fields(keys) => AssignKeeps(keys, os);
    case _ =>
  }
}
