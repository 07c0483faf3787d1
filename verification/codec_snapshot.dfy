/** Snapshots of the globals of a script session, and their restoration. */
module CodecSnapshot {
  import opened Core
  import opened Ordering
  import opened CodecTree
  import opened CodecHeap
  import opened CodecGraph

  /** Globals that snapshots consider: set after the baseline, and not LangShell's own. */
  predicate Eligible(key: string, baseline: set<string>) {
    key !in baseline && !("__langshell" <= key)
  }

  /** Every eligible global that can be encoded, each with its own visited set. */
  function Snapshot(e: Engine, h: Heap, globals: map<string, Value>, baseline: set<string>): map<string, Json> {
    map key | key in globals && Eligible(key, baseline) && key != "__proto__"
              && Tag(e, h, globals[key], {}).0.Encoded? :: Tag(e, h, globals[key], {}).0.json
  }

  ghost predicate Extends(h: Heap, h': Heap) {
    forall r :: r in h ==> r in h' && h'[r] == h[r]
  }

  ghost predicate InRange(refs: seq<Ref>, lo: nat, hi: nat) {
    forall r :: r in refs ==> lo <= r < hi
  }

  // ----- What a snapshot keeps of a decoded tree ---------------------------------

  /** The part of a tree that the encoder keeps, if any. */
  function Strip(t: Tree): Option<Tree>
    decreases t
  {
    match t
    case Leaf(p) => if Unsaveable(p) then None else Some(t)
    case Node(kind, kids) => Some(SaveNode(kind, StripAll(kids)))
    case Record(m) => Some(Record(map k | k in m && Strip(m[k]).Some? :: Strip(m[k]).value))
  }

  function StripAll(ts: seq<Tree>): seq<Option<Tree>>
    decreases ts
  {
    seq(|ts|, i requires 0 <= i < |ts| => Strip(ts[i]))
  }

  /** No date inside is invalid. */
  ghost predicate DatesValid(t: Tree) {
    match t
    case Leaf(_) => true
    case Node(kind, kids) => kind != DateKind(None) && forall i :: 0 <= i < |kids| ==> DatesValid(kids[i])
    case Record(m) => forall k :: k in m ==> DatesValid(m[k])
  }

  /** What the encoder makes of a value that was decoded as `t`. */
  ghost function Retag(e: Engine, t: Tree): Outcome {
    if DatesValid(t) then OfOption(WriteOption(e, Strip(t))) else Threw
  }

  function Somes<X>(xs: seq<X>): seq<Option<X>> {
    seq(|xs|, i requires 0 <= i < |xs| => Some(xs[i]))
  }

  /** Nothing is stripped from a saved value. */
  lemma {:induction false} StripSaved(t: Tree)
    requires Saved(t)
    ensures Strip(t) == Some(t) && DatesValid(t)
    decreases t
  {
    match t
    case Leaf(_) =>
    case Node(kind, kids) =>
      forall i | 0 <= i < |kids| ensures Strip(kids[i]) == Some(kids[i]) && DatesValid(kids[i]) {
        StripSaved(kids[i]);
      }
      assert StripAll(kids) == Somes(kids);
      SomesKept(kids);
    case Record(m) =>
      forall k | k in m ensures Strip(m[k]) == Some(m[k]) && DatesValid(m[k]) {
        StripSaved(m[k]);
      }
      assert (map k | k in m && Strip(m[k]).Some? :: Strip(m[k]).value) == m;
  }

  // ----- Growing the heap ------------------------------------------------------

  lemma {:induction false} UnfoldsExtends(h: Heap, h': Heap, v: Value, u: Unfolding)
    requires Extends(h, h') && Unfolds(h, v, u)
    ensures Unfolds(h', v, u) && Kept(h', u) == Kept(h, u)
    ensures forall r :: r in Reached(u) ==> r in h
    decreases u
  {
    if u.Cell? {
      UnfoldAllExtends(h, h', h[u.ref].kids, u.kids);
    }
  }

  lemma {:induction false} UnfoldAllExtends(h: Heap, h': Heap, vs: seq<Value>, us: seq<Unfolding>)
    requires Extends(h, h') && UnfoldAll(h, vs, us)
    ensures UnfoldAll(h', vs, us) && KeptAll(h', us) == KeptAll(h, us)
    ensures forall r :: r in ReachedAll(us) ==> r in h
    decreases us
  {
    if us != [] {
      var n := |us| - 1;
      UnfoldAllExtends(h, h', vs[..n], us[..n]);
      UnfoldsExtends(h, h', vs[n], us[n]);
      assert vs == vs[..n] + [vs[n]] && us == us[..n] + [us[n]];
    }
  }

  lemma {:induction false} SomesKept(xs: seq<Tree>)
    ensures |xs| % 2 == 0 ==> Pairs(Somes(xs)) == xs
    ensures Present(Somes(xs)) == xs
    ensures OrElse(Somes(xs), Leaf(Null)) == xs
  {
    PresentSomes(xs);
    if |xs| % 2 == 0 { PairsSomes(xs); }
  }

  lemma {:induction false} PresentSomes(xs: seq<Tree>)
    ensures Present(Somes(xs)) == xs
  {
    if xs != [] {
      PresentSomes(xs[1..]);
      assert Somes(xs)[1..] == Somes(xs[1..]);
    }
  }

  lemma {:induction false} PairsSomes(xs: seq<Tree>)
    requires |xs| % 2 == 0
    ensures Pairs(Somes(xs)) == xs
  {
    if xs != [] {
      PairsSomes(xs[2..]);
      assert Somes(xs)[2..] == Somes(xs[2..]);
      assert xs == [xs[0], xs[1]] + xs[2..];
    }
  }

  /** What is kept of some fields. */
  function Stripped(m: map<string, Tree>, keys: seq<string>): map<string, Tree> {
    map k | k in keys && k in m && Strip(m[k]).Some? :: Strip(m[k]).value
  }

  lemma {:induction false} AssignStrips(m: map<string, Tree>, keys: seq<string>)
    requires forall k :: k in keys ==> k in m && k != "__proto__"
    requires forall i, j :: 0 <= i < j < |keys| ==> keys[i] != keys[j]
    ensures Assign(keys, StripAll(FieldValues(m, keys))) == Stripped(m, keys)
  {
    if keys != [] {
      hide Strip;
      var k, rest := keys[0], keys[1..];
      assert keys == [k] + rest && k !in rest;
      assert forall x :: x in rest ==> x in keys;
      AssignStrips(m, rest);
      var os := StripAll(FieldValues(m, keys));
      assert os[0] == Strip(m[k]) && os[1..] == StripAll(FieldValues(m, rest));
      hide StripAll, FieldValues;
      assert Assign(keys, os)
          == if Strip(m[k]).Some? then Stripped(m, rest)[k := Strip(m[k]).value] else Stripped(m, rest);
      hide Assign;
    }
  }

  /** Every saved key can be defined on the global object, and every value decoded. */
  ghost predicate Restorable(e: Engine, fixed: set<string>, saved: map<string, Json>) {
    forall k :: k in saved ==> k !in fixed && Untag(e, saved[k]).Some?
  }

  /** The global object of a session and its heap. The `fixed` globals are not configurable:
      those of the language, such as `undefined`, and LangShell's own. */
  class Realm {
    const fixed: set<string>
    var objs: Heap
    var next: Ref
    var globals: map<string, Value>

    ghost predicate Valid() reads this {
      forall r :: r in objs ==> r < next
    }

    /** A realm after bootstrap; `globals` are the baseline properties. */
    constructor (fixed: set<string>, objs: Heap, next: Ref, globals: map<string, Value>)
      requires forall r :: r in objs ==> r < next
      ensures Valid() && this.fixed == fixed && this.objs == objs && this.next == next && this.globals == globals
    {
      this.fixed := fixed;
      this.objs, this.next, this.globals := objs, next, globals;
    }

    /** The snapshot loop: a fresh visited set per global, and a global that throws is left out. */
    method SnapshotGlobals(e: Engine, baseline: set<string>) returns (out: map<string, Json>)
      ensures out == Snapshot(e, objs, globals, baseline)
    {
      out := map[];
      var rest := globals.Keys;
      while rest != {}
        invariant rest <= globals.Keys
        invariant out == map key | key in Snapshot(e, objs, globals, baseline) && key !in rest
                           :: Snapshot(e, objs, globals, baseline)[key]
        decreases rest
      {
        var key :| key in rest;
        rest := rest - {key};
        if Eligible(key, baseline) {
          var seen := new WeakSet();
          var tagged := TagValue(e, objs, globals[key], seen);
          if tagged.Encoded? && key != "__proto__" {
            out := out[key := tagged.json];
          }
        }
      }
    }

    /** Builds a decoded value out of new objects only. */
    method Allocate(t: Tree) returns (v: Value, ghost u: Unfolding)
      requires Valid() && MapPart(t)
      modifies this
      ensures Valid() && Extends(old(objs), objs) && old(next) <= next && globals == old(globals)
      ensures Unfolds(objs, v, u) && NoRepeat(Reached(u)) && InRange(Reached(u), old(next), next)
      ensures Kept(objs, u) == Strip(t)
      ensures ValidDates(objs, Reached(u)) <==> DatesValid(t)
      decreases t
    {
      Parts(t);
      hide MapPart, Strip, StripAll, FieldValues, DatesValid, Kept, Save, NoRepeat, ValidDates;
      match t {
        case Leaf(p) =>
          v, u := Plain(p), Atom(p);
          LeafKept(objs, p);
        case Node(kind, kids) =>
          var vs, us := AllocateAll(kids);
          v, u := Install(Shaped(kind), vs, us);
        case Record(m) =>
          var keys := SortedKeys(m.Keys);
          forall i, j | 0 <= i < j < |keys| ensures keys[i] != keys[j] { LessIrreflexive(keys[i]); }
          var vs, us := AllocateFields(t, keys);
          FieldsStrip(m, keys);
          v, u := Install(Fields(keys), vs, us);
      }
    }

    /** Adds one object over children that are already there. */
    method Install(shape: Shape, vs: seq<Value>, ghost us: seq<Unfolding>) returns (v: Value, ghost u: Unfolding)
      requires Valid() && UnfoldAll(objs, vs, us) && NoRepeat(ReachedAll(us))
      modifies this
      ensures Valid() && Extends(old(objs), objs) && next == old(next) + 1 && globals == old(globals)
      ensures Unfolds(objs, v, u) && NoRepeat(Reached(u)) && Reached(u) == [old(next)] + ReachedAll(us)
      ensures Kept(objs, u) == Some(Save(shape, KeptAll(old(objs), us)))
      ensures ValidDates(objs, Reached(u))
         <==> ValidDates(old(objs), ReachedAll(us)) && shape != Shaped(DateKind(None))
    {
      ghost var before := objs;
      var ref := next;
      objs, next := objs[ref := Obj(shape, vs)], next + 1;
      v, u := Object(ref), Cell(ref, us);
      UnfoldAllExtends(before, objs, vs, us);
      FreshSplit([ref], ReachedAll(us), {});
      assert RefSet([ref]) == {ref};
    }

    method AllocateAll(ts: seq<Tree>) returns (vs: seq<Value>, ghost us: seq<Unfolding>)
      requires Valid() && forall t :: t in ts ==> MapPart(t)
      modifies this
      ensures Valid() && old(next) <= next && globals == old(globals)
      ensures Built(old(objs), objs, old(next), next, ts, vs, us)
      decreases ts
    {
      vs, us := [], [];
      NothingBuilt(objs, next);
      for i := 0 to |ts|
        invariant Valid() && old(next) <= next && globals == old(globals)
        invariant Built(old(objs), objs, old(next), next, ts[..i], vs, us)
      {
        hide Built, MapPart, Strip, DatesValid, Kept, Unfolds, Reached, NoRepeat;
        ghost var before, mid := objs, next;
        var v, u := Allocate(ts[i]);
        OneMoreBuilt(old(objs), before, objs, old(next), mid, next, ts[..i], vs, us, ts[i], v, u);
        assert ts[..i+1] == ts[..i] + [ts[i]];
        vs, us := vs + [v], us + [u];
      }
      assert ts[..|ts|] == ts;
    }

    method AllocateFields(t: Tree, keys: seq<string>) returns (vs: seq<Value>, ghost us: seq<Unfolding>)
      requires Valid() && t.Record? && forall k :: k in keys ==> k in t.fields && MapPart(t.fields[k])
      modifies this
      ensures Valid() && old(next) <= next && globals == old(globals)
      ensures Built(old(objs), objs, old(next), next, FieldValues(t.fields, keys), vs, us)
      decreases t, 0
    {
      vs, us := [], [];
      NothingBuilt(objs, next);
      for i := 0 to |keys|
        invariant Valid() && old(next) <= next && globals == old(globals)
        invariant Built(old(objs), objs, old(next), next, FieldValues(t.fields, keys[..i]), vs, us)
      {
        hide Built, MapPart, Strip, DatesValid, Kept, Unfolds, Reached, NoRepeat;
        ghost var before, mid, ts := objs, next, FieldValues(t.fields, keys[..i]);
        assert keys[i] in keys;
        var x := t.fields[keys[i]];
        var v, u := Allocate(x);
        OneMoreBuilt(old(objs), before, objs, old(next), mid, next, ts, vs, us, x, v, u);
        assert FieldValues(t.fields, keys[..i+1]) == ts + [x];
        vs, us := vs + [v], us + [u];
      }
      assert keys[..|keys|] == keys;
    }

    /** Decodes every saved global and defines it; false: the decoder or the definition threw. */
    method RestoreGlobals(e: Engine, saved: map<string, Json>) returns (ok: bool)
      requires Valid()
      modifies this
      ensures Valid()
      ensures ok <==> Restorable(e, fixed, saved)
      ensures ok ==> Restored(e, old(objs), old(globals), saved, objs, globals)
    {
      var rest := saved.Keys;
      ok := true;
      while rest != {}
        invariant ok && rest <= saved.Keys && Valid() && Extends(old(objs), objs)
        invariant forall k :: k in saved && k !in rest ==> k !in fixed && Untag(e, saved[k]).Some?
        invariant globals.Keys == old(globals).Keys + (saved.Keys - rest)
        invariant forall k :: k in globals && (k !in saved || k in rest) ==> globals[k] == old(globals)[k]
        invariant forall k :: k in saved && k !in rest ==> Holds(objs, globals[k], Untag(e, saved[k]).value)
        decreases rest
      {
        var key :| key in rest;
        var t := Untag(e, saved[key]);
        if t.None? {
          return false;
        }
        UntagDecodable(e, saved[key]);
        ghost var before := objs;
        var v, u := Allocate(t.value);
        assert HoldsAs(objs, v, t.value, u);
        forall k | k in saved && k !in rest ensures Holds(objs, globals[k], Untag(e, saved[k]).value) {
          HoldsExtends(before, objs, globals[k], Untag(e, saved[k]).value);
        }
        if key in fixed {
          return false;
        }
        globals := globals[key := v];
        rest := rest - {key};
      }
    }
  }

  /** The trees are allocated, in new cells and without sharing, as `vs`. */
  ghost predicate Built(h0: Heap, h: Heap, lo: nat, hi: nat, ts: seq<Tree>, vs: seq<Value>, us: seq<Unfolding>) {
    && Extends(h0, h)
    && UnfoldAll(h, vs, us) && NoRepeat(ReachedAll(us)) && InRange(ReachedAll(us), lo, hi)
    && KeptAll(h, us) == StripAll(ts)
    && (ValidDates(h, ReachedAll(us)) <==> forall i :: 0 <= i < |ts| ==> DatesValid(ts[i]))
  }

  lemma NothingBuilt(h: Heap, next: nat)
    ensures Built(h, h, next, next, [], [], [])
  {}

  lemma OneMoreBuilt(h0: Heap, h: Heap, h': Heap, lo: nat, mid: nat, hi: nat, ts: seq<Tree>, vs: seq<Value>,
                     us: seq<Unfolding>, t: Tree, v: Value, u: Unfolding)
    requires Built(h0, h, lo, mid, ts, vs, us) && lo <= mid <= hi && forall r :: r in h ==> r < mid
    requires Extends(h, h') && Unfolds(h', v, u) && NoRepeat(Reached(u)) && InRange(Reached(u), mid, hi)
    requires Kept(h', u) == Strip(t) && (ValidDates(h', Reached(u)) <==> DatesValid(t))
    ensures Built(h0, h', lo, hi, ts + [t], vs + [v], us + [u])
  {
    hide Unfolds, Reached, NoRepeat, Kept, Strip, DatesValid;
    Appended(h, h', vs, us, v, u);
    var all := ts + [t];
    assert StripAll(all) == StripAll(ts) + [Strip(t)];
    hide UnfoldAll, ValidDates, KeptAll, StripAll;
    assert all[|ts|] == t && forall i :: 0 <= i < |ts| ==> all[i] == ts[i];
    AllButLast(ts, t);
  }

  lemma AllButLast(ts: seq<Tree>, t: Tree)
    ensures (forall i :: 0 <= i < |ts + [t]| ==> DatesValid((ts + [t])[i]))
       <==> (forall i :: 0 <= i < |ts| ==> DatesValid(ts[i])) && DatesValid(t)
  {
    hide DatesValid;
    var all := ts + [t];
    if forall i :: 0 <= i < |all| ==> DatesValid(all[i]) {
      forall i | 0 <= i < |ts| ensures DatesValid(ts[i]) { assert DatesValid(all[i]); }
      assert DatesValid(all[|ts|]);
    }
  }

  function FieldValues(m: map<string, Tree>, keys: seq<string>): seq<Tree>
    requires forall k :: k in keys ==> k in m
  {
    seq(|keys|, i requires 0 <= i < |keys| => m[keys[i]])
  }

  /** The parts of a decoded tree, and what it is stripped to. */
  lemma Parts(t: Tree)
    requires MapPart(t)
    ensures t.Node? ==>
      && (forall k :: k in t.kids ==> MapPart(k))
      && Strip(t) == Some(Save(Shaped(t.kind), StripAll(t.kids)))
      && (DatesValid(t) <==> t.kind != DateKind(None) && forall i :: 0 <= i < |t.kids| ==> DatesValid(t.kids[i]))
    ensures t.Record? ==>
      && "__proto__" !in t.fields
      && (forall k :: k in t.fields ==> MapPart(t.fields[k]))
      && (DatesValid(t) <==> forall k :: k in t.fields ==> DatesValid(t.fields[k]))
  {}

  lemma LeafKept(h: Heap, p: Prim)
    ensures Kept(h, Atom(p)) == Strip(Leaf(p)) && DatesValid(Leaf(p))
  {}

  lemma FieldsStrip(m: map<string, Tree>, keys: seq<string>)
    requires "__proto__" !in m && forall k :: k in keys <==> k in m
    requires forall i, j :: 0 <= i < j < |keys| ==> keys[i] != keys[j]
    ensures Strip(Record(m)) == Some(Save(Fields(keys), StripAll(FieldValues(m, keys))))
    ensures DatesValid(Record(m)) <==> forall i :: 0 <= i < |keys| ==> DatesValid(FieldValues(m, keys)[i])
  {
    AssignStrips(m, keys);
    var b := map k | k in m && Strip(m[k]).Some? :: Strip(m[k]).value;
    assert Stripped(m, keys) == b && Strip(Record(m)) == Some(Record(b));
    if forall i :: 0 <= i < |keys| ==> DatesValid(FieldValues(m, keys)[i]) {
      forall k | k in m ensures DatesValid(m[k]) {
        assert k in keys;
        var i :| 0 <= i < |keys| && keys[i] == k;
        assert FieldValues(m, keys)[i] == m[k];
      }
    }
  }

  lemma Appended(h: Heap, h': Heap, vs: seq<Value>, us: seq<Unfolding>, v: Value, u: Unfolding)
    requires Extends(h, h') && UnfoldAll(h, vs, us) && Unfolds(h', v, u)
    requires forall r :: r in Reached(u) ==> r !in h
    requires NoRepeat(ReachedAll(us)) && NoRepeat(Reached(u))
    ensures UnfoldAll(h', vs + [v], us + [u]) && NoRepeat(ReachedAll(us + [u]))
    ensures ReachedAll(us + [u]) == ReachedAll(us) + Reached(u)
    ensures KeptAll(h', us + [u]) == KeptAll(h, us) + [Kept(h', u)]
    ensures ValidDates(h', ReachedAll(us + [u])) <==> ValidDates(h, ReachedAll(us)) && ValidDates(h', Reached(u))
  {
    UnfoldAllExtends(h, h', vs, us);
    assert (us + [u])[..|us|] == us;
    FreshSplit(ReachedAll(us), Reached(u), {});
  }

  /** The value unfolds, without sharing, into the tree, as far as a snapshot can tell. */
  ghost predicate Holds(h: Heap, v: Value, t: Tree) {
    exists u :: HoldsAs(h, v, t, u)
  }

  ghost predicate HoldsAs(h: Heap, v: Value, t: Tree, u: Unfolding) {
    && Unfolds(h, v, u) && NoRepeat(Reached(u)) && Kept(h, u) == Strip(t)
    && (ValidDates(h, Reached(u)) <==> DatesValid(t))
  }

  lemma HoldsExtends(h: Heap, h': Heap, v: Value, t: Tree)
    requires Extends(h, h') && Holds(h, v, t)
    ensures Holds(h', v, t)
  {
    var u :| HoldsAs(h, v, t, u);
    UnfoldsExtends(h, h', v, u);
    assert HoldsAs(h', v, t, u);
  }

  /** What a successful restoration does: exactly the saved globals are (re)defined, each with
      the decoded value, and no old object is touched. */
  ghost predicate Restored(e: Engine, h: Heap, globals: map<string, Value>, saved: map<string, Json>,
                           h': Heap, globals': map<string, Value>)
  {
    && Extends(h, h')
    && globals'.Keys == globals.Keys + saved.Keys
    && (forall k :: k in globals && k !in saved ==> globals'[k] == globals[k])
    && (forall k :: k in saved ==> Untag(e, saved[k]).Some? && Holds(h', globals'[k], Untag(e, saved[k]).value))
  }

  // ----- Idempotence ------------------------------------------------------------

  lemma {:induction false} PairsSaved(os: seq<Option<Tree>>)
    requires forall o :: o in os && o.Some? ==> Saved(o.value)
    ensures |Pairs(os)| % 2 == 0 && forall t :: t in Pairs(os) ==> Saved(t)
  {
    if |os| >= 2 { PairsSaved(os[2..]); }
  }

  lemma {:induction false} PresentSaved(os: seq<Option<Tree>>)
    requires forall o :: o in os && o.Some? ==> Saved(o.value)
    ensures forall t :: t in Present(os) ==> Saved(t)
  {
    if os != [] { PresentSaved(os[1..]); }
  }

  lemma {:induction false} AssignSaved(keys: seq<string>, os: seq<Option<Tree>>)
    requires forall o :: o in os && o.Some? ==> Saved(o.value)
    ensures "__proto__" !in Assign(keys, os)
    ensures forall k :: k in Assign(keys, os) ==> Saved(Assign(keys, os)[k])
  {
    if keys != [] && os != [] { AssignSaved(keys[1..], os[1..]); }
  }

  lemma {:induction false} KeptSaved(h: Heap, v: Value, u: Unfolding)
    requires Unfolds(h, v, u) && ValidDates(h, Reached(u))
    ensures Kept(h, u).Some? ==> Saved(Kept(h, u).value)
    decreases u
  {
    if u.Cell? {
      var os := KeptAll(h, u.kids);
      assert u.ref in Reached(u);
      KeptAllSaved(h, h[u.ref].kids, u.kids);
      PairsSaved(os);
      PresentSaved(os);
      if h[u.ref].shape.Fields? { AssignSaved(h[u.ref].shape.keys, os); }
    }
  }

  lemma {:induction false} KeptAllSaved(h: Heap, vs: seq<Value>, us: seq<Unfolding>)
    requires UnfoldAll(h, vs, us) && ValidDates(h, ReachedAll(us))
    ensures forall o :: o in KeptAll(h, us) && o.Some? ==> Saved(o.value)
    decreases us
  {
    if us != [] {
      var n := |us| - 1;
      KeptAllSaved(h, vs[..n], us[..n]);
      KeptSaved(h, vs[n], us[n]);
    }
  }

  /** No snapshotted value holds one of the decoder's own tags. */
  ghost predicate AllClear(h: Heap, globals: map<string, Value>, keys: set<string>) {
    forall k, u :: k in keys && k in globals && TreeShaped(h, globals[k], u) && Kept(h, u).Some?
                   ==> Clear(Kept(h, u).value)
  }

  /** No Map or Set among them lists a primitive twice, which the engine's never do. */
  ghost predicate AllDistinct(h: Heap, globals: map<string, Value>, keys: set<string>) {
    forall k, u :: k in keys && k in globals && TreeShaped(h, globals[k], u) && Kept(h, u).Some?
                   ==> Distinct(Kept(h, u).value)
  }

  lemma {:induction false} UnfoldingUnique(h: Heap, v: Value, u: Unfolding, u': Unfolding)
    requires Unfolds(h, v, u) && Unfolds(h, v, u')
    ensures u == u'
    decreases u
  {
    if u.Cell? {
      forall i | 0 <= i < |u.kids| ensures u.kids[i] == u'.kids[i] {
        UnfoldingUnique(h, h[u.ref].kids[i], u.kids[i], u'.kids[i]);
      }
      assert u.kids == u'.kids;
    }
  }

  /** A held value is encoded as its tree says. */
  lemma HeldTag(e: Engine, h: Heap, v: Value, t: Tree)
    requires Holds(h, v, t)
    ensures Tag(e, h, v, {}).0 == Retag(e, t)
  {
    var u :| HoldsAs(h, v, t, u);
    if DatesValid(t) {
      TagFollows(e, h, v, u, {});
    } else if !Tag(e, h, v, {}).0.Threw? {
      var u' := TagUnfolds(e, h, v, {});
      UnfoldingUnique(h, v, u, u');
      assert false;
    }
  }

  /** The tree behind an entry of a snapshot. */
  lemma EntryTree(e: Engine, h: Heap, v: Value) returns (u: Unfolding)
    requires Tag(e, h, v, {}).0.Encoded?
    ensures TreeShaped(h, v, u) && Kept(h, u).Some? && Saved(Kept(h, u).value)
    ensures Tag(e, h, v, {}).0.json == Write(e, Kept(h, u).value)
    ensures forall u' :: TreeShaped(h, v, u') ==> u' == u
  {
    u := TagUnfolds(e, h, v, {});
    TagFollows(e, h, v, u, {});
    KeptSaved(h, v, u);
    forall u' | TreeShaped(h, v, u') ensures u' == u {
      UnfoldingUnique(h, v, u, u');
    }
  }

  lemma SnapshotOf(e: Engine, h: Heap, globals: map<string, Value>, baseline: set<string>, s: map<string, Json>)
    requires globals.Keys == baseline + s.Keys
    requires forall k :: k in s ==>
      Eligible(k, baseline) && k != "__proto__" && Tag(e, h, globals[k], {}).0 == Encoded(s[k])
    ensures Snapshot(e, h, globals, baseline) == s
  {}

  lemma SnapshotKeys(e: Engine, h: Heap, globals: map<string, Value>, baseline: set<string>, k: string)
    requires k in Snapshot(e, h, globals, baseline)
    ensures k in globals && Eligible(k, baseline) && k != "__proto__"
    ensures Tag(e, h, globals[k], {}).0 == Encoded(Snapshot(e, h, globals, baseline)[k])
  {}

  /** A snapshot can be restored, into a session whose fixed globals are in the baseline or reserved,
      exactly when every colliding object in it has a payload that its tag can take. */
  lemma RestorableExactly(e: Engine, h: Heap, globals: map<string, Value>, baseline: set<string>, fixed: set<string>)
    requires Lawful(e) && forall k :: k in fixed ==> !Eligible(k, baseline)
    ensures Restorable(e, fixed, Snapshot(e, h, globals, baseline))
       <==> forall k :: k in globals && k in Snapshot(e, h, globals, baseline) ==> ValueRestores(e, h, globals[k])
  {
    var s := Snapshot(e, h, globals, baseline);
    forall k | k in s
      ensures k in globals && k !in fixed
      ensures Untag(e, s[k]).Some? <==> ValueRestores(e, h, globals[k])
    {
      SnapshotKeys(e, h, globals, baseline, k);
      var u := EntryTree(e, h, globals[k]);
      RestoresExactly(e, Kept(h, u).value);
    }
    hide Snapshot, Untag, ValueRestores;
  }

  /** The tree kept of the value, if it has one, restores. */
  ghost predicate ValueRestores(e: Engine, h: Heap, v: Value) {
    forall u :: TreeShaped(h, v, u) && Kept(h, u).Some? ==> Restores(e, Kept(h, u).value)
  }

  lemma {:induction false} ClearRestores(e: Engine, t: Tree)
    requires Clear(t)
    ensures Restores(e, t)
    decreases t
  {
    match t
    case Leaf(_) =>
    case Node(_, kids) =>
      forall i | 0 <= i < |kids| ensures Restores(e, kids[i]) { ClearRestores(e, kids[i]); }
    case Record(m) =>
      forall k | k in m ensures Restores(e, m[k]) { ClearRestores(e, m[k]); }
  }

  /** So a snapshot without the decoder's own tags can always be restored. */
  lemma SnapshotDecodes(e: Engine, h: Heap, globals: map<string, Value>, baseline: set<string>, fixed: set<string>)
    requires Lawful(e) && AllClear(h, globals, Snapshot(e, h, globals, baseline).Keys)
    requires forall k :: k in fixed ==> !Eligible(k, baseline)
    ensures Restorable(e, fixed, Snapshot(e, h, globals, baseline))
  {
    hide Snapshot, Restores, Kept, TreeShaped;
    var s := Snapshot(e, h, globals, baseline);
    forall k | k in globals && k in s ensures ValueRestores(e, h, globals[k]) {
      assert k in s.Keys;
      forall u | TreeShaped(h, globals[k], u) && Kept(h, u).Some? ensures Restores(e, Kept(h, u).value) {
        ClearRestores(e, Kept(h, u).value);
      }
    }
    RestorableExactly(e, h, globals, baseline, fixed);
  }

  /** With such a tag the whole snapshot can be lost: here the global `y` with it. */
  lemma UnrestorableExample(e: Engine, fixed: set<string>)
    requires e.toBigInt(Some(JStr("abc"))) == None
    ensures var h: Heap := map[0 := Obj(Fields(["__lang", "v"]), [Plain(Str("bigint")), Plain(Str("abc"))])];
      var s := Snapshot(e, h, map["x" := Object(0), "y" := Plain(Bool(true))], {});
      s.Keys == {"x", "y"} && !Restorable(e, fixed, s)
  {
    var h: Heap := map[0 := Obj(Fields(["__lang", "v"]), [Plain(Str("bigint")), Plain(Str("abc"))])];
    var m := map["__lang" := Leaf(Str("bigint")), "v" := Leaf(Str("abc"))];
    TagPair(e, h, Str("bigint"), Str("abc"));
    UndecodableExample(e);
    hide Write;
    var globals := map["x" := Object(0), "y" := Plain(Bool(true))];
    var s := Snapshot(e, h, globals, {});
    assert Eligible("x", {}) && Eligible("y", {}) by { assert "x"[0] != '_' && "y"[0] != '_'; }
    assert Tag(e, h, globals["y"], {}).0.Encoded?;
    assert s["x"] == Write(e, Record(m));
  }

  lemma TagPair(e: Engine, h: Heap, p: Prim, q: Prim)
    requires h == map[0 := Obj(Fields(["__lang", "v"]), [Plain(p), Plain(q)])] && !Unsaveable(p) && !Unsaveable(q)
    ensures Tag(e, h, Object(0), {}).0 == Encoded(Write(e, Record(map["__lang" := Leaf(p), "v" := Leaf(q)])))
  {
    var a, b := Atom(p), Atom(q);
    var u := Cell(0, [a, b]);
    assert [a, b][..1] == [a] && [a][..0] == [];
    assert ReachedAll([a]) == ReachedAll([]) + Reached(a) == [];
    assert ReachedAll([a, b]) == ReachedAll([a]) + Reached(b) == [];
    assert Reached(u) == [0] + ReachedAll([a, b]) == [0];
    assert KeptAll(h, [a]) == KeptAll(h, []) + [Kept(h, a)] == [Some(Leaf(p))];
    assert KeptAll(h, [a, b]) == KeptAll(h, [a]) + [Kept(h, b)] == [Some(Leaf(p)), Some(Leaf(q))];
    TwoFields(Leaf(p), Leaf(q));
    assert Kept(h, u) == Some(Record(map["__lang" := Leaf(p), "v" := Leaf(q)]));
    TagFollows(e, h, Object(0), u, {});
  }

  lemma TwoFields(a: Tree, b: Tree)
    ensures Assign(["__lang", "v"], [Some(a), Some(b)]) == map["__lang" := a, "v" := b]
  {
    assert ["__lang", "v"][1..] == ["v"] && [Some(a), Some(b)][1..] == [Some(b)];
    assert ["v"][1..] == [] && [Some(b)][1..] == [];
    assert Assign(["v"], [Some(b)]) == map["v" := b];
  }

  /** What a restored session holds, and when its snapshot is the one it came from: exactly when
      every entry is again what its decoded form is encoded as. */
  lemma IdempotentExactly(e: Engine, s: map<string, Json>,
                          h0: Heap, globals0: map<string, Value>, h': Heap, globals': map<string, Value>)
    requires forall k :: k in s ==> Eligible(k, globals0.Keys) && k != "__proto__"
    requires Restored(e, h0, globals0, s, h', globals')
    ensures globals'.Keys - globals0.Keys == s.Keys
    ensures Snapshot(e, h', globals', globals0.Keys) == s
       <==> forall k :: k in s ==> Retag(e, Untag(e, s[k]).value) == Encoded(s[k])
  {
    forall k | k in s ensures Tag(e, h', globals'[k], {}).0 == Retag(e, Untag(e, s[k]).value) {
      HeldTag(e, h', globals'[k], Untag(e, s[k]).value);
    }
    hide Tag, Retag, Untag, Holds;
    var s' := Snapshot(e, h', globals', globals0.Keys);
    if s' == s {
      forall k | k in s ensures Tag(e, h', globals'[k], {}).0 == Encoded(s[k]) {
        SnapshotKeys(e, h', globals', globals0.Keys, k);
      }
    }
    if forall k :: k in s ==> Tag(e, h', globals'[k], {}).0 == Encoded(s[k]) {
      SnapshotOf(e, h', globals', globals0.Keys, s);
    }
  }

  /** Restoring a snapshot without the decoder's own tags into a fresh session with the same baseline
      defines exactly the snapshotted globals, and a snapshot of that session is the same again. */
  lemma SnapshotIsIdempotent(e: Engine, h: Heap, globals: map<string, Value>, s: map<string, Json>,
                             h0: Heap, globals0: map<string, Value>, h': Heap, globals': map<string, Value>)
    requires s == Snapshot(e, h, globals, globals0.Keys)
    requires Lawful(e) && AllClear(h, globals, s.Keys) && AllDistinct(h, globals, s.Keys)
    requires Restored(e, h0, globals0, s, h', globals')
    ensures globals'.Keys - globals0.Keys == s.Keys
    ensures Snapshot(e, h', globals', globals0.Keys) == s
  {
    forall k | k in s
      ensures Eligible(k, globals0.Keys) && k != "__proto__"
      ensures Retag(e, Untag(e, s[k]).value) == Encoded(s[k])
    {
      SnapshotKeys(e, h, globals, globals0.Keys, k);
      var u := EntryTree(e, h, globals[k]);
      RoundTripExactly(e, Kept(h, u).value);
      StripSaved(Kept(h, u).value);
    }
    hide Snapshot, Retag, Untag, Restored;
    IdempotentExactly(e, s, h0, globals0, h', globals');
  }

  /** A snapshot holds exactly the eligible globals that unfold without repetition into a saveable tree. */
  lemma SnapshotExactly(e: Engine, h: Heap, globals: map<string, Value>, baseline: set<string>, key: string)
    requires key in globals
    ensures key in Snapshot(e, h, globals, baseline)
       <==> (&& key !in baseline && !("__langshell" <= key) && key != "__proto__"
             && exists u :: TreeShaped(h, globals[key], u) && Kept(h, u).Some?)
  {
    if Tag(e, h, globals[key], {}).0.Encoded? {
      var u := EntryTree(e, h, globals[key]);
    }
    forall u | TreeShaped(h, globals[key], u) && Kept(h, u).Some? ensures Tag(e, h, globals[key], {}).0.Encoded? {
      TagFollows(e, h, globals[key], u, {});
    }
  }
}
