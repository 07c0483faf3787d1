/** The snapshot encoder `tag` on the heap of a script engine, with its mutable
    set of visited objects. */
module CodecHeap {
  import opened Core
  import opened CodecTree

  type Ref = nat

  datatype Value = Plain(p: Prim) | Object(ref: Ref)

  /** Record objects carry their own enumerable keys, in order; the children are the values. */
  datatype Shape = Shaped(kind: Kind) | Fields(keys: seq<string>)

  datatype Obj = Obj(shape: Shape, kids: seq<Value>)

  type Heap = map<Ref, Obj>

  // ----- The coded normalisation -------------------------------------------

  /** Map entries with a missing part are dropped. */
  function Pairs<X>(xs: seq<Option<X>>): seq<X> {
    if |xs| < 2 then []
    else (if xs[0].Some? && xs[1].Some? then [xs[0].value, xs[1].value] else []) + Pairs(xs[2..])
  }

  function Present<X>(xs: seq<Option<X>>): seq<X> {
    if xs == [] then [] else (if xs[0].Some? then [xs[0].value] else []) + Present(xs[1..])
  }

  function OrElse<X>(xs: seq<Option<X>>, x: X): seq<X> {
    seq(|xs|, i requires 0 <= i < |xs| => if xs[i].Some? then xs[i].value else x)
  }

  /** `out[k] = v` for every saveable field in turn; assigning `__proto__` makes no field. */
  function Assign<X>(keys: seq<string>, xs: seq<Option<X>>): map<string, X> {
    if keys == [] || xs == [] then map[]
    else
      var k, x := keys[0], xs[0];
      var rest := Assign(keys[1..], xs[1..]);
      if x.Some? && k != "__proto__" && k !in rest then rest[k := x.value] else rest
  }

  function SaveNode(kind: Kind, kids: seq<Option<Tree>>): Tree {
    match kind
    case MapKind => Node(kind, Pairs(kids))
    case SetKind => Node(kind, Present(kids))
    case ArrayKind => Node(kind, OrElse(kids, Leaf(Null)))
    case _ => Node(kind, [])
  }

  function Save(shape: Shape, kids: seq<Option<Tree>>): Tree {
    match shape
    case Shaped(kind) => SaveNode(kind, kids)
    case Fields(keys) => Record(Assign(keys, kids))
  }

  // ----- The encoder ---------------------------------------------------------

  datatype Outcome = Threw | Absent | Encoded(json: Json)

  /** The JSON of one object, from the encodings of its children. */
  function Assemble(e: Engine, shape: Shape, kids: seq<Option<Json>>): Json {
    match shape
    case Shaped(kind) =>
      WriteNode(e, kind,
                if kind.MapKind? then Pairs(kids)
                else if kind.SetKind? then Present(kids)
                else OrElse(kids, JNull))
    case Fields(keys) => JObj(Assign(keys, kids))
  }

  function OfOption(o: Option<Json>): Outcome {
    if o.Some? then Encoded(o.value) else Absent
  }

  function TagPrim(e: Engine, p: Prim): Outcome {
    if Unsaveable(p) then Absent else Encoded(WritePrim(e, p))
  }

  /** `tag`, as a function of the visited set; it also returns the new visited set. */
  function Tag(e: Engine, h: Heap, v: Value, seen: set<Ref>): (r: (Outcome, set<Ref>))
    ensures seen <= r.1
    decreases h.Keys - seen, 0
  {
    match v
    case Plain(p) => (TagPrim(e, p), seen)
    case Object(ref) =>
      if ref in seen || ref !in h then (Threw, seen)
      else
        var obj := h[ref];
        assert ref in h.Keys - seen;
        if obj.shape == Shaped(DateKind(None)) then (Threw, seen + {ref})
        else
          var (kids, seen') := TagAll(e, h, obj.kids, seen + {ref});
          (if kids.None? then Threw else Encoded(Assemble(e, obj.shape, kids.value)), seen')
  }

  /** The children in turn, until one throws. */
  function TagAll(e: Engine, h: Heap, vs: seq<Value>, seen: set<Ref>): (r: (Option<seq<Option<Json>>>, set<Ref>))
    ensures seen <= r.1
    ensures r.0.Some? ==> |r.0.value| == |vs|
    decreases h.Keys - seen, |vs|
  {
    if vs == [] then (Some([]), seen)
    else
      var n := |vs| - 1;
      var (front, s1) := TagAll(e, h, vs[..n], seen);
      if front.None? then (None, s1)
      else
        assert h.Keys - s1 <= h.Keys - seen;
        var (last, s2) := Tag(e, h, vs[n], s1);
        match last
        case Threw => (None, s2)
        case Absent => (Some(front.value + [None]), s2)
        case Encoded(json) => (Some(front.value + [Some(json)]), s2)
  }

  /** The set of visited objects that the encoder shares between its recursive calls. */
  class WeakSet {
    var members: set<Ref>

    constructor ()
      ensures members == {}
    {
      members := {};
    }
  }

  /** `tag` as the script runs it. */
  method TagValue(e: Engine, h: Heap, v: Value, seen: WeakSet) returns (r: Outcome)
    modifies seen
    ensures (r, seen.members) == Tag(e, h, v, old(seen.members))
    decreases h.Keys - seen.members, 0
  {
    match v
    case Plain(p) =>
      r := TagPrim(e, p);
    case Object(ref) =>
      if ref in seen.members || ref !in h {
        return Threw;
      }
      assert ref in h.Keys - seen.members;
      seen.members := seen.members + {ref};
      var obj := h[ref];
      if obj.shape == Shaped(DateKind(None)) {
        return Threw;
      }
      var kids := TagChildren(e, h, obj.kids, seen);
      r := if kids.None? then Threw else Encoded(Assemble(e, obj.shape, kids.value));
  }

  method TagChildren(e: Engine, h: Heap, vs: seq<Value>, seen: WeakSet) returns (r: Option<seq<Option<Json>>>)
    modifies seen
    ensures (r, seen.members) == TagAll(e, h, vs, old(seen.members))
    decreases h.Keys - seen.members, 1
  {
    var out: seq<Option<Json>> := [];
    ghost var start := seen.members;
    for i := 0 to |vs|
      invariant start <= seen.members
      invariant TagAll(e, h, vs[..i], start) == (Some(out), seen.members)
    {
      assert vs[..i+1][..i] == vs[..i];
      assert h.Keys - seen.members <= h.Keys - start;
      var x := TagValue(e, h, vs[i], seen);
      if x.Threw? {
        ThrowStays(e, h, vs, start, i + 1);
        return None;
      }
      out := out + [if x.Encoded? then Some(x.json) else None];
    }
    assert vs[..|vs|] == vs;
    r := Some(out);
  }

  lemma {:induction false} ThrowStays(e: Engine, h: Heap, vs: seq<Value>, seen: set<Ref>, i: nat)
    requires i <= |vs| && TagAll(e, h, vs[..i], seen).0.None?
    ensures TagAll(e, h, vs, seen) == TagAll(e, h, vs[..i], seen)
    decreases |vs|
  {
    if i == |vs| {
      assert vs[..i] == vs;
    } else {
      var n := |vs| - 1;
      assert vs[..n][..i] == vs[..i];
      ThrowStays(e, h, vs[..n], seen, i);
    }
  }
}
