/** The tagged JSON form of snapshot values, on trees: what the encoder writes for a
    saved value, and the decoder `untag`. */
module CodecTree {
  import opened Core
  import Utf8

  datatype Prim =
    | Undefined | FunctionValue | SymbolValue
    | Null | Bool(b: bool) | Num(n: real) | Str(s: string) | BigInt(i: int)

  predicate Unsaveable(p: Prim) {
    p.Undefined? || p.FunctionValue? || p.SymbolValue?
  }

  datatype Kind =
    | DateKind(time: Option<int>)        // None is an invalid date
    | BytesKind(bytes: seq<Utf8.Byte>)
    | MapKind                            // children: key, value, key, value, ...
    | SetKind
    | ArrayKind

  /** A value as a finite tree, with sharing and the order of object fields forgotten. */
  datatype Tree =
    | Leaf(p: Prim)
    | Node(kind: Kind, kids: seq<Tree>)
    | Record(fields: map<string, Tree>)

  /** The conversions of the script engine. The last three take any JSON value, or none for
      `undefined`, and throw where they return None. */
  datatype Engine = Engine(
    iso: int -> string,                             // Date.prototype.toISOString
    decimal: int -> string,                         // String(bigint)
    toDate: Option<Json> -> Option<Option<int>>,    // new Date(x); inner None is an invalid date
    toBigInt: Option<Json> -> Option<int>,          // BigInt(x)
    toBytes: Option<Json> -> Option<seq<Utf8.Byte>>) // new Uint8Array(x)

  /** They undo what the encoder writes. */
  ghost predicate Lawful(e: Engine) {
    && (forall t :: e.toDate(Some(JStr(e.iso(t)))) == Some(Some(t)))
    && (forall i :: e.toBigInt(Some(JStr(e.decimal(i)))) == Some(i))
    && (forall bytes :: e.toBytes(Some(JArr(Numbers(bytes)))) == Some(bytes))
  }

  const TAGS := {"bigint", "date", "uint8array", "map", "set"}

  function Tagged(lang: string, payload: Json): Json {
    JObj(map["__lang" := JStr(lang), "v" := payload])
  }

  function Numbers(bytes: seq<Utf8.Byte>): seq<Json> {
    seq(|bytes|, i requires 0 <= i < |bytes| => JNum(bytes[i] as real))
  }

  /** [k, v, k, v, ...] as entries [k, v]. */
  function PairUp(items: seq<Json>): seq<Json> {
    if |items| < 2 then [] else [JArr([items[0], items[1]])] + PairUp(items[2..])
  }

  function WritePrim(e: Engine, p: Prim): Json {
    match p
    case Bool(b) => JBool(b)
    case Num(n) => JNum(n)
    case Str(s) => JStr(s)
    case BigInt(i) => Tagged("bigint", JStr(e.decimal(i)))
    case _ => JNull
  }

  /** The JSON of an object of the given kind, from the JSON of its children. */
  function WriteNode(e: Engine, kind: Kind, kids: seq<Json>): Json {
    match kind
    case DateKind(time) => Tagged("date", JStr(if time.Some? then e.iso(time.value) else ""))
    case BytesKind(bytes) => Tagged("uint8array", JArr(Numbers(bytes)))
    case MapKind => Tagged("map", JArr(PairUp(kids)))
    case SetKind => Tagged("set", JArr(kids))
    case ArrayKind => JArr(kids)
  }

  /** The JSON of a saved value. */
  function Write(e: Engine, t: Tree): Json {
    match t
    case Leaf(p) => WritePrim(e, p)
    case Node(kind, kids) => WriteNode(e, kind, seq(|kids|, i requires 0 <= i < |kids| => Write(e, kids[i])))
    case Record(m) => JObj(map k | k in m :: Write(e, m[k]))
  }

  /** Values the encoder saves: nothing unsaveable inside, every kind with its own children. */
  ghost predicate Saved(t: Tree) {
    match t
    case Leaf(p) => !Unsaveable(p)
    case Node(kind, kids) =>
      && (kind.DateKind? ==> kind.time.Some?)
      && (kind.DateKind? || kind.BytesKind? ==> kids == [])
      && (kind.MapKind? ==> |kids| % 2 == 0)
      && forall i :: 0 <= i < |kids| ==> Saved(kids[i])
    case Record(m) => "__proto__" !in m && forall k :: k in m ==> Saved(m[k])
  }

  /** What the decoder can produce: as `Saved`, but dates may be invalid, and a Map may hold the
      `undefined` of an entry that was too short. */
  ghost predicate Decodable(t: Tree) {
    match t
    case Leaf(p) => !Unsaveable(p)
    case Node(kind, kids) =>
      && (kind.DateKind? || kind.BytesKind? ==> kids == [])
      && (kind.MapKind? ==> |kids| % 2 == 0)
      && NoTwins(kind, kids)
      && forall i :: 0 <= i < |kids| ==> Decodable(kids[i]) || (kind.MapKind? && kids[i] == Leaf(Undefined))
    case Record(m) => "__proto__" !in m && forall k :: k in m ==> Decodable(m[k])
  }

  /** Whether two members count as one to a Map or Set: only equal primitives do. */
  predicate Twins(a: Tree, b: Tree) {
    a.Leaf? && a == b
  }

  /** A Map has no key twice, a Set no member. */
  ghost predicate NoTwins(kind: Kind, kids: seq<Tree>) {
    && (kind.MapKind? ==>
          forall i, j :: 0 <= i < j < |kids| && i % 2 == 0 && j % 2 == 0 ==> !Twins(kids[i], kids[j]))
    && (kind.SetKind? ==> forall i, j :: 0 <= i < j < |kids| ==> !Twins(kids[i], kids[j]))
  }

  /** So it is with every Map and Set inside, as it always is in the engine. */
  ghost predicate Distinct(t: Tree) {
    match t
    case Leaf(_) => true
    case Node(kind, kids) => NoTwins(kind, kids) && forall i :: 0 <= i < |kids| ==> Distinct(kids[i])
    case Record(m) => forall k :: k in m ==> Distinct(m[k])
  }

  /** An object that the decoder takes for one of its own tags. */
  predicate Collides(m: map<string, Tree>) {
    "__lang" in m && m["__lang"].Leaf? && m["__lang"].p.Str? && m["__lang"].p.s in TAGS
  }

  /** No object anywhere inside collides. */
  ghost predicate Clear(t: Tree) {
    match t
    case Leaf(_) => true
    case Node(_, kids) => forall i :: 0 <= i < |kids| ==> Clear(kids[i])
    case Record(m) => !Collides(m) && forall k :: k in m ==> Clear(m[k])
  }

  // ----- The decoder ---------------------------------------------------------

  function LangOf(m: map<string, Json>): Option<string> {
    if "__lang" in m && m["__lang"].JStr? then Some(m["__lang"].s) else None
  }

  /** The members of a new Set. */
  function Unique(items: seq<Tree>): seq<Tree> {
    if items == [] then []
    else
      var n := |items| - 1;
      var front := Unique(items[..n]);
      if items[n].Leaf? && items[n] in front then front else front + [items[n]]
  }

  /** Adds an entry to a Map, given as [k, v, k, v, ...]. */
  function SetEntry(kids: seq<Tree>, k: Tree, v: Tree): seq<Tree> {
    if |kids| < 2 then [k, v]
    else if Twins(kids[0], k) then [kids[0], v] + kids[2..]
    else [kids[0], kids[1]] + SetEntry(kids[2..], k, v)
  }

  /** The entries of a new Map: a key keeps its first place and gets its last value. */
  function Merged(kids: seq<Tree>): seq<Tree> {
    if |kids| < 2 then []
    else
      var n := |kids| - 2;
      SetEntry(Merged(kids[..n]), kids[n], kids[n+1])
  }

  /** `untag`. None: the decoder throws. */
  function Untag(e: Engine, j: Json): Option<Tree>
    decreases j
  {
    match j
    case JNull => Some(Leaf(Null))
    case JBool(b) => Some(Leaf(Bool(b)))
    case JNum(n) => Some(Leaf(Num(n)))
    case JStr(s) => Some(Leaf(Str(s)))
    case JArr(items) =>
      var kids := UntagList(e, items);
      if kids.Some? then Some(Node(ArrayKind, kids.value)) else None
    case JObj(m) =>
      var lang := LangOf(m);
      if lang.Some? && lang.value in TAGS then
        if "v" in m && m["v"].JArr? && lang.value in {"map", "set"} then UntagMembers(e, lang.value, m["v"].items)
        else Convert(e, lang.value, if "v" in m then Some(m["v"]) else None)
      else if forall k :: k in m && k != "__proto__" ==> Untag(e, m[k]).Some? then
        Some(Record(map k | k in m && k != "__proto__" :: Untag(e, m[k]).value))
      else None
  }

  /** A tagged payload that the engine converts by itself. Of the others, only arrays can be mapped. */
  function Convert(e: Engine, lang: string, payload: Option<Json>): Option<Tree> {
    if lang == "bigint" then
      match e.toBigInt(payload) case Some(i) => Some(Leaf(BigInt(i))) case None => None
    else if lang == "date" then
      match e.toDate(payload) case Some(time) => Some(Node(DateKind(time), [])) case None => None
    else if lang == "uint8array" then
      match e.toBytes(payload) case Some(bytes) => Some(Node(BytesKind(bytes), [])) case None => None
    else None
  }

  function UntagMembers(e: Engine, lang: string, items: seq<Json>): Option<Tree>
    decreases items
  {
    if lang == "map" then
      var kids := UntagEntries(e, items);
      if kids.Some? then Some(Node(MapKind, Merged(kids.value))) else None
    else
      var kids := UntagList(e, items);
      if kids.Some? then Some(Node(SetKind, Unique(kids.value))) else None
  }

  function UntagList(e: Engine, items: seq<Json>): Option<seq<Tree>>
    decreases items, 0
  {
    if forall i :: 0 <= i < |items| ==> Untag(e, items[i]).Some? then
      Some(seq(|items|, i requires 0 <= i < |items| => Untag(e, items[i]).value))
    else None
  }

  /** Entries are destructured as [k, v]: from an array or the characters of a string, with
      `undefined` for what is missing. */
  function UntagEntries(e: Engine, entries: seq<Json>): Option<seq<Tree>>
    decreases entries, 0
  {
    if entries == [] then Some([])
    else
      var n := |entries| - 1;
      var front := UntagEntries(e, entries[..n]);
      var k, v := UntagPart(e, entries[n], 0), UntagPart(e, entries[n], 1);
      if front.Some? && k.Some? && v.Some? then Some(front.value + [k.value, v.value]) else None
  }

  function UntagPart(e: Engine, entry: Json, i: nat): Option<Tree>
    decreases entry
  {
    match entry
    case JArr(items) => if i < |items| then Untag(e, items[i]) else Some(Leaf(Undefined))
    case JStr(s) => Some(Leaf(if i < |s| then Str([s[i]]) else Undefined))
    case _ => None
  }

  // ----- The round trip --------------------------------------------------------

  ghost predicate RoundTrips(e: Engine, t: Tree) {
    Untag(e, Write(e, t)) == Some(t)
  }

  function WriteAll(e: Engine, ts: seq<Tree>): seq<Json> {
    seq(|ts|, i requires 0 <= i < |ts| => Write(e, ts[i]))
  }

  lemma {:induction false} UniqueExactly(items: seq<Tree>)
    ensures |Unique(items)| <= |items|
    ensures |Unique(items)| == |items| ==> Unique(items) == items
    ensures Unique(items) == items <==> NoTwins(SetKind, items)
    ensures forall t :: t in Unique(items) <==> t in items
    ensures NoTwins(SetKind, Unique(items))
  {
    if items != [] {
      var n := |items| - 1;
      UniqueExactly(items[..n]);
      assert items == items[..n] + [items[n]];
    }
  }

  ghost predicate KeyIn(kids: seq<Tree>, k: Tree) {
    exists i :: 0 <= i < |kids| && i % 2 == 0 && Twins(kids[i], k)
  }

  lemma {:induction false} SetEntryExactly(kids: seq<Tree>, k: Tree, v: Tree)
    requires |kids| % 2 == 0
    ensures var r := SetEntry(kids, k, v);
      && |r| % 2 == 0
      && (if KeyIn(kids, k) then |r| == |kids| && forall i :: 0 <= i < |kids| && i % 2 == 0 ==> r[i] == kids[i]
          else r == kids + [k, v])
  {
    if |kids| >= 2 {
      var rest := kids[2..];
      assert kids == [kids[0], kids[1]] + rest;
      SetEntryExactly(rest, k, v);
      KeyInRest(kids, k);
      hide KeyIn, Twins;
    }
  }

  lemma SetEntryGrows(kids: seq<Tree>, k: Tree, v: Tree)
    requires |kids| % 2 == 0
    ensures if KeyIn(kids, k) then |SetEntry(kids, k, v)| == |kids| else SetEntry(kids, k, v) == kids + [k, v]
  {
    SetEntryExactly(kids, k, v);
  }

  lemma KeyInRest(kids: seq<Tree>, k: Tree)
    requires |kids| >= 2
    ensures KeyIn(kids, k) <==> Twins(kids[0], k) || KeyIn(kids[2..], k)
  {
    var rest := kids[2..];
    hide Twins;
    if KeyIn(rest, k) {
      var i :| 0 <= i < |rest| && i % 2 == 0 && Twins(rest[i], k);
      assert Twins(kids[i+2], k);
    }
    if !Twins(kids[0], k) && KeyIn(kids, k) {
      var i :| 0 <= i < |kids| && i % 2 == 0 && Twins(kids[i], k);
      assert Twins(rest[i-2], k);
    }
  }

  lemma {:induction false} MergedHasNoTwins(kids: seq<Tree>)
    requires |kids| % 2 == 0
    ensures |Merged(kids)| % 2 == 0 && NoTwins(MapKind, Merged(kids))
  {
    if kids != [] {
      var n := |kids| - 2;
      var before := Merged(kids[..n]);
      MergedHasNoTwins(kids[..n]);
      hide Merged, SetEntry, NoTwins, KeyIn, Twins;
      MergedStep(kids);
      SetEntryExactly(before, kids[n], kids[n+1]);
      LastEntry(before, kids[n], kids[n+1]);
      if KeyIn(before, kids[n]) { SameKeys(before, Merged(kids)); }
    }
  }

  lemma {:induction false} MergedExactly(kids: seq<Tree>)
    requires |kids| % 2 == 0
    ensures |Merged(kids)| <= |kids|
    ensures |Merged(kids)| == |kids| ==> Merged(kids) == kids
    ensures Merged(kids) == kids <==> NoTwins(MapKind, kids)
  {
    if kids != [] {
      var n := |kids| - 2;
      var front, k, v := kids[..n], kids[n], kids[n+1];
      MergedExactly(front);
      MergedHasNoTwins(front);
      hide Merged, SetEntry, NoTwins, KeyIn, Twins;
      MergedStep(kids);
      SetEntryGrows(Merged(front), k, v);
      assert kids == front + [k, v];
      LastEntry(front, k, v);
    }
  }

  lemma {:induction false} EntryMembers(kids: seq<Tree>, k: Tree, v: Tree)
    ensures forall t :: t in SetEntry(kids, k, v) ==> t in kids || t == k || t == v
  {
    if |kids| >= 2 {
      EntryMembers(kids[2..], k, v);
      assert kids == [kids[0], kids[1]] + kids[2..];
    }
  }

  lemma {:induction false} MergedMembers(kids: seq<Tree>)
    ensures forall t :: t in Merged(kids) ==> t in kids
  {
    if |kids| >= 2 {
      var n := |kids| - 2;
      MergedMembers(kids[..n]);
      EntryMembers(Merged(kids[..n]), kids[n], kids[n+1]);
    }
  }

  lemma MergedStep(kids: seq<Tree>)
    requires |kids| >= 2
    ensures Merged(kids) == SetEntry(Merged(kids[..|kids|-2]), kids[|kids|-2], kids[|kids|-1])
  {}

  lemma LastEntry(front: seq<Tree>, k: Tree, v: Tree)
    requires |front| % 2 == 0
    ensures NoTwins(MapKind, front + [k, v]) <==> NoTwins(MapKind, front) && !KeyIn(front, k)
  {
    var all := front + [k, v];
    if NoTwins(MapKind, all) {
      forall i, j | 0 <= i < j < |front| && i % 2 == 0 && j % 2 == 0 ensures !Twins(front[i], front[j]) {
        assert !Twins(all[i], all[j]);
      }
      forall i | 0 <= i < |front| && i % 2 == 0 ensures !Twins(front[i], k) {
        assert !Twins(all[i], all[|front|]);
      }
    }
    if NoTwins(MapKind, front) && !KeyIn(front, k) {
      forall i, j | 0 <= i < j < |all| && i % 2 == 0 && j % 2 == 0 ensures !Twins(all[i], all[j]) {
        if j < |front| {
          assert !Twins(front[i], front[j]);
        } else {
          assert j == |front| && !Twins(front[i], k);
        }
      }
    }
  }

  lemma SameKeys(a: seq<Tree>, b: seq<Tree>)
    requires |a| == |b| && forall i :: 0 <= i < |a| && i % 2 == 0 ==> a[i] == b[i]
    ensures NoTwins(MapKind, a) ==> NoTwins(MapKind, b)
  {}

  /** The entries of a written Map decode as its keys and values do. */
  lemma {:induction false} EntriesAreList(e: Engine, w: seq<Json>)
    requires |w| % 2 == 0
    ensures UntagEntries(e, PairUp(w)) == UntagList(e, w)
  {
    if w != [] {
      var n := |w| - 2;
      var front, k, v := w[..n], w[n], w[n+1];
      assert w == front + [k, v];
      EntriesAreList(e, front);
      PairUpSnoc(front, k, v);
      LastEntryDecodes(e, PairUp(front), k, v);
      LastTwoDecode(e, front, k, v);
      hide *;
    } else {
      assert UntagList(e, w).value == [];
    }
  }

  lemma LastTwoDecode(e: Engine, front: seq<Json>, k: Json, v: Json)
    ensures UntagList(e, front + [k, v])
         == if UntagList(e, front).Some? && Untag(e, k).Some? && Untag(e, v).Some?
            then Some(UntagList(e, front).value + [Untag(e, k).value, Untag(e, v).value])
            else None
  {
    var all, n := front + [k, v], |front|;
    hide Untag;
    assert all[n] == k && all[n+1] == v && forall i :: 0 <= i < n ==> all[i] == front[i];
    if UntagList(e, front).Some? && Untag(e, k).Some? && Untag(e, v).Some? {
      assert forall i :: 0 <= i < |all| ==> Untag(e, all[i]).Some?;
      assert UntagList(e, all).value == UntagList(e, front).value + [Untag(e, k).value, Untag(e, v).value];
    }
  }

  lemma LastEntryDecodes(e: Engine, entries: seq<Json>, k: Json, v: Json)
    ensures UntagEntries(e, entries + [JArr([k, v])])
         == if UntagEntries(e, entries).Some? && Untag(e, k).Some? && Untag(e, v).Some?
            then Some(UntagEntries(e, entries).value + [Untag(e, k).value, Untag(e, v).value])
            else None
  {
    var entry := JArr([k, v]);
    assert (entries + [entry])[..|entries|] == entries;
    assert UntagPart(e, entry, 0) == Untag(e, k) && UntagPart(e, entry, 1) == Untag(e, v);
  }

  lemma {:induction false} PairUpSnoc(items: seq<Json>, k: Json, v: Json)
    requires |items| % 2 == 0
    ensures PairUp(items + [k, v]) == PairUp(items) + [JArr([k, v])]
  {
    if items == [] {
      assert items + [k, v] == [k, v] && PairUp([k, v][2..]) == [];
    } else {
      PairUpSnoc(items[2..], k, v);
      assert (items + [k, v])[2..] == items[2..] + [k, v];
    }
  }

  lemma ListRoundTrip(e: Engine, kids: seq<Tree>)
    ensures UntagList(e, WriteAll(e, kids)) == Some(kids) <==> forall i :: 0 <= i < |kids| ==> RoundTrips(e, kids[i])
  {
    var w := WriteAll(e, kids);
    assert forall i :: 0 <= i < |kids| ==> w[i] == Write(e, kids[i]);
    if UntagList(e, w) == Some(kids) {
      forall i | 0 <= i < |kids| ensures RoundTrips(e, kids[i]) {
        assert Untag(e, w[i]).value == UntagList(e, w).value[i];
      }
    }
    if forall i :: 0 <= i < |kids| ==> RoundTrips(e, kids[i]) {
      assert forall i :: 0 <= i < |w| ==> Untag(e, w[i]).Some?;
      assert UntagList(e, w).Some? && UntagList(e, w).value == kids;
    }
  }

  /** How the written form of an object decodes, from how its children do. */
  lemma NodeDecodes(e: Engine, t: Tree)
    requires Lawful(e) && Saved(t) && t.Node?
    ensures Untag(e, Write(e, t))
         == match t.kind
            case MapKind =>
              var kids := UntagList(e, WriteAll(e, t.kids));
              if kids.Some? then Some(Node(MapKind, Merged(kids.value))) else None
            case SetKind =>
              var kids := UntagList(e, WriteAll(e, t.kids));
              if kids.Some? then Some(Node(SetKind, Unique(kids.value))) else None
            case ArrayKind =>
              var kids := UntagList(e, WriteAll(e, t.kids));
              if kids.Some? then Some(Node(ArrayKind, kids.value)) else None
            case _ => Some(t)
  {
    var w, j := WriteAll(e, t.kids), Write(e, t);
    assert j == WriteNode(e, t.kind, w);
    match t.kind
    case DateKind(time) =>
      var ms := time.value;
      assert e.toDate(Some(JStr(e.iso(ms)))) == Some(Some(ms)) && time == Some(ms);
      assert Untag(e, j) == Convert(e, "date", Some(JStr(e.iso(ms))));
    case BytesKind(bytes) =>
      assert Untag(e, j) == Convert(e, "uint8array", Some(JArr(Numbers(bytes))));
    case MapKind =>
      EntriesAreList(e, w);
      assert Untag(e, j) == UntagMembers(e, "map", PairUp(w));
    case SetKind => assert Untag(e, j) == UntagMembers(e, "set", w);
    case ArrayKind =>
  }

  lemma NodeRoundTrip(e: Engine, t: Tree)
    requires Lawful(e) && Saved(t) && t.Node?
    ensures RoundTrips(e, t)
       <==> NoTwins(t.kind, t.kids) && forall i :: 0 <= i < |t.kids| ==> RoundTrips(e, t.kids[i])
  {
    var w := WriteAll(e, t.kids);
    NodeDecodes(e, t);
    ListRoundTrip(e, t.kids);
    match t.kind
    case MapKind =>
      var kids := UntagList(e, w);
      if kids.Some? { MergedExactly(kids.value); }
    case SetKind =>
      var kids := UntagList(e, w);
      if kids.Some? { UniqueExactly(kids.value); }
    case _ =>
  }

  lemma RecordLang(e: Engine, m: map<string, Tree>, w: map<string, Json>)
    requires w == map k | k in m :: Write(e, m[k])
    ensures LangOf(w).Some? && LangOf(w).value in TAGS <==> Collides(m)
    ensures Collides(m) ==> LangOf(w) == Some(m["__lang"].p.s)
  {
    if "__lang" in m {
      var x := m["__lang"];
      assert w["__lang"] == Write(e, x);
      assert Write(e, x).JStr? <==> x.Leaf? && x.p.Str?;
    }
  }

  lemma RecordRoundTrip(e: Engine, m: map<string, Tree>)
    requires Saved(Record(m))
    ensures RoundTrips(e, Record(m)) <==> !Collides(m) && forall k :: k in m ==> RoundTrips(e, m[k])
  {
    var w := map k | k in m :: Write(e, m[k]);
    assert Write(e, Record(m)) == JObj(w);
    RecordLang(e, m, w);
    if Collides(m) {
      TaggedIsNoRecord(e, w);
    } else {
      assert forall k :: k in m ==> w[k] == Write(e, m[k]) && k != "__proto__";
      hide LangOf, Collides, Write;
      if forall k :: k in m ==> Untag(e, w[k]).Some? {
        var back := map k | k in w && k != "__proto__" :: Untag(e, w[k]).value;
        assert Untag(e, JObj(w)) == Some(Record(back));
        assert back.Keys == m.Keys;
        assert back == m <==> forall k :: k in m ==> back[k] == m[k];
      }
    }
  }

  lemma TaggedIsNoRecord(e: Engine, w: map<string, Json>)
    requires LangOf(w).Some? && LangOf(w).value in TAGS
    ensures Untag(e, JObj(w)).Some? ==> !Untag(e, JObj(w)).value.Record?
  {
    var lang := LangOf(w).value;
    var v := if "v" in w then Some(w["v"]) else None;
    assert Untag(e, JObj(w)) == if v.Some? && v.value.JArr? && lang in {"map", "set"}
                                then UntagMembers(e, lang, v.value.items) else Convert(e, lang, v);
  }

  /** A saved value survives writing and decoding exactly when no object inside it carries one
      of the decoder's own tags, and its Maps and Sets are such as the engine has. */
  lemma {:induction false} RoundTripExactly(e: Engine, t: Tree)
    requires Lawful(e) && Saved(t)
    ensures Untag(e, Write(e, t)) == Some(t) <==> Clear(t) && Distinct(t)
  {
    match t
    case Leaf(_) =>
    case Node(_, kids) =>
      NodeRoundTrip(e, t);
      forall i | 0 <= i < |kids| ensures RoundTrips(e, kids[i]) <==> Clear(kids[i]) && Distinct(kids[i]) {
        RoundTripExactly(e, kids[i]);
      }
    case Record(m) =>
      RecordRoundTrip(e, m);
      forall k | k in m ensures RoundTrips(e, m[k]) <==> Clear(m[k]) && Distinct(m[k]) {
        RoundTripExactly(e, m[k]);
      }
  }

  /** A user object that does not come back: it is decoded as a Set. */
  lemma CollisionExample(e: Engine)
    ensures var m := map["__lang" := Leaf(Str("set")), "v" := Node(ArrayKind, [])];
      Saved(Record(m)) && Untag(e, Write(e, Record(m))) == Some(Node(SetKind, []))
  {
    var m := map["__lang" := Leaf(Str("set")), "v" := Node(ArrayKind, [])];
    var w := map k | k in m :: Write(e, m[k]);
    assert Write(e, Record(m)) == JObj(w);
    assert w["__lang"] == JStr("set") && w["v"] == JArr([]);
    assert Untag(e, JObj(w)) == UntagMembers(e, "set", []);
    assert UntagList(e, []).value == [];
  }

  // ----- The format, place by place ------------------------------------------------

  /** `pos` are, in ascending order, exactly the places of `true`. */
  ghost predicate Places(pos: seq<nat>, flags: seq<bool>) {
    && (forall j :: 0 <= j < |pos| ==> pos[j] < |flags| && flags[pos[j]])
    && (forall i, j :: 0 <= i < j < |pos| ==> pos[i] < pos[j])
    && (forall i :: 0 <= i < |flags| && flags[i] ==> i in pos)
  }

  lemma PlacesSnoc(pos: seq<nat>, flags: seq<bool>, b: bool)
    requires Places(pos, flags)
    ensures Places(if b then pos + [|flags|] else pos, flags + [b])
  {
    var r, all := if b then pos + [|flags|] else pos, flags + [b];
    assert forall j :: 0 <= j < |pos| ==> r[j] == pos[j] && all[pos[j]] == flags[pos[j]];
    forall i | 0 <= i < |all| && all[i] ensures i in r {
      if i < |flags| { assert flags[i]; } else { assert r[|pos|] == i; }
    }
  }

  lemma {:induction false} PairUpAt(items: seq<Json>)
    ensures |PairUp(items)| == |items| / 2
    ensures forall j :: 0 <= j < |PairUp(items)| ==> PairUp(items)[j] == JArr([items[2*j], items[2*j+1]])
  {
    if |items| >= 2 {
      PairUpAt(items[2..]);
      forall j | 1 <= j < |items| / 2 ensures PairUp(items)[j] == JArr([items[2*j], items[2*j+1]]) {
        assert PairUp(items)[j] == PairUp(items[2..])[j-1];
      }
    }
  }

  /** The JSON of a tree, as the documents that hold it are read by others. */
  ghost predicate Formatted(e: Engine, t: Tree, j: Json) {
    match t
    case Leaf(Bool(b)) => j == JBool(b)
    case Leaf(Num(n)) => j == JNum(n)
    case Leaf(Str(s)) => j == JStr(s)
    case Leaf(BigInt(i)) => j == JObj(map["__lang" := JStr("bigint"), "v" := JStr(e.decimal(i))])
    case Leaf(_) => j == JNull
    case Node(DateKind(Some(time)), _) => j == JObj(map["__lang" := JStr("date"), "v" := JStr(e.iso(time))])
    case Node(DateKind(None), _) => true
    case Node(BytesKind(bytes), _) =>
      && IsTagged(j, "uint8array") && |j.fields["v"].items| == |bytes|
      && forall i :: 0 <= i < |bytes| ==> j.fields["v"].items[i] == JNum(bytes[i] as real)
    case Node(MapKind, kids) =>
      && IsTagged(j, "map") && |j.fields["v"].items| == |kids| / 2
      && forall i :: 0 <= i < |kids| / 2 ==>
           j.fields["v"].items[i] == JArr([Write(e, kids[2*i]), Write(e, kids[2*i+1])])
    case Node(SetKind, kids) =>
      && IsTagged(j, "set") && |j.fields["v"].items| == |kids|
      && forall i :: 0 <= i < |kids| ==> j.fields["v"].items[i] == Write(e, kids[i])
    case Node(ArrayKind, kids) =>
      && j.JArr? && |j.items| == |kids|
      && forall i :: 0 <= i < |kids| ==> j.items[i] == Write(e, kids[i])
    case Record(m) =>
      && j.JObj? && j.fields.Keys == m.Keys
      && forall k :: k in m ==> j.fields[k] == Write(e, m[k])
  }

  /** An object with two fields: the tag, and an array of items. */
  ghost predicate IsTagged(j: Json, tag: string) {
    && j.JObj? && j.fields.Keys == {"__lang", "v"}
    && j.fields["__lang"] == JStr(tag) && j.fields["v"].JArr?
  }

  lemma WireFormat(e: Engine, t: Tree)
    ensures Formatted(e, t, Write(e, t))
  {
    if t.Node? {
      var w := WriteAll(e, t.kids);
      assert Write(e, t) == WriteNode(e, t.kind, w);
      assert |w| == |t.kids| && forall i :: 0 <= i < |w| ==> w[i] == Write(e, t.kids[i]);
      PairUpAt(w);
      hide Write, WriteAll, PairUp;
    }
  }

  /** The members of which no earlier one is the same to a Set. */
  ghost function FirstMembers(items: seq<Tree>): seq<bool> {
    seq(|items|, i requires 0 <= i < |items| => IsFirst(items, i))
  }

  ghost predicate IsFirst(items: seq<Tree>, i: nat)
    requires i < |items|
  {
    forall j :: 0 <= j < i ==> !Twins(items[j], items[i])
  }

  /** A new Set holds the first of each, in order. */
  lemma {:induction false} UniquePlaces(items: seq<Tree>) returns (pos: seq<nat>)
    ensures Places(pos, FirstMembers(items)) && |Unique(items)| == |pos|
    ensures forall j :: 0 <= j < |pos| ==> Unique(items)[j] == items[pos[j]]
  {
    if items == [] {
      pos := [];
    } else {
      var n := |items| - 1;
      var front, last := items[..n], items[n];
      var b := last.Leaf? && last in front;
      pos := UniquePlaces(front);
      UniqueStep(items, b);
      FirstSnoc(items, b);
      FirstLength(front, pos);
      PlacesSnoc(pos, FirstMembers(front), !b);
      assert items == front + [last];
      hide *;
      if !b {
        PickLast(front, last, Unique(front), pos);
        pos := pos + [n];
      }
    }
  }

  lemma PickLast(items: seq<Tree>, last: Tree, picked: seq<Tree>, pos: seq<nat>)
    requires |picked| == |pos| && forall j :: 0 <= j < |pos| ==> pos[j] < |items| && picked[j] == items[pos[j]]
    ensures forall j :: 0 <= j <= |pos| ==>
      (pos + [|items|])[j] <= |items| && (picked + [last])[j] == (items + [last])[(pos + [|items|])[j]]
  {}

  lemma UniqueStep(items: seq<Tree>, b: bool)
    requires items != [] && (b <==> items[|items|-1].Leaf? && items[|items|-1] in items[..|items|-1])
    ensures Unique(items) == Unique(items[..|items|-1]) + (if b then [] else [items[|items|-1]])
  {
    UniqueExactly(items[..|items|-1]);
  }

  lemma FirstLength(items: seq<Tree>, pos: seq<nat>)
    requires Places(pos, FirstMembers(items))
    ensures |FirstMembers(items)| == |items|
    ensures forall j :: 0 <= j < |pos| ==> pos[j] < |items|
  {}

  lemma FirstSnoc(items: seq<Tree>, b: bool)
    requires items != [] && (b <==> items[|items|-1].Leaf? && items[|items|-1] in items[..|items|-1])
    ensures FirstMembers(items) == FirstMembers(items[..|items|-1]) + [!b]
  {
    var n := |items| - 1;
    if b {
      var j :| 0 <= j < n && items[..n][j] == items[n];
      assert Twins(items[j], items[n]);
    }
    forall i | 0 <= i < n ensures IsFirst(items, i) <==> IsFirst(items[..n], i) {}
  }

  function KeysOf(kids: seq<Tree>): seq<Tree> {
    if |kids| < 2 then [] else [kids[0]] + KeysOf(kids[2..])
  }

  function ValuesOf(kids: seq<Tree>): seq<Tree> {
    if |kids| < 2 then [] else [kids[1]] + ValuesOf(kids[2..])
  }

  /** The keys are every other item, from the first on, and the values those between. */
  lemma {:induction false} KeysAndValues(kids: seq<Tree>)
    ensures |KeysOf(kids)| == |ValuesOf(kids)| == |kids| / 2
    ensures forall i :: 0 <= i < |kids| / 2 ==> KeysOf(kids)[i] == kids[2*i] && ValuesOf(kids)[i] == kids[2*i+1]
  {
    if |kids| >= 2 {
      KeysAndValues(kids[2..]);
      forall i | 0 < i < |kids| / 2 ensures KeysOf(kids)[i] == kids[2*i] && ValuesOf(kids)[i] == kids[2*i+1] {
        assert kids[2..][2*(i-1)] == kids[2*i] && kids[2..][2*(i-1)+1] == kids[2*i+1];
      }
    }
  }

  lemma {:induction false} LastPair(front: seq<Tree>, k: Tree, v: Tree)
    requires |front| % 2 == 0
    ensures KeysOf(front + [k, v]) == KeysOf(front) + [k] && ValuesOf(front + [k, v]) == ValuesOf(front) + [v]
  {
    if front == [] {
      assert [] + [k, v] == [k, v] && [k, v][2..] == [];
    } else {
      LastPair(front[2..], k, v);
      assert (front + [k, v])[2..] == front[2..] + [k, v];
    }
  }

  /** No key is there twice. */
  ghost predicate KeysDiffer(keys: seq<Tree>) {
    forall i, j :: 0 <= i < j < |keys| ==> !Twins(keys[i], keys[j])
  }

  ghost predicate Known(keys: seq<Tree>, k: Tree) {
    exists i :: 0 <= i < |keys| && Twins(keys[i], k)
  }

  /** Setting an entry replaces the value of a known key, or adds the entry at the end. */
  ghost predicate SetIn(keys: seq<Tree>, values: seq<Tree>, k: Tree, v: Tree, keys': seq<Tree>, values': seq<Tree>)
    requires |keys| == |values|
  {
    if Known(keys, k) then
      && keys' == keys && |values'| == |values|
      && forall i :: 0 <= i < |keys| ==> values'[i] == if Twins(keys[i], k) then v else values[i]
    else keys' == keys + [k] && values' == values + [v]
  }

  lemma {:induction false} SetsEntry(kids: seq<Tree>, k: Tree, v: Tree)
    requires |kids| % 2 == 0 && KeysDiffer(KeysOf(kids))
    ensures |KeysOf(kids)| == |ValuesOf(kids)|
    ensures SetIn(KeysOf(kids), ValuesOf(kids), k, v, KeysOf(SetEntry(kids, k, v)), ValuesOf(SetEntry(kids, k, v)))
  {
    if kids == [] {
      assert [k, v][2..] == [];
    } else {
      var a, b, rest := kids[0], kids[1], kids[2..];
      var keys, values := KeysOf(rest), ValuesOf(rest);
      TailDiffers(a, keys);
      SetsEntry(rest, k, v);
      assert KeysOf(kids) == [a] + keys && ValuesOf(kids) == [b] + values;
      var r := SetEntry(rest, k, v);
      assert Twins(a, k) ==> ([a, v] + rest)[2..] == rest;
      assert !Twins(a, k) ==> ([a, b] + r)[2..] == r;
      SetCons(a, b, keys, values, k, v, KeysOf(r), ValuesOf(r));
    }
  }

  lemma TailDiffers(a: Tree, keys: seq<Tree>)
    requires KeysDiffer([a] + keys)
    ensures KeysDiffer(keys) && (Twins(a, a) ==> !Known(keys, a))
  {
    var all := [a] + keys;
    assert forall i :: 0 <= i < |keys| ==> all[i+1] == keys[i];
    forall i | 0 <= i < |keys| && a.Leaf? ensures !Twins(keys[i], a) {
      assert !Twins(all[0], all[i+1]);
    }
  }

  lemma SetCons(a: Tree, b: Tree, keys: seq<Tree>, values: seq<Tree>, k: Tree, v: Tree,
                keys': seq<Tree>, values': seq<Tree>)
    requires |keys| == |values| && SetIn(keys, values, k, v, keys', values')
    requires Twins(a, a) ==> !Known(keys, a)
    ensures if Twins(a, k) then SetIn([a] + keys, [b] + values, k, v, [a] + keys, [v] + values)
            else SetIn([a] + keys, [b] + values, k, v, [a] + keys', [b] + values')
  {
    KnownCons(a, keys, k);
    hide Known, Twins;
    if Twins(a, k) {
      var all := [a] + keys;
      forall i | 0 <= i < |all| ensures ([v] + values)[i] == if Twins(all[i], k) then v else ([b] + values)[i] {
        if i > 0 { assert all[i] == keys[i-1] && !Twins(keys[i-1], k); }
      }
    } else if Known(keys, k) {
      var all := [a] + keys;
      forall i | 0 <= i < |all| ensures ([b] + values')[i] == if Twins(all[i], k) then v else ([b] + values)[i] {
        if i > 0 { assert all[i] == keys[i-1]; }
      }
    }
  }

  lemma KnownCons(a: Tree, keys: seq<Tree>, k: Tree)
    requires Twins(a, a) ==> !Known(keys, a)
    ensures Known([a] + keys, k) <==> Twins(a, k) || Known(keys, k)
    ensures Twins(a, k) ==> forall i :: 0 <= i < |keys| ==> !Twins(keys[i], k)
  {
    var all := [a] + keys;
    if i :| 0 <= i < |keys| && Twins(keys[i], k) { assert Twins(all[i+1], k); }
    if Twins(a, k) { assert Twins(all[0], k); }
  }

  /** The last place of the key at place i. */
  ghost predicate LastAt(keys: seq<Tree>, i: nat, l: nat) {
    && i <= l < |keys| && (l == i || Twins(keys[l], keys[i]))
    && forall m :: l < m < |keys| ==> !Twins(keys[m], keys[i])
  }

  /** A new Map holds each key where it came first, with the value that came last. */
  ghost predicate MergedAs(keys: seq<Tree>, values: seq<Tree>, keys': seq<Tree>, values': seq<Tree>, pos: seq<nat>) {
    && |keys| == |values| && Places(pos, FirstMembers(keys)) && |keys'| == |values'| == |pos|
    && forall j :: 0 <= j < |pos| ==> pos[j] < |keys| && keys'[j] == keys[pos[j]]
                                      && LastValue(keys, values, pos[j], values'[j])
  }

  ghost predicate LastValue(keys: seq<Tree>, values: seq<Tree>, i: nat, v: Tree)
    requires |keys| == |values|
  {
    exists l: nat :: LastAt(keys, i, l) && values[l] == v
  }

  /** The first of a kind is among the firsts. */
  lemma {:induction false} HasFirst(items: seq<Tree>, i: nat) returns (f: nat)
    requires i < |items| && items[i].Leaf?
    ensures f <= i && items[f] == items[i] && IsFirst(items, f)
    decreases i
  {
    if j :| 0 <= j < i && Twins(items[j], items[i]) {
      f := HasFirst(items, j);
    } else {
      f := i;
    }
  }

  lemma {:induction false} MergedPlaces(kids: seq<Tree>) returns (pos: seq<nat>)
    requires |kids| % 2 == 0
    ensures MergedAs(KeysOf(kids), ValuesOf(kids), KeysOf(Merged(kids)), ValuesOf(Merged(kids)), pos)
  {
    if kids == [] {
      pos := [];
    } else {
      var n := |kids| - 2;
      var front, k, v := kids[..n], kids[n], kids[n+1];
      assert kids == front + [k, v];
      var before := MergedPlaces(front);
      LastPair(front, k, v);
      MergedStep(kids);
      MergedHasNoTwins(front);
      MergedDiffer(Merged(front));
      SetsEntry(Merged(front), k, v);
      hide *;
      pos := MergeOne(KeysOf(front), ValuesOf(front), k, v, KeysOf(Merged(front)), ValuesOf(Merged(front)),
                      KeysOf(Merged(kids)), ValuesOf(Merged(kids)), before);
    }
  }

  lemma MergedDiffer(kids: seq<Tree>)
    requires NoTwins(MapKind, kids)
    ensures KeysDiffer(KeysOf(kids))
  {
    KeysAndValues(kids);
    hide Twins;
    forall i, j | 0 <= i < j < |KeysOf(kids)| ensures !Twins(KeysOf(kids)[i], KeysOf(kids)[j]) {
      assert !Twins(kids[2*i], kids[2*j]);
    }
  }

  lemma MergeOne(keys: seq<Tree>, values: seq<Tree>, k: Tree, v: Tree, mk: seq<Tree>, mv: seq<Tree>,
                 mk': seq<Tree>, mv': seq<Tree>, before: seq<nat>) returns (pos: seq<nat>)
    requires MergedAs(keys, values, mk, mv, before) && |mk| == |mv| && SetIn(mk, mv, k, v, mk', mv')
    ensures MergedAs(keys + [k], values + [v], mk', mv', pos)
  {
    var b := k.Leaf? && k in keys;
    SameKey(keys, values, mk, mv, before, k);
    assert (keys + [k])[..|keys|] == keys;
    FirstSnoc(keys + [k], b);
    FirstLength(keys, before);
    PlacesSnoc(before, FirstMembers(keys), !b);
    pos := if b then before else before + [|keys|];
    hide Places, FirstMembers, Known;
    forall j | 0 <= j < |pos|
      ensures pos[j] < |keys + [k]| && mk'[j] == (keys + [k])[pos[j]]
      ensures LastValue(keys + [k], values + [v], pos[j], mv'[j])
    {
      if j < |before| {
        LastAfter(keys, values, k, v, before[j], mv[j]);
      } else {
        assert LastAt(keys + [k], |keys|, |keys|);
      }
    }
  }

  lemma LastAfter(keys: seq<Tree>, values: seq<Tree>, k: Tree, v: Tree, i: nat, w: Tree)
    requires |keys| == |values| && i < |keys| && LastValue(keys, values, i, w)
    ensures LastValue(keys + [k], values + [v], i, if Twins(keys[i], k) then v else w)
  {
    var l: nat :| LastAt(keys, i, l) && values[l] == w;
    var all := keys + [k];
    if Twins(keys[i], k) {
      assert LastAt(all, i, |keys|);
    } else {
      forall m | l < m < |all| ensures !Twins(all[m], all[i]) {
        if m < |keys| { assert all[m] == keys[m]; }
      }
      assert LastAt(all, i, l);
    }
  }

  lemma SameKey(keys: seq<Tree>, values: seq<Tree>, mk: seq<Tree>, mv: seq<Tree>, pos: seq<nat>, k: Tree)
    requires MergedAs(keys, values, mk, mv, pos)
    ensures Known(mk, k) <==> k.Leaf? && k in keys
  {
    if k.Leaf? && k in keys {
      var i :| 0 <= i < |keys| && keys[i] == k;
      var f := HasFirst(keys, i);
      assert FirstMembers(keys)[f];
      var j :| 0 <= j < |pos| && pos[j] == f;
      assert Twins(mk[j], k);
    }
    if Known(mk, k) {
      var j :| 0 <= j < |mk| && Twins(mk[j], k);
      assert keys[pos[j]] == k;
    }
  }

  // ----- What can be decoded at all -----------------------------------------------

  /** Every colliding object inside has a payload that its tag can take. */
  ghost predicate Restores(e: Engine, t: Tree) {
    match t
    case Leaf(_) => true
    case Node(_, kids) => forall i :: 0 <= i < |kids| ==> Restores(e, kids[i])
    case Record(m) =>
      if !Collides(m) then forall k :: k in m ==> Restores(e, m[k])
      else
        var lang := m["__lang"].p.s;
        if lang in {"map", "set"} then
          && "v" in m && IsArray(m["v"])
          && forall i :: 0 <= i < |m["v"].kids| ==>
               if lang == "set" then Restores(e, m["v"].kids[i]) else EntryRestores(e, m["v"].kids[i])
        else Convert(e, lang, if "v" in m then Some(Write(e, m["v"])) else None).Some?
  }

  predicate IsArray(t: Tree) {
    t.Node? && t.kind.ArrayKind?
  }

  /** A string, or an array of which the first two items can be decoded. */
  ghost predicate EntryRestores(e: Engine, t: Tree) {
    || (t.Leaf? && t.p.Str?)
    || (IsArray(t) && forall i :: 0 <= i < |t.kids| && i < 2 ==> Restores(e, t.kids[i]))
  }

  lemma PartRestores(e: Engine, t: Tree)
    requires IsArray(t) ==> forall i :: 0 <= i < |t.kids| ==>
               (Untag(e, Write(e, t.kids[i])).Some? <==> Restores(e, t.kids[i]))
    ensures UntagPart(e, Write(e, t), 0).Some? && UntagPart(e, Write(e, t), 1).Some? <==> EntryRestores(e, t)
  {
    if IsArray(t) {
      var w := WriteAll(e, t.kids);
      assert Write(e, t) == JArr(w);
      if UntagPart(e, JArr(w), 0).Some? && UntagPart(e, JArr(w), 1).Some? {
        forall i | 0 <= i < |t.kids| && i < 2 ensures Restores(e, t.kids[i]) {
          assert UntagPart(e, JArr(w), i) == Untag(e, w[i]);
        }
      }
      if EntryRestores(e, t) {
        assert |t.kids| > 0 ==> Restores(e, t.kids[0]);
        assert |t.kids| > 1 ==> Restores(e, t.kids[1]);
      }
    }
  }

  lemma {:induction false} EntriesRestore(e: Engine, ts: seq<Tree>)
    ensures UntagEntries(e, WriteAll(e, ts)).Some?
       <==> forall i :: 0 <= i < |ts| ==>
              UntagPart(e, Write(e, ts[i]), 0).Some? && UntagPart(e, Write(e, ts[i]), 1).Some?
  {
    if ts != [] {
      var n := |ts| - 1;
      EntriesRestore(e, ts[..n]);
      assert WriteAll(e, ts)[..n] == WriteAll(e, ts[..n]);
    }
  }

  lemma ListRestores(e: Engine, ts: seq<Tree>)
    ensures UntagList(e, WriteAll(e, ts)).Some? <==> forall i :: 0 <= i < |ts| ==> Untag(e, Write(e, ts[i])).Some?
  {
    var w := WriteAll(e, ts);
    assert forall i :: 0 <= i < |ts| ==> w[i] == Write(e, ts[i]);
  }

  /** A saved value can be decoded, to whatever it may be, exactly when it restores. */
  lemma {:induction false} RestoresExactly(e: Engine, t: Tree)
    requires Lawful(e) && Saved(t)
    ensures Untag(e, Write(e, t)).Some? <==> Restores(e, t)
    decreases t
  {
    match t
    case Leaf(_) =>
    case Node(_, kids) =>
      forall i | 0 <= i < |kids| ensures Untag(e, Write(e, kids[i])).Some? <==> Restores(e, kids[i]) {
        RestoresExactly(e, kids[i]);
      }
      NodeDecodes(e, t);
      ListRestores(e, kids);
    case Record(m) =>
      forall k | k in m ensures Untag(e, Write(e, m[k])).Some? <==> Restores(e, m[k]) {
        RestoresExactly(e, m[k]);
      }
      if Collides(m) {
        if "v" in m && IsArray(m["v"]) {
          forall i | 0 <= i < |m["v"].kids| ensures ChildrenAgree(e, m["v"].kids[i]) {
            var kid := m["v"].kids[i];
            RestoresExactly(e, kid);
            if IsArray(kid) {
              forall k | 0 <= k < |kid.kids|
                ensures Untag(e, Write(e, kid.kids[k])).Some? <==> Restores(e, kid.kids[k])
              {
                RestoresExactly(e, kid.kids[k]);
              }
            }
          }
        }
        CollisionRestores(e, m);
      } else {
        RecordRestores(e, m);
      }
  }

  lemma RecordRestores(e: Engine, m: map<string, Tree>)
    requires Saved(Record(m)) && !Collides(m)
    ensures Untag(e, Write(e, Record(m))).Some? <==> forall k :: k in m ==> Untag(e, Write(e, m[k])).Some?
  {
    var w := map k | k in m :: Write(e, m[k]);
    assert Write(e, Record(m)) == JObj(w);
    RecordLang(e, m, w);
    assert forall k :: k in m ==> w[k] == Write(e, m[k]) && k != "__proto__";
  }

  lemma MembersRestore(e: Engine, lang: string, kids: seq<Tree>)
    requires lang in {"map", "set"} && forall i :: 0 <= i < |kids| ==> ChildrenAgree(e, kids[i])
    ensures UntagMembers(e, lang, WriteAll(e, kids)).Some?
       <==> forall i :: 0 <= i < |kids| ==> if lang == "set" then Restores(e, kids[i]) else EntryRestores(e, kids[i])
  {
    ListRestores(e, kids);
    EntriesRestore(e, kids);
    forall i | 0 <= i < |kids|
      ensures UntagPart(e, Write(e, kids[i]), 0).Some? && UntagPart(e, Write(e, kids[i]), 1).Some?
         <==> EntryRestores(e, kids[i])
      ensures Untag(e, Write(e, kids[i])).Some? <==> Restores(e, kids[i])
    {
      assert ChildrenAgree(e, kids[i]);
      PartRestores(e, kids[i]);
    }
    hide Write, WriteAll, UntagPart, ChildrenAgree, EntryRestores;
  }

  lemma CollisionRestores(e: Engine, m: map<string, Tree>)
    requires Lawful(e) && Saved(Record(m)) && Collides(m)
    requires "v" in m && IsArray(m["v"]) ==> forall i :: 0 <= i < |m["v"].kids| ==> ChildrenAgree(e, m["v"].kids[i])
    ensures Untag(e, Write(e, Record(m))).Some? <==> Restores(e, Record(m))
  {
    var w := map k | k in m :: Write(e, m[k]);
    assert Write(e, Record(m)) == JObj(w);
    RecordLang(e, m, w);
    var lang := m["__lang"].p.s;
    if "v" in m && IsArray(m["v"]) {
      var kids := m["v"].kids;
      assert w["v"] == JArr(WriteAll(e, kids));
      if lang in {"map", "set"} {
        assert Untag(e, JObj(w)) == UntagMembers(e, lang, WriteAll(e, kids));
        MembersRestore(e, lang, kids);
      }
      hide Write, WriteAll, UntagMembers, ChildrenAgree, Saved, Lawful;
    } else if "v" in m {
      assert w["v"] == Write(e, m["v"]) && !w["v"].JArr?;
    }
  }

  /** The claim of `RestoresExactly` for a value and, if it is an array, for its items. */
  ghost predicate ChildrenAgree(e: Engine, t: Tree) {
    && (Untag(e, Write(e, t)).Some? <==> Restores(e, t))
    && (IsArray(t) ==> forall i :: 0 <= i < |t.kids| ==>
          (Untag(e, Write(e, t.kids[i])).Some? <==> Restores(e, t.kids[i])))
  }

  /** An object that cannot be decoded: its tag promises a number that its text is not. */
  lemma UndecodableExample(e: Engine)
    requires e.toBigInt(Some(JStr("abc"))) == None
    ensures var m := map["__lang" := Leaf(Str("bigint")), "v" := Leaf(Str("abc"))];
      Saved(Record(m)) && Untag(e, Write(e, Record(m))) == None
  {
    var m := map["__lang" := Leaf(Str("bigint")), "v" := Leaf(Str("abc"))];
    var w := map k | k in m :: Write(e, m[k]);
    assert Write(e, Record(m)) == JObj(w);
    assert w["__lang"] == JStr("bigint") && w["v"] == JStr("abc");
  }

  // ----- What the decoder produces ---------------------------------------------------

  lemma {:induction false} UntagDecodable(e: Engine, j: Json)
    ensures Untag(e, j).Some? ==> Decodable(Untag(e, j).value)
    decreases j
  {
    match j
    case JArr(items) => UntagListDecodable(e, items);
    case JObj(m) =>
      var lang := LangOf(m);
      if lang.Some? && lang.value in TAGS {
        if "v" in m && m["v"].JArr? && lang.value in {"map", "set"} {
          UntagMembersDecodable(e, lang.value, m["v"].items);
        }
      } else {
        forall k | k in m && k != "__proto__" ensures Untag(e, m[k]).Some? ==> Decodable(Untag(e, m[k]).value) {
          UntagDecodable(e, m[k]);
        }
      }
    case _ =>
  }

  lemma {:induction false} UntagMembersDecodable(e: Engine, lang: string, items: seq<Json>)
    requires lang in {"map", "set"}
    ensures UntagMembers(e, lang, items).Some? ==> Decodable(UntagMembers(e, lang, items).value)
    decreases items
  {
    UntagListDecodable(e, items);
    UntagEntriesDecodable(e, items);
    if lang == "map" {
      var kids := UntagEntries(e, items);
      if kids.Some? {
        MergedHasNoTwins(kids.value);
        MergedMembers(kids.value);
        forall t | t in Merged(kids.value) ensures MapPart(t) { assert t in kids.value; }
        assert forall i :: 0 <= i < |Merged(kids.value)| ==> MapPart(Merged(kids.value)[i]);
      }
    } else {
      var kids := UntagList(e, items);
      if kids.Some? {
        UniqueExactly(kids.value);
        assert forall t :: t in Unique(kids.value) ==> t in kids.value;
      }
    }
  }

  lemma {:induction false} UntagListDecodable(e: Engine, items: seq<Json>)
    ensures UntagList(e, items).Some? ==> forall t :: t in UntagList(e, items).value ==> Decodable(t)
    decreases items, 0
  {
    forall i | 0 <= i < |items| ensures Untag(e, items[i]).Some? ==> Decodable(Untag(e, items[i]).value) {
      UntagDecodable(e, items[i]);
    }
  }

  ghost predicate MapPart(t: Tree) {
    Decodable(t) || t == Leaf(Undefined)
  }

  lemma {:induction false} UntagEntriesDecodable(e: Engine, entries: seq<Json>)
    ensures var r := UntagEntries(e, entries);
      r.Some? ==> |r.value| % 2 == 0 && forall t :: t in r.value ==> MapPart(t)
    decreases entries, 0
  {
    if entries != [] {
      var n := |entries| - 1;
      UntagEntriesDecodable(e, entries[..n]);
      UntagPartDecodable(e, entries[n], 0);
      UntagPartDecodable(e, entries[n], 1);
    }
  }

  lemma {:induction false} UntagPartDecodable(e: Engine, entry: Json, i: nat)
    ensures UntagPart(e, entry, i).Some? ==> MapPart(UntagPart(e, entry, i).value)
    decreases entry
  {
    if entry.JArr? && i < |entry.items| {
      UntagDecodable(e, entry.items[i]);
    }
  }
}
