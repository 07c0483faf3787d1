/** File mounts: which mount a virtual path belongs to, and which host path it becomes, over a
    host file system without symbolic links. */
module Mounts {
  import opened Core

  /** A host path in canonical form: the names from the root down. */
  type HostPath = seq<string>

  datatype Entry = Directory | File

  type FileSystem = map<HostPath, Entry>

  /** A mount; `host` is its host path as configured, split at the slashes. */
  datatype Mount = Mount(virtualPath: string, host: seq<string>, writable: bool)

  function Denied(message: string): ErrorObject {
    ErrorObject("PERMISSION_DENIED", message)
  }

  // ----- Paths as strings ------------------------------------------------------------

  function TrimEnd(s: string): (r: string)
    ensures r <= s && (r == [] || r[|r|-1] != '/')
  {
    if s != [] && s[|s|-1] == '/' then TrimEnd(s[..|s|-1]) else s
  }

  function TrimStart(s: string): string {
    if s != [] && s[0] == '/' then TrimStart(s[1..]) else s
  }

  function NormalizeVirtualRoot(path: string): string {
    var trimmed := TrimEnd(path);
    if trimmed == [] then "/"
    else if trimmed[0] == '/' then trimmed
    else "/" + trimmed
  }

  /** The parts of a path between its slashes. */
  function Split(s: string): (parts: seq<string>)
    ensures parts != []
  {
    if s == [] then [""]
    else
      var rest := Split(s[1..]);
      Extended(s[0], rest)
  }

  predicate IsStep(part: string) {
    part != "" && part != "."
  }

  /** The parts that lead somewhere: neither empty nor ".". */
  function Steps(parts: seq<string>): seq<string> {
    if parts == [] then []
    else if IsStep(parts[0]) then [parts[0]] + Steps(parts[1..])
    else Steps(parts[1..])
  }

  function Components(s: string): seq<string> {
    Steps(Split(s))
  }

  lemma {:induction false} StepsMembers(parts: seq<string>, part: string)
    ensures part in Steps(parts) <==> part in parts && IsStep(part)
  {
    if parts != [] {
      assert parts == [parts[0]] + parts[1..];
      StepsMembers(parts[1..], part);
    }
  }

  lemma {:induction false} StepsConcat(a: seq<string>, b: seq<string>)
    ensures Steps(a + b) == Steps(a) + Steps(b)
  {
    if a == [] {
      assert a + b == b;
    } else {
      assert (a + b)[1..] == a[1..] + b;
      StepsConcat(a[1..], b);
    }
  }

  /** The parts of a path with one more character in front. */
  function Extended(c: char, parts: seq<string>): seq<string>
    requires parts != []
  {
    if c == '/' then [""] + parts else [[c] + parts[0]] + parts[1..]
  }

  lemma SplitCons(c: char, s: string)
    ensures Split([c] + s) == Extended(c, Split(s))
  {
    assert ([c] + s)[1..] == s;
  }

  lemma ExtendedConcat(c: char, a: seq<string>, b: seq<string>)
    requires a != []
    ensures Extended(c, a + b) == Extended(c, a) + b
  {}

  lemma {:induction false} SplitConcat(a: string, b: string)
    ensures Split(a + "/" + b) == Split(a) + Split(b)
  {
    if a == [] {
      SplitCons('/', b);
      assert a + "/" + b == ['/'] + b;
    } else {
      SplitConcat(a[1..], b);
      SplitCons(a[0], a[1..] + "/" + b);
      SplitCons(a[0], a[1..]);
      assert a == [a[0]] + a[1..];
      assert a + "/" + b == [a[0]] + (a[1..] + "/" + b);
      ExtendedConcat(a[0], Split(a[1..]), Split(b));
    }
  }

  lemma {:induction false} TrimKeepsComponents(s: string)
    ensures Components(TrimStart(s)) == Components(s)
    ensures Components(TrimEnd(s)) == Components(s)
  {
    TrimStartKeeps(s);
    TrimEndKeeps(s);
  }

  lemma {:induction false} TrimStartKeeps(s: string)
    ensures Components(TrimStart(s)) == Components(s)
  {
    if s != [] && s[0] == '/' {
      TrimStartKeeps(s[1..]);
      assert ([""] + Split(s[1..]))[1..] == Split(s[1..]);
    }
  }

  lemma {:induction false} TrimEndKeeps(s: string)
    ensures Components(TrimEnd(s)) == Components(s)
  {
    if s != [] && s[|s|-1] == '/' {
      var front := s[..|s|-1];
      TrimEndKeeps(front);
      assert s == front + "/" + "";
      SplitConcat(front, "");
      StepsConcat(Split(front), [""]);
      assert Steps([""]) == [];
    }
  }

  ghost predicate Normalised(v: string) {
    v == "/" || (v != [] && v[0] == '/' && v[|v|-1] != '/')
  }

  /** Normalisation yields exactly the normal forms, fixes them, and keeps the components. */
  lemma NormalizeExactly(path: string)
    ensures Normalised(NormalizeVirtualRoot(path))
    ensures Normalised(path) <==> NormalizeVirtualRoot(path) == path
    ensures Components(NormalizeVirtualRoot(path)) == Components(path)
  {
    var trimmed := TrimEnd(path);
    TrimKeepsComponents(path);
    if trimmed == [] {
      assert Split("/") == ["", ""] by { assert "/"[1..] == ""; }
      assert Components("") == [];
      assert Components("/") == [];
    } else if trimmed[0] != '/' {
      assert ("/" + trimmed)[1..] == trimmed;
      assert ([""] + Split(trimmed))[1..] == Split(trimmed);
    }
    if path == "/" {
      assert TrimEnd("/") == TrimEnd("");
    }
  }

  // ----- Which mount -------------------------------------------------------------------

  predicate Matches(mount: Mount, path: string) {
    Within(mount.virtualPath, path)
  }

  predicate Within(v: string, path: string) {
    path == v || v + "/" <= path
  }

  /** The longest matching mount; among equals the last. */
  function Choose(mounts: seq<Mount>, path: string): (chosen: Option<nat>)
    ensures chosen.Some? ==> chosen.value < |mounts| && Matches(mounts[chosen.value], path)
  {
    if mounts == [] then None
    else
      var n := |mounts| - 1;
      var before := Choose(mounts[..n], path);
      if !Matches(mounts[n], path) then before
      else if before.Some? && |mounts[before.value].virtualPath| > |mounts[n].virtualPath| then before
      else Some(n)
  }

  /** Mount i matches, no matching mount is longer, and no later one is as long. */
  ghost predicate Best(mounts: seq<Mount>, path: string, i: nat) {
    && i < |mounts| && Matches(mounts[i], path)
    && forall j :: 0 <= j < |mounts| && Matches(mounts[j], path) ==>
         if j <= i then |mounts[j].virtualPath| <= |mounts[i].virtualPath|
         else |mounts[j].virtualPath| < |mounts[i].virtualPath|
  }

  lemma {:induction false} ChosenIsBest(mounts: seq<Mount>, path: string)
    ensures match Choose(mounts, path)
            case Some(i) => Best(mounts, path, i)
            case None => forall j :: 0 <= j < |mounts| ==> !Matches(mounts[j], path)
  {
    if mounts != [] {
      var n := |mounts| - 1;
      ChosenIsBest(mounts[..n], path);
      forall j | 0 <= j < n ensures mounts[..n][j] == mounts[j] {}
    }
  }

  lemma ChooseExactly(mounts: seq<Mount>, path: string)
    ensures forall i: nat :: Choose(mounts, path) == Some(i) <==> Best(mounts, path, i)
    ensures Choose(mounts, path) == None <==> forall j :: 0 <= j < |mounts| ==> !Matches(mounts[j], path)
  {
    ChosenIsBest(mounts, path);
  }

  /** A mount matches exactly the paths whose parts start with its own. The root mount has two
      empty parts, so it matches only "/" and what starts with "//". */
  lemma {:induction false} MatchesExactly(mount: Mount, path: string)
    ensures Matches(mount, path) <==> Split(mount.virtualPath) <= Split(path)
    ensures mount.virtualPath == "/" ==> (Matches(mount, path) <==> path == "/" || "//" <= path)
  {
    var v := mount.virtualPath;
    PrefixParts(v, path);
    assert "/" + "/" == "//";
  }

  lemma {:induction false} PrefixParts(v: string, path: string)
    ensures Within(v, path) <==> Split(v) <= Split(path)
  {
    if v != [] && path != [] {
      var c, d, v', path' := v[0], path[0], v[1..], path[1..];
      PrefixParts(v', path');
      assert v == [c] + v' && path == [d] + path';
      assert v + "/" == [c] + (v' + "/");
      assert Within(v, path) <==> c == d && Within(v', path');
      SplitCons(c, v');
      SplitCons(d, path');
      SamePrefix(c, d, Split(v'), Split(path'));
    } else if v == [] && path != [] {
      SplitCons(path[0], path[1..]);
      assert path == [path[0]] + path[1..];
      assert v + "/" == "/" && Split(v) == [""];
      assert path[0] == '/' || Split(path)[0][0] == path[0];
      assert Within(v, path) <==> path[0] == '/';
      assert [""] <= Split(path) <==> Split(path)[0] == "";
    } else if v != [] {
      SplitCons(v[0], v[1..]);
      assert v == [v[0]] + v[1..];
      assert path == [] && Split(path) == [""];
      assert |Split(v)| > 1 || Split(v)[0] != "";
    }
  }

  lemma SamePrefix(c: char, d: char, vs: seq<string>, ps: seq<string>)
    requires vs != [] && ps != []
    ensures Extended(c, vs) <= Extended(d, ps) <==> c == d && vs <= ps
  {
    assert vs == [vs[0]] + vs[1..] && ps == [ps[0]] + ps[1..];
    var v, p := Extended(c, vs), Extended(d, ps);
    if c == '/' && d == '/' {
      assert v[1..] == vs && p[1..] == ps;
    } else if c == d {
      assert v[0][1..] == vs[0] && p[0][1..] == ps[0];
      assert v[1..] == vs[1..] && p[1..] == ps[1..];
    } else {
      assert c == '/' || v[0][0] == c;
      assert d == '/' || p[0][0] == d;
    }
  }

  /** Of two mounts that match a path, one lies within the other; equally long ones coincide. */
  lemma MatchesNest(a: Mount, b: Mount, path: string)
    requires Matches(a, path) && Matches(b, path) && |a.virtualPath| <= |b.virtualPath|
    ensures a.virtualPath <= b.virtualPath
    ensures a.virtualPath == b.virtualPath || Matches(a, b.virtualPath)
  {
    assert a.virtualPath == path[..|a.virtualPath|] && b.virtualPath == path[..|b.virtualPath|];
    if |a.virtualPath| < |b.virtualPath| {
      assert b.virtualPath[..|a.virtualPath| + 1] == path[..|a.virtualPath| + 1] == a.virtualPath + "/";
    }
  }

  // ----- Which host path -------------------------------------------------------------

  /** The root is a directory, and so is the parent of every entry. */
  ghost predicate WellFormed(fs: FileSystem) {
    && [] in fs && fs[[]] == Directory
    && forall p {:trigger HasParent(fs, p)} :: p in fs ==> HasParent(fs, p)
  }

  ghost predicate HasParent(fs: FileSystem, p: HostPath) {
    p == [] || IsDirectory(fs, Up(p))
  }

  predicate IsDirectory(fs: FileSystem, p: HostPath) {
    p in fs && fs[p] == Directory
  }

  function Up(p: HostPath): HostPath {
    if p == [] then [] else p[..|p|-1]
  }

  /** Path resolution by the host, part by part; None when something is missing or is no directory. */
  function Walk(fs: FileSystem, at: HostPath, parts: seq<string>): Option<HostPath>
    decreases |parts|
  {
    if parts == [] then Some(at)
    else if !IsDirectory(fs, at) then None
    else
      var next := if !IsStep(parts[0]) then at else if parts[0] == ".." then Up(at) else at + [parts[0]];
      if next in fs then Walk(fs, next, parts[1..]) else None
  }

  function Canonicalize(fs: FileSystem, parts: seq<string>): Option<HostPath> {
    Walk(fs, [], parts)
  }

  /** What is left of the path inside the mount. */
  function Suffix(mount: Mount, path: string): string
    requires Matches(mount, path)
  {
    TrimStart(path[|mount.virtualPath|..])
  }

  /** Without trailing parts that lead nowhere. */
  function Trimmed(parts: seq<string>): (r: seq<string>)
    ensures r <= parts && (r == [] || IsStep(r[|r|-1]))
  {
    if parts != [] && !IsStep(parts[|parts|-1]) then Trimmed(parts[..|parts|-1]) else parts
  }

  /** The canonical parent of `root` joined with `parts`. */
  function CanonicalParent(fs: FileSystem, root: HostPath, parts: seq<string>): Option<HostPath> {
    var steps := Trimmed(parts);
    if steps == [] then Some(Up(root))
    else Walk(fs, root, Trimmed(steps[..|steps|-1]))
  }

  function ResolveIn(fs: FileSystem, root: HostPath, parts: seq<string>): Result<HostPath> {
    match Walk(fs, root, parts)
    case Some(canonical) =>
      if root <= canonical then Ok(canonical) else Err(Denied("Path escapes mount boundary."))
    case None =>
      match CanonicalParent(fs, root, parts)
      case None => Err(Denied("Parent path is not accessible."))
      case Some(parent) =>
        if root <= parent then Ok(root + Steps(parts)) else Err(Denied("Path escapes mount boundary."))
  }

  function ResolveVirtualPath(fs: FileSystem, mounts: seq<Mount>, path: string, write: bool): Result<HostPath> {
    if '\0' in path || path == [] || path[0] != '/' then Err(Denied("Not an absolute virtual path."))
    else
      match Choose(mounts, path)
      case None => Err(Denied("No mount authorizes the path."))
      case Some(i) =>
        if write && !mounts[i].writable then Err(Denied("Mount is read-only."))
        else
          var parts := Split(Suffix(mounts[i], path));
          if ".." in parts then Err(Denied("Path traversal is not allowed."))
          else
            match Canonicalize(fs, mounts[i].host)
            case None => Err(Denied("Mount root is not accessible."))
            case Some(root) => ResolveIn(fs, root, parts)
  }

  lemma {:induction false} WalkStays(fs: FileSystem, at: HostPath, parts: seq<string>)
    requires WellFormed(fs) && at in fs
    ensures Walk(fs, at, parts).Some? ==> Walk(fs, at, parts).value in fs
    ensures ".." !in parts && Walk(fs, at, parts).Some? ==> Walk(fs, at, parts).value == at + Steps(parts)
    decreases |parts|
  {
    if parts != [] && IsDirectory(fs, at) {
      var next := if !IsStep(parts[0]) then at else if parts[0] == ".." then Up(at) else at + [parts[0]];
      if next in fs {
        WalkStays(fs, next, parts[1..]);
      }
    }
  }

  lemma {:induction false} AboveIsDirectory(fs: FileSystem, p: HostPath, more: seq<string>)
    requires WellFormed(fs) && p + more in fs && more != []
    ensures IsDirectory(fs, p)
    decreases |more|
  {
    var n := |more| - 1;
    assert HasParent(fs, p + more);
    assert Up(p + more) == p + more[..n];
    if n == 0 {
      assert p + more[..n] == p;
    } else {
      AboveIsDirectory(fs, p, more[..n]);
    }
  }

  /** Parts that end in a step are resolved exactly when the entry exists. */
  lemma {:induction false} WalkExactly(fs: FileSystem, at: HostPath, parts: seq<string>)
    requires WellFormed(fs) && at in fs && ".." !in parts
    requires parts == [] || IsStep(parts[|parts|-1])
    ensures Walk(fs, at, parts) == if at + Steps(parts) in fs then Some(at + Steps(parts)) else None
    decreases |parts|
  {
    WalkStays(fs, at, parts);
    if parts != [] && at + Steps(parts) in fs {
      StepsMembers(parts, parts[|parts|-1]);
      AboveIsDirectory(fs, at, Steps(parts));
      var next := if IsStep(parts[0]) then at + [parts[0]] else at;
      NextStep(at, parts);
      PrefixExists(fs, next, Steps(parts[1..]));
      hide WellFormed;
      WalkExactly(fs, next, parts[1..]);
    } else if parts == [] {
      assert at + [] == at;
    }
  }

  lemma NextStep(at: HostPath, parts: seq<string>)
    requires parts != []
    ensures at + Steps(parts) == (if IsStep(parts[0]) then at + [parts[0]] else at) + Steps(parts[1..])
  {
    if IsStep(parts[0]) {
      var rest := Steps(parts[1..]);
      assert Steps(parts) == [parts[0]] + rest;
      assert at + ([parts[0]] + rest) == (at + [parts[0]]) + rest;
    }
  }

  lemma PrefixExists(fs: FileSystem, p: HostPath, more: seq<string>)
    requires WellFormed(fs) && p + more in fs
    ensures p in fs
  {
    if more == [] {
      assert p + more == p;
    } else {
      AboveIsDirectory(fs, p, more);
    }
  }

  lemma {:induction false} TrimmedSteps(parts: seq<string>)
    ensures Steps(Trimmed(parts)) == Steps(parts)
  {
    if parts != [] && !IsStep(parts[|parts|-1]) {
      var n := |parts| - 1;
      TrimmedSteps(parts[..n]);
      assert parts == parts[..n] + [parts[n]];
      StepsConcat(parts[..n], [parts[n]]);
    }
  }

  /** The canonical parent lies one step above. */
  lemma ParentExactly(fs: FileSystem, root: HostPath, parts: seq<string>)
    requires WellFormed(fs) && root in fs && ".." !in parts && Steps(parts) != []
    ensures var parent := root + Up(Steps(parts));
      CanonicalParent(fs, root, parts) == if parent in fs then Some(parent) else None
  {
    LastStep(parts);
    var t := Trimmed(parts);
    WalkExactly(fs, root, Trimmed(t[..|t|-1]));
  }

  lemma LastStep(parts: seq<string>)
    requires Steps(parts) != []
    ensures var t := Trimmed(parts);
      t != [] && Steps(Trimmed(t[..|t|-1])) == Up(Steps(parts))
  {
    var t := Trimmed(parts);
    TrimmedSteps(parts);
    var n := |t| - 1;
    assert t == t[..n] + [t[n]];
    StepsConcat(t[..n], [t[n]]);
    assert Steps([t[n]]) == [t[n]];
    TrimmedSteps(t[..n]);
  }

  /** Nothing to walk inside a mount succeeds exactly when its root is a directory. */
  lemma {:induction false} WalkNowhere(fs: FileSystem, root: HostPath, parts: seq<string>)
    requires root in fs && parts != [] && Steps(parts) == []
    ensures Walk(fs, root, parts) == if IsDirectory(fs, root) then Some(root) else None
  {
    assert !IsStep(parts[0]);
    if |parts| > 1 { WalkNowhere(fs, root, parts[1..]); }
  }

  /** Inside a mount root, `steps` can be used: the root itself must be a directory, and
      anything below it needs a parent that exists. */
  predicate Usable(fs: FileSystem, root: HostPath, steps: seq<string>) {
    if steps == [] then IsDirectory(fs, root) else root + Up(steps) in fs
  }

  lemma ResolveInExactly(fs: FileSystem, root: HostPath, parts: seq<string>)
    requires WellFormed(fs) && root in fs && ".." !in parts && parts != []
    ensures ResolveIn(fs, root, parts).Ok? <==> Usable(fs, root, Steps(parts))
    ensures ResolveIn(fs, root, parts).Ok? ==> ResolveIn(fs, root, parts).value == root + Steps(parts)
  {
    var steps := Steps(parts);
    WalkStays(fs, root, parts);
    if steps == [] {
      WalkNowhere(fs, root, parts);
      TrimmedSteps(parts);
      var t := Trimmed(parts);
      if t != [] { StepsMembers(t, t[|t|-1]); }
      assert t == [];
      assert root + [] == root;
    } else {
      ParentExactly(fs, root, parts);
      if Walk(fs, root, parts).Some? {
        assert HasParent(fs, root + steps) && Up(root + steps) == root + Up(steps);
      }
    }
  }

  /** The components of a path inside a mount are those of the mount, then those of the suffix. */
  lemma SuffixComponents(mount: Mount, path: string)
    requires Matches(mount, path)
    ensures Components(path) == Components(mount.virtualPath) + Components(Suffix(mount, path))
  {
    var v := mount.virtualPath;
    var rest := path[|v|..];
    TrimKeepsComponents(rest);
    if path == v {
      assert rest == "" && Components(rest) == [];
    } else {
      assert path == v + "/" + rest[1..];
      SplitConcat(v, rest[1..]);
      StepsConcat(Split(v), Split(rest[1..]));
      assert ([""] + Split(rest[1..]))[1..] == Split(rest[1..]);
    }
  }

  /** The path is well formed and mount i, the best for it, lets it through; below the mount it
      has no parent step, and the place it names is usable. */
  ghost predicate Authorized(fs: FileSystem, mounts: seq<Mount>, path: string, write: bool, i: nat) {
    && '\0' !in path && "/" <= path
    && Best(mounts, path, i)
    && (write ==> mounts[i].writable)
    && var inside := Inside(mounts[i], path);
       ".." !in inside && RootOf(fs, mounts[i]).Some? && Usable(fs, RootOf(fs, mounts[i]).value, inside)
  }

  function RootOf(fs: FileSystem, mount: Mount): Option<HostPath> {
    Canonicalize(fs, mount.host)
  }

  /** The components of the path after those of the mount. */
  function Inside(mount: Mount, path: string): seq<string> {
    var own := |Components(mount.virtualPath)|;
    if own <= |Components(path)| then Components(path)[own..] else []
  }

  lemma ResolveChosen(fs: FileSystem, mounts: seq<Mount>, path: string, write: bool, i: nat)
    requires WellFormed(fs) && '\0' !in path && "/" <= path && Choose(mounts, path) == Some(i)
    ensures var r := ResolveVirtualPath(fs, mounts, path, write);
      && (r.Ok? <==> Authorized(fs, mounts, path, write, i))
      && (r.Ok? ==> r.value == RootOf(fs, mounts[i]).value + Inside(mounts[i], path))
  {
    ChosenIsBest(mounts, path);
    var mount := mounts[i];
    SuffixComponents(mount, path);
    var parts := Split(Suffix(mount, path));
    assert Inside(mount, path) == Steps(parts);
    StepsMembers(parts, "..");
    if RootOf(fs, mount).Some? && ".." !in parts {
      WalkStays(fs, [], mount.host);
      ResolveInExactly(fs, RootOf(fs, mount).value, parts);
    }
    hide WellFormed, Best, Components, Inside, Usable, ResolveIn, Walk, Split, Steps;
  }

  /** Resolution succeeds exactly when the best mount authorizes the path, and yields the mount's
      host root followed by the rest of the path, so never a place outside the mount. */
  lemma ResolveExactly(fs: FileSystem, mounts: seq<Mount>, path: string, write: bool)
    requires WellFormed(fs)
    ensures var r := ResolveVirtualPath(fs, mounts, path, write);
      && (r.Ok? <==> exists i: nat :: Authorized(fs, mounts, path, write, i))
      && (r.Err? ==> r.error.code == "PERMISSION_DENIED")
      && forall i: nat :: Authorized(fs, mounts, path, write, i) ==>
           r == Ok(RootOf(fs, mounts[i]).value + Inside(mounts[i], path))
  {
    if Choose(mounts, path).Some? && '\0' !in path && "/" <= path {
      ResolveChosen(fs, mounts, path, write, Choose(mounts, path).value);
    }
    forall i: nat | Authorized(fs, mounts, path, write, i) ensures Choose(mounts, path) == Some(i) {
      ChooseExactly(mounts, path);
    }
    hide WellFormed, Best, Components, Inside, Usable, RootOf, Walk, Split, Steps;
  }

  /** A mount of a single file cannot be opened: the mount path itself is always refused. */
  lemma FileMountIsClosed(fs: FileSystem, mounts: seq<Mount>, i: nat, write: bool)
    requires WellFormed(fs) && i < |mounts| && Best(mounts, mounts[i].virtualPath, i)
    requires RootOf(fs, mounts[i]).Some? && !IsDirectory(fs, RootOf(fs, mounts[i]).value)
    ensures ResolveVirtualPath(fs, mounts, mounts[i].virtualPath, write).Err?
  {
    var path := mounts[i].virtualPath;
    ChooseExactly(mounts, path);
    assert Inside(mounts[i], path) == [];
    if '\0' !in path && "/" <= path {
      ResolveChosen(fs, mounts, path, write, i);
    }
    hide WellFormed, Best, Components, Inside, RootOf, Walk, Split, Steps;
  }

  /** A mount as its constructors build it. */
  function Mounted(virtualPath: string, host: seq<string>, writable: bool): Mount {
    Mount(NormalizeVirtualRoot(virtualPath), host, writable)
  }

  /** The file "/notes" of the host, mounted under its own name. */
  lemma FileMountExample(write: bool)
    ensures var fs: FileSystem := map[[] := Directory, ["notes"] := File];
      && WellFormed(fs)
      && ResolveVirtualPath(fs, [Mounted("/notes/", ["notes"], true)], "/notes", write).Err?
  {
    var fs: FileSystem := map[[] := Directory, ["notes"] := File];
    var mount := Mounted("/notes/", ["notes"], true);
    assert TrimEnd("/notes/") == "/notes" by { assert "/notes/"[..6] == "/notes"; }
    assert Up(["notes"]) == [];
    assert [] + ["notes"] == ["notes"];
    assert Walk(fs, ["notes"], []) == Some(["notes"]);
    assert RootOf(fs, mount) == Some(["notes"]) by { assert ["notes"][1..] == []; }
    assert Best([mount], "/notes", 0);
    FileMountIsClosed(fs, [mount], 0, write);
  }
}
