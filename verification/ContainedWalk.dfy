/** Resolving a logical path inside a fixed root: links are read, never followed by the system, and no step leaves
    the root. */
module ContainedWalk {
  import opened Base
  import opened Pieces

  const STEP_LIMIT := 163840

  type Path = seq<string>

  // ---------------------------------------------------------------- trees

  /** A path as text: relative, or absolute and then given by what follows the root if it lies below it. */
  datatype Link = Relative(text: string) | Absolute(below: Option<string>)

  datatype Node = File(bytes: string) | Dir(entries: map<string, Node>) | Symlink(target: Link)

  /** The node at an absolute path, following nothing. */
  function Lookup(node: Node, path: Path): Option<Node> {
    if path == [] then Some(node)
    else if node.Dir? && path[0] in node.entries then Lookup(node.entries[path[0]], path[1..])
    else None
  }

  datatype Error = Invalid | Outside | TooLong | TooManyLinks | NotFound | NotDirectory | NotRegular | TooLarge
  datatype Result = Ok(names: seq<string>, bytes: string) | Err(error: Error)

  predicate Plain(part: string) { part != "" && part != "." && part != ".." }

  datatype World = World(fs: Node, root: Path, hopLimit: nat, limit: nat)

  // ---------------------------------------------------------------- path text

  ghost predicate NoSlash(parts: seq<string>) { Free(parts, '/') }

  /** The pieces between slashes; there is always at least one. */
  function Split(s: string): (parts: seq<string>)
    ensures parts != [] && NoSlash(parts)
  {
    Cut(s, '/')
  }

  function Join(parts: seq<string>): string
    requires parts != []
  {
    Glue(parts, '/')
  }

  /** Splitting a joined path gives back its names. */
  lemma SplitJoin(parts: seq<string>)
    requires parts != [] && NoSlash(parts)
    ensures Split(Join(parts)) == parts
  {
    CutGlue(parts, '/');
  }

  // ---------------------------------------------------------------- the walk as a function

  function Walk(w: World, names: seq<string>, pending: seq<string>, hops: nat, steps: nat): Result
    decreases STEP_LIMIT - steps
  {
    if pending == [] then Err(NotRegular)
    else if steps + 1 > STEP_LIMIT then Err(TooLong)
    else
      var part, rest := pending[0], pending[1..];
      if part == "" || part == "." then Walk(w, names, rest, hops, steps + 1)
      else if part == ".." then
        if names == [] then Err(Outside) else Walk(w, names[..|names| - 1], rest, hops, steps + 1)
      else
        match Lookup(w.fs, w.root + (names + [part]))
        case None => Err(NotFound)
        case Some(Symlink(target)) =>
          if hops + 1 > w.hopLimit then Err(TooManyLinks)
          else (match target
                case Relative(text) => Walk(w, names, Split(text) + rest, hops + 1, steps + 1)
                case Absolute(None) => Err(Outside)
                case Absolute(Some(text)) => Walk(w, [], Split(text) + rest, hops + 1, steps + 1))
        case Some(File(bytes)) =>
          if rest != [] then Err(NotDirectory) else if |bytes| > w.limit then Err(TooLarge) else Ok(names + [part], bytes)
        case Some(Dir(_)) =>
          if rest == [] then Err(NotRegular) else Walk(w, names + [part], rest, hops, steps + 1)
  }

  /** Every name on the stack is a plain name of a real directory, in order. */
  ghost predicate Real(w: World, names: seq<string>) { forall i :: 0 <= i < |names| ==> RealAt(w, names, i) }

  ghost predicate RealAt(w: World, names: seq<string>, i: nat)
    requires i < |names|
  {
    Plain(names[i]) && IsDir(w, names[..i + 1])
  }

  predicate IsDir(w: World, names: seq<string>) {
    var node := Lookup(w.fs, w.root + names);
    node.Some? && node.value.Dir?
  }

  lemma RealPush(w: World, names: seq<string>, part: string)
    requires Real(w, names) && Plain(part) && IsDir(w, names + [part])
    ensures Real(w, names + [part])
  {
    hide Lookup;
    var all := names + [part];
    forall i | 0 <= i < |all|
      ensures RealAt(w, all, i)
    {
      if i < |names| {
        assert RealAt(w, names, i) && all[..i + 1] == names[..i + 1];
      } else {
        assert all[..i + 1] == all;
      }
    }
  }

  lemma RealPop(w: World, names: seq<string>)
    requires Real(w, names) && names != []
    ensures Real(w, names[..|names| - 1])
  {
    hide Lookup;
    var front := names[..|names| - 1];
    forall i | 0 <= i < |front|
      ensures RealAt(w, front, i)
    {
      assert RealAt(w, names, i);
      assert front[..i + 1] == names[..i + 1] && front[i] == names[i];
    }
  }

  /** A canonical result: real directories down to a regular file, all below the root, none of it a link. */
  ghost predicate Canonical(w: World, names: seq<string>, bytes: string) {
    && 0 < |names| <= STEP_LIMIT && Real(w, names[..|names| - 1]) && Plain(names[|names| - 1])
    && Lookup(w.fs, w.root + names) == Some(File(bytes)) && |bytes| <= w.limit
  }

  lemma {:induction false} WalkCanonical(w: World, names: seq<string>, pending: seq<string>, hops: nat, steps: nat)
    requires Real(w, names) && |names| <= steps && Walk(w, names, pending, hops, steps).Ok?
    requires NoSlash(names) && NoSlash(pending)
    ensures NoSlash(Walk(w, names, pending, hops, steps).names)
    ensures Canonical(w, Walk(w, names, pending, hops, steps).names, Walk(w, names, pending, hops, steps).bytes)
    decreases STEP_LIMIT - steps
  {
    hide Real, Canonical, Lookup;
    var part, rest := pending[0], pending[1..];
    if part == "" || part == "." {
      WalkCanonical(w, names, rest, hops, steps + 1);
    } else if part == ".." {
      RealPop(w, names);
      WalkCanonical(w, names[..|names| - 1], rest, hops, steps + 1);
    } else {
      var node := Lookup(w.fs, w.root + (names + [part])).value;
      match node {
        case Symlink(Relative(text)) => WalkCanonical(w, names, Split(text) + rest, hops + 1, steps + 1);
        case Symlink(Absolute(below)) =>
          RealNone(w);
          WalkCanonical(w, [], Split(below.value) + rest, hops + 1, steps + 1);
        case File(bytes) => CanonicalHere(w, names, part, bytes);
        case Dir(_) =>
          RealPush(w, names, part);
          WalkCanonical(w, names + [part], rest, hops, steps + 1);
      }
    }
  }

  lemma RealNone(w: World)
    ensures Real(w, [])
  {
  }

  lemma CanonicalHere(w: World, names: seq<string>, part: string, bytes: string)
    requires Real(w, names) && Plain(part) && |names| < STEP_LIMIT && |bytes| <= w.limit
    requires Lookup(w.fs, w.root + (names + [part])) == Some(File(bytes))
    ensures Canonical(w, names + [part], bytes)
  {
    assert (names + [part])[..|names|] == names;
  }

  /** From any prefix of a canonical path the walk goes straight to its file. */
  lemma {:induction false} StraightOn(w: World, names: seq<string>, bytes: string, i: nat)
    requires Canonical(w, names, bytes) && i < |names|
    ensures Walk(w, names[..i], names[i..], 0, i) == Ok(names, bytes)
    decreases |names| - i
  {
    var part, rest := names[i], names[i + 1..];
    assert names[i..][0] == part && names[i..][1..] == rest;
    var here := names[..i] + [part];
    assert here == names[..i + 1];
    if i + 1 == |names| {
      assert here == names && rest == [];
    } else {
      var front := names[..|names| - 1];
      assert RealAt(w, front, i) && front[i] == part && front[..i + 1] == here;
      StraightOn(w, names, bytes, i + 1);
    }
  }

  /** On an unchanged tree the canonical result is a fixed point: walking the returned path yields it and its bytes again. */
  lemma FixedPoint(w: World, text: string)
    requires Walk(w, [], Split(text), 0, 0).Ok?
    ensures var r := Walk(w, [], Split(text), 0, 0);
            Canonical(w, r.names, r.bytes) && Walk(w, [], Split(Join(r.names)), 0, 0) == r
  {
    RealNone(w);
    WalkCanonical(w, [], Split(text), 0, 0);
    var r := Walk(w, [], Split(text), 0, 0);
    SplitJoin(r.names);
    StraightOn(w, r.names, r.bytes, 0);
    assert r.names[..0] == [] && r.names[0..] == r.names;
  }

  // ---------------------------------------------------------------- the walk over open directories

  /** The open directories: the root and one for each name. */
  ghost predicate InStep(root: Path, dirs: seq<Path>, names: seq<string>) {
    |dirs| == |names| + 1 && forall i :: 0 <= i < |dirs| ==> dirs[i] == root + names[..i]
  }

  /** A plain name in a directory that is reached from the root through real directories only: no `..`, and no link
      on the way to be followed. */
  ghost predicate BelowBy(w: World, path: Path, names: seq<string>, part: string) {
    path == w.root + (names + [part]) && Real(w, names) && Plain(part) && NoSlash(names + [part])
  }

  ghost predicate Below(w: World, path: Path) { exists names, part :: BelowBy(w, path, names, part) }

  ghost predicate AllBelow(w: World, reached: seq<Path>) { forall i :: 0 <= i < |reached| ==> Below(w, reached[i]) }

  lemma SlashJoin(a: seq<string>, b: seq<string>)
    requires NoSlash(a) && NoSlash(b)
    ensures NoSlash(a + b) && NoSlash([])
  {
  }

  lemma SlashParts(a: seq<string>)
    requires NoSlash(a) && a != []
    ensures NoSlash([a[0]]) && NoSlash(a[1..]) && NoSlash(a[..|a| - 1])
  {
  }

  lemma NoneBelow(w: World)
    ensures AllBelow(w, [])
  {
  }

  lemma BelowPush(w: World, reached: seq<Path>, names: seq<string>, part: string)
    requires AllBelow(w, reached) && Real(w, names) && Plain(part) && NoSlash(names + [part])
    ensures AllBelow(w, reached + [w.root + (names + [part])])
  {
    hide Real;
    var all := reached + [w.root + (names + [part])];
    assert BelowBy(w, all[|reached|], names, part);
    forall i | 0 <= i < |all|
      ensures Below(w, all[i])
    {
      assert i < |reached| ==> all[i] == reached[i];
    }
  }

  /** What lies below the root stays below it when the path is read name by name: every proper prefix past the root is
      a directory of the tree itself, and no name climbs. */
  lemma BelowContained(w: World, path: Path)
    requires Below(w, path)
    ensures w.root < path && forall i :: |w.root| <= i < |path| ==> Plain(path[i]) && '/' !in path[i]
    ensures forall i :: |w.root| < i < |path| ==> Lookup(w.fs, path[..i]).Some? && Lookup(w.fs, path[..i]).value.Dir?
  {
    hide Lookup;
    var names, part :| BelowBy(w, path, names, part);
    forall i | |w.root| <= i < |path|
      ensures Plain(path[i]) && '/' !in path[i]
    {
      assert path[i] == (names + [part])[i - |w.root|];
      assert i < |path| - 1 ==> RealAt(w, names, i - |w.root|);
    }
    forall i | |w.root| < i < |path|
      ensures Lookup(w.fs, path[..i]).Some? && Lookup(w.fs, path[..i]).value.Dir?
    {
      assert RealAt(w, names, i - |w.root| - 1);
      assert path[..i] == w.root + names[..i - |w.root|];
    }
  }

  lemma InStepPush(root: Path, dirs: seq<Path>, names: seq<string>, part: string)
    requires InStep(root, dirs, names)
    ensures InStep(root, dirs + [root + (names + [part])], names + [part])
    ensures dirs[|dirs| - 1] + [part] == root + (names + [part])
  {
    var all, stack := names + [part], dirs + [root + (names + [part])];
    forall i | 0 <= i < |stack|
      ensures stack[i] == root + all[..i]
    {
      if i < |dirs| {
        assert all[..i] == names[..i];
      } else {
        assert all[..i] == all;
      }
    }
    assert names[..|names|] == names;
    Assoc(root, names, [part]);
  }

  lemma InStepPop(root: Path, dirs: seq<Path>, names: seq<string>)
    requires InStep(root, dirs, names) && names != []
    ensures InStep(root, dirs[..|dirs| - 1], names[..|names| - 1])
  {
    var front, stack := names[..|names| - 1], dirs[..|dirs| - 1];
    forall i | 0 <= i < |stack|
      ensures stack[i] == root + front[..i]
    {
      assert front[..i] == names[..i];
    }
  }

  lemma InStepRoot(root: Path)
    ensures InStep(root, [root], [])
  {
    assert root + [] == root;
  }

  predicate Malformed(logical: Link) {
    match logical
    case Relative(text) => text == "" || '\0' in text
    case Absolute(Some(text)) => '\0' in text
    case Absolute(None) => false
  }

  /** What a logical path resolves to: an absolute one must lie below the root. */
  function Resolve(w: World, logical: Link): Result {
    if Malformed(logical) then Err(Invalid)
    else if logical.Relative? then Walk(w, [], Split(logical.text), 0, 0)
    else if logical.below.Some? then Walk(w, [], Split(logical.below.value), 0, 0)
    else Err(Outside)
  }

  /** The directory and name stacks stay in step, the walk ends, and whether it succeeds or fails, every link it reads
      and every directory or file it opens is a plain name in a real directory below the root. */
  method ReadContained(w: World, logical: Link) returns (r: Result, ghost reached: seq<Path>)
    ensures AllBelow(w, reached)
    ensures r == Resolve(w, logical)
  {
    hide Lookup, Split, Real, AllBelow, NoSlash;
    reached := [];
    NoneBelow(w);
    if Malformed(logical) {
      return Err(Invalid), reached;
    }
    if logical == Absolute(None) {
      return Err(Outside), reached;
    }
    var pending := Split(if logical.Relative? then logical.text else logical.below.value);
    ghost var goal := Walk(w, [], pending, 0, 0);
    var dirs, names: seq<string> := [w.root], [];
    var hops, steps := 0, 0;
    InStepRoot(w.root);
    RealNone(w);
    SlashJoin(pending, pending);
    while pending != []
      invariant 0 <= steps <= STEP_LIMIT && 0 <= hops && InStep(w.root, dirs, names) && Real(w, names) && AllBelow(w, reached)
      invariant NoSlash(names) && NoSlash(pending)
      invariant goal == Walk(w, names, pending, hops, steps)
      decreases STEP_LIMIT - steps
    {
      var part := pending[0];
      var rest := pending[1..];
      SlashParts(pending);
      if steps + 1 > STEP_LIMIT {
        return Err(TooLong), reached;
      }
      steps := steps + 1;
      pending := rest;
      if part == "" || part == "." {
        continue;
      }
      if part == ".." {
        if |dirs| == 1 {
          return Err(Outside), reached;
        }
        InStepPop(w.root, dirs, names);
        RealPop(w, names);
        SlashParts(names);
        dirs, names := dirs[..|dirs| - 1], names[..|names| - 1];
        continue;
      }
      var here := dirs[|dirs| - 1] + [part];
      InStepPush(w.root, dirs, names, part);
      SlashJoin(names, [part]);
      BelowPush(w, reached, names, part);
      reached := reached + [here];
      var node := Lookup(w.fs, here);
      if node.None? {
        return Err(NotFound), reached;
      }
      match node.value {
        case Symlink(target) =>
          hops := hops + 1;
          if hops > w.hopLimit {
            return Err(TooManyLinks), reached;
          }
          if target == Absolute(None) {
            return Err(Outside), reached;
          }
          if target.Absolute? {
            InStepRoot(w.root);
            RealNone(w);
            dirs, names := [w.root], [];
          }
          var pieces := Split(if target.Relative? then target.text else target.below.value);
          SlashJoin(pieces, rest);
          pending := pieces + rest;
        case File(bytes) =>
          if rest != [] {
            return Err(NotDirectory), reached;
          }
          if |bytes| > w.limit {
            return Err(TooLarge), reached;
          }
          return Ok(names + [part], bytes), reached;
        case Dir(_) =>
          if rest == [] {
            return Err(NotRegular), reached;
          }
          RealPush(w, names, part);
          dirs, names := dirs + [here], names + [part];
      }
    }
    return Err(NotRegular), reached;
  }
}
