/** The scanner's symbolic-link check: link targets are normalised lexically, then
    resolved by replacing the shortest prefix that is itself a link. */
module SymlinkResolver {
  import opened Prelude

  /** A normalised path, as its list of components. */
  type Path = seq<string>

  datatype Link = Link(name: Option<Path>, target: string, relative: bool, path: string)

  datatype Kind = FileEntry | LinkEntry | DirectoryEntry

  /** The resolved target of each link. Several links may share the missing name. */
  type Targets = map<Option<Path>, Path>

  // ---- Normalising a name ----

  function Split(s: string): (parts: seq<string>)
    ensures |parts| >= 1 && forall p :: p in parts ==> '/' !in p
  {
    if s == "" then [""]
    else if s[0] == '/' then [""] + Split(s[1..])
    else var rest := Split(s[1..]); [[s[0]] + rest[0]] + rest[1..]
  }

  /** The loop of posixpath.normpath on a relative path. */
  function Collapse(stack: Path, parts: seq<string>): Path
    decreases |parts|
  {
    if parts == [] then stack else
    var part := parts[0];
    if part == "" || part == "." then Collapse(stack, parts[1..])
    else if part != ".." || stack == [] || stack[|stack| - 1] == ".." then Collapse(stack + [part], parts[1..])
    else Collapse(stack[..|stack| - 1], parts[1..])
  }

  predicate IsDrive(name: string) {
    |name| >= 2 && ('A' <= name[0] <= 'Z' || 'a' <= name[0] <= 'z') && name[1] == ':'
  }

  function Norm(name: string): Option<Path> {
    if name == "" || name[0] == '/' || '\\' in name || IsDrive(name) then None else
    var path := Collapse([], Split(name));
    if path == [] then Some(["."]) else if path[0] == ".." then None else Some(path)
  }

  /** How far below the starting directory a walk along these parts ends. */
  function Depth(parts: seq<string>): int {
    if parts == [] then 0 else
    var last := parts[|parts| - 1];
    Depth(parts[..|parts| - 1]) + if last == "" || last == "." then 0 else if last == ".." then -1 else 1
  }

  ghost predicate Climbs(parts: seq<string>, n: nat) {
    exists k :: 0 <= k <= n <= |parts| && Depth(parts[..k]) < 0
  }

  /** A stack of leading parents and then ordinary names. */
  ghost predicate Stacked(stack: Path) {
    && (forall c :: c in stack ==> c != "" && c != "." && '/' !in c)
    && (forall i, j :: 0 <= i < j < |stack| && stack[j] == ".." ==> stack[i] == "..")
  }

  lemma {:induction false} CollapseStacked(stack: Path, parts: seq<string>)
    requires Stacked(stack) && forall p :: p in parts ==> '/' !in p
    ensures Stacked(Collapse(stack, parts))
    decreases |parts|
  {
    if parts != [] {
      assert parts[0] in parts;
      var part, rest := parts[0], parts[1..];
      if part == "" || part == "." {
        CollapseStacked(stack, rest);
      } else if part != ".." || stack == [] || stack[|stack| - 1] == ".." {
        CollapseStacked(stack + [part], rest);
      } else {
        CollapseStacked(stack[..|stack| - 1], rest);
      }
    }
  }

  /** No component is empty, a parent or holds a separator: the path is relative
      and stays below its root. */
  ghost predicate Clean(path: Path) {
    path != [] && forall c :: c in path ==> c != "" && c != ".." && '/' !in c
  }

  lemma NormClean(name: string)
    requires Norm(name).Some?
    ensures Clean(Norm(name).value)
  {
    CollapseStacked([], Split(name));
    var path := Collapse([], Split(name));
    assert forall j :: 0 < j < |path| && path[j] == ".." ==> path[0] == "..";
  }

  /** The stack after `n` parts: the depth reached, or a parent at the bottom once
      the walk has climbed above its start. */
  ghost predicate Tracks(stack: Path, parts: seq<string>, n: nat)
    requires n <= |parts|
  {
    && Stacked(stack)
    && (Climbs(parts, n) <==> stack != [] && stack[0] == "..")
    && (!Climbs(parts, n) ==> Depth(parts[..n]) == |stack|)
  }

  lemma ClimbsStep(parts: seq<string>, n: nat)
    requires n < |parts|
    ensures Climbs(parts, n + 1) <==> Climbs(parts, n) || Depth(parts[..n + 1]) < 0
    ensures Depth(parts[..n + 1])
      == Depth(parts[..n]) + if parts[n] == "" || parts[n] == "." then 0 else if parts[n] == ".." then -1 else 1
  {
    assert parts[..n + 1][..n] == parts[..n];
    if Climbs(parts, n + 1) {
      var k :| 0 <= k <= n + 1 && Depth(parts[..k]) < 0;
      assert k <= n ==> Climbs(parts, n);
    }
    if Climbs(parts, n) {
      var k :| 0 <= k <= n && Depth(parts[..k]) < 0;
    }
  }

  lemma {:induction false} CollapseTracks(stack: Path, parts: seq<string>, n: nat)
    requires n <= |parts| && Tracks(stack, parts, n) && forall p :: p in parts ==> '/' !in p
    ensures var path := Collapse(stack, parts[n..]);
      path != [] && path[0] == ".." <==> Climbs(parts, |parts|)
    decreases |parts| - n
  {
    if n < |parts| {
      var part := parts[n];
      assert parts[n..][0] == part && parts[n..][1..] == parts[n + 1..] && part in parts;
      ClimbsStep(parts, n);
      if part == "" || part == "." {
        CollapseTracks(stack, parts, n + 1);
      } else if part != ".." || stack == [] || stack[|stack| - 1] == ".." {
        assert stack != [] && stack[|stack| - 1] == ".." ==> stack[0] == "..";
        CollapseTracks(stack + [part], parts, n + 1);
      } else {
        assert stack[0] == ".." ==> |stack| >= 2;
        CollapseTracks(stack[..|stack| - 1], parts, n + 1);
      }
    }
  }

  /** A relative name is refused exactly when its walk climbs above its start at
      some point, even if it comes back. */
  lemma NormRefusesClimbs(name: string)
    requires name != "" && name[0] != '/' && '\\' !in name && !IsDrive(name)
    ensures Norm(name).None? <==> Climbs(Split(name), |Split(name)|)
  {
    var parts := Split(name);
    assert parts[0..] == parts && parts[..0] == [];
    assert !Climbs(parts, 0);
    CollapseTracks([], parts, 0);
  }

  /** The name is empty, absolute, has a backslash or a drive letter, or climbs. */
  ghost predicate Outside(name: string) {
    || name == "" || name[0] == '/' || '\\' in name
    || (|name| > 1 && name[1] == ':' && ('a' <= name[0] <= 'z' || 'A' <= name[0] <= 'Z'))
    || Climbs(Split(name), |Split(name)|)
  }

  /** Just such names are refused. */
  lemma NormRefusesIff(name: string)
    ensures Norm(name).None? <==> Outside(name)
  {
    if name != "" && name[0] != '/' && '\\' !in name && !IsDrive(name) {
      NormRefusesClimbs(name);
    }
  }

  // ---- Resolving ----

  /** The shortest prefix of at least `i` components that is a link. */
  function LinkPrefix(targets: Targets, path: Path, i: nat): (n: Option<nat>)
    requires i >= 1
    ensures n.Some? ==> i <= n.value <= |path| && Some(path[..n.value]) in targets
    decreases |path| - i
  {
    if i > |path| then None
    else if Some(path[..i]) in targets then Some(i)
    else LinkPrefix(targets, path, i + 1)
  }

  lemma {:induction false} LinkPrefixShortest(targets: Targets, path: Path, i: nat, k: nat)
    requires 1 <= i <= k <= |path| && Some(path[..k]) in targets
    ensures LinkPrefix(targets, path, i).Some? && LinkPrefix(targets, path, i).value <= k
    decreases |path| - i
  {
    if Some(path[..i]) !in targets {
      LinkPrefixShortest(targets, path, i + 1, k);
    }
  }

  /** The link that the next substitution replaces. */
  function NextLink(targets: Targets, path: Path): Option<Path> {
    var n := LinkPrefix(targets, path, 1);
    if n.None? then None else Some(path[..n.value])
  }

  function Substitute(targets: Targets, path: Path): Path
    requires NextLink(targets, path).Some?
  {
    var n := LinkPrefix(targets, path, 1).value;
    targets[Some(path[..n])] + path[n..]
  }

  datatype Outcome = Cyclic | Ends(at: Path)

  function Resolve(targets: Targets, seen: set<Option<Path>>, current: Path): Outcome
    decreases targets.Keys - seen
  {
    var link := NextLink(targets, current);
    if link.None? then Ends(current)
    else if link in seen then Cyclic
    else
      assert link in targets.Keys - seen && link !in targets.Keys - (seen + {link});
      Resolve(targets, seen + {link}, Substitute(targets, current))
  }

  /** The while loop of `validate_links`: it ends because `seen` only takes links. */
  method ResolveLink(targets: Targets, name: Option<Path>) returns (outcome: Outcome)
    requires name in targets
    ensures outcome == Resolve(targets, {name}, targets[name])
  {
    var seen, current := {name}, targets[name];
    while true
      invariant Resolve(targets, seen, current) == Resolve(targets, {name}, targets[name])
      decreases targets.Keys - seen
    {
      var prefix := NextLink(targets, current);
      if prefix.None? {
        return Ends(current);
      }
      if prefix in seen {
        return Cyclic;
      }
      assert prefix in targets.Keys - seen && prefix !in targets.Keys - (seen + {prefix});
      current := Substitute(targets, current);
      seen := seen + {prefix};
    }
  }

  // ---- What a resolution does ----

  /** The path after `k` substitutions, as long as there is something to substitute. */
  function After(targets: Targets, current: Path, k: nat): Option<Path>
    decreases k
  {
    if k == 0 then Some(current)
    else if NextLink(targets, current).None? then None
    else After(targets, Substitute(targets, current), k - 1)
  }

  /** The link that substitution `k` replaces. */
  function Replaced(targets: Targets, current: Path, k: nat): Option<Path> {
    var path := After(targets, current, k);
    if path.None? then None else NextLink(targets, path.value)
  }

  ghost predicate Revisits(targets: Targets, seen: set<Option<Path>>, current: Path) {
    || (exists j: nat :: Replaced(targets, current, j).Some? && Replaced(targets, current, j) in seen)
    || (exists i: nat, j: nat :: i < j && Replaced(targets, current, j).Some?
          && Replaced(targets, current, i) == Replaced(targets, current, j))
  }

  lemma RevisitsStep(targets: Targets, seen: set<Option<Path>>, current: Path)
    requires NextLink(targets, current).Some? && NextLink(targets, current) !in seen
    ensures Revisits(targets, seen, current)
      <==> Revisits(targets, seen + {NextLink(targets, current)}, Substitute(targets, current))
  {
    var link, next := NextLink(targets, current), Substitute(targets, current);
    assert forall k: nat :: k > 0 ==> Replaced(targets, current, k) == Replaced(targets, next, k - 1);
    assert Replaced(targets, current, 0) == link;
    if Revisits(targets, seen, current) {
      if j: nat :| Replaced(targets, current, j).Some? && Replaced(targets, current, j) in seen {
        assert Replaced(targets, next, j - 1) in seen + {link};
      } else {
        var i: nat, j: nat :| i < j && Replaced(targets, current, j).Some?
          && Replaced(targets, current, i) == Replaced(targets, current, j);
        assert Replaced(targets, next, j - 1) == Replaced(targets, current, j);
        if i > 0 {
          assert Replaced(targets, next, i - 1) == Replaced(targets, current, i);
        }
      }
    }
    if Revisits(targets, seen + {link}, next) {
      if j: nat :| Replaced(targets, next, j).Some? && Replaced(targets, next, j) in seen + {link} {
        assert Replaced(targets, current, j + 1) == Replaced(targets, next, j);
      } else {
        var i: nat, j: nat :| i < j && Replaced(targets, next, j).Some?
          && Replaced(targets, next, i) == Replaced(targets, next, j);
        assert Replaced(targets, current, i + 1) == Replaced(targets, current, j + 1);
      }
    }
  }

  /** A link is flagged cyclic exactly when its resolution comes to replace a link
      that it has already replaced, its own name included. */
  lemma {:induction false} CyclicIffRevisits(targets: Targets, seen: set<Option<Path>>, current: Path)
    ensures Resolve(targets, seen, current) == Cyclic <==> Revisits(targets, seen, current)
    decreases targets.Keys - seen
  {
    var link := NextLink(targets, current);
    if link.None? {
      StopsForGood(targets, current);
    } else if link in seen {
      assert Replaced(targets, current, 0) == link;
    } else {
      assert link in targets.Keys - seen && link !in targets.Keys - (seen + {link});
      RevisitsStep(targets, seen, current);
      CyclicIffRevisits(targets, seen + {link}, Substitute(targets, current));
    }
  }

  lemma StopsForGood(targets: Targets, current: Path)
    requires NextLink(targets, current).None?
    ensures forall k: nat :: Replaced(targets, current, k).None?
  {}

  /** An unflagged link ends at a path without links, after finitely many substitutions. */
  lemma {:induction false} EndsLinkFree(targets: Targets, seen: set<Option<Path>>, current: Path) returns (k: nat)
    requires Resolve(targets, seen, current).Ends?
    ensures After(targets, current, k) == Some(Resolve(targets, seen, current).at)
    ensures NextLink(targets, Resolve(targets, seen, current).at).None?
    decreases targets.Keys - seen
  {
    var link := NextLink(targets, current);
    if link.None? {
      k := 0;
    } else {
      assert link in targets.Keys - seen && link !in targets.Keys - (seen + {link});
      k := EndsLinkFree(targets, seen + {link}, Substitute(targets, current));
      k := k + 1;
    }
  }

  lemma {:induction false} AfterStops(targets: Targets, current: Path, k: nat)
    requires After(targets, current, k).Some? && NextLink(targets, After(targets, current, k).value).None?
    ensures After(targets, current, k + 1).None?
    decreases k
  {
    if k > 0 {
      AfterStops(targets, Substitute(targets, current), k - 1);
    }
  }

  /** Substitution that never ends is always flagged. */
  lemma EndlessIsCyclic(targets: Targets, name: Option<Path>)
    requires name in targets && forall k: nat :: After(targets, targets[name], k).Some?
    ensures Resolve(targets, {name}, targets[name]) == Cyclic
  {
    if Resolve(targets, {name}, targets[name]).Ends? {
      var k := EndsLinkFree(targets, {name}, targets[name]);
      AfterStops(targets, targets[name], k);
    }
  }

  /** No path on the way is absolute, has an empty component or climbs. */
  lemma {:induction false} StaysClean(targets: Targets, current: Path, k: nat)
    requires (forall name :: name in targets ==> Clean(targets[name])) && Clean(current)
    requires After(targets, current, k).Some?
    ensures Clean(After(targets, current, k).value)
    decreases k
  {
    if k > 0 {
      var n := LinkPrefix(targets, current, 1).value;
      assert Clean(targets[Some(current[..n])]);
      assert forall c :: c in current[n..] ==> c in current;
      assert Clean(Substitute(targets, current));
      StaysClean(targets, Substitute(targets, current), k - 1);
    }
  }

  // ---- Link targets ----

  function JoinAll(path: Path): string {
    if path == [] then "" else if |path| == 1 then path[0] else path[0] + "/" + JoinAll(path[1..])
  }

  /** posixpath.dirname of a normalised name, or of the missing one. */
  function Dirname(name: Option<Path>): string {
    if name.None? || name.value == [] then "" else JoinAll(name.value[..|name.value| - 1])
  }

  /** posixpath.join. */
  function JoinPath(head: string, target: string): string {
    if target != "" && target[0] == '/' then target
    else if head == "" || head[|head| - 1] == '/' then head + target
    else head + "/" + target
  }

  function ResolvedTarget(link: Link): Option<Path> {
    if link.target != "" && link.target[0] in "/\\" then None
    else Norm(if link.relative then JoinPath(Dirname(link.name), link.target) else link.target)
  }

  /** A link has no target exactly when what it holds starts with a separator, or the name
      that it leads to lies outside. */
  lemma NoTargetIff(link: Link)
    ensures ResolvedTarget(link).None? <==>
      || (link.target != "" && (link.target[0] == '/' || link.target[0] == '\\'))
      || Outside(if link.relative then JoinPath(Dirname(link.name), link.target) else link.target)
  {
    NormRefusesIff(if link.relative then JoinPath(Dirname(link.name), link.target) else link.target);
  }

  /** A backslash anywhere in it takes a link's target away, and so does a drive letter in
      front of one that is not relative. */
  lemma ForeignTargets(link: Link)
    ensures '\\' in link.target ==> ResolvedTarget(link).None?
    ensures !link.relative && IsDrive(link.target) ==> ResolvedTarget(link).None?
  {
    NoTargetIff(link);
    var joined := JoinPath(Dirname(link.name), link.target);
    assert '\\' in link.target ==> '\\' in joined;
  }

  lemma {:induction false} SplitPlain(part: string)
    requires '/' !in part
    ensures Split(part) == [part]
  {
    if part != "" {
      SplitPlain(part[1..]);
      assert [part[0]] + part[1..] == part;
    }
  }

  lemma {:induction false} SplitFirst(part: string, rest: string)
    requires '/' !in part
    ensures Split(part + "/" + rest) == [part] + Split(rest)
  {
    var s := part + "/" + rest;
    if part == "" {
      assert s[1..] == rest;
    } else {
      assert s[1..] == part[1..] + "/" + rest;
      SplitFirst(part[1..], rest);
      assert [part[0]] + part[1..] == part;
      assert ([part[1..]] + Split(rest))[1..] == Split(rest);
    }
  }

  lemma JoinedRest(path: Path, rest: string)
    requires |path| > 1
    ensures JoinAll(path) + "/" + rest == path[0] + "/" + (JoinAll(path[1..]) + "/" + rest)
  {}

  lemma {:induction false} SplitJoined(path: Path, rest: string)
    requires path != [] && forall c :: c in path ==> '/' !in c
    ensures Split(JoinAll(path) + "/" + rest) == path + Split(rest)
    decreases |path|
  {
    assert path[0] in path;
    if |path| == 1 {
      SplitFirst(path[0], rest);
      assert [path[0]] == path;
    } else {
      var more := JoinAll(path[1..]) + "/" + rest;
      JoinedRest(path, rest);
      SplitFirst(path[0], more);
      assert forall c :: c in path[1..] ==> c in path;
      SplitJoined(path[1..], rest);
      assert [path[0]] + path[1..] == path;
      Nest([path[0]], path[1..], Split(rest));
    }
  }

  lemma {:induction false} JoinedEnds(path: Path)
    requires path != [] && Clean(path)
    ensures var s := JoinAll(path); s != "" && s[|s| - 1] != '/'
    decreases |path|
  {
    assert path[0] in path;
    if |path| > 1 {
      assert forall c :: c in path[1..] ==> c in path;
      JoinedEnds(path[1..]);
    }
  }

  lemma {:induction false} CollapseNames(stack: Path, path: Path, parts: seq<string>)
    requires forall c :: c in path ==> c != "" && c != "." && c != ".."
    ensures Collapse(stack, path + parts) == Collapse(stack + path, parts)
    decreases |path|
  {
    if path == [] {
      assert path + parts == parts && stack + path == stack;
    } else {
      assert path[0] in path && (path + parts)[1..] == path[1..] + parts;
      assert forall c :: c in path[1..] ==> c in path;
      CollapseNames(stack + [path[0]], path[1..], parts);
      assert stack + [path[0]] + path[1..] == stack + path;
    }
  }

  lemma SplitRelative(directory: Path, target: string)
    requires Clean(directory) && target != "" && target[0] != '/'
    ensures Split(JoinPath(JoinAll(directory), target)) == directory + Split(target)
  {
    JoinedEnds(directory);
    SplitJoined(directory, target);
  }

  lemma NormCollapses(name: string)
    requires Norm(name).Some?
    ensures var stack := Collapse([], Split(name)); Norm(name).value == if stack == [] then ["."] else stack
  {}

  lemma RelativeNorm(directory: Path, target: string, name: string)
    requires (directory == [] || Clean(directory)) && "." !in directory && target != "" && target[0] != '/'
    requires name == JoinPath(JoinAll(directory), target) && Norm(name).Some?
    ensures var stack := Collapse(directory, Split(target)); Norm(name).value == if stack == [] then ["."] else stack
  {
    NormCollapses(name);
    if directory != [] {
      SplitRelative(directory, target);
      CollapseNames([], directory, Split(target));
      assert [] + directory == directory;
    } else {
      assert name == target;
    }
  }

  /** A relative target is walked from the directory that holds the link; if the link's own
      name was refused, from the root. */
  lemma RelativeTarget(link: Link, directory: Path)
    requires link.relative && link.name != Some([])
    requires directory == if link.name.Some? then link.name.value[..|link.name.value| - 1] else []
    requires (directory == [] || Clean(directory)) && "." !in directory
    requires link.target != "" && ResolvedTarget(link).Some?
    ensures var stack := Collapse(directory, Split(link.target));
      ResolvedTarget(link).value == if stack == [] then ["."] else stack
  {
    RelativeNorm(directory, link.target, JoinPath(JoinAll(directory), link.target));
  }

  lemma {:induction false} CollapseAppends(stack: Path, a: seq<string>, b: seq<string>)
    ensures Collapse(stack, a + b) == Collapse(Collapse(stack, a), b)
    decreases |a|
  {
    if a == [] {
      assert a + b == b;
    } else {
      assert (a + b)[1..] == a[1..] + b;
      var part := a[0];
      if part == "" || part == "." {
        CollapseAppends(stack, a[1..], b);
      } else if part != ".." || stack == [] || stack[|stack| - 1] == ".." {
        CollapseAppends(stack + [part], a[1..], b);
      } else {
        CollapseAppends(stack[..|stack| - 1], a[1..], b);
      }
    }
  }

  /** Going into a directory and out again, or staying, changes nothing. */
  lemma DetoursCancel(a: seq<string>, name: string, b: seq<string>)
    requires name != "" && name != "." && name != ".."
    ensures Collapse([], a + [name, ".."] + b) == Collapse([], a + b)
    ensures Collapse([], a + ["."] + b) == Collapse([], a + b) == Collapse([], a + [""] + b)
  {
    var stack := Collapse([], a);
    CollapseAppends([], a, b);
    CollapseAppends([], a, [name, ".."]);
    CollapseAppends([], a + [name, ".."], b);
    assert [name, ".."][1..] == [".."] && [".."][1..] == [] && (stack + [name])[..|stack|] == stack;
    assert Collapse(stack, [name, ".."]) == Collapse(stack + [name], [".."]);
    CollapseAppends([], a, ["."]);
    CollapseAppends([], a + ["."], b);
    assert ["."][1..] == [] && [""][1..] == [];
    CollapseAppends([], a, [""]);
    CollapseAppends([], a + [""], b);
  }

  lemma SplitOfJoined(path: Path)
    requires path != [] && forall c :: c in path ==> '/' !in c
    ensures Split(JoinAll(path)) == path
  {
    var front, last := path[..|path| - 1], path[|path| - 1];
    assert last in path;
    SplitPlain(last);
    if front == [] {
      assert path == [last];
    } else {
      assert forall c :: c in front ==> c in path;
      JoinedLast(path);
      SplitJoined(front, last);
      assert path == front + [last];
    }
  }

  /** A name that is already normal stays as it is. */
  lemma NormKeepsNormal(path: Path, name: string)
    requires Clean(path) && "." !in path && name == JoinAll(path)
    requires '\\' !in name && !IsDrive(name)
    ensures Norm(name) == Some(path)
  {
    JoinedStarts(path);
    SplitOfJoined(path);
    CollapseNames([], path, []);
    assert path + [] == path && [] + path == path;
    assert path[0] in path;
  }

  lemma {:induction false} JoinedLast(path: Path)
    requires |path| >= 2
    ensures JoinAll(path) == JoinAll(path[..|path| - 1]) + "/" + path[|path| - 1]
    decreases |path|
  {
    if |path| > 2 {
      JoinedLast(path[1..]);
      assert path[1..][..|path| - 2] == path[..|path| - 1][1..];
    } else {
      assert path[..1] == [path[0]] && path[1..] == [path[1]];
    }
  }

  lemma JoinedStarts(path: Path)
    requires Clean(path)
    ensures JoinAll(path) != "" && JoinAll(path)[0] != '/'
  {
    assert path[0] in path;
    assert path[0][0] in path[0];
  }

  // ---- The whole check ----

  /** The first loop: the last resolvable link of a name wins. */
  function TargetsOf(links: seq<Link>): Targets {
    if links == [] then map[] else
    var last := links[|links| - 1];
    var resolved := ResolvedTarget(last);
    var before := TargetsOf(links[..|links| - 1]);
    if resolved.None? then before else before[last.name := resolved.value]
  }

  datatype Verdict = Skipped | Looping | Broken | AtFile | AtDirectory

  /** `current` is an entry or a directory that some entry lies in. */
  predicate Present(entries: map<Path, Kind>, path: Path) {
    path in entries || exists entry :: entry in entries && path < entry
  }

  function Judge(targets: Targets, entries: map<Path, Kind>, link: Link): Verdict {
    if link.name !in targets then Skipped else
    match Resolve(targets, {link.name}, targets[link.name])
    case Cyclic => Looping
    case Ends(path) =>
      if !Present(entries, path) then Broken
      else if path in entries && entries[path] == FileEntry then AtFile
      else AtDirectory
  }

  function Complaints(targets: Targets, entries: map<Path, Kind>, links: seq<Link>): seq<(string, string)> {
    if links == [] then [] else
    var last := links[|links| - 1];
    Complaints(targets, entries, links[..|links| - 1])
    + match Judge(targets, entries, last)
      case Looping => [(last.path, "cyclic-link")]
      case Broken => [(last.path, "broken-link")]
      case _ => []
  }

  function Files(targets: Targets, entries: map<Path, Kind>, links: seq<Link>): set<string> {
    if links == [] then {} else
    var last := links[|links| - 1];
    Files(targets, entries, links[..|links| - 1]) + if Judge(targets, entries, last) == AtFile then {last.path} else {}
  }

  function Escapes(links: seq<Link>): set<(string, string)> {
    if links == [] then {} else
    var last := links[|links| - 1];
    Escapes(links[..|links| - 1]) + if ResolvedTarget(last).None? then {(last.path, "escaping-link")} else {}
  }

  method CollectTargets(links: seq<Link>) returns (found: set<(string, string)>, targets: Targets)
    ensures found == Escapes(links) && targets == TargetsOf(links)
  {
    found, targets := {}, map[];
    for i := 0 to |links|
      invariant targets == TargetsOf(links[..i]) && found == Escapes(links[..i])
    {
      Appended(links, i);
      var resolved := ResolvedTarget(links[i]);
      if resolved.None? {
        found := found + {(links[i].path, "escaping-link")};
      } else {
        targets := targets[links[i].name := resolved.value];
      }
    }
    assert links[..|links|] == links;
  }

  method JudgeLink(targets: Targets, entries: map<Path, Kind>, link: Link) returns (verdict: Verdict)
    ensures verdict == Judge(targets, entries, link)
  {
    if link.name !in targets {
      return Skipped;
    }
    var outcome := ResolveLink(targets, link.name);
    if outcome == Cyclic {
      return Looping;
    } else if !Present(entries, outcome.at) {
      return Broken;
    } else if outcome.at in entries && entries[outcome.at] == FileEntry {
      return AtFile;
    }
    return AtDirectory;
  }

  lemma LastLink(links: seq<Link>)
    requires links != []
    ensures forall l :: l in links <==> l in links[..|links| - 1] || l == links[|links| - 1]
  {
    assert links == links[..|links| - 1] + [links[|links| - 1]];
  }

  /** A path is found escaping exactly when one of its links has no target inside. */
  lemma {:induction false} EscapesMeans(links: seq<Link>, path: string)
    ensures (path, "escaping-link") in Escapes(links) <==>
      exists l :: l in links && l.path == path && ResolvedTarget(l).None?
  {
    if links != [] {
      LastLink(links);
      EscapesMeans(links[..|links| - 1], path);
    }
  }

  ghost predicate Draws(targets: Targets, entries: map<Path, Kind>, links: seq<Link>, path: string, verdict: Verdict) {
    exists l :: l in links && l.path == path && Judge(targets, entries, l) == verdict
  }

  lemma DrawsLast(targets: Targets, entries: map<Path, Kind>, links: seq<Link>, path: string, verdict: Verdict)
    requires links != []
    ensures var last := links[|links| - 1];
      Draws(targets, entries, links, path, verdict) <==>
        Draws(targets, entries, links[..|links| - 1], path, verdict)
        || (last.path == path && Judge(targets, entries, last) == verdict)
  {
    LastLink(links);
  }

  /** Nothing is complained about or listed but what some link of that path draws. */
  lemma {:induction false} EveryLinkJudged(targets: Targets, entries: map<Path, Kind>, links: seq<Link>, path: string)
    ensures (path, "cyclic-link") in Complaints(targets, entries, links) <==>
      Draws(targets, entries, links, path, Looping)
    ensures (path, "broken-link") in Complaints(targets, entries, links) <==>
      Draws(targets, entries, links, path, Broken)
    ensures path in Files(targets, entries, links) <==> Draws(targets, entries, links, path, AtFile)
  {
    if links != [] {
      DrawsLast(targets, entries, links, path, Looping);
      DrawsLast(targets, entries, links, path, Broken);
      DrawsLast(targets, entries, links, path, AtFile);
      EveryLinkJudged(targets, entries, links[..|links| - 1], path);
    }
  }

  /** The resolution of the link comes to replace a link again, its own name included. */
  ghost predicate Circles(targets: Targets, link: Link) {
    link.name in targets && Revisits(targets, {link.name}, targets[link.name])
  }

  /** It does not, and reaches the link-free path `end` by substitutions. */
  ghost predicate EndsAt(targets: Targets, link: Link, end: Path) {
    && link.name in targets && !Revisits(targets, {link.name}, targets[link.name])
    && NextLink(targets, end).None? && exists k: nat :: After(targets, targets[link.name], k) == Some(end)
  }

  /** It ends at a path that is no entry and that no entry lies below. */
  ghost predicate Dangles(targets: Targets, entries: map<Path, Kind>, link: Link) {
    exists end :: EndsAt(targets, link, end) && end !in entries && forall entry :: entry in entries ==> !(end < entry)
  }

  ghost predicate EndsAtFile(targets: Targets, entries: map<Path, Kind>, link: Link) {
    exists end :: EndsAt(targets, link, end) && end in entries && entries[end] == FileEntry
  }

  /** There is one link-free path to reach. */
  lemma {:induction false} OneEnd(targets: Targets, current: Path, j: nat, k: nat)
    requires After(targets, current, j).Some? && NextLink(targets, After(targets, current, j).value).None?
    requires After(targets, current, k).Some? && NextLink(targets, After(targets, current, k).value).None?
    ensures j == k
    decreases j
  {
    if j > 0 && k > 0 {
      OneEnd(targets, Substitute(targets, current), j - 1, k - 1);
    }
  }

  /** Where the resolution ends, and only there. */
  lemma EndsThere(targets: Targets, link: Link, end: Path)
    requires link.name in targets
    ensures EndsAt(targets, link, end) <==> Resolve(targets, {link.name}, targets[link.name]) == Ends(end)
  {
    var outcome := Resolve(targets, {link.name}, targets[link.name]);
    CyclicIffRevisits(targets, {link.name}, targets[link.name]);
    if outcome.Ends? {
      var k := EndsLinkFree(targets, {link.name}, targets[link.name]);
      if EndsAt(targets, link, end) {
        var j: nat :| After(targets, targets[link.name], j) == Some(end);
        OneEnd(targets, targets[link.name], j, k);
      }
    }
  }

  lemma JudgeMeans(targets: Targets, entries: map<Path, Kind>, link: Link)
    ensures Judge(targets, entries, link) == Looping <==> Circles(targets, link)
    ensures Judge(targets, entries, link) == Broken <==> Dangles(targets, entries, link)
    ensures Judge(targets, entries, link) == AtFile <==> EndsAtFile(targets, entries, link)
  {
    if link.name in targets {
      var outcome := Resolve(targets, {link.name}, targets[link.name]);
      CyclicIffRevisits(targets, {link.name}, targets[link.name]);
      forall end
        ensures EndsAt(targets, link, end) <==> outcome == Ends(end)
      {
        EndsThere(targets, link, end);
      }
    }
  }

  ghost predicate SomeCircles(targets: Targets, links: seq<Link>, path: string) {
    exists l :: l in links && l.path == path && Circles(targets, l)
  }

  ghost predicate SomeDangles(targets: Targets, entries: map<Path, Kind>, links: seq<Link>, path: string) {
    exists l :: l in links && l.path == path && Dangles(targets, entries, l)
  }

  ghost predicate SomeAtFile(targets: Targets, entries: map<Path, Kind>, links: seq<Link>, path: string) {
    exists l :: l in links && l.path == path && EndsAtFile(targets, entries, l)
  }

  /** A path is reported cyclic exactly when a link of it comes round, broken exactly when
      one ends at nothing, and listed exactly when one ends at a file. */
  lemma ReportsMean(targets: Targets, entries: map<Path, Kind>, links: seq<Link>, path: string)
    ensures (path, "cyclic-link") in Complaints(targets, entries, links) <==> SomeCircles(targets, links, path)
    ensures (path, "broken-link") in Complaints(targets, entries, links) <==> SomeDangles(targets, entries, links, path)
    ensures path in Files(targets, entries, links) <==> SomeAtFile(targets, entries, links, path)
  {
    EveryLinkJudged(targets, entries, links, path);
    forall l: Link
      ensures Judge(targets, entries, l) == Looping <==> Circles(targets, l)
      ensures Judge(targets, entries, l) == Broken <==> Dangles(targets, entries, l)
      ensures Judge(targets, entries, l) == AtFile <==> EndsAtFile(targets, entries, l)
    {
      JudgeMeans(targets, entries, l);
    }
  }

  predicate HasTarget(link: Link, name: Option<Path>) {
    link.name == name && ResolvedTarget(link).Some?
  }

  function Named(name: Option<Path>): Link -> bool {
    (link: Link) => HasTarget(link, name)
  }

  /** The last link of a name that has a target decides; without one the name is no link. */
  lemma {:induction false} TargetsMean(links: seq<Link>, name: Option<Path>)
    ensures forall i: nat :: LastAt(links, Named(name), i) ==>
      name in TargetsOf(links) && Some(TargetsOf(links)[name]) == ResolvedTarget(links[i])
    ensures name in TargetsOf(links) ==> exists i: nat :: LastAt(links, Named(name), i)
  {
    if links != [] {
      var front, last, n := links[..|links| - 1], links[|links| - 1], |links| - 1;
      TargetsMean(front, name);
      if HasTarget(last, name) {
        assert LastAt(links, Named(name), n);
      } else {
        forall i: nat
          ensures LastAt(links, Named(name), i) <==> LastAt(front, Named(name), i)
        {
          LastInFront(links, Named(name), i);
        }
      }
    }
  }

  lemma OneMore(targets: Targets, entries: map<Path, Kind>, links: seq<Link>, i: nat)
    requires i < |links|
    ensures var verdict, path := Judge(targets, entries, links[i]), links[i].path;
      && Complaints(targets, entries, links[..i + 1]) == Complaints(targets, entries, links[..i])
        + (match verdict case Looping => [(path, "cyclic-link")] case Broken => [(path, "broken-link")] case _ => [])
      && Files(targets, entries, links[..i + 1]) == Files(targets, entries, links[..i])
        + (if verdict == AtFile then {path} else {})
  {
    Appended(links, i);
  }

  lemma Appended(links: seq<Link>, i: nat)
    requires i < |links|
    ensures links[..i + 1] == links[..i] + [links[i]] && links[..i + 1][..i] == links[..i]
    ensures links[..i + 1] != [] && links[..i + 1][|links[..i + 1]| - 1] == links[i]
  {}

  /** Both loops: escapes in the first, and in the second what becomes of the other links. */
  method ValidateLinks(links: seq<Link>, entries: map<Path, Kind>)
      returns (found: set<(string, string)>, errors: seq<(string, string)>, rawFiles: set<string>)
    ensures found == Escapes(links)
    ensures errors == Complaints(TargetsOf(links), entries, links)
    ensures rawFiles == Files(TargetsOf(links), entries, links)
    ensures forall path ::
      (path, "escaping-link") in found <==> exists l :: l in links && l.path == path && ResolvedTarget(l).None?
    ensures forall path :: (path, "cyclic-link") in errors <==> SomeCircles(TargetsOf(links), links, path)
    ensures forall path :: (path, "broken-link") in errors <==> SomeDangles(TargetsOf(links), entries, links, path)
    ensures forall path :: path in rawFiles <==> SomeAtFile(TargetsOf(links), entries, links, path)
  {
    var targets;
    found, targets := CollectTargets(links);
    errors, rawFiles := [], {};
    for i := 0 to |links|
      invariant errors == Complaints(targets, entries, links[..i])
      invariant rawFiles == Files(targets, entries, links[..i])
    {
      var link := links[i];
      OneMore(targets, entries, links, i);
      var verdict := JudgeLink(targets, entries, link);
      if verdict == Looping {
        errors := errors + [(link.path, "cyclic-link")];
      } else if verdict == Broken {
        errors := errors + [(link.path, "broken-link")];
      } else if verdict == AtFile {
        rawFiles := rawFiles + {link.path};
      }
    }
    assert links[..|links|] == links;
    forall path
      ensures (path, "escaping-link") in found <==> exists l :: l in links && l.path == path && ResolvedTarget(l).None?
      ensures (path, "cyclic-link") in errors <==> SomeCircles(targets, links, path)
      ensures (path, "broken-link") in errors <==> SomeDangles(targets, entries, links, path)
      ensures path in rawFiles <==> SomeAtFile(targets, entries, links, path)
    {
      EscapesMeans(links, path);
      ReportsMean(targets, entries, links, path);
    }
  }

  lemma {:induction false} TargetsClean(links: seq<Link>)
    ensures forall name :: name in TargetsOf(links) ==> Clean(TargetsOf(links)[name])
  {
    if links != [] {
      var last := links[|links| - 1];
      TargetsClean(links[..|links| - 1]);
      if ResolvedTarget(last).Some? {
        NormClean(if last.relative then JoinPath(Dirname(last.name), last.target) else last.target);
      }
    }
  }

  /** A link that draws no complaint ends, after finitely many substitutions that
      never leave the root, at a path without links that the archive holds. */
  lemma UnflaggedEnds(links: seq<Link>, entries: map<Path, Kind>, link: Link) returns (k: nat, end: Path)
    requires link.name in TargetsOf(links)
    requires Judge(TargetsOf(links), entries, link) !in {Looping, Broken}
    ensures After(TargetsOf(links), TargetsOf(links)[link.name], k) == Some(end)
    ensures NextLink(TargetsOf(links), end).None? && Present(entries, end)
    ensures forall j: nat :: (j <= k && After(TargetsOf(links), TargetsOf(links)[link.name], j).Some? ==>
      Clean(After(TargetsOf(links), TargetsOf(links)[link.name], j).value))
  {
    var targets := TargetsOf(links);
    TargetsClean(links);
    k := EndsLinkFree(targets, {link.name}, targets[link.name]);
    end := Resolve(targets, {link.name}, targets[link.name]).at;
    forall j: nat | j <= k && After(targets, targets[link.name], j).Some?
      ensures Clean(After(targets, targets[link.name], j).value)
    {
      StaysClean(targets, targets[link.name], j);
    }
  }

  /** The converse of EndlessIsCyclic fails: `l` goes through `a` twice, once as
      a/b and once as a/d, and is flagged although it ends at the file c/d. */
  lemma CyclicMayEnd()
    ensures var targets: Targets := map[Some(["l"]) := ["a", "b"], Some(["a"]) := ["c"],
      Some(["c", "b"]) := ["a", "d"]];
      && Resolve(targets, {Some(["l"])}, targets[Some(["l"])]) == Cyclic
      && After(targets, targets[Some(["l"])], 3) == Some(["c", "d"])
      && NextLink(targets, ["c", "d"]).None?
  {
    var targets: Targets := map[Some(["l"]) := ["a", "b"], Some(["a"]) := ["c"], Some(["c", "b"]) := ["a", "d"]];
    TwoParts(targets, "a", "b");
    TwoParts(targets, "c", "b");
    TwoParts(targets, "a", "d");
    TwoParts(targets, "c", "d");
    assert ["a", "b"][..1] == ["a", "d"][..1] == ["a"] && ["c", "b"][..2] == ["c", "b"];
    assert ["a", "b"][1..] == ["b"] && ["c", "b"][2..] == [] && ["a", "d"][1..] == ["d"];
    assert targets[Some(["a"])] == ["c"] && targets[Some(["c", "b"])] == ["a", "d"];
    assert Substitute(targets, ["a", "b"]) == ["c"] + ["b"] == ["c", "b"];
    assert Substitute(targets, ["c", "b"]) == ["a", "d"] + [] == ["a", "d"];
    assert Substitute(targets, ["a", "d"]) == ["c"] + ["d"] == ["c", "d"];
  }

  lemma TwoParts(targets: Targets, a: string, b: string)
    ensures LinkPrefix(targets, [a, b], 1)
      == if Some([a]) in targets then Some(1) else if Some([a, b]) in targets then Some(2) else None
  {
    assert [a, b][..1] == [a] && [a, b][..2] == [a, b];
    assert LinkPrefix(targets, [a, b], 3).None?;
  }
}
