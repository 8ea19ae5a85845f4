/** kernel/filesystem/vfs.c `vfs_lookup`, as a walk over path components. */
module PathWalk {
  import opened Options

  datatype NodeType = Dir | Regular | Link

  /**
   types: the vnodes; mounted: vnodes covered by a mount, with the root vnode of what is mounted there;
   covered: the inverse; children: directory tables; rank: mount depth, at most height.
   */
  datatype Tree = Tree(types: map<nat, NodeType>, mounted: map<nat, nat>, covered: map<nat, nat>,
                       children: map<nat, map<string, nat>>, root: nat, rank: map<nat, nat>, height: nat)

  datatype Outcome = Found(node: nat, last: Option<string>) | Failed(err: Errno) | Unimplemented

  datatype Errno = ENOENT | ENOTDIR | ENAMETOOLONG | ENOMEM

  /** A mount and the vnode it covers point at each other (`vfs_mount`). */
  ghost predicate MountsPaired(t: Tree) {
    && (forall n :: n in t.mounted ==> t.mounted[n] in t.covered && t.covered[t.mounted[n]] == n)
    && (forall n :: n in t.covered ==> t.covered[n] in t.mounted && t.mounted[t.covered[n]] == n)
  }

  /** Vnodes are known, and mounts stack finitely deep. */
  ghost predicate Sane(t: Tree) {
    && t.root in t.types && t.rank.Keys == t.types.Keys
    && (forall n :: n in t.types ==> t.rank[n] <= t.height)
    && (forall n :: n in t.mounted ==> n in t.types && t.mounted[n] in t.types && t.rank[t.mounted[n]] > t.rank[n])
    && (forall n :: n in t.covered ==> n in t.types && t.covered[n] in t.types && t.rank[t.covered[n]] < t.rank[n])
    && MountsPaired(t)
    && (forall d :: d in t.children ==> d in t.types && forall s :: s in t.children[d] ==> t.children[d][s] in t.types)
  }

  /** `highest_node_in_mp`. */
  function Highest(t: Tree, n: nat): (r: nat)
    requires Sane(t) && n in t.types
    ensures r in t.types && r !in t.mounted
    decreases t.height - t.rank[n]
  {
    if n in t.mounted then Highest(t, t.mounted[n]) else n
  }

  /** `lowest_node_in_mp`. */
  function Lowest(t: Tree, n: nat): (r: nat)
    requires Sane(t) && n in t.types
    ensures r in t.types && r !in t.covered
    decreases t.rank[n]
  {
    if n in t.covered then Lowest(t, t.covered[n]) else n
  }

  /** The vnodes of one stack of mounts have one top and one bottom, whichever of them one starts from. */
  lemma {:induction false} SameStack(t: Tree, n: nat)
    requires Sane(t) && n in t.types
    ensures Lowest(t, Highest(t, n)) == Lowest(t, n)
    decreases t.height - t.rank[n]
  {
    if n in t.mounted {
      SameStack(t, t.mounted[n]);
    }
  }

  lemma {:induction false} SameTop(t: Tree, n: nat)
    requires Sane(t) && n in t.types
    ensures Highest(t, Lowest(t, n)) == Highest(t, n)
    decreases t.rank[n]
  {
    if n in t.covered {
      SameTop(t, t.covered[n]);
    }
  }

  /** `tmpfs_lookup`. */
  function Child(t: Tree, d: nat, name: string): (r: Outcome)
    requires Sane(t) && d in t.types
    ensures r.Found? ==> r.node in t.types && r.last.None?
  {
    if t.types[d] != Dir then Failed(ENOTDIR)
    else if d in t.children && name in t.children[d] then Found(t.children[d][name], None)
    else Failed(ENOENT)
  }

  /** Where ".." is looked up: below all mounts. */
  function StepFrom(t: Tree, cur: nat, comp: string): (r: nat)
    requires Sane(t) && cur in t.types
    ensures r in t.types
  {
    if comp == ".." && cur in t.covered then Lowest(t, cur) else cur
  }

  /** One component: ".." stays at the root, mounts are crossed both ways. */
  function OneStep(t: Tree, cur: nat, comp: string, isLast: bool, noLink: bool): (r: Outcome)
    requires Sane(t) && cur in t.types
    ensures r.Found? ==> r.node in t.types && r.last.None?
  {
    if comp == ".." && cur == Highest(t, t.root) then Found(cur, None)
    else
      match Child(t, StepFrom(t, cur, comp), comp)
      case Failed(e) => Failed(e)
      case Unimplemented => Unimplemented
      case Found(n, _) =>
        var next := Highest(t, n);
        if t.types[next] == Link && !(isLast && noLink) then Unimplemented else Found(next, None)
  }

  /** The walk, one component at a time. */
  function Walk(t: Tree, cur: nat, comps: seq<string>, parent: bool, noLink: bool): (r: Outcome)
    requires Sane(t) && cur in t.types
    ensures r.Found? ==> r.node in t.types
    decreases |comps|
  {
    if comps == [] then Found(cur, None)
    else if t.types[cur] != Dir then Failed(ENOTDIR)
    else if |comps| == 1 && parent then Found(cur, Some(comps[0]))
    else
      match OneStep(t, cur, comps[0], |comps| == 1, noLink)
      case Failed(e) => Failed(e)
      case Unimplemented => Unimplemented
      case Found(next, _) => Walk(t, next, comps[1..], parent, noLink)
  }

  /** What the first component does to a walk. */
  lemma WalkUnfold(t: Tree, cur: nat, comps: seq<string>, parent: bool, noLink: bool)
    requires Sane(t) && cur in t.types && comps != []
    ensures Walk(t, cur, comps, parent, noLink) ==
            if t.types[cur] != Dir then Failed(ENOTDIR)
            else if |comps| == 1 && parent then Found(cur, Some(comps[0]))
            else var step := OneStep(t, cur, comps[0], |comps| == 1, noLink);
              if step.Found? then Walk(t, step.node, comps[1..], parent, noLink) else step
  {
  }

  // ---------- paths ----------

  const SEPARATOR := '/'
  const MAX_PATH_NAME := 512

  /** How far the component at the start of p goes. */
  function Run(p: string): (n: nat)
    ensures n <= |p| && (forall i :: 0 <= i < n ==> p[i] != SEPARATOR) && (n < |p| ==> p[n] == SEPARATOR)
  {
    if p == [] || p[0] == SEPARATOR then 0 else 1 + Run(p[1..])
  }

  /** The non-empty components of a path. */
  function Components(p: string): (cs: seq<string>)
    decreases |p|
  {
    if p == [] then []
    else if p[0] == SEPARATOR then Components(p[1..])
    else [p[..Run(p)]] + Components(p[Run(p)..])
  }

  /** `vfs_lookup` without failures of memory. */
  function Lookup(t: Tree, src: nat, path: string, parent: bool, noLink: bool): (r: Outcome)
    requires Sane(t) && src in t.types
    ensures r.Found? ==> r.node in t.types
  {
    if path == [] && parent then Failed(ENOENT)
    else if |path| > MAX_PATH_NAME then Failed(ENAMETOOLONG)
    else Walk(t, Highest(t, src), Components(path), parent, noLink)
  }

  /** Only the components matter, but for the length and for an empty path whose parent is asked for. */
  lemma ComponentsDecide(t: Tree, src: nat, p: string, q: string, parent: bool, noLink: bool)
    requires Sane(t) && src in t.types && Components(p) == Components(q)
    requires |p| <= MAX_PATH_NAME && |q| <= MAX_PATH_NAME && (parent ==> (p == [] <==> q == []))
    ensures Lookup(t, src, p, parent, noLink) == Lookup(t, src, q, parent, noLink)
  {
  }

  /** The walk is what a lookup gives exactly when the path is short enough and, for a parent, not empty. */
  lemma WalkExact(t: Tree, src: nat, path: string, parent: bool, noLink: bool)
    requires Sane(t) && src in t.types
    ensures Lookup(t, src, path, parent, noLink) == Walk(t, Highest(t, src), Components(path), parent, noLink) <==>
            |path| <= MAX_PATH_NAME && !(path == [] && parent)
  {
    WalkErrors(t, Highest(t, src), Components(path), parent, noLink);
  }

  /** A walk never reports a name that is too long. */
  lemma {:induction false} WalkErrors(t: Tree, cur: nat, comps: seq<string>, parent: bool, noLink: bool)
    requires Sane(t) && cur in t.types
    ensures var r := Walk(t, cur, comps, parent, noLink); r.Failed? ==> r.err == ENOENT || r.err == ENOTDIR
    decreases |comps|
  {
    if comps != [] && t.types[cur] == Dir && !(|comps| == 1 && parent) {
      var step := OneStep(t, cur, comps[0], |comps| == 1, noLink);
      if step.Found? {
        WalkErrors(t, step.node, comps[1..], parent, noLink);
      }
    }
  }

  /** A path of separators only has no components, yet its parent lookup succeeds where the empty path's fails. */
  lemma EmptyPathExample(t: Tree, src: nat)
    requires Sane(t) && src in t.types
    ensures Components("") == Components("/")
    ensures Lookup(t, src, "", true, false) == Failed(ENOENT)
    ensures Lookup(t, src, "/", true, false) == Found(Highest(t, src), None)
  {
    assert "/"[1..] == "";
  }

  // ---------- scanning a path ----------

  lemma SkipSeparator(p: string, i: nat)
    requires i < |p| && p[i] == SEPARATOR
    ensures Components(p[i..]) == Components(p[i + 1..])
  {
    assert p[i..][1..] == p[i + 1..];
  }

  /** The component at i, of length n, and what is behind it. */
  lemma TakeComponent(p: string, i: nat, n: nat)
    requires i < |p| && p[i] != SEPARATOR && i + n <= |p| && n > 0
    requires (forall k :: i <= k < i + n ==> p[k] != SEPARATOR) && (i + n < |p| ==> p[i + n] == SEPARATOR)
    ensures Components(p[i..]) == [p[i..i + n]] + Components(p[i + n..])
    ensures i + n < |p| ==> Components(p[i + n..]) == Components(p[i + n + 1..])
  {
    var rest := p[i..];
    RunIs(rest, n);
    assert rest[..n] == p[i..i + n] && rest[n..] == p[i + n..];
    if i + n < |p| {
      SkipSeparator(p, i + n);
    }
  }

  lemma {:induction false} RunIs(p: string, n: nat)
    requires n <= |p| && (forall k :: 0 <= k < n ==> p[k] != SEPARATOR) && (n < |p| ==> p[n] == SEPARATOR)
    ensures Run(p) == n
  {
    if n > 0 {
      RunIs(p[1..], n - 1);
    }
  }

  /** Nothing but separators from j on, and so no component; or a component is left. */
  lemma {:induction false} OnlySeparators(p: string, i: nat, j: nat)
    requires i <= j <= |p| && forall k :: i <= k < j ==> p[k] == SEPARATOR
    ensures Components(p[i..]) == Components(p[j..])
    ensures j == |p| ==> Components(p[i..]) == []
    ensures j < |p| && p[j] != SEPARATOR ==> Components(p[i..]) != []
    decreases j - i
  {
    if i < j {
      SkipSeparator(p, i);
      OnlySeparators(p, i + 1, j);
    }
  }
}

/** kernel/filesystem/vfs.c `vfs_lookup` with its reference counts. */
module LookupCode {
  import opened Options
  import opened PathWalk

  type Refs = map<nat, int>

  function Held(refs: Refs, n: nat): Refs
    requires n in refs
  {
    refs[n := refs[n] + 1]
  }

  class Vfs {
    const tree: Tree
    var refs: Refs
    var inactive: set<nat>   // vnodes whose last reference was dropped

    /** Every vnode is referenced, by its directory or its mount at least. */
    ghost predicate Valid()
      reads this
    {
      Sane(tree) && refs.Keys == tree.types.Keys && forall n :: n in refs ==> refs[n] >= 1
    }

    method Hold(n: nat)
      requires n in refs
      modifies this`refs
      ensures refs == Held(old(refs), n)
    {
      refs := refs[n := refs[n] + 1];
    }

    /** `vop_release` of a vnode held on top of the counts refs0. */
    method Release(n: nat, ghost refs0: Refs)
      requires n in refs0 && refs0[n] >= 1 && refs == Held(refs0, n)
      modifies this`refs, this`inactive
      ensures refs == refs0 && inactive == old(inactive)
    {
      ReleaseNode(n);
    }

    /** `vop_release`. */
    method ReleaseNode(n: nat)
      requires n in refs
      modifies this`refs, this`inactive
      ensures refs == old(refs)[n := old(refs)[n] - 1]
      ensures inactive == if old(refs)[n] == 1 then old(inactive) + {n} else old(inactive)
    {
      refs := refs[n := refs[n] - 1];
      if refs[n] == 0 {
        inactive := inactive + {n};
      }
    }

    /** `highest_node_in_mp`. */
    method HighestNode(n: nat) returns (r: nat)
      requires Sane(tree) && n in tree.types
      ensures r == Highest(tree, n)
    {
      r := n;
      while r in tree.mounted
        invariant r in tree.types && Highest(tree, r) == Highest(tree, n)
        decreases tree.height - tree.rank[r]
      {
        r := tree.mounted[r];
      }
    }

    /** `lowest_node_in_mp`. */
    method LowestNode(n: nat) returns (r: nat)
      requires Sane(tree) && n in tree.types
      ensures r == Lowest(tree, n)
    {
      r := n;
      while r in tree.covered
        invariant r in tree.types && Lowest(tree, r) == Lowest(tree, n)
        decreases tree.rank[r]
      {
        r := tree.covered[r];
      }
    }

    /** A reference moves from one vnode to another. */
    method MoveHold(from: nat, to: nat, ghost refs0: Refs)
      requires from in refs0 && to in refs0 && refs0[from] >= 1 && refs == Held(refs0, from)
      modifies this`refs, this`inactive
      ensures refs == Held(refs0, to) && inactive == old(inactive)
    {
      refs := refs[to := refs[to] + 1];
      ReleaseNode(from);
      assert refs == Held(refs0, to);
    }

    /** `tmpfs_lookup`: the child is held as well. */
    method LookupChild(d: nat, name: string) returns (r: Outcome)
      requires Valid0() && d in tree.types
      modifies this`refs
      ensures r == Child(tree, d, name)
      ensures refs == if r.Found? then Held(old(refs), r.node) else old(refs)
    {
      if tree.types[d] != Dir {
        return Failed(ENOTDIR);
      }
      if d !in tree.children || name !in tree.children[d] {
        return Failed(ENOENT);
      }
      var child := tree.children[d][name];
      refs := refs[child := refs[child] + 1];
      r := Found(child, None);
    }

    ghost predicate Valid0()
      reads this
    {
      Sane(tree) && refs.Keys == tree.types.Keys
    }

    /** One component of `vfs_lookup`: the reference follows the walk, and is dropped when it fails. */
    method Step(cur: nat, comp: string, isLast: bool, noLink: bool, ghost refs0: Refs) returns (r: Outcome)
      requires Sane(tree) && refs0.Keys == tree.types.Keys && (forall n :: n in refs0 ==> refs0[n] >= 1)
      requires cur in tree.types && refs == Held(refs0, cur)
      modifies this`refs, this`inactive
      ensures r == OneStep(tree, cur, comp, isLast, noLink) && inactive == old(inactive)
      ensures r.Found? ==> refs == Held(refs0, r.node)
      ensures r.Failed? ==> refs == refs0
    {
      var current := cur;
      if comp == ".." {
        var root := HighestNode(tree.root);
        if root == current {
          return Found(cur, None);
        }
        if current in tree.covered {
          var next := LowestNode(current);
          if next != current {
            MoveHold(current, next, refs0);
            current := next;
          }
        }
      }
      r := LookupChild(current, comp);
      if r.Failed? {
        Release(current, refs0);
        return;
      }
      r := Arrive(current, r.node, isLast, noLink, refs0);
    }

    /** The end of a step: across the mounts of the child, and off the directory. */
    method Arrive(current: nat, child: nat, isLast: bool, noLink: bool, ghost refs0: Refs) returns (r: Outcome)
      requires Sane(tree) && refs0.Keys == tree.types.Keys && (forall n :: n in refs0 ==> refs0[n] >= 1)
      requires current in tree.types && child in tree.types && refs == Held(Held(refs0, current), child)
      modifies this`refs, this`inactive
      ensures inactive == old(inactive) && !r.Failed?
      ensures var next := Highest(tree, child);
        r == if tree.types[next] == Link && !(isLast && noLink) then Unimplemented else Found(next, None)
      ensures r.Found? ==> refs == Held(refs0, r.node)
    {
      var next := child;
      var result := HighestNode(next);
      if result != next {
        MoveHold(next, result, Held(refs0, current));
        next := result;
      }
      if tree.types[next] == Link && (!isLast || (isLast && !noLink)) {
        return Unimplemented;
      }
      assert refs == Held(Held(refs0, next), current);
      Release(current, Held(refs0, next));
      r := Found(next, None);
    }

    /** The copy of the path with its separators cleared, so that components end with a zero. */
    method SplitBuffer(path: string) returns (buffer: array<char>)
      ensures fresh(buffer) && Cleared(buffer[..], path)
    {
      buffer := new char[|path| + 1](i requires 0 <= i <= |path| => if i < |path| then path[i] else '\0');
      var i := 0;
      while i < |path|
        invariant 0 <= i <= |path| && buffer[|path|] == '\0'
        invariant forall k :: 0 <= k < i ==> buffer[k] == if path[k] == SEPARATOR then '\0' else path[k]
        invariant forall k :: i <= k < |path| ==> buffer[k] == path[k]
      {
        if buffer[i] == SEPARATOR {
          buffer[i] := '\0';
        }
        i := i + 1;
      }
    }

    static ghost predicate Cleared(buffer: seq<char>, path: string) {
      && |buffer| == |path| + 1 && buffer[|path|] == '\0'
      && forall k :: 0 <= k < |path| ==> buffer[k] == if path[k] == SEPARATOR then '\0' else path[k]
    }

    /** `strlen` of the component at i. */
    method Length(buffer: array<char>, i: nat, path: string) returns (n: nat)
      requires Cleared(buffer[..], path) && '\0' !in path && i < |path| && path[i] != SEPARATOR
      ensures 0 < n && i + n <= |path| < buffer.Length && buffer[i..i + n] == path[i..i + n]
      ensures forall k :: i <= k < i + n ==> path[k] != SEPARATOR
      ensures i + n < |path| ==> path[i + n] == SEPARATOR
    {
      n := 0;
      while buffer[i + n] != '\0'
        invariant i + n <= |path| && forall k :: i <= k < i + n ==> buffer[k] != '\0'
        decreases |path| - n
      {
        n := n + 1;
      }
      Filled(buffer[..], path, i, n);
      assert buffer[i..i + n] == path[i..i + n];
    }

    /** Whether only separators are left from i on. */
    method AtEnd(buffer: array<char>, i: nat, path: string) returns (end: bool)
      requires Cleared(buffer[..], path) && '\0' !in path && i <= |path|
      ensures end <==> Components(path[i..]) == []
    {
      hide Components;
      var j := i;
      while j < |path| && buffer[j] == '\0'
        invariant i <= j <= |path| && forall k :: i <= k < j ==> path[k] == SEPARATOR
      {
        assert path[j] in path;
        j := j + 1;
      }
      OnlySeparators(path, i, j);
      end := j == |path|;
    }

    /** The component at i, and whether it is the last. */
    method NextComponent(buffer: array<char>, i: nat, path: string) returns (comp: string, isLast: bool)
      requires Cleared(buffer[..], path) && '\0' !in path && i < |path| && path[i] != SEPARATOR
      ensures comp != [] && i + |comp| <= |path| && Components(path[i..]) == [comp] + Components(path[i + |comp|..])
      ensures i + |comp| < |path| ==> Components(path[i + |comp|..]) == Components(path[i + |comp| + 1..])
      ensures isLast <==> Components(path[i + |comp|..]) == []
    {
      hide Components, Cleared;
      var n := Length(buffer, i, path);
      comp := buffer[i..i + n];
      TakeComponent(path, i, n);
      EndOfPath(path, i + n);
      isLast := i + n == |path|;
      if !isLast {
        isLast := AtEnd(buffer, i + n, path);
      }
    }

    lemma Filled(buffer: seq<char>, path: string, i: nat, n: nat)
      requires Cleared(buffer, path) && '\0' !in path && i + n <= |path| && i < |path| && path[i] != SEPARATOR
      requires (forall k :: i <= k < i + n ==> buffer[k] != '\0') && buffer[i + n] == '\0'
      ensures n > 0 && (forall k :: i <= k < i + n ==> path[k] != SEPARATOR && buffer[k] == path[k])
      ensures i + n < |path| ==> path[i + n] == SEPARATOR
    {
      assert path[i] in path;
      if i + n < |path| {
        assert path[i + n] in path;
      }
    }

    /** The component loop of `vfs_lookup`. */
    method WalkPath(start: nat, buffer: array<char>, path: string, parent: bool, noLink: bool, ghost refs0: Refs)
      returns (r: Outcome)
      requires Sane(tree) && refs0.Keys == tree.types.Keys && (forall n :: n in refs0 ==> refs0[n] >= 1)
      requires start in tree.types && refs == Held(refs0, start) && Cleared(buffer[..], path) && '\0' !in path
      modifies this`refs, this`inactive
      ensures r == Walk(tree, start, Components(path), parent, noLink) && inactive == old(inactive)
      ensures r.Found? ==> refs == Held(refs0, r.node)
      ensures r.Failed? ==> refs == refs0
    {
      hide Sane, OneStep, Components, Cleared, Walk;
      var current := start;
      var i: nat := 0;
      assert path[0..] == path;
      EndOfPath(path, 0);
      while i < |path|
        invariant current in tree.types && refs == Held(refs0, current) && inactive == old(inactive)
        invariant Walk(tree, start, Components(path), parent, noLink) ==
                  Walk(tree, current, Rest(path, i), parent, noLink)
        decreases |path| - i
      {
        var separator := IsSeparator(buffer, i, path);
        if separator {
          SkipSeparator(path, i);
          EndOfPath(path, i + 1);
          i := i + 1;
          continue;
        }
        var comp, isLast := NextComponent(buffer, i, path);
        ghost var comps := Rest(path, i);
        assert comps[0] == comp && comps[1..] == Components(path[i + |comp|..]);
        RestAfter(path, i + |comp|);
        WalkUnfold(tree, current, comps, parent, noLink);
        if tree.types[current] != Dir {
          Release(current, refs0);
          return Failed(ENOTDIR);
        }
        if isLast && parent {
          return Found(current, Some(comp));
        }
        var step := Step(current, comp, isLast, noLink, refs0);
        if !step.Found? {
          return step;
        }
        current := step.node;
        i := i + |comp| + 1;
      }
      EmptyWalk(current, parent, noLink);
      r := Found(current, None);
    }

    /** What is left of the path at i. */
    ghost function Rest(path: string, i: nat): seq<string> {
      if i < |path| then Components(path[i..]) else []
    }

    lemma RestAfter(path: string, i: nat)
      requires i <= |path| && (i < |path| ==> Components(path[i..]) == Components(path[i + 1..]))
      ensures Rest(path, i + 1) == Components(path[i..])
    {
      EndOfPath(path, i);
      if i < |path| {
        EndOfPath(path, i + 1);
      }
    }

    method IsSeparator(buffer: array<char>, i: nat, path: string) returns (separator: bool)
      requires Cleared(buffer[..], path) && '\0' !in path && i < |path|
      ensures separator <==> path[i] == SEPARATOR
    {
      assert path[i] in path;
      separator := buffer[i] == '\0';
    }

    lemma EndOfPath(path: string, i: nat)
      requires i <= |path|
      ensures i == |path| ==> Components(path[i..]) == []
    {
    }

    /**
     `vfs_lookup`: the walk over the path's components.  A found vnode has one reference more, on failure no
     vnode has more or fewer, and no vnode is made inactive.
     */
    method Lookup(src: nat, path: string, parent: bool, noLink: bool, memory: bool) returns (r: Outcome)
      requires Valid() && src in tree.types && '\0' !in path
      modifies this
      ensures r == if !memory && 0 < |path| <= MAX_PATH_NAME then Failed(ENOMEM)
                   else PathWalk.Lookup(tree, src, path, parent, noLink)
      ensures inactive == old(inactive)
      ensures r.Found? ==> refs == Held(old(refs), r.node)
      ensures r.Failed? ==> refs == old(refs)
    {
      hide Sane, Walk, Cleared;
      if |path| == 0 {
        if parent {
          return Failed(ENOENT);
        }
        var result := HighestNode(src);
        Hold(result);
        EmptyWalk(result, parent, noLink);
        return Found(result, None);
      }
      if |path| > MAX_PATH_NAME {
        return Failed(ENAMETOOLONG);
      }
      var current := HighestNode(src);
      if !memory {
        return Failed(ENOMEM);
      }
      var buffer := SplitBuffer(path);
      Hold(current);
      r := WalkPath(current, buffer, path, parent, noLink, old(refs));
    }

    lemma EmptyWalk(n: nat, parent: bool, noLink: bool)
      requires Sane(tree) && n in tree.types
      ensures Components([]) == [] && Walk(tree, n, [], parent, noLink) == Found(n, None)
    {
    }
  }
}
