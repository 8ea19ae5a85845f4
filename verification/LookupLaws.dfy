/** What `vfs_lookup` promises, stated on the tree: mounts, "..", joined paths, and which error comes when. */
module PathLaws {
  import opened Options
  import opened PathWalk

  // ---------- one part of a path after the other ----------

  /** Only the last component is followed differently, and only for links that shall not be. */
  lemma SameStep(t: Tree, cur: nat, comp: string, noLink: bool)
    requires Sane(t) && cur in t.types
    ensures OneStep(t, cur, comp, true, false) == OneStep(t, cur, comp, false, noLink)
  {
  }

  /** Walking a + b is walking b from where a ends. */
  lemma {:induction false} WalkConcat(t: Tree, cur: nat, a: seq<string>, b: seq<string>, parent: bool, noLink: bool)
    requires Sane(t) && cur in t.types && b != []
    ensures var r := Walk(t, cur, a, false, false);
      Walk(t, cur, a + b, parent, noLink) == if r.Found? then Walk(t, r.node, b, parent, noLink) else r
    decreases |a|
  {
    if a == [] {
      assert a + b == b;
    } else {
      assert (a + b)[0] == a[0] && (a + b)[1..] == a[1..] + b;
      WalkUnfold(t, cur, a, false, false);
      WalkUnfold(t, cur, a + b, parent, noLink);
      SameStep(t, cur, a[0], false);
      SameStep(t, cur, a[0], noLink);
      hide Walk, OneStep;
      var step := OneStep(t, cur, a[0], false, false);
      if step.Found? {
        WalkConcat(t, step.node, a[1..], b, parent, noLink);
      }
    }
  }

  lemma Prefix(a: string, b: string, n: nat)
    requires n <= |a|
    ensures (a + b)[n..] == a[n..] + b && (a + b)[..n] == a[..n] && forall k :: 0 <= k < n ==> (a + b)[k] == a[k]
    ensures n < |a| ==> (a + b)[n] == a[n]
  {
  }

  lemma JoinedRun(p: string, q: string)
    ensures var s, n := p + [SEPARATOR] + q, Run(p);
      n <= |p| && Run(s) == n && s[..n] == p[..n] && s[n..] == p[n..] + [SEPARATOR] + q
  {
    var s, n := p + [SEPARATOR] + q, Run(p);
    hide Run;
    Prefix(p + [SEPARATOR], q, n);
    Prefix(p, [SEPARATOR], n);
    RunIs(s, n);
  }

  /** The components of two paths joined by a separator. */
  lemma {:induction false} ComponentsJoin(p: string, q: string)
    ensures Components(p + [SEPARATOR] + q) == Components(p) + Components(q)
    decreases |p|
  {
    var s := p + [SEPARATOR] + q;
    if p == [] {
      assert s[1..] == q;
    } else if p[0] == SEPARATOR {
      assert s[1..] == p[1..] + [SEPARATOR] + q;
      ComponentsJoin(p[1..], q);
    } else {
      var n := Run(p);
      JoinedRun(p, q);
      ComponentsJoin(p[n..], q);
    }
  }

  /** A name without separators is its own only component; with the law above this decides those of any path. */
  lemma OneComponent(name: string)
    requires name != [] && SEPARATOR !in name
    ensures Components(name) == [name] && Components([]) == []
  {
    RunIs(name, |name|);
    assert name[..|name|] == name && name[|name|..] == [];
  }

  /** Looking up p/q is looking up q from what p is. */
  lemma JoinLaw(t: Tree, src: nat, p: string, q: string, parent: bool, noLink: bool)
    requires Sane(t) && src in t.types && |p| + 1 + |q| <= MAX_PATH_NAME && Components(q) != []
    ensures var r := Lookup(t, src, p, false, false);
      Lookup(t, src, p + [SEPARATOR] + q, parent, noLink) ==
      if r.Found? then Lookup(t, r.node, q, parent, noLink) else r
  {
    ComponentsJoin(p, q);
    var cur := Highest(t, src);
    WalkConcat(t, cur, Components(p), Components(q), parent, noLink);
    NeverCovered(t, cur, Components(p), false, false);
  }

  /** Asking for the parent gives the directory where all but the last component lead, and that component. */
  lemma LastLaw(t: Tree, cur: nat, cs: seq<string>, last: string, noLink: bool)
    requires Sane(t) && cur in t.types
    ensures var r := Walk(t, cur, cs, false, false);
      Walk(t, cur, cs + [last], true, noLink) ==
      if !r.Found? then r else if t.types[r.node] != Dir then Failed(ENOTDIR) else Found(r.node, Some(last))
  {
    WalkConcat(t, cur, cs, [last], true, noLink);
  }

  // ---------- mounts ----------

  /** A walk that starts on top of the mounts ends there: what is found is never hidden under a mount. */
  lemma {:induction false} NeverCovered(t: Tree, cur: nat, comps: seq<string>, parent: bool, noLink: bool)
    requires Sane(t) && cur in t.types && cur !in t.mounted
    ensures var r := Walk(t, cur, comps, parent, noLink); r.Found? ==> r.node !in t.mounted
    decreases |comps|
  {
    if comps != [] {
      WalkUnfold(t, cur, comps, parent, noLink);
      var step := OneStep(t, cur, comps[0], |comps| == 1, noLink);
      if step.Found? {
        NeverCovered(t, step.node, comps[1..], parent, noLink);
      }
    }
  }

  lemma FoundOnTop(t: Tree, src: nat, path: string, parent: bool, noLink: bool)
    requires Sane(t) && src in t.types
    ensures var r := Lookup(t, src, path, parent, noLink); r.Found? ==> r.node !in t.mounted
  {
    NeverCovered(t, Highest(t, src), Components(path), parent, noLink);
  }

  // ---------- ".." ----------

  ghost predicate AllUp(comps: seq<string>) {
    forall i :: 0 <= i < |comps| ==> comps[i] == ".."
  }

  lemma {:induction false} UpStays(t: Tree, comps: seq<string>, noLink: bool)
    requires Sane(t) && AllUp(comps) && t.types[Highest(t, t.root)] == Dir
    ensures Walk(t, Highest(t, t.root), comps, false, noLink) == Found(Highest(t, t.root), None)
    decreases |comps|
  {
    if comps != [] {
      UpStays(t, comps[1..], noLink);
    }
  }

  /** A path of nothing but ".." from the root finds the root. */
  lemma RootLaw(t: Tree, src: nat, path: string, noLink: bool)
    requires Sane(t) && src in t.types && Highest(t, src) == Highest(t, t.root) && t.types[Highest(t, src)] == Dir
    requires AllUp(Components(path)) && |path| <= MAX_PATH_NAME
    ensures Lookup(t, src, path, false, noLink) == Found(Highest(t, t.root), None)
  {
    UpStays(t, Components(path), noLink);
  }

  /** Directories are mounted on directories (`vfs_mount`). */
  ghost predicate MountedDirs(t: Tree) {
    forall n :: n in t.mounted && n in t.types && t.mounted[n] in t.types ==>
      t.types[n] == Dir && t.types[t.mounted[n]] == Dir
  }

  lemma {:induction false} TopIsDir(t: Tree, n: nat)
    requires Sane(t) && MountedDirs(t) && n in t.types && t.types[n] == Dir
    ensures t.types[Highest(t, n)] == Dir
    decreases t.height - t.rank[n]
  {
    if n in t.mounted {
      TopIsDir(t, t.mounted[n]);
    }
  }

  lemma {:induction false} BottomIsDir(t: Tree, n: nat)
    requires Sane(t) && MountedDirs(t) && n in t.types && n in t.covered
    ensures Lowest(t, n) in t.mounted && t.types[Lowest(t, n)] == Dir
    decreases t.rank[n]
  {
    if t.covered[n] in t.covered {
      BottomIsDir(t, t.covered[n]);
    }
  }

  /** ".." from the root of a mounted file system is ".." from the vnode at the bottom of its stack of mounts. */
  lemma UpFromMount(t: Tree, n: nat, noLink: bool)
    requires Sane(t) && MountedDirs(t) && n in t.covered && t.types[n] == Dir && n != Highest(t, t.root)
    ensures Walk(t, n, [".."], false, noLink) == Walk(t, Lowest(t, n), [".."], false, noLink)
  {
    BottomIsDir(t, n);
    hide Sane;
    WalkUnfold(t, n, [".."], false, noLink);
    WalkUnfold(t, Lowest(t, n), [".."], false, noLink);
  }

  /** An entry of a directory, other than the two it has for itself and its parent. */
  ghost predicate Entry(t: Tree, d: nat, name: string) {
    d in t.children && name in t.children[d] && name != "." && name != ".."
  }

  /**
   What `tmpfs_create` and `vfs_mount` make of a tree: a directory's ".." is where its entry is, and neither the root
   nor the root of a mounted file system is an entry of a directory.
   */
  ghost predicate Linked(t: Tree)
    requires Sane(t)
  {
    && MountedDirs(t)
    && forall d, name :: Entry(t, d, name) ==>
         var c := t.children[d][name];
         && t.types[d] == Dir && c !in t.covered && c != Lowest(t, t.root)
         && (t.types[c] == Dir ==> c in t.children && ".." in t.children[c] && t.children[c][".."] == d)
  }

  /** In such a tree ".." goes to the directory that has the entry, wherever the entry is and whatever is mounted. */
  lemma UpToEntry(t: Tree, n: nat, d: nat, name: string, noLink: bool)
    requires Sane(t) && Linked(t) && n in t.types && t.types[n] == Dir
    requires Entry(t, d, name) && Lowest(t, n) == t.children[d][name]
    ensures Walk(t, n, [".."], false, noLink) == Found(Highest(t, d), None)
  {
    var c := t.children[d][name];
    if n == Highest(t, t.root) {
      SameStack(t, t.root);
      assert false;
    }
    if n in t.covered {
      BottomIsDir(t, n);
    }
    TopIsDir(t, d);
    WalkUnfold(t, n, [".."], false, noLink);
    assert Child(t, c, "..") == Found(d, None);
  }

  /** cs/.. is the parent directory of cs. */
  lemma ParentLaw(t: Tree, cur: nat, cs: seq<string>, n: nat, d: nat, name: string, noLink: bool)
    requires Sane(t) && Linked(t) && cur in t.types && n in t.types && t.types[n] == Dir
    requires Walk(t, cur, cs, false, false) == Found(n, None)
    requires Entry(t, d, name) && Lowest(t, n) == t.children[d][name]
    ensures Walk(t, cur, cs + [".."], false, noLink) == Found(Highest(t, d), None)
  {
    WalkConcat(t, cur, cs, [".."], false, noLink);
    hide Linked, Walk;
    UpToEntry(t, n, d, name, noLink);
  }

  /** cs/name/.. is cs, for every directory of that name, whether something is mounted on it or not. */
  lemma ThereAndBack(t: Tree, cur: nat, cs: seq<string>, m: nat, name: string, noLink: bool)
    requires Sane(t) && Linked(t) && cur in t.types && cur !in t.mounted && m in t.types
    requires Walk(t, cur, cs, false, false) == Found(m, None)
    requires Entry(t, m, name) && t.types[Highest(t, t.children[m][name])] == Dir
    ensures Walk(t, cur, cs + [name, ".."], false, noLink) == Found(m, None)
  {
    NeverCovered(t, cur, cs, false, false);
    var c := t.children[m][name];
    assert t.types[m] == Dir && c !in t.covered;
    SameStack(t, c);
    var n := Highest(t, c);
    WalkConcat(t, cur, cs, [name], false, false);
    WalkUnfold(t, m, [name], false, false);
    assert Walk(t, m, [name], false, false) == Found(n, None);
    assert cs + [name, ".."] == cs + [name] + [".."];
    ParentLaw(t, cur, cs + [name], n, m, name, noLink);
  }

  // ---------- names ----------

  /** Where a component is looked up: ".." below all mounts. */
  function Base(t: Tree, n: nat, comp: string): (r: nat)
    requires Sane(t) && n in t.types
    ensures r in t.types
  {
    if comp == ".." then Lowest(t, n) else n
  }

  predicate Missing(t: Tree, d: nat, name: string) {
    !(d in t.children && name in t.children[d])
  }

  predicate StaysAtRoot(t: Tree, n: nat, comp: string)
    requires Sane(t)
  {
    comp == ".." && n == Highest(t, t.root)
  }

  /** A name leads from a directory to what its table has for it, on top of what is mounted there. */
  lemma NameLaw(t: Tree, n: nat, comp: string, noLink: bool)
    requires Sane(t) && n in t.types && t.types[n] == Dir && !StaysAtRoot(t, n, comp)
    requires var d := Base(t, n, comp); t.types[d] == Dir && !Missing(t, d, comp)
    ensures var next := Highest(t, t.children[Base(t, n, comp)][comp]);
      Walk(t, n, [comp], false, noLink) == if t.types[next] == Link && !noLink then Unimplemented else Found(next, None)
  {
    WalkUnfold(t, n, [comp], false, noLink);
  }

  // ---------- errors ----------

  /** The walk gets to component k and then finds no directory to look it up in. */
  ghost predicate NoDirAt(t: Tree, cur: nat, comps: seq<string>, parent: bool, k: nat)
    requires Sane(t) && cur in t.types
  {
    && k < |comps|
    && var r := Walk(t, cur, comps[..k], false, false);
       && r.Found?
       && (t.types[r.node] != Dir
           || (!(parent && k == |comps| - 1) && !StaysAtRoot(t, r.node, comps[k])
               && t.types[Base(t, r.node, comps[k])] != Dir))
  }

  /** The walk gets to component k, has to look it up, and the directory has no entry of that name. */
  ghost predicate NoEntryAt(t: Tree, cur: nat, comps: seq<string>, parent: bool, k: nat)
    requires Sane(t) && cur in t.types
  {
    && k < |comps| && !(parent && k == |comps| - 1)
    && var r := Walk(t, cur, comps[..k], false, false);
       && r.Found? && t.types[r.node] == Dir && !StaysAtRoot(t, r.node, comps[k])
       && t.types[Base(t, r.node, comps[k])] == Dir && Missing(t, Base(t, r.node, comps[k]), comps[k])
  }

  ghost predicate FailsAt(t: Tree, cur: nat, comps: seq<string>, parent: bool, k: nat, e: Errno)
    requires Sane(t) && cur in t.types
  {
    if e == ENOTDIR then NoDirAt(t, cur, comps, parent, k) else NoEntryAt(t, cur, comps, parent, k)
  }

  ghost predicate FailsSomewhere(t: Tree, cur: nat, comps: seq<string>, parent: bool, e: Errno)
    requires Sane(t) && cur in t.types
  {
    exists k: nat :: FailsAt(t, cur, comps, parent, k, e)
  }

  /** Component k of the whole is component k - 1 of the rest. */
  lemma FailsLater(t: Tree, cur: nat, comps: seq<string>, parent: bool, k: nat, e: Errno)
    requires Sane(t) && cur in t.types && 0 < k < |comps|
    ensures var step := OneStep(t, cur, comps[0], false, false);
      FailsAt(t, cur, comps, parent, k, e) <==>
      t.types[cur] == Dir && step.Found? && FailsAt(t, step.node, comps[1..], parent, k - 1, e)
  {
    assert comps[..k][0] == comps[0] && comps[..k][1..] == comps[1..][..k - 1];
    WalkUnfold(t, cur, comps[..k], false, false);
    SameStep(t, cur, comps[0], false);
    assert comps[1..][k - 1] == comps[k];
  }

  /** What the first component decides. */
  lemma FailsFirst(t: Tree, cur: nat, comps: seq<string>, parent: bool, noLink: bool, e: Errno)
    requires Sane(t) && cur in t.types && comps != [] && (e == ENOTDIR || e == ENOENT)
    ensures FailsAt(t, cur, comps, parent, 0, e) <==>
            if t.types[cur] != Dir then e == ENOTDIR
            else !(|comps| == 1 && parent) && OneStep(t, cur, comps[0], |comps| == 1, noLink) == Failed(e)
  {
    assert comps[..0] == [];
  }

  lemma OnlyInside(t: Tree, cur: nat, comps: seq<string>, parent: bool, k: nat, e: Errno)
    requires Sane(t) && cur in t.types
    ensures FailsAt(t, cur, comps, parent, k, e) ==> k < |comps|
  {
  }

  lemma Shifted(t: Tree, cur: nat, next: nat, comps: seq<string>, parent: bool, e: Errno)
    requires Sane(t) && cur in t.types && next in t.types && |comps| > 1 && !FailsAt(t, cur, comps, parent, 0, e)
    requires forall k: nat :: 0 < k < |comps| ==>
               (FailsAt(t, cur, comps, parent, k, e) <==> FailsAt(t, next, comps[1..], parent, k - 1, e))
    ensures FailsSomewhere(t, cur, comps, parent, e) <==> FailsSomewhere(t, next, comps[1..], parent, e)
  {
    hide NoDirAt, NoEntryAt, Sane;
    if k: nat :| FailsAt(t, cur, comps, parent, k, e) {
      OnlyInside(t, cur, comps, parent, k, e);
      assert FailsAt(t, next, comps[1..], parent, k - 1, e);
    }
    if k: nat :| FailsAt(t, next, comps[1..], parent, k, e) {
      OnlyInside(t, next, comps[1..], parent, k, e);
      assert FailsAt(t, next, comps[1..], parent, k + 1 - 1, e);
      assert FailsAt(t, cur, comps, parent, k + 1, e);
    }
  }

  /**
   A lookup fails with ENOTDIR exactly when a vnode it walks through is no directory, and with ENOENT exactly when a
   name it has to look up is missing.
   */
  lemma {:induction false} ErrorsExact(t: Tree, cur: nat, comps: seq<string>, parent: bool, noLink: bool, e: Errno)
    requires Sane(t) && cur in t.types && (e == ENOTDIR || e == ENOENT)
    ensures Walk(t, cur, comps, parent, noLink) == Failed(e) <==> FailsSomewhere(t, cur, comps, parent, e)
    decreases |comps|
  {
    if comps != [] {
      WalkUnfold(t, cur, comps, parent, noLink);
      FailsFirst(t, cur, comps, parent, noLink, e);
      SameStep(t, cur, comps[0], false);
      SameStep(t, cur, comps[0], noLink);
      hide NoDirAt, NoEntryAt, Walk, OneStep, Sane;
      forall k | 0 < k < |comps| ensures FailsAt(t, cur, comps, parent, k, e) <==>
        t.types[cur] == Dir && OneStep(t, cur, comps[0], false, false).Found?
        && FailsAt(t, OneStep(t, cur, comps[0], false, false).node, comps[1..], parent, k - 1, e)
      {
        FailsLater(t, cur, comps, parent, k, e);
      }
      var step := OneStep(t, cur, comps[0], |comps| == 1, noLink);
      if t.types[cur] == Dir && |comps| > 1 && step.Found? {
        ErrorsExact(t, step.node, comps[1..], parent, noLink, e);
        Shifted(t, cur, step.node, comps, parent, e);
      }
    }
  }

  /** The same for paths, where the empty path has no parent and a path can be too long. */
  lemma LookupErrors(t: Tree, src: nat, path: string, parent: bool, noLink: bool, e: Errno)
    requires Sane(t) && src in t.types
    ensures Lookup(t, src, path, parent, noLink) == Failed(e) <==>
            if path == [] && parent then e == ENOENT
            else if |path| > MAX_PATH_NAME then e == ENAMETOOLONG
            else (e == ENOTDIR || e == ENOENT) &&
                 FailsSomewhere(t, Highest(t, src), Components(path), parent, e)
  {
    hide FailsSomewhere, Walk;
    WalkErrors(t, Highest(t, src), Components(path), parent, noLink);
    if e == ENOTDIR || e == ENOENT {
      ErrorsExact(t, Highest(t, src), Components(path), parent, noLink, e);
    }
  }
}
