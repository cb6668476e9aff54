/** The process tree as it lies in memory: whose child a task is, the line of descent to it, and the order of
    the listing. None of this mentions printing; the last lemma says what the printer prints. */
module Descendants {
  import opened ProcessTree

  // node is the n-th of the nodes visited from pos on, before the loop comes back to the head.
  ghost predicate OnList(head: ListHead, pos: ListHead, node: ListHead, n: nat)
    reads *
  {
    pos != head && if n == 0 then pos == node else OnList(head, pos.next, node, n - 1)
  }

  // t is the n-th child of p.
  ghost predicate IsChild(p: Task, t: Task, n: nat)
    reads *
  {
    t.sibling.entry == t && OnList(p.children, p.children.next, t.sibling, n)
  }

  ghost predicate ChildOf(p: Task, t: Task)
    reads *
  {
    exists n: nat :: IsChild(p, t, n)
  }

  // The task the i-th task of a path has to be a child of.
  ghost function ParentAt(root: Task, path: seq<Task>, i: nat): Task
    requires i < |path|
  {
    if i == 0 then root else path[i - 1]
  }

  // A line of descent from root, which itself is left out.
  ghost predicate IsPath(root: Task, path: seq<Task>)
    reads *
  {
    path != [] && forall i | 0 <= i < |path| :: ChildOf(ParentAt(root, path, i), path[i])
  }

  function Last(path: seq<Task>): Task
    requires path != []
  {
    path[|path| - 1]
  }

  // t comes before u among the children of p.
  ghost predicate Elder(p: Task, t: Task, u: Task)
    reads *
  {
    exists m: nat, n: nat :: m < n && IsChild(p, t, m) && IsChild(p, u, n)
  }

  // Preorder: a task comes before those below it, and where two paths part the elder's side comes first.
  ghost predicate Precedes(root: Task, p: seq<Task>, q: seq<Task>)
    reads *
  {
    p < q || exists k | 0 <= k < |p| && k < |q| && p[..k] == q[..k] :: Elder(ParentAt(root, p, k), p[k], q[k])
  }

  function TasksIn(f: Forest<Task>): set<Task> {
    match f
    case Nil => {}
    case Child(t, below, beside) => {t} + TasksIn(below) + TasksIn(beside)
  }

  // list_head structures are embedded: no head is an entry of a list, and each belongs to one task.
  ghost predicate Embedded(tasks: set<Task>)
    reads *
  {
    && (forall t | t in tasks :: t.children.entry == null)
    && (forall t, u | t in tasks && u in tasks && t != u :: t.children != u.children)
  }

  function Size(f: Forest<Task>): nat {
    match f
    case Nil => 0
    case Child(_, below, beside) => 1 + Size(below) + Size(beside)
  }

  // What a list holds from a node on, and where it ends, is determined by the node.
  lemma {:induction false} SameForest(head: ListHead, head': ListHead, pos: ListHead, f: Forest<Task>, g: Forest<Task>)
    requires Holds(head, pos, f) && Holds(head', pos, g)
    requires head.entry == null && head'.entry == null && forall t | t in TasksIn(f) :: t.children.entry == null
    ensures head == head' && f == g
    decreases f
  {
    if f.Child? && g.Child? {
      var t := f.node;
      SameForest(t.children, t.children, t.children.next, f.below, g.below);
      SameForest(head, head', pos.next, f.beside, g.beside);
    }
  }

  // The rest of the list from its n-th node on.
  lemma {:induction false} ListAt(head: ListHead, pos: ListHead, f: Forest<Task>, t: Task, n: nat)
    returns (g: Forest<Task>)
    requires Holds(head, pos, f) && OnList(head, pos, t.sibling, n) && t.sibling.entry == t
    ensures Holds(head, t.sibling, g) && g.Child? && g.node == t
    ensures Size(g) + n <= Size(f) && TasksIn(g) <= TasksIn(f)
    decreases n
  {
    if n == 0 {
      g := f;
    } else {
      g := ListAt(head, pos.next, f.beside, t, n - 1);
    }
  }

  ghost predicate Under(root: Task, f: Forest<Task>)
    reads *
  {
    Holds(root.children, root.children.next, f) && Embedded({root} + TasksIn(f))
  }

  // A child's own children, as they stand in the forest.
  lemma BelowChild(p: Task, f: Forest<Task>, t: Task) returns (g: Forest<Task>)
    requires Under(p, f) && ChildOf(p, t)
    ensures t in TasksIn(f) && Under(t, g) && Size(g) < Size(f) && TasksIn(g) <= TasksIn(f)
  {
    var n: nat :| IsChild(p, t, n);
    var rest := ListAt(p.children, p.children.next, f, t, n);
    g := rest.below;
  }

  lemma {:induction false} BelowPath(root: Task, f: Forest<Task>, path: seq<Task>) returns (g: Forest<Task>)
    requires Under(root, f) && IsPath(root, path)
    ensures Last(path) in TasksIn(f) && Under(Last(path), g) && Size(g) < Size(f) && TasksIn(g) <= TasksIn(f)
  {
    var n := |path| - 1;
    assert ChildOf(ParentAt(root, path, n), path[n]);
    if n == 0 {
      g := BelowChild(root, f, path[0]);
    } else {
      ShorterPath(root, path);
      var h := BelowPath(root, f, path[..n]);
      g := BelowChild(path[n - 1], h, path[n]);
    }
  }

  lemma ShorterPath(root: Task, path: seq<Task>)
    requires IsPath(root, path) && |path| > 1
    ensures IsPath(root, path[..|path| - 1]) && Last(path[..|path| - 1]) == path[|path| - 2]
  {
    var p := path[..|path| - 1];
    assert forall i | 0 <= i < |p| :: p[i] == path[i] && ParentAt(root, p, i) == ParentAt(root, path, i);
  }

  // Nobody is below himself.
  lemma RootIsNotBelow(root: Task, f: Forest<Task>, path: seq<Task>)
    requires Under(root, f) && IsPath(root, path)
    ensures Last(path) != root
  {
    var g := BelowPath(root, f, path);
    if Last(path) == root {
      SameForest(root.children, root.children, root.children.next, f, g);
    }
  }

  // A task has one parent: its list ends at one head only.
  lemma OneParent(p: Task, f: Forest<Task>, q: Task, g: Forest<Task>, t: Task, tasks: set<Task>)
    requires Under(p, f) && Under(q, g) && ChildOf(p, t) && ChildOf(q, t)
    requires Embedded(tasks) && p in tasks && q in tasks
    ensures p == q
  {
    var m: nat :| IsChild(p, t, m);
    var n: nat :| IsChild(q, t, n);
    var f' := ListAt(p.children, p.children.next, f, t, m);
    var g' := ListAt(q.children, q.children.next, g, t, n);
    SameForest(p.children, q.children, t.sibling, f', g');
  }

  // The forest below the parent of the last task of a path.
  lemma BelowParent(root: Task, f: Forest<Task>, path: seq<Task>) returns (g: Forest<Task>)
    requires Under(root, f) && IsPath(root, path)
    ensures var p := ParentAt(root, path, |path| - 1);
            Under(p, g) && p in {root} + TasksIn(f) && ChildOf(p, Last(path))
  {
    if |path| == 1 {
      g := f;
    } else {
      ShorterPath(root, path);
      g := BelowPath(root, f, path[..|path| - 1]);
    }
  }

  lemma SameParent(root: Task, f: Forest<Task>, p: seq<Task>, q: seq<Task>)
    requires Under(root, f) && IsPath(root, p) && IsPath(root, q) && Last(p) == Last(q)
    ensures ParentAt(root, p, |p| - 1) == ParentAt(root, q, |q| - 1)
  {
    var g := BelowParent(root, f, p);
    var h := BelowParent(root, f, q);
    OneParent(ParentAt(root, p, |p| - 1), g, ParentAt(root, q, |q| - 1), h, Last(p), {root} + TasksIn(f));
  }

  lemma SameClimb(root: Task, f: Forest<Task>, p: seq<Task>, q: seq<Task>)
    requires Under(root, f) && IsPath(root, p) && IsPath(root, q) && Last(p) == Last(q) && |p| > 1
    ensures |q| > 1 && IsPath(root, p[..|p| - 1]) && IsPath(root, q[..|q| - 1])
    ensures Last(p[..|p| - 1]) == Last(q[..|q| - 1])
  {
    SameParent(root, f, p, q);
    ShorterPath(root, p);
    if |q| > 1 {
      ShorterPath(root, q);
    } else {
      RootIsNotBelow(root, f, p[..|p| - 1]);
    }
  }

  lemma OneLonger(p: seq<Task>, q: seq<Task>)
    requires p != [] && q != [] && p[..|p| - 1] == q[..|q| - 1] && Last(p) == Last(q)
    ensures p == q
  {
    assert p == p[..|p| - 1] + [Last(p)] && q == q[..|q| - 1] + [Last(q)];
  }

  // So there is one path to each task below root.
  lemma {:induction false} OnePath(root: Task, f: Forest<Task>, p: seq<Task>, q: seq<Task>)
    requires Under(root, f) && IsPath(root, p) && IsPath(root, q) && Last(p) == Last(q)
    ensures p == q
  {
    if |p| > 1 {
      SameClimb(root, f, p, q);
      OnePath(root, f, p[..|p| - 1], q[..|q| - 1]);
    } else if |q| > 1 {
      SameClimb(root, f, q, p);
    }
    OneLonger(p, q);
  }

  // A node stands at one place of its list.
  lemma OnePlace(p: Task, f: Forest<Task>, t: Task, m: nat, n: nat)
    requires Under(p, f) && IsChild(p, t, m) && IsChild(p, t, n)
    ensures m == n
    decreases m > n
  {
    if m > n {
      OnePlace(p, f, t, n, m);
    } else if m < n {
      NotTwice(p.children, p.children.next, f, t, m, n);
    }
  }

  lemma {:induction false} NotTwice(head: ListHead, pos: ListHead, f: Forest<Task>, t: Task, m: nat, n: nat)
    requires Holds(head, pos, f) && head.entry == null && forall u | u in TasksIn(f) :: u.children.entry == null
    requires m < n && t.sibling.entry == t && OnList(head, pos, t.sibling, m)
    ensures !OnList(head, pos, t.sibling, n)
    decreases m
  {
    if OnList(head, pos, t.sibling, n) {
      if m == 0 {
        var g := ListAt(head, pos, f, t, n);
        SameForest(head, head, pos, f, g);
      } else {
        NotTwice(head, pos.next, f.beside, t, m - 1, n - 1);
      }
    }
  }

  lemma OrderIsStrict(root: Task, f: Forest<Task>, p: seq<Task>, q: seq<Task>)
    requires Under(root, f) && IsPath(root, p) && IsPath(root, q) && Precedes(root, p, q)
    ensures Last(p) != Last(q)
  {
    if Last(p) == Last(q) {
      OnePath(root, f, p, q);
      var k :| 0 <= k < |p| && Elder(ParentAt(root, p, k), p[k], p[k]);
      NotElderThanItself(root, f, p, k);
    }
  }

  lemma NotElderThanItself(root: Task, f: Forest<Task>, p: seq<Task>, k: nat)
    requires Under(root, f) && IsPath(root, p) && k < |p|
    ensures !Elder(ParentAt(root, p, k), p[k], p[k])
  {
    var parent, t := ParentAt(root, p, k), p[k];
    PathUpTo(root, p, k);
    var g := BelowParent(root, f, p[..k + 1]);
    forall m: nat, n: nat | m < n && IsChild(parent, t, m) && IsChild(parent, t, n) ensures false {
      OnePlace(parent, g, t, m, n);
    }
  }

  lemma PathUpTo(root: Task, path: seq<Task>, k: nat)
    requires IsPath(root, path) && k < |path|
    ensures IsPath(root, path[..k + 1]) && Last(path[..k + 1]) == path[k]
    ensures ParentAt(root, path[..k + 1], k) == ParentAt(root, path, k)
  {
    var p := path[..k + 1];
    assert forall i | 0 <= i < |p| :: p[i] == path[i] && ParentAt(root, p, i) == ParentAt(root, path, i);
  }

  /* ---- The listing. ---- */

  // The paths to the tasks of a forest, in the order of the printed lines.
  function Paths(f: Forest<Task>, above: seq<Task>): seq<seq<Task>> {
    match f
    case Nil => []
    case Child(t, below, beside) => [above + [t]] + (Paths(below, above + [t]) + Paths(beside, above))
  }

  function LineFor(path: seq<Task>, start: int): Line
    requires path != []
  {
    Line(start + 4 * (|path| - 1), Last(path).pid, Last(path).comm)
  }

  lemma {:induction false} LinesFollowPaths(f: Forest<Task>, above: seq<Task>, start: int)
    ensures var lines, paths := Lines(Names(f), start + 4 * |above|), Paths(f, above);
            |lines| == |paths| && forall i | 0 <= i < |lines| :: paths[i] != [] && lines[i] == LineFor(paths[i], start)
  {
    match f
    case Nil =>
    case Child(t, below, beside) =>
      LinesFollowPaths(below, above + [t], start);
      LinesFollowPaths(beside, above, start);
  }

  // The forest is what stands on the children list of the last task above, from its m-th node on.
  ghost predicate Stands(root: Task, above: seq<Task>, pos: ListHead, m: nat, f: Forest<Task>)
    reads *
  {
    var p := if above == [] then root else Last(above);
    && (above == [] || IsPath(root, above))
    && Holds(p.children, pos, f)
    && (f.Child? ==> IsChild(p, f.node, m))
  }

  lemma {:induction false} NextOnList(head: ListHead, pos: ListHead, node: ListHead, m: nat)
    requires OnList(head, pos, node, m) && node.next != head
    ensures OnList(head, pos, node.next, m + 1)
    decreases m
  {
    if m > 0 {
      NextOnList(head, pos.next, node, m - 1);
    }
  }

  lemma StandsBeside(root: Task, above: seq<Task>, pos: ListHead, m: nat, f: Forest<Task>)
    requires Stands(root, above, pos, m, f) && f.Child?
    ensures Stands(root, above, pos.next, m + 1, f.beside)
  {
    var p := if above == [] then root else Last(above);
    assert Holds(p.children, pos.next, f.beside);
    if f.beside.Child? {
      NextOnList(p.children, p.children.next, pos, m);
    }
  }

  lemma StandsBelow(root: Task, above: seq<Task>, pos: ListHead, m: nat, f: Forest<Task>)
    requires Stands(root, above, pos, m, f) && f.Child?
    ensures IsPath(root, above + [f.node])
    ensures Stands(root, above + [f.node], f.node.children.next, 0, f.below)
  {
    var path := above + [f.node];
    assert forall i | 0 <= i < |above| :: path[i] == above[i] && ParentAt(root, path, i) == ParentAt(root, above, i);
    assert ChildOf(ParentAt(root, path, |above|), path[|above|]);
  }

  // Where a path of the forest leaves the path above it: at a child of that path's last task, the m-th or later.
  ghost predicate Leaves(root: Task, above: seq<Task>, m: nat, path: seq<Task>)
    reads *
  {
    above < path && exists n: nat :: m <= n && IsChild(ParentAt(root, path, |above|), path[|above|], n)
  }

  lemma LeavesEarlier(root: Task, above: seq<Task>, m: nat, t: Task, path: seq<Task>)
    requires above + [t] <= path && IsChild(if above == [] then root else Last(above), t, m)
    ensures Leaves(root, above, m, path)
  {
    assert path[..|above| + 1] == above + [t];
    assert forall i | 0 <= i <= |above| :: path[i] == (above + [t])[i];
    assert IsChild(ParentAt(root, path, |above|), path[|above|], m);
  }

  lemma {:induction false} PathsAreBelow(root: Task, above: seq<Task>, pos: ListHead, m: nat, f: Forest<Task>)
    requires Stands(root, above, pos, m, f)
    ensures forall path | path in Paths(f, above) :: IsPath(root, path) && Leaves(root, above, m, path)
    decreases f
  {
    if f.Child? {
      var t := f.node;
      StandsBelow(root, above, pos, m, f);
      StandsBeside(root, above, pos, m, f);
      PathsAreBelow(root, above + [t], t.children.next, 0, f.below);
      PathsAreBelow(root, above, pos.next, m + 1, f.beside);
      forall path | path == above + [t] || path in Paths(f.below, above + [t]) ensures Leaves(root, above, m, path) {
        LeavesEarlier(root, above, m, t, path);
      }
    }
  }

  // A path that goes through the m-th child comes before one that leaves at a later child.
  lemma ElderSideFirst(root: Task, above: seq<Task>, m: nat, t: Task, p: seq<Task>, q: seq<Task>)
    requires above + [t] <= p && IsChild(if above == [] then root else Last(above), t, m)
    requires Leaves(root, above, m + 1, q)
    ensures Precedes(root, p, q)
  {
    var k := |above|;
    assert forall i | 0 <= i <= k :: p[i] == (above + [t])[i];
    assert p[..k] == above == q[..k];
    assert Elder(ParentAt(root, p, k), p[k], q[k]);
  }

  ghost predicate InOrder(root: Task, paths: seq<seq<Task>>)
    reads *
  {
    forall i, j | 0 <= i < j < |paths| :: Precedes(root, paths[i], paths[j])
  }

  lemma JoinInOrder(root: Task, a: seq<seq<Task>>, b: seq<seq<Task>>)
    requires InOrder(root, a) && InOrder(root, b)
    requires forall p, q | p in a && q in b :: Precedes(root, p, q)
    ensures InOrder(root, a + b)
  {
  }

  lemma {:induction false} PathsAreInOrder(root: Task, above: seq<Task>, pos: ListHead, m: nat, f: Forest<Task>)
    requires Stands(root, above, pos, m, f)
    ensures InOrder(root, Paths(f, above))
    decreases f
  {
    if f.Child? {
      var t := f.node;
      var here, below, beside := [above + [t]], Paths(f.below, above + [t]), Paths(f.beside, above);
      StandsBelow(root, above, pos, m, f);
      StandsBeside(root, above, pos, m, f);
      PathsAreInOrder(root, above + [t], t.children.next, 0, f.below);
      PathsAreInOrder(root, above, pos.next, m + 1, f.beside);
      PathsAreBelow(root, above + [t], t.children.next, 0, f.below);
      PathsAreBelow(root, above, pos.next, m + 1, f.beside);
      JoinInOrder(root, here, below);
      forall p, q | p in here + below && q in beside ensures Precedes(root, p, q) {
        ElderSideFirst(root, above, m, t, p, q);
      }
      JoinInOrder(root, here + below, beside);
      assert Paths(f, above) == here + below + beside;
    }
  }

  // Every path down from the list's head is among them.
  lemma {:induction false} PathsAreAll(head: ListHead, pos: ListHead, f: Forest<Task>, above: seq<Task>,
                                         path: seq<Task>, n: nat)
    requires Holds(head, pos, f) && path != []
    requires path[0].sibling.entry == path[0] && OnList(head, pos, path[0].sibling, n)
    requires |path| > 1 ==> IsPath(path[0], path[1..])
    ensures above + path in Paths(f, above)
    decreases f
  {
    if n > 0 {
      PathsAreAll(head, pos.next, f.beside, above, path, n - 1);
    } else if |path| == 1 {
      assert above + path == Paths(f, above)[0];
    } else {
      var t, rest := path[0], path[1..];
      RestOfPath(t, rest);
      var k: nat :| IsChild(t, rest[0], k);
      PathsAreAll(t.children, t.children.next, f.below, above + [t], rest, k);
      assert above + [t] + rest == above + path;
    }
  }

  lemma RestOfPath(root: Task, path: seq<Task>)
    requires IsPath(root, path)
    ensures ChildOf(root, path[0]) && (|path| > 1 ==> IsPath(path[0], path[1..]))
  {
    assert ChildOf(ParentAt(root, path, 0), path[0]);
    if |path| > 1 {
      var rest := path[1..];
      forall i | 0 <= i < |rest| ensures ChildOf(ParentAt(path[0], rest, i), rest[i]) {
        assert rest[i] == path[i + 1] && ParentAt(path[0], rest, i) == ParentAt(root, path, i + 1);
      }
    }
  }

  lemma PathsAreExact(root: Task, f: Forest<Task>)
    requires Holds(root.children, root.children.next, f)
    ensures forall path :: path in Paths(f, []) <==> IsPath(root, path)
  {
    PathsAreBelow(root, [], root.children.next, 0, f);
    forall path | IsPath(root, path) ensures path in Paths(f, []) {
      RestOfPath(root, path);
      var n: nat :| IsChild(root, path[0], n);
      PathsAreAll(root.children, root.children.next, f, [], path, n);
      assert [] + path == path;
    }
  }

  ghost predicate EndApart(p: seq<Task>, q: seq<Task>) {
    p != [] && q != [] && Last(p) != Last(q)
  }

  ghost predicate EachOnce(paths: seq<seq<Task>>) {
    forall i, j | 0 <= i < j < |paths| :: EndApart(paths[i], paths[j])
  }

  lemma PathsAreDistinct(root: Task, f: Forest<Task>)
    requires Under(root, f)
    ensures EachOnce(Paths(f, [])) && InOrder(root, Paths(f, []))
  {
    var paths := Paths(f, []);
    PathsAreBelow(root, [], root.children.next, 0, f);
    PathsAreInOrder(root, [], root.children.next, 0, f);
    forall i, j | 0 <= i < j < |paths| ensures EndApart(paths[i], paths[j]) {
      assert paths[i] in paths && paths[j] in paths;
      OrderIsStrict(root, f, paths[i], paths[j]);
    }
  }

  // The lines are those of the paths, where nothing is printed above.
  lemma LinesFollowAllPaths(f: Forest<Task>, offset: int)
    ensures FollowsPaths(Lines(Names(f), offset), Paths(f, []), offset)
  {
    LinesFollowPaths(f, [], offset);
  }

  ghost predicate FollowsPaths(lines: seq<Line>, paths: seq<seq<Task>>, offset: int) {
    |lines| == |paths| && forall i | 0 <= i < |lines| :: paths[i] != [] && lines[i] == LineFor(paths[i], offset)
  }

  // What print_task prints is one line for each proper descendant and no other line: the tasks of the lines are
  // distinct, they are the tasks at the end of a line of descent, the lines come in preorder, and the offset
  // grows by four with every generation.
  lemma EveryDescendantOnce(task: Task, f: Forest<Task>, offset: int) returns (paths: seq<seq<Task>>)
    requires Holds(task.children, task.children.next, f) && Embedded({task} + TasksIn(f))
    ensures FollowsPaths(Lines(Names(f), offset), paths, offset)
    ensures forall path :: path in paths <==> IsPath(task, path)
    ensures EachOnce(paths) && InOrder(task, paths)
  {
    paths := Paths(f, []);
    LinesFollowAllPaths(f, offset);
    PathsAreExact(task, f);
    PathsAreDistinct(task, f);
  }
}
