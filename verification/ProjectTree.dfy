/** BuildTree: from a flat list of projects to the tree under one of them. */
module ProjectTree {
  import opened Options

  datatype Project = Project(id: string, parentId: Option<string>, name: string)

  datatype Node = Node(project: Project, children: seq<Node>)

  // ---- order of names ----

  /** Go's < on strings: byte by byte, a proper prefix first. */
  predicate Less(a: string, b: string) {
    b != "" && (a == "" || a[0] < b[0] || (a[0] == b[0] && Less(a[1..], b[1..])))
  }

  /** The order of a dictionary: after some common prefix a ends, or goes on with the
      smaller character. */
  lemma {:induction false} LessMeans(a: string, b: string)
    ensures Less(a, b) <==> exists n :: 0 <= n <= |a| && n < |b| && a[..n] == b[..n] && (n == |a| || a[n] < b[n])
  {
    if b != "" && a != "" && a[0] == b[0] {
      LessMeans(a[1..], b[1..]);
      if n :| 0 <= n <= |a[1..]| && n < |b[1..]| && a[1..][..n] == b[1..][..n] && (n == |a[1..]| || a[1..][n] < b[1..][n]) {
        assert a[..n + 1] == [a[0]] + a[1..][..n] == b[..n + 1];
      }
      if n :| 0 <= n <= |a| && n < |b| && a[..n] == b[..n] && (n == |a| || a[n] < b[n]) {
        assert n > 0;
        assert a[1..][..n - 1] == a[..n][1..] == b[..n][1..] == b[1..][..n - 1];
      }
    } else if b != "" {
      assert a[..0] == b[..0];
      if n :| 0 <= n <= |a| && n < |b| && a[..n] == b[..n] && (n == |a| || a[n] < b[n]) {
        assert n > 0 ==> a[..n][0] == b[..n][0];
      }
    }
  }

  lemma {:induction false} LessTransitive(a: string, b: string, c: string)
    requires !Less(b, a) && !Less(c, b)
    ensures !Less(c, a)
  {
    if a != "" && b != "" && c != "" && a[0] == b[0] == c[0] {
      LessTransitive(a[1..], b[1..], c[1..]);
    }
  }

  lemma {:induction false} LessAsymmetric(a: string, b: string)
    requires Less(a, b)
    ensures !Less(b, a)
  {
    if a != "" && a[0] == b[0] { LessAsymmetric(a[1..], b[1..]); }
  }

  ghost predicate SortedByName(ps: seq<Project>) {
    forall i, j :: 0 <= i < j < |ps| ==> !Less(ps[j].name, ps[i].name)
  }

  /** sort.Slice by Name: some sorted arrangement of the same rows. */
  method SortByName(ps: seq<Project>) returns (sorted: seq<Project>)
    ensures multiset(sorted) == multiset(ps) && SortedByName(sorted)
  {
    sorted := [];
    for n := 0 to |ps|
      invariant multiset(sorted) == multiset(ps[..n]) && SortedByName(sorted)
    {
      var i := PlaceFor(sorted, ps[n]);
      InsertSorted(sorted, i, ps[n]);
      InsertAdds(sorted, i, ps[n]);
      hide SortedByName;
      assert ps[..n + 1] == ps[..n] + [ps[n]];
      sorted := Inserted(sorted, i, ps[n]);
    }
    assert ps[..|ps|] == ps;
  }

  method PlaceFor(sorted: seq<Project>, p: Project) returns (i: nat)
    ensures i <= |sorted| && forall k :: i <= k < |sorted| ==> Less(p.name, sorted[k].name)
    ensures i > 0 ==> !Less(p.name, sorted[i - 1].name)
  {
    i := |sorted|;
    while i > 0 && Less(p.name, sorted[i - 1].name)
      invariant 0 <= i <= |sorted|
      invariant forall k :: i <= k < |sorted| ==> Less(p.name, sorted[k].name)
    {
      i := i - 1;
    }
  }

  function Inserted(s: seq<Project>, i: nat, p: Project): seq<Project>
    requires i <= |s|
  {
    s[..i] + [p] + s[i..]
  }

  lemma InsertAdds(s: seq<Project>, i: nat, p: Project)
    requires i <= |s|
    ensures multiset(Inserted(s, i, p)) == multiset(s) + multiset{p}
  {
    assert s == s[..i] + s[i..];
  }

  lemma InsertSorted(s: seq<Project>, i: nat, p: Project)
    requires SortedByName(s) && i <= |s|
    requires forall k :: i <= k < |s| ==> Less(p.name, s[k].name)
    requires i > 0 ==> !Less(p.name, s[i - 1].name)
    ensures SortedByName(Inserted(s, i, p))
  {
    forall k | 0 <= k < i ensures !Less(p.name, s[k].name) {
      if k < i - 1 { LessTransitive(s[k].name, s[i - 1].name, p.name); }
    }
    forall k | i <= k < |s| ensures !Less(s[k].name, p.name) {
      LessAsymmetric(p.name, s[k].name);
    }
  }

  // ---- ancestry ----

  ghost predicate DistinctIds(rows: seq<Project>) {
    forall i, j :: 0 <= i < j < |rows| ==> rows[i].id != rows[j].id
  }

  /** The parent of an ID according to the list. */
  ghost function ParentOf(rows: seq<Project>, id: string): Option<string> {
    if i :| 0 <= i < |rows| && rows[i].id == id then rows[i].parentId else None
  }

  /** The n-th ancestor. */
  ghost function Up(rows: seq<Project>, id: string, n: nat): Option<string> {
    if n == 0 then Some(id)
    else match Up(rows, id, n - 1) case None => None case Some(p) => ParentOf(rows, p)
  }

  lemma {:induction false} UpAdds(rows: seq<Project>, id: string, m: nat, n: nat)
    ensures Up(rows, id, m + n) == match Up(rows, id, m) case None => None case Some(p) => Up(rows, p, n)
  {
    if n > 0 { UpAdds(rows, id, m, n - 1); }
  }

  /** Following parent links from root never leads back to root. */
  ghost predicate NotOwnAncestor(rows: seq<Project>, root: string) {
    forall n: nat :: n >= 1 ==> Up(rows, root, n) != Some(root)
  }

  lemma ParentOfRow(rows: seq<Project>, p: Project)
    requires DistinctIds(rows) && p in rows
    ensures ParentOf(rows, p.id) == p.parentId
  {
    var i :| 0 <= i < |rows| && rows[i] == p;
    assert rows[i].id == p.id;
  }

  // ---- what the tree must be ----

  ghost predicate ChildRows(rows: seq<Project>, id: string, kids: seq<Project>) {
    && (forall k :: k in kids ==> k in rows && k.parentId == Some(id))
    && (forall k :: k in rows && k.parentId == Some(id) ==> k in kids)
    && DistinctIds(kids)
  }

  function Roots(ts: seq<Node>): (ps: seq<Project>)
    ensures |ps| == |ts| && forall i :: 0 <= i < |ts| ==> ps[i] == ts[i].project
  {
    seq(|ts|, i requires 0 <= i < |ts| => ts[i].project)
  }

  /** Every node's children are exactly the rows whose parent it is, each once,
      sorted by name. */
  ghost predicate IsTree(rows: seq<Project>, t: Node) {
    && t.project in rows
    && ChildRows(rows, t.project.id, Roots(t.children))
    && SortedByName(Roots(t.children))
    && forall i :: 0 <= i < |t.children| ==> IsTree(rows, t.children[i])
  }

  // ---- building it ----

  /** The rows with the given parent, in list order. */
  function KidsOf(rows: seq<Project>, id: string): seq<Project> {
    if rows == [] then [] else
      KidsOf(rows[..|rows| - 1], id) +
        if rows[|rows| - 1].parentId == Some(id) then [rows[|rows| - 1]] else []
  }

  lemma {:induction false} KidsOfExact(rows: seq<Project>, id: string, k: Project)
    ensures k in KidsOf(rows, id) <==> k in rows && k.parentId == Some(id)
  {
    if rows != [] {
      KidsOfExact(rows[..|rows| - 1], id, k);
      assert rows == rows[..|rows| - 1] + [rows[|rows| - 1]];
    }
  }

  lemma {:induction false} KidsOfDistinct(rows: seq<Project>, id: string)
    requires DistinctIds(rows)
    ensures DistinctIds(KidsOf(rows, id))
  {
    if rows != [] {
      var front, last := rows[..|rows| - 1], rows[|rows| - 1];
      KidsOfDistinct(front, id);
      forall i | 0 <= i < |KidsOf(front, id)| ensures KidsOf(front, id)[i].id != last.id {
        KidsOfExact(front, id, KidsOf(front, id)[i]);
      }
    }
  }

  lemma DistinctPermutes(a: seq<Project>, b: seq<Project>)
    requires multiset(a) == multiset(b) && DistinctIds(a)
    ensures DistinctIds(b)
    ensures forall p :: p in a <==> p in b
  {
    assert forall p :: p in multiset(a) <==> p in a;
    assert forall p :: p in multiset(b) <==> p in b;
    forall i, j | 0 <= i < j < |b| ensures b[i].id != b[j].id {
      assert b[i] in a && b[j] in a;
      if b[i] == b[j] {
        TwiceIn(b, i, j);
        OnceIn(a, b[i]);
      }
    }
  }

  lemma TwiceIn(s: seq<Project>, i: nat, j: nat)
    requires i < j < |s| && s[i] == s[j]
    ensures multiset(s)[s[i]] >= 2
  {
    assert s == s[..j] + s[j..];
    assert s[i] in s[..j] && s[j] in s[j..];
    assert multiset(s[..j])[s[i]] >= 1 && multiset(s[j..])[s[i]] >= 1;
  }

  lemma {:induction false} OnceIn(s: seq<Project>, p: Project)
    requires DistinctIds(s)
    ensures multiset(s)[p] <= 1
  {
    if s != [] {
      var front, last := s[..|s| - 1], s[|s| - 1];
      OnceIn(front, p);
      assert s == front + [last];
      if p == last { assert p !in front; }
    }
  }

  function Ids(rows: seq<Project>): set<string> { set i | 0 <= i < |rows| :: rows[i].id }

  /** The call stack of buildNode: the path from root to the node in hand. */
  ghost predicate CallPath(rows: seq<Project>, path: seq<string>) {
    && path != []
    && (forall i :: 0 <= i < |path| ==> path[i] in Ids(rows))
    && (forall i :: 1 <= i < |path| ==> ParentOf(rows, path[i]) == Some(path[i - 1]))
  }

  ghost function Unseen(rows: seq<Project>, path: seq<string>): set<string> {
    Ids(rows) - set i | 0 <= i < |path| :: path[i]
  }

  lemma {:induction false} PathClimbs(rows: seq<Project>, path: seq<string>, i: nat, n: nat)
    requires CallPath(rows, path) && n <= i < |path|
    ensures Up(rows, path[i], n) == Some(path[i - n])
  {
    if n > 0 { PathClimbs(rows, path, i, n - 1); }
  }

  /** A child of the node in hand is not on the stack: otherwise root would be
      its own ancestor. */
  lemma {:induction false} ChildIsNew(rows: seq<Project>, path: seq<string>, kid: Project)
    requires DistinctIds(rows) && CallPath(rows, path) && NotOwnAncestor(rows, path[0])
    requires kid in rows && kid.parentId == Some(path[|path| - 1])
    ensures kid.id in Unseen(rows, path) && CallPath(rows, path + [kid.id])
    ensures Unseen(rows, path + [kid.id]) < Unseen(rows, path)
  {
    ParentOfRow(rows, kid);
    var last := |path| - 1;
    assert kid.id in Ids(rows);
    if i :| 0 <= i < |path| && path[i] == kid.id {
      // the cycle kid -> last -> ... -> kid, and root at distance i above it
      PathClimbs(rows, path, last, last - i);
      var c := 1 + (last - i);
      UpAdds(rows, kid.id, 1, last - i);
      assert Up(rows, kid.id, 1) == match Up(rows, kid.id, 0) case None => None case Some(p) => ParentOf(rows, p);
      assert Up(rows, kid.id, c) == Some(kid.id);
      PathClimbs(rows, path, i, i);
      UpAdds(rows, kid.id, i, c);
      UpAdds(rows, kid.id, c, i);
      assert Up(rows, path[0], c) == Some(path[0]);
    }
    var longer := path + [kid.id];
    assert forall i :: 1 <= i < |longer| ==> ParentOf(rows, longer[i]) == Some(longer[i - 1]);
    assert longer[|path|] == kid.id;
    assert kid.id !in Unseen(rows, longer);
    assert forall i :: 0 <= i < |path| ==> longer[i] == path[i];
  }

  class TreeBuilder {
    var byParent: map<string, seq<Project>>

    function Kids(id: string): seq<Project>
      reads this
    {
      if id in byParent then byParent[id] else []
    }

    /** Every list still holds its parent's rows, in some order. */
    ghost predicate Holds(rows: seq<Project>)
      reads this
    {
      forall id :: multiset(Kids(id)) == multiset(KidsOf(rows, id))
    }

    constructor (rows: seq<Project>)
      ensures Holds(rows)
    {
      byParent := map[];
      new;
      for i := 0 to |rows|
        invariant forall id :: Kids(id) == KidsOf(rows[..i], id)
      {
        assert rows[..i + 1][..i] == rows[..i];
        if rows[i].parentId.Some? {
          var parent := rows[i].parentId.value;
          byParent := byParent[parent := Kids(parent) + [rows[i]]];
        }
      }
      assert rows[..|rows|] == rows;
    }

    /** Sorts one child list in place. */
    method SortKids(id: string, ghost rows: seq<Project>) returns (sorted: seq<Project>)
      requires DistinctIds(rows) && Holds(rows)
      modifies this
      ensures Holds(rows) && ChildRows(rows, id, sorted) && SortedByName(sorted)
    {
      ghost var before := byParent;
      assert multiset(Kids(id)) == multiset(KidsOf(rows, id));
      sorted := SortByName(Kids(id));
      ChildRowsOf(rows, id, sorted);
      byParent := byParent[id := sorted];
      assert forall k :: k != id ==> Kids(k) == (if k in before then before[k] else []);
    }

    /** buildNode. */
    method BuildNode(p: Project, ghost rows: seq<Project>, ghost path: seq<string>) returns (t: Node)
      requires DistinctIds(rows) && p in rows && Holds(rows)
      requires CallPath(rows, path) && path[|path| - 1] == p.id && NotOwnAncestor(rows, path[0])
      modifies this
      ensures Holds(rows) && t.project == p && IsTree(rows, t)
      decreases Unseen(rows, path)
    {
      hide DistinctIds, NotOwnAncestor, SortedByName, IsTree, Unseen, Holds;
      if |Kids(p.id)| == 0 {
        NoKids(this, rows, p);
        return Node(p, []);
      }
      var sorted := SortKids(p.id, rows);
      var children: seq<Node> := [];
      var i := 0;
      while i < |sorted|
        invariant 0 <= i == |children| <= |sorted| && Holds(rows)
        invariant forall j :: 0 <= j < i ==> children[j].project == sorted[j] && IsTree(rows, children[j])
      {
        assert sorted[i] in sorted;
        ChildIsNew(rows, path, sorted[i]);
        var child := BuildNode(sorted[i], rows, path + [sorted[i].id]);
        children := children + [child];
        i := i + 1;
      }
      t := Node(p, children);
      TreeOf(rows, t, sorted);
    }
  }

  lemma NoKids(b: TreeBuilder, rows: seq<Project>, p: Project)
    requires DistinctIds(rows) && p in rows && b.Holds(rows) && b.Kids(p.id) == []
    ensures IsTree(rows, Node(p, []))
  {
    assert multiset(b.Kids(p.id)) == multiset(KidsOf(rows, p.id));
    ChildRowsOf(rows, p.id, []);
  }

  lemma TreeOf(rows: seq<Project>, t: Node, kids: seq<Project>)
    requires t.project in rows && ChildRows(rows, t.project.id, kids) && SortedByName(kids)
    requires |t.children| == |kids|
    requires forall j :: 0 <= j < |kids| ==> t.children[j].project == kids[j] && IsTree(rows, t.children[j])
    ensures IsTree(rows, t)
  {
    assert Roots(t.children) == kids;
  }

  lemma ChildRowsOf(rows: seq<Project>, id: string, kids: seq<Project>)
    requires DistinctIds(rows) && multiset(kids) == multiset(KidsOf(rows, id))
    ensures ChildRows(rows, id, kids)
  {
    KidsOfDistinct(rows, id);
    DistinctPermutes(KidsOf(rows, id), kids);
    forall k ensures k in kids <==> k in rows && k.parentId == Some(id) {
      KidsOfExact(rows, id, k);
    }
  }

  /** BuildTree. */
  method BuildTree(rows: seq<Project>, rootId: string) returns (r: Option<Node>)
    requires DistinctIds(rows) && NotOwnAncestor(rows, rootId)
    ensures r.Some? <==> rootId in Ids(rows)
    ensures r.Some? ==> r.value.project.id == rootId && IsTree(rows, r.value)
  {
    var root: Option<Project> := None;
    for i := 0 to |rows|
      invariant root.Some? <==> exists j :: 0 <= j < i && rows[j].id == rootId
      invariant root.Some? ==> root.value in rows && root.value.id == rootId
    {
      if rows[i].id == rootId {
        root := Some(rows[i]);
      }
    }
    if root.None? {
      return None;
    }
    var builder := new TreeBuilder(rows);
    var t := builder.BuildNode(root.value, rows, [rootId]);
    return Some(t);
  }

  // ---- what the tree contains ----

  function Flatten(t: Node): seq<string>
    decreases t, 1
  {
    [t.project.id] + FlattenAll(t.children)
  }

  function FlattenAll(ts: seq<Node>): seq<string>
    decreases ts, 0
  {
    if ts == [] then [] else Flatten(ts[0]) + FlattenAll(ts[1..])
  }

  ghost predicate NoDuplicates(s: seq<string>) {
    forall i, j :: 0 <= i < j < |s| ==> s[i] != s[j]
  }

  lemma {:induction false} InFlattenAll(ts: seq<Node>, x: string)
    ensures x in FlattenAll(ts) <==> exists i :: 0 <= i < |ts| && x in Flatten(ts[i])
  {
    if ts != [] {
      InFlattenAll(ts[1..], x);
      if x in FlattenAll(ts[1..]) {
        var i :| 0 <= i < |ts[1..]| && x in Flatten(ts[1..][i]);
        assert x in Flatten(ts[i + 1]);
      }
      if i :| 0 <= i < |ts| && x in Flatten(ts[i]) {
        if i > 0 { assert ts[i] == ts[1..][i - 1]; }
      }
    }
  }

  ghost predicate DescendsFrom(rows: seq<Project>, x: string, root: string) {
    x in Ids(rows) && exists n: nat :: Up(rows, x, n) == Some(root)
  }

  lemma UpOne(rows: seq<Project>, id: string)
    ensures Up(rows, id, 1) == ParentOf(rows, id)
  {
    assert Up(rows, id, 0) == Some(id);
  }

  /** A child root in a tree: its row and its parent link. */
  lemma ChildLink(rows: seq<Project>, t: Node, i: nat)
    requires DistinctIds(rows) && IsTree(rows, t) && i < |t.children|
    ensures IsTree(rows, t.children[i]) && Up(rows, t.children[i].project.id, 1) == Some(t.project.id)
  {
    var kid := t.children[i].project;
    assert Roots(t.children)[i] == kid && kid in Roots(t.children);
    ParentOfRow(rows, kid);
    UpOne(rows, kid.id);
  }

  lemma {:induction false} OnlyDescendants(rows: seq<Project>, t: Node, x: string)
    requires DistinctIds(rows) && IsTree(rows, t) && x in Flatten(t)
    ensures DescendsFrom(rows, x, t.project.id)
    decreases t
  {
    if x == t.project.id {
      assert Up(rows, x, 0) == Some(t.project.id);
    } else {
      InFlattenAll(t.children, x);
      var i :| 0 <= i < |t.children| && x in Flatten(t.children[i]);
      ChildLink(rows, t, i);
      OnlyDescendants(rows, t.children[i], x);
      var n: nat :| Up(rows, x, n) == Some(t.children[i].project.id);
      UpAdds(rows, x, n, 1);
      assert Up(rows, x, n + 1) == Some(t.project.id);
    }
  }

  lemma {:induction false} KidsFollow(rows: seq<Project>, t: Node, y: string, kid: Project)
    requires DistinctIds(rows) && IsTree(rows, t) && y in Flatten(t) && kid in rows && kid.parentId == Some(y)
    ensures kid.id in Flatten(t)
    decreases t
  {
    if y == t.project.id {
      var i :| 0 <= i < |t.children| && Roots(t.children)[i] == kid;
      assert kid.id == Flatten(t.children[i])[0];
      InFlattenAll(t.children, kid.id);
    } else {
      InFlattenAll(t.children, y);
      var i :| 0 <= i < |t.children| && y in Flatten(t.children[i]);
      KidsFollow(rows, t.children[i], y, kid);
      InFlattenAll(t.children, kid.id);
    }
  }

  lemma {:induction false} AllDescendants(rows: seq<Project>, t: Node, x: string, n: nat)
    requires DistinctIds(rows) && IsTree(rows, t) && x in Ids(rows) && Up(rows, x, n) == Some(t.project.id)
    ensures x in Flatten(t)
    decreases n
  {
    if n == 0 {
      assert Flatten(t)[0] == x;
    } else {
      assert t.project.id in Ids(rows);
      hide Flatten, IsTree, Up, DistinctIds;
      var row, y := StepUp(rows, x, n, t.project.id);
      AllDescendants(rows, t, y, n - 1);
      KidsFollow(rows, t, y, row);
    }
  }

  lemma StepUp(rows: seq<Project>, x: string, n: nat, root: string) returns (row: Project, y: string)
    requires x in Ids(rows) && root in Ids(rows) && n > 0 && Up(rows, x, n) == Some(root)
    ensures row in rows && row.id == x && row.parentId == Some(y)
    ensures y in Ids(rows) && Up(rows, y, n - 1) == Some(root)
  {
    UpAdds(rows, x, 1, n - 1);
    UpOne(rows, x);
    y := ParentOf(rows, x).value;
    var i :| 0 <= i < |rows| && rows[i].id == x && rows[i].parentId == Some(y);
    row := rows[i];
    if n - 1 > 0 {
      UpAdds(rows, y, 1, n - 2);
      UpOne(rows, y);
    }
  }

  /** A cycle through x passes through every ancestor of x. */
  lemma {:induction false} CycleAbove(rows: seq<Project>, x: string, n: nat, root: string, m: nat)
    requires Up(rows, x, n) == Some(x) && Up(rows, x, m) == Some(root)
    ensures Up(rows, root, n) == Some(root)
  {
    hide Up;
    UpAdds(rows, x, n, m);
    UpAdds(rows, x, m, n);
  }

  /** If root is not its own ancestor, neither is any of its descendants. */
  lemma {:induction false} NoCycleBelow(rows: seq<Project>, root: string, x: string, m: nat)
    requires Up(rows, x, m) == Some(root)
    ensures NotOwnAncestor(rows, root) ==> NotOwnAncestor(rows, x)
  {
    hide Up;
    if n: nat :| n >= 1 && Up(rows, x, n) == Some(x) {
      CycleAbove(rows, x, n, root, m);
    }
  }

  /** If x has two siblings c1 and c2 among its ancestors, d apart, their parent
      lies d above itself. */
  lemma {:induction false} AncestorAgain(rows: seq<Project>, p: string, c1: string, c2: string, x: string, a: nat, d: nat)
    requires Up(rows, c1, 1) == Some(p) && Up(rows, c2, 1) == Some(p)
    requires Up(rows, x, a) == Some(c1) && Up(rows, x, a + d) == Some(c2)
    ensures Up(rows, p, d) == Some(p)
  {
    hide Up;
    UpAdds(rows, x, a, d);
    UpAdds(rows, c1, 1, d);
    UpAdds(rows, c1, d, 1);
  }

  lemma OnACycle(rows: seq<Project>, p: string, d: nat)
    requires d >= 1 && Up(rows, p, d) == Some(p)
    ensures !NotOwnAncestor(rows, p)
  {
  }

  /** Two different children of a node have no common descendant, unless the
      node is its own ancestor. */
  lemma {:induction false} SiblingsDisjoint(rows: seq<Project>, p: string, c1: string, c2: string, x: string, a: nat, b: nat)
    requires Up(rows, c1, 1) == Some(p) && Up(rows, c2, 1) == Some(p)
    requires Up(rows, x, a) == Some(c1) && Up(rows, x, b) == Some(c2)
    ensures c1 == c2 || !NotOwnAncestor(rows, p)
  {
    hide Up, NotOwnAncestor;
    if a < b {
      AncestorAgain(rows, p, c1, c2, x, a, b - a);
      OnACycle(rows, p, b - a);
    } else if b < a {
      AncestorAgain(rows, p, c2, c1, x, b, a - b);
      OnACycle(rows, p, a - b);
    }
  }

  lemma {:induction false} ConcatNoDuplicates(a: seq<string>, b: seq<string>)
    requires NoDuplicates(a) && NoDuplicates(b) && forall x :: x in a ==> x !in b
    ensures NoDuplicates(a + b)
  {
    forall i, j | 0 <= i < j < |a + b| ensures (a + b)[i] != (a + b)[j] {
      if i < |a| <= j { assert a[i] in a && b[j - |a|] in b; }
    }
  }

  /** A node that occurs below itself is its own ancestor. */
  lemma RootBelowItself(rows: seq<Project>, t: Node)
    requires DistinctIds(rows) && IsTree(rows, t) && t.project.id in FlattenAll(t.children)
    ensures !NotOwnAncestor(rows, t.project.id)
  {
    hide IsTree, DistinctIds, Up;
    InFlattenAll(t.children, t.project.id);
    var i :| 0 <= i < |t.children| && t.project.id in Flatten(t.children[i]);
    ChildLink(rows, t, i);
    OnlyDescendants(rows, t.children[i], t.project.id);
    var n: nat :| Up(rows, t.project.id, n) == Some(t.children[i].project.id);
    UpAdds(rows, t.project.id, n, 1);
    assert Up(rows, t.project.id, n + 1) == Some(t.project.id);
  }

  lemma {:induction false} EachOnce(rows: seq<Project>, t: Node)
    requires DistinctIds(rows) && IsTree(rows, t) && NotOwnAncestor(rows, t.project.id)
    ensures NoDuplicates(Flatten(t))
    decreases t, |t.children| + 1
  {
    hide IsTree, DistinctIds, NotOwnAncestor;
    EachOnceFrom(rows, t, 0);
    assert t.children[0..] == t.children;
    assert t.project.id !in FlattenAll(t.children) by {
      if t.project.id in FlattenAll(t.children) { RootBelowItself(rows, t); }
    }
    ConcatNoDuplicates([t.project.id], FlattenAll(t.children));
  }

  lemma {:induction false} EachOnceFrom(rows: seq<Project>, t: Node, i: nat)
    requires DistinctIds(rows) && IsTree(rows, t) && NotOwnAncestor(rows, t.project.id) && i <= |t.children|
    ensures NoDuplicates(FlattenAll(t.children[i..]))
    decreases t, |t.children| - i
  {
    hide IsTree, DistinctIds, NotOwnAncestor;
    if i < |t.children| {
      var c, rest := t.children[i], t.children[i + 1..];
      ChildLink(rows, t, i);
      NoCycleBelow(rows, t.project.id, c.project.id, 1);
      EachOnce(rows, c);
      EachOnceFrom(rows, t, i + 1);
      assert t.children[i..][0] == c && t.children[i..][1..] == rest;
      forall x | x in Flatten(c) ensures x !in FlattenAll(rest) {
        InFlattenAll(rest, x);
        if j :| 0 <= j < |rest| && x in Flatten(rest[j]) {
          NotInBoth(rows, t, i, i + 1 + j, x);
        }
      }
      ConcatNoDuplicates(Flatten(c), FlattenAll(rest));
    }
  }

  /** No ID occurs under two children. */
  lemma NotInBoth(rows: seq<Project>, t: Node, i: nat, j: nat, x: string)
    requires DistinctIds(rows) && IsTree(rows, t) && i < j < |t.children|
    requires x in Flatten(t.children[i]) && x in Flatten(t.children[j])
    ensures !NotOwnAncestor(rows, t.project.id)
  {
    hide NotOwnAncestor, Up;
    var c1, c2 := t.children[i], t.children[j];
    assert Roots(t.children)[i].id != Roots(t.children)[j].id;
    hide IsTree, DistinctIds;
    ChildLink(rows, t, i);
    ChildLink(rows, t, j);
    OnlyDescendants(rows, c1, x);
    OnlyDescendants(rows, c2, x);
    var a: nat :| Up(rows, x, a) == Some(c1.project.id);
    var b: nat :| Up(rows, x, b) == Some(c2.project.id);
    SiblingsDisjoint(rows, t.project.id, c1.project.id, c2.project.id, x, a, b);
  }

  /** The flattened tree lists root and its descendants, each exactly once. */
  lemma TreeIsExact(rows: seq<Project>, t: Node)
    requires DistinctIds(rows) && IsTree(rows, t) && NotOwnAncestor(rows, t.project.id)
    ensures forall x :: x in Flatten(t) <==> DescendsFrom(rows, x, t.project.id)
    ensures NoDuplicates(Flatten(t))
  {
    forall x ensures x in Flatten(t) <==> DescendsFrom(rows, x, t.project.id) {
      if x in Flatten(t) { OnlyDescendants(rows, t, x); }
      if DescendsFrom(rows, x, t.project.id) {
        var n: nat :| Up(rows, x, n) == Some(t.project.id);
        AllDescendants(rows, t, x, n);
      }
    }
    EachOnce(rows, t);
  }

  // ---- when the recursion ends ----

  /** buildNode called on id comes back within the given call depth. */
  ghost predicate Finishes(rows: seq<Project>, id: string, depth: nat)
    decreases depth
  {
    depth > 0 && forall k :: k in rows && k.parentId == Some(id) ==> Finishes(rows, k.id, depth - 1)
  }

  lemma {:induction false} FinishesWithin(rows: seq<Project>, path: seq<string>) returns (depth: nat)
    requires DistinctIds(rows) && CallPath(rows, path) && NotOwnAncestor(rows, path[0])
    ensures depth == |Unseen(rows, path)| + 1 && Finishes(rows, path[|path| - 1], depth)
    decreases Unseen(rows, path)
  {
    depth := |Unseen(rows, path)| + 1;
    forall k | k in rows && k.parentId == Some(path[|path| - 1])
      ensures Finishes(rows, k.id, depth - 1)
    {
      ChildIsNew(rows, path, k);
      var d := FinishesWithin(rows, path + [k.id]);
      SmallerSet(Unseen(rows, path + [k.id]), Unseen(rows, path));
      MoreDepth(rows, k.id, d, depth - 1);
    }
  }

  lemma SmallerSet(a: set<string>, b: set<string>)
    requires a < b
    ensures |a| < |b|
  {
    assert b == a + (b - a);
    assert |b - a| > 0;
  }

  lemma {:induction false} MoreDepth(rows: seq<Project>, id: string, d: nat, e: nat)
    requires Finishes(rows, id, d) && d <= e
    ensures Finishes(rows, id, e)
    decreases d
  {
    forall k | k in rows && k.parentId == Some(id) ensures Finishes(rows, k.id, e - 1) {
      MoreDepth(rows, k.id, d - 1, e - 1);
    }
  }

  /** On a cycle the recursion goes round and round: no depth is enough. */
  lemma {:induction false} CycleNeverFinishes(rows: seq<Project>, root: string, n: nat, j: nat, depth: nat)
    requires n >= 1 && Up(rows, root, n) == Some(root) && 1 <= j <= n
    requires Up(rows, root, j).Some?
    ensures !Finishes(rows, Up(rows, root, j).value, depth)
    decreases depth
  {
    if depth > 0 {
      var y := Up(rows, root, j - 1).value;
      var i :| 0 <= i < |rows| && rows[i].id == y && rows[i].parentId == Up(rows, root, j);
      assert rows[i] in rows;
      if j > 1 {
        CycleNeverFinishes(rows, root, n, j - 1, depth - 1);
      } else {
        assert y == root;
        CycleNeverFinishes(rows, root, n, n, depth - 1);
      }
    }
  }

  /** buildNode terminates exactly if root is not its own ancestor; cycles among
      other rows do not matter. */
  lemma TerminatesExactly(rows: seq<Project>, root: string)
    requires DistinctIds(rows) && root in Ids(rows)
    ensures (exists depth :: Finishes(rows, root, depth)) <==> NotOwnAncestor(rows, root)
  {
    if NotOwnAncestor(rows, root) {
      var depth := FinishesWithin(rows, [root]);
      assert Finishes(rows, root, depth);
    } else {
      var n: nat :| n >= 1 && Up(rows, root, n) == Some(root);
      forall depth ensures !Finishes(rows, root, depth) {
        CycleNeverFinishes(rows, root, n, n, depth);
      }
    }
  }

  /** The smallest list on which the recursion never ends: one row, its own parent. */
  lemma SelfParent(p: Project)
    requires p.parentId == Some(p.id)
    ensures DistinctIds([p]) && !NotOwnAncestor([p], p.id)
    ensures forall depth :: !Finishes([p], p.id, depth)
  {
    assert p in [p] && [p][0].id == p.id;
    assert DistinctIds([p]);
    ParentOfRow([p], p);
    UpOne([p], p.id);
    assert Up([p], p.id, 1) == Some(p.id);
    TerminatesExactly([p], p.id);
  }
}
