/**
 * Structural limits on a snap's element tree: an explicit-stack walk
 * (farcaster-audio/services/snapClient.ts).
 */
module SnapClient {
  type ElementId = string

  datatype ElementType = Stack | ItemGroup | OtherType

  /** An absent `children` list counts as empty. */
  datatype SnapElement = SnapElement(elementType: ElementType, children: seq<ElementId>)

  /** What `elements[id]` finds, by id. */
  type Elements = map<ElementId, SnapElement>

  const SNAP_MAX_ELEMENTS := 64
  const SNAP_MAX_ROOT_CHILDREN := 7
  const SNAP_MAX_CONTAINER_CHILDREN := 6
  const SNAP_MAX_DEPTH := 4

  predicate FitsLimit(el: SnapElement, isRoot: bool) {
    if isRoot then |el.children| <= SNAP_MAX_ROOT_CHILDREN
    else el.elementType != OtherType ==> |el.children| <= SNAP_MAX_CONTAINER_CHILDREN
  }

  // ---------------------------------------------------------------------
  // What is accepted, stated on child paths
  // ---------------------------------------------------------------------

  /** Child indices, from the root down. */
  type Path = seq<int>

  /** The element a path leads to, as a list of at most one id; empty when a step does not exist. */
  function At(elements: Elements, id: ElementId, path: Path): (r: seq<ElementId>)
    ensures |r| <= 1
    decreases |path|
  {
    if path == [] then [id]
    else if id !in elements || path[0] < 0 || path[0] >= |elements[id].children| then []
    else At(elements, elements[id].children[path[0]], path[1..])
  }

  ghost predicate PathFits(elements: Elements, id: ElementId, depth: nat, isRoot: bool, path: Path) {
    At(elements, id, path) != [] ==>
      |path| + depth <= SNAP_MAX_DEPTH &&
      At(elements, id, path)[0] in elements &&
      FitsLimit(elements[At(elements, id, path)[0]], isRoot && path == [])
  }

  /** Every path from the root (at depth 1) reaches an existing element within the depth and width limits. */
  ghost predicate WithinLimits(elements: Elements, root: ElementId) {
    forall path: Path :: PathFits(elements, root, 1, true, path)
  }

  /**
   * What the lookup finds for a response with these elements of its own: a name
   * every object inherits (`constructor`, `toString`) is found as well, as a
   * value without `children`, unless an element of that name hides it.
   */
  function Found(own: Elements, inherited: set<ElementId>): Elements {
    own + (map id | id in inherited && id !in own :: SnapElement(OtherType, []))
  }

  ghost predicate SameEnd(elements: Elements, id: ElementId, p: Path, q: Path) {
    At(elements, id, p) != [] && At(elements, id, p) == At(elements, id, q)
  }

  /** No element is reached along two different paths: the reachable part is a tree. */
  ghost predicate IsTree(elements: Elements, root: ElementId) {
    forall p: Path, q: Path :: SameEnd(elements, root, p, q) ==> p == q
  }

  ghost predicate Accepts(own: Elements, inherited: set<ElementId>, root: ElementId) {
    |own| <= SNAP_MAX_ELEMENTS &&
    WithinLimits(Found(own, inherited), root) && IsTree(Found(own, inherited), root)
  }

  // ---------------------------------------------------------------------
  // The same by recursion on depth
  // ---------------------------------------------------------------------

  predicate Fits(elements: Elements, id: ElementId, depth: nat, isRoot: bool)
    decreases SNAP_MAX_DEPTH + 1 - depth
  {
    depth <= SNAP_MAX_DEPTH && id in elements && FitsLimit(elements[id], isRoot) &&
    forall i :: 0 <= i < |elements[id].children| ==> Fits(elements, elements[id].children[i], depth + 1, false)
  }

  function Sum(ms: seq<multiset<ElementId>>): multiset<ElementId> {
    if ms == [] then multiset{} else Sum(ms[..|ms|-1]) + ms[|ms|-1]
  }

  /** Every id the walk pops at or below `id`, with repetitions. */
  function Visits(elements: Elements, id: ElementId, depth: nat): multiset<ElementId>
    decreases SNAP_MAX_DEPTH + 1 - depth
  {
    if depth > SNAP_MAX_DEPTH || id !in elements then multiset{id}
    else
      var children := elements[id].children;
      multiset{id} + Sum(seq(|children|, i requires 0 <= i < |children| => Visits(elements, children[i], depth + 1)))
  }

  ghost predicate NoRepeats(m: multiset<ElementId>) {
    forall x :: m[x] <= 1
  }

  // ---------------------------------------------------------------------
  // The walk
  // ---------------------------------------------------------------------

  datatype Entry = Entry(id: ElementId, depth: nat, isRoot: bool)

  ghost predicate AllFit(elements: Elements, stack: seq<Entry>) {
    forall i :: 0 <= i < |stack| ==> Fits(elements, stack[i].id, stack[i].depth, stack[i].isRoot)
  }

  function VisitsOf(elements: Elements, stack: seq<Entry>): (r: seq<multiset<ElementId>>)
    ensures |r| == |stack|
    ensures forall i :: 0 <= i < |r| ==> r[i] == Visits(elements, stack[i].id, stack[i].depth)
  {
    seq(|stack|, i requires 0 <= i < |stack| => Visits(elements, stack[i].id, stack[i].depth))
  }

  function ChildEntries(children: seq<ElementId>, depth: nat): (r: seq<Entry>)
    ensures |r| == |children|
    ensures forall i :: 0 <= i < |r| ==> r[i] == Entry(children[i], depth, false)
  {
    seq(|children|, i requires 0 <= i < |children| => Entry(children[i], depth, false))
  }

  /** Whether the rest of the walk, from this stack and visited set, would succeed. */
  ghost predicate WillAccept(elements: Elements, visited: set<ElementId>, stack: seq<Entry>) {
    AllFit(elements, stack) && NoRepeats(multiset(visited) + Sum(VisitsOf(elements, stack)))
  }

  lemma {:induction false} SumOfConcat(a: seq<multiset<ElementId>>, b: seq<multiset<ElementId>>)
    ensures Sum(a + b) == Sum(a) + Sum(b)
  {
    if b == [] {
      assert a + b == a;
    } else {
      SumOfConcat(a, b[..|b|-1]);
      assert (a + b)[..|a + b|-1] == a + b[..|b|-1];
    }
  }

  lemma SumOfOne(m: multiset<ElementId>)
    ensures Sum([m]) == m
  {
    assert Sum([m][..0]) == multiset{};
  }

  lemma VisitsSplit(elements: Elements, rest: seq<Entry>, top: seq<Entry>)
    ensures Sum(VisitsOf(elements, rest + top)) == Sum(VisitsOf(elements, rest)) + Sum(VisitsOf(elements, top))
  {
    assert VisitsOf(elements, rest + top) == VisitsOf(elements, rest) + VisitsOf(elements, top);
    SumOfConcat(VisitsOf(elements, rest), VisitsOf(elements, top));
  }

  lemma FitSplits(elements: Elements, rest: seq<Entry>, top: seq<Entry>)
    ensures AllFit(elements, rest + top) <==> AllFit(elements, rest) && AllFit(elements, top)
  {
    var all := rest + top;
    if AllFit(elements, all) {
      forall i | 0 <= i < |rest| ensures Fits(elements, rest[i].id, rest[i].depth, rest[i].isRoot) {
        assert all[i] == rest[i];
      }
      forall i | 0 <= i < |top| ensures Fits(elements, top[i].id, top[i].depth, top[i].isRoot) {
        assert all[|rest| + i] == top[i];
      }
    }
  }

  lemma TopFits(elements: Elements, entry: Entry)
    ensures AllFit(elements, [entry]) <==> Fits(elements, entry.id, entry.depth, entry.isRoot)
  {
    assert [entry][0] == entry;
  }

  lemma TopVisits(elements: Elements, entry: Entry)
    ensures Sum(VisitsOf(elements, [entry])) == Visits(elements, entry.id, entry.depth)
  {
    assert VisitsOf(elements, [entry]) == [Visits(elements, entry.id, entry.depth)];
    SumOfOne(Visits(elements, entry.id, entry.depth));
  }

  lemma ChildrenVisited(elements: Elements, id: ElementId, depth: nat)
    requires depth <= SNAP_MAX_DEPTH && id in elements
    ensures Visits(elements, id, depth)
      == multiset{id} + Sum(VisitsOf(elements, ChildEntries(elements[id].children, depth + 1)))
  {
    var children := elements[id].children;
    assert VisitsOf(elements, ChildEntries(children, depth + 1)) ==
      seq(|children|, i requires 0 <= i < |children| => Visits(elements, children[i], depth + 1));
  }

  lemma ChildrenFit(elements: Elements, id: ElementId, depth: nat, isRoot: bool)
    requires depth <= SNAP_MAX_DEPTH && id in elements && FitsLimit(elements[id], isRoot)
    ensures AllFit(elements, ChildEntries(elements[id].children, depth + 1)) <==> Fits(elements, id, depth, isRoot)
  {
    var children := elements[id].children;
    var pushed := ChildEntries(children, depth + 1);
    assert forall i :: 0 <= i < |children| ==> pushed[i] == Entry(children[i], depth + 1, false);
  }

  lemma PopVisits(elements: Elements, entry: Entry)
    requires entry.depth <= SNAP_MAX_DEPTH && entry.id in elements
    ensures Sum(VisitsOf(elements, [entry]))
      == multiset{entry.id} + Sum(VisitsOf(elements, ChildEntries(elements[entry.id].children, entry.depth + 1)))
  {
    TopVisits(elements, entry);
    ChildrenVisited(elements, entry.id, entry.depth);
  }

  lemma MovePopped(visited: set<ElementId>, id: ElementId, below: multiset<ElementId>,
                   top: multiset<ElementId>, pushed: multiset<ElementId>)
    requires id !in visited && top == multiset{id} + pushed
    ensures multiset(visited) + (below + top) == multiset(visited + {id}) + (below + pushed)
  {
  }

  lemma PushKeepsFit(elements: Elements, rest: seq<Entry>, entry: Entry)
    requires entry.depth <= SNAP_MAX_DEPTH && entry.id in elements
    requires FitsLimit(elements[entry.id], entry.isRoot)
    ensures AllFit(elements, rest + [entry]) <==>
      AllFit(elements, rest + ChildEntries(elements[entry.id].children, entry.depth + 1))
  {
    FitSplits(elements, rest, [entry]);
    FitSplits(elements, rest, ChildEntries(elements[entry.id].children, entry.depth + 1));
    TopFits(elements, entry);
    ChildrenFit(elements, entry.id, entry.depth, entry.isRoot);
  }

  lemma PushKeepsVisits(elements: Elements, visited: set<ElementId>, rest: seq<Entry>, entry: Entry)
    requires entry.id !in visited && entry.depth <= SNAP_MAX_DEPTH && entry.id in elements
    ensures multiset(visited) + Sum(VisitsOf(elements, rest + [entry]))
      == multiset(visited + {entry.id})
       + Sum(VisitsOf(elements, rest + ChildEntries(elements[entry.id].children, entry.depth + 1)))
  {
    var pushed := ChildEntries(elements[entry.id].children, entry.depth + 1);
    VisitsSplit(elements, rest, [entry]);
    VisitsSplit(elements, rest, pushed);
    PopVisits(elements, entry);
    MovePopped(visited, entry.id, Sum(VisitsOf(elements, rest)),
               Sum(VisitsOf(elements, [entry])), Sum(VisitsOf(elements, pushed)));
  }

  /** Popping an element that passes its checks and pushing its children keeps the verdict. */
  lemma PopAndPush(elements: Elements, visited: set<ElementId>, rest: seq<Entry>, entry: Entry)
    requires entry.id !in visited && entry.depth <= SNAP_MAX_DEPTH && entry.id in elements
    requires FitsLimit(elements[entry.id], entry.isRoot)
    ensures var pushed := ChildEntries(elements[entry.id].children, entry.depth + 1);
      WillAccept(elements, visited, rest + [entry]) <==>
      WillAccept(elements, visited + {entry.id}, rest + pushed)
  {
    PushKeepsFit(elements, rest, entry);
    PushKeepsVisits(elements, visited, rest, entry);
  }

  /** Popping an element that was visited, is too deep, is missing or is too wide means rejection. */
  lemma PopAndReject(elements: Elements, visited: set<ElementId>, rest: seq<Entry>, entry: Entry)
    requires entry.id in visited || entry.depth > SNAP_MAX_DEPTH || entry.id !in elements ||
      !FitsLimit(elements[entry.id], entry.isRoot)
    ensures !WillAccept(elements, visited, rest + [entry])
  {
    FitSplits(elements, rest, [entry]);
    TopFits(elements, entry);
    if entry.id in visited {
      VisitsSplit(elements, rest, [entry]);
      TopVisits(elements, entry);
      var all := multiset(visited) + (Sum(VisitsOf(elements, rest)) + Visits(elements, entry.id, entry.depth));
      assert entry.id in Visits(elements, entry.id, entry.depth);
      assert all[entry.id] >= 2;
    }
  }

  /**
   * `validateSnapStructure`: true where the code returns the response, false
   * where it returns null. It accepts exactly the responses with few enough
   * elements of their own in which what the lookup finds from the root is a
   * tree within the limits, and it terminates because every pop that does not
   * return visits a new id.
   */
  method ValidateSnapStructure(root: ElementId, own: Elements, inherited: set<ElementId>)
    returns (accepted: bool)
    ensures accepted <==> Accepts(own, inherited, root)
  {
    if |own| > SNAP_MAX_ELEMENTS {
      return false;
    }
    accepted := Walk(root, Found(own, inherited));
  }

  /** The walk over whatever the lookup finds. */
  method Walk(root: ElementId, elements: Elements) returns (accepted: bool)
    ensures accepted <==> WithinLimits(elements, root) && IsTree(elements, root)
  {
    WalkDecidesPaths(elements, root);
    var visited: set<ElementId> := {};
    var stack := [Entry(root, 1, true)];
    while stack != []
      invariant visited <= elements.Keys
      invariant WillAccept(elements, {}, [Entry(root, 1, true)]) <==> WillAccept(elements, visited, stack)
      decreases elements.Keys - visited
    {
      var entry, rest := stack[|stack|-1], stack[..|stack|-1];
      assert stack == rest + [entry];
      if entry.id in visited {
        PopAndReject(elements, visited, rest, entry);
        return false;
      }
      if entry.depth > SNAP_MAX_DEPTH || entry.id !in elements {
        PopAndReject(elements, visited, rest, entry);
        return false;
      }
      var el := elements[entry.id];
      if !FitsLimit(el, entry.isRoot) {
        PopAndReject(elements, visited, rest, entry);
        return false;
      }
      PopAndPush(elements, visited, rest, entry);
      stack := rest;
      for n := 0 to |el.children|
        invariant stack == rest + ChildEntries(el.children[..n], entry.depth + 1)
      {
        assert ChildEntries(el.children[..n+1], entry.depth + 1)
          == ChildEntries(el.children[..n], entry.depth + 1) + [Entry(el.children[n], entry.depth + 1, false)];
        stack := stack + [Entry(el.children[n], entry.depth + 1, false)];
      }
      assert el.children[..|el.children|] == el.children;
      visited := visited + {entry.id};
    }
    assert NoRepeats(multiset(visited) + Sum(VisitsOf(elements, [])));
    return true;
  }

  // ---------------------------------------------------------------------
  // The walk decides the path statement
  // ---------------------------------------------------------------------

  lemma WalkDecidesPaths(elements: Elements, root: ElementId)
    ensures WillAccept(elements, {}, [Entry(root, 1, true)]) <==>
      WithinLimits(elements, root) && IsTree(elements, root)
  {
    TopFits(elements, Entry(root, 1, true));
    TopVisits(elements, Entry(root, 1, true));
    assert multiset({}) + Visits(elements, root, 1) == Visits(elements, root, 1);
    if Fits(elements, root, 1, true) {
      forall path: Path ensures PathFits(elements, root, 1, true, path) {
        FitsOnPath(elements, root, 1, true, path);
      }
      NoRepeatsOnPaths(elements, root, 1, true);
    } else if WithinLimits(elements, root) {
      PathsFitMeansFits(elements, root, 1, true);
    }
  }

  lemma AtChild(elements: Elements, id: ElementId, i: int, path: Path)
    requires id in elements && 0 <= i < |elements[id].children|
    ensures At(elements, id, [i] + path) == At(elements, elements[id].children[i], path)
  {
    assert ([i] + path)[1..] == path;
  }

  lemma {:induction false} FitsOnPath(elements: Elements, id: ElementId, depth: nat, isRoot: bool, path: Path)
    requires Fits(elements, id, depth, isRoot)
    ensures PathFits(elements, id, depth, isRoot, path)
    decreases |path|
  {
    if path != [] && 0 <= path[0] < |elements[id].children| {
      FitsOnPath(elements, elements[id].children[path[0]], depth + 1, false, path[1..]);
    }
  }

  lemma {:induction false} PathsFitMeansFits(elements: Elements, id: ElementId, depth: nat, isRoot: bool)
    requires forall path: Path :: PathFits(elements, id, depth, isRoot, path)
    ensures Fits(elements, id, depth, isRoot)
    decreases SNAP_MAX_DEPTH + 1 - depth
  {
    assert PathFits(elements, id, depth, isRoot, []);
    var children := elements[id].children;
    forall i | 0 <= i < |children| ensures Fits(elements, children[i], depth + 1, false) {
      var child, below := children[i], depth + 1;
      forall path: Path ensures PathFits(elements, child, below, false, path) {
        AtChild(elements, id, i, path);
        assert PathFits(elements, id, depth, isRoot, [i] + path);
      }
      PathsFitMeansFits(elements, child, below, false);
    }
  }

  ghost predicate Reaches(elements: Elements, id: ElementId, x: ElementId) {
    exists path: Path :: At(elements, id, path) == [x]
  }

  ghost predicate ReachNothingShared(elements: Elements, a: ElementId, b: ElementId) {
    forall x :: !(Reaches(elements, a, x) && Reaches(elements, b, x))
  }

  lemma ReachesThroughChild(elements: Elements, id: ElementId, x: ElementId)
    requires id in elements
    ensures Reaches(elements, id, x) <==>
      x == id || exists i :: 0 <= i < |elements[id].children| && Reaches(elements, elements[id].children[i], x)
  {
    var children := elements[id].children;
    if x == id {
      assert At(elements, id, []) == [x];
    }
    if Reaches(elements, id, x) {
      var path: Path :| At(elements, id, path) == [x];
      if path != [] {
        assert At(elements, children[path[0]], path[1..]) == [x];
      }
    }
    if i :| 0 <= i < |children| && Reaches(elements, children[i], x) {
      var path: Path :| At(elements, children[i], path) == [x];
      AtChild(elements, id, i, path);
    }
  }

  lemma {:induction false} InSum(ms: seq<multiset<ElementId>>, x: ElementId)
    ensures x in Sum(ms) <==> exists i :: 0 <= i < |ms| && x in ms[i]
  {
    if ms != [] {
      InSum(ms[..|ms|-1], x);
    }
  }

  /** The ids the walk visits are the ids some path reaches. */
  lemma {:induction false} VisitsAreReached(elements: Elements, id: ElementId, depth: nat, isRoot: bool, x: ElementId)
    requires Fits(elements, id, depth, isRoot)
    ensures x in Visits(elements, id, depth) <==> Reaches(elements, id, x)
    decreases SNAP_MAX_DEPTH + 1 - depth
  {
    var children := elements[id].children;
    var below := VisitsOf(elements, ChildEntries(children, depth + 1));
    ChildrenVisited(elements, id, depth);
    InSum(below, x);
    forall i | 0 <= i < |children| ensures x in below[i] <==> Reaches(elements, children[i], x) {
      VisitsAreReached(elements, children[i], depth + 1, false, x);
    }
    ReachesThroughChild(elements, id, x);
  }

  ghost predicate Apart(a: multiset<ElementId>, b: multiset<ElementId>) {
    forall x :: !(x in a && x in b)
  }

  lemma NoRepeatsOfSum(a: multiset<ElementId>, b: multiset<ElementId>)
    ensures NoRepeats(a + b) <==> NoRepeats(a) && NoRepeats(b) && Apart(a, b)
  {
    if NoRepeats(a + b) {
      forall x ensures a[x] <= 1 && b[x] <= 1 && !(x in a && x in b) {
        assert (a + b)[x] == a[x] + b[x];
      }
    }
  }

  /** A sum has no repeats when no part has and no two parts share an id. */
  lemma {:induction false} NoRepeatsOfParts(ms: seq<multiset<ElementId>>)
    ensures NoRepeats(Sum(ms)) <==>
      (forall i :: 0 <= i < |ms| ==> NoRepeats(ms[i])) &&
      (forall i, j :: 0 <= i < j < |ms| ==> Apart(ms[i], ms[j]))
  {
    if ms != [] {
      var front, last := ms[..|ms|-1], ms[|ms|-1];
      NoRepeatsOfParts(front);
      NoRepeatsOfSum(Sum(front), last);
      ApartFromSum(front, last);
      assert ms == front + [last];
    }
  }

  lemma ApartFromSum(ms: seq<multiset<ElementId>>, last: multiset<ElementId>)
    ensures Apart(Sum(ms), last) <==> forall i :: 0 <= i < |ms| ==> Apart(ms[i], last)
  {
    if Apart(Sum(ms), last) {
      forall i, x | 0 <= i < |ms| ensures !(x in ms[i] && x in last) {
        InSum(ms, x);
      }
    }
    if forall i :: 0 <= i < |ms| ==> Apart(ms[i], last) {
      forall x ensures !(x in Sum(ms) && x in last) {
        InSum(ms, x);
      }
    }
  }

  /** The tree property, one level at a time. */
  ghost predicate ChildrenAreApart(elements: Elements, id: ElementId)
    requires id in elements
  {
    var children := elements[id].children;
    (forall i :: 0 <= i < |children| ==> IsTree(elements, children[i]) && !Reaches(elements, children[i], id)) &&
    (forall i, j :: 0 <= i < j < |children| ==> ReachNothingShared(elements, children[i], children[j]))
  }

  lemma OnePathTo(elements: Elements, id: ElementId, p: Path, q: Path)
    requires IsTree(elements, id) && At(elements, id, p) != [] && At(elements, id, p) == At(elements, id, q)
    ensures p == q
  {
    assert SameEnd(elements, id, p, q);
  }

  lemma TreeMeansChildrenApart(elements: Elements, id: ElementId)
    requires id in elements && IsTree(elements, id)
    ensures ChildrenAreApart(elements, id)
  {
    var children := elements[id].children;
    forall i | 0 <= i < |children| ensures IsTree(elements, children[i]) && !Reaches(elements, children[i], id) {
      forall p: Path, q: Path | SameEnd(elements, children[i], p, q) ensures p == q {
        AtChild(elements, id, i, p);
        AtChild(elements, id, i, q);
        assert SameEnd(elements, id, [i] + p, [i] + q);
        assert ([i] + p)[1..] == p && ([i] + q)[1..] == q;
      }
      if Reaches(elements, children[i], id) {
        var p: Path :| At(elements, children[i], p) == [id];
        AtChild(elements, id, i, p);
        OnePathTo(elements, id, [i] + p, []);
      }
    }
    forall i, j, x | 0 <= i < j < |children|
      ensures !(Reaches(elements, children[i], x) && Reaches(elements, children[j], x))
    {
      if Reaches(elements, children[i], x) && Reaches(elements, children[j], x) {
        var p: Path :| At(elements, children[i], p) == [x];
        var q: Path :| At(elements, children[j], q) == [x];
        AtChild(elements, id, i, p);
        AtChild(elements, id, j, q);
        assert ([i] + p)[0] != ([j] + q)[0];
        OnePathTo(elements, id, [i] + p, [j] + q);
      }
    }
  }

  lemma ChildrenApartMeansTree(elements: Elements, id: ElementId)
    requires id in elements && ChildrenAreApart(elements, id)
    ensures IsTree(elements, id)
  {
    var children := elements[id].children;
    forall p: Path, q: Path | SameEnd(elements, id, p, q) ensures p == q {
      var x := At(elements, id, p)[0];
      if p != [] {
        assert At(elements, children[p[0]], p[1..]) == [x];
        assert Reaches(elements, children[p[0]], x);
      }
      if q != [] {
        assert At(elements, children[q[0]], q[1..]) == [x];
        assert Reaches(elements, children[q[0]], x);
      }
      if p != [] && q != [] {
        assert p[0] < q[0] ==> ReachNothingShared(elements, children[p[0]], children[q[0]]);
        assert q[0] < p[0] ==> ReachNothingShared(elements, children[q[0]], children[p[0]]);
        assert SameEnd(elements, children[p[0]], p[1..], q[1..]);
        assert p == [p[0]] + p[1..] && q == [q[0]] + q[1..];
      }
    }
  }

  lemma TreeIffChildrenApart(elements: Elements, id: ElementId)
    requires id in elements
    ensures IsTree(elements, id) <==> ChildrenAreApart(elements, id)
  {
    if IsTree(elements, id) {
      TreeMeansChildrenApart(elements, id);
    } else if ChildrenAreApart(elements, id) {
      ChildrenApartMeansTree(elements, id);
    }
  }

  lemma {:induction false} NoRepeatsOnPaths(elements: Elements, id: ElementId, depth: nat, isRoot: bool)
    requires Fits(elements, id, depth, isRoot)
    ensures NoRepeats(Visits(elements, id, depth)) <==> IsTree(elements, id)
    decreases SNAP_MAX_DEPTH + 1 - depth
  {
    var children := elements[id].children;
    var below := VisitsOf(elements, ChildEntries(children, depth + 1));
    forall i | 0 <= i < |children| ensures NoRepeats(below[i]) <==> IsTree(elements, children[i]) {
      NoRepeatsOnPaths(elements, children[i], depth + 1, false);
    }
    forall i, j | 0 <= i < j < |children|
      ensures Apart(below[i], below[j]) <==> ReachNothingShared(elements, children[i], children[j])
    {
      ApartMeansNothingShared(elements, children[i], children[j], depth + 1);
    }
    NotBelowItself(elements, id, depth, below);
    LevelHasNoRepeats(elements, id, below);
    ChildrenVisited(elements, id, depth);
    TreeIffChildrenApart(elements, id);
  }

  lemma LevelHasNoRepeats(elements: Elements, id: ElementId, below: seq<multiset<ElementId>>)
    requires id in elements && |below| == |elements[id].children|
    requires forall i :: 0 <= i < |below| ==> (NoRepeats(below[i]) <==> IsTree(elements, elements[id].children[i]))
    requires forall i, j :: 0 <= i < j < |below| ==>
      (Apart(below[i], below[j]) <==>
        ReachNothingShared(elements, elements[id].children[i], elements[id].children[j]))
    requires Apart(multiset{id}, Sum(below)) <==>
      forall i :: 0 <= i < |below| ==> !Reaches(elements, elements[id].children[i], id)
    ensures NoRepeats(multiset{id} + Sum(below)) <==> ChildrenAreApart(elements, id)
  {
    NoRepeatsOfParts(below);
    NoRepeatsOfSum(multiset{id}, Sum(below));
  }

  lemma ApartMeansNothingShared(elements: Elements, a: ElementId, b: ElementId, depth: nat)
    requires Fits(elements, a, depth, false) && Fits(elements, b, depth, false)
    ensures Apart(Visits(elements, a, depth), Visits(elements, b, depth)) <==> ReachNothingShared(elements, a, b)
  {
    forall x
      ensures x in Visits(elements, a, depth) <==> Reaches(elements, a, x)
      ensures x in Visits(elements, b, depth) <==> Reaches(elements, b, x)
    {
      VisitsAreReached(elements, a, depth, false, x);
      VisitsAreReached(elements, b, depth, false, x);
    }
  }

  lemma NotBelowItself(elements: Elements, id: ElementId, depth: nat, below: seq<multiset<ElementId>>)
    requires id in elements && |below| == |elements[id].children|
    requires forall i :: 0 <= i < |below| ==>
      Fits(elements, elements[id].children[i], depth + 1, false) &&
      below[i] == Visits(elements, elements[id].children[i], depth + 1)
    ensures Apart(multiset{id}, Sum(below)) <==>
      forall i :: 0 <= i < |below| ==> !Reaches(elements, elements[id].children[i], id)
  {
    InSum(below, id);
    forall i | 0 <= i < |below| ensures id in below[i] <==> Reaches(elements, elements[id].children[i], id) {
      VisitsAreReached(elements, elements[id].children[i], depth + 1, false, id);
    }
  }

  // ---------------------------------------------------------------------
  // Inherited names
  // ---------------------------------------------------------------------

  /** An inherited name has no children, so it changes no path. */
  lemma {:induction false} InheritedAddNoPath(own: Elements, inherited: set<ElementId>, id: ElementId, path: Path)
    ensures At(Found(own, inherited), id, path) == At(own, id, path)
    decreases |path|
  {
    if path != [] && id in own && 0 <= path[0] < |own[id].children| {
      InheritedAddNoPath(own, inherited, own[id].children[path[0]], path[1..]);
    }
  }

  /** No path of the response ends in a name that only the prototype has. */
  ghost predicate ReachesNoInherited(own: Elements, inherited: set<ElementId>, root: ElementId) {
    forall id :: id in inherited && id !in own ==> !Reaches(own, root, id)
  }

  ghost predicate AllExist(own: Elements, root: ElementId) {
    forall id :: Reaches(own, root, id) ==> id in own
  }

  lemma OnlyOwnPathsFit(own: Elements, inherited: set<ElementId>, root: ElementId, path: Path)
    requires AllExist(own, root)
    ensures PathFits(Found(own, inherited), root, 1, true, path) <==> PathFits(own, root, 1, true, path)
  {
    InheritedAddNoPath(own, inherited, root, path);
    if At(own, root, path) != [] {
      assert Reaches(own, root, At(own, root, path)[0]);
    }
  }

  /**
   * In an accepted response every reachable id is an element of the response,
   * exactly when no inherited name is reached; and then the response is
   * accepted on its own elements alone.
   */
  lemma AcceptedElementsExistIff(own: Elements, inherited: set<ElementId>, root: ElementId)
    requires Accepts(own, inherited, root)
    ensures AllExist(own, root) <==> ReachesNoInherited(own, inherited, root)
    ensures AllExist(own, root) <==> WithinLimits(own, root) && IsTree(own, root)
  {
    forall id | Reaches(own, root, id) ensures id in Found(own, inherited) {
      var path: Path :| At(own, root, path) == [id];
      InheritedAddNoPath(own, inherited, root, path);
      assert PathFits(Found(own, inherited), root, 1, true, path);
    }
    if AllExist(own, root) {
      forall path: Path ensures PathFits(own, root, 1, true, path) {
        OnlyOwnPathsFit(own, inherited, root, path);
        assert PathFits(Found(own, inherited), root, 1, true, path);
      }
      forall p: Path, q: Path | SameEnd(own, root, p, q) ensures p == q {
        InheritedAddNoPath(own, inherited, root, p);
        InheritedAddNoPath(own, inherited, root, q);
        assert SameEnd(Found(own, inherited), root, p, q);
      }
    }
    if WithinLimits(own, root) {
      forall id | Reaches(own, root, id) ensures id in own {
        var path: Path :| At(own, root, path) == [id];
        assert PathFits(own, root, 1, true, path);
      }
    }
  }

  /** A response without elements, whose root is an inherited name, is accepted although no element exists. */
  lemma InheritedRootIsAccepted(inherited: set<ElementId>, root: ElementId)
    requires root in inherited
    ensures Accepts(map[], inherited, root) && !AllExist(map[], root)
  {
    var elements := Found(map[], inherited);
    forall path: Path ensures At(elements, root, path) == if path == [] then [root] else [] {
      InheritedAddNoPath(map[], inherited, root, path);
    }
    assert At(map[], root, []) == [root];
    assert Reaches(map[], root, root);
  }

  /** So is a stack whose only child is one. */
  lemma InheritedChildIsAccepted(root: ElementId, child: ElementId)
    requires root != child
    ensures var own := map[root := SnapElement(Stack, [child])];
      Accepts(own, {child}, root) && !AllExist(own, root)
  {
    var own := map[root := SnapElement(Stack, [child])];
    var elements := Found(own, {child});
    forall path: Path
      ensures At(elements, root, path) == if path == [] then [root] else if path == [0] then [child] else []
    {
      if path != [] && path[0] == 0 {
        assert path == [0] + path[1..];
        assert At(elements, child, path[1..]) == if path[1..] == [] then [child] else [];
      }
    }
    assert At(own, root, [0]) == [child] by {
      InheritedAddNoPath(own, {child}, root, [0]);
    }
    assert Reaches(own, root, child);
  }

  // ---------------------------------------------------------------------
  // The limits in numbers
  // ---------------------------------------------------------------------

  /**
   * Seven children of the root, six of any other stack or item group, any
   * number of anything else; and with the root at depth one nothing is deeper
   * than four.
   */
  lemma LimitsAsPublished(own: Elements, inherited: set<ElementId>, root: ElementId, path: Path)
    requires Accepts(own, inherited, root) && At(own, root, path) != []
    ensures |own| <= 64 && |path| <= 3
    ensures var id := At(own, root, path)[0];
      id in own ==>
        (path == [] ==> |own[id].children| <= 7) &&
        (path != [] && (own[id].elementType == Stack || own[id].elementType == ItemGroup) ==> |own[id].children| <= 6)
  {
    InheritedAddNoPath(own, inherited, root, path);
    assert PathFits(Found(own, inherited), root, 1, true, path);
  }

  /** Nothing narrower is asked of a response whose elements all exist. */
  lemma WithinPublishedLimitsIsAccepted(own: Elements, inherited: set<ElementId>, root: ElementId)
    requires |own| <= 64 && AllExist(own, root) && IsTree(own, root)
    requires forall path: Path | At(own, root, path) != [] :: |path| <= 3
    requires forall path: Path | At(own, root, path) != [] && At(own, root, path)[0] in own ::
      var el := own[At(own, root, path)[0]];
      if path == [] then |el.children| <= 7
      else el.elementType == OtherType || |el.children| <= 6
    ensures Accepts(own, inherited, root)
  {
    forall path: Path ensures PathFits(Found(own, inherited), root, 1, true, path) {
      OnlyOwnPathsFit(own, inherited, root, path);
      if At(own, root, path) != [] {
        assert Reaches(own, root, At(own, root, path)[0]);
      }
    }
    forall p: Path, q: Path | SameEnd(Found(own, inherited), root, p, q) ensures p == q {
      InheritedAddNoPath(own, inherited, root, p);
      InheritedAddNoPath(own, inherited, root, q);
      assert SameEnd(own, root, p, q);
    }
  }
}
