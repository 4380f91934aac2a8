/** `calculateHierarchy` and `sortRecursive`: order the steps as a forest
    in which each step sits under the single step it feeds, visited depth
    first from the root group; steps never reached (circular chains, or a
    parent that is not a step) follow in their original order. */
module Hierarchy {
  import opened Wrappers
  import opened Model

  /** The id of the root group. */
  const RootId: string := ""

  /** A step whose parent is never assigned is grouped under the key
      JavaScript makes of `undefined`. */
  const UndefinedKey: string := "undefined"

  /** What the recursion needs of the step ids: no two steps share one, and
      none is the root id. Otherwise `sortRecursive` can revisit a group
      forever. */
  predicate WellFormed(steps: seq<Step>) {
    UniqueIds(steps) && forall s :: s in steps ==> s.id != RootId
  }

  /** No element occurs twice. */
  ghost predicate Distinct<T>(s: seq<T>) {
    forall i, j :: 0 <= i < j < |s| ==> s[i] != s[j]
  }

  /** `p` occurs somewhere before `t`. */
  ghost predicate Before<T>(s: seq<T>, p: T, t: T) {
    exists i, j :: 0 <= i < j < |s| && s[i] == p && s[j] == t
  }

  /** `r` lists entries of `s` in the order they have in `s`: any two rows
      of `r` sit in `s` in the same order. */
  ghost predicate InOrderOf<T>(r: seq<T>, s: seq<T>) {
    forall a, b :: 0 <= a < b < |r| ==> Before(s, r[a], r[b])
  }

  /** Keeping or skipping the head of `s` in front of an ordered `r` keeps it ordered. */
  lemma InOrderStep<T>(x: T, r: seq<T>, s: seq<T>, keep: bool)
    requires InOrderOf(r, s) && forall y :: y in r ==> y in s
    ensures InOrderOf((if keep then [x] else []) + r, [x] + s)
  {
    var r', s' := (if keep then [x] else []) + r, [x] + s;
    var k := if keep then 1 else 0;
    forall a, b | 0 <= a < b < |r'|
      ensures Before(s', r'[a], r'[b])
    {
      if keep && a == 0 {
        assert r'[b] == r[b - 1] && r[b - 1] in s;
        var q :| 0 <= q < |s| && s[q] == r[b - 1];
        assert s'[0] == r'[a] && s'[q + 1] == r'[b];
      } else {
        assert r'[a] == r[a - k] && r'[b] == r[b - k];
        var p, q :| 0 <= p < q < |s| && s[p] == r[a - k] && s[q] == r[b - k];
        assert s'[p + 1] == r'[a] && s'[q + 1] == r'[b];
      }
    }
  }

  /** Unique ids make the steps themselves distinct, and a step is fixed by its id. */
  lemma SameId(steps: seq<Step>, a: Step, b: Step)
    requires UniqueIds(steps) && a in steps && b in steps && a.id == b.id
    ensures a == b
  {
    var i :| 0 <= i < |steps| && steps[i] == a;
    var j :| 0 <= j < |steps| && steps[j] == b;
  }

  lemma UniqueDistinct(steps: seq<Step>)
    requires UniqueIds(steps)
    ensures Distinct(steps)
  {
  }

  /** `steps.find((s) => s.id === id)`. */
  function FindById(steps: seq<Step>, id: string): (r: Option<Step>)
    ensures r.Some? ==> r.value in steps && r.value.id == id
    ensures r.None? ==> forall s :: s in steps ==> s.id != id
  {
    if steps == [] then None
    else if steps[0].id == id then Some(steps[0])
    else FindById(steps[1..], id)
  }

  lemma SingletonKeys(m: map<string, real>)
    requires |m| == 1
    ensures exists k :: m.Keys == {k}
  {
    var k :| k in m;
    var rest := m.Keys - {k};
    assert |rest| == 0;
    assert m.Keys == {k};
  }

  /** `Object.keys(parents)[0]` for a map with exactly one key. */
  function SoleKey(m: map<string, real>): (k: string)
    requires |m| == 1
    ensures m.Keys == {k}
  {
    SingletonKeys(m);
    var k :| m.Keys == {k};
    k
  }

  /** The group a step joins: the root when it has no consumers, the root
      marker `''` among them, or more than one; otherwise its one consumer's
      step, unless that is the step itself (root again) or no such step
      exists (never assigned). */
  function ParentKey(steps: seq<Step>, s: Step): (r: string)
    ensures s.parents.None? || RootId in s.parents.value || |s.parents.value| > 1 ==> r == RootId
    ensures r == RootId ==>
              s.parents.None? || RootId in s.parents.value || |s.parents.value| > 1 || s.parents.value.Keys == {s.id}
    ensures s.parents.Some? && |s.parents.value| == 0 ==> r == UndefinedKey
    ensures s.parents.Some? && s.parents.value.Keys == {s.id} && FindById(steps, s.id).Some? ==> r == RootId
    ensures r != RootId && r != UndefinedKey ==>
              s.parents.Some? && s.parents.value.Keys == {r} && r != s.id && FindById(steps, r).Some?
  {
    if s.parents.None? || RootId in s.parents.value || |s.parents.value| > 1 then RootId
    else if |s.parents.value| == 0 then UndefinedKey
    else
      match FindById(steps, SoleKey(s.parents.value))
      case None => UndefinedKey
      case Some(p) => if s.id == p.id then RootId else p.id
  }

  /** The steps of `s` whose parent key among `steps` is `id`, in order. */
  function GroupIn(steps: seq<Step>, s: seq<Step>, id: string): (r: seq<Step>)
    ensures forall x :: x in r ==> x in s && ParentKey(steps, x) == id
    ensures forall x :: x in s && ParentKey(steps, x) == id ==> x in r
    ensures multiset(r) <= multiset(s)
    ensures InOrderOf(r, s)
  {
    if s == [] then []
    else
      var rest := GroupIn(steps, s[1..], id);
      var keep := ParentKey(steps, s[0]) == id;
      InOrderStep(s[0], rest, s[1..], keep);
      assert s == [s[0]] + s[1..];
      if keep then [s[0]] + rest else [] + rest
  }

  /** `groups[id]`: the steps whose parent key is `id`, in step order. */
  function Group(steps: seq<Step>, id: string): (r: seq<Step>)
    ensures forall x :: x in r ==> x in steps && ParentKey(steps, x) == id
    ensures forall x :: x in steps && ParentKey(steps, x) == id ==> x in r
    ensures Distinct(steps) ==> Distinct(r)
    ensures InOrderOf(r, steps)
  {
    DistinctSub(GroupIn(steps, steps, id), steps);
    GroupIn(steps, steps, id)
  }

  /** A chain from the root: each step is in the group of the one before,
      and the first is in the root group. */
  predicate IsChain(steps: seq<Step>, c: seq<Step>) {
    && |c| > 0
    && (forall x :: x in c ==> x in steps)
    && ParentKey(steps, c[0]) == RootId
    && forall k :: 0 < k < |c| ==> ParentKey(steps, c[k]) == c[k - 1].id
  }

  /** The key of the group a chain's next step must belong to. */
  function Tip(path: seq<Step>): string {
    if path == [] then RootId else path[|path| - 1].id
  }

  /** Only the first step of a chain sits in the root group. */
  lemma ChainTail(steps: seq<Step>, c: seq<Step>)
    requires WellFormed(steps) && IsChain(steps, c) && |c| > 1
    ensures ParentKey(steps, c[|c| - 1]) != RootId
  {
    assert c[|c| - 2] in c;
  }

  lemma ChainPrefix(steps: seq<Step>, c: seq<Step>, n: nat)
    requires IsChain(steps, c) && 0 < n <= |c|
    ensures IsChain(steps, c[..n])
  {
    forall x | x in c[..n] ensures x in steps {
      var i :| 0 <= i < n && c[..n][i] == x;
      assert c[i] in c;
    }
  }

  /** A step has at most one chain from the root: the parent keys determine
      every step before it. */
  lemma {:induction false} ChainUnique(steps: seq<Step>, c1: seq<Step>, c2: seq<Step>)
    requires WellFormed(steps) && IsChain(steps, c1) && IsChain(steps, c2)
    requires c1[|c1| - 1] == c2[|c2| - 1]
    ensures c1 == c2
    decreases |c1|
  {
    if |c1| > 1 && |c2| > 1 {
      var n1 := |c1| - 1;
      var n2 := |c2| - 1;
      var a, b := c1[..n1], c2[..n2];
      assert a[|a| - 1] == b[|b| - 1] by {
        assert c1[n1 - 1] in c1 && c2[n2 - 1] in c2;
        SameId(steps, c1[n1 - 1], c2[n2 - 1]);
      }
      assert IsChain(steps, a) && IsChain(steps, b) by {
        ChainPrefix(steps, c1, n1);
        ChainPrefix(steps, c2, n2);
      }
      ChainUnique(steps, a, b);
      assert |c1| == |c2|;
      forall i | 0 <= i < |c1| ensures c1[i] == c2[i] {
        if i < n1 {
          assert c1[i] == a[i] && c2[i] == b[i];
        }
      }
    } else {
      if |c1| > 1 {
        ChainTail(steps, c1);
      }
      if |c2| > 1 {
        ChainTail(steps, c2);
      }
    }
  }

  /** A chain never revisits a step. */
  lemma ChainDistinct(steps: seq<Step>, c: seq<Step>)
    requires WellFormed(steps) && IsChain(steps, c)
    ensures Distinct(c)
  {
    forall i, j | 0 <= i < j < |c|
      ensures c[i] != c[j]
    {
      if c[i] == c[j] {
        ChainPrefix(steps, c, i + 1);
        ChainPrefix(steps, c, j + 1);
        ChainUnique(steps, c[..i + 1], c[..j + 1]);
      }
    }
  }

  lemma {:induction false} SeqSetSize<T>(s: seq<T>)
    ensures |set x | x in s| <= |s|
    ensures Distinct(s) ==> |set x | x in s| == |s|
  {
    if s != [] {
      var front := s[..|s| - 1];
      var last := s[|s| - 1];
      SeqSetSize(front);
      assert s == front + [last];
      assert (set x | x in s) == (set x | x in front) + {last};
      if Distinct(s) {
        assert Distinct(front);
        assert last !in (set x | x in front);
      }
    }
  }

  lemma {:induction false} SubsetSize<T>(a: set<T>, b: set<T>)
    requires a <= b
    ensures |a| <= |b|
    decreases |a|
  {
    if a != {} {
      var x :| x in a;
      SubsetSize(a - {x}, b - {x});
    }
  }

  /** A chain is no longer than the list of steps. */
  lemma ChainBound(steps: seq<Step>, c: seq<Step>)
    requires WellFormed(steps) && IsChain(steps, c)
    ensures |c| <= |steps|
  {
    ChainDistinct(steps, c);
    SeqSetSize(c);
    SeqSetSize(steps);
    SubsetSize(set x | x in c, set x | x in steps);
  }

  /** A path from the root whose tip group `kids` come from. */
  predicate Frontier(steps: seq<Step>, kids: seq<Step>, path: seq<Step>) {
    && (path == [] || IsChain(steps, path))
    && forall k :: k in kids ==> k in steps && ParentKey(steps, k) == Tip(path)
  }

  lemma Extend(steps: seq<Step>, path: seq<Step>, k: Step)
    requires WellFormed(steps) && (path == [] || IsChain(steps, path))
    requires k in steps && ParentKey(steps, k) == Tip(path)
    ensures IsChain(steps, path + [k]) && |path| < |steps|
  {
    var c := path + [k];
    forall i | 0 < i < |c| ensures ParentKey(steps, c[i]) == c[i - 1].id {
      if i < |path| {
        assert c[i] == path[i] && c[i - 1] == path[i - 1];
      }
    }
    ChainBound(steps, c);
  }

  /** `sortRecursive` over the group `kids` below `path`: each step, then
      its own group, depth first. `path` is proof-only: the chain the
      recursion has followed, which bounds its depth. */
  function Forest(steps: seq<Step>, kids: seq<Step>, ghost path: seq<Step>): (r: seq<Step>)
    requires WellFormed(steps) && Frontier(steps, kids, path)
    ensures forall t :: t in r ==> t in steps
    ensures forall k :: k in kids ==> k in r
    ensures kids != [] ==> r != [] && r[0] == kids[0]
    decreases |steps| - |path|, |kids|
  {
    if kids == [] then []
    else
      var k := kids[0];
      Extend(steps, path, k);
      [k] + Forest(steps, Group(steps, k.id), path + [k]) + Forest(steps, kids[1..], path)
  }

  /** The steps the recursive sort reaches from the root group. */
  function Visited(steps: seq<Step>): seq<Step>
    requires WellFormed(steps)
  {
    Forest(steps, Group(steps, RootId), [])
  }

  /** The steps not reached, in their original order. */
  function Leftover(steps: seq<Step>, sorted: seq<Step>): (r: seq<Step>)
    ensures forall x :: x in r <==> x in steps && x !in sorted
    ensures forall x :: multiset(r)[x] == if x in sorted then 0 else multiset(steps)[x]
    ensures InOrderOf(r, steps)
  {
    if steps == [] then []
    else
      assert steps == [steps[0]] + steps[1..];
      var rest := Leftover(steps[1..], sorted);
      InOrderStep(steps[0], rest, steps[1..], steps[0] !in sorted);
      (if steps[0] in sorted then [] else [steps[0]]) + rest
  }

  /** `calculateHierarchy`: the steps reached from the root group first, in
      depth-first pre-order (each step right before its subtree, siblings in
      input order), then the steps not reached, in input order. */
  function CalculateHierarchy(steps: seq<Step>): (r: seq<Step>)
    requires WellFormed(steps)
    ensures multiset(r) == multiset(steps)
    ensures forall i, j :: 0 <= i < j < |r| && Reached(steps, r[j]) ==> Reached(steps, r[i])
    ensures forall i, j :: 0 <= i < j < |r| && Reached(steps, r[j]) ==> PreOrdered(steps, r[i], r[j])
    ensures forall i, j :: 0 <= i < j < |r| && !Reached(steps, r[i]) ==> Before(steps, r[i], r[j])
  {
    var sorted := Visited(steps);
    PartsPermute(steps);
    PartsOrdered(steps);
    sorted + Leftover(steps, sorted)
  }

  /** Step `t` sits below `path` through one of `kids`. */
  ghost predicate Below(steps: seq<Step>, t: Step, kids: seq<Step>, path: seq<Step>) {
    exists c :: IsChain(steps, c) && |c| > |path| && c[..|path|] == path && c[|path|] in kids && c[|c| - 1] == t
  }

  /** Every step the recursion emits under `path` has a chain through
      `path` and one of `kids`. */
  lemma {:induction false} ForestBelow(steps: seq<Step>, kids: seq<Step>, path: seq<Step>)
    requires WellFormed(steps) && Frontier(steps, kids, path)
    ensures forall t :: t in Forest(steps, kids, path) ==> Below(steps, t, kids, path)
    decreases |steps| - |path|, |kids|
  {
    if kids != [] {
      var k := kids[0];
      Extend(steps, path, k);
      var p := path + [k];
      var sub := Forest(steps, Group(steps, k.id), p);
      var rest := Forest(steps, kids[1..], path);
      ForestBelow(steps, Group(steps, k.id), p);
      ForestBelow(steps, kids[1..], path);
      assert Forest(steps, kids, path) == [k] + sub + rest;
      forall t | t in Forest(steps, kids, path)
        ensures Below(steps, t, kids, path)
      {
        if t == k {
          BelowHead(steps, kids, path);
        } else if t in sub {
          BelowSub(steps, kids, path, t);
        } else {
          BelowRest(steps, kids, path, t);
        }
      }
    }
  }

  /** The first of `kids` is below `path` through itself. */
  lemma BelowHead(steps: seq<Step>, kids: seq<Step>, path: seq<Step>)
    requires WellFormed(steps) && Frontier(steps, kids, path) && kids != []
    ensures Below(steps, kids[0], kids, path)
  {
    var p := path + [kids[0]];
    Extend(steps, path, kids[0]);
    assert p[..|path|] == path;
    assert IsChain(steps, p) && p[|path|] == kids[0] && p[|p| - 1] == kids[0];
  }

  /** A step below the first of `kids` is below `path` through it. */
  lemma BelowSub(steps: seq<Step>, kids: seq<Step>, path: seq<Step>, t: Step)
    requires kids != [] && Below(steps, t, Group(steps, kids[0].id), path + [kids[0]])
    ensures Below(steps, t, kids, path)
  {
    var p := path + [kids[0]];
    var c :| IsChain(steps, c) && |c| > |p| && c[..|p|] == p && c[|p|] in Group(steps, kids[0].id) && c[|c| - 1] == t;
    PrefixParts(c, p, path, kids[0]);
  }

  /** A step below `path` through a later kid is below it through `kids`. */
  lemma BelowRest(steps: seq<Step>, kids: seq<Step>, path: seq<Step>, t: Step)
    requires kids != [] && Below(steps, t, kids[1..], path)
    ensures Below(steps, t, kids, path)
  {
    var c :| IsChain(steps, c) && |c| > |path| && c[..|path|] == path && c[|path|] in kids[1..] && c[|c| - 1] == t;
  }

  /** A sequence that starts with `path + [k]` starts with `path`, then `k`. */
  lemma PrefixParts<T>(c: seq<T>, p: seq<T>, path: seq<T>, k: T)
    requires p == path + [k] && |p| <= |c| && c[..|p|] == p
    ensures c[..|path|] == path && c[|path|] == k
  {
    assert c[..|path|] == p[..|path|];
    assert c[|path|] == p[|path|];
  }

  lemma DistinctConcat<T>(a: seq<T>, b: seq<T>)
    requires Distinct(a) && Distinct(b) && forall x :: x in a ==> x !in b
    ensures Distinct(a + b)
  {
    forall i, j | 0 <= i < j < |a + b|
      ensures (a + b)[i] != (a + b)[j]
    {
      if i < |a| && j >= |a| {
        assert (a + b)[i] in a && (a + b)[j] == b[j - |a|];
      }
    }
  }

  /** Two chains through `path` that reach the same step pass through the
      same member of the group below `path`. */
  lemma SameBranch(steps: seq<Step>, path: seq<Step>, c1: seq<Step>, c2: seq<Step>)
    requires WellFormed(steps) && IsChain(steps, c1) && IsChain(steps, c2)
    requires |c1| > |path| && |c2| > |path| && c1[|c1| - 1] == c2[|c2| - 1]
    ensures c1 == c2 && c1[|path|] == c2[|path|]
  {
    ChainUnique(steps, c1, c2);
  }

  /** The recursion emits no step twice. */
  lemma {:induction false} ForestDistinct(steps: seq<Step>, kids: seq<Step>, path: seq<Step>)
    requires WellFormed(steps) && Frontier(steps, kids, path) && Distinct(kids)
    ensures Distinct(Forest(steps, kids, path))
    decreases |steps| - |path|, |kids|
  {
    if kids != [] {
      var k := kids[0];
      Extend(steps, path, k);
      assert Distinct(Forest(steps, Group(steps, k.id), path + [k])) by {
        UniqueDistinct(steps);
        ForestDistinct(steps, Group(steps, k.id), path + [k]);
      }
      assert Distinct(Forest(steps, kids[1..], path)) by {
        assert Distinct(kids[1..]);
        ForestDistinct(steps, kids[1..], path);
      }
      ForestJoin(steps, kids, path);
    }
  }

  /** The forest of `kids` is distinct once the first kid's subtree and the
      later kids' forest each are. */
  lemma ForestJoin(steps: seq<Step>, kids: seq<Step>, path: seq<Step>)
    requires WellFormed(steps) && Frontier(steps, kids, path) && Distinct(kids) && kids != []
    requires IsChain(steps, path + [kids[0]])
    requires Distinct(Forest(steps, Group(steps, kids[0].id), path + [kids[0]]))
    requires Distinct(Forest(steps, kids[1..], path))
    ensures Distinct(Forest(steps, kids, path))
  {
    var k := kids[0];
    var sub := Forest(steps, Group(steps, k.id), path + [k]);
    var rest := Forest(steps, kids[1..], path);
    ForestsApart(steps, kids, path);
    DistinctConcat([k], sub);
    DistinctConcat([k] + sub, rest);
    assert Forest(steps, kids, path) == [k] + sub + rest;
  }

  /** The first kid's subtree and the later kids' forest share no step, and
      neither holds the first kid. */
  lemma ForestsApart(steps: seq<Step>, kids: seq<Step>, path: seq<Step>)
    requires WellFormed(steps) && Frontier(steps, kids, path) && Distinct(kids) && kids != []
    requires IsChain(steps, path + [kids[0]])
    ensures kids[0] !in Forest(steps, Group(steps, kids[0].id), path + [kids[0]])
    ensures forall t :: t in [kids[0]] + Forest(steps, Group(steps, kids[0].id), path + [kids[0]]) ==>
              t !in Forest(steps, kids[1..], path)
  {
    var sub := Forest(steps, Group(steps, kids[0].id), path + [kids[0]]);
    forall t | t in sub ensures t != kids[0] && t !in Forest(steps, kids[1..], path) {
      SubApart(steps, kids, path, t);
    }
    if kids[0] in Forest(steps, kids[1..], path) {
      RestApart(steps, kids, path, kids[0]);
    }
  }

  /** A step emitted under the first of `kids` is neither that kid nor
      emitted under a later kid. */
  lemma SubApart(steps: seq<Step>, kids: seq<Step>, path: seq<Step>, t: Step)
    requires WellFormed(steps) && Frontier(steps, kids, path) && kids != [] && Distinct(kids)
    requires IsChain(steps, path + [kids[0]])
    requires t in Forest(steps, Group(steps, kids[0].id), path + [kids[0]])
    ensures t != kids[0] && t !in Forest(steps, kids[1..], path)
  {
    var k := kids[0];
    var p := path + [k];
    Extend(steps, path, k);
    assert Below(steps, t, Group(steps, k.id), p) by {
      ForestBelow(steps, Group(steps, k.id), p);
    }
    SubNotHead(steps, kids, path, t);
    SubNotRest(steps, kids, path, t);
    assert t !in Forest(steps, kids[1..], path) by {
      ForestBelow(steps, kids[1..], path);
    }
  }

  /** A step below the first kid's group is not that kid. */
  lemma SubNotHead(steps: seq<Step>, kids: seq<Step>, path: seq<Step>, t: Step)
    requires WellFormed(steps) && kids != [] && IsChain(steps, path + [kids[0]])
    requires Below(steps, t, Group(steps, kids[0].id), path + [kids[0]])
    ensures t != kids[0]
  {
    var p := path + [kids[0]];
    var c :| IsChain(steps, c) && |c| > |p| && c[..|p|] == p && c[|p|] in Group(steps, kids[0].id) && c[|c| - 1] == t;
    if t == kids[0] {
      ChainUnique(steps, c, p);
    }
  }

  /** No step is below both the first kid's group and a later kid. */
  lemma SubNotRest(steps: seq<Step>, kids: seq<Step>, path: seq<Step>, t: Step)
    requires WellFormed(steps) && kids != [] && Distinct(kids)
    requires Below(steps, t, Group(steps, kids[0].id), path + [kids[0]])
    ensures !Below(steps, t, kids[1..], path)
  {
    var p := path + [kids[0]];
    var c :| IsChain(steps, c) && |c| > |p| && c[..|p|] == p && c[|p|] in Group(steps, kids[0].id) && c[|c| - 1] == t;
    assert c[|path|] == p[|path|] == kids[0];
    if Below(steps, t, kids[1..], path) {
      var c2 :| IsChain(steps, c2) && |c2| > |path| && c2[..|path|] == path && c2[|path|] in kids[1..] && c2[|c2| - 1] == t;
      SameBranch(steps, path, c, c2);
    }
  }

  /** A step emitted under a later kid is not the first kid. */
  lemma RestApart(steps: seq<Step>, kids: seq<Step>, path: seq<Step>, t: Step)
    requires WellFormed(steps) && Frontier(steps, kids, path) && Distinct(kids) && kids != []
    requires t in Forest(steps, kids[1..], path)
    ensures t != kids[0]
  {
    var k := kids[0];
    var p := path + [k];
    Extend(steps, path, k);
    ForestBelow(steps, kids[1..], path);
    var c2 :| IsChain(steps, c2) && |c2| > |path| && c2[..|path|] == path && c2[|path|] in kids[1..] && c2[|c2| - 1] == t;
    if t == k {
      ChainUnique(steps, c2, p);
    }
  }

  /** A group member and its whole subtree are emitted with the group. */
  lemma {:induction false} ForestContains(steps: seq<Step>, kids: seq<Step>, path: seq<Step>, k: Step)
    requires WellFormed(steps) && Frontier(steps, kids, path) && k in kids
    ensures IsChain(steps, path + [k])
    ensures k in Forest(steps, kids, path)
    ensures forall t :: t in Forest(steps, Group(steps, k.id), path + [k]) ==> t in Forest(steps, kids, path)
    decreases |kids|
  {
    Extend(steps, path, k);
    var k0 := kids[0];
    Extend(steps, path, k0);
    if k != k0 {
      ForestContains(steps, kids[1..], path, k);
    }
  }

  /** A root-group step (a chain of one) is reached, together with its subtree. */
  lemma RootReached(steps: seq<Step>, t: Step)
    requires WellFormed(steps) && IsChain(steps, [t])
    ensures t in Visited(steps)
    ensures forall x :: x in Forest(steps, Group(steps, t.id), [t]) ==> x in Visited(steps)
  {
    assert [t] == [] + [t];
    ForestContains(steps, Group(steps, RootId), [], t);
  }

  /** One more step along a reached chain is reached, with its subtree. */
  lemma NextReached(steps: seq<Step>, front: seq<Step>, t: Step)
    requires WellFormed(steps) && IsChain(steps, front)
    requires t in steps && ParentKey(steps, t) == front[|front| - 1].id && IsChain(steps, front + [t])
    requires forall x :: x in Forest(steps, Group(steps, front[|front| - 1].id), front) ==> x in Visited(steps)
    ensures t in Visited(steps)
    ensures forall x :: x in Forest(steps, Group(steps, t.id), front + [t]) ==> x in Visited(steps)
  {
    var g := Group(steps, front[|front| - 1].id);
    assert Frontier(steps, g, front);
    ForestContains(steps, g, front, t);
  }

  /** The last step of a longer chain extends the chain before it. */
  lemma ChainStep(steps: seq<Step>, c: seq<Step>)
    requires IsChain(steps, c) && |c| > 1
    ensures IsChain(steps, c[..|c| - 1])
    ensures c == c[..|c| - 1] + [c[|c| - 1]]
    ensures c[|c| - 1] in steps && ParentKey(steps, c[|c| - 1]) == c[..|c| - 1][|c| - 2].id
  {
    ChainPrefix(steps, c, |c| - 1);
    assert c[|c| - 1] in c;
  }

  /** Every step with a chain from the root is reached, together with the
      group below it. */
  lemma {:induction false} ChainReached(steps: seq<Step>, c: seq<Step>)
    requires WellFormed(steps) && IsChain(steps, c)
    ensures c[|c| - 1] in Visited(steps)
    ensures forall t :: t in Forest(steps, Group(steps, c[|c| - 1].id), c) ==> t in Visited(steps)
    decreases |c|
  {
    if |c| == 1 {
      assert c[0] in c && c == [c[0]];
      RootReached(steps, c[0]);
    } else {
      ChainStep(steps, c);
      ChainReached(steps, c[..|c| - 1]);
      NextReached(steps, c[..|c| - 1], c[|c| - 1]);
    }
  }

  /** The reached steps are exactly those with a chain from the root. */
  lemma VisitedIffChain(steps: seq<Step>, t: Step)
    requires WellFormed(steps)
    ensures t in Visited(steps) <==> exists c :: IsChain(steps, c) && c[|c| - 1] == t
  {
    ForestBelow(steps, Group(steps, RootId), []);
    if exists c :: IsChain(steps, c) && c[|c| - 1] == t {
      var c :| IsChain(steps, c) && c[|c| - 1] == t;
      ChainReached(steps, c);
    }
  }

  lemma DistinctCount<T>(s: seq<T>, x: T)
    requires Distinct(s)
    ensures multiset(s)[x] == if x in s then 1 else 0
  {
    if s != [] {
      assert s == [s[0]] + s[1..];
      DistinctCount(s[1..], x);
    }
  }

  /** Drawing from distinct elements, no more often than they occur, keeps
      them distinct. */
  lemma DistinctSub<T>(a: seq<T>, b: seq<T>)
    ensures multiset(a) <= multiset(b) && Distinct(b) ==> Distinct(a)
  {
    if multiset(a) <= multiset(b) && Distinct(b) {
      forall i, j | 0 <= i < j < |a|
        ensures a[i] != a[j]
      {
        TwoCopies(a, i, j);
        DistinctCount(b, a[i]);
      }
    }
  }

  /** The reached steps and the leftover steps together are the steps,
      nothing lost or duplicated. */
  lemma PartsPermute(steps: seq<Step>)
    requires WellFormed(steps)
    ensures multiset(Visited(steps) + Leftover(steps, Visited(steps))) == multiset(steps)
  {
    var sorted := Visited(steps);
    UniqueDistinct(steps);
    ForestDistinct(steps, Group(steps, RootId), []);
    forall x
      ensures multiset(sorted + Leftover(steps, sorted))[x] == multiset(steps)[x]
    {
      DistinctCount(sorted, x);
      DistinctCount(steps, x);
    }
  }

  /** `calculateHierarchy` reorders the steps: nothing is lost or duplicated. */
  lemma HierarchyPermutes(steps: seq<Step>)
    requires WellFormed(steps)
    ensures multiset(CalculateHierarchy(steps)) == multiset(steps)
  {
  }

  /** The steps the walk reaches are those with a chain from the root. */
  lemma VisitedReached(steps: seq<Step>)
    requires WellFormed(steps)
    ensures forall t :: t in Visited(steps) <==> Reached(steps, t)
  {
    forall t ensures t in Visited(steps) <==> Reached(steps, t) {
      VisitedIffChain(steps, t);
    }
  }

  /** The walk emits the reached steps in pre-order. */
  lemma VisitedPreOrder(steps: seq<Step>)
    requires WellFormed(steps)
    ensures forall i, j :: 0 <= i < j < |Visited(steps)| ==> PreOrdered(steps, Visited(steps)[i], Visited(steps)[j])
  {
    ForestPreOrder(steps, Group(steps, RootId), []);
  }

  /** Two runs joined: every element of `v` satisfies `P` and none of `l`
      does, and each run is pairwise ordered by its own relation. */
  lemma JoinRuns<T>(P: T -> bool, R: (T, T) -> bool, Q: (T, T) -> bool, v: seq<T>, l: seq<T>)
    requires forall t :: t in v ==> P(t)
    requires forall t :: t in l ==> !P(t)
    requires forall i, j :: 0 <= i < j < |v| ==> R(v[i], v[j])
    requires forall i, j :: 0 <= i < j < |l| ==> Q(l[i], l[j])
    ensures forall i, j :: 0 <= i < j < |v + l| && P((v + l)[j]) ==> P((v + l)[i]) && R((v + l)[i], (v + l)[j])
    ensures forall i, j :: 0 <= i < j < |v + l| && !P((v + l)[i]) ==> Q((v + l)[i], (v + l)[j])
  {
    var h := v + l;
    forall j | |v| <= j < |h| ensures !P(h[j]) {
      assert h[j] == l[j - |v|];
    }
    forall i | 0 <= i < |v| ensures P(h[i]) && h[i] == v[i] {
    }
    forall i, j | 0 <= i < j < |h| && P(h[j]) ensures P(h[i]) && R(h[i], h[j]) {
      assert h[i] == v[i] && h[j] == v[j];
    }
    forall i, j | 0 <= i < j < |h| && !P(h[i]) ensures Q(h[i], h[j]) {
      assert h[i] == l[i - |v|] && h[j] == l[j - |v|];
    }
  }

  /** The order of the two parts: reached before not reached, reached in
      pre-order, the rest in input order. */
  lemma PartsOrdered(steps: seq<Step>)
    requires WellFormed(steps)
    ensures var h := Visited(steps) + Leftover(steps, Visited(steps));
            && (forall i, j :: 0 <= i < j < |h| && Reached(steps, h[j]) ==> Reached(steps, h[i]))
            && (forall i, j :: 0 <= i < j < |h| && Reached(steps, h[j]) ==> PreOrdered(steps, h[i], h[j]))
            && (forall i, j :: 0 <= i < j < |h| && !Reached(steps, h[i]) ==> Before(steps, h[i], h[j]))
  {
    var v := Visited(steps);
    var l := Leftover(steps, v);
    VisitedReached(steps);
    VisitedPreOrder(steps);
    JoinRuns(t => Reached(steps, t), (x, y) => PreOrdered(steps, x, y), (x, y) => Before(steps, x, y), v, l);
  }

  /** Step `t` is reached: a chain of parent links leads to it from the root group. */
  ghost predicate Reached(steps: seq<Step>, t: Step) {
    exists c :: IsChain(steps, c) && c[|c| - 1] == t
  }

  /** The reached steps come first; the steps that are not reached follow,
      in their original order. */
  lemma HierarchyOrder(steps: seq<Step>)
    requires WellFormed(steps)
    ensures |Visited(steps)| <= |CalculateHierarchy(steps)|
    ensures forall t :: t in CalculateHierarchy(steps)[..|Visited(steps)|] <==> Reached(steps, t)
    ensures forall t :: t in CalculateHierarchy(steps)[|Visited(steps)|..] <==> t in steps && !Reached(steps, t)
    ensures InOrderOf(CalculateHierarchy(steps)[|Visited(steps)|..], steps)
  {
    var h, v := CalculateHierarchy(steps), Visited(steps);
    assert h[..|v|] == v && h[|v|..] == Leftover(steps, v);
    forall t ensures t in v <==> Reached(steps, t) {
      VisitedIffChain(steps, t);
    }
  }

  /** A reached step is in the root group or in the group of a step. */
  lemma ReachedKey(steps: seq<Step>, t: Step)
    requires WellFormed(steps)
    ensures t in Visited(steps) ==>
              ParentKey(steps, t) == RootId || exists s :: s in steps && s.id == ParentKey(steps, t)
  {
    VisitedIffChain(steps, t);
    if t in Visited(steps) {
      var c :| IsChain(steps, c) && c[|c| - 1] == t;
      if |c| > 1 {
        assert c[|c| - 2] in c;
      }
    }
  }

  /** A step whose one consumer is not a step is never placed in the tree
      (unless some step happens to be called `undefined`): it is left over. */
  lemma DanglingLeftOver(steps: seq<Step>, t: Step)
    requires WellFormed(steps) && t in steps
    requires forall s :: s in steps ==> s.id != UndefinedKey
    requires ParentKey(steps, t) == UndefinedKey
    ensures t !in Visited(steps) && t in Leftover(steps, Visited(steps))
  {
    ReachedKey(steps, t);
  }

  /** Two equal entries at different positions count twice. */
  lemma TwoCopies<T>(b: seq<T>, i: nat, j: nat)
    requires i < j < |b|
    ensures b[i] == b[j] ==> multiset(b)[b[i]] >= 2
  {
    assert b == b[..j] + [b[j]] + b[j + 1..];
    assert b[..j][i] == b[i];
  }

  /** Rows of a reordering of well-formed steps still have distinct ids. */
  lemma PermutedIdsDiffer(a: seq<Step>, b: seq<Step>, i: nat, j: nat)
    requires WellFormed(a) && multiset(a) == multiset(b) && i < j < |b|
    ensures b[i].id != b[j].id
  {
    assert b[i] in multiset(a) && b[j] in multiset(a);
    UniqueDistinct(a);
    DistinctCount(a, b[i]);
    TwoCopies(b, i, j);
    SameIdOrNot(a, b[i], b[j]);
  }

  /** Two steps of `a` with one id are the same step. */
  lemma SameIdOrNot(a: seq<Step>, x: Step, y: Step)
    requires UniqueIds(a) && x in a && y in a
    ensures x.id == y.id ==> x == y
  {
    var i :| 0 <= i < |a| && a[i] == x;
    var j :| 0 <= j < |a| && a[j] == y;
  }

  /** Reordering keeps the steps well formed. */
  lemma WellFormedPermutation(a: seq<Step>, b: seq<Step>)
    requires WellFormed(a) && multiset(a) == multiset(b)
    ensures WellFormed(b)
  {
    forall i, j | 0 <= i < j < |b| ensures b[i].id != b[j].id {
      PermutedIdsDiffer(a, b, i, j);
    }
    forall s | s in b ensures s.id != RootId {
      assert s in multiset(a);
    }
  }

  /** Well-formedness only looks at the ids. */
  lemma WellFormedIds(a: seq<Step>, b: seq<Step>)
    requires WellFormed(a) && Ids(a) == Ids(b)
    ensures WellFormed(b)
  {
    forall s | s in b ensures s.id != RootId {
      var k :| 0 <= k < |b| && b[k] == s;
      assert Ids(b)[k] == Ids(a)[k];
      assert a[k] in a;
    }
    forall i, j | 0 <= i < j < |b| ensures b[i].id != b[j].id {
      assert Ids(b)[i] == Ids(a)[i] && Ids(b)[j] == Ids(a)[j];
    }
  }

  /** The group a step joins, case by case: the root when it has no
      consumers map, a `''` entry, several consumers or only itself; the
      consumer's step when that is another step; the key of `undefined`
      when the map is empty or its one consumer is not a step. */
  lemma ParentKeyCases(steps: seq<Step>, t: Step)
    requires WellFormed(steps) && t in steps
    ensures t.parents.None? || RootId in t.parents.value || |t.parents.value| > 1
            ==> ParentKey(steps, t) == RootId
    ensures t.parents.Some? && t.parents.value.Keys == {t.id} ==> ParentKey(steps, t) == RootId
    ensures t.parents.Some? && |t.parents.value| == 0 ==> ParentKey(steps, t) == UndefinedKey
    ensures forall s :: s in steps && s.id != t.id && t.parents.Some? && t.parents.value.Keys == {s.id}
              ==> ParentKey(steps, t) == s.id
    ensures t.parents.Some? && |t.parents.value| == 1 && RootId !in t.parents.value
            && (forall s :: s in steps ==> t.parents.value.Keys != {s.id})
            ==> ParentKey(steps, t) == UndefinedKey
  {
    if t.parents.Some? && |t.parents.value| == 1 {
      var k := SoleKey(t.parents.value);
      match FindById(steps, k)
      case None =>
      case Some(q) =>
        assert t.parents.value.Keys == {q.id};
        SameIdOrNot(steps, q, t);
    }
    forall s | s in steps && s.id != t.id && t.parents.Some? && t.parents.value.Keys == {s.id}
      ensures ParentKey(steps, t) == s.id
    {
      assert RootId !in t.parents.value;
      var q := FindById(steps, s.id).value;
      SameIdOrNot(steps, q, s);
    }
  }

  lemma BeforeLeft(b: seq<Step>, c: seq<Step>, p: Step, t: Step)
    requires Before(b, p, t)
    ensures Before(b + c, p, t)
  {
    var i, j :| 0 <= i < j < |b| && b[i] == p && b[j] == t;
    assert (b + c)[i] == p && (b + c)[j] == t;
  }

  lemma BeforeRight(a: seq<Step>, b: seq<Step>, p: Step, t: Step)
    requires Before(b, p, t)
    ensures Before(a + b, p, t)
  {
    var i, j :| 0 <= i < j < |b| && b[i] == p && b[j] == t;
    assert (a + b)[|a| + i] == p && (a + b)[|a| + j] == t;
  }

  lemma BeforeHead(p: Step, sub: seq<Step>, t: Step)
    requires t in sub
    ensures Before([p] + sub, p, t)
  {
    var j :| 0 <= j < |sub| && sub[j] == t;
    assert ([p] + sub)[0] == p && ([p] + sub)[1 + j] == t;
  }

  /** In `Forest`, a reached step comes before every step of its group. */
  lemma {:induction false} ForestParentFirst(steps: seq<Step>, kids: seq<Step>, path: seq<Step>, p: Step, t: Step)
    requires WellFormed(steps) && Frontier(steps, kids, path)
    requires p in Forest(steps, kids, path) && t in steps && ParentKey(steps, t) == p.id
    ensures Before(Forest(steps, kids, path), p, t)
    decreases |steps| - |path|, |kids|
  {
    var k := kids[0];
    Extend(steps, path, k);
    var g := Group(steps, k.id);
    var sub := Forest(steps, g, path + [k]);
    var rest := Forest(steps, kids[1..], path);
    assert Forest(steps, kids, path) == [k] + sub + rest;
    if p == k {
      assert t in sub by {
        assert t in g;
        ForestContains(steps, g, path + [k], t);
      }
      BeforeHead(k, sub, t);
      BeforeLeft([k] + sub, rest, p, t);
    } else if p in sub {
      assert Before(sub, p, t) by {
        ForestParentFirst(steps, g, path + [k], p, t);
      }
      BeforeRight([k], sub, p, t);
      BeforeLeft([k] + sub, rest, p, t);
    } else {
      assert Before(rest, p, t) by {
        ForestParentFirst(steps, kids[1..], path, p, t);
      }
      BeforeRight([k] + sub, rest, p, t);
    }
  }

  /** Children follow their parent: a reached step comes before every step
      whose group is its own. */
  lemma ParentPrecedes(steps: seq<Step>, p: Step, t: Step)
    requires WellFormed(steps) && p in Visited(steps) && t in steps && ParentKey(steps, t) == p.id
    ensures Before(CalculateHierarchy(steps), p, t)
  {
    ForestParentFirst(steps, Group(steps, RootId), [], p, t);
    BeforeLeft(Visited(steps), Leftover(steps, Visited(steps)), p, t);
  }

  // --------------------------------------------------------------- pre-order

  /** Pre-order on root paths: `cx` is a proper prefix of `cy` (an ancestor
      comes before its descendants), or where the two paths first part,
      `cx`'s step comes earlier among the steps (siblings keep their input
      order). */
  ghost predicate PathBefore(steps: seq<Step>, cx: seq<Step>, cy: seq<Step>) {
    || (|cx| < |cy| && cy[..|cx|] == cx)
    || exists m :: 0 <= m < |cx| && m < |cy| && cx[..m] == cy[..m] && Before(steps, cx[m], cy[m])
  }

  /** `x` comes before `y` in the depth-first pre-order of the parent-link tree. */
  ghost predicate PreOrdered(steps: seq<Step>, x: Step, y: Step) {
    exists cx, cy :: IsChain(steps, cx) && IsChain(steps, cy) && cx[|cx| - 1] == x && cy[|cy| - 1] == y
                     && PathBefore(steps, cx, cy)
  }

  /** Two root paths in path order put their last steps in pre-order. */
  lemma PreOrderedBy(steps: seq<Step>, cx: seq<Step>, cy: seq<Step>)
    requires IsChain(steps, cx) && IsChain(steps, cy) && PathBefore(steps, cx, cy)
    ensures PreOrdered(steps, cx[|cx| - 1], cy[|cy| - 1])
  {
  }

  /** A sequence is ordered by `R` pairwise once its head precedes its
      middle, both precede its tail, and middle and tail each are. */
  lemma PairwiseJoin<T>(R: (T, T) -> bool, k: T, sub: seq<T>, rest: seq<T>)
    requires forall i, j :: 0 <= i < j < |sub| ==> R(sub[i], sub[j])
    requires forall i, j :: 0 <= i < j < |rest| ==> R(rest[i], rest[j])
    requires forall y :: y in sub ==> R(k, y)
    requires forall x, y :: x in [k] + sub && y in rest ==> R(x, y)
    ensures forall i, j :: 0 <= i < j < |[k] + sub + rest| ==> R(([k] + sub + rest)[i], ([k] + sub + rest)[j])
  {
    var f := [k] + sub + rest;
    forall i, j | 0 <= i < j < |f| ensures R(f[i], f[j]) {
      if j <= |sub| {
        assert f[j] == sub[j - 1];
        if i > 0 {
          assert f[i] == sub[i - 1];
        }
      } else {
        assert f[j] == rest[j - 1 - |sub|];
        if i <= |sub| {
          assert f[i] in [k] + sub by {
            assert f[i] == ([k] + sub)[i];
          }
        } else {
          assert f[i] == rest[i - 1 - |sub|];
        }
      }
    }
  }

  lemma InOrderTail<T>(r: seq<T>, s: seq<T>)
    requires InOrderOf(r, s) && r != []
    ensures InOrderOf(r[1..], s)
  {
    forall a, b | 0 <= a < b < |r| - 1 ensures Before(s, r[1..][a], r[1..][b]) {
      assert r[1..][a] == r[a + 1] && r[1..][b] == r[b + 1];
    }
  }

  /** The first kid is on its own branch. */
  lemma HeadOnBranch(steps: seq<Step>, kids: seq<Step>, path: seq<Step>)
    requires WellFormed(steps) && Frontier(steps, kids, path) && kids != []
    ensures Below(steps, kids[0], [kids[0]], path)
  {
    var p := path + [kids[0]];
    Extend(steps, path, kids[0]);
    assert p[..|path|] == path && p[|path|] in [kids[0]] && p[|p| - 1] == kids[0];
  }

  /** A step below the first kid's group is on the first kid's branch. */
  lemma SubOnBranch(steps: seq<Step>, kids: seq<Step>, path: seq<Step>, x: Step)
    requires kids != [] && Below(steps, x, Group(steps, kids[0].id), path + [kids[0]])
    ensures Below(steps, x, [kids[0]], path)
  {
    var p := path + [kids[0]];
    var c :| IsChain(steps, c) && |c| > |p| && c[..|p|] == p && c[|p|] in Group(steps, kids[0].id) && c[|c| - 1] == x;
    PrefixParts(c, p, path, kids[0]);
  }

  /** The first kid comes before every step below it. */
  lemma HeadBeforeSub(steps: seq<Step>, kids: seq<Step>, path: seq<Step>, t: Step)
    requires WellFormed(steps) && Frontier(steps, kids, path) && kids != []
    requires Below(steps, t, Group(steps, kids[0].id), path + [kids[0]])
    ensures PreOrdered(steps, kids[0], t)
  {
    var p := path + [kids[0]];
    Extend(steps, path, kids[0]);
    var c :| IsChain(steps, c) && |c| > |p| && c[..|p|] == p && c[|p|] in Group(steps, kids[0].id) && c[|c| - 1] == t;
    PreOrderedBy(steps, p, c);
  }

  /** A step on the first kid's branch comes before a step on a later kid's. */
  lemma BranchBefore(steps: seq<Step>, kids: seq<Step>, path: seq<Step>, x: Step, t: Step)
    requires InOrderOf(kids, steps) && kids != []
    requires Below(steps, x, [kids[0]], path) && Below(steps, t, kids[1..], path)
    ensures PreOrdered(steps, x, t)
  {
    var cx :| IsChain(steps, cx) && |cx| > |path| && cx[..|path|] == path && cx[|path|] in [kids[0]] && cx[|cx| - 1] == x;
    var c :| IsChain(steps, c) && |c| > |path| && c[..|path|] == path && c[|path|] in kids[1..] && c[|c| - 1] == t;
    var m :| 0 <= m < |kids| - 1 && kids[1..][m] == c[|path|];
    assert kids[m + 1] == c[|path|] && cx[|path|] == kids[0];
    assert Before(steps, cx[|path|], c[|path|]);
    assert PathBefore(steps, cx, c);
    PreOrderedBy(steps, cx, c);
  }

  /** `sortRecursive` emits the steps below `path` in pre-order. */
  lemma {:induction false} ForestPreOrder(steps: seq<Step>, kids: seq<Step>, path: seq<Step>)
    requires WellFormed(steps) && Frontier(steps, kids, path) && InOrderOf(kids, steps)
    ensures forall i, j :: 0 <= i < j < |Forest(steps, kids, path)| ==>
              PreOrdered(steps, Forest(steps, kids, path)[i], Forest(steps, kids, path)[j])
    decreases |steps| - |path|, |kids|
  {
    if kids != [] {
      var k := kids[0];
      Extend(steps, path, k);
      var p := path + [k];
      var g := Group(steps, k.id);
      var sub := Forest(steps, g, p);
      var rest := Forest(steps, kids[1..], path);
      var f := Forest(steps, kids, path);
      assert f == [k] + sub + rest;
      ForestPreOrder(steps, g, p);
      InOrderTail(kids, steps);
      ForestPreOrder(steps, kids[1..], path);
      ForestBelow(steps, g, p);
      ForestBelow(steps, kids[1..], path);
      forall y | y in sub ensures PreOrdered(steps, k, y) {
        HeadBeforeSub(steps, kids, path, y);
      }
      forall x | x in [k] + sub ensures Below(steps, x, [k], path) {
        if x == k {
          HeadOnBranch(steps, kids, path);
        } else {
          SubOnBranch(steps, kids, path, x);
        }
      }
      forall x, y | x in [k] + sub && y in rest ensures PreOrdered(steps, x, y) {
        BranchBefore(steps, kids, path, x, y);
      }
      PairwiseJoin((x, y) => PreOrdered(steps, x, y), k, sub, rest);
    }
  }

  // ----------------------------------------------- consequences of the order

  /** With unique ids, `Before` is a strict order on the steps. */
  lemma BeforeStrict(steps: seq<Step>)
    requires UniqueIds(steps)
    ensures forall a, b :: Before(steps, a, b) ==> a != b && !Before(steps, b, a)
  {
    UniqueDistinct(steps);
  }

  /** Two root paths ending in steps of the same group share everything but
      their last step. */
  lemma SiblingPaths(steps: seq<Step>, cx: seq<Step>, cy: seq<Step>)
    requires WellFormed(steps) && IsChain(steps, cx) && IsChain(steps, cy)
    requires ParentKey(steps, cx[|cx| - 1]) == ParentKey(steps, cy[|cy| - 1])
    ensures |cx| == |cy| && cx[..|cx| - 1] == cy[..|cy| - 1]
  {
    if |cx| > 1 {
      ChainTail(steps, cx);
    }
    if |cy| > 1 {
      ChainTail(steps, cy);
    }
    if |cx| > 1 && |cy| > 1 {
      var a, b := cx[..|cx| - 1], cy[..|cy| - 1];
      assert a[|a| - 1] == b[|b| - 1] by {
        assert cx[|cx| - 2] in cx && cy[|cy| - 2] in cy;
        SameId(steps, cx[|cx| - 2], cy[|cy| - 2]);
      }
      ChainPrefix(steps, cx, |cx| - 1);
      ChainPrefix(steps, cy, |cy| - 1);
      ChainUnique(steps, a, b);
    }
  }

  /** A step in the group of a reached step is reached too. */
  lemma SiblingReached(steps: seq<Step>, x: Step, y: Step)
    requires WellFormed(steps) && Reached(steps, x)
    requires y in steps && ParentKey(steps, y) == ParentKey(steps, x)
    ensures Reached(steps, y)
  {
    var c :| IsChain(steps, c) && c[|c| - 1] == x;
    var path := c[..|c| - 1];
    if |c| > 1 {
      ChainPrefix(steps, c, |c| - 1);
      assert ParentKey(steps, x) == Tip(path);
    }
    Extend(steps, path, y);
    assert (path + [y])[|path|] == y;
  }

  /** Root paths that differ only in their last step are in path order only
      when their last steps are in input order. */
  lemma LastDiffers(steps: seq<Step>, cx: seq<Step>, cy: seq<Step>)
    requires UniqueIds(steps) && |cx| == |cy| > 0 && cx[..|cx| - 1] == cy[..|cy| - 1]
    requires PathBefore(steps, cx, cy)
    ensures Before(steps, cx[|cx| - 1], cy[|cy| - 1])
  {
    var n := |cx| - 1;
    forall q | 0 <= q < n ensures cx[q] == cy[q] {
      assert cx[q] == cx[..n][q] && cy[q] == cy[..n][q];
    }
    BeforeStrict(steps);
  }

  /** Sibling order: steps of one group keep their input order in
      `calculateHierarchy`'s result. */
  lemma SiblingOrder(steps: seq<Step>)
    requires WellFormed(steps)
    ensures var r := CalculateHierarchy(steps);
            forall i, j :: 0 <= i < j < |r| && ParentKey(steps, r[i]) == ParentKey(steps, r[j])
              ==> Before(steps, r[i], r[j])
  {
    var r := CalculateHierarchy(steps);
    forall i, j | 0 <= i < j < |r| && ParentKey(steps, r[i]) == ParentKey(steps, r[j])
      ensures Before(steps, r[i], r[j])
    {
      if Reached(steps, r[i]) {
        assert r[j] in steps by {
          assert r[j] in multiset(r);
        }
        SiblingReached(steps, r[i], r[j]);
        var cx, cy :| && IsChain(steps, cx) && IsChain(steps, cy)
                      && cx[|cx| - 1] == r[i] && cy[|cy| - 1] == r[j] && PathBefore(steps, cx, cy);
        SiblingPaths(steps, cx, cy);
        LastDiffers(steps, cx, cy);
      }
    }
  }

  /** `t` lies in the subtree of `p`: `p` is on `t`'s root path, above it. */
  ghost predicate Descends(steps: seq<Step>, t: Step, p: Step) {
    exists c :: IsChain(steps, c) && c[|c| - 1] == t && p in c[..|c| - 1]
  }

  /** A root path never comes after one of its own proper prefixes. */
  lemma PrefixNotAfter(steps: seq<Step>, c: seq<Step>, n: nat)
    requires UniqueIds(steps) && n < |c|
    ensures !PathBefore(steps, c, c[..n])
  {
    forall q | 0 <= q < n ensures c[..n][q] == c[q] {
    }
    BeforeStrict(steps);
  }

  /** A path that comes after `cx` but before an extension `cz` of `cx`
      extends `cx` as well. */
  lemma BetweenExtends(steps: seq<Step>, cx: seq<Step>, cy: seq<Step>, cz: seq<Step>)
    requires UniqueIds(steps)
    requires PathBefore(steps, cx, cy) && PathBefore(steps, cy, cz)
    requires |cx| < |cz| && cz[..|cx|] == cx
    ensures |cx| < |cy| && cy[..|cx|] == cx
  {
    BeforeStrict(steps);
    forall q | 0 <= q < |cx| ensures cz[q] == cx[q] {
      assert cz[..|cx|][q] == cz[q];
    }
    forall m | 0 <= m < |cx| && m < |cy| && cx[..m] == cy[..m]
      ensures !Before(steps, cx[m], cy[m])
    {
      forall q | 0 <= q < m ensures cy[q] == cx[q] {
        assert cx[..m][q] == cy[..m][q];
      }
      if |cy| < |cz| && cz[..|cy|] == cy {
        assert cz[..|cy|][m] == cz[m];
      } else {
        var m2 :| 0 <= m2 < |cy| && m2 < |cz| && cy[..m2] == cz[..m2] && Before(steps, cy[m2], cz[m2]);
        forall q | 0 <= q < m2 ensures cy[q] == cz[q] {
          assert cy[..m2][q] == cz[..m2][q];
        }
      }
    }
  }

  /** Root paths are unique, so steps in pre-order have their own root
      paths in path order. */
  lemma PreOrderedPaths(steps: seq<Step>, cx: seq<Step>, cy: seq<Step>)
    requires WellFormed(steps) && IsChain(steps, cx) && IsChain(steps, cy)
    requires PreOrdered(steps, cx[|cx| - 1], cy[|cy| - 1])
    ensures PathBefore(steps, cx, cy)
  {
    var ax, ay :| && IsChain(steps, ax) && IsChain(steps, ay)
                  && ax[|ax| - 1] == cx[|cx| - 1] && ay[|ay| - 1] == cy[|cy| - 1] && PathBefore(steps, ax, ay);
    ChainUnique(steps, ax, cx);
    ChainUnique(steps, ay, cy);
  }

  /** In a result ordered like `calculateHierarchy`'s, a step on a root
      path comes before the path's last step. */
  lemma AncestorEarlier(steps: seq<Step>, r: seq<Step>, c: seq<Step>, q: nat, i: nat, j: nat)
    requires WellFormed(steps) && IsChain(steps, c) && q < |c| - 1
    requires forall a, b :: 0 <= a < b < |r| && Reached(steps, r[b]) ==> PreOrdered(steps, r[a], r[b])
    requires i < |r| && j < |r| && r[i] == c[q] && r[j] == c[|c| - 1]
    ensures i < j
  {
    ChainDistinct(steps, c);
    ChainPrefix(steps, c, q + 1);
    var cw := c[..q + 1];
    assert cw[|cw| - 1] == r[i];
    if j < i {
      assert PreOrdered(steps, r[j], r[i]) by {
        assert Reached(steps, r[i]);
      }
      PreOrderedPaths(steps, c, cw);
      PrefixNotAfter(steps, c, q + 1);
    }
  }

  /** Subtree contiguity: in `calculateHierarchy`'s result no step of a
      subtree comes at or before its top, and every row between the top and
      a step of its subtree is in the subtree too. So each reached step is
      followed directly by its whole subtree. */
  lemma SubtreeFollows(steps: seq<Step>)
    requires WellFormed(steps)
    ensures var r := CalculateHierarchy(steps);
            forall i, j :: 0 <= j <= i < |r| ==> !Descends(steps, r[j], r[i])
    ensures var r := CalculateHierarchy(steps);
            forall i, m, j :: 0 <= i < m < j < |r| && Descends(steps, r[j], r[i]) ==> Descends(steps, r[m], r[i])
  {
    var r := CalculateHierarchy(steps);
    forall i, j | 0 <= j <= i < |r| ensures !Descends(steps, r[j], r[i]) {
      forall c | IsChain(steps, c) && c[|c| - 1] == r[j] ensures r[i] !in c[..|c| - 1] {
        if r[i] in c[..|c| - 1] {
          var q :| 0 <= q < |c| - 1 && c[..|c| - 1][q] == r[i];
          AncestorEarlier(steps, r, c, q, i, j);
        }
      }
    }
    forall i, m, j | 0 <= i < m < j < |r| && Descends(steps, r[j], r[i])
      ensures Descends(steps, r[m], r[i])
    {
      assert Reached(steps, r[m]) by {
        assert Reached(steps, r[j]);
      }
      SubtreeBetween(steps, r[i], r[m], r[j]);
    }
  }

  /** Where `x` sits on the root path of its descendant `z`. */
  lemma AncestorAt(steps: seq<Step>, x: Step, z: Step) returns (c: seq<Step>, q: nat)
    requires Descends(steps, z, x)
    ensures IsChain(steps, c) && c[|c| - 1] == z && q < |c| - 1 && c[q] == x
    ensures IsChain(steps, c[..q + 1]) && c[..q + 1][q] == x
  {
    c :| IsChain(steps, c) && c[|c| - 1] == z && x in c[..|c| - 1];
    var k :| 0 <= k < |c| - 1 && c[..|c| - 1][k] == x;
    q := k;
    ChainPrefix(steps, c, q + 1);
  }

  /** A step on a root path, above its end, is an ancestor of the end. */
  lemma DescendsAt(steps: seq<Step>, c: seq<Step>, q: nat)
    requires IsChain(steps, c) && q < |c| - 1
    ensures Descends(steps, c[|c| - 1], c[q])
  {
    assert c[..|c| - 1][q] == c[q];
  }

  /** One step of `SubtreeFollows`: a reached step `y` that comes after `x`
      and before one of `x`'s descendants `z` in pre-order descends from `x`
      too. */
  lemma SubtreeBetween(steps: seq<Step>, x: Step, y: Step, z: Step)
    requires WellFormed(steps) && Descends(steps, z, x) && Reached(steps, y)
    requires PreOrdered(steps, x, y) && PreOrdered(steps, y, z)
    ensures Descends(steps, y, x)
  {
    var c, q := AncestorAt(steps, x, z);
    var cx := c[..q + 1];
    var cy :| IsChain(steps, cy) && cy[|cy| - 1] == y;
    PreOrderedPaths(steps, cx, cy);
    PreOrderedPaths(steps, cy, c);
    BetweenExtends(steps, cx, cy, c);
    assert cy[q] == x by {
      assert cy[..|cx|][q] == cy[q];
    }
    DescendsAt(steps, cy, q);
  }
}
