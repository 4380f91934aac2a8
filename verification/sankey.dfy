/** `sortBySankey`: build the item/recipe graph of the steps, take each
    step's depth from the laid-out diagram, and stably sort the steps with
    output rows first and deeper rows before shallower ones. The layout
    algorithm itself is a parameter: `layout` maps a node id to the depth
    the diagram gives it. */
module Sankey {
  import opened Wrappers
  import opened Model

  /** A diagram node: `i|<item>` or `r|<recipe>`, with the step it stands for. */
  datatype Node = Node(id: string, stepId: string)

  /** A diagram link between two node ids. */
  datatype Link = Link(source: string, target: string)

  /** Output rows rank above any depth. */
  const OutputRank: int := 100000

  /** The nodes one step contributes: its item node, then its recipe node. */
  function StepNodes(s: Step): seq<Node> {
    (if Truthy(s.itemId) then [Node("i|" + s.itemId.value, s.id)] else [])
    + (if Truthy(s.recipeId) then [Node("r|" + s.recipeId.value, s.id)] else [])
  }

  /** All nodes, in step order. */
  function Nodes(steps: seq<Step>): (r: seq<Node>)
    ensures |r| == 0 <==> forall i :: 0 <= i < |steps| ==> StepNodes(steps[i]) == []
  {
    if steps == [] then []
    else
      var rest := Nodes(steps[1..]);
      assert forall i :: 1 <= i < |steps| ==> steps[1..][i - 1] == steps[i];
      StepNodes(steps[0]) + rest
  }

  /** `stepMap[id]`: the step the id-keyed table holds, the last with that id. */
  function StepById(steps: seq<Step>, id: string): (r: Option<Step>)
    ensures r.Some? <==> id in Ids(steps)
    ensures r.Some? ==> r.value in steps && r.value.id == id
    ensures r.Some? ==> exists i :: 0 <= i < |steps| && steps[i] == r.value
                                    && forall j :: i < j < |steps| ==> steps[j].id != id
  {
    if steps == [] then None
    else if steps[|steps| - 1].id == id then Some(steps[|steps| - 1])
    else
      var front := steps[..|steps| - 1];
      assert Ids(steps) == Ids(front) + [steps[|steps| - 1].id];
      assert forall j :: 0 <= j < |front| ==> front[j] == steps[j];
      StepById(front, id)
  }

  /** The table lookups the link-building loop makes without a guard succeed:
      every consumer id (other than the empty root id) of an item step names
      a step. */
  predicate SankeyDefined(steps: seq<Step>) {
    forall i, k :: (0 <= i < |steps| && Truthy(steps[i].itemId) && steps[i].parents.Some?
                    && k in steps[i].parents.value && k != "") ==> k in Ids(steps)
  }

  /** Links from an item node to the recipe nodes of its consumers. */
  function ItemLinks(steps: seq<Step>): set<Link>
    requires SankeyDefined(steps)
  {
    set i, k | 0 <= i < |steps| && Truthy(steps[i].itemId) && steps[i].parents.Some?
               && k in steps[i].parents.value && k != ""
               && StepById(steps, k).value.recipeId.Some?
             :: Link("i|" + steps[i].itemId.value, "r|" + StepById(steps, k).value.recipeId.value)
  }

  /** Links from a recipe node to the item nodes it outputs. */
  function RecipeLinks(steps: seq<Step>): set<Link> {
    set i, k | 0 <= i < |steps| && Truthy(steps[i].recipeId) && steps[i].outputs.Some?
               && k in steps[i].outputs.value
             :: Link("r|" + steps[i].recipeId.value, "i|" + k)
  }

  function Links(steps: seq<Step>): set<Link>
    requires SankeyDefined(steps)
  {
    ItemLinks(steps) + RecipeLinks(steps)
  }

  /** `result.nodes.find((n) => n.stepId === id)`. */
  function FirstNode(nodes: seq<Node>, stepId: string): (r: Option<Node>)
    ensures r.Some? ==> r.value in nodes && r.value.stepId == stepId
    ensures r.None? ==> forall n :: n in nodes ==> n.stepId != stepId
    ensures r.Some? ==> exists i :: 0 <= i < |nodes| && nodes[i] == r.value
                                    && forall j :: 0 <= j < i ==> nodes[j].stepId != stepId
  {
    if nodes == [] then None
    else if nodes[0].stepId == stepId then Some(nodes[0])
    else FirstNode(nodes[1..], stepId)
  }

  /** Every node stands for one of the steps. */
  lemma {:induction false} NodeOfStep(steps: seq<Step>, n: Node)
    requires n in Nodes(steps)
    ensures n.stepId in Ids(steps)
  {
    if n in StepNodes(steps[0]) {
      assert Ids(steps)[0] == n.stepId;
    } else {
      NodeOfStep(steps[1..], n);
      var k :| 0 <= k < |steps| - 1 && Ids(steps[1..])[k] == n.stepId;
      assert Ids(steps)[k + 1] == n.stepId;
    }
  }

  /** A search through two node lists finds the first list's node if it has one. */
  lemma {:induction false} FirstNodeAppend(a: seq<Node>, b: seq<Node>, id: string)
    ensures FirstNode(a + b, id) == if FirstNode(a, id).Some? then FirstNode(a, id) else FirstNode(b, id)
  {
    if a == [] {
      assert a + b == b;
    } else {
      assert (a + b)[0] == a[0] && (a + b)[1..] == a[1..] + b;
      FirstNodeAppend(a[1..], b, id);
    }
  }

  /** No node is found for an id that is not a step's. */
  lemma NoNodeOf(steps: seq<Step>, id: string)
    requires id !in Ids(steps)
    ensures FirstNode(Nodes(steps), id) == None
  {
    forall n | n in Nodes(steps) ensures n.stepId != id {
      NodeOfStep(steps, n);
    }
  }

  /** With unique ids, the node found for a step is the first node it
      contributes itself: its item node, else its recipe node. */
  lemma {:induction false} FirstNodeOfStep(steps: seq<Step>, i: nat)
    requires UniqueIds(steps) && i < |steps|
    ensures FirstNode(Nodes(steps), steps[i].id) == if StepNodes(steps[i]) == [] then None else Some(StepNodes(steps[i])[0])
  {
    var own, rest := StepNodes(steps[0]), Nodes(steps[1..]);
    FirstNodeAppend(own, rest, steps[i].id);
    if i == 0 {
      if own == [] {
        assert steps[0].id !in Ids(steps[1..]) by {
          forall j | 0 <= j < |steps| - 1 ensures Ids(steps[1..])[j] != steps[0].id {
            assert steps[1..][j] == steps[j + 1];
          }
        }
        NoNodeOf(steps[1..], steps[0].id);
      }
    } else {
      assert FirstNode(own, steps[i].id) == None by {
        assert steps[0].id != steps[i].id;
      }
      assert UniqueIds(steps[1..]) && steps[1..][i - 1] == steps[i] by {
        assert forall j :: 0 <= j < |steps| - 1 ==> steps[1..][j] == steps[j + 1];
      }
      FirstNodeOfStep(steps[1..], i - 1);
    }
  }

  /** `FirstNodeOfStep` for every step at once. */
  lemma FirstNodesOfSteps(steps: seq<Step>)
    ensures UniqueIds(steps) ==> forall i :: 0 <= i < |steps| ==>
              FirstNode(Nodes(steps), steps[i].id) == if StepNodes(steps[i]) == [] then None else Some(StepNodes(steps[i])[0])
  {
    if UniqueIds(steps) {
      forall i | 0 <= i < |steps|
        ensures FirstNode(Nodes(steps), steps[i].id) == if StepNodes(steps[i]) == [] then None else Some(StepNodes(steps[i])[0])
      {
        FirstNodeOfStep(steps, i);
      }
    }
  }

  /** Each step's depth is its first node's depth in the layout; a step
      without a node gets none. */
  function WithDepths(steps: seq<Step>, layout: map<string, int>): (r: seq<Step>)
    ensures |r| == |steps|
    ensures forall i :: 0 <= i < |steps| ==> r[i] == steps[i].(depth := r[i].depth)
    ensures UniqueIds(steps) ==> forall i :: 0 <= i < |steps| ==>
              r[i].depth == if Truthy(steps[i].itemId) then Get(layout, "i|" + steps[i].itemId.value)
                            else if Truthy(steps[i].recipeId) then Get(layout, "r|" + steps[i].recipeId.value)
                            else None
  {
    FirstNodesOfSteps(steps);
    var nodes := Nodes(steps);
    seq(|steps|, i requires 0 <= i < |steps| =>
      steps[i].(depth := match FirstNode(nodes, steps[i].id)
                         case None => None
                         case Some(n) => Get(layout, n.id)))
  }

  /** `stepRank`: output rows first, then by depth (missing depth is 0). */
  function Rank(s: Step): (r: int)
    ensures s.output.Some? ==> r == OutputRank
    ensures s.output.None? && s.depth.Some? ==> r == s.depth.value
    ensures s.output.None? && s.depth.None? ==> r == 0
  {
    if s.output.Some? then OutputRank else s.depth.GetOr(0)
  }

  /** Non-increasing rank. */
  predicate RankSorted(s: seq<Step>) {
    forall i, j :: 0 <= i < j < |s| ==> Rank(s[i]) >= Rank(s[j])
  }

  /** The steps of rank `v`, in order. */
  function OfRank(s: seq<Step>, v: int): (r: seq<Step>)
    ensures forall x :: x in r ==> x in s && Rank(x) == v
  {
    if s == [] then [] else (if Rank(s[0]) == v then [s[0]] else []) + OfRank(s[1..], v)
  }

  /** Insert `x` in front of the first step it does not rank below. */
  function Insert(x: Step, t: seq<Step>): seq<Step> {
    if t == [] || Rank(x) >= Rank(t[0]) then [x] + t else [t[0]] + Insert(x, t[1..])
  }

  /** Stable sort on descending rank (`steps.sort((a, b) => stepRank(b) - stepRank(a))`;
      the standard sort is stable). */
  function RankSort(s: seq<Step>): (r: seq<Step>)
    ensures RankSorted(r)
    ensures multiset(r) == multiset(s)
  {
    if s == [] then []
    else
      var t := RankSort(s[1..]);
      InsertSorted(s[0], t);
      InsertPermutes(s[0], t);
      assert s == [s[0]] + s[1..];
      Insert(s[0], t)
  }

  lemma {:induction false} InsertPermutes(x: Step, t: seq<Step>)
    ensures multiset(Insert(x, t)) == multiset(t) + multiset{x}
  {
    if t != [] && Rank(x) < Rank(t[0]) {
      InsertPermutes(x, t[1..]);
      assert t == [t[0]] + t[1..];
    }
  }

  lemma {:induction false} InsertSorted(x: Step, t: seq<Step>)
    requires RankSorted(t)
    ensures RankSorted(Insert(x, t))
  {
    if t != [] && Rank(x) < Rank(t[0]) {
      assert RankSorted(t[1..]);
      InsertSorted(x, t[1..]);
      InsertPermutes(x, t[1..]);
      var rest := Insert(x, t[1..]);
      forall j | 0 <= j < |rest|
        ensures Rank(t[0]) >= Rank(rest[j])
      {
        assert rest[j] in multiset(rest);
        if rest[j] != x {
          assert rest[j] in multiset(t[1..]);
          var m :| 0 <= m < |t[1..]| && t[1..][m] == rest[j];
          assert t[m + 1] == rest[j];
        }
      }
      assert Insert(x, t) == [t[0]] + rest;
    }
  }

  lemma OfRankAppend(a: seq<Step>, b: seq<Step>, v: int)
    ensures OfRank(a + b, v) == OfRank(a, v) + OfRank(b, v)
  {
    if a != [] {
      assert (a + b)[0] == a[0];
      assert (a + b)[1..] == a[1..] + b;
      OfRankAppend(a[1..], b, v);
    } else {
      assert a + b == b;
    }
  }

  /** Inserting keeps the order among steps of equal rank: `x` comes before
      every step of its own rank already in `t`. */
  lemma {:induction false} InsertStable(x: Step, t: seq<Step>, v: int)
    requires RankSorted(t)
    ensures OfRank(Insert(x, t), v) == (if Rank(x) == v then [x] else []) + OfRank(t, v)
  {
    if t != [] && Rank(x) < Rank(t[0]) {
      assert RankSorted(t[1..]);
      InsertStable(x, t[1..], v);
      OfRankAppend([t[0]], Insert(x, t[1..]), v);
      if Rank(x) == v {
        assert OfRank([t[0]], v) == [];
        assert OfRank(t, v) == OfRank(t[1..], v) by {
          assert t == [t[0]] + t[1..];
          OfRankAppend([t[0]], t[1..], v);
        }
      } else {
        assert t == [t[0]] + t[1..];
        OfRankAppend([t[0]], t[1..], v);
      }
    } else {
      OfRankAppend([x], t, v);
    }
  }

  /** The rank sort orders by rank, is a permutation, and is stable. */
  lemma {:induction false} RankSortCorrect(s: seq<Step>)
    ensures RankSorted(RankSort(s))
    ensures multiset(RankSort(s)) == multiset(s)
    ensures forall v :: OfRank(RankSort(s), v) == OfRank(s, v)
  {
    if s != [] {
      RankSortCorrect(s[1..]);
      InsertSorted(s[0], RankSort(s[1..]));
      InsertPermutes(s[0], RankSort(s[1..]));
      assert s == [s[0]] + s[1..];
      forall v
        ensures OfRank(RankSort(s), v) == OfRank(s, v)
      {
        InsertStable(s[0], RankSort(s[1..]), v);
        OfRankAppend([s[0]], s[1..], v);
      }
    }
  }

  /** Whether the diagram is drawn at all: with no node or no link the
      steps keep their order and get no depth. */
  predicate HasDiagram(steps: seq<Step>)
    requires SankeyDefined(steps)
  {
    |Nodes(steps)| > 0 && |Links(steps)| > 0
  }

  /** `sortBySankey`. */
  function SortBySankey(steps: seq<Step>, layout: map<string, int>): (r: seq<Step>)
    requires SankeyDefined(steps)
    ensures !HasDiagram(steps) ==> r == steps
    ensures HasDiagram(steps) ==>
              && RankSorted(r)
              && multiset(r) == multiset(WithDepths(steps, layout))
              && forall v :: OfRank(r, v) == OfRank(WithDepths(steps, layout), v)
  {
    if !HasDiagram(steps) then steps
    else
      var d := WithDepths(steps, layout);
      RankSortCorrect(d);
      RankSort(d)
  }

  /** A step without an output ranks below the output rank once its depth
      is taken from a layout whose depths are all below it. */
  lemma DepthBelowOutput(steps: seq<Step>, layout: map<string, int>, k: nat)
    requires forall n :: n in layout ==> layout[n] < OutputRank
    requires k < |steps|
    ensures WithDepths(steps, layout)[k].output.None? ==> Rank(WithDepths(steps, layout)[k]) < OutputRank
  {
    var d := WithDepths(steps, layout);
    match FirstNode(Nodes(steps), steps[k].id)
    case None =>
    case Some(n) =>
      assert d[k].depth == Get(layout, n.id);
  }

  /** With every depth below the output rank, the rows with an output come
      first: no row without an output precedes one with it. */
  lemma OutputsFirst(steps: seq<Step>, layout: map<string, int>, i: nat, j: nat)
    requires SankeyDefined(steps) && HasDiagram(steps)
    requires forall n :: n in layout ==> layout[n] < OutputRank
    requires i < j < |SortBySankey(steps, layout)|
    requires SortBySankey(steps, layout)[j].output.Some?
    ensures SortBySankey(steps, layout)[i].output.Some?
  {
    var r := SortBySankey(steps, layout);
    var d := WithDepths(steps, layout);
    assert RankSorted(r) && multiset(r) == multiset(d);
    forall k | 0 <= k < |d| && d[k].output.None? ensures Rank(d[k]) < OutputRank {
      DepthBelowOutput(steps, layout, k);
    }
    SortedOutputsFirst(r, d, i, j);
  }

  /** In a rank-sorted permutation of rows whose non-output rows all rank
      below the output rank, an output row is preceded only by output rows. */
  lemma SortedOutputsFirst(r: seq<Step>, d: seq<Step>, i: nat, j: nat)
    requires RankSorted(r) && multiset(r) == multiset(d)
    requires forall k :: 0 <= k < |d| && d[k].output.None? ==> Rank(d[k]) < OutputRank
    requires i < j < |r| && r[j].output.Some?
    ensures r[i].output.Some?
  {
    assert r[i] in multiset(d);
    var k :| 0 <= k < |d| && d[k] == r[i];
  }
}
