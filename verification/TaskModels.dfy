/** The task graph handed to the orchestrator. */
module TaskModels {
  import opened Ids
  import opened Graph

  /** `inputFrom` is `[]` and `minRequired` is 0 when the wire object omits them; an omitted
      condition or compensation action is the empty string, which the source treats alike. */
  datatype DagNode = DagNode(
    id: Id,
    inputFrom: seq<Id>,
    minRequired: int,
    condition: seq<CodeUnit>,
    compensateAction: seq<CodeUnit>)

  datatype TaskDag = TaskDag(nodes: seq<DagNode>, edges: seq<Edge>)

  function IdsOf(nodes: seq<DagNode>): (r: seq<Id>)
    ensures |r| == |nodes|
    ensures forall i :: 0 <= i < |r| ==> r[i] == nodes[i].id
  {
    seq(|nodes|, i requires 0 <= i < |nodes| => nodes[i].id)
  }

  function NodeIds(dag: TaskDag): set<Id> {
    Members(IdsOf(dag.nodes))
  }

  /** Array.prototype.filter. */
  function Filter(s: seq<Id>, keep: Id -> bool): (r: seq<Id>)
    ensures forall x :: x in r <==> x in s && keep(x)
  {
    if s == [] then []
    else
      assert s == s[..|s| - 1] + [s[|s| - 1]];
      Filter(s[..|s| - 1], keep) + (if keep(s[|s| - 1]) then [s[|s| - 1]] else [])
  }

  lemma {:induction false} FilterDistinct(s: seq<Id>, keep: Id -> bool)
    requires Distinct(s)
    ensures Distinct(Filter(s, keep))
  {
    if s != [] {
      var n := |s| - 1;
      FilterDistinct(s[..n], keep);
      assert s[n] !in s[..n];
    }
  }

  /** Filtering keeps the relative order of what it keeps. */
  lemma {:induction false} FilterOrder(s: seq<Id>, keep: Id -> bool, i: nat, j: nat) returns (i': nat, j': nat)
    requires i < j < |Filter(s, keep)|
    ensures i' < j' < |s|
    ensures s[i'] == Filter(s, keep)[i] && s[j'] == Filter(s, keep)[j]
  {
    var n := |s| - 1;
    var front := Filter(s[..n], keep);
    if j < |front| {
      i', j' := FilterOrder(s[..n], keep, i, j);
    } else {
      j' := n;
      assert front[i] in front;
      var k :| 0 <= k < n && s[..n][k] == front[i];
      i' := k;
    }
  }

  lemma {:induction false} SameFilter(s: seq<Id>, keep: Id -> bool, keep': Id -> bool)
    requires forall x :: x in s ==> keep(x) == keep'(x)
    ensures Filter(s, keep) == Filter(s, keep')
  {
    if s != [] {
      SameFilter(s[..|s| - 1], keep, keep');
    }
  }

  function Reverse(s: seq<Id>): (r: seq<Id>)
    ensures |r| == |s|
    ensures forall i :: 0 <= i < |r| ==> r[i] == s[|s| - 1 - i]
    ensures forall x :: x in r <==> x in s
  {
    if s == [] then []
    else
      assert s == [s[0]] + s[1..];
      Reverse(s[1..]) + [s[0]]
  }

  /** Two of the filtered elements in reverse stand in the opposite order in the list. */
  lemma FilterReversed(s: seq<Id>, keep: Id -> bool, a: nat, b: nat) returns (b': nat, a': nat)
    requires a < b < |Filter(s, keep)|
    ensures b' < a' < |s|
    ensures Reverse(Filter(s, keep))[a] == s[a'] && Reverse(Filter(s, keep))[b] == s[b']
  {
    var n := |Filter(s, keep)|;
    b', a' := FilterOrder(s, keep, n - 1 - b, n - 1 - a);
  }
}
