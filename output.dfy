/**
 * The output of a paging job and its read-only projections (page.go).
 *
 * A tuple (OutputWithTag) holds one string per extraction slot; a tag maps to
 * the list of tuples every URL under that tag contributed (OutputListWithTag);
 * the whole output (PagingOutput) maps tags to those lists.
 */
module Outputs {

  type OutputWithTag = seq<string>
  type OutputListWithTag = seq<OutputWithTag>
  type PagingOutput = map<string, OutputListWithTag>

  /** `o[tag]` with Go's zero value (an empty list) for an absent tag. */
  function Get(o: PagingOutput, tag: string): OutputListWithTag
  {
    if tag in o then o[tag] else []
  }

  // ---------------------------------------------------------------------
  // TaskN at the three levels
  // ---------------------------------------------------------------------

  /** OutputWithTag.TaskN: slot i, or "" when the tuple has no slot i. A
      negative index panics in the source, hence the precondition. */
  function TupleTaskN(o: OutputWithTag, i: int): (r: string)
    requires 0 <= i
    ensures i < |o| ==> r == o[i]
    ensures |o| <= i ==> r == ""
  {
    if |o| <= i then "" else o[i]
  }

  /** OutputListWithTag.TaskN: the non-empty slot-i values, in list order.
      A negative index panics as soon as there is a tuple to read; on an
      empty list the source returns nil whatever the index. */
  function TupleListTaskN(o: OutputListWithTag, i: int): (r: seq<string>)
    requires o != [] ==> 0 <= i
    ensures |r| <= |o|
    ensures forall j :: 0 <= j < |r| ==> r[j] != ""
    ensures forall v :: v in r <==> v != "" && exists j :: 0 <= j < |o| && TupleTaskN(o[j], i) == v
  {
    if o == [] then []
    else
      var v := TupleTaskN(o[0], i);
      var rest := TupleListTaskN(o[1..], i);
      assert forall j :: 0 <= j < |o| - 1 ==> o[1..][j] == o[j + 1];
      (if v != "" then [v] else []) + rest
  }

  /** The values are kept in list order: the projection of a concatenation
      is the concatenation of the projections. */
  lemma {:induction false} TupleListTaskNAppend(a: OutputListWithTag, b: OutputListWithTag, i: int)
    requires a + b != [] ==> 0 <= i
    ensures TupleListTaskN(a + b, i) == TupleListTaskN(a, i) + TupleListTaskN(b, i)
  {
    if a != [] {
      assert (a + b)[1..] == a[1..] + b;
      TupleListTaskNAppend(a[1..], b, i);
    } else {
      assert a + b == b;
    }
  }

  /** Every tuple of the list has a slot i, so indexing each one with i does
      not panic; an empty list is never indexed, whatever i is. */
  predicate AllHaveSlot(l: OutputListWithTag, i: int)
  {
    (|l| > 0 ==> 0 <= i) && forall j :: 0 <= j < |l| ==> i < |l[j]|
  }

  /** Every tuple under every tag has a slot i. */
  predicate HasSlot(o: PagingOutput, i: int)
  {
    forall k :: k in o ==> AllHaveSlot(o[k], i)
  }

  /** Slot i of every tuple of a list, in order (the inner loop of TaskN and ListTaskN). */
  function Column(l: OutputListWithTag, i: int): (r: seq<string>)
    requires AllHaveSlot(l, i)
    ensures |r| == |l|
    ensures forall j :: 0 <= j < |l| ==> r[j] == l[j][i]
  {
    if l == [] then [] else [l[0][i]] + Column(l[1..], i)
  }

  lemma {:induction false} ColumnAppend(a: OutputListWithTag, b: OutputListWithTag, i: int)
    requires AllHaveSlot(a, i) && AllHaveSlot(b, i)
    ensures AllHaveSlot(a + b, i)
    ensures Column(a + b, i) == Column(a, i) + Column(b, i)
  {
    assert forall j :: 0 <= j < |a + b| ==> (a + b)[j] == if j < |a| then a[j] else b[j - |a|];
    var l, r := Column(a + b, i), Column(a, i) + Column(b, i);
    assert |l| == |r|;
    forall j | 0 <= j < |l| ensures l[j] == r[j] {
      if j < |a| { assert l[j] == a[j][i]; } else { assert l[j] == b[j - |a|][i]; }
    }
  }

  /** PagingOutput.TaskN: per tag, slot i of every tuple; a tag whose list is
      empty gets no entry, because the source only creates an entry when it
      appends to it. */
  function TaskN(o: PagingOutput, i: int): (r: map<string, OutputWithTag>)
    requires HasSlot(o, i)
    ensures forall k :: k in r <==> k in o && o[k] != []
    ensures forall k :: k in r ==> |r[k]| == |o[k]|
    ensures forall k, j :: k in r && 0 <= j < |o[k]| ==> r[k][j] == o[k][j][i]
  {
    map k | k in o && o[k] != [] :: Column(o[k], i)
  }

  // ---------------------------------------------------------------------
  // Size and contents of an output, independent of map iteration order
  // ---------------------------------------------------------------------

  /** The number of tuples under all tags. */
  ghost function TotalLen(o: PagingOutput): nat
    decreases |o.Keys|
  {
    if o == map[] then 0
    else
      var k :| k in o;
      assert (o - {k}).Keys == o.Keys - {k};
      |o[k]| + TotalLen(o - {k})
  }

  /** The multiset of tuples under all tags. */
  ghost function TotalBag(o: PagingOutput): multiset<OutputWithTag>
    decreases |o.Keys|
  {
    if o == map[] then multiset{}
    else
      var k :| k in o;
      assert (o - {k}).Keys == o.Keys - {k};
      multiset(o[k]) + TotalBag(o - {k})
  }

  /** TotalLen may peel off any tag first, not only the one it chose. */
  lemma {:induction false} TotalLenAt(o: PagingOutput, k: string)
    requires k in o
    ensures TotalLen(o) == |o[k]| + TotalLen(o - {k})
    decreases |o.Keys|
  {
    var c :| c in o && TotalLen(o) == |o[c]| + TotalLen(o - {c});
    if c != k {
      assert (o - {c}).Keys == o.Keys - {c};
      assert (o - {k}).Keys == o.Keys - {k};
      TotalLenAt(o - {c}, k);
      TotalLenAt(o - {k}, c);
      assert o - {c} - {k} == o - {k} - {c};
    }
  }

  /** TotalBag may peel off any tag first, not only the one it chose. */
  lemma {:induction false} TotalBagAt(o: PagingOutput, k: string)
    requires k in o
    ensures TotalBag(o) == multiset(o[k]) + TotalBag(o - {k})
    decreases |o.Keys|
  {
    var c :| c in o && TotalBag(o) == multiset(o[c]) + TotalBag(o - {c});
    if c != k {
      assert (o - {c}).Keys == o.Keys - {c};
      assert (o - {k}).Keys == o.Keys - {k};
      TotalBagAt(o - {c}, k);
      TotalBagAt(o - {k}, c);
      assert o - {c} - {k} == o - {k} - {c};
    }
  }

  // ---------------------------------------------------------------------
  // Flattening across tags
  // ---------------------------------------------------------------------

  /** `order` lists every tag of `o` exactly once: the order in which a Go
      `range` over the map happens to visit them. */
  predicate Enumerates(order: seq<string>, o: PagingOutput)
  {
    && (forall k :: k in order ==> k in o)
    && (forall k :: k in o ==> k in order)
    && (forall a, b :: 0 <= a < b < |order| ==> order[a] != order[b])
  }

  lemma EnumeratesTail(order: seq<string>, o: PagingOutput)
    requires order != [] && Enumerates(order, o)
    ensures order[0] in o && Enumerates(order[1..], o - {order[0]})
  {
    forall k | k in order[1..] ensures k != order[0] {
      var b :| 1 <= b < |order| && order[b] == k;
    }
  }

  lemma EnumeratesNothing(o: PagingOutput)
    requires Enumerates([], o)
    ensures o == map[]
  {
    assert o.Keys == {};
  }

  /** PagingOutput.List: every tag's tuples, tag after tag in `order`. Its
      length is the total number of tuples and, whatever the order, it holds
      the same tuples. */
  function List(o: PagingOutput, order: seq<string>): (r: OutputListWithTag)
    requires Enumerates(order, o)
    ensures |r| == TotalLen(o)
    ensures multiset(r) == TotalBag(o)
    decreases |order|
  {
    if order == [] then
      EnumeratesNothing(o);
      []
    else
      var k := order[0];
      EnumeratesTail(order, o);
      TotalLenAt(o, k);
      TotalBagAt(o, k);
      o[k] + List(o - {k}, order[1..])
  }

  /** PagingOutput.ListTaskN: slot i of every tuple under every tag, tag after
      tag in `order`. */
  function ListTaskN(o: PagingOutput, i: int, order: seq<string>): (r: OutputWithTag)
    requires HasSlot(o, i) && Enumerates(order, o)
    ensures |r| == TotalLen(o)
    decreases |order|
  {
    if order == [] then
      EnumeratesNothing(o);
      []
    else
      var k := order[0];
      EnumeratesTail(order, o);
      TotalLenAt(o, k);
      Column(o[k], i) + ListTaskN(o - {k}, i, order[1..])
  }

  /** ListTaskN is the column i of List, for the same iteration order. */
  lemma {:induction false} ListTaskNIsColumnOfList(o: PagingOutput, i: int, order: seq<string>)
    requires HasSlot(o, i) && Enumerates(order, o)
    ensures AllHaveSlot(List(o, order), i)
    ensures ListTaskN(o, i, order) == Column(List(o, order), i)
    decreases |order|
  {
    if order != [] {
      var k := order[0];
      EnumeratesTail(order, o);
      ListTaskNIsColumnOfList(o - {k}, i, order[1..]);
      ColumnAppend(o[k], List(o - {k}, order[1..]), i);
    }
  }

  // ---------------------------------------------------------------------
  // Lookups by alias
  // ---------------------------------------------------------------------

  /** The alias, when bound, names a slot index that can be looked up in a
      tuple (OutputWithTag.TaskN panics on a negative index). */
  predicate AliasUsable(alias: map<string, int>, name: string)
  {
    name in alias ==> 0 <= alias[name]
  }

  /** OutputWithTag.Task: "" for an unknown alias, never an error. */
  function TupleTask(o: OutputWithTag, alias: map<string, int>, name: string): (r: string)
    requires AliasUsable(alias, name)
    ensures name !in alias ==> r == ""
    ensures name in alias && alias[name] < |o| ==> r == o[alias[name]]
    ensures name in alias && |o| <= alias[name] ==> r == ""
  {
    if name !in alias then "" else TupleTaskN(o, alias[name])
  }

  /** OutputListWithTag.Task: nil for an unknown alias, never an error. */
  function TupleListTask(o: OutputListWithTag, alias: map<string, int>, name: string): (r: seq<string>)
    requires o != [] ==> AliasUsable(alias, name)
    ensures name !in alias ==> r == []
    ensures name in alias ==> r == TupleListTaskN(o, alias[name])
  {
    if name !in alias then [] else TupleListTaskN(o, alias[name])
  }

  /** PagingOutput.Task: nil for an unknown alias, never an error. */
  function Task(o: PagingOutput, alias: map<string, int>, name: string): (r: map<string, OutputWithTag>)
    requires name in alias ==> HasSlot(o, alias[name])
    ensures name !in alias ==> r == map[]
    ensures name in alias ==> r == TaskN(o, alias[name])
  {
    if name !in alias then map[] else TaskN(o, alias[name])
  }

  /** PagingOutput.ListTask: nil for an unknown alias, never an error. */
  function ListTask(o: PagingOutput, alias: map<string, int>, name: string, order: seq<string>): (r: OutputWithTag)
    requires Enumerates(order, o)
    requires name in alias ==> HasSlot(o, alias[name])
    ensures name !in alias ==> r == []
    ensures name in alias ==> |r| == TotalLen(o)
  {
    if name !in alias then [] else ListTaskN(o, alias[name], order)
  }

  // ---------------------------------------------------------------------
  // Appending a worker's contribution
  // ---------------------------------------------------------------------

  /** What one successful worker call does to the output: append `v` to the
      list under `tag`; when there is nothing to append no entry is created. */
  function Merge(o: PagingOutput, tag: string, v: OutputListWithTag): (r: PagingOutput)
    ensures Get(r, tag) == Get(o, tag) + v
    ensures tag in r <==> tag in o || v != []
    ensures forall k :: k != tag ==> (k in r <==> k in o)
    ensures forall k :: k != tag && k in o ==> r[k] == o[k]
  {
    if v == [] then o else o[tag := Get(o, tag) + v]
  }

  /** Output only grows: every list is a prefix of its new value. */
  lemma MergeAppendOnly(o: PagingOutput, tag: string, v: OutputListWithTag)
    ensures forall k :: k in o ==> k in Merge(o, tag, v) && o[k] <= Merge(o, tag, v)[k]
  {
  }

  /** Appending in two steps is appending the concatenation. */
  lemma MergeTwice(o: PagingOutput, tag: string, a: OutputListWithTag, b: OutputListWithTag)
    ensures Merge(Merge(o, tag, a), tag, b) == Merge(o, tag, a + b)
  {
    if a == [] { assert a + b == b; }
    if b == [] { assert a + b == a; }
    assert Get(o, tag) + a + b == Get(o, tag) + (a + b);
  }

  /** No tuple is lost or invented: a merge adds exactly the tuples of `v`. */
  lemma {:induction false} MergeTotal(o: PagingOutput, tag: string, v: OutputListWithTag)
    ensures TotalLen(Merge(o, tag, v)) == TotalLen(o) + |v|
    ensures TotalBag(Merge(o, tag, v)) == TotalBag(o) + multiset(v)
  {
    var r := Merge(o, tag, v);
    if v != [] {
      TotalLenAt(r, tag);
      TotalBagAt(r, tag);
      assert r - {tag} == o - {tag};
      if tag in o {
        TotalLenAt(o, tag);
        TotalBagAt(o, tag);
      } else {
        assert o - {tag} == o;
      }
    }
  }

  /** Workers appending under different tags commute exactly. */
  lemma MergeCommutes(o: PagingOutput, t1: string, v1: OutputListWithTag, t2: string, v2: OutputListWithTag)
    requires t1 != t2
    ensures Merge(Merge(o, t1, v1), t2, v2) == Merge(Merge(o, t2, v2), t1, v1)
  {
  }

  /** One locked append: the tuples one task yielded for one URL and the tag
      they go under. Appends of different workers may interleave task by
      task, so this, not a whole worker call, is the unit of arrival. */
  datatype Contribution = Contribution(tag: string, rows: OutputListWithTag)

  /** The tuples of the appends filed under tag `k`, in arrival order. */
  function RowsUnder(cs: seq<Contribution>, k: string): OutputListWithTag
  {
    if cs == [] then []
    else (if cs[0].tag == k then cs[0].rows else []) + RowsUnder(cs[1..], k)
  }

  /** The output after the appends arrive in the order given. Every list
      only grows, and a tag no append names keeps its list; what each named
      tag's list becomes is ArriveFilesByTag. */
  function Arrive(o: PagingOutput, cs: seq<Contribution>): (r: PagingOutput)
    ensures forall k :: k in o ==> k in r && o[k] <= r[k]
    ensures forall k :: (forall j :: 0 <= j < |cs| ==> cs[j].tag != k) ==> (k in r <==> k in o)
    ensures forall k :: k in o && (forall j :: 0 <= j < |cs| ==> cs[j].tag != k) ==> r[k] == o[k]
    decreases |cs|
  {
    if cs == [] then o
    else
      Arrive(Merge(o, cs[0].tag, cs[0].rows), cs[1..])
  }

  /** Each tag's list ends up as its old list followed by the tuples of the
      appends filed under that tag, in arrival order: no tuple lands under
      another tag, and appends under one tag keep their order. */
  lemma {:induction false} ArriveFilesByTag(o: PagingOutput, cs: seq<Contribution>, k: string)
    ensures Get(Arrive(o, cs), k) == Get(o, k) + RowsUnder(cs, k)
    decreases |cs|
  {
    if cs != [] {
      var m := Merge(o, cs[0].tag, cs[0].rows);
      var own := if cs[0].tag == k then cs[0].rows else [];
      var rest := RowsUnder(cs[1..], k);
      calc {
        Get(Arrive(o, cs), k);
        Get(Arrive(m, cs[1..]), k);
        { ArriveFilesByTag(m, cs[1..], k); }
        Get(m, k) + rest;
        Get(o, k) + own + rest;
        Get(o, k) + (own + rest);
        Get(o, k) + RowsUnder(cs, k);
      }
    }
  }

  /** All tuples of a sequence of contributions. */
  function RowsOf(cs: seq<Contribution>): multiset<OutputWithTag>
  {
    if cs == [] then multiset{} else multiset(cs[0].rows) + RowsOf(cs[1..])
  }

  /** Whatever the arrival order, the output ends up holding exactly the
      tuples it held before plus every contribution's tuples. */
  lemma {:induction false} ArriveKeepsEveryRow(o: PagingOutput, cs: seq<Contribution>)
    ensures TotalBag(Arrive(o, cs)) == TotalBag(o) + RowsOf(cs)
    ensures TotalLen(Arrive(o, cs)) == TotalLen(o) + |RowsOf(cs)|
    decreases |cs|
  {
    if cs != [] {
      MergeTotal(o, cs[0].tag, cs[0].rows);
      ArriveKeepsEveryRow(Merge(o, cs[0].tag, cs[0].rows), cs[1..]);
    }
  }
}
