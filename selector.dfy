/**
 * The selector-task builder and the task it compiles (sellector.go).
 *
 * Matched elements are an abstract type parameter `Sel`; a sub-selection is
 * a function `Sel -> Sel`, an extractor a function `Sel -> string`, and the
 * selection engine's queries are the uninterpreted functions of an Engine.
 */
module Selector {
  import opened Wrappers
  import opened Outputs
  import opened Page

  /** The selection engine (goquery) as uninterpreted functions. */
  datatype Engine<!Doc, !Sel> = Engine(
    find: (Doc, string) -> seq<Sel>,            // doc.Find(selector), in match order
    children: Sel -> Sel,                       // s.Children()
    findIn: (Sel, string) -> Sel,               // s.Find(selector)
    text: Sel -> string,                        // s.Text()
    attr: (Sel, string) -> Option<string>)      // s.Attr(name); None when absent

  /** One extraction step: a chain of narrowing sub-selections and, once
      finalised, the extractor that yields the step's slot. */
  datatype Step<!Sel> = Step(subSel: seq<Sel -> Sel>, extract: Option<Sel -> string>)

  /** The selector being built: its expression and its steps; the last step
      is the pending one. */
  datatype SelectorTask<!Sel> = SelectorTask(name: string, steps: seq<Step<Sel>>)
  {
    /** The shape every builder operation keeps: one pending step without an
        extractor, preceded by finalised steps that all have one. */
    predicate Building()
    {
      && |steps| >= 1
      && steps[|steps| - 1].extract.None?
      && forall k :: 0 <= k < |steps| - 1 ==> steps[k].extract.Some?
    }

    /** The number of finalised steps. */
    function Finalized(): nat
      requires |steps| >= 1
    {
      |steps| - 1
    }

    function Pending(): Step<Sel>
      requires |steps| >= 1
    {
      steps[|steps| - 1]
    }

    /** AddSubTask on the value: extend the pending step's chain by `f`. */
    function AddSub(f: Sel -> Sel): (r: SelectorTask<Sel>)
      requires |steps| >= 1
      ensures r.name == name && |r.steps| == |steps|
      ensures r.steps[..|steps| - 1] == steps[..|steps| - 1]
      ensures r.Pending().subSel == Pending().subSel + [f]
      ensures r.Pending().extract == Pending().extract
      ensures Building() ==> r.Building() && r.Finalized() == Finalized()
    {
      SelectorTask(name, steps[|steps| - 1 := Step(Pending().subSel + [f], Pending().extract)])
    }

    /** The steps the task compiled by AddSelectorTask(f) closes over: the
        pending step gets `f` as its extractor. */
    function Closed(f: Sel -> string): (r: seq<Step<Sel>>)
      requires |steps| >= 1
      ensures |r| == |steps| && r[..|steps| - 1] == steps[..|steps| - 1]
      ensures r[|steps| - 1] == Step(Pending().subSel, Some(f))
      ensures Building() ==> forall k :: 0 <= k < |r| ==> r[k].extract.Some?
    {
      steps[|steps| - 1 := Step(Pending().subSel, Some(f))]
    }

    /** AddSelectorTask on the value: finalise the pending step with `f` and
        open a new, empty pending step. */
    function Finalize(f: Sel -> string): (r: SelectorTask<Sel>)
      requires |steps| >= 1
      ensures r.name == name && r.steps == Closed(f) + [Step([], None)]
      ensures Building() ==> r.Building() && r.Finalized() == Finalized() + 1
    {
      SelectorTask(name, Closed(f) + [Step([], None)])
    }
  }

  /** AddSelector on the value: a selector with one empty pending step. */
  function Opened<Sel>(sel: string): (r: SelectorTask<Sel>)
    ensures r.name == sel && r.Building() && r.Finalized() == 0
    ensures r.Pending() == Step([], None)
  {
    SelectorTask(sel, [Step([], None)])
  }

  // ---------------------------------------------------------------------
  // The compiled task
  // ---------------------------------------------------------------------

  /** Apply a sub-selection chain to an element, left to right. */
  function Fold<Sel>(chain: seq<Sel -> Sel>, s: Sel): (r: Sel)
    ensures chain == [] ==> r == s
    ensures |chain| == 1 ==> r == chain[0](s)
  {
    if chain == [] then s else Fold(chain[1..], chain[0](s))
  }

  /** Extending a chain applies the new sub-selection last. */
  lemma {:induction false} FoldAppend<Sel>(chain: seq<Sel -> Sel>, f: Sel -> Sel, s: Sel)
    ensures Fold(chain + [f], s) == f(Fold(chain, s))
  {
    if chain != [] {
      assert (chain + [f])[1..] == chain[1..] + [f];
      FoldAppend(chain[1..], f, chain[0](s));
    }
  }

  /** The number of steps that have an extractor. */
  function Extracting<Sel>(steps: seq<Step<Sel>>): (n: nat)
    ensures n <= |steps|
  {
    if steps == [] then 0
    else (if steps[0].extract.Some? then 1 else 0) + Extracting(steps[1..])
  }

  /** The slot a step contributes for one element: none without an extractor. */
  function StepSlot<Sel>(st: Step<Sel>, s: Sel): seq<string>
  {
    match st.extract
    case None => []
    case Some(f) => [f(Fold(st.subSel, s))]
  }

  /** The tuple for one matched element: one slot per step with an extractor. */
  function Slots<Sel>(steps: seq<Step<Sel>>, s: Sel): (r: OutputWithTag)
    ensures |r| == Extracting(steps)
  {
    if steps == [] then [] else StepSlot(steps[0], s) + Slots(steps[1..], s)
  }

  /** Slots of a concatenation of step lists: later steps only add slots
      after the earlier ones. */
  lemma {:induction false} SlotsAppend<Sel>(a: seq<Step<Sel>>, b: seq<Step<Sel>>, s: Sel)
    ensures Slots(a + b, s) == Slots(a, s) + Slots(b, s)
  {
    if a == [] {
      assert a + b == b;
    } else {
      assert (a + b)[1..] == a[1..] + b;
      SlotsAppend(a[1..], b, s);
    }
  }

  /** When every step has an extractor, slot k is step k's extractor applied
      to the element narrowed by step k's chain. */
  lemma {:induction false} SlotsAt<Sel>(steps: seq<Step<Sel>>, s: Sel, k: nat)
    requires forall j :: 0 <= j < |steps| ==> steps[j].extract.Some?
    requires k < |steps|
    ensures |Slots(steps, s)| == |steps|
    ensures Slots(steps, s)[k] == steps[k].extract.value(Fold(steps[k].subSel, s))
  {
    SlotsCountAll(steps);
    if k > 0 {
      SlotsAt(steps[1..], s, k - 1);
    }
  }

  lemma {:induction false} SlotsCountAll<Sel>(steps: seq<Step<Sel>>)
    requires forall j :: 0 <= j < |steps| ==> steps[j].extract.Some?
    ensures Extracting(steps) == |steps|
  {
    if steps != [] {
      SlotsCountAll(steps[1..]);
    }
  }

  /** Every slot of the tuple is the empty string. */
  predicate Blank(t: OutputWithTag)
  {
    forall j :: 0 <= j < |t| ==> t[j] == ""
  }

  /** The tuple an element contributes: its slots, or nothing when all are
      empty. */
  function RowOf<Sel>(steps: seq<Step<Sel>>, s: Sel): OutputListWithTag
  {
    var t := Slots(steps, s);
    if Blank(t) then [] else [t]
  }

  /** The compiled task's loop over the matched elements, in match order.
      No tuple is all-empty, there are no more tuples than elements and
      every tuple has one slot per step with an extractor. */
  function Rows<Sel>(steps: seq<Step<Sel>>, elems: seq<Sel>): (r: OutputListWithTag)
    ensures |r| <= |elems|
    ensures forall j :: 0 <= j < |r| ==> |r[j]| == Extracting(steps) && !Blank(r[j])
  {
    if elems == [] then []
    else RowOf(steps, elems[0]) + Rows(steps, elems[1..])
  }

  lemma {:induction false} RowsAppend<Sel>(steps: seq<Step<Sel>>, a: seq<Sel>, b: seq<Sel>)
    ensures Rows(steps, a + b) == Rows(steps, a) + Rows(steps, b)
  {
    if a == [] {
      assert a + b == b;
    } else {
      assert (a + b)[1..] == a[1..] + b;
      RowsAppend(steps, a[1..], b);
    }
  }

  /** Pruning: element k contributes exactly its tuple, in its place, when
      at least one slot is non-empty, and nothing otherwise. */
  lemma RowsAt<Sel>(steps: seq<Step<Sel>>, elems: seq<Sel>, k: nat)
    requires k < |elems|
    ensures Rows(steps, elems) ==
      Rows(steps, elems[..k])
      + (if Blank(Slots(steps, elems[k])) then [] else [Slots(steps, elems[k])])
      + Rows(steps, elems[k + 1..])
  {
    assert elems == elems[..k] + ([elems[k]] + elems[k + 1..]);
    RowsAppend(steps, elems[..k], [elems[k]] + elems[k + 1..]);
    RowsAppend(steps, [elems[k]], elems[k + 1..]);
  }

  /** The task a selector compiles to: the tuples of the elements the engine
      matches for its expression. */
  function Compile<Doc(!new), Sel>(find: (Doc, string) -> seq<Sel>, name: string, steps: seq<Step<Sel>>): (r: PagingTask<Doc>)
    ensures r.TaskFunc?
    ensures forall doc :: r.run(doc) == Rows(steps, find(doc, name))
  {
    TaskFunc((doc: Doc) => Rows(steps, find(doc, name)))
  }

  /** Every tuple of the task AddSelectorTask(f) installs has one slot per
      finalised step, counting the step `f` finalises. */
  lemma CompiledTupleWidth<Doc(!new), Sel>(find: (Doc, string) -> seq<Sel>, t: SelectorTask<Sel>, f: Sel -> string, doc: Doc)
    requires t.Building()
    ensures var rows := Compile(find, t.name, t.Closed(f)).run(doc);
      && |rows| <= |find(doc, t.name)|
      && forall j :: 0 <= j < |rows| ==> |rows[j]| == t.Finalize(f).Finalized() && !Blank(rows[j])
  {
    SlotsCountAll(t.Closed(f));
  }

  // ---------------------------------------------------------------------
  // Aliases
  // ---------------------------------------------------------------------

  /** Alias as the source writes it: bind `name` to the step count minus
      two, unless there are no steps at all. */
  function AliasAsWritten<Sel>(alias: map<string, int>, t: SelectorTask<Sel>, name: string): (r: map<string, int>)
    ensures |t.steps| == 0 ==> r == alias
    ensures |t.steps| > 0 ==> name in r && r[name] == |t.steps| - 2
    ensures forall n :: n != name ==> (n in r <==> n in alias) && (n in alias ==> r[n] == alias[n])
  {
    if |t.steps| == 0 then alias else alias[name := |t.steps| - 2]
  }

  /** Right after AddSelector, before any step is finalised, the source's
      Alias binds -1; looking the alias up afterwards indexes slot -1 of a
      tuple, which panics. */
  lemma AliasBeforeAnyStep<Sel>(alias: map<string, int>, sel: string, name: string)
    ensures var a := AliasAsWritten(alias, Opened<Sel>(sel), name);
      name in a && a[name] == -1 && !AliasUsable(a, name)
  {
  }

  /** Alias as intended: bind `name` to the index of the most recently
      finalised step, and do nothing while no step is finalised. */
  function AliasChecked<Sel>(alias: map<string, int>, t: SelectorTask<Sel>, name: string): (r: map<string, int>)
    requires t.Building()
    ensures t.Finalized() == 0 ==> r == alias
    ensures t.Finalized() > 0 ==> name in r && r[name] == t.Finalized() - 1
    ensures forall n :: n != name ==> (n in r <==> n in alias) && (n in alias ==> r[n] == alias[n])
    ensures forall n :: AliasUsable(alias, n) ==> AliasUsable(r, n)
  {
    if t.Finalized() == 0 then alias else alias[name := t.Finalized() - 1]
  }

  /** The two Alias definitions agree once a step has been finalised. */
  lemma AliasAgreesAfterFinalize<Sel>(alias: map<string, int>, t: SelectorTask<Sel>, name: string)
    requires t.Building() && t.Finalized() > 0
    ensures AliasAsWritten(alias, t, name) == AliasChecked(alias, t, name)
  {
  }

  /** Alias stability: after AddSelectorTask(f) the alias index names the slot
      holding `f`'s value, in the task compiled then and in every task
      compiled after further steps are finalised. */
  lemma {:induction false} AliasNamesLatestSlot<Sel>(
    t: SelectorTask<Sel>, f: Sel -> string, later: seq<Step<Sel>>, s: Sel, alias: map<string, int>, name: string)
    requires t.Building()
    requires forall j :: 0 <= j < |later| ==> later[j].extract.Some?
    ensures var a := AliasChecked(alias, t.Finalize(f), name);
      var row := Slots(t.Closed(f) + later, s);
      && name in a && 0 <= a[name] < |row|
      && row[a[name]] == f(Fold(t.Pending().subSel, s))
  {
    var steps := t.Closed(f) + later;
    var k := t.Finalized();
    assert steps[k] == Step(t.Pending().subSel, Some(f));
    assert forall j :: 0 <= j < |steps| ==> steps[j].extract.Some? by {
      forall j | 0 <= j < |steps| ensures steps[j].extract.Some? {
        if j >= |t.Closed(f)| { assert steps[j] == later[j - |t.Closed(f)|]; }
      }
    }
    SlotsAt(steps, s, k);
  }

  /** Selector ".item" with two steps, Text() aliased "name" and
      Attr("href") aliased "link", over three matched elements of which the
      middle one has neither text nor href: the compiled task yields two
      tuples, and the "name" column lists the other two texts in match order. */
  lemma ItemsScenario<Doc(!new), Sel(!new)>(e: Engine<Doc, Sel>, doc: Doc, x1: Sel, x2: Sel, x3: Sel)
    requires e.find(doc, ".item") == [x1, x2, x3]
    requires e.text(x1) != "" && e.text(x3) != ""
    requires e.text(x2) == "" && e.attr(x2, "href").None?
    ensures
      var href := AttrOf(e.attr, "href");
      var t1 := Opened<Sel>(".item").Finalize(e.text);
      var t2 := t1.Finalize(href);
      var alias := AliasAsWritten(AliasAsWritten(map[], t1, "name"), t2, "link");
      var rows := Compile(e.find, t1.name, t1.Closed(href)).run(doc);
      && alias == map["name" := 0, "link" := 1]
      && rows == [[e.text(x1), href(x1)], [e.text(x3), href(x3)]]
      && TupleListTask(rows, alias, "name") == [e.text(x1), e.text(x3)]
  {
    var href := AttrOf(e.attr, "href");
    var t1 := Opened<Sel>(".item").Finalize(e.text);
    var steps := t1.Closed(href);
    assert steps == [Step([], Some(e.text)), Step([], Some(href))];
    forall x ensures Slots(steps, x) == [e.text(x), href(x)] {
      assert steps[1..][1..] == [];
    }
    assert href(x2) == "";
    assert Blank(Slots(steps, x2));
    var elems := [x1, x2, x3];
    assert elems[1..] == [x2, x3] && elems[1..][1..] == [x3] && elems[1..][1..][1..] == [];
    assert !Blank(Slots(steps, x1)) by { assert Slots(steps, x1)[0] != ""; }
    assert !Blank(Slots(steps, x3)) by { assert Slots(steps, x3)[0] != ""; }
    assert Rows(steps, [x3]) == [Slots(steps, x3)] + Rows(steps, []);
    assert Rows(steps, [x2, x3]) == [] + Rows(steps, [x3]);
    assert Rows(steps, elems) == [Slots(steps, x1)] + Rows(steps, [x2, x3]);
    var rows := Rows(steps, elems);
    assert rows == [[e.text(x1), href(x1)], [e.text(x3), href(x3)]];
    var t2 := t1.Finalize(href);
    var alias := AliasAsWritten(AliasAsWritten(map[], t1, "name"), t2, "link");
    assert alias == map["name" := 0, "link" := 1];
    assert rows[1..] == [[e.text(x3), href(x3)]] && rows[1..][1..] == [];
    assert TupleListTaskN(rows[1..][1..], 0) == [];
    assert TupleListTaskN(rows[1..], 0) == [e.text(x3)];
    assert TupleListTaskN(rows, 0) == [e.text(x1), e.text(x3)];
  }

  // ---------------------------------------------------------------------
  // The builder
  // ---------------------------------------------------------------------

  /** Sub-selection `s.Find(str)`. */
  function FindIn<Sel(!new)>(findIn: (Sel, string) -> Sel, str: string): (f: Sel -> Sel)
    ensures forall s :: f(s) == findIn(s, str)
  {
    (s: Sel) => findIn(s, str)
  }

  /** Extractor `s.Attr(str)`, with "" for a missing attribute. */
  function AttrOf<Sel(!new)>(attr: (Sel, string) -> Option<string>, str: string): (f: Sel -> string)
    ensures forall s :: attr(s, str).None? ==> f(s) == ""
    ensures forall s :: attr(s, str).Some? ==> f(s) == attr(s, str).value
  {
    (s: Sel) => match attr(s, str) case Some(v) => v case None => ""
  }

  /** A job being extended with one selector at a time (SelectorJob): the
      job it owns, the selection engine and the selector being built. */
  class SelectorJob<Doc(!new), Sel(!new)> {
    const job: PagingJob<Doc>
    const engine: Engine<Doc, Sel>
    var current: SelectorTask<Sel>

    ghost predicate Valid()
      reads this, job
    {
      current.Building() && |job.Tasks| >= 1
    }

    /** Urls.AddSelector: a new job over the set, with selector `sel` open. */
    constructor FromUrls(s: Urls, sel: string, engine: Engine<Doc, Sel>)
      ensures Valid() && fresh(job) && this.engine == engine
      ensures job.Set == s.data && job.Tags == StampIfTagged(map[], s.data, s.tag)
      ensures job.Tasks == [NilTask] && job.TaskAlias == map[] && job.Output == map[]
      ensures current == Opened(sel)
    {
      var pj := new PagingJob.New();
      pj.AddRange(s);
      job := pj;
      this.engine := engine;
      new;
      AddSelector(sel);
    }

    /** PagingJob.AddSelector: a copy of the job, with selector `sel` open. */
    constructor FromJob(pj: PagingJob<Doc>, sel: string, engine: Engine<Doc, Sel>)
      ensures Valid() && fresh(job) && this.engine == engine
      ensures job.Set == pj.Set && job.Tags == pj.Tags && job.Tasks == pj.Tasks + [NilTask]
      ensures job.TaskAlias == pj.TaskAlias && job.Output == pj.Output
      ensures current == Opened(sel)
    {
      job := new PagingJob.Copy(pj);
      this.engine := engine;
      new;
      AddSelector(sel);
    }

    /** AddSelector: open selector `sel` with one empty step and reserve its
        task slot with a nil placeholder. */
    method AddSelector(sel: string)
      modifies this`current, job`Tasks
      ensures Valid()
      ensures current == Opened(sel)
      ensures job.Tasks == old(job.Tasks) + [NilTask]
    {
      current := Opened(sel);
      job.AddTask(NilTask);
    }

    /** AddSubTask: extend the pending step's chain by `f`. */
    method AddSubTask(f: Sel -> Sel)
      requires Valid()
      modifies this`current
      ensures Valid()
      ensures current == old(current).AddSub(f)
    {
      current := current.AddSub(f);
    }

    /** Children: narrow the pending step to the element's children. */
    method Children()
      requires Valid()
      modifies this`current
      ensures Valid()
      ensures current == old(current).AddSub(engine.children)
    {
      AddSubTask(engine.children);
    }

    /** Find: narrow the pending step to the descendants matching `str`. */
    method Find(str: string)
      requires Valid()
      modifies this`current
      ensures Valid()
      ensures current == old(current).AddSub(FindIn(engine.findIn, str))
    {
      AddSubTask(FindIn(engine.findIn, str));
    }

    /** AddSelectorTask: give the pending step the extractor `f`, overwrite
        the job's last task with the selector compiled over the steps so far,
        and open a new empty step. */
    method AddSelectorTask(f: Sel -> string)
      requires Valid()
      modifies this`current, job`Tasks
      ensures Valid()
      ensures current == old(current).Finalize(f)
      ensures |job.Tasks| == |old(job.Tasks)|
      ensures job.Tasks[..|job.Tasks| - 1] == old(job.Tasks)[..|job.Tasks| - 1]
      ensures job.Tasks[|job.Tasks| - 1] == Compile(engine.find, current.name, old(current).Closed(f))
    {
      var compiled := Compile(engine.find, current.name, current.Closed(f));
      job.Tasks := job.Tasks[|job.Tasks| - 1 := compiled];
      current := current.Finalize(f);
    }

    /** Text: finalise the pending step with the element's text. */
    method Text()
      requires Valid()
      modifies this`current, job`Tasks
      ensures Valid()
      ensures current == old(current).Finalize(engine.text)
      ensures |job.Tasks| == |old(job.Tasks)|
      ensures job.Tasks[..|job.Tasks| - 1] == old(job.Tasks)[..|job.Tasks| - 1]
      ensures job.Tasks[|job.Tasks| - 1] == Compile(engine.find, current.name, old(current).Closed(engine.text))
    {
      AddSelectorTask(engine.text);
    }

    /** Attr: finalise the pending step with the value of attribute `str`. */
    method Attr(str: string)
      requires Valid()
      modifies this`current, job`Tasks
      ensures Valid()
      ensures current == old(current).Finalize(AttrOf(engine.attr, str))
      ensures |job.Tasks| == |old(job.Tasks)|
      ensures job.Tasks[..|job.Tasks| - 1] == old(job.Tasks)[..|job.Tasks| - 1]
      ensures job.Tasks[|job.Tasks| - 1] ==
        Compile(engine.find, current.name, old(current).Closed(AttrOf(engine.attr, str)))
    {
      AddSelectorTask(AttrOf(engine.attr, str));
    }

    /** Alias, as the source writes it (see AliasAsWritten). */
    method Alias(name: string)
      modifies job`TaskAlias
      ensures job.TaskAlias == AliasAsWritten(old(job.TaskAlias), current, name)
    {
      if |current.steps| == 0 {
        return;
      }
      job.TaskAlias := job.TaskAlias[name := |current.steps| - 2];
    }
  }
}
